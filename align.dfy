/**
 * Rounding an offset up to a power-of-two boundary, as the cursor of the
 * field iterator and the serialiser both do before every field.
 */
module Align {

  /** The alignments a Radiotap field can require. */
  predicate IsAlignment(a: nat) {
    a == 1 || a == 2 || a == 4 || a == 8
  }

  /** `p` is a multiple of the alignment `a` (remainders by each constant). */
  predicate Aligned(p: nat, a: nat)
    requires IsAlignment(a)
  {
    if a == 1 then true
    else if a == 2 then p % 2 == 0
    else if a == 4 then p % 4 == 0
    else p % 8 == 0
  }

  /**
   * `(p + a - 1) & !(a - 1)` on unbounded offsets: clearing the low bits
   * of `q = p + a - 1` below `a` is subtracting its remainder modulo `a`,
   * written out for each alignment. The result is the least multiple of
   * `a` that is at least `p`.
   */
  function AlignUp(p: nat, a: nat): (r: nat)
    requires IsAlignment(a)
    ensures Aligned(r, a) && p <= r < p + a
  {
    if a == 1 then p
    else if a == 2 then RoundDown(p + 1, 2); (p + 1) - (p + 1) % 2
    else if a == 4 then RoundDown(p + 3, 4); (p + 3) - (p + 3) % 4
    else RoundDown(p + 7, 8); (p + 7) - (p + 7) % 8
  }

  /** Subtracting its remainder takes `q` down to a multiple of `a` less than `a` below it. */
  lemma RoundDown(q: nat, a: nat)
    requires a == 2 || a == 4 || a == 8
    ensures var r := q - q % a; r % a == 0 && r <= q < r + a
  {
    var k := q / a;
    var m := q % a;
    assert q == a * k + m && 0 <= m < a;
    MultipleMod(k, a);
  }

  /** A multiple of `a` leaves no remainder. */
  lemma MultipleMod(k: int, a: nat)
    requires a == 2 || a == 4 || a == 8
    ensures (a * k) % a == 0
  {
    if a == 2 {
    } else if a == 4 {
    } else {
    }
  }

  /** No other multiple of `a` lies between `p` and `AlignUp(p, a)`. */
  lemma AlignUpIsLeast(p: nat, a: nat, m: nat)
    requires IsAlignment(a)
    requires Aligned(m, a) && p <= m
    ensures AlignUp(p, a) <= m
  {
    if a != 1 {
      RoundDownIsLeast(p + a - 1, a, m);
    }
  }

  /** Rounding `q` down to a multiple of `a` overshoots no multiple of `a` above `q - a`. */
  lemma RoundDownIsLeast(q: nat, a: nat, m: nat)
    requires a == 2 || a == 4 || a == 8
    requires m % a == 0 && q < m + a
    ensures q - q % a <= m
  {
    var k, n := q / a, m / a;
    assert q - q % a == a * k;
    assert m == a * n;
  }

  /** An offset that is already aligned does not move. */
  lemma AlignUpAligned(p: nat, a: nat)
    requires IsAlignment(a) && Aligned(p, a)
    ensures AlignUp(p, a) == p
  {
    AlignUpIsLeast(p, a, p);
  }

  /** Aligning skips exactly `(a - p % a) % a` bytes: none when `p` is already aligned. */
  lemma AlignUpPadding(p: nat, a: nat)
    requires IsAlignment(a)
    ensures AlignUp(p, a) - p == (a - p % a) % a
  {
    if a == 2 {
      PaddingBy2(p);
    } else if a == 4 {
      PaddingBy4(p);
    } else if a == 8 {
      PaddingBy8(p);
    }
  }

  lemma PaddingBy2(p: nat)
    ensures (p + 1) - (p + 1) % 2 - p == (2 - p % 2) % 2
  {
  }

  lemma PaddingBy4(p: nat)
    ensures (p + 3) - (p + 3) % 4 - p == (4 - p % 4) % 4
  {
  }

  lemma PaddingBy8(p: nat)
    ensures (p + 7) - (p + 7) % 8 - p == (8 - p % 8) % 8
  {
  }

  /** The source's expression on 64-bit unsigned offsets. */
  function AlignMask(p: bv64, a: bv64): bv64 {
    (p + a - 1) & !(a - 1)
  }

  /**
   * On 64-bit offsets that cannot wrap, for each alignment the mask lands on
   * a multiple of `a` (its low bits are clear) and adds exactly
   * `(a - p mod a) mod a`, remainders written as masks with `a - 1`.
   */
  lemma AlignMaskRoundsUp(p: bv64)
    requires p <= 0xFFFF_FFFF_FFFF_FFF0
    ensures AlignMask(p, 1) == p
    ensures AlignMask(p, 2) & 1 == 0 && AlignMask(p, 2) == p + ((2 - (p & 1)) & 1)
    ensures AlignMask(p, 4) & 3 == 0 && AlignMask(p, 4) == p + ((4 - (p & 3)) & 3)
    ensures AlignMask(p, 8) & 7 == 0 && AlignMask(p, 8) == p + ((8 - (p & 7)) & 7)
  {
    MaskBy2(p);
    MaskBy4(p);
    MaskBy8(p);
  }

  lemma MaskBy2(p: bv64)
    requires p <= 0xFFFF_FFFF_FFFF_FFF0
    ensures AlignMask(p, 2) & 1 == 0 && AlignMask(p, 2) == p + ((2 - (p & 1)) & 1)
  {
  }

  lemma MaskBy4(p: bv64)
    requires p <= 0xFFFF_FFFF_FFFF_FFF0
    ensures AlignMask(p, 4) & 3 == 0 && AlignMask(p, 4) == p + ((4 - (p & 3)) & 3)
  {
  }

  lemma MaskBy8(p: bv64)
    requires p <= 0xFFFF_FFFF_FFFF_FFF0
    ensures AlignMask(p, 8) & 7 == 0 && AlignMask(p, 8) == p + ((8 - (p & 7)) & 7)
  {
  }
}
