/**
 * How the parts fit together: the bytes `unparse` writes for a header the
 * builder completed are exactly `header.length` long, and parsing them back
 * gives the same value and leaves whatever followed untouched.
 */
module RoundTrip {
  import opened Base
  import opened Align
  import opened Field
  import opened Iterate
  import opened Aggregate
  import opened Builder

  /**
   * A value whose serialisation can be read back: a representable header
   * whose presence list names exactly the set slots, and whose length is
   * the align-then-add fold over that list from the prefix size.
   */
  predicate Canonical<V>(rt: Radiotap<V>) {
    && Representable(rt.header)
    && rt.slots.Keys == (set k | k in rt.header.present)
    && rt.header.length == FoldLength(rt.header.size, rt.header.present)
  }

  /**
   * Each listed kind has a typed slot that is set, and the field codec
   * writes its value as exactly the kind's size and reads it back.
   */
  ghost predicate Encodable<V(!new)>(c: Codec<V>, slots: map<Kind, V>, kinds: seq<Kind>) {
    forall i :: 0 <= i < |kinds| ==> FieldEncodable(c, slots, kinds[i])
  }

  ghost predicate FieldEncodable<V(!new)>(c: Codec<V>, slots: map<Kind, V>, k: Kind) {
    && HasSlot(k) && k in slots
    && |c.writeField(k, slots[k])| == Size(k)
    && c.readField(k, c.writeField(k, slots[k])) == Ok(slots[k])
  }

  lemma EncodableTail<V(!new)>(c: Codec<V>, slots: map<Kind, V>, kinds: seq<Kind>)
    requires kinds != [] && Encodable(c, slots, kinds)
    ensures FieldEncodable(c, slots, kinds[0]) && Encodable(c, slots, kinds[1..])
  {
    assert FieldEncodable(c, slots, kinds[0]);
    forall i | 0 <= i < |kinds[1..]|
      ensures FieldEncodable(c, slots, kinds[1..][i])
    {
      assert kinds[1..][i] == kinds[i + 1];
    }
  }

  /**
   * Every set slot holds a value its field codec writes as exactly the
   * kind's size and reads back.
   */
  ghost predicate SlotsEncodable<V(!new)>(c: Codec<V>, slots: map<Kind, V>) {
    forall k :: k in slots ==> FieldEncodable(c, slots, k)
  }

  /** The fields a canonical value with encodable slots lists are encodable, in list order. */
  lemma CanonicalEncodable<V(!new)>(c: Codec<V>, rt: Radiotap<V>)
    requires Canonical(rt) && SlotsEncodable(c, rt.slots)
    ensures Encodable(c, rt.slots, rt.header.present)
  {
    forall i | 0 <= i < |rt.header.present|
      ensures FieldEncodable(c, rt.slots, rt.header.present[i])
    {
      var k := rt.header.present[i];
      assert k in rt.header.present;
      assert k in rt.slots.Keys;
    }
  }

  /** The first of the emitted fields: padding, then its bytes, then the rest. */
  lemma EmitHead<V(!new)>(c: Codec<V>, slots: map<Kind, V>, pos: nat, kinds: seq<Kind>)
    requires kinds != [] && FieldEncodable(c, slots, kinds[0])
    ensures var k := kinds[0];
      var start := FieldStart(pos, k);
      EmitFields(c, slots, pos, kinds)
        == Zeros(start - pos) + c.writeField(k, slots[k]) + EmitFields(c, slots, start + Size(k), kinds[1..])
  {
  }

  lemma EmitHeadLength<V(!new)>(c: Codec<V>, slots: map<Kind, V>, pos: nat, kinds: seq<Kind>)
    requires kinds != [] && FieldEncodable(c, slots, kinds[0])
    ensures var end := FieldEnd(pos, kinds[0]);
      pos + |EmitFields(c, slots, pos, kinds)| == end + |EmitFields(c, slots, end, kinds[1..])|
  {
    var k := kinds[0];
    var start := FieldStart(pos, k);
    var rest := EmitFields(c, slots, start + Size(k), kinds[1..]);
    EmitHead(c, slots, pos, kinds);
    assert |EmitFields(c, slots, pos, kinds)| == (start - pos) + Size(k) + |rest|;
  }

  /**
   * Emitting encodable fields advances the running offset exactly as the
   * builder's fold does.
   */
  lemma {:induction false} EmitLength<V(!new)>(c: Codec<V>, slots: map<Kind, V>, pos: nat, kinds: seq<Kind>)
    requires Encodable(c, slots, kinds)
    ensures pos + |EmitFields(c, slots, pos, kinds)| == FoldLength(pos, kinds)
    decreases |kinds|
  {
    if kinds != [] {
      EncodableTail(c, slots, kinds);
      EmitHeadLength(c, slots, pos, kinds);
      EmitLength(c, slots, FieldEnd(pos, kinds[0]), kinds[1..]);
    }
  }

  /** `unparse` writes the header's `size` bytes, then the emitted fields. */
  lemma SerializedParts<V(!new)>(c: Codec<V>, rt: Radiotap<V>)
    requires |c.writeHeader(rt.header)| == rt.header.size
    ensures var s := Serialized(c, rt);
      var e := EmitFields(c, rt.slots, rt.header.size, rt.header.present);
      && s == c.writeHeader(rt.header) + e
      && rt.header.size + |e| == |s|
      && s[rt.header.size..rt.header.size + |e|] == e
  {
  }

  /**
   * What `unparse` writes for a canonical value with encodable slots is
   * exactly the length its header declares: the byte count the writer
   * returns equals the length `done` computed.
   */
  lemma SerializedLength<V(!new)>(c: Codec<V>, rt: Radiotap<V>)
    requires c.Valid() && Canonical(rt) && SlotsEncodable(c, rt.slots)
    ensures |Serialized(c, rt)| == rt.header.length
  {
    CanonicalEncodable(c, rt);
    SerializedParts(c, rt);
    EmitLength(c, rt.slots, rt.header.size, rt.header.present);
  }

  /** A slice of a slice of `data` is a slice of `data`. */
  lemma SliceInside(data: seq<u8>, pos: nat, e: seq<u8>, a: nat, b: nat)
    requires pos + |e| <= |data| && data[pos..pos + |e|] == e && a <= b <= |e|
    ensures data[pos + a..pos + b] == e[a..b]
  {
    forall i | 0 <= i < b - a
      ensures data[pos + a..pos + b][i] == e[a..b][i]
    {
      assert data[pos..pos + |e|][a + i] == data[pos + a + i];
    }
  }

  /** Where `x + y + z` sits in `data` at `pos`, `y` sits at `mid` and `z` at `end`. */
  lemma SliceParts(data: seq<u8>, pos: nat, x: seq<u8>, y: seq<u8>, z: seq<u8>, mid: nat, end: nat)
    requires pos + |x + y + z| <= |data| && data[pos..pos + |x + y + z|] == x + y + z
    requires mid == pos + |x| && end == mid + |y|
    ensures end + |z| <= |data|
    ensures data[mid..end] == y
    ensures data[end..end + |z|] == z
  {
    var e := x + y + z;
    SliceInside(data, pos, e, |x|, |x| + |y|);
    assert e[|x|..|x| + |y|] == y;
    SliceInside(data, pos, e, |x| + |y|, |e|);
    assert e[|x| + |y|..|e|] == z;
  }

  /** The bytes emitted for a list of kinds lie in `data` at offset `pos`. */
  predicate EmittedAt<V(!new)>(c: Codec<V>, slots: map<Kind, V>, data: seq<u8>, pos: nat, kinds: seq<Kind>) {
    var e := EmitFields(c, slots, pos, kinds);
    pos + |e| <= |data| && data[pos..pos + |e|] == e
  }

  /**
   * Over emitted bytes, the iterator's step for an encodable kind yields
   * that kind's written bytes and leaves the cursor where the rest were
   * emitted.
   */
  lemma EmittedStep<V(!new)>(c: Codec<V>, slots: map<Kind, V>, data: seq<u8>, pos: nat, kinds: seq<Kind>)
    requires kinds != [] && FieldEncodable(c, slots, kinds[0])
    requires EmittedAt(c, slots, data, pos, kinds)
    ensures var k := kinds[0];
      var start := FieldStart(pos, k);
      var end := start + Size(k);
      && NextStep(c, data, pos, k) == Step(Ok(FieldSlice(k, start, end, c.writeField(k, slots[k]))), end)
      && EmittedAt(c, slots, data, end, kinds[1..])
  {
    EmittedParts(c, slots, data, pos, kinds);
    StepWindow(c, data, pos, kinds[0]);
  }

  /** Over emitted bytes, the first kind's bytes sit at its aligned offset, and the rest follow. */
  lemma EmittedParts<V(!new)>(c: Codec<V>, slots: map<Kind, V>, data: seq<u8>, pos: nat, kinds: seq<Kind>)
    requires kinds != [] && FieldEncodable(c, slots, kinds[0])
    requires EmittedAt(c, slots, data, pos, kinds)
    ensures var k := kinds[0];
      var start := FieldStart(pos, k);
      var end := start + Size(k);
      && end <= |data| && data[start..end] == c.writeField(k, slots[k])
      && EmittedAt(c, slots, data, end, kinds[1..])
  {
    var k := kinds[0];
    var start := FieldStart(pos, k);
    var bytes := c.writeField(k, slots[k]);
    var end := start + Size(k);
    var padding := Zeros(start - pos);
    var rest := EmitFields(c, slots, end, kinds[1..]);
    EmitHead(c, slots, pos, kinds);
    assert EmitFields(c, slots, pos, kinds) == padding + bytes + rest;
    SliceParts(data, pos, padding, bytes, rest, start, end);
  }

  /**
   * One step of draining emitted bytes: the first kind's value is read back
   * into its slot, and the rest are drained from where they were emitted.
   */
  lemma AbsorbEmittedStep<V(!new)>(
    c: Codec<V>, slots: map<Kind, V>, data: seq<u8>, pos: nat, kinds: seq<Kind>, acc: map<Kind, V>)
    requires kinds != [] && FieldEncodable(c, slots, kinds[0])
    requires EmittedAt(c, slots, data, pos, kinds)
    ensures var end := FieldStart(pos, kinds[0]) + Size(kinds[0]);
      && EmittedAt(c, slots, data, end, kinds[1..])
      && Absorb(c, Drain(c, data, pos, kinds), acc)
         == Absorb(c, Drain(c, data, end, kinds[1..]), acc[kinds[0] := slots[kinds[0]]])
  {
    var k := kinds[0];
    var start := FieldStart(pos, k);
    var end := start + Size(k);
    EmittedStep(c, slots, data, pos, kinds);
    AbsorbAfterStep(c, data, pos, kinds, FieldSlice(k, start, end, c.writeField(k, slots[k])), end, slots[k], acc);
  }

  /** The slots of the listed kinds, taken from `slots`. */
  function Restrict<V>(slots: map<Kind, V>, kinds: seq<Kind>): map<Kind, V> {
    map k | k in kinds && k in slots :: slots[k]
  }

  lemma RestrictCons<V>(acc: map<Kind, V>, slots: map<Kind, V>, kinds: seq<Kind>)
    requires kinds != [] && kinds[0] in slots
    ensures acc[kinds[0] := slots[kinds[0]]] + Restrict(slots, kinds[1..]) == acc + Restrict(slots, kinds)
  {
    var k := kinds[0];
    var lhs := acc[k := slots[k]] + Restrict(slots, kinds[1..]);
    var rhs := acc + Restrict(slots, kinds);
    assert forall x :: x in kinds <==> x == k || x in kinds[1..] by {
      assert kinds == [k] + kinds[1..];
    }
    assert lhs.Keys == rhs.Keys;
    forall x | x in lhs
      ensures lhs[x] == rhs[x]
    {
    }
  }

  /**
   * Draining the iterator over emitted bytes and absorbing every item
   * succeeds and sets each listed kind's slot to the value that was
   * written for it.
   */
  lemma {:induction false} AbsorbEmitted<V(!new)>(
    c: Codec<V>, slots: map<Kind, V>, data: seq<u8>, pos: nat, kinds: seq<Kind>, acc: map<Kind, V>)
    requires Encodable(c, slots, kinds) && EmittedAt(c, slots, data, pos, kinds)
    ensures Absorb(c, Drain(c, data, pos, kinds), acc) == Ok(acc + Restrict(slots, kinds))
    decreases |kinds|
  {
    if kinds == [] {
      assert acc + Restrict(slots, kinds) == acc;
    } else {
      var k := kinds[0];
      EncodableTail(c, slots, kinds);
      AbsorbEmittedStep(c, slots, data, pos, kinds, acc);
      AbsorbEmitted(c, slots, data, FieldStart(pos, k) + Size(k), kinds[1..], acc[k := slots[k]]);
      RestrictCons(acc, slots, kinds);
    }
  }

  lemma RestrictAll<V>(rt: Radiotap<V>)
    requires Canonical(rt)
    ensures map[] + Restrict(rt.slots, rt.header.present) == rt.slots
  {
  }

  /**
   * The serialised bytes start with the version byte 0, and the header is
   * read back from them whatever follows.
   */
  lemma HeaderOfSerialized<V(!new)>(c: Codec<V>, rt: Radiotap<V>, rest: seq<u8>)
    requires c.Valid() && Representable(rt.header)
    ensures |Serialized(c, rt)| > 0 && (Serialized(c, rt) + rest)[0] == 0
    ensures c.readHeader(Serialized(c, rt) + rest) == Ok(rt.header)
  {
    var head := c.writeHeader(rt.header);
    assert |head| == 8 && head[0] == 0;
    var tail := EmitFields(c, rt.slots, |head|, rt.header.present) + rest;
    assert Serialized(c, rt) + rest == head + tail;
    assert c.readHeader(head + tail) == Ok(rt.header);
  }

  lemma SplitAt(s: seq<u8>, rest: seq<u8>)
    ensures (s + rest)[..|s|] == s && (s + rest)[|s|..] == rest
  {
  }

  /** The serialised header is read back, and the input splits at its length. */
  lemma CaptureOfSerialized<V(!new)>(c: Codec<V>, rt: Radiotap<V>, rest: seq<u8>)
    requires c.Valid() && Canonical(rt) && SlotsEncodable(c, rt.slots)
    ensures ParseCapture(c, Serialized(c, rt) + rest) == Ok((Capture(rt.header, Serialized(c, rt)), rest))
  {
    SerializedLength(c, rt);
    HeaderOfSerialized(c, rt, rest);
    SplitAt(Serialized(c, rt), rest);
  }

  /**
   * Parsing what `unparse` wrote for a canonical value with encodable slots
   * gives the value back and leaves the bytes that followed it unconsumed.
   */
  lemma RoundTrip<V(!new)>(c: Codec<V>, rt: Radiotap<V>, rest: seq<u8>)
    requires c.Valid() && Canonical(rt) && SlotsEncodable(c, rt.slots)
    ensures Parsed(c, Serialized(c, rt) + rest) == Ok((rt, rest))
  {
    CaptureOfSerialized(c, rt, rest);
    CanonicalEncodable(c, rt);
    SerializedParts(c, rt);
    AbsorbEmitted(c, rt.slots, Serialized(c, rt), rt.header.size, rt.header.present, map[]);
    RestrictAll(rt);
  }

  /**
   * `Header::default` with no slot set is what `done` returns when no setter
   * ran, and it is canonical: it serialises to its eight header bytes and
   * parses back.
   */
  lemma DefaultCanonical<V>()
    ensures Accumulated(DefaultRadiotap<V>())
    ensures Canonical(DefaultRadiotap<V>())
    ensures Finish(DefaultRadiotap<V>()) == DefaultRadiotap<V>()
  {
    FinishEmpty<V>();
  }

  /** A kind with a typed slot owns one of the first 23 bits. */
  lemma SlottedBitBound(k: Kind)
    requires HasSlot(k)
    ensures Bit(k) <= 22
  {
  }

  /** In strictly ascending bit order, the i-th kind's bit is at least i. */
  lemma {:induction false} AscendingBitAtLeastIndex(ks: seq<Kind>, i: nat)
    requires StrictlyAscending(ks) && i < |ks|
    ensures Bit(ks[i]) >= i
  {
    if i > 0 {
      AscendingBitAtLeastIndex(ks, i - 1);
      assert Bit(ks[i - 1]) < Bit(ks[i]);
    }
  }

  /** A header lists at most 23 kinds with typed slots. */
  lemma PresentBound(ks: seq<Kind>)
    requires StrictlyAscending(ks) && AllSlotted(ks)
    ensures |ks| <= 23
  {
    if |ks| > 0 {
      AscendingBitAtLeastIndex(ks, |ks| - 1);
      SlottedBitBound(ks[|ks| - 1]);
    }
  }

  /**
   * What `done` returns is canonical: its length fits the 16-bit field
   * (at most 23 fields of at most 20 bytes each follow the prefix).
   */
  lemma FinishCanonical<V>(rt: Radiotap<V>)
    requires Accumulated(rt)
    ensures Canonical(Finish(rt))
  {
    FinishSorts(rt);
    var done := Finish(rt);
    var n := |done.header.present|;
    PresentBound(done.header.present);
    FoldLengthBounds(8, done.header.present);
    assert 20 * n <= 460;
  }

  /**
   * Building, unparsing and parsing again gives what `done` returned; the
   * writer's byte count is the length `done` computed.
   */
  lemma BuildRoundTrip<V(!new)>(c: Codec<V>, rt: Radiotap<V>, rest: seq<u8>)
    requires c.Valid() && Accumulated(rt) && SlotsEncodable(c, rt.slots)
    ensures |Serialized(c, Finish(rt))| == Finish(rt).header.length
    ensures Parsed(c, Serialized(c, Finish(rt)) + rest) == Ok((Finish(rt), rest))
  {
    FinishCanonical(rt);
    SerializedLength(c, Finish(rt));
    RoundTrip(c, Finish(rt), rest);
  }
}
