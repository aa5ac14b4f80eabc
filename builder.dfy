/**
 * The builder: setters store a value in its kind's slot and append the kind
 * to the presence list once; `done` sorts the presence list by bit and folds
 * align-then-add over it to compute the header's length.
 */
module Builder {
  import opened Base
  import opened Align
  import opened Field
  import opened Aggregate

  /** Where a field of kind `k` ends when placed at or after offset `length`. */
  function FieldEnd(length: nat, k: Kind): nat {
    FieldStart(length, k) + Size(k)
  }

  /**
   * The fold in `done`: starting from `length`, round the running total up
   * to each kind's alignment and add the kind's size.
   */
  function FoldLength(length: nat, kinds: seq<Kind>): nat
    decreases |kinds|
  {
    if kinds == [] then length
    else FoldLength(FieldEnd(length, kinds[0]), kinds[1..])
  }

  /**
   * The fold never shrinks the length, and each kind adds at most its size
   * plus the padding its alignment can ask for.
   */
  lemma {:induction false} FoldLengthBounds(length: nat, kinds: seq<Kind>)
    ensures length <= FoldLength(length, kinds) <= length + 20 * |kinds|
    decreases |kinds|
  {
    if kinds != [] {
      var next := FieldEnd(length, kinds[0]);
      assert next <= length + 20;
      FoldLengthBounds(next, kinds[1..]);
    }
  }

  /** Folding over two lists in turn is folding over their concatenation. */
  lemma {:induction false} FoldLengthConcat(length: nat, a: seq<Kind>, b: seq<Kind>)
    ensures FoldLength(length, a + b) == FoldLength(FoldLength(length, a), b)
    decreases |a|
  {
    if a == [] {
      assert a + b == b;
    } else {
      assert (a + b)[0] == a[0] && (a + b)[1..] == a[1..] + b;
      FoldLengthConcat(FieldEnd(length, a[0]), a[1..], b);
    }
  }

  /** A kind whose bit is at most the first bit of an ascending list may head it. */
  lemma AscendingCons(k: Kind, s: seq<Kind>)
    requires AscendingByBit(s)
    requires s == [] || Bit(k) <= Bit(s[0])
    ensures AscendingByBit([k] + s)
  {
    var r := [k] + s;
    forall i, j | 0 <= i < j < |r|
      ensures Bit(r[i]) <= Bit(r[j])
    {
      if i == 0 {
        assert r[j] == s[j - 1];
        assert Bit(s[0]) <= Bit(s[j - 1]) || j == 1;
      } else {
        assert r[i] == s[i - 1] && r[j] == s[j - 1];
      }
    }
  }

  /** Puts `k` before the first kind of `s` whose bit is not smaller. */
  function InsertByBit(k: Kind, s: seq<Kind>): seq<Kind> {
    if s == [] || Bit(k) <= Bit(s[0]) then [k] + s
    else [s[0]] + InsertByBit(k, s[1..])
  }

  /** `sort_by_key(|kind| kind.bit())`, a stable sort by bit, as insertion sort. */
  function SortByBit(s: seq<Kind>): seq<Kind> {
    if s == [] then [] else InsertByBit(s[0], SortByBit(s[1..]))
  }

  /** Inserting into an ascending list keeps it ascending and adds exactly `k`. */
  lemma InsertByBitSorts(k: Kind, s: seq<Kind>)
    requires AscendingByBit(s)
    ensures var r := InsertByBit(k, s);
      && AscendingByBit(r)
      && multiset(r) == multiset(s) + multiset{k}
  {
    InsertByBitAscending(k, s);
    InsertByBitKeeps(k, s);
  }

  /** Inserting into an ascending list keeps it ascending; its head is `k` or the old head. */
  lemma {:induction false} InsertByBitAscending(k: Kind, s: seq<Kind>)
    requires AscendingByBit(s)
    ensures var r := InsertByBit(k, s);
      && AscendingByBit(r)
      && |r| > 0 && (r[0] == k || (s != [] && r[0] == s[0]))
  {
    if s == [] || Bit(k) <= Bit(s[0]) {
      AscendingCons(k, s);
    } else {
      assert AscendingByBit(s[1..]);
      InsertByBitAscending(k, s[1..]);
      AscendingCons(s[0], InsertByBit(k, s[1..]));
    }
  }

  /** Inserting adds exactly one occurrence of `k` and nothing else. */
  lemma {:induction false} InsertByBitKeeps(k: Kind, s: seq<Kind>)
    ensures multiset(InsertByBit(k, s)) == multiset(s) + multiset{k}
  {
    if s != [] && Bit(k) > Bit(s[0]) {
      InsertByBitKeeps(k, s[1..]);
      assert s == [s[0]] + s[1..];
    }
  }

  /** The sort orders the presence list by bit and keeps every entry. */
  lemma {:induction false} SortByBitSorts(s: seq<Kind>)
    ensures AscendingByBit(SortByBit(s))
    ensures multiset(SortByBit(s)) == multiset(s)
  {
    if s != [] {
      SortByBitSorts(s[1..]);
      InsertByBitSorts(s[0], SortByBit(s[1..]));
      assert s == [s[0]] + s[1..];
    }
  }

  /** The head of an ascending list has the smallest bit of any of its elements. */
  lemma HeadIsLeast(s: seq<Kind>, x: Kind)
    requires AscendingByBit(s) && x in s
    ensures Bit(s[0]) <= Bit(x)
  {
    var i :| 0 <= i < |s| && s[i] == x;
    assert i == 0 || Bit(s[0]) <= Bit(s[i]);
  }

  /** In a strictly ascending list only the head has the head's bit. */
  lemma HeadIsOnlyLeast(s: seq<Kind>, x: Kind)
    requires StrictlyAscending(s) && x in s && Bit(x) == Bit(s[0])
    ensures x == s[0]
  {
    var i :| 0 <= i < |s| && s[i] == x;
    assert i == 0;
  }

  /** Two lists in strictly ascending bit order with the same elements are the same list. */
  lemma {:induction false} StrictlyAscendingUnique(a: seq<Kind>, b: seq<Kind>)
    requires StrictlyAscending(a) && StrictlyAscending(b)
    requires multiset(a) == multiset(b)
    ensures a == b
    decreases |a|
  {
    if a == [] || b == [] {
      assert |a| == |multiset(a)| == |multiset(b)| == |b|;
    } else {
      assert a[0] in multiset(b) && b[0] in multiset(a);
      HeadIsLeast(b, a[0]);
      HeadIsLeast(a, b[0]);
      HeadIsOnlyLeast(a, b[0]);
      SameTails(a, b);
      StrictlyAscendingUnique(a[1..], b[1..]);
      assert a == [a[0]] + a[1..] && b == [b[0]] + b[1..];
    }
  }

  /** Lists with the same head and the same elements have tails with the same elements. */
  lemma SameTails(a: seq<Kind>, b: seq<Kind>)
    requires a != [] && b != [] && a[0] == b[0]
    requires multiset(a) == multiset(b)
    ensures multiset(a[1..]) == multiset(b[1..])
  {
    assert a == [a[0]] + a[1..] && b == [b[0]] + b[1..];
    assert multiset(a) == multiset{a[0]} + multiset(a[1..]);
    assert multiset(b) == multiset{a[0]} + multiset(b[1..]);
    forall x
      ensures multiset(a[1..])[x] == multiset(b[1..])[x]
    {
      assert multiset(a)[x] == multiset{a[0]}[x] + multiset(a[1..])[x];
      assert multiset(b)[x] == multiset{a[0]}[x] + multiset(b[1..])[x];
    }
  }

  /** Distinct slotted kinds sorted by bit are in strictly ascending bit order. */
  lemma SortedDistinctIsStrict(s: seq<Kind>)
    requires AscendingByBit(s) && Distinct(s) && AllSlotted(s)
    ensures StrictlyAscending(s)
  {
    forall i, j | 0 <= i < j < |s|
      ensures Bit(s[i]) < Bit(s[j])
    {
      BitInjective(s[i], s[j]);
    }
  }

  /** The elements of a list without repetitions, counted once each. */
  lemma DistinctMultiset(s: seq<Kind>, k: Kind)
    requires Distinct(s)
    ensures multiset(s)[k] == if k in s then 1 else 0
  {
    if s != [] {
      assert s == [s[0]] + s[1..];
      DistinctMultiset(s[1..], k);
    }
  }

  /**
   * The builder's invariant over the value it accumulates: the default
   * header fields, the presence list without repetitions, and a kind is
   * present exactly when its slot is set.
   */
  predicate Accumulated<V>(rt: Radiotap<V>) {
    && rt.header.version == 0
    && rt.header.size == 8
    && rt.header.length == 8
    && Distinct(rt.header.present)
    && AllSlotted(rt.header.present)
    && rt.slots.Keys == set k | k in rt.header.present
  }

  /** What a setter does to the accumulated value (the `field!` pattern). */
  function WithField<V>(rt: Radiotap<V>, k: Kind, v: V): Radiotap<V>
    requires HasSlot(k)
  {
    var present := if k in rt.header.present then rt.header.present else rt.header.present + [k];
    rt.(header := rt.header.(present := present), slots := rt.slots[k := v])
  }

  /** What `done` does to the accumulated value: sort, then fold the length. */
  function Finish<V>(rt: Radiotap<V>): Radiotap<V> {
    var sorted := SortByBit(rt.header.present);
    rt.(header := rt.header.(present := sorted, length := FoldLength(rt.header.length, sorted)))
  }

  /**
   * A setter stores its value in its slot (the last write wins), appends
   * its kind to the presence list only when absent, and leaves every other
   * slot and every other presence entry as it was; the builder's invariant
   * is kept.
   */
  lemma SetField<V>(rt: Radiotap<V>, k: Kind, v: V)
    requires Accumulated(rt) && HasSlot(k)
    ensures var rt' := WithField(rt, k, v);
      && Accumulated(rt')
      && rt'.slots[k] == v
      && (forall j :: j != k ==> (j in rt'.slots <==> j in rt.slots))
      && (forall j :: j != k && j in rt.slots ==> rt'.slots[j] == rt.slots[j])
      && (k in rt.header.present ==> rt'.header.present == rt.header.present)
      && (k !in rt.header.present ==> rt'.header.present == rt.header.present + [k])
      && multiset(rt'.header.present)[k] == 1
  {
    DistinctMultiset(WithField(rt, k, v).header.present, k);
  }

  /** Setting a kind twice is setting it once, to the second value. */
  lemma SetTwice<V>(rt: Radiotap<V>, k: Kind, a: V, b: V)
    requires HasSlot(k)
    ensures WithField(WithField(rt, k, a), k, b) == WithField(rt, k, b)
  {
  }

  /**
   * `done` sorts the presence list into strictly ascending bit order, keeps
   * its elements, computes the length by the fold from 8, and leaves the
   * version, the size and every slot unchanged.
   */
  lemma FinishSorts<V>(rt: Radiotap<V>)
    requires Accumulated(rt)
    ensures var done := Finish(rt);
      && StrictlyAscending(done.header.present)
      && Distinct(done.header.present) && AllSlotted(done.header.present)
      && multiset(done.header.present) == multiset(rt.header.present)
      && done.slots.Keys == (set k | k in done.header.present)
      && done.header.length == FoldLength(8, done.header.present)
      && done.header.version == rt.header.version
      && done.header.size == rt.header.size
      && done.slots == rt.slots
  {
    var sorted := SortByBit(rt.header.present);
    SortByBitSorts(rt.header.present);
    PermutationKeepsDistinct(rt.header.present, sorted);
    SortedDistinctIsStrict(sorted);
    forall k
      ensures k in sorted <==> k in rt.header.present
    {
      assert k in sorted <==> k in multiset(sorted);
    }
  }

  /** A rearrangement of a list of distinct slotted kinds is again one. */
  lemma PermutationKeepsDistinct(s: seq<Kind>, t: seq<Kind>)
    requires Distinct(s) && AllSlotted(s)
    requires multiset(s) == multiset(t)
    ensures Distinct(t) && AllSlotted(t)
  {
    forall i | 0 <= i < |t|
      ensures HasSlot(t[i])
    {
      assert t[i] in multiset(s);
    }
    forall i, j | 0 <= i < j < |t|
      ensures t[i] != t[j]
    {
      if t[i] == t[j] {
        DistinctMultiset(s, t[i]);
        TwiceCountsTwice(t, i, j);
        assert false;
      }
    }
  }

  /** A kind listed at two positions is counted at least twice. */
  lemma TwiceCountsTwice(t: seq<Kind>, i: nat, j: nat)
    requires i < j < |t| && t[i] == t[j]
    ensures multiset(t)[t[i]] >= 2
  {
    assert t == t[..j] + t[j..];
    assert t[..j][i] == t[i];
    assert t[j..][0] == t[j];
    assert multiset(t[..j])[t[i]] >= 1;
    assert multiset(t[j..])[t[i]] >= 1;
  }

  /**
   * Whatever order the setters were called in, two builders holding the
   * same slots finish with the same presence list and the same length.
   */
  lemma FinishIgnoresSetOrder<V>(a: Radiotap<V>, b: Radiotap<V>)
    requires Accumulated(a) && Accumulated(b)
    requires a.slots == b.slots
    ensures Finish(a) == Finish(b)
  {
    FinishSorts(a);
    FinishSorts(b);
    var pa, pb := a.header.present, b.header.present;
    assert multiset(pa) == multiset(pb) by {
      forall k
        ensures multiset(pa)[k] == multiset(pb)[k]
      {
        assert k in pa <==> k in a.slots.Keys;
        assert k in pb <==> k in b.slots.Keys;
        DistinctMultiset(pa, k);
        DistinctMultiset(pb, k);
      }
    }
    StrictlyAscendingUnique(Finish(a).header.present, Finish(b).header.present);
  }

  /** With no setter called, `done` gives `Radiotap::default()`. */
  lemma FinishEmpty<V>()
    ensures Finish(DefaultRadiotap<V>()) == DefaultRadiotap<V>()
  {
  }

  /** One field: its kind alone is present and the length is 8 plus its size. */
  lemma FinishSingle<V>(k: Kind, v: V)
    requires HasSlot(k)
    ensures var done := Finish(WithField(DefaultRadiotap<V>(), k, v));
      done.header == Header(0, 8, 8 + Size(k), [k]) && done.slots == map[k := v]
  {
    var one := WithField(DefaultRadiotap<V>(), k, v);
    assert one.header.present == [k];
    assert SortByBit([k]) == [k] by {
      assert [k][1..] == [];
    }
    AlignUpAligned(8, AlignOf(k));
    assert FoldLength(8, [k]) == FoldLength(8 + Size(k), []);
  }

  /**
   * `RadiotapBuilder`: accumulates a `Radiotap` value; `done` hands it over
   * with its header completed.
   */
  class RadiotapBuilder<V> {
    var inner: Radiotap<V>

    ghost predicate Valid()
      reads this
    {
      Accumulated(inner)
    }

    /** `RadiotapBuilder::new`: the default value. */
    constructor ()
      ensures Valid() && inner == DefaultRadiotap()
    {
      inner := DefaultRadiotap();
    }

    /** A setter generated by `field!`, for the slot of kind `k`. */
    method Set(k: Kind, v: V)
      requires Valid() && HasSlot(k)
      modifies this
      ensures Valid()
      ensures inner == WithField(old(inner), k, v)
    {
      if k !in inner.header.present {
        inner := inner.(header := inner.header.(present := inner.header.present + [k]));
      }
      inner := inner.(slots := inner.slots[k := v]);
      SetField(old(inner), k, v);
    }

    /** `done`: sorts the presence list in place, computes the length, returns the value. */
    method Done() returns (rt: Radiotap<V>)
      requires Valid()
      modifies this
      ensures rt == inner == Finish(old(inner))
    {
      var header := inner.header;
      var sorted := SortByBit(header.present);
      header := header.(present := sorted);
      header := header.(length := FoldLength(header.length, header.present));
      inner := inner.(header := header);
      rt := inner;
    }
  }

  /** Sorting the presence list of the documented example. */
  lemma DocExampleOrder()
    ensures SortByBit([Rate, TSFT, Flags]) == [TSFT, Flags, Rate]
  {
  }

  /** TSFT, flags and rate after the eight-byte prefix end at offset 18. */
  lemma DocExampleLength()
    ensures FoldLength(8, [TSFT, Flags, Rate]) == 18
  {
  }

  /** The three setters of the documented example, before `done`. */
  lemma DocExampleAccumulates<V>(rate: V, tsft: V, flags: V)
    ensures WithField(WithField(WithField(DefaultRadiotap(), Rate, rate), TSFT, tsft), Flags, flags)
      == Radiotap(Header(0, 8, 8, [Rate, TSFT, Flags]), map[Rate := rate, TSFT := tsft, Flags := flags])
  {
  }

  /** `done` on the three fields of the documented example. */
  lemma DocExampleFinish<V>(rt: Radiotap<V>)
    requires rt.header == Header(0, 8, 8, [Rate, TSFT, Flags])
    ensures Finish(rt) == Radiotap(Header(0, 8, 18, [TSFT, Flags, Rate]), rt.slots)
  {
    DocExampleOrder();
    DocExampleLength();
  }

  /**
   * The documented example: rate, TSFT and flags set in that order give
   * the presence list TSFT, flags, rate and a length of 18.
   */
  lemma DocExample<V>(rate: V, tsft: V, flags: V)
    ensures var set3 := WithField(WithField(WithField(DefaultRadiotap(), Rate, rate), TSFT, tsft), Flags, flags);
      Finish(set3) == Radiotap(Header(0, 8, 18, [TSFT, Flags, Rate]), map[Rate := rate, TSFT := tsft, Flags := flags])
  {
    DocExampleAccumulates(rate, tsft, flags);
    DocExampleFinish(Radiotap(Header(0, 8, 8, [Rate, TSFT, Flags]), map[Rate := rate, TSFT := tsft, Flags := flags]));
  }

  /** Sorting the presence list of five fields set out of bit order. */
  lemma SetMultipleOrder()
    ensures SortByBit([TSFT, Timestamp, Rate, Flags, Channel]) == [TSFT, Flags, Rate, Channel, Timestamp]
  {
  }

  /** From offset 18, the channel ends at 22 and the timestamp, aligned to 24, at 36. */
  lemma TimestampPadding()
    ensures FoldLength(18, [Channel, Timestamp]) == 36
  {
  }

  /** The timestamp's eight-byte alignment pads the five fields' length to 36. */
  lemma SetMultipleLength(kinds: seq<Kind>)
    requires kinds == [TSFT, Flags, Rate, Channel, Timestamp]
    ensures FoldLength(8, kinds) == 36
  {
    DocExampleLength();
    TimestampPadding();
    FoldLengthConcat(8, [TSFT, Flags, Rate], [Channel, Timestamp]);
    assert [TSFT, Flags, Rate] + [Channel, Timestamp] == kinds;
  }

  /** The five setters of the out-of-order example, before `done`. */
  lemma SetMultipleAccumulates<V>(tsft: V, timestamp: V, rate: V, flags: V, channel: V)
    ensures WithField(WithField(WithField(WithField(WithField(DefaultRadiotap(),
        TSFT, tsft), Timestamp, timestamp), Rate, rate), Flags, flags), Channel, channel)
      == Radiotap(Header(0, 8, 8, [TSFT, Timestamp, Rate, Flags, Channel]),
        map[TSFT := tsft, Timestamp := timestamp, Rate := rate, Flags := flags, Channel := channel])
  {
  }

  /** `done` on the five fields of the out-of-order example. */
  lemma SetMultipleFinish<V>(rt: Radiotap<V>)
    requires rt.header == Header(0, 8, 8, [TSFT, Timestamp, Rate, Flags, Channel])
    ensures Finish(rt) == Radiotap(Header(0, 8, 36, [TSFT, Flags, Rate, Channel, Timestamp]), rt.slots)
  {
    SetMultipleOrder();
    SetMultipleLength([TSFT, Flags, Rate, Channel, Timestamp]);
  }

  /**
   * Five fields set out of bit order come back sorted, and the timestamp's
   * eight-byte alignment pads the length to 36.
   */
  lemma SetMultiple<V>(tsft: V, timestamp: V, rate: V, flags: V, channel: V)
    ensures var set5 := WithField(WithField(WithField(WithField(WithField(DefaultRadiotap(),
        TSFT, tsft), Timestamp, timestamp), Rate, rate), Flags, flags), Channel, channel);
      Finish(set5) == Radiotap(Header(0, 8, 36, [TSFT, Flags, Rate, Channel, Timestamp]),
        map[TSFT := tsft, Timestamp := timestamp, Rate := rate, Flags := flags, Channel := channel])
  {
    SetMultipleAccumulates(tsft, timestamp, rate, flags, channel);
    SetMultipleFinish(Radiotap(Header(0, 8, 8, [TSFT, Timestamp, Rate, Flags, Channel]),
      map[TSFT := tsft, Timestamp := timestamp, Rate := rate, Flags := flags, Channel := channel]));
  }

  /** The documented example, through the builder. */
  method BuildDocExample<V>(rate: V, tsft: V, flags: V) returns (rt: Radiotap<V>)
    ensures rt.header == Header(0, 8, 18, [TSFT, Flags, Rate])
    ensures rt.slots == map[Rate := rate, TSFT := tsft, Flags := flags]
  {
    var b := new RadiotapBuilder();
    b.Set(Rate, rate);
    b.Set(TSFT, tsft);
    b.Set(Flags, flags);
    rt := b.Done();
    DocExample(rate, tsft, flags);
  }

  /** Five fields set out of bit order, through the builder. */
  method BuildSetMultiple<V>(tsft: V, timestamp: V, rate: V, flags: V, channel: V) returns (rt: Radiotap<V>)
    ensures rt.header == Header(0, 8, 36, [TSFT, Flags, Rate, Channel, Timestamp])
    ensures rt.slots == map[TSFT := tsft, Timestamp := timestamp, Rate := rate, Flags := flags, Channel := channel]
  {
    var b := new RadiotapBuilder();
    b.Set(TSFT, tsft);
    b.Set(Timestamp, timestamp);
    b.Set(Rate, rate);
    b.Set(Flags, flags);
    b.Set(Channel, channel);
    rt := b.Done();
    SetMultiple(tsft, timestamp, rate, flags, channel);
  }

  /** Setting TSFT twice keeps one presence entry and the second value. */
  method BuildSetTwice<V>(first: V, second: V) returns (rt: Radiotap<V>)
    ensures rt.header == Header(0, 8, 16, [TSFT])
    ensures rt.slots == map[TSFT := second]
  {
    var b := new RadiotapBuilder();
    b.Set(TSFT, first);
    b.Set(TSFT, second);
    rt := b.Done();
    SetTwice(DefaultRadiotap(), TSFT, first, second);
    FinishSingle(TSFT, second);
  }
}
