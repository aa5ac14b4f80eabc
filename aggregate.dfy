/**
 * The aggregate value and its codec: `parse` drives the field iterator and
 * decodes each yielded field into its typed slot; `unparse` writes the
 * header, then each present field after zero padding to its alignment.
 */
module Aggregate {
  import opened Base
  import opened Align
  import opened Field
  import opened Iterate

  /**
   * A decoded capture: the header plus, for each kind with a typed slot,
   * an optional value (a kind is a key of `slots` when its slot is set).
   */
  datatype Radiotap<V> = Radiotap(header: Header, slots: map<Kind, V>)

  /**
   * `Header::default`: version 0, an eight-byte prefix and nothing present;
   * a header the prefix encoding can carry, whose length covers only the
   * prefix.
   */
  function DefaultHeader(): (h: Header)
    ensures Representable(h) && h.present == [] && h.length == h.size == 8
  {
    Header(0, 8, 8, [])
  }

  /** `Radiotap::default`: the default header and every slot empty. */
  function DefaultRadiotap<V>(): Radiotap<V> {
    Radiotap(DefaultHeader(), map[])
  }

  /** The kinds with a typed slot among the fields yielded. */
  function SlottedKinds(items: seq<Result<FieldSlice>>): set<Kind> {
    set i | 0 <= i < |items| && items[i].Ok? && HasSlot(items[i].value.kind) :: items[i].value.kind
  }

  lemma SlottedKindsCons(items: seq<Result<FieldSlice>>)
    requires items != []
    ensures SlottedKinds(items) ==
      SlottedKinds(items[1..]) + (if items[0].Ok? && HasSlot(items[0].value.kind) then {items[0].value.kind} else {})
  {
    var tail := items[1..];
    forall k | k in SlottedKinds(items[1..])
      ensures k in SlottedKinds(items)
    {
      var j :| 0 <= j < |tail| && tail[j].Ok? && HasSlot(tail[j].value.kind) && tail[j].value.kind == k;
      assert items[j + 1] == tail[j];
    }
    forall k | k in SlottedKinds(items)
      ensures k in SlottedKinds(items[1..]) || (items[0].Ok? && k == items[0].value.kind)
    {
      var j :| 0 <= j < |items| && items[j].Ok? && HasSlot(items[j].value.kind) && items[j].value.kind == k;
      if j > 0 {
        assert tail[j - 1] == items[j];
      }
    }
  }

  /**
   * The body of `parse`'s loop over the yielded items, from slots `slots`:
   * the first error (the iterator's or a field decoder's) aborts; each
   * field with a typed slot has its bytes decoded into that slot; any
   * other field is dropped.
   */
  function Absorb<V(!new)>(c: Codec<V>, items: seq<Result<FieldSlice>>, slots: map<Kind, V>): Result<map<Kind, V>>
    decreases |items|
  {
    if items == [] then
      Ok(slots)
    else
      match items[0]
      case Err(e) => Err(e)
      case Ok(f) =>
        if !HasSlot(f.kind) then
          Absorb(c, items[1..], slots)
        else
          match c.readField(f.kind, f.bytes)
          case Err(e) => Err(e)
          case Ok(v) => Absorb(c, items[1..], slots[f.kind := v])
  }

  /**
   * When `Absorb` succeeds, every item was a field, the slots set are the
   * starting ones plus the slotted kinds yielded, and a slot no yielded
   * field names keeps its starting value.
   */
  lemma {:induction false} AbsorbOk<V(!new)>(c: Codec<V>, items: seq<Result<FieldSlice>>, slots: map<Kind, V>)
    requires Absorb(c, items, slots).Ok?
    ensures forall i :: 0 <= i < |items| ==> items[i].Ok?
    ensures Absorb(c, items, slots).value.Keys == slots.Keys + SlottedKinds(items)
    ensures forall k :: k in slots && k !in SlottedKinds(items) ==> Absorb(c, items, slots).value[k] == slots[k]
    decreases |items|
  {
    if items == [] {
      assert SlottedKinds(items) == {};
    } else {
      SlottedKindsCons(items);
      var f := items[0].value;
      var next := if HasSlot(f.kind) then slots[f.kind := c.readField(f.kind, f.bytes).value] else slots;
      assert Absorb(c, items, slots) == Absorb(c, items[1..], next);
      AbsorbOk(c, items[1..], next);
      forall i | 0 < i < |items|
        ensures items[i].Ok?
      {
        assert items[i] == items[1..][i - 1];
      }
    }
  }

  /**
   * A later field of the same kind overwrites an earlier one: each slot
   * ends up holding the decoding of the last field yielded for its kind.
   */
  lemma {:induction false} AbsorbLastWins<V(!new)>(
    c: Codec<V>, items: seq<Result<FieldSlice>>, slots: map<Kind, V>, i: nat)
    requires Absorb(c, items, slots).Ok?
    requires i < |items| && items[i].Ok? && HasSlot(items[i].value.kind)
    requires forall j :: i < j < |items| && items[j].Ok? ==> items[j].value.kind != items[i].value.kind
    ensures var f := items[i].value;
      var r := Absorb(c, items, slots).value;
      f.kind in r && c.readField(f.kind, f.bytes) == Ok(r[f.kind])
    decreases i
  {
    var f := items[0].value;
    var next := if HasSlot(f.kind) then slots[f.kind := c.readField(f.kind, f.bytes).value] else slots;
    assert Absorb(c, items, slots) == Absorb(c, items[1..], next);
    if i > 0 {
      AbsorbLastWins(c, items[1..], next, i - 1);
    } else {
      AbsorbOk(c, items[1..], next);
      SlottedKindsCons(items);
      assert f.kind !in SlottedKinds(items[1..]);
    }
  }

  /** Where the first error of `Absorb` comes from. */
  predicate FailsAt<V(!new)>(c: Codec<V>, items: seq<Result<FieldSlice>>, i: nat, e: Error)
    requires i < |items|
  {
    || items[i] == Err(e)
    || (items[i].Ok? && HasSlot(items[i].value.kind)
        && c.readField(items[i].value.kind, items[i].value.bytes) == Err(e))
  }

  /** An item `Absorb` gets past: a field whose bytes, if it has a typed slot, decode. */
  predicate Passes<V(!new)>(c: Codec<V>, item: Result<FieldSlice>) {
    item.Ok? && (HasSlot(item.value.kind) ==> c.readField(item.value.kind, item.value.bytes).Ok?)
  }

  /**
   * `Absorb` fails exactly when some item does not pass, and then with the
   * error of the first one that does not (the iterator's error or the field
   * decoder's); no partial slots escape.
   */
  lemma {:induction false} AbsorbFailure<V(!new)>(
    c: Codec<V>, items: seq<Result<FieldSlice>>, slots: map<Kind, V>)
    ensures Absorb(c, items, slots).Err? <==> exists i :: 0 <= i < |items| && !Passes(c, items[i])
    ensures Absorb(c, items, slots).Err? ==>
      exists i :: 0 <= i < |items| && FailsAt(c, items, i, Absorb(c, items, slots).error)
        && forall j :: 0 <= j < i ==> Passes(c, items[j])
    decreases |items|
  {
    if items != [] {
      if !Passes(c, items[0]) {
        assert FailsAt(c, items, 0, Absorb(c, items, slots).error);
      } else {
        var f := items[0].value;
        var next := if HasSlot(f.kind) then slots[f.kind := c.readField(f.kind, f.bytes).value] else slots;
        var tail := items[1..];
        assert Absorb(c, items, slots) == Absorb(c, tail, next);
        AbsorbFailure(c, tail, next);
        if i :| 0 <= i < |items| && !Passes(c, items[i]) {
          assert tail[i - 1] == items[i];
        }
        if Absorb(c, items, slots).Err? {
          var e := Absorb(c, items, slots).error;
          var j :| 0 <= j < |tail| && FailsAt(c, tail, j, e) && forall j' :: 0 <= j' < j ==> Passes(c, tail[j']);
          assert tail[j] == items[j + 1];
          forall j' | 0 <= j' < j + 1
            ensures Passes(c, items[j'])
          {
            if j' > 0 {
              assert items[j'] == tail[j' - 1];
            }
          }
          assert FailsAt(c, items, j + 1, e) && !Passes(c, items[j + 1]);
        }
      }
    }
  }

  /**
   * When every item before the i-th passes and the i-th does not, `Absorb`
   * fails with the i-th item's error.
   */
  lemma {:induction false} AbsorbStopsAt<V(!new)>(
    c: Codec<V>, items: seq<Result<FieldSlice>>, slots: map<Kind, V>, i: nat)
    requires i < |items| && !Passes(c, items[i])
    requires forall j :: 0 <= j < i ==> Passes(c, items[j])
    ensures Absorb(c, items, slots).Err? && FailsAt(c, items, i, Absorb(c, items, slots).error)
    decreases i
  {
    if i > 0 {
      assert Passes(c, items[0]);
      var f := items[0].value;
      var next := if HasSlot(f.kind) then slots[f.kind := c.readField(f.kind, f.bytes).value] else slots;
      var tail := items[1..];
      assert Absorb(c, items, slots) == Absorb(c, tail, next);
      forall j | 0 <= j < i - 1
        ensures Passes(c, tail[j])
      {
        assert tail[j] == items[j + 1];
      }
      assert tail[i - 1] == items[i];
      AbsorbStopsAt(c, tail, next, i - 1);
    }
  }

  /** What `Radiotap::parse` returns: the decoded value and the unconsumed input. */
  function Parsed<V(!new)>(c: Codec<V>, input: seq<u8>): (r: Result<(Radiotap<V>, seq<u8>)>)
    ensures r.Ok? ==> ParseCapture(c, input).Ok? && var (capture, rest) := ParseCapture(c, input).value;
      && r.value.0.header == capture.header
      && r.value.1 == rest
      && (forall k :: k in r.value.0.slots ==> HasSlot(k))
  {
    match ParseCapture(c, input)
    case Err(e) => Err(e)
    case Ok((capture, rest)) =>
      var h := capture.header;
      var items := Drain(c, capture.data, h.size, h.present);
      match Absorb(c, items, map[])
      case Err(e) => Err(e)
      case Ok(slots) => AbsorbOk(c, items, map[]); Ok((Radiotap(h, slots), rest))
  }

  /** One step of `Absorb`: what the head item does, then the rest. */
  lemma AbsorbHead<V(!new)>(c: Codec<V>, head: Result<FieldSlice>, tail: seq<Result<FieldSlice>>, slots: map<Kind, V>)
    ensures head.Err? ==> Absorb(c, [head] + tail, slots) == Err(head.error)
    ensures head.Ok? && !HasSlot(head.value.kind) ==>
      Absorb(c, [head] + tail, slots) == Absorb(c, tail, slots)
    ensures head.Ok? && HasSlot(head.value.kind) ==>
      var v := c.readField(head.value.kind, head.value.bytes);
      && (v.Err? ==> Absorb(c, [head] + tail, slots) == Err(v.error))
      && (v.Ok? ==> Absorb(c, [head] + tail, slots) == Absorb(c, tail, slots[head.value.kind := v.value]))
  {
    assert ([head] + tail)[1..] == tail;
  }

  /** A slotted field that decodes stores its value and the rest are absorbed after it. */
  lemma AbsorbDecoded<V(!new)>(c: Codec<V>, f: FieldSlice, v: V, tail: seq<Result<FieldSlice>>, slots: map<Kind, V>)
    requires HasSlot(f.kind) && c.readField(f.kind, f.bytes) == Ok(v)
    ensures Absorb(c, [Ok(f)] + tail, slots) == Absorb(c, tail, slots[f.kind := v])
  {
    assert ([Ok(f)] + tail)[1..] == tail;
  }

  /**
   * When the iterator's next step decodes a slotted field, absorbing what it
   * drains stores that value and goes on with the remaining kinds.
   */
  lemma AbsorbAfterStep<V(!new)>(
    c: Codec<V>, data: seq<u8>, pos: nat, kinds: seq<Kind>, f: FieldSlice, cursor: nat, v: V, slots: map<Kind, V>)
    requires kinds != [] && NextStep(c, data, pos, kinds[0]) == Step(Ok(f), cursor)
    requires HasSlot(f.kind) && c.readField(f.kind, f.bytes) == Ok(v)
    ensures Absorb(c, Drain(c, data, pos, kinds), slots) == Absorb(c, Drain(c, data, cursor, kinds[1..]), slots[f.kind := v])
  {
    DrainStep(c, data, pos, kinds, Ok(f), cursor);
    AbsorbDecoded(c, f, v, Drain(c, data, cursor, kinds[1..]), slots);
  }

  /**
   * `Radiotap::parse`: opens the capture, then loops over the field iterator,
   * overwriting typed slots and stopping at the first error.
   */
  method Parse<V(!new)>(c: Codec<V>, input: seq<u8>) returns (r: Result<(Radiotap<V>, seq<u8>)>)
    ensures r == Parsed(c, input)
  {
    var split := ParseCapture(c, input);
    if split.Err? {
      return Err(split.error);
    }
    var (capture, rest) := split.value;
    var fields := new FieldIter(c, capture);
    var slots := DecodeFields(c, fields);
    if slots.Err? {
      return Err(slots.error);
    }
    return Ok((Radiotap(capture.header, slots.value), rest));
  }

  /**
   * The loop of `Radiotap::parse`: drives the iterator to exhaustion,
   * decoding each slotted field into its slot, and stops at the first error.
   */
  method DecodeFields<V(!new)>(c: Codec<V>, fields: FieldIter<V>) returns (r: Result<map<Kind, V>>)
    requires fields.codec == c
    modifies fields
    ensures r == Absorb(c, Drain(c, fields.data, old(fields.position), old(fields.Pending())), map[])
  {
    ghost var goal := Absorb(c, Drain(c, fields.data, fields.position, fields.Pending()), map[]);
    var slots: map<Kind, V> := map[];
    while true
      invariant fields.codec == c
      invariant Absorb(c, Drain(c, fields.data, fields.position, fields.Pending()), slots) == goal
      decreases |fields.present|
    {
      var item := fields.Next();
      if item.None? {
        break;
      }
      AbsorbHead(c, item.value, Drain(c, fields.data, fields.position, fields.Pending()), slots);
      match item.value
      case Err(e) =>
        return Err(e);
      case Ok(f) =>
        if HasSlot(f.kind) {
          var value := c.readField(f.kind, f.bytes);
          if value.Err? {
            return Err(value.error);
          }
          slots := slots[f.kind := value.value];
        }
    }
    return Ok(slots);
  }

  /** The parse rejects a version byte other than 0, whatever follows it. */
  lemma ParseRejectsVersion<V(!new)>(c: Codec<V>, input: seq<u8>)
    requires |input| > 0 && input[0] != 0
    ensures Parsed(c, input) == Err(UnsupportedVersion)
  {
  }

  /** The parse rejects a version-0 header declaring more bytes than the input holds. */
  lemma ParseRejectsLength<V(!new)>(c: Codec<V>, input: seq<u8>)
    requires |input| == 0 || input[0] == 0
    requires c.readHeader(input).Ok?
    requires c.readHeader(input).value.version == 0 && c.readHeader(input).value.length > |input|
    ensures Parsed(c, input) == Err(InvalidLength)
  {
  }

  /**
   * A successful parse consumes exactly `header.length` bytes, yields
   * every present field without error, and fills a slot only for a slotted
   * kind some present field yielded.
   */
  lemma ParseConsumesLength<V(!new)>(c: Codec<V>, input: seq<u8>)
    requires Parsed(c, input).Ok?
    ensures var (rt, rest) := Parsed(c, input).value;
      && rt.header.length <= |input|
      && input == input[..rt.header.length] + rest
      && var items := Drain(c, input[..rt.header.length], rt.header.size, rt.header.present);
         && (forall i :: 0 <= i < |items| ==> items[i].Ok?)
         && rt.slots.Keys == SlottedKinds(items)
  {
    var (capture, rest) := ParseCapture(c, input).value;
    var h := capture.header;
    AbsorbOk(c, Drain(c, capture.data, h.size, h.present), map[]);
  }

  /**
   * A present field the iterator cannot yield makes the whole parse fail
   * and return no value. When every earlier field was yielded and decoded,
   * the parse fails with that field's error, which for a kind other than
   * the undecoded vendor namespace (a window past the governed region) is
   * `IncompleteError`.
   */
  lemma ParseFailsOnBadField<V(!new)>(c: Codec<V>, input: seq<u8>, i: nat)
    requires ParseCapture(c, input).Ok?
    requires var capture := ParseCapture(c, input).value.0;
      i < |capture.header.present|
      && Drain(c, capture.data, capture.header.size, capture.header.present)[i].Err?
    ensures Parsed(c, input).Err?
    ensures var capture := ParseCapture(c, input).value.0;
      var items := Drain(c, capture.data, capture.header.size, capture.header.present);
      (forall j :: 0 <= j < i ==> Passes(c, items[j])) ==>
        && Parsed(c, input) == Err(items[i].error)
        && (capture.header.present[i] != VendorNamespace(None) ==> Parsed(c, input) == Err(IncompleteError))
  {
    var capture := ParseCapture(c, input).value.0;
    var h := capture.header;
    var items := Drain(c, capture.data, h.size, h.present);
    AbsorbFailure(c, items, map[]);
    if forall j :: 0 <= j < i ==> Passes(c, items[j]) {
      AbsorbStopsAt(c, items, map[], i);
      if h.present[i] != VendorNamespace(None) {
        DrainIncomplete(c, capture.data, h.size, h.present, i);
      }
    }
  }

  /** The bytes written for a kind: its slot's encoding, or nothing without one. */
  function FieldBytes<V(!new)>(c: Codec<V>, slots: map<Kind, V>, k: Kind): seq<u8> {
    if HasSlot(k) && k in slots then c.writeField(k, slots[k]) else []
  }

  /**
   * The field bytes written after `pos` bytes have gone out: for each kind
   * in turn, zero padding up to its alignment and then its bytes.
   */
  function EmitFields<V(!new)>(c: Codec<V>, slots: map<Kind, V>, pos: nat, kinds: seq<Kind>): seq<u8>
    decreases |kinds|
  {
    if kinds == [] then []
    else
      var aligned := FieldStart(pos, kinds[0]);
      var bytes := FieldBytes(c, slots, kinds[0]);
      Zeros(aligned - pos) + bytes + EmitFields(c, slots, aligned + |bytes|, kinds[1..])
  }

  /**
   * The first listed field is preceded by zero bytes up to its alignment,
   * then come its own bytes; the rest are emitted the same way from its end.
   */
  lemma EmitPadding<V(!new)>(c: Codec<V>, slots: map<Kind, V>, pos: nat, kinds: seq<Kind>)
    requires kinds != []
    ensures var a := AlignOf(kinds[0]);
      var pad := FieldStart(pos, kinds[0]) - pos;
      var bytes := FieldBytes(c, slots, kinds[0]);
      && EmitFields(c, slots, pos, kinds)[..pad] == Zeros(pad)
      && EmitFields(c, slots, pos, kinds)[pad..pad + |bytes|] == bytes
      && Aligned(pos + pad, a)
  {
  }

  /** What `Radiotap::unparse` writes: the header, then the padded fields. */
  function Serialized<V(!new)>(c: Codec<V>, rt: Radiotap<V>): seq<u8> {
    var head := c.writeHeader(rt.header);
    head + EmitFields(c, rt.slots, |head|, rt.header.present)
  }

  /**
   * `Radiotap::unparse` with the writer as a byte sequence appended to:
   * keeps a running count, pads with zeros one byte at a time up to each
   * field's alignment, and returns the count of bytes written.
   */
  method Unparse<V(!new)>(c: Codec<V>, rt: Radiotap<V>) returns (written: seq<u8>, size: nat)
    ensures written == Serialized(c, rt)
    ensures size == |written|
  {
    var present := rt.header.present;
    written := c.writeHeader(rt.header);
    size := |written|;
    var i := 0;
    assert present[i..] == present;
    while i < |present|
      invariant 0 <= i <= |present|
      invariant size == |written|
      invariant written + EmitFields(c, rt.slots, size, present[i..]) == Serialized(c, rt)
    {
      ghost var before := written;
      written, size := WriteField(c, rt.slots, present[i], written, size);
      EmitStep(c, rt.slots, before, written, size, present, i);
      i := i + 1;
    }
  }

  /** One pass of `unparse`'s loop: zero padding to the kind's alignment, then its bytes. */
  method WriteField<V(!new)>(c: Codec<V>, slots: map<Kind, V>, kind: Kind, written: seq<u8>, size: nat)
    returns (written': seq<u8>, size': nat)
    requires size == |written|
    ensures size' == |written'|
    ensures written' == written + Zeros(FieldStart(size, kind) - size) + FieldBytes(c, slots, kind)
  {
    var aligned := FieldStart(size, kind);
    written', size' := written, size;
    while size' < aligned
      invariant size <= size' <= aligned
      invariant size' == |written'|
      invariant written' == written + Zeros(size' - size)
    {
      ZerosGrow(size' - size);
      written' := written' + [0];
      size' := size' + 1;
    }
    var bytes := FieldBytes(c, slots, kind);
    written' := written' + bytes;
    size' := size' + |bytes|;
  }

  /**
   * Writing one field's padding and bytes after `before` leaves the rest of
   * the emission to the remaining kinds.
   */
  lemma EmitStep<V(!new)>(c: Codec<V>, slots: map<Kind, V>, before: seq<u8>, after: seq<u8>, size: nat, kinds: seq<Kind>, i: nat)
    requires i < |kinds| && size == |after|
    requires after == before + Zeros(FieldStart(|before|, kinds[i]) - |before|) + FieldBytes(c, slots, kinds[i])
    ensures after + EmitFields(c, slots, size, kinds[i + 1..]) == before + EmitFields(c, slots, |before|, kinds[i..])
  {
    ghost var ks := kinds[i..];
    assert ks[0] == kinds[i] && ks[1..] == kinds[i + 1..];
    ghost var start := FieldStart(|before|, ks[0]);
    ghost var padding := Zeros(start - |before|);
    ghost var bytes := FieldBytes(c, slots, ks[0]);
    assert |after| == |before| + |padding| + |bytes|;
    assert size == start + |bytes|;
    EmitCons(c, slots, |before|, ks);
    ghost var rest := EmitFields(c, slots, size, ks[1..]);
    assert EmitFields(c, slots, |before|, ks) == padding + bytes + rest;
    ConcatAssoc(before, padding, bytes, rest);
  }

  lemma EmitCons<V(!new)>(c: Codec<V>, slots: map<Kind, V>, pos: nat, kinds: seq<Kind>)
    requires kinds != []
    ensures var aligned := FieldStart(pos, kinds[0]);
      var bytes := FieldBytes(c, slots, kinds[0]);
      EmitFields(c, slots, pos, kinds) == Zeros(aligned - pos) + bytes + EmitFields(c, slots, aligned + |bytes|, kinds[1..])
  {
    var aligned := FieldStart(pos, kinds[0]);
    assert pos <= aligned;
  }

  lemma ZerosGrow(n: nat)
    ensures Zeros(n) + [0] == Zeros(n + 1)
  {
  }

  lemma ConcatAssoc<T>(a: seq<T>, b: seq<T>, c: seq<T>, d: seq<T>)
    ensures a + b + c + d == a + (b + c + d)
  {
  }
}
