/**
 * The lazy field iterator: a cursor into the governed region and a stack of
 * the kinds still to visit. Each step aligns the cursor, bounds-checks the
 * field's window, splices vendor-namespace sections, and yields the kind
 * with the window's bytes (and its `[start, end)` offsets into the region).
 */
module Iterate {
  import opened Base
  import opened Align
  import opened Field

  /** A header with the region of the input it governs (`RadiotapIterator`). */
  datatype Capture = Capture(header: Header, data: seq<u8>)

  /**
   * One yielded field: its kind and its bytes, a slice of the region (the
   * slice's bounds are kept as `[start, end)` offsets).
   */
  datatype FieldSlice = FieldSlice(kind: Kind, start: nat, end: nat, bytes: seq<u8>)

  /** What one step yields, and where it leaves the cursor. */
  datatype Step = Step(item: Result<FieldSlice>, cursor: nat)

  /**
   * Reads and checks the header: a version byte other than 0 is rejected
   * before anything else is looked at; then the external prefix parse, a
   * version 0 in the parsed header, and a declared length the input can
   * back.
   */
  function ReadHeader<V(!new)>(c: Codec<V>, input: seq<u8>): (r: Result<Header>)
    ensures |input| > 0 && input[0] != 0 ==> r == Err(UnsupportedVersion)
    ensures r.Ok? ==> c.readHeader(input) == r && r.value.version == 0 && r.value.length <= |input|
    ensures (|input| == 0 || input[0] == 0) ==> var raw := c.readHeader(input);
      && (raw.Err? ==> r == raw)
      && (raw.Ok? && raw.value.version != 0 ==> r == Err(UnsupportedVersion))
      && (raw.Ok? && raw.value.version == 0 && raw.value.length > |input| ==> r == Err(InvalidLength))
  {
    if |input| > 0 && input[0] != 0 then Err(UnsupportedVersion)
    else
      var h :- c.readHeader(input);
      if h.version != 0 then Err(UnsupportedVersion)
      else if h.length > |input| then Err(InvalidLength)
      else Ok(h)
  }

  /**
   * `RadiotapIterator::parse`: reads the header and splits the input at its
   * declared length into the governed region and the unconsumed rest.
   */
  function ParseCapture<V(!new)>(c: Codec<V>, input: seq<u8>): (r: Result<(Capture, seq<u8>)>)
    ensures r.Ok? ==> var (cap, rest) := r.value;
      && ReadHeader(c, input) == Ok(cap.header)
      && |cap.data| == cap.header.length
      && cap.data + rest == input
    ensures r.Err? ==> ReadHeader(c, input) == Err(r.error)
  {
    var h :- ReadHeader(c, input);
    Ok((Capture(h, input[..h.length]), input[h.length..]))
  }

  /** The step a `next` call takes for `kind` with the cursor at `pos`. */
  function NextStep<V(!new)>(c: Codec<V>, data: seq<u8>, pos: nat, kind: Kind): (s: Step)
    ensures pos <= s.cursor
    ensures s.item.Ok? ==> pos <= s.item.value.start <= s.item.value.end == s.cursor <= |data|
    ensures s.item.Ok? ==> s.item.value.bytes == data[s.item.value.start..s.item.value.end]
  {
    var start := FieldStart(pos, kind);
    var end := start + Size(kind);
    if end > |data| then
      Step(Err(IncompleteError), start)
    else if kind == VendorNamespace(None) then
      match c.readVendor(data[start..end])
      case Err(e) => Step(Err(e), start)
      case Ok(d) =>
        if end + d.skipLength > |data| then Step(Err(IncompleteError), start)
        else Step(Ok(FieldSlice(VendorNamespace(Some(d)), end, end + d.skipLength, data[end..end + d.skipLength])), end + d.skipLength)
    else
      Step(Ok(FieldSlice(kind, start, end, data[start..end])), end)
  }

  /**
   * A kind other than the undecoded vendor namespace is yielded exactly when
   * its window fits: the window starts at the least multiple of its
   * alignment at or after the cursor, is `Size(kind)` bytes long, and the
   * cursor moves to its end. Otherwise the step fails with
   * `IncompleteError`, leaving the cursor on the aligned offset.
   */
  lemma StepWindow<V(!new)>(c: Codec<V>, data: seq<u8>, pos: nat, kind: Kind)
    requires kind != VendorNamespace(None)
    ensures var s := NextStep(c, data, pos, kind);
      var start := FieldStart(pos, kind);
      && (s.item.Ok? <==> start + Size(kind) <= |data|)
      && (s.item.Ok? ==> s.item.value == FieldSlice(kind, start, start + Size(kind), data[start..start + Size(kind)]) && s.cursor == s.item.value.end)
      && (s.item.Err? ==> s == Step(Err(IncompleteError), start))
  {
  }

  /**
   * The undecoded vendor namespace: its descriptor is read from the
   * `Size(kind)` bytes at the aligned cursor; a read error is returned
   * unchanged; otherwise the yielded window starts right after the
   * descriptor and is `skipLength` long, and the kind carries the
   * descriptor. A window that does not fit fails with `IncompleteError`.
   */
  lemma StepVendor<V(!new)>(c: Codec<V>, data: seq<u8>, pos: nat)
    ensures var kind := VendorNamespace(None);
      var s := NextStep(c, data, pos, kind);
      var start := FieldStart(pos, kind);
      var end := start + Size(kind);
      && (end > |data| ==> s == Step(Err(IncompleteError), start))
      && (end <= |data| && c.readVendor(data[start..end]).Err? ==> s == Step(c.readVendor(data[start..end]).PropagateFailure(), start))
      && (end <= |data| && c.readVendor(data[start..end]).Ok? ==>
            var d := c.readVendor(data[start..end]).value;
            && (s.item.Ok? <==> end + d.skipLength <= |data|)
            && (s.item.Ok? ==> s.item.value == FieldSlice(VendorNamespace(Some(d)), end, end + d.skipLength, data[end..end + d.skipLength])
                                 && s.item.value.end - s.item.value.start == d.skipLength
                                 && s.cursor == s.item.value.end))
  {
  }

  /**
   * Everything the iterator yields when driven to exhaustion from cursor
   * `pos` over `kinds` (it keeps going after an error, as a caller looping
   * over it would see).
   */
  function Drain<V(!new)>(c: Codec<V>, data: seq<u8>, pos: nat, kinds: seq<Kind>): (items: seq<Result<FieldSlice>>)
    ensures |items| == |kinds|
    decreases |kinds|
  {
    if kinds == [] then []
    else
      var s := NextStep(c, data, pos, kinds[0]);
      [s.item] + Drain(c, data, s.cursor, kinds[1..])
  }

  /** Draining yields the first kind's step, then drains the rest from where it left the cursor. */
  lemma DrainStep<V(!new)>(c: Codec<V>, data: seq<u8>, pos: nat, kinds: seq<Kind>, item: Result<FieldSlice>, cursor: nat)
    requires kinds != [] && NextStep(c, data, pos, kinds[0]) == Step(item, cursor)
    ensures Drain(c, data, pos, kinds) == [item] + Drain(c, data, cursor, kinds[1..])
  {
  }

  /**
   * Every window yielded lies in the region at or after the starting
   * cursor and holds the region's bytes at its offsets.
   */
  lemma {:induction false} DrainWindow<V(!new)>(c: Codec<V>, data: seq<u8>, pos: nat, kinds: seq<Kind>, i: nat)
    requires i < |kinds| && Drain(c, data, pos, kinds)[i].Ok?
    ensures var f := Drain(c, data, pos, kinds)[i].value;
      && pos <= f.start <= f.end <= |data|
      && f.bytes == data[f.start..f.end]
    decreases i
  {
    var s := NextStep(c, data, pos, kinds[0]);
    if i > 0 {
      DrainWindow(c, data, s.cursor, kinds[1..], i - 1);
    }
  }

  /** The windows come in order and never overlap. */
  lemma {:induction false} DrainOrdered<V(!new)>(c: Codec<V>, data: seq<u8>, pos: nat, kinds: seq<Kind>, i: nat, j: nat)
    requires i < j < |kinds|
    requires Drain(c, data, pos, kinds)[i].Ok? && Drain(c, data, pos, kinds)[j].Ok?
    ensures Drain(c, data, pos, kinds)[i].value.end <= Drain(c, data, pos, kinds)[j].value.start
    decreases i
  {
    var s := NextStep(c, data, pos, kinds[0]);
    var rest := Drain(c, data, s.cursor, kinds[1..]);
    assert Drain(c, data, pos, kinds) == [s.item] + rest;
    if i > 0 {
      DrainOrdered(c, data, s.cursor, kinds[1..], i - 1, j - 1);
    } else {
      DrainWindow(c, data, s.cursor, kinds[1..], j - 1);
      assert s.item.value.end == s.cursor <= rest[j - 1].value.start;
    }
  }

  /**
   * An item that fails for a kind other than the undecoded vendor
   * namespace fails with `IncompleteError`: its window ran past the region.
   */
  lemma {:induction false} DrainIncomplete<V(!new)>(c: Codec<V>, data: seq<u8>, pos: nat, kinds: seq<Kind>, i: nat)
    requires i < |kinds| && kinds[i] != VendorNamespace(None)
    requires Drain(c, data, pos, kinds)[i].Err?
    ensures Drain(c, data, pos, kinds)[i] == Err(IncompleteError)
    decreases i
  {
    var s := NextStep(c, data, pos, kinds[0]);
    if i > 0 {
      DrainIncomplete(c, data, s.cursor, kinds[1..], i - 1);
    } else {
      StepWindow(c, data, pos, kinds[0]);
    }
  }

  /**
   * The i-th item describes the i-th present kind: the same kind, except
   * that an undecoded vendor namespace comes back carrying its descriptor.
   */
  lemma {:induction false} DrainFollowsPresent<V(!new)>(c: Codec<V>, data: seq<u8>, pos: nat, kinds: seq<Kind>, i: nat)
    requires i < |kinds|
    requires Drain(c, data, pos, kinds)[i].Ok?
    ensures var k := Drain(c, data, pos, kinds)[i].value.kind;
      if kinds[i] == VendorNamespace(None) then k.VendorNamespace? && k.descriptor.Some? else k == kinds[i]
    decreases i
  {
    var s := NextStep(c, data, pos, kinds[0]);
    if i > 0 {
      DrainFollowsPresent(c, data, s.cursor, kinds[1..], i - 1);
    } else if kinds[0] != VendorNamespace(None) {
      StepWindow(c, data, pos, kinds[0]);
    }
  }

  function Reversed<T>(s: seq<T>): (r: seq<T>)
    ensures |r| == |s|
    ensures forall i :: 0 <= i < |s| ==> r[i] == s[|s| - 1 - i]
  {
    if s == [] then [] else [s[|s| - 1]] + Reversed(s[..|s| - 1])
  }

  lemma ReversedTwice<T>(s: seq<T>)
    ensures Reversed(Reversed(s)) == s
  {
  }

  /**
   * The iterator returned by `into_iter` (`RadiotapIteratorIntoIter`): the
   * present kinds held reversed so that popping the last one visits them in
   * header order, and a cursor into the governed region.
   */
  class FieldIter<V(!new)> {
    const codec: Codec<V>
    const data: seq<u8>
    var present: seq<Kind>
    var position: nat

    /** The kinds still to be visited, in the order they will be. */
    function Pending(): seq<Kind>
      reads this
    {
      Reversed(present)
    }

    /** `into_iter`: the cursor starts at the header's size. */
    constructor (codec: Codec<V>, capture: Capture)
      ensures this.codec == codec && data == capture.data
      ensures present == Reversed(capture.header.present) && position == capture.header.size
      ensures Pending() == capture.header.present
    {
      this.codec := codec;
      data := capture.data;
      present := Reversed(capture.header.present);
      position := capture.header.size;
      ReversedTwice(capture.header.present);
    }

    /**
     * `next`: pops one kind and takes its step; `None` once no kind is left.
     * Each call yields the head of what draining would yield, and the rest
     * of that drain is what the iterator yields afterwards.
     */
    method Next() returns (item: Option<Result<FieldSlice>>)
      modifies this
      ensures old(present) == [] ==> item == None && present == [] && position == old(position)
      ensures old(present) != [] ==>
        var s := NextStep(codec, data, old(position), old(present)[|old(present)| - 1]);
        && present == old(present)[..|old(present)| - 1]
        && item == Some(s.item)
        && position == s.cursor
      ensures old(present) != [] ==>
        |Pending()| == |old(Pending())| - 1
        && [item.value] + Drain(codec, data, position, Pending()) == Drain(codec, data, old(position), old(Pending()))
    {
      if present == [] {
        return None;
      }
      var kind := present[|present| - 1];
      present := present[..|present| - 1];
      ghost var pending := Pending();
      assert pending == old(Pending())[1..];
      assert kind == old(Pending())[0];

      position := FieldStart(position, kind);
      var start := position;
      var end := start + Size(kind);
      if end > |data| {
        return Some(Err(IncompleteError));
      }
      if kind == VendorNamespace(None) {
        var descriptor := codec.readVendor(data[start..end]);
        match descriptor
        case Err(e) =>
          return Some(Err(e));
        case Ok(d) =>
          start := start + Size(kind);
          end := end + d.skipLength;
          kind := VendorNamespace(Some(d));
        if end > |data| {
          return Some(Err(IncompleteError));
        }
      }
      position := end;
      item := Some(Ok(FieldSlice(kind, start, end, data[start..end])));
    }
  }

  /** The outcome of a step as the source writes it, where an out-of-range slice panics. */
  datatype RawStep = Stepped(step: Step) | Panicked

  /**
   * The step exactly as written: the vendor window widened by `skipLength`
   * is sliced without checking it against the region.
   */
  function NextStepAsWritten<V(!new)>(c: Codec<V>, data: seq<u8>, pos: nat, kind: Kind): (r: RawStep)
    ensures r.Stepped? ==> r.step == NextStep(c, data, pos, kind)
    ensures r.Panicked? ==> NextStep(c, data, pos, kind) == Step(Err(IncompleteError), FieldStart(pos, kind))
  {
    var start := FieldStart(pos, kind);
    var end := start + Size(kind);
    if end > |data| then
      Stepped(Step(Err(IncompleteError), start))
    else if kind == VendorNamespace(None) then
      match c.readVendor(data[start..end])
      case Err(e) => Stepped(Step(Err(e), start))
      case Ok(d) =>
        if end + d.skipLength > |data| then Panicked
        else Stepped(Step(Ok(FieldSlice(VendorNamespace(Some(d)), end, end + d.skipLength, data[end..end + d.skipLength])), end + d.skipLength))
    else
      Stepped(Step(Ok(FieldSlice(kind, start, end, data[start..end])), end))
  }

  /**
   * As written, the step panics exactly on a vendor namespace whose
   * descriptor fits in the region but whose announced payload does not;
   * the checked step reports `IncompleteError` there instead.
   */
  lemma VendorOverrun<V(!new)>(c: Codec<V>, data: seq<u8>, pos: nat, kind: Kind)
    ensures var start := FieldStart(pos, kind);
      var end := start + Size(kind);
      NextStepAsWritten(c, data, pos, kind) == Panicked <==>
        && kind == VendorNamespace(None)
        && end <= |data|
        && c.readVendor(data[start..end]).Ok?
        && end + c.readVendor(data[start..end]).value.skipLength > |data|
    ensures NextStepAsWritten(c, data, pos, kind) == Panicked ==>
      NextStep(c, data, pos, kind) == Step(Err(IncompleteError), FieldStart(pos, kind))
  {
  }

  /**
   * A region of six bytes holding only a vendor descriptor that announces a
   * payload: as written, slicing the widened window panics; the checked step
   * reports `IncompleteError` instead.
   */
  lemma VendorOverrunPanics<V(!new)>(c: Codec<V>, data: seq<u8>, d: VendorDescriptor)
    requires |data| == 6 && c.readVendor(data[0..6]) == Ok(d) && d.skipLength > 0
    ensures NextStepAsWritten(c, data, 0, VendorNamespace(None)) == Panicked
    ensures NextStep(c, data, 0, VendorNamespace(None)).item == Err(IncompleteError)
  {
    assert FieldStart(0, VendorNamespace(None)) == 0 && Size(VendorNamespace(None)) == 6;
  }
}
