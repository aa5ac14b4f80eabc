# Radiotap engine, modelled in Dafny

This project models the generic engine of the `radiotap` Rust crate.
The crate decodes and encodes Radiotap capture headers. A Radiotap header is a
little self-describing prefix: a version, a 16-bit total length and a presence
bitmap. The bitmap is followed by the present fields. Each field is padded to
its own power-of-two alignment.

The model covers five parts:

- **Alignment arithmetic** (`align.dfy`). `(p + a - 1) & !(a - 1)` is stated on
  unbounded offsets as `AlignUp`. The bitmask form itself is stated on `bv64`
  as `AlignMask`.
- **The field iterator** (`iterate.dfy`). A cursor into the governed region,
  plus the present kinds held reversed as a stack. Each `next` pops a kind,
  aligns the cursor and bounds-checks the field's window. It splices a
  vendor-namespace section by decoding its descriptor and widening the window
  by `skip_length`. It then yields the kind and the window's bytes, or
  `IncompleteError`. `FieldIter` is the iterator as a class. `NextStep` is one
  step as a function, and `Drain` is the whole sequence of steps.
- **The aggregate value** (`aggregate.dfy`). `Radiotap` is a header plus a map
  from kind to typed value, one entry per set slot.
  - `Parse` splits the input at `header.length` and drives the iterator. It
    decodes each slotted field into its slot (a later field overwrites an
    earlier one), drops vendor sections, and stops at the first error.
  - `Unparse` writes the header. Then, for each present kind, it writes zero
    bytes up to the kind's alignment followed by the field's bytes. It returns
    the byte count.
- **The builder** (`builder.dfy`). A setter stores its value and appends its
  kind to the presence list once. `done` sorts the presence list by bit and
  folds align-then-add over it, from the starting length of 8, to compute
  `header.length`.
- **`Header::default`**: version 0, size 8, length 8, nothing present.

`roundtrip.dfy` ties the parts together. For a value whose header the builder
completed, and whose set slots hold encodable values:
- the byte count `unparse` returns equals the `header.length` that `done`
  computed;
- parsing the written bytes gives back the same value;
- any bytes that followed are left unconsumed.

Three external codecs are abstract: the per-field codecs, the header's bitmap
codec and the vendor descriptor decoder. They are the function fields of a
`Codec` value. `Codec.Valid` states what the engine relies on from the header
codec: a representable header is written as exactly `size` bytes, starting with
the version byte 0, and is read back whatever follows it. The field codecs are
constrained per value instead. A round trip assumes `SlotsEncodable`: each set
slot's value is written as exactly its kind's size and is read back. A
fixed-size encoding cannot promise this for every value of an arbitrary value
type.

Offsets are unbounded naturals and bytes are a `u8` newtype. The writer is a
byte sequence that is appended to.

On one point the model departs from the code. The widened vendor window is
sliced without a bounds check at src/lib.rs:218, so Rust panics there. The
descriptor's own window is bounds-checked at src/lib.rs:203, and a region
too short for what the header announces is what `IncompleteError` means
("not a complete Radiotap capture", src/lib.rs:101-103). `NextStep`,
which the rest of the model uses, re-checks it and reports `IncompleteError`.
`NextStepAsWritten` keeps the code's behaviour, and "## Findings" records the
difference.

## Model

| member | source | states |
|---|---|---|
| `Aggregate.DefaultHeader` | src/lib.rs:228-237 | `Header::default` is representable (version 0, size 8, strictly ascending presence list of slotted kinds, 16-bit length), lists nothing, and its length is its own eight-byte size. |
| `Aggregate.DefaultRadiotap` | src/lib.rs:241 | The derived default value: the default header with no slot set. `RoundTrip.DefaultCanonical` states its properties. |
| `Align.AlignUp` | src/lib.rs:132-135 | The rounded offset is a multiple of the alignment, at least `p` and less than `p + a`. |
| `Align.AlignUpIsLeast` | src/lib.rs:132-135 | No multiple of `a` lies between `p` and the rounded offset: it is the least multiple of `a` at or above `p`. |
| `Align.AlignUpAligned` | src/lib.rs:334 | An offset that is already aligned is left where it is. |
| `Align.AlignUpPadding` | src/lib.rs:334-337 | Rounding up skips exactly `(a - p % a) % a` bytes, which is the padding `unparse` writes. |
| `Align.AlignMaskRoundsUp` | src/lib.rs:134 | The 64-bit mask expression, where it cannot wrap, clears the low bits below each alignment and adds exactly `(a - p mod a) mod a` (remainders written as masks). |
| `Iterate.ReadHeader` | src/lib.rs:152 | A first byte other than 0 fails with `UnsupportedVersion` before anything else is examined. Otherwise the prefix parse's own error is passed through, a parsed version other than 0 fails with `UnsupportedVersion`, and a declared length above the input's size fails with `InvalidLength`. On success `version == 0` and `length <= |input|`. |
| `Iterate.ParseCapture` | src/lib.rs:151-155 | On success the governed region is the first `header.length` bytes and the rest is the remainder, so region + rest is the input; on failure the header decode's error is returned. |
| `Iterate.NextStep` | src/lib.rs:193-225 | A step never moves the cursor back. A yielded window starts at or after the cursor, ends where the cursor is left, lies inside the region and holds the region's bytes at those offsets. |
| `Iterate.StepWindow` | src/lib.rs:197-204 | Any kind but the undecoded vendor namespace is yielded exactly when its window fits. The window starts at the aligned cursor and is `size` bytes long. Otherwise the step gives `IncompleteError` and no window. |
| `Iterate.StepVendor` | src/lib.rs:208-217 | The vendor descriptor is read from the `size` bytes at the aligned cursor, and a read error is returned unchanged. Otherwise the window starts right after the descriptor, is `skip_length` long, and the kind carries the descriptor. A window past the region is `IncompleteError`. |
| `Iterate.Drain` | src/lib.rs:190-225 | Driving the iterator to exhaustion yields exactly one item per present kind. |
| `Iterate.DrainWindow` | src/lib.rs:218-220 | Every window yielded lies in the region, at or after the starting cursor, and holds the region's bytes at its offsets. |
| `Iterate.DrainOrdered` | src/lib.rs:218-219 | Windows come in increasing order and never overlap. |
| `Iterate.DrainFollowsPresent` | src/lib.rs:194-213 | The i-th item is the i-th present kind. The exception is the undecoded vendor namespace, which comes back carrying its decoded descriptor. |
| `Iterate.DrainIncomplete` | src/lib.rs:197-204 | An item that fails for any kind but the undecoded vendor namespace fails with `IncompleteError`. |
| `Iterate.ReversedTwice` | src/lib.rs:171 | Holding the present list reversed as a stack and popping from its end visits the kinds in header order. |
| `Iterate.FieldIter.constructor` | src/lib.rs:170-175 | `into_iter` holds the present kinds reversed, with the cursor at `header.size`, so the kinds still pending are exactly `header.present`. |
| `Iterate.FieldIter.Next` | src/lib.rs:193-225 | `next` returns `None` once the stack is empty. Otherwise it pops the last kind and takes that kind's step. What it yields, followed by what the remaining kinds drain to, equals what the old state drained to. |
| `Iterate.NextStepAsWritten` | src/lib.rs:208-220 | The step exactly as written. Where it does not panic it agrees with `NextStep`; where it panics, `NextStep` reports `IncompleteError`. |
| `Iterate.VendorOverrun` | src/lib.rs:211-218 | The step as written panics exactly when the kind is an undecoded vendor namespace whose descriptor fits and decodes but whose widened end passes the region. |
| `Iterate.VendorOverrunPanics` | src/lib.rs:211-218 | Counterexample: a six-byte region holding only a descriptor that announces a payload. As written it panics; the checked step gives `IncompleteError`. |
| `Aggregate.Absorb` | src/lib.rs:291-320 | The body of `parse`'s loop over the yielded items: the first error aborts, a slotted field is decoded into its slot, any other field is dropped. Its properties are stated by the `Absorb…` lemmas below. |
| `Aggregate.AbsorbOk` | src/lib.rs:291-320 | When the loop over the yielded items succeeds, every item was a field. The slots set are the starting ones plus the slotted kinds yielded, and other slots keep their values. |
| `Aggregate.AbsorbLastWins` | src/lib.rs:294-317 | Each slot ends up holding the decoding of the last field yielded for its kind: a later occurrence overwrites an earlier one. |
| `Aggregate.AbsorbFailure` | src/lib.rs:291-319 | The loop fails if and only if some item does not pass, that is, it is an iterator error or a slotted field whose decode fails. When it fails, the error is that of the first item that does not pass, every earlier item passed, and no slots escape. |
| `Aggregate.AbsorbStopsAt` | src/lib.rs:291-319 | If every item before the i-th passes and the i-th does not, the loop fails with the i-th item's error. |
| `Aggregate.AbsorbHead` | src/lib.rs:292-318 | One item of the loop: an error aborts; a kind without a slot is dropped; a slotted field's decode error aborts; otherwise the decoded value overwrites the slot. |
| `Aggregate.Parsed` | src/lib.rs:283-323 | A successful parse keeps the decoded header and returns the unconsumed rest of the input. Only kinds with a typed slot are set. |
| `Aggregate.Parse` | src/lib.rs:283-323 | `Radiotap::parse`, which drives a `FieldIter` in a loop, returns exactly `Parsed`. |
| `Aggregate.DecodeFields` | src/lib.rs:291-320 | The loop over the iterator returns the result of absorbing everything the iterator drains, starting from empty slots. |
| `Aggregate.ParseRejectsVersion` | src/lib.rs:392-402 | Input whose first byte (the version) is not 0 makes the parse fail with `UnsupportedVersion`, whatever the remaining bytes hold. |
| `Aggregate.ParseRejectsLength` | src/lib.rs:404-415 | A version-0 header whose declared length exceeds the input makes the parse fail with `InvalidLength`. |
| `Aggregate.ParseConsumesLength` | src/lib.rs:151-155 | A successful parse consumes exactly `header.length` bytes and every present field was yielded without error. The slots set are exactly the slotted kinds yielded. |
| `Aggregate.ParseFailsOnBadField` | src/lib.rs:417-441 | If any present field's step fails, the whole parse fails and no partial result is returned. When every earlier field was yielded and decoded, the parse fails with that step's error. For any kind but the undecoded vendor namespace, that error is `IncompleteError`. |
| `Aggregate.FieldBytes` | src/lib.rs:340-364 | The bytes written for one kind: its set slot's encoding, or nothing for a kind without a set slot. |
| `Aggregate.EmitFields` | src/lib.rs:331-366 | The bytes of `unparse`'s loop: for each present kind in turn, zeros up to its alignment, then its bytes. Its properties are stated by `EmitPadding`, `RoundTrip.EmitLength` and `RoundTrip.AbsorbEmitted`. |
| `Aggregate.EmitPadding` | src/lib.rs:332-337 | The emitted bytes start with zeros up to the first listed kind's alignment, then that field's bytes, which start on an aligned offset. `EmitFields` continues from that field's end with the rest of the list, so the same holds at each field in turn. |
| `Aggregate.Serialized` | src/lib.rs:327-369 | What `unparse` writes: the header's bytes, then `EmitFields` from the header's end. `Unparse` is proved equal to it. |
| `Aggregate.Unparse` | src/lib.rs:327-369 | `unparse` writes the header, then each present kind's zero padding and bytes, and returns the number of bytes written. |
| `Aggregate.WriteField` | src/lib.rs:332-365 | One pass of the loop appends zeros up to the kind's alignment, one at a time, then the slot's encoding (nothing for a kind without a set slot), and keeps the count equal to the bytes written. |
| `Builder.FoldLength` | src/builder/mod.rs:63-68 | The align-then-add fold that `done` computes `header.length` with. `FoldLengthBounds` and `FoldLengthConcat` state its properties. |
| `Builder.InsertByBit` | src/builder/mod.rs:62 | One insertion step of the sort by bit. `InsertByBitSorts` states its properties. |
| `Builder.SortByBit` | src/builder/mod.rs:62 | `sort_by_key(bit)`, written as an insertion sort. `SortByBitSorts` states its properties. |
| `Builder.WithField` | src/builder/mod.rs:74-84 | A setter's effect on the value. `SetField` and `SetTwice` state its properties. |
| `Builder.Finish` | src/builder/mod.rs:56-71 | What `done` returns. `FinishSorts`, `FinishIgnoresSetOrder` and `RoundTrip.FinishCanonical` state its properties. |
| `Builder.FoldLengthBounds` | src/builder/mod.rs:63-68 | The length fold never decreases, and each kind adds at most 20 bytes of size and padding. |
| `Builder.FoldLengthConcat` | src/builder/mod.rs:63-68 | Folding over two lists in turn is folding over their concatenation. |
| `Builder.InsertByBitSorts` | src/builder/mod.rs:62 | Inserting into a list sorted by bit keeps it sorted and adds exactly one occurrence of the kind. |
| `Builder.SortByBitSorts` | src/builder/mod.rs:62 | `sort_by_key(bit)` yields a list sorted by bit that is a permutation of its input. |
| `Builder.StrictlyAscendingUnique` | src/builder/mod.rs:59-62 | Two lists in strictly ascending bit order with the same elements are the same list, so the sorted order does not depend on how the input was ordered. |
| `Builder.SetField` | src/builder/mod.rs:77-84 | A setter stores its value in its slot, so the last write wins. It appends the kind only when absent, so the kind appears exactly once. Every other slot and presence entry is unchanged, and the builder's invariant is kept. |
| `Builder.SetTwice` | src/builder/mod.rs:190-209 | Setting a kind twice equals setting it once, to the second value. |
| `Builder.FinishSorts` | src/builder/mod.rs:56-71 | `done` puts the presence list in strictly ascending bit order, keeps its elements, and sets the length to the align-then-add fold from 8. The version, the size and every slot are unchanged. |
| `Builder.FinishIgnoresSetOrder` | src/builder/mod.rs:59-68 | Two builders that set the same slots, in whatever order, finish with the same header and length. |
| `Builder.FinishEmpty` | src/builder/mod.rs:119-124 | With no setter called, `done` returns the default value. |
| `Builder.FinishSingle` | src/builder/mod.rs:211-228 | With one field set, the header is version 0, size 8, length `8 + size` and presence list `[kind]`, with only that slot set. |
| `Builder.RadiotapBuilder.constructor` | src/builder/mod.rs:51-53 | A new builder holds the default value and satisfies its invariant. |
| `Builder.RadiotapBuilder.Set` | src/builder/mod.rs:77-84 | The `field!` setter changes the builder's value as `WithField` does and keeps its invariant. |
| `Builder.RadiotapBuilder.Done` | src/builder/mod.rs:56-71 | `done` sorts the presence list in place, computes the length and returns the completed value. |
| `Builder.DocExample` | src/builder/mod.rs:9-43 | Rate, TSFT and flags set in that order finish with presence list TSFT, flags, rate and a length of 18. |
| `Builder.SetMultiple` | src/builder/mod.rs:126-188 | Five fields set out of bit order finish sorted (TSFT, flags, rate, channel, timestamp). The timestamp's 8-byte alignment pads the length to 36. |
| `Builder.BuildDocExample` | src/builder/mod.rs:9-43 | The documented example, run through the builder class, gives length 18, the sorted presence list and the three slots. |
| `Builder.BuildSetMultiple` | src/builder/mod.rs:126-188 | The out-of-order example, run through the builder class, gives length 36, the sorted list and the five slots. |
| `Builder.BuildSetTwice` | src/builder/mod.rs:190-209 | Setting TSFT twice gives one presence entry, length 16 and the second value. |
| `RoundTrip.CanonicalEncodable` | src/lib.rs:331-366 | The kinds a canonical value lists, in list order, all have set slots holding encodable values, provided every set slot does. |
| `RoundTrip.EmitLength` | src/lib.rs:331-366 | For fields that encode to their kinds' sizes, the running count after the fields equals the builder's align-then-add fold from the same start. |
| `RoundTrip.SerializedLength` | src/lib.rs:544-548 | For a canonical value whose set slots hold encodable values, the byte count `unparse` returns equals its `header.length`. |
| `RoundTrip.CaptureOfSerialized` | src/lib.rs:151-155 | For a canonical value with encodable slots, from its written bytes followed by anything, the header is read back and the input splits exactly after the written bytes. |
| `RoundTrip.AbsorbEmitted` | src/lib.rs:291-320 | Parsing the fields that were written sets each listed kind's slot to the value that was written for it, without error. |
| `RoundTrip.RoundTrip` | src/lib.rs:544-549 | Parsing what `unparse` wrote for a canonical value whose set slots hold encodable values returns the same value and leaves the bytes that followed unconsumed. |
| `RoundTrip.FinishCanonical` | src/builder/mod.rs:56-71 | What `done` returns is canonical: the header is representable, its length fits 16 bits, and the presence list names exactly the set slots. |
| `RoundTrip.BuildRoundTrip` | src/lib.rs:544-549 | For any value a builder accumulated, with encodable values in its set slots, `unparse` of `done`'s result writes exactly `header.length` bytes, and parsing them returns `done`'s result. |
| `RoundTrip.DefaultCanonical` | src/lib.rs:228-237 | `Header::default` with no slot set is the builder's starting point and is what `done` returns when no setter ran. It is also canonical, so it round-trips. |

## Left out

- The `field` module is not part of this model. That covers the per-field bit layouts, `from_bytes`/`from_bytes_some`/`unparse_some`, the header's bitmap words (including continuation words) and `VendorNamespace::from_bytes`. These are reached only through the abstract `Codec`. Its `Valid` predicate states the header codec's contract. The field codecs' contract is the per-value hypothesis `SlotsEncodable`.
- The bit, size and alignment constants of each kind follow the radiotap.org field table, since the `Kind` methods are in the `field` module.
- `Representable` restricts the header round trip to one bitmap word (`size == 8`). Headers with extended presence words are parsed through `readHeader` but not written.
- `Iterate.ReadHeader` checks the version byte before the prefix parse, so a bad version is reported whatever follows it. The actual order of checks lives in `Header::from_bytes`, which is not part of this model.
- Typed field values are an opaque type parameter, so floating-point payloads and `Display` strings do not appear.
- `std::io::Write`, `Cursor` and `Error::ParseError(io::Error)` are replaced by a byte sequence that is appended to, whose writes always succeed.
- The padding loop at src/lib.rs:335-337 assumes each one-byte write reports 1 byte written. Short or failing writes are not modelled.
- `usize`/`u64` offsets are unbounded naturals. Overflow of `p + align - 1` is not modelled on integers; `AlignMaskRoundsUp` states the mask form only for offsets that cannot wrap.
- The mask form and `AlignUp` are related per alignment (each adds `(a - p mod a) mod a`), not by a conversion lemma between `bv64` and `int`.
- `sort_by_key` is modelled as an insertion sort by bit. Only sortedness and permutation are proved, not stability. Stability does not matter here because the builder's list has no repeated kinds, and `StrictlyAscendingUnique` shows its sorted order is unique.
- The 23 named setters are modelled as one `Set(kind, value)` over a map keyed by kind.
- `RadiotapIterator::from_bytes` and `Radiotap::from_bytes` are `parse` with the remainder dropped, and are not modelled separately.
- The owned `into_iter` (src/lib.rs:182-187) is identical to the borrowed one, and the same constructor models both.
- `Iterate.Drain` keeps stepping after an error, whereas the `?` in `parse` stops at the first one. `Aggregate.Absorb` stops at the first error, so the outcome is the same.
- Rust lifetimes and borrowing are not modelled. The crate has no concurrency.

## Findings

| source | as written | input that shows it | evidently intended | confidence | as-written member | corrected member |
|---|---|---|---|---|---|---|
| src/lib.rs:211-218 | After a vendor descriptor decodes, `end` is widened by `skip_length` and `&data[start..end]` is sliced with no check against the region's length, so an out-of-range window panics | A governed region of six bytes, from cursor 0, holding only a vendor descriptor whose `skip_length` is positive | Re-check the widened end as src/lib.rs:203 does for the descriptor, and yield `IncompleteError` | not executed | `Iterate.VendorOverrunPanics` | `Iterate.NextStep` |
