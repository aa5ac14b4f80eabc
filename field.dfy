/**
 * The field catalogue and the external codecs the engine depends on.
 *
 * Each Radiotap field kind has a presence-bit index, a fixed encoded size
 * and a power-of-two alignment (the values of the radiotap.org field
 * table). The per-field bit layouts, the header's bitmap words and the
 * vendor-namespace descriptor layout are not modelled: they are reached
 * only through a `Codec`, whose `Valid` predicate states the contract the
 * engine relies on.
 */
module Field {
  import opened Base
  import opened Align

  /** The fixed six-byte descriptor that opens a vendor-namespace section. */
  datatype VendorDescriptor = VendorDescriptor(oui: seq<u8>, subNamespace: u8, skipLength: nat)

  /**
   * A field kind. The vendor-namespace sentinel carries its descriptor once
   * the iterator has decoded it, and `None` before.
   */
  datatype Kind =
    | TSFT | Flags | Rate | Channel | FHSS
    | AntennaSignal | AntennaNoise | LockQuality
    | TxAttenuation | TxAttenuationDb | TxPower | Antenna
    | AntennaSignalDb | AntennaNoiseDb | RxFlags | TxFlags
    | RTSRetries | DataRetries | XChannel | MCS
    | AMPDUStatus | VHT | Timestamp
    | VendorNamespace(descriptor: Option<VendorDescriptor>)

  /** Index of the kind's bit in the presence bitmap. */
  function Bit(k: Kind): nat {
    match k
    case TSFT => 0
    case Flags => 1
    case Rate => 2
    case Channel => 3
    case FHSS => 4
    case AntennaSignal => 5
    case AntennaNoise => 6
    case LockQuality => 7
    case TxAttenuation => 8
    case TxAttenuationDb => 9
    case TxPower => 10
    case Antenna => 11
    case AntennaSignalDb => 12
    case AntennaNoiseDb => 13
    case RxFlags => 14
    case TxFlags => 15
    case RTSRetries => 16
    case DataRetries => 17
    case XChannel => 18
    case MCS => 19
    case AMPDUStatus => 20
    case VHT => 21
    case Timestamp => 22
    case VendorNamespace(_) => 30
  }

  /** Encoded size in bytes, padding excluded (the descriptor only, for a vendor namespace). */
  function Size(k: Kind): nat {
    match k
    case TSFT => 8
    case Flags => 1
    case Rate => 1
    case Channel => 4
    case FHSS => 2
    case AntennaSignal => 1
    case AntennaNoise => 1
    case LockQuality => 2
    case TxAttenuation => 2
    case TxAttenuationDb => 2
    case TxPower => 1
    case Antenna => 1
    case AntennaSignalDb => 1
    case AntennaNoiseDb => 1
    case RxFlags => 2
    case TxFlags => 2
    case RTSRetries => 1
    case DataRetries => 1
    case XChannel => 8
    case MCS => 3
    case AMPDUStatus => 8
    case VHT => 12
    case Timestamp => 12
    case VendorNamespace(_) => 6
  }

  /** Boundary the field's first byte must sit on. */
  function AlignOf(k: Kind): (a: nat)
    ensures IsAlignment(a) && Aligned(8, a)
  {
    match k
    case TSFT => 8
    case Flags => 1
    case Rate => 1
    case Channel => 2
    case FHSS => 2
    case AntennaSignal => 1
    case AntennaNoise => 1
    case LockQuality => 2
    case TxAttenuation => 2
    case TxAttenuationDb => 2
    case TxPower => 1
    case Antenna => 1
    case AntennaSignalDb => 1
    case AntennaNoiseDb => 1
    case RxFlags => 2
    case TxFlags => 2
    case RTSRetries => 1
    case DataRetries => 1
    case XChannel => 4
    case MCS => 1
    case AMPDUStatus => 4
    case VHT => 2
    case Timestamp => 8
    case VendorNamespace(_) => 2
  }

  /** Where a field of kind `k` starts with the cursor at `pos`: the next multiple of its alignment. */
  function FieldStart(pos: nat, k: Kind): nat {
    AlignUp(pos, AlignOf(k))
  }

  /** Whether the aggregate value has a typed slot for this kind (every kind but the vendor namespace). */
  predicate HasSlot(k: Kind) {
    !k.VendorNamespace?
  }

  /** The kind with a typed slot that owns bit `n`, if any. */
  function SlotKindOfBit(n: nat): Option<Kind> {
    match n
    case 0 => Some(TSFT)
    case 1 => Some(Flags)
    case 2 => Some(Rate)
    case 3 => Some(Channel)
    case 4 => Some(FHSS)
    case 5 => Some(AntennaSignal)
    case 6 => Some(AntennaNoise)
    case 7 => Some(LockQuality)
    case 8 => Some(TxAttenuation)
    case 9 => Some(TxAttenuationDb)
    case 10 => Some(TxPower)
    case 11 => Some(Antenna)
    case 12 => Some(AntennaSignalDb)
    case 13 => Some(AntennaNoiseDb)
    case 14 => Some(RxFlags)
    case 15 => Some(TxFlags)
    case 16 => Some(RTSRetries)
    case 17 => Some(DataRetries)
    case 18 => Some(XChannel)
    case 19 => Some(MCS)
    case 20 => Some(AMPDUStatus)
    case 21 => Some(VHT)
    case 22 => Some(Timestamp)
    case _ => None
  }

  /** A slotted kind is recovered from its bit, so no two slotted kinds share a bit. */
  lemma BitIdentifiesKind(k: Kind)
    requires HasSlot(k)
    ensures SlotKindOfBit(Bit(k)) == Some(k)
  {
  }

  /** Two kinds with a typed slot are equal exactly when their bits are. */
  lemma BitInjective(j: Kind, k: Kind)
    requires HasSlot(j) && HasSlot(k)
    ensures Bit(j) == Bit(k) <==> j == k
  {
    BitIdentifiesKind(j);
    BitIdentifiesKind(k);
  }

  /** The order the presence bitmap lists fields in: strictly ascending bits. */
  predicate StrictlyAscending(ks: seq<Kind>) {
    forall i, j :: 0 <= i < j < |ks| ==> Bit(ks[i]) < Bit(ks[j])
  }

  /** Ascending bits, ties allowed (what a sort by bit guarantees). */
  predicate AscendingByBit(ks: seq<Kind>) {
    forall i, j :: 0 <= i < j < |ks| ==> Bit(ks[i]) <= Bit(ks[j])
  }

  predicate AllSlotted(ks: seq<Kind>) {
    forall i :: 0 <= i < |ks| ==> HasSlot(ks[i])
  }

  /** No kind listed twice. */
  predicate Distinct(ks: seq<Kind>) {
    forall i, j :: 0 <= i < j < |ks| ==> ks[i] != ks[j]
  }

  /**
   * The fixed-format prefix: version, the offset where the first field
   * begins, the total span the capture governs, and the present kinds.
   */
  datatype Header = Header(version: nat, size: nat, length: nat, present: seq<Kind>)

  /**
   * A header the one-word prefix encoding can carry: version 0, an
   * eight-byte prefix (version, pad, 16-bit length, one bitmap word), a
   * 16-bit length and slotted kinds in strictly ascending bit order.
   */
  predicate Representable(h: Header) {
    && h.version == 0
    && h.size == 8
    && h.length < 0x1_0000
    && StrictlyAscending(h.present)
    && AllSlotted(h.present)
  }

  /**
   * The external codecs, over the type `V` of typed field values:
   * `readHeader` parses the prefix and its bitmap words into a raw header
   * (before the version and length checks), `writeHeader` writes it,
   * `readVendor` decodes a vendor-namespace descriptor, and
   * `readField`/`writeField` are the per-field codecs.
   */
  datatype Codec<!V(!new)> = Codec(
    readHeader: seq<u8> -> Result<Header>,
    writeHeader: Header -> seq<u8>,
    readVendor: seq<u8> -> Result<VendorDescriptor>,
    readField: (Kind, seq<u8>) -> Result<V>,
    writeField: (Kind, V) -> seq<u8>)
  {
    /**
     * The contract of the external header codec: a representable header is
     * written as exactly `size` bytes, the first of them the version byte 0,
     * and is read back whatever follows it. The per-field codecs are not
     * constrained here: what a round trip needs of them is stated per value
     * (a fixed-size field type cannot encode every value of `V`).
     */
    ghost predicate Valid() {
      && (forall h :: Representable(h) ==> |writeHeader(h)| == h.size && writeHeader(h)[0] == 0)
      && (forall h, rest :: Representable(h) ==> readHeader(writeHeader(h) + rest) == Ok(h))
    }
  }
}
