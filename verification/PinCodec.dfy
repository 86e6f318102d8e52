/** The slot payload (pindata.rs): two signed 32-bit counters in big-endian bytes. */
module PinCodec {
  import opened Wrappers

  const TWO_TO_THE_31 := 0x8000_0000
  const TWO_TO_THE_32 := 0x1_0000_0000

  type u8 = x: int | 0 <= x < 256
  type u32 = x: int | 0 <= x < 0x1_0000_0000
  type i32 = x: int | -0x8000_0000 <= x < 0x8000_0000

  /** `as c_int`: reinterpret 32 bits as a signed number. */
  function AsSigned(x: u32): i32 {
    if x < TWO_TO_THE_31 then x else x - TWO_TO_THE_32
  }

  /** `as u32`: reinterpret 32 bits as an unsigned number. */
  function AsUnsigned(x: i32): u32 {
    if x < 0 then x + TWO_TO_THE_32 else x
  }

  /** How many numbers `width` bytes can hold. */
  function Bound(width: nat): nat {
    if width == 0 then 1 else 256 * Bound(width - 1)
  }

  lemma FourBytesHoldU32()
    ensures Bound(4) == TWO_TO_THE_32
  {
    assert Bound(4) == 256 * Bound(3) && Bound(3) == 256 * Bound(2) && Bound(2) == 256 * Bound(1);
  }

  /** `to_be_bytes`, for any width. */
  function ToBe(x: nat, width: nat): (b: seq<u8>)
    ensures |b| == width
    ensures x < Bound(width) ==> FromBe(b) == x
  {
    if width == 0 then [] else ToBe(x / 256, width - 1) + [x % 256]
  }

  /** `from_be_bytes`, for any width. */
  function FromBe(b: seq<u8>): (x: nat)
    ensures x < Bound(|b|)
  {
    if b == [] then 0 else 256 * FromBe(b[..|b| - 1]) + b[|b| - 1]
  }

  /** The first byte is the most significant one. */
  lemma FirstByteIsMostSignificant(a: u8, b: u8, c: u8, d: u8)
    ensures FromBe([a, b, c, d]) == 0x100_0000 * a + 0x1_0000 * b + 0x100 * c + d
  {
    assert [a, b, c, d][..3] == [a, b, c] && [a, b, c][..2] == [a, b] && [a, b][..1] == [a] && [a][..0] == [];
    assert FromBe([a, b]) == 256 * FromBe([a]) + b && FromBe([a, b, c]) == 256 * FromBe([a, b]) + c;
  }

  function FromBe32(b: seq<u8>, at: nat): u32
    requires at + 4 <= |b|
  {
    FourBytesHoldU32();
    FromBe(b[at..at + 4])
  }

  datatype PinData = PinData(pinCount: i32, pinLimit: i32) {

    /** `From<PinData> for Vec<u8>`. */
    function ToBytes(): (b: seq<u8>)
      ensures |b| == PIN_DATA_SIZE
      ensures FromBe32(b, 0) == AsUnsigned(pinCount) && FromBe32(b, 4) == AsUnsigned(pinLimit)
      ensures FromBytes(b) == Some(this)
    {
      FourBytesHoldU32();
      var count, limit := ToBe(AsUnsigned(pinCount), 4), ToBe(AsUnsigned(pinLimit), 4);
      assert (count + limit)[0..4] == count && (count + limit)[4..8] == limit;
      count + limit
    }

    /** Every test the manager makes for a locked slot. */
    predicate CounterSpent() {
      pinCount >= pinLimit
    }
  }

  const PIN_DATA_SIZE := 8

  /** `PinData::from_bytes`: longer payloads are accepted, shorter ones are not. */
  function FromBytes(bytes: seq<u8>): Option<PinData> {
    if |bytes| < PIN_DATA_SIZE then None
    else Some(PinData(AsSigned(FromBe32(bytes, 0)), AsSigned(FromBe32(bytes, 4))))
  }

  /**
   Eight bytes of a PinFail data area are always two counters, so the TPM model passes those around and leaves the
   bytes to `Wire`; `Raw` is every other payload.
   */
  datatype Payload = Counters(count: u32, limit: u32) | Raw(bytes: seq<u8>)

  /** The payload as the TPM transmits it: unsigned, big-endian. */
  function Wire(p: Payload): seq<u8> {
    match p
    case Counters(count, limit) => ToBe(count, 4) + ToBe(limit, 4)
    case Raw(bytes) => bytes
  }

  function Encode(slot: PinData): Payload {
    Counters(AsUnsigned(slot.pinCount), AsUnsigned(slot.pinLimit))
  }

  function Decode(p: Payload): Option<PinData> {
    match p
    case Counters(count, limit) => Some(Seen(count, limit))
    case Raw(bytes) => FromBytes(bytes)
  }

  /**
   The two casts and the two byte codecs of the sources, put together: what is written is what
   `ToBytes` sends, what is read is what `FromBytes` makes of the transmitted bytes, and every 8 bytes are two counters.
   */
  lemma CodecIsFaithful(slot: PinData, p: Payload, bytes: seq<u8>)
    ensures Wire(Encode(slot)) == slot.ToBytes()
    ensures FromBytes(Wire(p)) == Decode(p)
    ensures Decode(Encode(slot)) == Some(slot)
    ensures |bytes| == PIN_DATA_SIZE ==> exists q: Payload :: q.Counters? && Wire(q) == bytes
  {
    FourBytesHoldU32();
    if p.Counters? {
      assert Wire(p)[0..4] == ToBe(p.count, 4) && Wire(p)[4..8] == ToBe(p.limit, 4);
    }
    if |bytes| == PIN_DATA_SIZE {
      ToBeInverts(bytes[0..4]);
      ToBeInverts(bytes[4..8]);
      assert Wire(Counters(FromBe(bytes[0..4]), FromBe(bytes[4..8]))) == bytes;
    }
  }

  lemma LastByte(x: nat, last: u8)
    ensures (256 * x + last) / 256 == x && (256 * x + last) % 256 == last
  {
  }

  lemma {:induction false} ToBeInverts(b: seq<u8>)
    ensures ToBe(FromBe(b), |b|) == b
  {
    if b != [] {
      var front, last := b[..|b| - 1], b[|b| - 1];
      ToBeInverts(front);
      LastByte(FromBe(front), last);
      assert b == front + [last];
    }
  }

  /** Any eight bytes are a slot that is written back as them; shorter payloads are none, longer ones are cut. */
  lemma FirstEightBytesCount(bytes: seq<u8>)
    ensures FromBytes(bytes).None? <==> |bytes| < 8
    ensures |bytes| >= 8 ==> FromBytes(bytes).Some? && FromBytes(bytes).value.ToBytes() == bytes[..8]
  {
    if |bytes| >= 8 {
      ToBeInverts(bytes[0..4]);
      ToBeInverts(bytes[4..8]);
      FourBytesHoldU32();
      assert bytes[0..4] + bytes[4..8] == bytes[..8];
    }
  }

  datatype AttemptInfo = AttemptInfo(used: u32, limit: u32) {
    predicate Locked() {
      limit > 0 && used >= limit
    }
  }

  function FromPinData(slot: PinData): AttemptInfo {
    AttemptInfo(
      if slot.pinCount < 0 then 0 else slot.pinCount,
      if slot.pinLimit <= 0 then 0 else slot.pinLimit)
  }

  /** What a reader gets back from a TPM that holds these two unsigned counters. */
  function Seen(count: u32, limit: u32): PinData {
    PinData(AsSigned(count), AsSigned(limit))
  }

  /**
   For a counter the TPM keeps at or below its limit, the manager's, the helper's and the
   TPM's own lock tests agree exactly when the limit is between 1 and 2^31-1. The
   policy file accepts limits outside that range.
   */
  lemma LockTestsAgree(count: u32, limit: u32)
    requires count <= limit
    ensures (1 <= limit < TWO_TO_THE_31) ==>
              (Seen(count, limit).CounterSpent() <==> count >= limit) &&
              (FromPinData(Seen(count, limit)).Locked() <==> count >= limit)
    ensures (forall c: u32 | c <= limit ::
              (Seen(c, limit).CounterSpent() <==> c >= limit) &&
              (FromPinData(Seen(c, limit)).Locked() <==> c >= limit))
            <==> 1 <= limit < TWO_TO_THE_31
  {
    if limit == 0 {
      assert !FromPinData(Seen(0, limit)).Locked();
    } else if limit >= TWO_TO_THE_31 {
      assert Seen(0, limit).CounterSpent();
    }
  }

  /** `limit - used` is safe for every counter up to the limit exactly when the limit is at most 2^31-1. */
  lemma RemainingNeverUnderflows(limit: u32)
    ensures (forall c: u32 | c <= limit :: FromPinData(Seen(c, limit)).used <= FromPinData(Seen(c, limit)).limit)
            <==> limit < TWO_TO_THE_31
  {
    if limit >= TWO_TO_THE_31 {
      var info := FromPinData(Seen(1, limit));
      assert info.used == 1 && info.limit == 0;
    }
  }
}
