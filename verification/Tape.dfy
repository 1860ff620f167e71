// The replay tape: a 16-byte header, a packed body and an 8-byte footer holding the final score and
// a CRC-32 of header and body.
module Tape {
  import opened Basics
  import Crc

  const TAPE_MAGIC: bv32 := 0x5a4b5450
  const TAPE_VERSION: bv8 := 4
  const EXPECTED_RULES_TAG: bv8 := 4
  const TAPE_HEADER_SIZE := 16
  const TAPE_FOOTER_SIZE := 8

  datatype Metadata = Metadata(seed: bv32, seedId: nat, frameCount: bv32, finalScore: bv32, checksum: bv32)

  datatype Error =
    | Empty | TooLarge | TooShort | BadMagic | BadVersion | BadRulesTag | ReservedNonZero
    | SizeMismatch | ZeroScore | ChecksumMismatch

  datatype Result<+T> = Ok(value: T) | Err(error: Error)

  // ----- Little-endian words

  function Pack(b0: bv8, b1: bv8, b2: bv8, b3: bv8): bv32 {
    (b0 as bv32) | ((b1 as bv32) << 8) | ((b2 as bv32) << 16) | ((b3 as bv32) << 24)
  }

  function GetUint32(bytes: seq<bv8>, at: nat): bv32
    requires at + 4 <= |bytes|
  {
    Pack(bytes[at], bytes[at + 1], bytes[at + 2], bytes[at + 3])
  }

  function Byte(w: bv32, k: nat): bv8
    requires k < 4
  {
    match k
    case 0 => (w & 0xff) as bv8
    case 1 => ((w >> 8) & 0xff) as bv8
    case 2 => ((w >> 16) & 0xff) as bv8
    case 3 => ((w >> 24) & 0xff) as bv8
  }

  function Uint32Bytes(w: bv32): (bytes: seq<bv8>)
    ensures |bytes| == 4
  {
    [Byte(w, 0), Byte(w, 1), Byte(w, 2), Byte(w, 3)]
  }

  lemma PackBytes(w: bv32)
    ensures Pack(Byte(w, 0), Byte(w, 1), Byte(w, 2), Byte(w, 3)) == w
  {
  }

  lemma BytesPack(b0: bv8, b1: bv8, b2: bv8, b3: bv8)
    ensures Uint32Bytes(Pack(b0, b1, b2, b3)) == [b0, b1, b2, b3]
  {
  }

  lemma WordAt(bytes: seq<bv8>, at: nat, w: bv32)
    requires at + 4 <= |bytes|
    ensures GetUint32(bytes, at) == w <==> bytes[at..at + 4] == Uint32Bytes(w)
  {
    hide Pack, Byte, Uint32Bytes;
    var b0, b1, b2, b3 := bytes[at], bytes[at + 1], bytes[at + 2], bytes[at + 3];
    BytesPack(b0, b1, b2, b3);
    assert bytes[at..at + 4] == [b0, b1, b2, b3];
    if bytes[at..at + 4] == Uint32Bytes(w) {
      Uint32BytesInjective(Pack(b0, b1, b2, b3), w);
    }
  }

  lemma Uint32BytesInjective(v: bv32, w: bv32)
    requires Uint32Bytes(v) == Uint32Bytes(w)
    ensures v == w
  {
    hide Pack, Byte;
    PackBytes(v);
    PackBytes(w);
    assert Byte(v, 0) == Uint32Bytes(v)[0] == Byte(w, 0);
    assert Byte(v, 1) == Uint32Bytes(v)[1] == Byte(w, 1);
    assert Byte(v, 2) == Uint32Bytes(v)[2] == Byte(w, 2);
    assert Byte(v, 3) == Uint32Bytes(v)[3] == Byte(w, 3);
  }

  // ----- The length of the body

  const TWO_31 := 0x8000_0000

  // JavaScript's conversion of a number to a signed 32-bit integer.
  function ToInt32(n: int): int {
    var m := n % TWO_32;
    if m < TWO_31 then m else m - TWO_32
  }

  // `(frameCount + 1) >> 1`, whose operand is first converted to 32 bits.
  function BodyLength(frameCount: int): int {
    ToInt32(frameCount + 1) / 2
  }

  function BodyBytes(frameCount: bv32): int {
    BodyLength(frameCount as int)
  }

  function HalfRoundedUp(n: int): int {
    n / 2 + n % 2
  }

  // Two frames share a byte as long as the sum stays below 2^31; the largest frame count wraps
  // around to an empty body; every other large frame count has a negative length.
  lemma BodyLengthExact(n: int)
    requires 0 <= n < TWO_32
    ensures n < TWO_31 - 1 ==> BodyLength(n) == HalfRoundedUp(n)
    ensures TWO_31 - 1 <= n < TWO_32 - 1 ==> BodyLength(n) < 0
    ensures n == TWO_32 - 1 ==> BodyLength(n) == 0
  {
  }

  // So no tape has a frame count from 2^31 - 1 to 2^32 - 2.
  lemma FrameCountsOfTapes(bytes: seq<bv8>, maxTapeBytes: int, m: Metadata, body: seq<bv8>)
    requires IsTape(bytes, maxTapeBytes, m, body)
    ensures var n := m.frameCount as int;
            || (n < TWO_31 - 1 && |body| == HalfRoundedUp(n))
            || (n == TWO_32 - 1 && |body| == 0)
  {
    hide BodyLength, HalfRoundedUp, Encode, Header;
    FrameCountRange(m.frameCount);
    BodyLengthExact(m.frameCount as int);
  }

  lemma FrameCountRange(frameCount: bv32)
    ensures 0 <= frameCount as int < TWO_32
  {
  }

  // ----- The format

  function Header(seed: bv32, frameCount: bv32): (bytes: seq<bv8>)
    ensures |bytes| == TAPE_HEADER_SIZE
  {
    Uint32Bytes(TAPE_MAGIC) + [TAPE_VERSION, EXPECTED_RULES_TAG, 0, 0]
    + Uint32Bytes(seed) + Uint32Bytes(frameCount)
  }

  // A tape is its header, its body, the final score, and the checksum of header and body.
  function Encode(seed: bv32, frameCount: bv32, body: seq<bv8>, finalScore: bv32): (bytes: seq<bv8>) {
    var covered := Header(seed, frameCount) + body;
    covered + Uint32Bytes(finalScore) + Uint32Bytes(Crc.BitwiseCrc(covered))
  }

  // "PTKZ", version 4, rules tag 4 and two zero bytes, then the seed and the frame count.
  lemma HeaderLayout(seed: bv32, frameCount: bv32)
    ensures Header(seed, frameCount)[..8] == [0x50, 0x54, 0x4b, 0x5a, 4, 4, 0, 0]
    ensures GetUint32(Header(seed, frameCount), 8) == seed && GetUint32(Header(seed, frameCount), 12) == frameCount
  {
    hide Pack, Byte;
    MagicBytes();
    PackBytes(seed);
    PackBytes(frameCount);
  }

  lemma MagicBytes()
    ensures Byte(TAPE_MAGIC, 0) == 0x50 && Byte(TAPE_MAGIC, 1) == 0x54
    ensures Byte(TAPE_MAGIC, 2) == 0x4b && Byte(TAPE_MAGIC, 3) == 0x5a
  {
  }

  // The bytes are the tape with these fields and this body, within the size limit.
  ghost predicate IsTape(bytes: seq<bv8>, maxTapeBytes: int, m: Metadata, body: seq<bv8>) {
    && |bytes| <= maxTapeBytes
    && |body| == BodyBytes(m.frameCount)
    && m.finalScore != 0
    && m.seedId == 0
    && m.checksum == Crc.BitwiseCrc(Header(m.seed, m.frameCount) + body)
    && bytes == Encode(m.seed, m.frameCount, body, m.finalScore)
  }

  ghost predicate Accepted(bytes: seq<bv8>, maxTapeBytes: int) {
    exists m, body :: IsTape(bytes, maxTapeBytes, m, body)
  }

  // The same, read off the bytes at their offsets.
  predicate HeaderAt(bytes: seq<bv8>, m: Metadata)
    requires |bytes| >= TAPE_HEADER_SIZE
  {
    && GetUint32(bytes, 0) == TAPE_MAGIC
    && bytes[4] == TAPE_VERSION
    && bytes[5] == EXPECTED_RULES_TAG
    && bytes[6] == 0 && bytes[7] == 0
    && GetUint32(bytes, 8) == m.seed
    && GetUint32(bytes, 12) == m.frameCount
  }

  predicate FieldsAt(bytes: seq<bv8>, m: Metadata)
    requires |bytes| >= TAPE_HEADER_SIZE + TAPE_FOOTER_SIZE
  {
    var footer := |bytes| - TAPE_FOOTER_SIZE;
    && HeaderAt(bytes, m)
    && |bytes| == TAPE_HEADER_SIZE + BodyBytes(m.frameCount) + TAPE_FOOTER_SIZE
    && GetUint32(bytes, footer) == m.finalScore
    && GetUint32(bytes, footer + 4) == m.checksum
    && m.finalScore != 0
    && m.seedId == 0
    && m.checksum == Crc.BitwiseCrc(bytes[..footer])
  }

  lemma HeaderBytes(bytes: seq<bv8>, m: Metadata)
    requires |bytes| >= TAPE_HEADER_SIZE
    ensures HeaderAt(bytes, m) <==> bytes[..TAPE_HEADER_SIZE] == Header(m.seed, m.frameCount)
  {
    hide GetUint32, Uint32Bytes;
    WordAt(bytes, 0, TAPE_MAGIC);
    WordAt(bytes, 8, m.seed);
    WordAt(bytes, 12, m.frameCount);
    var h := Header(m.seed, m.frameCount);
    assert bytes[..16] == bytes[0..4] + bytes[4..8] + bytes[8..12] + bytes[12..16];
    assert h[0..4] == Uint32Bytes(TAPE_MAGIC);
    assert h[4..8] == [TAPE_VERSION, EXPECTED_RULES_TAG, 0, 0];
    assert h[8..12] == Uint32Bytes(m.seed);
    assert h[12..16] == Uint32Bytes(m.frameCount);
    if bytes[..16] == h {
      assert bytes[0..4] == h[0..4] && bytes[8..12] == h[8..12] && bytes[12..16] == h[12..16];
      assert forall k :: 4 <= k < 8 ==> bytes[k] == bytes[..16][k] == h[4..8][k - 4];
    }
    if HeaderAt(bytes, m) {
      assert bytes[4..8] == [TAPE_VERSION, EXPECTED_RULES_TAG, 0, 0];
    }
  }

  lemma IsTapeFields(bytes: seq<bv8>, maxTapeBytes: int, m: Metadata, body: seq<bv8>)
    ensures IsTape(bytes, maxTapeBytes, m, body) <==>
            && TAPE_HEADER_SIZE + TAPE_FOOTER_SIZE <= |bytes| <= maxTapeBytes
            && body == bytes[TAPE_HEADER_SIZE..|bytes| - TAPE_FOOTER_SIZE]
            && FieldsAt(bytes, m)
  {
    hide GetUint32, Uint32Bytes, Header, Crc.BitwiseCrc, HeaderAt;
    if |bytes| >= TAPE_HEADER_SIZE + TAPE_FOOTER_SIZE {
      var footer := |bytes| - TAPE_FOOTER_SIZE;
      HeaderBytes(bytes, m);
      WordAt(bytes, footer, m.finalScore);
      WordAt(bytes, footer + 4, m.checksum);
      var covered := Header(m.seed, m.frameCount) + body;
      var tape := Encode(m.seed, m.frameCount, body, m.finalScore);
      assert |tape| == |covered| + 8;
      assert tape[..16] == Header(m.seed, m.frameCount);
      assert tape[..|covered|] == covered;
      assert tape[16..|covered|] == body;
      assert tape[|covered|..|covered| + 4] == Uint32Bytes(m.finalScore);
      assert tape[|covered| + 4..] == Uint32Bytes(Crc.BitwiseCrc(covered));
      assert bytes[..footer] == bytes[..16] + bytes[16..footer];
      assert bytes == bytes[..footer] + bytes[footer..footer + 4] + bytes[footer + 4..footer + 8];
    }
  }

  // What each refusal says about the bytes.
  predicate Explains(error: Error, bytes: seq<bv8>, maxTapeBytes: int) {
    match error
    case Empty => |bytes| == 0
    case TooLarge => |bytes| > maxTapeBytes
    case TooShort => 0 < |bytes| < TAPE_HEADER_SIZE + TAPE_FOOTER_SIZE
    case BadMagic => |bytes| >= 4 && GetUint32(bytes, 0) != TAPE_MAGIC
    case BadVersion => |bytes| > 4 && bytes[4] != TAPE_VERSION
    case BadRulesTag => |bytes| > 5 && bytes[5] != EXPECTED_RULES_TAG
    case ReservedNonZero => |bytes| > 7 && (bytes[6] != 0 || bytes[7] != 0)
    case SizeMismatch => |bytes| >= 16 && |bytes| != 24 + BodyBytes(GetUint32(bytes, 12))
    case ZeroScore => |bytes| >= 8 && GetUint32(bytes, |bytes| - 8) == 0
    case ChecksumMismatch =>
      |bytes| >= 8 && GetUint32(bytes, |bytes| - 4) != Crc.BitwiseCrc(bytes[..|bytes| - 8])
  }

  // Accepts exactly the encodings of tapes, and returns the fields that were encoded.
  method ParseAndValidateTape(table: array<bv32>, bytes: seq<bv8>, maxTapeBytes: int)
    returns (r: Result<Metadata>)
    requires Crc.IsTable(table[..])
    ensures r.Ok? ==> exists body :: IsTape(bytes, maxTapeBytes, r.value, body)
    ensures r.Err? ==> !Accepted(bytes, maxTapeBytes) && Explains(r.error, bytes, maxTapeBytes)
  {
    hide GetUint32, IsTape, BodyBytes, Crc.BitwiseCrc;
    forall m, body | IsTape(bytes, maxTapeBytes, m, body)
      ensures TAPE_HEADER_SIZE + TAPE_FOOTER_SIZE <= |bytes| <= maxTapeBytes && FieldsAt(bytes, m)
    {
      IsTapeFields(bytes, maxTapeBytes, m, body);
    }
    if |bytes| == 0 {
      return Err(Empty);
    }
    if |bytes| > maxTapeBytes {
      return Err(TooLarge);
    }
    if |bytes| < TAPE_HEADER_SIZE + TAPE_FOOTER_SIZE {
      return Err(TooShort);
    }
    var magic := GetUint32(bytes, 0);
    if magic != TAPE_MAGIC {
      return Err(BadMagic);
    }
    if bytes[4] != TAPE_VERSION {
      return Err(BadVersion);
    }
    if bytes[5] != EXPECTED_RULES_TAG {
      return Err(BadRulesTag);
    }
    if bytes[6] != 0 || bytes[7] != 0 {
      return Err(ReservedNonZero);
    }
    var seed := GetUint32(bytes, 8);
    var frameCount := GetUint32(bytes, 12);
    var bodyBytes := BodyBytes(frameCount);
    var expectedLength := TAPE_HEADER_SIZE + bodyBytes + TAPE_FOOTER_SIZE;
    if |bytes| != expectedLength {
      return Err(SizeMismatch);
    }
    var footerOffset := TAPE_HEADER_SIZE + bodyBytes;
    var finalScore := GetUint32(bytes, footerOffset);
    var checksum := GetUint32(bytes, footerOffset + 4);
    if finalScore == 0 {
      return Err(ZeroScore);
    }
    var computedChecksum := Crc.Crc32(table, bytes, footerOffset);
    if checksum != computedChecksum {
      return Err(ChecksumMismatch);
    }
    var m := Metadata(seed, 0, frameCount, finalScore, checksum);
    IsTapeFields(bytes, maxTapeBytes, m, bytes[TAPE_HEADER_SIZE..footerOffset]);
    return Ok(m);
  }

  // Accepted bytes are the encoding of one tape only.
  lemma DecodingUnique(bytes: seq<bv8>, maxTapeBytes: int, m: Metadata, b: seq<bv8>, m': Metadata, b': seq<bv8>)
    requires IsTape(bytes, maxTapeBytes, m, b)
    requires IsTape(bytes, maxTapeBytes, m', b')
    ensures m == m' && b == b'
  {
    hide GetUint32, IsTape, Crc.BitwiseCrc;
    IsTapeFields(bytes, maxTapeBytes, m, b);
    IsTapeFields(bytes, maxTapeBytes, m', b');
  }

  // An accepted tape altered only inside four consecutive bytes of header and body is refused.
  lemma AlterationRefused(tape: seq<bv8>, altered: seq<bv8>, maxTapeBytes: int, first: nat)
    requires Accepted(tape, maxTapeBytes)
    requires |altered| == |tape| && altered != tape
    requires first + 4 <= |tape| - TAPE_FOOTER_SIZE
    requires forall k :: 0 <= k < |tape| && (k < first || first + 4 <= k) ==> altered[k] == tape[k]
    ensures !Accepted(altered, maxTapeBytes)
  {
    hide GetUint32, IsTape, Crc.BitwiseCrc;
    var m, b :| IsTape(tape, maxTapeBytes, m, b);
    IsTapeFields(tape, maxTapeBytes, m, b);
    var footer := |tape| - TAPE_FOOTER_SIZE;
    forall m', b' | IsTape(altered, maxTapeBytes, m', b')
      ensures false
    {
      IsTapeFields(altered, maxTapeBytes, m', b');
      SameWord(tape, altered, footer + 4);
      assert tape[..footer] != altered[..footer] by {
        var k :| 0 <= k < |tape| && tape[k] != altered[k];
        assert tape[..footer][k] != altered[..footer][k];
      }
      Crc.ByteBurstDetected(tape[..footer], altered[..footer], first);
    }
  }

  lemma SameWord(a: seq<bv8>, b: seq<bv8>, at: nat)
    requires |a| == |b| && at + 4 <= |a|
    requires forall k :: at <= k < at + 4 ==> a[k] == b[k]
    ensures GetUint32(a, at) == GetUint32(b, at)
  {
  }

  // The checksum does not cover the final score: any other positive score is accepted in its place.
  lemma ScoreNotCovered(seed: bv32, frameCount: bv32, body: seq<bv8>, score: bv32, other: bv32, maxTapeBytes: int)
    requires Accepted(Encode(seed, frameCount, body, score), maxTapeBytes)
    requires |body| == BodyBytes(frameCount)
    ensures Accepted(Encode(seed, frameCount, body, other), maxTapeBytes) <==> other != 0
  {
    hide GetUint32, Crc.BitwiseCrc, Header, Uint32Bytes;
    var tape := Encode(seed, frameCount, body, other);
    var covered := Header(seed, frameCount) + body;
    var m := Metadata(seed, 0, frameCount, other, Crc.BitwiseCrc(covered));
    if other != 0 {
      assert IsTape(tape, maxTapeBytes, m, body);
    } else if Accepted(tape, maxTapeBytes) {
      var m', b' :| IsTape(tape, maxTapeBytes, m', b');
      IsTapeFields(tape, maxTapeBytes, m', b');
      var footer := |tape| - TAPE_FOOTER_SIZE;
      assert tape[footer..footer + 4] == Uint32Bytes(other);
      WordAt(tape, footer, other);
    }
  }
}
