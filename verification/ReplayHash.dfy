// The identity of a replay: a hash over the seed, the frame count and the packed inputs of a tape,
// under a fixed domain prefix.
module ReplayHash {
  import Crc
  import opened Tape

  // "kalien:asteroids:replay:v1"
  const DOMAIN_BYTES: seq<bv8> := [
    0x6b, 0x61, 0x6c, 0x69, 0x65, 0x6e, 0x3a, 0x61, 0x73, 0x74, 0x65, 0x72, 0x6f,
    0x69, 0x64, 0x73, 0x3a, 0x72, 0x65, 0x70, 0x6c, 0x61, 0x79, 0x3a, 0x76, 0x31]

  datatype ReplayIdentity = ReplayIdentity(replayHash: string, seed: bv32, frameCount: bv32)

  // What is hashed.
  function Preimage(seed: bv32, frameCount: bv32, body: seq<bv8>): (bytes: seq<bv8>)
    ensures |bytes| == |DOMAIN_BYTES| + 10 + |body|
  {
    DOMAIN_BYTES + [TAPE_VERSION, EXPECTED_RULES_TAG] + Uint32Bytes(seed) + Uint32Bytes(frameCount) + body
  }

  // The domain text, version 4, rules tag 4, the seed, the frame count, and the inputs, in this order.
  lemma PreimageLayout(seed: bv32, frameCount: bv32, body: seq<bv8>)
    ensures var p := Preimage(seed, frameCount, body);
            && Spells(p[..7], "kalien:") && Spells(p[7..17], "asteroids:") && Spells(p[17..26], "replay:v1")
            && p[26] == 4 && p[27] == 4
            && GetUint32(p, 28) == seed && GetUint32(p, 32) == frameCount
            && p[36..] == body
  {
    hide Pack, Byte;
    PackBytes(seed);
    PackBytes(frameCount);
    DomainText();
    var p := Preimage(seed, frameCount, body);
    assert p[..26] == DOMAIN_BYTES;
    assert p[..7] == DOMAIN_BYTES[..7] && p[7..17] == DOMAIN_BYTES[7..17] && p[17..26] == DOMAIN_BYTES[17..];
    assert p[28..32] == Uint32Bytes(seed) && p[32..36] == Uint32Bytes(frameCount);
    assert p[28] == p[28..32][0] && p[29] == p[28..32][1] && p[30] == p[28..32][2] && p[31] == p[28..32][3];
    assert p[32] == p[32..36][0] && p[33] == p[32..36][1] && p[34] == p[32..36][2] && p[35] == p[32..36][3];
  }

  lemma DomainText()
    ensures |DOMAIN_BYTES| == 26
    ensures Spells(DOMAIN_BYTES[..7], "kalien:")
    ensures Spells(DOMAIN_BYTES[7..17], "asteroids:")
    ensures Spells(DOMAIN_BYTES[17..], "replay:v1")
  {
  }

  predicate Spells(bytes: seq<bv8>, text: string) {
    |bytes| == |text| && forall i :: 0 <= i < |text| ==> bytes[i] as int == text[i] as int
  }

  // Copies bytes into a buffer.
  method Set(buffer: array<bv8>, bytes: seq<bv8>, at: nat)
    requires at + |bytes| <= buffer.Length
    modifies buffer
    ensures buffer[..] == old(buffer[..at]) + bytes + old(buffer[at + |bytes|..])
  {
    for i := 0 to |bytes|
      invariant buffer[..at] == old(buffer[..at])
      invariant buffer[at..at + i] == bytes[..i]
      invariant buffer[at + i..] == old(buffer[at + i..])
    {
      ghost var before := buffer[..];
      buffer[at + i] := bytes[i];
      assert buffer[at + i + 1..] == before[at + i + 1..];
    }
    assert buffer[..] == buffer[..at] + buffer[at..at + |bytes|] + buffer[at + |bytes|..];
  }

  // Lays out the bytes to hash.
  method BuildPreimage(seed: bv32, frameCount: bv32, packedInputs: seq<bv8>) returns (preimage: array<bv8>)
    ensures fresh(preimage)
    ensures preimage[..] == Preimage(seed, frameCount, packedInputs)
  {
    hide Uint32Bytes;
    var domain := |DOMAIN_BYTES|;
    preimage := new bv8[domain + 2 + 4 + 4 + |packedInputs|];
    Set(preimage, DOMAIN_BYTES, 0);
    preimage[domain] := TAPE_VERSION;
    preimage[domain + 1] := EXPECTED_RULES_TAG;
    assert preimage[..domain + 2] == DOMAIN_BYTES + [TAPE_VERSION, EXPECTED_RULES_TAG];
    Set(preimage, Uint32Bytes(seed), domain + 2);
    assert preimage[..domain + 6] == DOMAIN_BYTES + [TAPE_VERSION, EXPECTED_RULES_TAG] + Uint32Bytes(seed);
    Set(preimage, Uint32Bytes(frameCount), domain + 6);
    Set(preimage, packedInputs, domain + 10);
  }

  // The identity of an accepted tape, with SHA-256 as a parameter; other bytes have none.
  method ComputeReplayIdentity(table: array<bv32>, tapeBytes: seq<bv8>, maxTapeBytes: int,
                               sha256Hex: seq<bv8> -> string)
    returns (r: Result<ReplayIdentity>)
    requires Crc.IsTable(table[..])
    ensures forall m, body :: IsTape(tapeBytes, maxTapeBytes, m, body) ==>
              r == Ok(ReplayIdentity(sha256Hex(Preimage(m.seed, m.frameCount, body)), m.seed, m.frameCount))
    ensures !Accepted(tapeBytes, maxTapeBytes) ==> r.Err?
  {
    hide IsTape, Preimage, Explains, FieldsAt;
    var parsed := ParseAndValidateTape(table, tapeBytes, maxTapeBytes);
    if parsed.Err? {
      return Err(parsed.error);
    }
    var metadata := parsed.value;
    ghost var body :| IsTape(tapeBytes, maxTapeBytes, metadata, body);
    BodyAt(tapeBytes, maxTapeBytes, metadata, body);
    var bodyBytes := BodyBytes(metadata.frameCount);
    var packedInputs := tapeBytes[TAPE_HEADER_SIZE..TAPE_HEADER_SIZE + bodyBytes];
    var preimage := BuildPreimage(metadata.seed, metadata.frameCount, packedInputs);
    forall m, b | IsTape(tapeBytes, maxTapeBytes, m, b)
      ensures m == metadata && b == body
    {
      DecodingUnique(tapeBytes, maxTapeBytes, m, b, metadata, body);
    }
    return Ok(ReplayIdentity(sha256Hex(preimage[..]), metadata.seed, metadata.frameCount));
  }

  lemma BodyAt(bytes: seq<bv8>, maxTapeBytes: int, m: Metadata, body: seq<bv8>)
    requires IsTape(bytes, maxTapeBytes, m, body)
    ensures BodyBytes(m.frameCount) >= 0 && TAPE_HEADER_SIZE + BodyBytes(m.frameCount) <= |bytes|
    ensures body == bytes[TAPE_HEADER_SIZE..TAPE_HEADER_SIZE + BodyBytes(m.frameCount)]
  {
    hide IsTape, HeaderAt, BodyBytes, GetUint32, Crc.BitwiseCrc;
    IsTapeFields(bytes, maxTapeBytes, m, body);
  }

  // Two tapes agree on every byte except the four of the final score.
  ghost predicate AgreeButScore(a: seq<bv8>, b: seq<bv8>) {
    && |a| == |b|
    && forall k :: 0 <= k < |a| && !(|a| - 8 <= k < |a| - 4) ==> a[k] == b[k]
  }

  lemma PreimageInjective(m: Metadata, b: seq<bv8>, m': Metadata, b': seq<bv8>)
    requires Preimage(m.seed, m.frameCount, b) == Preimage(m'.seed, m'.frameCount, b')
    ensures m.seed == m'.seed && m.frameCount == m'.frameCount && b == b'
  {
    hide Uint32Bytes;
    var p, p' := Preimage(m.seed, m.frameCount, b), Preimage(m'.seed, m'.frameCount, b');
    var d := |DOMAIN_BYTES|;
    assert p[d + 2..d + 6] == Uint32Bytes(m.seed) && p'[d + 2..d + 6] == Uint32Bytes(m'.seed);
    assert p[d + 6..d + 10] == Uint32Bytes(m.frameCount) && p'[d + 6..d + 10] == Uint32Bytes(m'.frameCount);
    assert p[d + 10..] == b && p'[d + 10..] == b';
    Uint32BytesInjective(m.seed, m'.seed);
    Uint32BytesInjective(m.frameCount, m'.frameCount);
  }

  // Two accepted tapes hash the same bytes exactly when they differ in the final score at most.
  lemma SameReplay(a: seq<bv8>, b: seq<bv8>, maxA: int, maxB: int,
                   m: Metadata, body: seq<bv8>, m': Metadata, body': seq<bv8>)
    requires IsTape(a, maxA, m, body)
    requires IsTape(b, maxB, m', body')
    ensures Preimage(m.seed, m.frameCount, body) == Preimage(m'.seed, m'.frameCount, body') <==>
            AgreeButScore(a, b)
    ensures AgreeButScore(a, b) ==> m.checksum == m'.checksum
  {
    hide Uint32Bytes, GetUint32, Crc.BitwiseCrc;
    var covered, covered' := Header(m.seed, m.frameCount) + body, Header(m'.seed, m'.frameCount) + body';
    IsTapeFields(a, maxA, m, body);
    IsTapeFields(b, maxB, m', body');
    if Preimage(m.seed, m.frameCount, body) == Preimage(m'.seed, m'.frameCount, body') {
      PreimageInjective(m, body, m', body');
      var footer := |covered|;
      assert covered == covered' && |a| == |b| == footer + 8;
      assert a[..footer] == covered == b[..footer];
      assert a[footer + 4..] == Uint32Bytes(Crc.BitwiseCrc(covered)) == b[footer + 4..];
      forall k | 0 <= k < |a| && !(|a| - 8 <= k < |a| - 4)
        ensures a[k] == b[k]
      {
        assert k < footer ==> a[k] == a[..footer][k] == b[..footer][k];
        assert k >= footer ==> a[k] == a[footer + 4..][k - footer - 4] == b[footer + 4..][k - footer - 4];
      }
    }
    if AgreeButScore(a, b) {
      SameWord(a, b, 8);
      SameWord(a, b, 12);
      SameWord(a, b, |a| - 4);
      assert body == body';
    }
  }
}
