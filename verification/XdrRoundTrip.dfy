// Encoding of the maps that the decoder reads, and what decoding makes of whole, extended and
// truncated encodings.
module XdrRoundTrip {
  import opened Basics
  import opened Xdr

  datatype WireValue =
    | WireU32(n: nat)
    | WireAccount(raw: seq<byte>)
    | WireContract(raw: seq<byte>)
    | WireOther(kind: nat, raw: seq<byte>)
    | WireBytes(raw: seq<byte>)

  datatype WireEntry = WireEntry(key: seq<byte>, value: WireValue)

  predicate ValidValue(v: WireValue) {
    match v
    case WireU32(n) => n < TWO_32
    case WireAccount(raw) => |raw| == 32
    case WireContract(raw) => |raw| == 32
    case WireOther(kind, raw) => 2 <= kind < TWO_32 && |raw| == 32
    case WireBytes(raw) => |raw| <= 1024
  }

  predicate ValidEntry(e: WireEntry) {
    |e.key| <= 256 && ValidValue(e.value)
  }

  predicate ValidMap(es: seq<WireEntry>) {
    |es| <= 64 && forall e :: e in es ==> ValidEntry(e)
  }

  // ----- Encoding (RFC 4506), with the numbers of the Stellar types and limits written out

  function WordBytes(n: nat): (bytes: seq<byte>)
    requires n < TWO_32
    ensures |bytes| == 4
  {
    [n / 0x100_0000, n / 0x1_0000 % 0x100, n / 0x100 % 0x100, n % 0x100]
  }

  function Zeros(n: nat): (bytes: seq<byte>)
    ensures |bytes| == n
  {
    seq(n, _ => 0)
  }

  // A value without its trailing padding.
  function ValueCore(v: WireValue): (bytes: seq<byte>)
    requires ValidValue(v)
    ensures |bytes| >= 8
  {
    match v
    case WireU32(n) => WordBytes(3) + WordBytes(n)
    case WireAccount(raw) => WordBytes(18) + WordBytes(0) + raw
    case WireContract(raw) => WordBytes(18) + WordBytes(1) + raw
    case WireOther(kind, raw) => WordBytes(18) + WordBytes(kind) + raw
    case WireBytes(raw) => WordBytes(13) + WordBytes(|raw|) + raw
  }

  function Trailing(v: WireValue): (pad: nat)
    ensures pad <= 3
  {
    if v.WireBytes? then Padding(|v.raw|) else 0
  }

  function EncodeValue(v: WireValue): seq<byte>
    requires ValidValue(v)
  {
    ValueCore(v) + Zeros(Trailing(v))
  }

  function EncodeKey(key: seq<byte>): (bytes: seq<byte>)
    requires |key| <= 256
    ensures |bytes| == 8 + |key| + Padding(|key|)
  {
    WordBytes(15) + WordBytes(|key|) + key + Zeros(Padding(|key|))
  }

  function EncodeEntry(e: WireEntry): seq<byte>
    requires ValidEntry(e)
  {
    EncodeKey(e.key) + EncodeValue(e.value)
  }

  function EncodeEntries(es: seq<WireEntry>): seq<byte>
    requires forall e :: e in es ==> ValidEntry(e)
  {
    if |es| == 0 then [] else EncodeEntry(es[0]) + EncodeEntries(es[1..])
  }

  function Header(n: nat): (bytes: seq<byte>)
    requires n <= 64
    ensures |bytes| == 12
  {
    WordBytes(17) + WordBytes(1) + WordBytes(n)
  }

  function EncodeMap(es: seq<WireEntry>): seq<byte>
    requires ValidMap(es)
  {
    Header(|es|) + EncodeEntries(es)
  }

  // ----- What an encoded map means

  function ValueOf(v: WireValue): Value {
    match v
    case WireU32(n) => Number(n)
    case WireAccount(raw) => Account(raw)
    case WireContract(raw) => Contract(raw)
    case WireOther(_, raw) => Hex(raw)
    case WireBytes(raw) => Hex(raw)
  }

  // The fields in order: the last of several equal keys wins.
  function Rendered(text: Text, acc: Fields, es: seq<WireEntry>): Fields
    decreases |es|
  {
    if |es| == 0 then acc
    else Rendered(text, Put(acc, text(es[0].key), ValueOf(es[0].value)), es[1..])
  }

  // A map without fields counts as no map.
  function Returned(m: Fields): Option<Fields> {
    if m == map[] then None else Some(m)
  }

  function LastTrailing(es: seq<WireEntry>): (pad: nat)
    ensures pad <= 3
  {
    if |es| == 0 then 0 else Trailing(es[|es| - 1].value)
  }

  // ----- Reading back

  lemma WordBack(n: nat)
    requires n < TWO_32
    ensures var b := WordBytes(n); Word(b[0], b[1], b[2], b[3]) == n
  {
    var a := n / 0x100;
    var b := a / 0x100;
    var c := b / 0x100;
    assert n / 0x1_0000 == b && n / 0x100_0000 == c;
    assert n == c * 0x100_0000 + b % 0x100 * 0x1_0000 + a % 0x100 * 0x100 + n % 0x100;
  }

  // The buffer holds these bytes from pos on, or ends inside them.
  ghost predicate Holds(buf: seq<byte>, pos: nat, bytes: seq<byte>) {
    && pos <= |buf|
    && var k := if pos + |bytes| <= |buf| then |bytes| else |buf| - pos;
       buf[pos..pos + k] == bytes[..k]
  }

  lemma HoldsPart(buf: seq<byte>, pos: nat, bytes: seq<byte>, i: nat, j: nat)
    requires Holds(buf, pos, bytes) && i <= j <= |bytes|
    ensures pos <= |buf|
    ensures pos + j <= |buf| ==> buf[pos + i..pos + j] == bytes[i..j]
    ensures pos + i <= |buf| ==> Holds(buf, pos + i, bytes[i..j])
  {
    var k := if pos + |bytes| <= |buf| then |bytes| else |buf| - pos;
    assert forall x :: 0 <= x < k ==> buf[pos + x] == buf[pos..pos + k][x] == bytes[..k][x] == bytes[x];
  }

  lemma ReadWord(buf: seq<byte>, pos: nat, bytes: seq<byte>, at: nat, n: nat)
    requires Holds(buf, pos, bytes) && at + 4 <= |bytes| && n < TWO_32 && bytes[at..at + 4] == WordBytes(n)
    ensures pos + at + 4 <= |buf| ==> WordAt(buf, pos + at) == n
  {
    hide Word, WordBytes, Holds;
    if pos + at + 4 <= |buf| {
      HoldsPart(buf, pos, bytes, at, at + 4);
      var w := buf[pos + at..pos + at + 4];
      assert w[0] == buf[pos + at] && w[1] == buf[pos + at + 1];
      assert w[2] == buf[pos + at + 2] && w[3] == buf[pos + at + 3];
      WordBack(n);
    }
  }

  lemma ReadAddress(buf: seq<byte>, pos: nat, enc: seq<byte>, kind: nat, raw: seq<byte>)
    requires Holds(buf, pos, enc) && kind < TWO_32 && |raw| == 32
    requires enc == WordBytes(18) + WordBytes(kind) + raw
    ensures pos <= |buf|
    ensures pos + 4 <= |buf| ==> WordAt(buf, pos) == 18
    ensures pos + 8 <= |buf| ==> WordAt(buf, pos + 4) == kind
    ensures pos + 40 <= |buf| ==> buf[pos + 8..pos + 40] == raw
  {
    hide Word, WordBytes, Holds, WordAt;
    assert enc[0..4] == WordBytes(18) && enc[4..8] == WordBytes(kind) && enc[8..40] == raw;
    ReadWord(buf, pos, enc, 0, 18);
    ReadWord(buf, pos, enc, 4, kind);
    HoldsPart(buf, pos, enc, 8, 40);
  }

  lemma ReadValueBack(buf: seq<byte>, pos: nat, v: WireValue, key: string)
    requires ValidValue(v) && Holds(buf, pos, EncodeValue(v))
    ensures DecodeValue(buf, pos, key) ==
            if pos + |ValueCore(v)| <= |buf| then Xdr.Entry(key, ValueOf(v), pos + |EncodeValue(v)|) else Corrupt
  {
    hide Word, WordBytes, Holds, Padding, WordAt, Zeros;
    var enc := EncodeValue(v);
    assert enc[..|ValueCore(v)|] == ValueCore(v);
    match v {
      case WireU32(n) =>
        assert enc[0..4] == WordBytes(3) && enc[4..8] == WordBytes(n);
        ReadWord(buf, pos, enc, 0, 3);
        ReadWord(buf, pos, enc, 4, n);
      case WireAccount(raw) => ReadAddress(buf, pos, enc, 0, raw);
      case WireContract(raw) => ReadAddress(buf, pos, enc, 1, raw);
      case WireOther(kind, raw) => ReadAddress(buf, pos, enc, kind, raw);
      case WireBytes(raw) =>
        assert enc[0..4] == WordBytes(13) && enc[4..8] == WordBytes(|raw|) && enc[8..8 + |raw|] == raw;
        ReadWord(buf, pos, enc, 0, 13);
        ReadWord(buf, pos, enc, 4, |raw|);
        HoldsPart(buf, pos, enc, 8, 8 + |raw|);
    }
  }

  lemma ReadKeyBack(text: Text, buf: seq<byte>, pos: nat, key: seq<byte>)
    requires |key| <= 256 && Holds(buf, pos, EncodeKey(key))
    ensures DecodeEntry(text, buf, pos) ==
            if pos + 8 + |key| <= |buf| then DecodeValue(buf, pos + |EncodeKey(key)|, text(key)) else Corrupt
  {
    hide Word, WordBytes, Holds, Padding, WordAt, Zeros, DecodeValue;
    var enc := EncodeKey(key);
    assert enc[0..4] == WordBytes(15) && enc[4..8] == WordBytes(|key|) && enc[8..8 + |key|] == key;
    ReadWord(buf, pos, enc, 0, 15);
    ReadWord(buf, pos, enc, 4, |key|);
    HoldsPart(buf, pos, enc, 8, 8 + |key|);
  }

  lemma ReadEntryBack(text: Text, buf: seq<byte>, pos: nat, e: WireEntry)
    requires ValidEntry(e) && Holds(buf, pos, EncodeEntry(e))
    ensures DecodeEntry(text, buf, pos) ==
            if pos + |EncodeEntry(e)| - Trailing(e.value) <= |buf|
            then Xdr.Entry(text(e.key), ValueOf(e.value), pos + |EncodeEntry(e)|) else Corrupt
  {
    hide Holds, Padding, WordAt, Zeros, DecodeEntry, EncodeKey, ValueCore, Trailing;
    var enc, k := EncodeEntry(e), |EncodeKey(e.key)|;
    assert enc[0..k] == EncodeKey(e.key) && enc[k..|enc|] == EncodeValue(e.value);
    HoldsPart(buf, pos, enc, 0, k);
    HoldsPart(buf, pos, enc, k, |enc|);
    ReadKeyBack(text, buf, pos, e.key);
    if pos + k <= |buf| {
      ReadValueBack(buf, pos + k, e.value, text(e.key));
    }
  }

  lemma EntriesLongEnough(es: seq<WireEntry>)
    requires forall e :: e in es ==> ValidEntry(e)
    ensures |es| > 0 ==> |EncodeEntries(es)| >= 16
  {
    hide ValueCore, Zeros, Padding;
  }

  // Entries decode as encoded, unless the buffer ends before the trailing padding of the last one.
  lemma {:induction false} ReadEntriesBack(text: Text, buf: seq<byte>, pos: nat, es: seq<WireEntry>, more: nat,
                                           acc: Fields)
    requires forall e :: e in es ==> ValidEntry(e)
    requires Holds(buf, pos, EncodeEntries(es))
    ensures pos + |EncodeEntries(es)| - LastTrailing(es) <= |buf| ==>
              DecodeEntries(text, buf, pos, |es| + more, acc) ==
              DecodeEntries(text, buf, pos + |EncodeEntries(es)|, more, Rendered(text, acc, es))
    ensures |buf| < pos + |EncodeEntries(es)| - LastTrailing(es) ==>
              DecodeEntries(text, buf, pos, |es| + more, acc) == None
    decreases |es|
  {
    hide Holds, Put, EncodeEntry, Trailing, DecodeEntry, ValueOf, ValidEntry, LastTrailing;
    HoldsPart(buf, pos, EncodeEntries(es), 0, 0);
    TrailingOfRest(es);
    if |es| == 0 {
    } else {
      var e, rest := es[0], es[1..];
      var enc, m := EncodeEntries(es), |EncodeEntry(es[0])|;
      assert enc[0..m] == EncodeEntry(e) && enc[m..|enc|] == EncodeEntries(rest);
      HoldsPart(buf, pos, enc, 0, m);
      HoldsPart(buf, pos, enc, m, |enc|);
      ReadEntryBack(text, buf, pos, e);
      EntriesLongEnough(rest);
      if pos + m <= |buf| {
        ReadEntriesBack(text, buf, pos + m, rest, more, Put(acc, text(e.key), ValueOf(e.value)));
      } else if |rest| > 0 {
        PastTheEnd(text, buf, pos + m, |rest| + more, Put(acc, text(e.key), ValueOf(e.value)));
      }
    }
  }

  lemma TrailingOfRest(es: seq<WireEntry>)
    ensures |es| == 0 ==> LastTrailing(es) == 0
    ensures |es| == 1 ==> LastTrailing(es) == Trailing(es[0].value)
    ensures |es| > 1 ==> LastTrailing(es) == LastTrailing(es[1..])
  {
  }

  lemma PastTheEnd(text: Text, buf: seq<byte>, pos: nat, n: nat, acc: Fields)
    requires pos > |buf| && n > 0
    ensures DecodeEntries(text, buf, pos, n, acc) == None
  {
  }

  lemma ReadHeaderBack(text: Text, buf: seq<byte>, n: nat)
    requires n <= 64 && Holds(buf, 0, Header(n))
    ensures Decode(text, buf) ==
            if |buf| < 12 then None
            else match DecodeEntries(text, buf, 12, n, map[])
                 case None => None
                 case Some(m) => Returned(m)
  {
    hide Word, WordBytes, Holds, WordAt, DecodeEntries;
    var h := Header(n);
    assert h[0..4] == WordBytes(17) && h[4..8] == WordBytes(1) && h[8..12] == WordBytes(n);
    ReadWord(buf, 0, h, 0, 17);
    ReadWord(buf, 0, h, 4, 1);
    ReadWord(buf, 0, h, 8, n);
  }

  lemma HoldsPrefix(all: seq<byte>, k: nat)
    requires k <= |all|
    ensures Holds(all[..k], 0, all)
  {
  }

  lemma HoldsExtended(bytes: seq<byte>, tail: seq<byte>)
    ensures Holds(bytes + tail, 0, bytes)
  {
  }

  lemma DecodeHolding(text: Text, buf: seq<byte>, es: seq<WireEntry>)
    requires ValidMap(es) && Holds(buf, 0, EncodeMap(es))
    ensures Decode(text, buf) ==
            if |EncodeMap(es)| - LastTrailing(es) <= |buf| then Returned(Rendered(text, map[], es)) else None
  {
    hide Holds, Header, EncodeEntries, DecodeEntries, Returned, Rendered, LastTrailing, ValidEntry;
    var enc := EncodeMap(es);
    assert enc[0..12] == Header(|es|) && enc[12..|enc|] == EncodeEntries(es);
    HoldsPart(buf, 0, enc, 0, 12);
    HoldsPart(buf, 0, enc, 12, |enc|);
    ReadHeaderBack(text, buf, |es|);
    TrailingFits(es);
    if |buf| >= 12 {
      ReadEntriesBack(text, buf, 12, es, 0, map[]);
      NoEntries(text, buf, 12 + |EncodeEntries(es)|, Rendered(text, map[], es));
    }
  }

  lemma TrailingFits(es: seq<WireEntry>)
    requires forall e :: e in es ==> ValidEntry(e)
    ensures LastTrailing(es) <= |EncodeEntries(es)|
  {
    EntriesLongEnough(es);
  }

  lemma NoEntries(text: Text, buf: seq<byte>, pos: nat, acc: Fields)
    ensures DecodeEntries(text, buf, pos, 0, acc) == Some(acc)
  {
  }

  // ----- Main results

  // Decoding an encoded map returns its fields, whatever bytes follow.
  lemma RoundTrip(text: Text, es: seq<WireEntry>, tail: seq<byte>)
    requires ValidMap(es)
    ensures Decode(text, EncodeMap(es) + tail) == Returned(Rendered(text, map[], es))
  {
    hide Decode, EncodeMap, Returned, Rendered, Holds;
    HoldsExtended(EncodeMap(es), tail);
    DecodeHolding(text, EncodeMap(es) + tail, es);
  }

  // A truncated encoding decodes to nothing, never to part of the map; only the padding after the
  // last value can be missing.
  lemma Truncation(text: Text, es: seq<WireEntry>, k: nat)
    requires ValidMap(es) && k <= |EncodeMap(es)|
    ensures Decode(text, EncodeMap(es)[..k]) ==
            if |EncodeMap(es)| - LastTrailing(es) <= k then Returned(Rendered(text, map[], es)) else None
  {
    hide Decode, EncodeMap, Returned, Rendered, Holds, LastTrailing;
    HoldsPrefix(EncodeMap(es), k);
    DecodeHolding(text, EncodeMap(es)[..k], es);
  }

  // A value of unknown type ends the map: the fields before it are returned, whatever follows.
  lemma UnknownType(text: Text, es: seq<WireEntry>, n: nat, key: seq<byte>, kind: nat, tail: seq<byte>)
    requires ValidMap(es) && |es| < n <= 64
    requires |key| <= 256 && kind < TWO_32 && kind !in {3, 13, 18}
    ensures Decode(text, Header(n) + EncodeEntries(es) + EncodeKey(key) + WordBytes(kind) + tail) ==
            Returned(Rendered(text, map[], es))
  {
    hide Holds, Header, EncodeEntries, Returned, Rendered, LastTrailing, ValidEntry, EncodeKey, WordBytes,
         WordAt, DecodeEntry, Decode;
    var h, body, k, w := Header(n), EncodeEntries(es), EncodeKey(key), WordBytes(kind);
    var buf := h + body + k + w + tail;
    HoldsAt(buf, [], h, body + k + w + tail);
    ReadHeaderBack(text, buf, n);
    HoldsAt(buf, h, body, k + w + tail);
    ReadEntriesBack(text, buf, 12, es, n - |es|, map[]);
    HoldsAt(buf, h + body, k + w, tail);
    EndsUnknown(text, buf, 12 + |body|, key, kind, n - |es|, Rendered(text, map[], es));
    TrailingFits(es);
  }

  lemma EndsUnknown(text: Text, buf: seq<byte>, pos: nat, key: seq<byte>, kind: nat, n: nat, acc: Fields)
    requires |key| <= 256 && kind < TWO_32 && kind !in {3, 13, 18} && n > 0
    requires Holds(buf, pos, EncodeKey(key) + WordBytes(kind)) && pos + |EncodeKey(key)| + 4 <= |buf|
    ensures DecodeEntries(text, buf, pos, n, acc) == Some(acc)
  {
    hide Holds, EncodeKey, WordBytes, WordAt, DecodeEntry;
    var enc, k := EncodeKey(key) + WordBytes(kind), |EncodeKey(key)|;
    assert enc[0..k] == EncodeKey(key) && enc[k..k + 4] == WordBytes(kind);
    HoldsPart(buf, pos, enc, 0, k);
    ReadKeyBack(text, buf, pos, key);
    ReadWord(buf, pos, enc, k, kind);
  }

  lemma HoldsAt(buf: seq<byte>, before: seq<byte>, bytes: seq<byte>, after: seq<byte>)
    requires buf == before + bytes + after
    ensures Holds(buf, |before|, bytes)
  {
  }

  // The last of several equal keys wins, and every key but one is kept.
  lemma {:induction false} LastKeyWins(text: Text, acc: Fields, es: seq<WireEntry>, i: nat)
    requires i < |es|
    requires forall k :: i < k < |es| ==> text(es[k].key) != text(es[i].key)
    ensures text(es[i].key) != "__proto__" ==>
              var m := Rendered(text, acc, es);
              text(es[i].key) in m && m[text(es[i].key)] == ValueOf(es[i].value)
    decreases |es|
  {
    hide ValueOf;
    var first := Put(acc, text(es[0].key), ValueOf(es[0].value));
    if i > 0 {
      LastKeyWins(text, first, es[1..], i - 1);
    } else if text(es[0].key) != "__proto__" {
      UntouchedKey(text, first, es[1..], text(es[0].key));
    }
  }

  // The name that cannot be assigned is never a field.
  lemma {:induction false} ProtoDropped(text: Text, acc: Fields, es: seq<WireEntry>)
    requires "__proto__" !in acc
    ensures "__proto__" !in Rendered(text, acc, es)
    decreases |es|
  {
    hide ValueOf;
    if |es| == 0 {
    } else {
      ProtoDropped(text, Put(acc, text(es[0].key), ValueOf(es[0].value)), es[1..]);
    }
  }

  lemma {:induction false} UntouchedKey(text: Text, acc: Fields, es: seq<WireEntry>, key: string)
    requires forall k :: 0 <= k < |es| ==> text(es[k].key) != key
    ensures key in Rendered(text, acc, es) <==> key in acc
    ensures key in acc ==> Rendered(text, acc, es)[key] == acc[key]
    decreases |es|
  {
    hide ValueOf;
    if |es| == 0 {
    } else {
      UntouchedKey(text, Put(acc, text(es[0].key), ValueOf(es[0].value)), es[1..], key);
    }
  }

  // ----- What an accepted buffer contains

  lemma WordForth(b0: byte, b1: byte, b2: byte, b3: byte)
    ensures Word(b0, b1, b2, b3) < TWO_32
    ensures WordBytes(Word(b0, b1, b2, b3)) == [b0, b1, b2, b3]
  {
    LastByte(b0, b1);
    LastByte(b0 * 0x100 + b1, b2);
    LastByte((b0 * 0x100 + b1) * 0x100 + b2, b3);
    Bytewise(Word(b0, b1, b2, b3));
  }

  lemma LastByte(high: nat, low: byte)
    ensures (high * 0x100 + low) / 0x100 == high && (high * 0x100 + low) % 0x100 == low
  {
  }

  lemma Bytewise(n: nat)
    ensures n / 0x1_0000 == n / 0x100 / 0x100 && n / 0x100_0000 == n / 0x100 / 0x100 / 0x100
  {
  }

  lemma WordFound(buf: seq<byte>, pos: nat)
    requires pos + 4 <= |buf|
    ensures WordAt(buf, pos) < TWO_32
    ensures buf[pos..pos + 4] == WordBytes(WordAt(buf, pos))
  {
    hide Word, WordBytes;
    WordForth(buf[pos], buf[pos + 1], buf[pos + 2], buf[pos + 3]);
  }

  // The bytes stand in the buffer.
  ghost predicate Stands(buf: seq<byte>, pos: nat, bytes: seq<byte>) {
    pos + |bytes| <= |buf| && buf[pos..pos + |bytes|] == bytes
  }

  function KeyCore(key: seq<byte>): (bytes: seq<byte>)
    requires |key| <= 256
  {
    WordBytes(15) + WordBytes(|key|) + key
  }

  function ValuePos(pos: nat, key: seq<byte>): nat {
    pos + 8 + |key| + Padding(|key|)
  }

  function NextPos(pos: nat, e: WireEntry): nat
    requires ValidEntry(e)
  {
    ValuePos(pos, e.key) + |ValueCore(e.value)| + Trailing(e.value)
  }

  // The entries stand one after the other from pos to end, with any padding between them.
  ghost predicate LaidOut(buf: seq<byte>, pos: nat, es: seq<WireEntry>, end: nat)
    decreases |es|
  {
    if |es| == 0 then pos == end
    else
      && ValidEntry(es[0])
      && Stands(buf, pos, KeyCore(es[0].key))
      && Stands(buf, ValuePos(pos, es[0].key), ValueCore(es[0].value))
      && LaidOut(buf, NextPos(pos, es[0]), es[1..], end)
  }

  // An entry whose value has a type the decoder does not know.
  ghost predicate UnknownEntry(buf: seq<byte>, pos: nat) {
    exists key: seq<byte>, kind: nat ::
      && |key| <= 256 && kind < TWO_32 && kind !in {3, 13, 18}
      && Stands(buf, pos, KeyCore(key)) && Stands(buf, ValuePos(pos, key), WordBytes(kind))
  }

  lemma KeyFound(text: Text, buf: seq<byte>, pos: nat) returns (key: seq<byte>)
    requires !DecodeEntry(text, buf, pos).Corrupt?
    ensures |key| <= 256 && Stands(buf, pos, KeyCore(key))
    ensures DecodeEntry(text, buf, pos) == DecodeValue(buf, ValuePos(pos, key), text(key))
  {
    hide WordAt, WordBytes, Padding, DecodeValue;
    WordFound(buf, pos);
    WordFound(buf, pos + 4);
    key := buf[pos + 8..pos + 8 + WordAt(buf, pos + 4)];
    Joined(buf, pos, pos + 4, pos + 8);
    Joined(buf, pos, pos + 8, pos + 8 + |key|);
  }

  lemma Joined(buf: seq<byte>, i: nat, j: nat, k: nat)
    requires i <= j <= k <= |buf|
    ensures buf[i..k] == buf[i..j] + buf[j..k]
  {
  }

  lemma AddressFound(buf: seq<byte>, pos: nat, key: string) returns (v: WireValue)
    requires pos + 40 <= |buf| && WordAt(buf, pos) == 18
    ensures ValidValue(v) && Stands(buf, pos, ValueCore(v)) && |ValueCore(v)| == 40 && Trailing(v) == 0
    ensures DecodeValue(buf, pos, key) == Xdr.Entry(key, ValueOf(v), pos + 40)
  {
    hide WordAt, WordBytes, Padding;
    WordFound(buf, pos);
    WordFound(buf, pos + 4);
    var kind, raw := WordAt(buf, pos + 4), buf[pos + 8..pos + 40];
    v := if kind == 0 then WireAccount(raw) else if kind == 1 then WireContract(raw) else WireOther(kind, raw);
    Joined(buf, pos, pos + 4, pos + 8);
    Joined(buf, pos, pos + 8, pos + 40);
  }

  lemma NumberFound(buf: seq<byte>, pos: nat, key: string) returns (v: WireValue)
    requires pos + 8 <= |buf| && WordAt(buf, pos) == 3
    ensures ValidValue(v) && Stands(buf, pos, ValueCore(v))
    ensures DecodeValue(buf, pos, key) == Xdr.Entry(key, ValueOf(v), pos + |ValueCore(v)| + Trailing(v))
  {
    hide WordAt, WordBytes, Padding;
    WordFound(buf, pos);
    WordFound(buf, pos + 4);
    v := WireU32(WordAt(buf, pos + 4));
    Joined(buf, pos, pos + 4, pos + 8);
  }

  lemma BytesFound(buf: seq<byte>, pos: nat, key: string) returns (v: WireValue)
    requires pos + 8 <= |buf| && WordAt(buf, pos) == 13 && DecodeValue(buf, pos, key).Entry?
    ensures ValidValue(v) && Stands(buf, pos, ValueCore(v))
    ensures DecodeValue(buf, pos, key) == Xdr.Entry(key, ValueOf(v), pos + |ValueCore(v)| + Trailing(v))
  {
    hide WordAt, WordBytes, Padding;
    WordFound(buf, pos);
    WordFound(buf, pos + 4);
    var n := WordAt(buf, pos + 4);
    v := WireBytes(buf[pos + 8..pos + 8 + n]);
    Joined(buf, pos, pos + 4, pos + 8);
    Joined(buf, pos, pos + 8, pos + 8 + n);
  }

  lemma EntryKinds(buf: seq<byte>, pos: nat, key: string)
    requires DecodeValue(buf, pos, key).Entry?
    ensures pos + 8 <= |buf| && WordAt(buf, pos) in {3, 13, 18}
    ensures WordAt(buf, pos) == 18 ==> pos + 40 <= |buf|
  {
    hide WordAt, Padding;
  }

  lemma ValueFound(buf: seq<byte>, pos: nat, key: string) returns (v: WireValue)
    requires DecodeValue(buf, pos, key).Entry?
    ensures ValidValue(v) && Stands(buf, pos, ValueCore(v))
    ensures DecodeValue(buf, pos, key) == Xdr.Entry(key, ValueOf(v), pos + |ValueCore(v)| + Trailing(v))
  {
    hide *;
    EntryKinds(buf, pos, key);
    if WordAt(buf, pos) == 3 {
      v := NumberFound(buf, pos, key);
    } else if WordAt(buf, pos) == 18 {
      v := AddressFound(buf, pos, key);
    } else {
      v := BytesFound(buf, pos, key);
    }
  }

  lemma UnknownFound(text: Text, buf: seq<byte>, pos: nat)
    requires DecodeEntry(text, buf, pos).Unknown?
    ensures UnknownEntry(buf, pos)
  {
    hide WordAt, WordBytes, Padding, KeyCore;
    var key := KeyFound(text, buf, pos);
    var q := ValuePos(pos, key);
    WordFound(buf, q);
    assert Stands(buf, q, WordBytes(WordAt(buf, q)));
  }

  lemma {:induction false} EntriesFound(text: Text, buf: seq<byte>, pos: nat, n: nat, acc: Fields)
    returns (es: seq<WireEntry>, end: nat)
    requires DecodeEntries(text, buf, pos, n, acc).Some?
    ensures |es| <= n && LaidOut(buf, pos, es, end)
    ensures DecodeEntries(text, buf, pos, n, acc) == Some(Rendered(text, acc, es))
    ensures |es| == n || UnknownEntry(buf, end)
    decreases n
  {
    hide DecodeEntry, DecodeValue, Stands, KeyCore, ValueCore, Put, ValueOf, ValidValue, UnknownEntry, Trailing;
    es, end := [], pos;
    if n == 0 {
    } else {
      var step := DecodeEntry(text, buf, pos);
      if step.Unknown? {
        UnknownFound(text, buf, pos);
      } else {
        var key := KeyFound(text, buf, pos);
        var v := ValueFound(buf, ValuePos(pos, key), text(key));
        var e := WireEntry(key, v);
        var rest, last := EntriesFound(text, buf, NextPos(pos, e), n - 1, Put(acc, text(key), ValueOf(v)));
        es, end := [e] + rest, last;
        assert es[1..] == rest;
      }
    }
  }

  // A buffer that decodes is a map header, then entries; the result is made of all of them, or of
  // those before the first one of unknown type.
  lemma DecodedIsLaidOut(text: Text, buf: seq<byte>) returns (n: nat, es: seq<WireEntry>, end: nat)
    requires Decode(text, buf).Some?
    ensures n <= 64 && Stands(buf, 0, Header(n))
    ensures |es| <= n && LaidOut(buf, 12, es, end)
    ensures |es| == n || UnknownEntry(buf, end)
    ensures Decode(text, buf) == Some(Rendered(text, map[], es))
  {
    hide WordAt, WordBytes, DecodeEntries, LaidOut, Rendered, UnknownEntry;
    WordFound(buf, 0);
    WordFound(buf, 4);
    WordFound(buf, 8);
    n := WordAt(buf, 8);
    Joined(buf, 0, 4, 8);
    Joined(buf, 0, 8, 12);
    es, end := EntriesFound(text, buf, 12, n, map[]);
  }
}
