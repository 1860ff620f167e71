// The hand-written decoder of XDR maps: symbol keys, and u32, address or bytes values.
// The wire format is RFC 4506: big-endian words (4.2), variable-length opaque data padded to four
// bytes (4.10), strings (4.11), arrays (4.13), unions (4.15) and optional data (4.19).
module Xdr {
  import opened Basics

  type byte = x: int | 0 <= x < 256

  const SCV_U32 := 3
  const SCV_BYTES := 13
  const SCV_SYMBOL := 15
  const SCV_MAP := 17
  const SCV_ADDRESS := 18
  const SC_ADDRESS_TYPE_ACCOUNT := 0
  const SC_ADDRESS_TYPE_CONTRACT := 1
  const MAX_MAP := 64
  const MAX_KEY := 256
  const MAX_BYTES := 1024

  // A decoded value. Account and Contract stand for the StrKey text of 32 bytes, Hex for
  // hexadecimal text.
  datatype Value = Number(n: nat) | Account(raw: seq<byte>) | Contract(raw: seq<byte>) | Hex(raw: seq<byte>)

  // Decoding of key bytes to text is a parameter.
  type Text = seq<byte> -> string

  type Fields = map<string, Value>

  // Assigning to this name of a plain object does not create a property.
  const PROTO := "__proto__"

  function Put(m: Fields, key: string, v: Value): Fields {
    if key == PROTO then m else m[key := v]
  }

  function NonEmpty(m: Fields): Option<Fields> {
    if m == map[] then None else Some(m)
  }

  // ----- Words and padding

  function Word(b0: byte, b1: byte, b2: byte, b3: byte): nat {
    b0 * 0x100_0000 + b1 * 0x1_0000 + b2 * 0x100 + b3
  }

  function WordAt(buf: seq<byte>, pos: nat): nat
    requires pos + 4 <= |buf|
  {
    Word(buf[pos], buf[pos + 1], buf[pos + 2], buf[pos + 3])
  }

  function Padding(n: nat): (pad: nat)
    ensures pad <= 3
  {
    (4 - n % 4) % 4
  }

  // ----- The decoder, on values

  datatype Step = Corrupt | Unknown | Entry(key: string, value: Value, next: nat)

  function Address(kind: nat, raw: seq<byte>): Value {
    if kind == SC_ADDRESS_TYPE_CONTRACT then Contract(raw)
    else if kind == SC_ADDRESS_TYPE_ACCOUNT then Account(raw)
    else Hex(raw)
  }

  // The value whose type word is at pos.
  function DecodeValue(buf: seq<byte>, pos: nat, key: string): (s: Step)
    ensures s.Entry? ==> pos + 8 <= s.next <= |buf| + 3
  {
    var len := |buf|;
    if pos + 4 > len then Corrupt
    else
      var kind := WordAt(buf, pos);
      if kind == SCV_U32 then
        if pos + 8 > len then Corrupt else Entry(key, Number(WordAt(buf, pos + 4)), pos + 8)
      else if kind == SCV_ADDRESS then
        if pos + 40 > len then Corrupt
        else Entry(key, Address(WordAt(buf, pos + 4), buf[pos + 8..pos + 40]), pos + 40)
      else if kind == SCV_BYTES then
        if pos + 8 > len then Corrupt
        else
          var n := WordAt(buf, pos + 4);
          if n > MAX_BYTES || pos + 8 + n > len then Corrupt
          else Entry(key, Hex(buf[pos + 8..pos + 8 + n]), pos + 8 + n + Padding(n))
      else Unknown
  }

  // The entry that starts at pos. It leaves the buffer by padding at most.
  function DecodeEntry(text: Text, buf: seq<byte>, pos: nat): (s: Step)
    ensures s.Entry? ==> pos + 16 <= s.next <= |buf| + 3
  {
    var len := |buf|;
    if pos + 8 > len || WordAt(buf, pos) != SCV_SYMBOL then Corrupt
    else
      var n := WordAt(buf, pos + 4);
      if n > MAX_KEY || pos + 8 + n > len then Corrupt
      else DecodeValue(buf, pos + 8 + n + Padding(n), text(buf[pos + 8..pos + 8 + n]))
  }

  lemma Padded(n: nat)
    ensures (n + Padding(n)) % 4 == 0
  {
  }

  lemma SumAligned(a: int, b: int)
    requires a % 4 == 0 && b % 4 == 0
    ensures (a + b) % 4 == 0 && (a + b + 8) % 4 == 0
  {
  }

  // Entries keep the alignment to four bytes.
  lemma EntryAligned(text: Text, buf: seq<byte>, pos: nat)
    requires pos % 4 == 0
    ensures DecodeEntry(text, buf, pos).Entry? ==> DecodeEntry(text, buf, pos).next % 4 == 0
  {
    hide WordAt, Padding;
    if pos + 8 <= |buf| && WordAt(buf, pos) == SCV_SYMBOL {
      var n := WordAt(buf, pos + 4);
      if n <= MAX_KEY && pos + 8 + n <= |buf| {
        Padded(n);
        SumAligned(pos, n + Padding(n));
        ValueAligned(buf, pos + 8 + n + Padding(n), text(buf[pos + 8..pos + 8 + n]));
      }
    }
  }

  lemma ValueAligned(buf: seq<byte>, pos: nat, key: string)
    requires pos % 4 == 0
    ensures DecodeValue(buf, pos, key).Entry? ==> DecodeValue(buf, pos, key).next % 4 == 0
  {
    hide WordAt, Padding;
    if pos + 8 <= |buf| {
      var n := WordAt(buf, pos + 4);
      Padded(n);
      SumAligned(pos, n + Padding(n));
    }
  }

  function DecodeEntries(text: Text, buf: seq<byte>, pos: nat, n: nat, acc: Fields): Option<Fields>
    decreases n
  {
    if n == 0 then Some(acc)
    else
      match DecodeEntry(text, buf, pos)
      case Corrupt => None
      case Unknown => Some(acc)
      case Entry(key, value, next) => DecodeEntries(text, buf, next, n - 1, Put(acc, key, value))
  }

  function Decode(text: Text, buf: seq<byte>): Option<Fields> {
    if |buf| < 12 || WordAt(buf, 0) != SCV_MAP || WordAt(buf, 4) != 1 || WordAt(buf, 8) > MAX_MAP then None
    else
      match DecodeEntries(text, buf, 12, WordAt(buf, 8), map[])
      case None => None
      case Some(m) => NonEmpty(m)
  }

  // ----- The decoder, as a program with a shared position

  class Reader {
    const buf: seq<byte>
    var pos: nat

    constructor (buf: seq<byte>)
      ensures this.buf == buf && pos == 0
    {
      this.buf := buf;
      pos := 0;
    }

    method ReadU32() returns (r: Option<nat>)
      modifies this`pos
      ensures old(pos) + 4 > |buf| ==> r == None && pos == old(pos)
      ensures old(pos) + 4 <= |buf| ==> r == Some(WordAt(buf, old(pos))) && pos == old(pos) + 4
    {
      if pos + 4 > |buf| {
        return None;
      }
      r := Some(WordAt(buf, pos));
      pos := pos + 4;
    }

    method ReadBytes(n: nat) returns (r: Option<seq<byte>>)
      modifies this`pos
      ensures old(pos) + n > |buf| ==> r == None && pos == old(pos)
      ensures old(pos) + n <= |buf| ==> r == Some(buf[old(pos)..old(pos) + n]) && pos == old(pos) + n
    {
      if pos + n > |buf| {
        return None;
      }
      r := Some(buf[pos..pos + n]);
      pos := pos + n;
    }

    method SkipPadding(dataLen: nat)
      modifies this`pos
      ensures pos == old(pos) + Padding(dataLen)
    {
      var pad := (4 - dataLen % 4) % 4;
      pos := pos + pad;
    }

    // The key of an entry, or nothing if the entry is corrupt.
    method ReadKey() returns (r: Option<seq<byte>>)
      modifies this`pos
      ensures var p := old(pos);
              if p + 8 > |buf| || WordAt(buf, p) != SCV_SYMBOL || WordAt(buf, p + 4) > MAX_KEY ||
                 p + 8 + WordAt(buf, p + 4) > |buf| then r == None
              else
                var n := WordAt(buf, p + 4);
                r == Some(buf[p + 8..p + 8 + n]) && pos == p + 8 + n + Padding(n)
    {
      var keyDisc := ReadU32();
      if keyDisc != Some(SCV_SYMBOL) {
        return None;
      }
      var keyLen := ReadU32();
      if keyLen.None? || keyLen.value > MAX_KEY {
        return None;
      }
      r := ReadBytes(keyLen.value);
      if r.None? {
        return None;
      }
      SkipPadding(keyLen.value);
    }

    // The value of an entry; `known` tells whether its type is one the decoder understands.
    method ReadValue(key: string) returns (r: Option<Value>, known: bool)
      modifies this`pos
      ensures match DecodeValue(buf, old(pos), key)
              case Corrupt => r == None && known
              case Unknown => !known
              case Entry(_, value, next) => r == Some(value) && known && pos == next
    {
      known := true;
      var valDisc := ReadU32();
      if valDisc.None? {
        return None, true;
      }
      if valDisc.value == SCV_U32 {
        var v := ReadU32();
        return if v.None? then None else Some(Number(v.value)), true;
      } else if valDisc.value == SCV_ADDRESS {
        var addrType := ReadU32();
        if addrType.None? {
          return None, true;
        }
        var addrBytes := ReadBytes(32);
        return if addrBytes.None? then None else Some(Address(addrType.value, addrBytes.value)), true;
      } else if valDisc.value == SCV_BYTES {
        var bytesLen := ReadU32();
        if bytesLen.None? || bytesLen.value > MAX_BYTES {
          return None, true;
        }
        var bytesVal := ReadBytes(bytesLen.value);
        if bytesVal.None? {
          return None, true;
        }
        SkipPadding(bytesLen.value);
        return Some(Hex(bytesVal.value)), true;
      } else {
        return None, false;
      }
    }
  }

  // One turn of the loop.
  method ReadEntry(text: Text, reader: Reader) returns (step: Step)
    modifies reader`pos
    ensures step == DecodeEntry(text, reader.buf, old(reader.pos))
    ensures step.Entry? ==> reader.pos == step.next
  {
    hide WordAt, Padding;
    var key := reader.ReadKey();
    if key.None? {
      return Corrupt;
    }
    var keyStr := text(key.value);
    var value, known := reader.ReadValue(keyStr);
    if !known {
      return Unknown;
    }
    if value.None? {
      return Corrupt;
    }
    return Entry(keyStr, value.value, reader.pos);
  }

  // No read is out of bounds, and every entry starts on a multiple of four bytes.
  method ParseScValMap(text: Text, buf: seq<byte>) returns (r: Option<Fields>)
    ensures r == Decode(text, buf)
  {
    hide WordAt, Padding, DecodeEntry, Put;
    var reader := new Reader(buf);
    var disc := reader.ReadU32();
    if disc != Some(SCV_MAP) {
      return None;
    }
    var optPresent := reader.ReadU32();
    if optPresent != Some(1) {
      return None;
    }
    var mapLen := reader.ReadU32();
    if mapLen.None? || mapLen.value > MAX_MAP {
      return None;
    }
    var result: Fields := map[];
    var i := 0;
    while i < mapLen.value
      invariant 0 <= i <= mapLen.value
      invariant reader.buf == buf
      invariant reader.pos % 4 == 0 && reader.pos <= |buf| + 3
      invariant DecodeEntries(text, buf, 12, mapLen.value, map[]) ==
                DecodeEntries(text, buf, reader.pos, mapLen.value - i, result)
    {
      EntryAligned(text, buf, reader.pos);
      var step := ReadEntry(text, reader);
      if step.Unknown? {
        break;
      }
      if step.Corrupt? {
        return None;
      }
      result := Put(result, step.key, step.value);
      i := i + 1;
    }
    return NonEmpty(result);
  }
}
