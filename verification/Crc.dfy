// CRC-32 as the tape validator computes it: a table of 256 words, one look-up per byte.
// The reference is the shift register of section 8 of RFC 1952, which takes the message one bit at
// a time, least significant bit of each byte first.
//
// Proofs about words hide the bodies of the word operations and use their laws over GF(2).
module Crc {

  const POLYNOMIAL: bv32 := 0xedb88320
  const ALL_ONES: bv32 := 0xffffffff

  // ----- Words as polynomials over GF(2)

  function Xor(a: bv32, b: bv32): bv32 { a ^ b }

  function Half(a: bv32): bv32 { a >> 1 }

  function Twice(a: bv32): bv32 { a << 1 }

  predicate Odd(a: bv32) { a & 1 == 1 }

  predicate Top(a: bv32) { a & 0x80000000 != 0 }

  function Bit(b: bool): bv32 { if b then 1 else 0 }

  lemma XorSymmetric(a: bv32, b: bv32)
    ensures Xor(a, b) == Xor(b, a)
  {
  }

  lemma XorAssociative(a: bv32, b: bv32, c: bv32)
    ensures Xor(Xor(a, b), c) == Xor(a, Xor(b, c))
  {
  }

  lemma XorCancels(a: bv32)
    ensures Xor(a, a) == 0
    ensures Xor(a, 0) == a
  {
  }

  lemma XorLaws(a: bv32, b: bv32, c: bv32)
    ensures Xor(a, b) == Xor(b, a)
    ensures Xor(Xor(a, b), c) == Xor(a, Xor(b, c))
    ensures Xor(a, Xor(a, b)) == b
    ensures Xor(a, a) == 0
    ensures Xor(a, 0) == a
  {
    hide Xor;
    XorSymmetric(a, b);
    XorAssociative(a, b, c);
    XorCancels(a);
    XorAssociative(a, a, b);
    XorSymmetric(0, b);
    XorCancels(b);
  }

  lemma HalfLaws(a: bv32, b: bv32)
    ensures Half(Xor(a, b)) == Xor(Half(a), Half(b))
    ensures Odd(Xor(a, b)) <==> Odd(a) != Odd(b)
  {
  }

  lemma SplitLow(a: bv32)
    ensures Xor(Bit(Odd(a)), Twice(Half(a))) == a
  {
    assert a & 1 == 0 || a & 1 == 1;
    assert (a & 1) ^ ((a >> 1) << 1) == a;
  }

  lemma TwiceLaws(a: bv32)
    requires !Top(a)
    ensures !Odd(Twice(a))
    ensures Half(Twice(a)) == a
  {
  }

  lemma HalfNotTop(a: bv32)
    ensures !Top(Half(a))
  {
  }

  lemma GeneratorTop(a: bv32)
    requires !Top(a)
    ensures Top(Xor(POLYNOMIAL, a))
  {
  }

  // ----- The shift register

  // One step of the register: shift right, and subtract the generator when a one falls out.
  function ShiftOne(c: bv32): bv32 {
    if Odd(c) then Xor(POLYNOMIAL, Half(c)) else Half(c)
  }

  function Shift(c: bv32, n: nat): bv32
    decreases n
  {
    if n == 0 then c else Shift(ShiftOne(c), n - 1)
  }

  // The register after the given message bits.
  function Feed(c: bv32, bits: seq<bool>): bv32
    decreases |bits|
  {
    if |bits| == 0 then c else Feed(ShiftOne(Xor(c, Bit(bits[0]))), bits[1..])
  }

  // The low n bits of a word, least significant first.
  function LowBits(w: bv32, n: nat): (bits: seq<bool>)
    ensures |bits| == n
    decreases n
  {
    if n == 0 then [] else [Odd(w)] + LowBits(Half(w), n - 1)
  }

  function MessageBits(data: seq<bv8>): (bits: seq<bool>)
    ensures |bits| == 8 * |data|
  {
    if |data| == 0 then [] else LowBits(data[0] as bv32, 8) + MessageBits(data[1..])
  }

  // CRC-32 of a message, bit by bit.
  function BitwiseCrc(data: seq<bv8>): bv32 {
    Xor(Feed(ALL_ONES, MessageBits(data)), ALL_ONES)
  }

  // ----- Linearity

  lemma ShiftOneLinear(a: bv32, b: bv32)
    ensures ShiftOne(Xor(a, b)) == Xor(ShiftOne(a), ShiftOne(b))
  {
    hide Xor, Half, Odd;
    HalfLaws(a, b);
    var p, x, y := POLYNOMIAL, Half(a), Half(b);
    XorLaws(p, x, y);
    XorLaws(x, p, y);
    XorLaws(p, x, Xor(p, y));
    XorLaws(p, Xor(x, y), y);
  }

  lemma {:induction false} ShiftLinear(a: bv32, b: bv32, n: nat)
    ensures Shift(Xor(a, b), n) == Xor(Shift(a, n), Shift(b, n))
    decreases n
  {
    hide Xor, ShiftOne;
    if n == 0 {
    } else {
      ShiftOneLinear(a, b);
      ShiftLinear(ShiftOne(a), ShiftOne(b), n - 1);
    }
  }

  // ----- The register loses nothing

  // The generator has its top bit set, so the top bit after a step tells which branch was taken.
  lemma ShiftOneInjective(a: bv32, b: bv32)
    requires ShiftOne(a) == ShiftOne(b)
    ensures a == b
  {
    hide Xor, Half, Odd, Top, Twice;
    SplitLow(a);
    SplitLow(b);
    HalfNotTop(a);
    HalfNotTop(b);
    GeneratorTop(Half(a));
    GeneratorTop(Half(b));
    XorLaws(POLYNOMIAL, Half(a), 0);
    XorLaws(POLYNOMIAL, Half(b), 0);
  }

  lemma {:induction false} ShiftInjective(a: bv32, b: bv32, n: nat)
    requires Shift(a, n) == Shift(b, n)
    ensures a == b
    decreases n
  {
    hide ShiftOne;
    if n == 0 {
    } else {
      ShiftInjective(ShiftOne(a), ShiftOne(b), n - 1);
      ShiftOneInjective(a, b);
    }
  }

  // Registers that agree after the same bits agreed before them.
  lemma {:induction false} FeedInjective(a: bv32, b: bv32, bits: seq<bool>)
    requires Feed(a, bits) == Feed(b, bits)
    ensures a == b
    decreases |bits|
  {
    hide Xor, ShiftOne, Bit;
    if |bits| == 0 {
    } else {
      var x := Bit(bits[0]);
      FeedInjective(ShiftOne(Xor(a, x)), ShiftOne(Xor(b, x)), bits[1..]);
      ShiftOneInjective(Xor(a, x), Xor(b, x));
      XorLaws(a, x, 0);
      XorLaws(b, x, 0);
      XorLaws(x, a, 0);
      XorLaws(x, b, 0);
    }
  }

  lemma {:induction false} FeedConcat(c: bv32, s: seq<bool>, t: seq<bool>)
    ensures Feed(c, s + t) == Feed(Feed(c, s), t)
    decreases |s|
  {
    hide Xor, ShiftOne, Bit;
    if |s| == 0 {
      assert s + t == t;
    } else {
      assert (s + t)[1..] == s[1..] + t;
      FeedConcat(ShiftOne(Xor(c, Bit(s[0]))), s[1..], t);
    }
  }

  lemma {:induction false} MessageBitsConcat(a: seq<bv8>, b: seq<bv8>)
    ensures MessageBits(a + b) == MessageBits(a) + MessageBits(b)
    decreases |a|
  {
    hide LowBits;
    if |a| == 0 {
      assert a + b == b;
    } else {
      assert (a + b)[1..] == a[1..] + b;
      MessageBitsConcat(a[1..], b);
    }
  }

  // ----- Feeding a word bit by bit is one xor followed by shifts

  function Drop(w: bv32, n: nat): bv32
    decreases n
  {
    if n == 0 then w else Drop(Half(w), n - 1)
  }

  lemma StepWord(c: bv32, w: bv32)
    ensures ShiftOne(Xor(c, w)) == Xor(ShiftOne(Xor(c, Bit(Odd(w)))), Half(w))
  {
    hide Xor, Half, Odd, Top, Twice, Bit;
    var bit, rest := Bit(Odd(w)), Twice(Half(w));
    SplitLow(w);
    HalfNotTop(w);
    XorLaws(c, bit, rest);
    ShiftOneLinear(Xor(c, bit), rest);
    TwiceLaws(Half(w));
  }

  lemma {:induction false} FeedWord(c: bv32, w: bv32, n: nat)
    ensures Shift(Xor(c, w), n) == Xor(Feed(c, LowBits(w, n)), Drop(w, n))
    decreases n
  {
    hide Xor, Half, Odd, ShiftOne, Bit;
    if n == 0 {
    } else {
      StepWord(c, w);
      FeedWord(ShiftOne(Xor(c, Bit(Odd(w)))), Half(w), n - 1);
      assert LowBits(w, n)[1..] == LowBits(Half(w), n - 1);
    }
  }

  lemma {:induction false} DropDrop(w: bv32, m: nat, n: nat)
    ensures Drop(w, m + n) == Drop(Drop(w, m), n)
    decreases m
  {
    hide Half;
    if m == 0 {
    } else {
      DropDrop(Half(w), m - 1, n);
    }
  }

  function Right2(w: bv32): bv32 { w >> 2 }

  function Right4(w: bv32): bv32 { w >> 4 }

  function Right8(w: bv32): bv32 { w >> 8 }

  lemma DropEight(w: bv32)
    ensures Drop(w, 2) == Right2(w)
    ensures Drop(w, 4) == Right4(w)
    ensures Drop(w, 8) == Right8(w)
  {
    hide Half, Right2, Right4, Right8;
    DropTwo(w);
    DropTwo(Right2(w));
    DropTwo(Right4(w));
    DropTwo(Right2(Right4(w)));
    DropDrop(w, 2, 2);
    DropDrop(w, 4, 2);
    DropDrop(w, 6, 2);
    RightTwice(w);
  }

  lemma DropTwo(w: bv32)
    ensures Drop(w, 2) == Right2(w)
  {
    assert Drop(w, 2) == Drop(Half(w), 1) == Half(Half(w));
  }

  lemma RightTwice(w: bv32)
    ensures Right2(Right2(w)) == Right4(w)
    ensures Right2(Right2(Right4(w))) == Right8(w)
  {
  }

  lemma DropByEight(w: bv32, n: nat)
    ensures Drop(w, 8 + n) == Drop(Right8(w), n)
  {
    hide Right2, Right4, Right8, Drop;
    DropEight(w);
    DropDrop(w, 8, n);
  }

  // A word with no bits above the low 31 has a clear top bit.
  lemma DropAllButTop(w: bv32)
    requires Drop(w, 31) == 0
    ensures !Top(w)
  {
    hide Half, Right2, Right4, Right8, Top, Drop;
    var a := Right8(w);
    var b := Right8(a);
    var c := Right8(b);
    var d := Right4(c);
    DropByEight(w, 23);
    DropByEight(a, 15);
    DropByEight(b, 7);
    DropEight(c);
    DropEight(d);
    DropDrop(c, 4, 3);
    DropDrop(d, 2, 1);
    DropNext(Right2(d), 0);
    TopRemains(w);
  }

  lemma TopRemains(w: bv32)
    requires Half(Right2(Right4(Right8(Right8(Right8(w)))))) == 0
    ensures !Top(w)
  {
  }

  // ----- The table

  function LowByte(w: bv32): bv32 { w & 0xff }

  ghost predicate IsTable(table: seq<bv32>) {
    && |table| == 256
    && forall i :: 0 <= i < 256 ==> table[i] == Shift(i as bv32, 8)
  }

  method BuildTable() returns (table: array<bv32>)
    ensures fresh(table)
    ensures IsTable(table[..])
  {
    hide Half, Odd;
    table := new bv32[256];
    for i := 0 to 256
      invariant forall k :: 0 <= k < i ==> table[k] == Shift(k as bv32, 8)
    {
      var current := i as bv32;
      for bit := 0 to 8
        invariant Shift(current, 8 - bit) == Shift(i as bv32, 8)
        invariant forall k :: 0 <= k < i ==> table[k] == Shift(k as bv32, 8)
      {
        current := ShiftOne(current);
      }
      table[i] := current;
    }
  }

  lemma {:induction false} ShiftEven(w: bv32, n: nat)
    requires forall k :: 0 <= k < n ==> !Odd(Drop(w, k))
    ensures Shift(w, n) == Drop(w, n)
    decreases n
  {
    hide Half, Odd, Xor;
    if n == 0 {
    } else {
      assert !Odd(Drop(w, 0));
      forall k | 0 <= k < n - 1
        ensures !Odd(Drop(Half(w), k))
      {
        assert Drop(w, k + 1) == Drop(Half(w), k);
      }
      ShiftEven(Half(w), n - 1);
    }
  }

  function HighBytes(w: bv32): bv32 { Xor(LowByte(w), w) }

  lemma HighBytesSplit(w: bv32)
    ensures Xor(LowByte(w), HighBytes(w)) == w
  {
    XorLaws(LowByte(w), w, 0);
  }

  lemma HighBytesEven(w: bv32)
    ensures var h := HighBytes(w);
            && !Odd(h) && !Odd(Half(h)) && !Odd(Right2(h)) && !Odd(Half(Right2(h)))
            && !Odd(Right4(h)) && !Odd(Half(Right4(h))) && !Odd(Right2(Right4(h)))
            && !Odd(Half(Right2(Right4(h))))
    ensures Right8(HighBytes(w)) == Right8(w)
  {
  }

  // Eight shifts at once: one table entry, and the upper bytes moved down.
  lemma ShiftByte(c: bv32)
    ensures Shift(c, 8) == Xor(Shift(LowByte(c), 8), Right8(c))
  {
    hide Half, Odd, Xor, Right2, Right4, Right8, LowByte, HighBytes, ShiftOne;
    var low, h := LowByte(c), HighBytes(c);
    HighBytesSplit(c);
    ShiftLinear(low, h, 8);
    HighBytesEven(c);
    EvenBelowEight(h);
    DropEight(h);
    ShiftEven(h, 8);
  }

  lemma EvenBelowEight(h: bv32)
    requires !Odd(h) && !Odd(Half(h)) && !Odd(Right2(h)) && !Odd(Half(Right2(h)))
    requires !Odd(Right4(h)) && !Odd(Half(Right4(h))) && !Odd(Right2(Right4(h))) && !Odd(Half(Right2(Right4(h))))
    ensures forall k :: 0 <= k < 8 ==> !Odd(Drop(h, k))
  {
    hide Half, Odd, Right2, Right4, Right8, Drop;
    DropEight(h);
    DropEight(Right4(h));
    DropDrop(h, 4, 2);
    DropNext(h, 0);
    DropNext(h, 2);
    DropNext(h, 4);
    DropNext(h, 6);
  }

  lemma {:induction false} DropNext(w: bv32, k: nat)
    ensures Drop(w, 0) == w && Drop(w, k + 1) == Half(Drop(w, k))
    decreases k
  {
    hide Half;
    if k == 0 {
    } else {
      DropNext(Half(w), k - 1);
    }
  }

  lemma ByteWord(b: bv8)
    ensures Right8(b as bv32) == 0
  {
  }

  lemma LowByteIndex(w: bv32)
    ensures 0 <= LowByte(w) as int < 256
    ensures (LowByte(w) as int) as bv32 == LowByte(w)
  {
  }

  // One look-up takes the register over the eight bits of a byte.
  lemma TableStep(table: seq<bv32>, c: bv32, b: bv8)
    requires IsTable(table)
    ensures 0 <= LowByte(Xor(c, b as bv32)) as int < 256
    ensures Xor(table[LowByte(Xor(c, b as bv32)) as int], Right8(c)) == Feed(c, LowBits(b as bv32, 8))
  {
    hide Half, Odd, Xor, Right8, LowByte, ShiftOne, LowBits, Feed, Shift;
    var w := b as bv32;
    var x := Xor(c, w);
    LowByteIndex(x);
    FeedWord(c, w, 8);
    DropEight(w);
    ByteWord(b);
    XorLaws(Feed(c, LowBits(w, 8)), 0, 0);
    ShiftByte(x);
    RightXor(c, w);
    XorLaws(Right8(c), 0, 0);
  }

  lemma RightXor(a: bv32, b: bv32)
    ensures Right8(Xor(a, b)) == Xor(Right8(a), Right8(b))
  {
  }

  // The loop with the table and the shift register agree on every prefix of every message.
  method Crc32(table: array<bv32>, data: seq<bv8>, end: nat) returns (crc: bv32)
    requires IsTable(table[..])
    requires end <= |data|
    ensures crc == BitwiseCrc(data[..end])
  {
    hide Half, Odd, Xor, Right8, LowByte, ShiftOne, LowBits, Feed, Shift;
    crc := ALL_ONES;
    assert Feed(ALL_ONES, MessageBits(data[..0])) == ALL_ONES by {
      FeedNothing(ALL_ONES);
    }
    for index := 0 to end
      invariant crc == Feed(ALL_ONES, MessageBits(data[..index]))
    {
      TableStep(table[..], crc, data[index]);
      MessageBitsConcat(data[..index], [data[index]]);
      assert data[..index] + [data[index]] == data[..index + 1];
      var bits := LowBits(data[index] as bv32, 8);
      assert MessageBits([data[index]]) == bits + MessageBits([]) == bits;
      FeedConcat(ALL_ONES, MessageBits(data[..index]), bits);
      crc := Xor(table[LowByte(Xor(crc, data[index] as bv32)) as int], Right8(crc));
    }
    crc := Xor(crc, ALL_ONES);
  }

  lemma FeedNothing(c: bv32)
    ensures Feed(c, MessageBits([])) == c
  {
  }

  // ----- Bursts

  // The word whose low bits are the given ones.
  function WordOf(bits: seq<bool>): bv32
    decreases |bits|
  {
    if |bits| == 0 then 0 else Xor(Bit(bits[0]), Twice(WordOf(bits[1..])))
  }

  lemma BitLaws(b: bool, w: bv32)
    requires !Top(w)
    ensures Odd(Xor(Bit(b), Twice(w))) == b
    ensures Half(Xor(Bit(b), Twice(w))) == w
  {
    hide Half, Odd, Xor, Twice, Top, Bit;
    TwiceLaws(w);
    HalfLaws(Bit(b), Twice(w));
    BitOnly(b);
    XorLaws(w, 0, 0);
  }

  lemma BitOnly(b: bool)
    ensures Odd(Bit(b)) == b
    ensures Half(Bit(b)) == 0
  {
  }

  lemma {:induction false} WordOfBits(bits: seq<bool>)
    requires |bits| <= 32
    ensures LowBits(WordOf(bits), |bits|) == bits
    ensures Drop(WordOf(bits), |bits|) == 0
    decreases |bits|
  {
    hide Half, Odd, Xor, Twice, Top, Bit;
    if |bits| == 0 {
    } else {
      var rest := WordOf(bits[1..]);
      WordOfBits(bits[1..]);
      DropZero(31 - |bits[1..]|);
      DropDrop(rest, |bits[1..]|, 31 - |bits[1..]|);
      DropAllButTop(rest);
      BitLaws(bits[0], rest);
    }
  }

  lemma {:induction false} DropZero(n: nat)
    ensures Drop(0, n) == 0
    decreases n
  {
    if n == 0 {
    } else {
      DropZero(n - 1);
    }
  }

  // Two different strings of at most 32 bits take any register to different registers.
  lemma ShortInjective(c: bv32, s: seq<bool>, t: seq<bool>)
    requires |s| == |t| <= 32
    requires Feed(c, s) == Feed(c, t)
    ensures s == t
  {
    hide Half, Odd, Xor, Twice, Top, Bit, ShiftOne, Shift, Feed, Drop, LowBits;
    var v, w := WordOf(s), WordOf(t);
    WordOfBits(s);
    WordOfBits(t);
    FeedWord(c, v, |s|);
    FeedWord(c, w, |t|);
    ShiftInjective(Xor(c, v), Xor(c, w), |s|);
    XorLaws(c, v, 0);
    XorLaws(c, w, 0);
  }

  lemma ThreeParts<T>(s: seq<T>, i: nat, j: nat)
    requires i <= j <= |s|
    ensures s == s[..i] + s[i..j] + s[j..]
  {
  }

  // CRC-32 detects every burst: bit strings that differ, but only inside some 32 consecutive bits,
  // leave different registers.
  lemma BurstDetected(c: bv32, x: seq<bool>, y: seq<bool>, first: nat, length: nat)
    requires |x| == |y| && x != y
    requires first + length <= |x| && length <= 32
    requires forall k :: 0 <= k < |x| && (k < first || first + length <= k) ==> x[k] == y[k]
    ensures Feed(c, x) != Feed(c, y)
  {
    hide Feed;
    var end := first + length;
    var before, after := x[..first], x[end..];
    var s, t := x[first..end], y[first..end];
    ThreeParts(x, first, end);
    ThreeParts(y, first, end);
    assert before == y[..first] && after == y[end..];
    FeedConcat(c, before, s);
    FeedConcat(c, before, t);
    FeedConcat(c, before + s, after);
    FeedConcat(c, before + t, after);
    if Feed(c, x) == Feed(c, y) {
      FeedInjective(Feed(c, before + s), Feed(c, before + t), after);
      ShortInjective(Feed(c, before), s, t);
    }
  }

  lemma ByteOfBits(a: bv8, b: bv8)
    requires LowBits(a as bv32, 8) == LowBits(b as bv32, 8)
    ensures a == b
  {
    hide Half, Odd, Xor, Twice, Top, Bit, ShiftOne, Shift, Feed, Drop, LowBits;
    FeedWord(0, a as bv32, 8);
    FeedWord(0, b as bv32, 8);
    DropEight(a as bv32);
    DropEight(b as bv32);
    ByteWord(a);
    ByteWord(b);
    ShiftInjective(Xor(0, a as bv32), Xor(0, b as bv32), 8);
    XorLaws(0, a as bv32, 0);
    XorLaws(0, b as bv32, 0);
    SameByte(a, b);
  }

  lemma SameByte(a: bv8, b: bv8)
    requires a as bv32 == b as bv32
    ensures a == b
  {
  }

  lemma {:induction false} MessageBitsInjective(a: seq<bv8>, b: seq<bv8>)
    requires |a| == |b|
    requires MessageBits(a) == MessageBits(b)
    ensures a == b
    decreases |a|
  {
    hide LowBits;
    if |a| == 0 {
    } else {
      var s, t := LowBits(a[0] as bv32, 8), LowBits(b[0] as bv32, 8);
      assert s == MessageBits(a)[..8] == MessageBits(b)[..8] == t;
      assert MessageBits(a)[8..] == MessageBits(a[1..]) && MessageBits(b)[8..] == MessageBits(b[1..]);
      ByteOfBits(a[0], b[0]);
      MessageBitsInjective(a[1..], b[1..]);
      assert a == [a[0]] + a[1..] && b == [b[0]] + b[1..];
    }
  }

  // Byte strings that differ, but only inside four consecutive bytes, have different CRCs.
  lemma ByteBurstDetected(a: seq<bv8>, b: seq<bv8>, first: nat)
    requires |a| == |b| && a != b
    requires forall k :: 0 <= k < |a| && (k < first || first + 4 <= k) ==> a[k] == b[k]
    ensures BitwiseCrc(a) != BitwiseCrc(b)
  {
    hide Half, Odd, Xor, Feed, LowBits, MessageBits;
    var end := if first + 4 <= |a| then first + 4 else |a|;
    assert first < |a| by {
      var k :| 0 <= k < |a| && a[k] != b[k];
    }
    var before, s, t, after := a[..first], a[first..end], b[first..end], a[end..];
    assert a == before + (s + after);
    assert b == before + (t + after);
    MessageBitsConcat(before, s + after);
    MessageBitsConcat(before, t + after);
    MessageBitsConcat(s, after);
    MessageBitsConcat(t, after);
    var x, y := MessageBits(a), MessageBits(b);
    if x == y {
      MessageBitsInjective(a, b);
    }
    BurstDetected(ALL_ONES, x, y, 8 * first, 8 * (end - first));
    XorLaws(Feed(ALL_ONES, x), ALL_ONES, 0);
    XorLaws(ALL_ONES, Feed(ALL_ONES, x), 0);
    XorLaws(Feed(ALL_ONES, y), ALL_ONES, 0);
    XorLaws(ALL_ONES, Feed(ALL_ONES, y), 0);
  }

  // Two known values: the word of the table at 128 is the polynomial, and four bytes of ones take the
  // register to zero.
  lemma KnownValues()
    ensures Shift(128, 8) == 0xedb8_8320
    ensures BitwiseCrc([0xff, 0xff, 0xff, 0xff]) == 0xffff_ffff
  {
    ShiftedTop();
    OnesToZero();
    assert Xor(0, ALL_ONES) == 0xffff_ffff;
  }

  lemma ShiftedTop()
    ensures Shift(128, 8) == 0xedb8_8320
  {
    assert ShiftOne(128) == 64 && ShiftOne(64) == 32 && ShiftOne(32) == 16 && ShiftOne(16) == 8;
    assert ShiftOne(8) == 4 && ShiftOne(4) == 2 && ShiftOne(2) == 1 && ShiftOne(1) == 0xedb8_8320;
    hide ShiftOne;
    assert Shift(128, 8) == Shift(64, 7) == Shift(32, 6) == Shift(16, 5) == Shift(8, 4);
    assert Shift(8, 4) == Shift(4, 3) == Shift(2, 2) == Shift(1, 1) == Shift(0xedb8_8320, 0);
  }

  lemma OnesToZero()
    ensures Feed(ALL_ONES, MessageBits([0xff, 0xff, 0xff, 0xff])) == 0
  {
    hide LowBits, Feed, ShiftOne;
    OnesByte(0xffff_ffff, 0x00ff_ffff);
    OnesByte(0x00ff_ffff, 0x0000_ffff);
    OnesByte(0x0000_ffff, 0x0000_00ff);
    OnesByte(0x0000_00ff, 0);
    OnesMessage(ALL_ONES, 4);
    OnesMessage(0x00ff_ffff, 3);
    OnesMessage(0x0000_ffff, 2);
    OnesMessage(0x0000_00ff, 1);
    assert Ones(4) == [0xff, 0xff, 0xff, 0xff];
    NoBits(0);
  }

  function Ones(n: nat): (bytes: seq<bv8>)
    ensures |bytes| == n
  {
    seq(n, _ => 0xff)
  }

  lemma NoBits(c: bv32)
    ensures Feed(c, MessageBits(Ones(0))) == c
  {
  }

  lemma OnesMessage(c: bv32, n: nat)
    requires n > 0
    ensures Feed(c, MessageBits(Ones(n))) == Feed(Feed(c, LowBits(0xff, 8)), MessageBits(Ones(n - 1)))
  {
    hide LowBits, Feed;
    assert Ones(n)[1..] == Ones(n - 1);
    assert Ones(n)[0] as bv32 == 0xff;
    FeedConcat(c, LowBits(0xff, 8), MessageBits(Ones(n - 1)));
  }

  lemma OnesByte(c: bv32, next: bv32)
    requires LowByte(Xor(c, 0xff)) == 0 && Right8(Xor(c, 0xff)) == next
    ensures Feed(c, LowBits(0xff, 8)) == next
  {
    hide Xor, ShiftOne, LowByte, LowBits, Feed, Drop, Shift;
    FeedWord(c, 0xff, 8);
    DropEight(0xff);
    ShiftByte(Xor(c, 0xff));
    ZeroStays(8);
    XorLaws(next, 0, 0);
    XorLaws(Feed(c, LowBits(0xff, 8)), 0, 0);
    XorLaws(0, next, 0);
  }

  lemma {:induction false} ZeroStays(n: nat)
    ensures Shift(0, n) == 0
    decreases n
  {
    if n == 0 {
    } else {
      assert ShiftOne(0) == 0;
      ZeroStays(n - 1);
    }
  }
}
