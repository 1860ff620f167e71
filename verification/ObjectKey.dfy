// Object keys of ledger files: reversed hexadecimal prefixes, so that newer files sort first.
module ObjectKey {
  import opened Basics

  const MAX_UINT32 := 0xffff_ffff

  // ----- Numbers as text

  function HexDigit(d: nat): char
    requires d < 16
  {
    "0123456789ABCDEF"[d]
  }

  function Digits(n: nat, base: nat): string
    requires 2 <= base <= 16
    decreases n
  {
    if n < base then [HexDigit(n)] else Shrinks(n, base); Digits(n / base, base) + [HexDigit(n % base)]
  }

  lemma Shrinks(n: nat, base: nat)
    requires n >= base >= 2
    ensures n / base < n
  {
    assert n == base * (n / base) + n % base;
    Monotone(2, base, n / base);
  }

  function Decimal(n: nat): string {
    Digits(n, 10)
  }

  function PadStart(s: string, width: nat): string
    decreases width - |s|
  {
    if |s| >= width then s else PadStart("0" + s, width)
  }

  function Hex8(n: nat): string {
    PadStart(Digits(n, 16), 8)
  }

  // ----- Keys

  function StartOf(ledger: nat, size: nat): nat
    requires size > 0
  {
    ledger / size * size
  }

  function LedgersPerFile(ledgersPerBatch: int): nat { Max(1, ledgersPerBatch) }

  function PartitionSize(ledgersPerBatch: int, batchesPerPartition: int): (size: nat)
    ensures size > 0
  {
    var files: nat := Max(1, batchesPerPartition);
    Positive(LedgersPerFile(ledgersPerBatch), files);
    LedgersPerFile(ledgersPerBatch) * files
  }

  lemma Positive(a: nat, b: nat)
    requires a > 0 && b > 0
    ensures a * b > 0
  {
  }

  function PartitionPart(start: nat, size: nat): string
    requires start <= MAX_UINT32 && size > 0
  {
    Hex8(MAX_UINT32 - start) + "--" + Decimal(start) + "-" + Decimal(Min(MAX_UINT32, start + size - 1)) + "/"
  }

  function FilePart(start: nat, size: nat, extension: string): string
    requires start <= MAX_UINT32 && size > 0
  {
    var end := Min(MAX_UINT32, start + size - 1);
    Hex8(MAX_UINT32 - start) + "--" + Decimal(start) + (if end != start then "-" + Decimal(end) else "")
    + ".xdr." + extension
  }

  function FileStart(ledger: nat, ledgersPerBatch: int): nat {
    StartOf(ledger, LedgersPerFile(ledgersPerBatch))
  }

  function Key(ledger: nat, ledgersPerBatch: int, batchesPerPartition: int, extension: string): string
    requires ledger <= MAX_UINT32
  {
    var fileSize, partitionSize := LedgersPerFile(ledgersPerBatch), PartitionSize(ledgersPerBatch, batchesPerPartition);
    StartBelow(ledger, fileSize);
    StartBelow(ledger, partitionSize);
    (if batchesPerPartition > 1 then PartitionPart(StartOf(ledger, partitionSize), partitionSize) else "")
    + FilePart(StartOf(ledger, fileSize), fileSize, extension)
  }

  lemma StartBelow(ledger: nat, size: nat)
    requires size > 0
    ensures StartOf(ledger, size) <= ledger < StartOf(ledger, size) + size
  {
  }

  // ----- The order of text

  predicate Less(s: string, t: string) {
    if |s| == 0 then |t| > 0
    else |t| > 0 && (s[0] < t[0] || (s[0] == t[0] && Less(s[1..], t[1..])))
  }

  lemma {:induction false} LessIrreflexive(s: string)
    ensures !Less(s, s)
  {
    if |s| == 0 {
    } else {
      LessIrreflexive(s[1..]);
    }
  }

  // Text that differs in a part of fixed length is ordered by that part.
  lemma {:induction false} LessExtend(s: string, t: string, x: string, y: string)
    requires |s| == |t| && Less(s, t)
    ensures Less(s + x, t + y)
    decreases |s|
  {
    assert |s| > 0;
    assert (s + x)[1..] == s[1..] + x && (t + y)[1..] == t[1..] + y;
    if s[0] == t[0] {
      LessExtend(s[1..], t[1..], x, y);
    }
  }

  lemma {:induction false} LessAfter(p: string, s: string, t: string)
    requires Less(s, t)
    ensures Less(p + s, p + t)
    decreases |p|
  {
    if |p| == 0 {
      assert p + s == s && p + t == t;
    } else {
      assert (p + s)[1..] == p[1..] + s && (p + t)[1..] == p[1..] + t;
      LessAfter(p[1..], s, t);
    }
  }

  // ----- Padded hexadecimal numbers have a fixed width and are ordered as numbers

  function Fixed(n: nat, width: nat): (s: string)
    ensures |s| == width
  {
    if width == 0 then "" else Fixed(n / 16, width - 1) + [HexDigit(n % 16)]
  }

  function Pow16(k: nat): (p: nat)
    ensures p >= 1
  {
    if k == 0 then 1 else 16 * Pow16(k - 1)
  }

  lemma HexDigitOrder(a: nat, b: nat)
    requires a < b < 16
    ensures HexDigit(a) < HexDigit(b)
  {
  }

  lemma {:induction false} FixedOrder(m: nat, n: nat, width: nat)
    requires m < n < Pow16(width)
    ensures Less(Fixed(m, width), Fixed(n, width))
    decreases width
  {
    hide HexDigit;
    if width == 0 {
    } else {
      var a, b := Fixed(m / 16, width - 1), Fixed(n / 16, width - 1);
      if m / 16 < n / 16 {
        FixedOrder(m / 16, n / 16, width - 1);
        LessExtend(a, b, [HexDigit(m % 16)], [HexDigit(n % 16)]);
      } else {
        assert m / 16 == n / 16 && m % 16 < n % 16;
        HexDigitOrder(m % 16, n % 16);
        LessAfter(a, [HexDigit(m % 16)], [HexDigit(n % 16)]);
      }
    }
  }

  function Zeros(n: nat): (s: string)
    ensures |s| == n
  {
    seq(n, _ => '0')
  }

  lemma {:induction false} PadIsZeros(s: string, width: nat)
    ensures PadStart(s, width) == Zeros(if |s| < width then width - |s| else 0) + s
    decreases width - |s|
  {
    if |s| < width {
      PadIsZeros("0" + s, width);
      assert Zeros(width - |s| - 1) + ("0" + s) == Zeros(width - |s|) + s;
    } else {
      assert Zeros(0) + s == s;
    }
  }

  lemma {:induction false} FixedZero(width: nat)
    ensures Fixed(0, width) == Zeros(width)
  {
    if width == 0 {
    } else {
      FixedZero(width - 1);
    }
  }

  lemma {:induction false} DigitsFixed(n: nat, width: nat)
    requires width > 0 && n < Pow16(width)
    ensures |Digits(n, 16)| <= width
    ensures Zeros(width - |Digits(n, 16)|) + Digits(n, 16) == Fixed(n, width)
    decreases width
  {
    hide HexDigit;
    if n < 16 {
      FixedZero(width - 1);
    } else {
      assert width > 1;
      DigitsFixed(n / 16, width - 1);
      var d := Digits(n / 16, 16);
      assert Zeros(width - 1 - |d|) + (d + [HexDigit(n % 16)]) == (Zeros(width - 1 - |d|) + d) + [HexDigit(n % 16)];
    }
  }

  lemma Hex8Order(m: nat, n: nat)
    requires m < n <= MAX_UINT32
    ensures |Hex8(m)| == |Hex8(n)| == 8
    ensures Less(Hex8(m), Hex8(n))
  {
    hide Digits, PadStart, Zeros, Fixed;
    Pow16Eight();
    DigitsFixed(m, 8);
    DigitsFixed(n, 8);
    PadIsZeros(Digits(m, 16), 8);
    PadIsZeros(Digits(n, 16), 8);
    NoZeros(Digits(m, 16));
    NoZeros(Digits(n, 16));
    FixedOrder(m, n, 8);
  }

  lemma NoZeros(s: string)
    ensures Zeros(0) + s == s
  {
  }

  lemma Pow16Eight()
    ensures Pow16(8) == MAX_UINT32 + 1
  {
    assert Pow16(2) == 16 * Pow16(1) == 256;
    assert Pow16(4) == 16 * Pow16(3) && Pow16(3) == 16 * Pow16(2);
    assert Pow16(6) == 16 * Pow16(5) && Pow16(5) == 16 * Pow16(4);
    assert Pow16(8) == 16 * Pow16(7) && Pow16(7) == 16 * Pow16(6);
  }

  // ----- Files inside partitions

  lemma QuotientUnique(n: nat, d: nat, q: nat, r: nat)
    requires d > 0 && r < d && n == q * d + r
    ensures n / d == q
  {
    var p := n / d;
    Remake(n, d);
    if p < q {
      StrictlyMonotone(p, q, d);
    } else if p > q {
      StrictlyMonotone(q, p, d);
    }
  }

  lemma DivideTwice(n: nat, a: nat, b: nat)
    requires a > 0 && b > 0
    ensures a * b > 0 && n / (a * b) == n / a / b
  {
    Positive(a, b);
    var m, t := n / a, n % a;
    var q, r := m / b, m % b;
    Remake(n, a);
    Remake(m, b);
    StrictlyMonotone(r, b, a);
    Regroup(q, b, r, a);
    QuotientUnique(n, a * b, q, r * a + t);
  }

  lemma Remake(n: nat, d: nat)
    requires d > 0
    ensures n == n / d * d + n % d && n % d < d
  {
  }

  lemma Regroup(q: nat, b: nat, r: nat, a: nat)
    ensures (q * b + r) * a == q * (a * b) + r * a
  {
    assert (q * b + r) * a == q * b * a + r * a;
    assert q * b * a == q * (b * a);
  }

  lemma QuotientOrder(m: nat, n: nat, d: nat)
    requires d > 0 && m <= n
    ensures m / d <= n / d
  {
    if m / d > n / d {
      StrictlyMonotone(n / d, m / d, d);
    }
  }

  lemma StartOrder(m: nat, n: nat, size: nat)
    requires size > 0
    ensures StartOf(m, size) < StartOf(n, size) <==> m / size < n / size
  {
    if m / size < n / size {
      StrictlyMonotone(m / size, n / size, size);
    } else {
      Monotone(n / size, m / size, size);
    }
  }

  // Ledgers of one file lie in one partition, and an earlier file lies in no later partition.
  lemma FilesInPartitions(m: nat, n: nat, ledgersPerBatch: int, batchesPerPartition: int)
    ensures var fileSize, size := LedgersPerFile(ledgersPerBatch), PartitionSize(ledgersPerBatch, batchesPerPartition);
            && (StartOf(m, fileSize) == StartOf(n, fileSize) ==> StartOf(m, size) == StartOf(n, size))
            && (StartOf(m, fileSize) < StartOf(n, fileSize) ==> StartOf(m, size) <= StartOf(n, size))
  {
    hide StartOf;
    var fileSize, files: nat := LedgersPerFile(ledgersPerBatch), Max(1, batchesPerPartition);
    var size := PartitionSize(ledgersPerBatch, batchesPerPartition);
    StartOrder(m, n, fileSize);
    StartOrder(n, m, fileSize);
    StartOrder(n, m, size);
    StartOrder(m, n, size);
    DivideTwice(m, fileSize, files);
    DivideTwice(n, fileSize, files);
    if m / fileSize <= n / fileSize {
      QuotientOrder(m / fileSize, n / fileSize, files);
    }
  }

  // ----- Main results

  lemma LaterKeySmaller(m: nat, n: nat, ledgersPerBatch: int, batchesPerPartition: int, extension: string)
    requires m <= MAX_UINT32 && n <= MAX_UINT32
    requires FileStart(m, ledgersPerBatch) < FileStart(n, ledgersPerBatch)
    ensures Less(Key(n, ledgersPerBatch, batchesPerPartition, extension),
                 Key(m, ledgersPerBatch, batchesPerPartition, extension))
  {
    hide Hex8, StartOf, Decimal;
    var fileSize, size := LedgersPerFile(ledgersPerBatch), PartitionSize(ledgersPerBatch, batchesPerPartition);
    FilesInPartitions(m, n, ledgersPerBatch, batchesPerPartition);
    StartBelow(m, fileSize);
    StartBelow(n, fileSize);
    StartBelow(m, size);
    StartBelow(n, size);
    var fm, fn := StartOf(m, fileSize), StartOf(n, fileSize);
    var pm, pn := StartOf(m, size), StartOf(n, size);
    FilePartOrder(fm, fn, fileSize, extension);
    if batchesPerPartition > 1 {
      if pm == pn {
        LessAfter(PartitionPart(pn, size), FilePart(fn, fileSize, extension), FilePart(fm, fileSize, extension));
      } else {
        PartitionOrder(pm, pn, size, FilePart(fm, fileSize, extension), FilePart(fn, fileSize, extension));
      }
    } else {
      assert "" + FilePart(fn, fileSize, extension) == FilePart(fn, fileSize, extension);
      assert "" + FilePart(fm, fileSize, extension) == FilePart(fm, fileSize, extension);
    }
  }

  lemma FilePartOrder(fm: nat, fn: nat, size: nat, extension: string)
    requires fm < fn <= MAX_UINT32 && size > 0
    ensures Less(FilePart(fn, size, extension), FilePart(fm, size, extension))
  {
    hide Hex8, Decimal;
    var a, b := Hex8(MAX_UINT32 - fn), Hex8(MAX_UINT32 - fm);
    Hex8Order(MAX_UINT32 - fn, MAX_UINT32 - fm);
    var x, y := FilePart(fn, size, extension), FilePart(fm, size, extension);
    assert x == a + x[8..] && y == b + y[8..];
    LessExtend(a, b, x[8..], y[8..]);
  }

  lemma PartitionOrder(pm: nat, pn: nat, size: nat, m: string, n: string)
    requires pm < pn <= MAX_UINT32 && size > 0
    ensures Less(PartitionPart(pn, size) + n, PartitionPart(pm, size) + m)
  {
    hide Hex8, Decimal;
    var a, b := Hex8(MAX_UINT32 - pn), Hex8(MAX_UINT32 - pm);
    Hex8Order(MAX_UINT32 - pn, MAX_UINT32 - pm);
    var x, y := PartitionPart(pn, size) + n, PartitionPart(pm, size) + m;
    assert x == a + x[8..] && y == b + y[8..];
    LessExtend(a, b, x[8..], y[8..]);
  }

  // Two ledgers have the same key exactly when they lie in the same file, and the key of a later
  // file is the smaller one.
  lemma KeyOrder(m: nat, n: nat, ledgersPerBatch: int, batchesPerPartition: int, extension: string)
    requires m <= MAX_UINT32 && n <= MAX_UINT32
    ensures var km, kn := Key(m, ledgersPerBatch, batchesPerPartition, extension),
                          Key(n, ledgersPerBatch, batchesPerPartition, extension);
            var fm, fn := FileStart(m, ledgersPerBatch), FileStart(n, ledgersPerBatch);
            && (km == kn <==> fm == fn)
            && (fm < fn ==> Less(kn, km))
  {
    hide FilePart, PartitionPart, StartOf;
    var fm, fn := FileStart(m, ledgersPerBatch), FileStart(n, ledgersPerBatch);
    LessIrreflexive(Key(m, ledgersPerBatch, batchesPerPartition, extension));
    if fm < fn {
      LaterKeySmaller(m, n, ledgersPerBatch, batchesPerPartition, extension);
    } else if fn < fm {
      LaterKeySmaller(n, m, ledgersPerBatch, batchesPerPartition, extension);
    } else {
      FilesInPartitions(m, n, ledgersPerBatch, batchesPerPartition);
    }
  }

  // ----- What a key says

  function DigitValue(c: char): nat {
    if '0' <= c <= '9' then c as int - '0' as int
    else if 'A' <= c <= 'F' then c as int - 'A' as int + 10
    else 0
  }

  // The number that a text stands for.
  function Value(s: string, base: nat): nat {
    if |s| == 0 then 0 else Value(s[..|s| - 1], base) * base + DigitValue(s[|s| - 1])
  }

  lemma HexDigitValue(d: nat)
    requires d < 16
    ensures DigitValue(HexDigit(d)) == d
  {
  }

  lemma {:induction false} DigitsValue(n: nat, base: nat)
    requires 2 <= base <= 16
    ensures Value(Digits(n, base), base) == n
    decreases n
  {
    hide HexDigit, DigitValue;
    HexDigitValue(n % base);
    if n < base {
      assert Value([HexDigit(n)][..0], base) == 0;
    } else {
      Shrinks(n, base);
      DigitsValue(n / base, base);
      var front := Digits(n / base, base);
      assert (front + [HexDigit(n % base)])[..|front|] == front;
      Remake(n, base);
    }
  }

  lemma {:induction false} LeadingZero(s: string, base: nat)
    ensures Value("0" + s, base) == Value(s, base)
    decreases |s|
  {
    if |s| == 0 {
      assert "0" + s == "0" && "0"[..0] == "";
    } else {
      var n := |s| - 1;
      assert ("0" + s)[..n + 1] == "0" + s[..n];
      LeadingZero(s[..n], base);
    }
  }

  lemma {:induction false} PadValue(s: string, width: nat)
    ensures Value(PadStart(s, width), 16) == Value(s, 16)
    decreases width - |s|
  {
    hide Value;
    if |s| >= width {
    } else {
      LeadingZero(s, 16);
      PadValue("0" + s, width);
    }
  }

  lemma Hex8Value(n: nat)
    requires n < MAX_UINT32
    ensures |Hex8(n)| == 8 && Value(Hex8(n), 16) == n
  {
    hide Value, Digits, PadStart;
    Hex8Order(n, MAX_UINT32);
    DigitsValue(n, 16);
    PadValue(Digits(n, 16), 8);
  }

  lemma Hex8Max()
    ensures |Hex8(MAX_UINT32)| == 8 && Value(Hex8(MAX_UINT32), 16) == MAX_UINT32
  {
    hide Value, Digits, PadStart;
    Hex8Order(0, MAX_UINT32);
    DigitsValue(MAX_UINT32, 16);
    PadValue(Digits(MAX_UINT32, 16), 8);
  }

  // A name for the ledgers from first to last: eight hexadecimal digits counting down, and the two
  // ledgers in decimal; the last one may be left out when it is the first.
  ghost predicate Names(name: string, first: nat, last: nat, both: bool, ending: string) {
    exists h, s, e ::
      && |h| == 8 && Value(h, 16) == 0xffff_ffff - first && Value(s, 10) == first && Value(e, 10) == last
      && name == h + "--" + s + (if both || last != first then "-" + e else "") + ending
  }

  // The ledgers of one block of a size, cut off at the largest ledger.
  ghost predicate Block(ledger: nat, size: nat, first: nat, last: nat)
    requires size > 0
  {
    first % size == 0 && first <= ledger < first + size && last == Min(first + size - 1, 0xffff_ffff)
  }

  lemma FileNames(start: nat, size: nat, extension: string)
    requires start <= MAX_UINT32 && size > 0
    ensures Names(FilePart(start, size, extension), start, Min(start + size - 1, 0xffff_ffff), false,
                  ".xdr." + extension)
  {
    hide Hex8, Decimal, Value;
    var end := Min(MAX_UINT32, start + size - 1);
    NameParts(start, end);
    var h, s, e := Hex8(MAX_UINT32 - start), Decimal(start), Decimal(end);
    var middle := if end != start then "-" + e else "";
    assert h + "--" + s + middle + ".xdr." + extension == h + "--" + s + middle + (".xdr." + extension);
  }

  lemma PartitionNames(start: nat, size: nat)
    requires start <= MAX_UINT32 && size > 0
    ensures Names(PartitionPart(start, size), start, Min(start + size - 1, 0xffff_ffff), true, "/")
  {
    hide Hex8, Decimal, Value;
    var end := Min(MAX_UINT32, start + size - 1);
    NameParts(start, end);
    var h, s, e := Hex8(MAX_UINT32 - start), Decimal(start), Decimal(end);
    assert h + "--" + s + "-" + e + "/" == h + "--" + s + ("-" + e) + "/";
  }

  lemma NameParts(start: nat, end: nat)
    requires start <= MAX_UINT32
    ensures var h := Hex8(MAX_UINT32 - start); |h| == 8 && Value(h, 16) == 0xffff_ffff - start
    ensures Value(Decimal(start), 10) == start && Value(Decimal(end), 10) == end
  {
    hide Hex8, Value;
    if start == 0 {
      Hex8Max();
    } else {
      Hex8Value(MAX_UINT32 - start);
    }
    DigitsValue(start, 10);
    DigitsValue(end, 10);
  }

  lemma BlockOf(ledger: nat, size: nat)
    requires size > 0
    ensures Block(ledger, size, StartOf(ledger, size), Min(StartOf(ledger, size) + size - 1, 0xffff_ffff))
  {
    StartBelow(ledger, size);
    MultipleOf(ledger / size, size);
  }

  lemma MultipleOf(q: nat, size: nat)
    requires size > 0
    ensures q * size % size == 0
  {
    var n := q * size;
    Remake(n, size);
    QuotientUnique(n, size, q, 0);
  }

  // The key of a ledger names the ledgers of its file and, if files are kept in folders, before that
  // the ledgers of its folder.
  lemma KeyNames(ledger: nat, ledgersPerBatch: int, batchesPerPartition: int, extension: string)
    requires ledger <= 0xffff_ffff
    ensures var size: nat := if ledgersPerBatch < 1 then 1 else ledgersPerBatch;
            exists folder, file, first: nat, last: nat ::
              && Key(ledger, ledgersPerBatch, batchesPerPartition, extension) == folder + file
              && Block(ledger, size, first, last) && Names(file, first, last, false, ".xdr." + extension)
              && if batchesPerPartition <= 1 then folder == ""
                 else
                   && size * batchesPerPartition > 0
                   && exists from: nat, to: nat ::
                        Block(ledger, size * batchesPerPartition, from, to) && Names(folder, from, to, true, "/")
  {
    hide FilePart, PartitionPart, Names, Block, StartOf;
    var size, partition := LedgersPerFile(ledgersPerBatch), PartitionSize(ledgersPerBatch, batchesPerPartition);
    StartBelow(ledger, size);
    StartBelow(ledger, partition);
    BlockOf(ledger, size);
    BlockOf(ledger, partition);
    FileNames(StartOf(ledger, size), size, extension);
    PartitionNames(StartOf(ledger, partition), partition);
    var folder := if batchesPerPartition > 1 then PartitionPart(StartOf(ledger, partition), partition) else "";
    var file := FilePart(StartOf(ledger, size), size, extension);
    assert Key(ledger, ledgersPerBatch, batchesPerPartition, extension) == folder + file;
  }
}
