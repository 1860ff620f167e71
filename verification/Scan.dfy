// Scanning ledger files of the data lake: one page reads the files of a ledger range, and the next
// page starts at the returned cursor.
module Scan {
  import opened Basics

  // A contract event found in a ledger; only score events are returned.
  datatype Item = Item(ledger: nat, isScore: bool, id: nat)

  datatype Response = Missing | Broken | File(items: seq<Item>)

  // The answer for the file that starts at a ledger.
  type Files = nat -> Response

  const DEFAULT_GALEXIE_PAGE_LIMIT := 200
  const MAX_GALEXIE_PAGE_LIMIT := 1000
  const DEFAULT_FORWARD_LEDGER_WINDOW := 4096

  // ----- The ledger range of a page

  datatype Range = Range(from: nat, to: nat)

  // `cursorLedger` is the ledger that the cursor names, if it names one.
  function NormalizeLedgerRange(fromLedger: Option<int>, toLedger: Option<int>, cursorLedger: Option<nat>,
                                limit: Option<int>, latest: Option<int>): Range
  {
    var maxLedgers := ClampLimit(limit);
    var requestedFrom := if fromLedger.Some? && fromLedger.value >= 0 then fromLedger
                         else if cursorLedger.Some? then Some(cursorLedger.value as int) else None;
    var requestedTo := if toLedger.Some? && toLedger.value >= 0 then toLedger else None;
    var from: nat :=
      if requestedFrom.Some? then Max(2, requestedFrom.value)
      else if latest.Some? then Max(2, Max(2, latest.value) - DEFAULT_FORWARD_LEDGER_WINDOW + 1)
      else 2;
    var to: nat :=
      if requestedTo.Some? then Max(from, requestedTo.value)
      else if latest.Some? then Min(from + maxLedgers - 1, Max(2, latest.value))
      else from + maxLedgers - 1;
    Range(from, to)
  }

  function ClampLimit(limit: Option<int>): nat {
    Min(Max(if limit.Some? then limit.value else DEFAULT_GALEXIE_PAGE_LIMIT, 1), MAX_GALEXIE_PAGE_LIMIT)
  }

  // A page starts at the requested ledger, else where the cursor points, else 4096 ledgers below the
  // tip. Without a requested end it spans at most the limit, 200 unless asked for 1 to 1000, and stays
  // below the tip; with one, it ends there unless it starts later.
  lemma RangeBounds(fromLedger: Option<nat>, toLedger: Option<nat>, cursorLedger: Option<nat>, limit: Option<int>,
                    latest: Option<int>)
    ensures var r := NormalizeLedgerRange(fromLedger, toLedger, cursorLedger, limit, latest);
            && r.from == Max(2, if fromLedger.Some? then fromLedger.value
                                else if cursorLedger.Some? then cursorLedger.value
                                else if latest.Some? then latest.value - 4095
                                else 2)
            && (toLedger.None? ==>
                  && r.to == (if latest.Some? then Min(r.from + ClampLimit(limit) - 1, Max(2, latest.value))
                              else r.from + ClampLimit(limit) - 1)
                  && (latest.None? || r.from <= latest.value ==> r.from <= r.to))
            && (toLedger.Some? ==> r.to == Max(r.from, toLedger.value))
    ensures ClampLimit(None) == 200
    ensures limit.Some? ==>
              ClampLimit(limit) == if limit.value < 1 then 1 else if limit.value > 1000 then 1000 else limit.value
  {
  }

  // ----- What a page returns

  function FileStart(ledger: nat, size: nat): nat
    requires size > 0
  {
    ledger / size * size
  }

  function FileAt(range: Range, size: nat, i: nat): nat
    requires size > 0
  {
    FileStart(range.from, size) + i * size
  }

  predicate InRange(range: Range, ledger: nat) {
    range.from <= ledger <= range.to
  }

  // The items of a file inside the range, or only its score events.
  function Select(items: seq<Item>, range: Range, scoresOnly: bool): seq<Item> {
    if |items| == 0 then []
    else
      var n := |items| - 1;
      var rest := Select(items[..n], range, scoresOnly);
      if InRange(range, items[n].ledger) && (items[n].isScore || !scoresOnly) then rest + [items[n]] else rest
  }

  // Everything selected from the first k files.
  function Collect(files: Files, range: Range, size: nat, k: nat, scoresOnly: bool): seq<Item>
    requires size > 0
  {
    if k == 0 then []
    else
      Collect(files, range, size, k - 1, scoresOnly)
      + SelectFrom(files(FileAt(range, size, k - 1)), range, scoresOnly)
  }

  function SelectFrom(response: Response, range: Range, scoresOnly: bool): seq<Item> {
    if response.File? then Select(response.items, range, scoresOnly) else []
  }

  datatype Result = Fetched(events: seq<Item>, nextLedger: nat, fetchedCount: nat) | Error

  // One file's items, filtered by the ledger range.
  method ExtractScoreEvents(items: seq<Item>, range: Range) returns (events: seq<Item>, inspected: nat)
    ensures events == Select(items, range, true)
    ensures inspected == |Select(items, range, false)|
  {
    events, inspected := [], 0;
    for i := 0 to |items|
      invariant events == Select(items[..i], range, true)
      invariant inspected == |Select(items[..i], range, false)|
    {
      assert items[..i + 1][..i] == items[..i];
      var item := items[i];
      if item.ledger < range.from || item.ledger > range.to {
        continue;
      }
      inspected := inspected + 1;
      if item.isScore {
        events := events + [item];
      }
    }
    assert items[..|items|] == items;
  }

  // The last maxMissing of the first k files are missing.
  ghost predicate GivesUp(files: Files, range: Range, size: nat, maxMissing: nat, k: nat)
    requires size > 0
  {
    maxMissing <= k && forall i :: k - maxMissing <= i < k ==> files(FileAt(range, size, i)).Missing?
  }

  // The result of reading exactly the first `visited` files: a broken file ends the scan, and so do
  // the end of the range and, without a requested end, too many missing files in a row.
  ghost predicate IsScan(files: Files, range: Range, size: nat, bounded: bool, maxMissing: nat, visited: nat, r: Result)
    requires size > 0
  {
    && (forall i :: 0 <= i < visited ==> FileAt(range, size, i) <= range.to)
    && (forall i :: 0 <= i < visited - 1 ==> !files(FileAt(range, size, i)).Broken?)
    && (forall k :: 0 <= k < visited ==> bounded || !GivesUp(files, range, size, maxMissing, k))
    && if visited > 0 && files(FileAt(range, size, visited - 1)).Broken? then r.Error?
       else
         && r == Fetched(Collect(files, range, size, visited, true),
                         if visited == 0 then range.from else FileAt(range, size, visited),
                         |Collect(files, range, size, visited, false)|)
         && (range.to < FileAt(range, size, visited) || (!bounded && GivesUp(files, range, size, maxMissing, visited)))
  }

  // The files alone decide how many of them are read, and the result.
  lemma ScanUnique(files: Files, range: Range, size: nat, bounded: bool, maxMissing: nat,
                   v: nat, r: Result, w: nat, q: Result)
    requires size > 0
    requires IsScan(files, range, size, bounded, maxMissing, v, r)
    requires IsScan(files, range, size, bounded, maxMissing, w, q)
    ensures v == w && r == q
  {
    if v < w {
      NotFurther(files, range, size, bounded, maxMissing, v, r, w, q);
    } else if w < v {
      NotFurther(files, range, size, bounded, maxMissing, w, q, v, r);
    }
  }

  lemma NotFurther(files: Files, range: Range, size: nat, bounded: bool, maxMissing: nat,
                   v: nat, r: Result, w: nat, q: Result)
    requires size > 0
    requires IsScan(files, range, size, bounded, maxMissing, v, r)
    requires IsScan(files, range, size, bounded, maxMissing, w, q)
    ensures w <= v
  {
    hide Collect, FileAt;
  }

  // Reads the files of the range in ascending order, each once.
  method ScanFiles(files: Files, range: Range, size: nat, bounded: bool, maxMissing: nat) returns (r: Result)
    requires size > 0 && maxMissing > 0
    ensures Scanned(files, range, size, bounded, maxMissing, r)
  {
    hide Select, Collect, FileAt;
    var events: seq<Item>, inspectedEventCount := [], 0;
    var cursorLedger := range.from;
    var consecutiveMissingFiles := 0;
    var fileStartLedger := FileStart(range.from, size);
    ghost var visited: nat := 0;
    CollectNone(files, range, size);
    while fileStartLedger <= range.to
      invariant fileStartLedger == FileAt(range, size, visited)
      invariant cursorLedger == if visited == 0 then range.from else fileStartLedger
      invariant forall i :: 0 <= i < visited ==> FileAt(range, size, i) <= range.to
      invariant forall i :: 0 <= i < visited ==> !files(FileAt(range, size, i)).Broken?
      invariant consecutiveMissingFiles <= visited
      invariant bounded || consecutiveMissingFiles < maxMissing
      invariant forall i :: visited - consecutiveMissingFiles <= i < visited ==> files(FileAt(range, size, i)).Missing?
      invariant consecutiveMissingFiles < visited ==>
                  !files(FileAt(range, size, visited - consecutiveMissingFiles - 1)).Missing?
      invariant forall k :: 0 <= k < visited ==> bounded || !GivesUp(files, range, size, maxMissing, k)
      invariant events == Collect(files, range, size, visited, true)
      invariant inspectedEventCount == |Collect(files, range, size, visited, false)|
      decreases range.to + 1 - fileStartLedger
    {
      var response := files(fileStartLedger);
      CollectOne(files, range, size, visited);
      NextFile(range, size, visited);
      visited := visited + 1;
      if response.Broken? {
        assert IsScan(files, range, size, bounded, maxMissing, visited, Error);
        return Error;
      }
      if response.Missing? {
        consecutiveMissingFiles := consecutiveMissingFiles + 1;
        fileStartLedger := fileStartLedger + size;
        cursorLedger := fileStartLedger;
        if !bounded && consecutiveMissingFiles >= maxMissing {
          break;
        }
        continue;
      }
      consecutiveMissingFiles := 0;
      var extracted, inspected := ExtractScoreEvents(response.items, range);
      events := events + extracted;
      inspectedEventCount := inspectedEventCount + inspected;
      fileStartLedger := fileStartLedger + size;
      cursorLedger := fileStartLedger;
    }
    r := Fetched(events, cursorLedger, inspectedEventCount);
    assert IsScan(files, range, size, bounded, maxMissing, visited, r);
  }

  lemma NextFile(range: Range, size: nat, i: nat)
    requires size > 0
    ensures FileAt(range, size, i + 1) == FileAt(range, size, i) + size
  {
    assert (i + 1) * size == i * size + size;
  }

  lemma CollectNone(files: Files, range: Range, size: nat)
    requires size > 0
    ensures Collect(files, range, size, 0, true) == [] && Collect(files, range, size, 0, false) == []
    ensures FileAt(range, size, 0) == FileStart(range.from, size)
  {
  }

  lemma CollectOne(files: Files, range: Range, size: nat, k: nat)
    requires size > 0
    ensures forall scoresOnly ::
              Collect(files, range, size, k + 1, scoresOnly) ==
              Collect(files, range, size, k, scoresOnly) + SelectFrom(files(FileAt(range, size, k)), range, scoresOnly)
  {
  }

  // ----- Which ledgers a page covers

  // A file holds items of its own ledgers.
  ghost predicate GoodFiles(files: Files, size: nat)
    requires size > 0
  {
    forall f: nat :: files(f).File? ==> forall item :: item in files(f).items ==> f <= item.ledger < f + size
  }

  // The score events of one ledger, in order.
  function Scores(items: seq<Item>, ledger: nat): seq<Item> {
    if |items| == 0 then []
    else
      var n := |items| - 1;
      if items[n].ledger == ledger && items[n].isScore then Scores(items[..n], ledger) + [items[n]]
      else Scores(items[..n], ledger)
  }

  // What the data lake has for a ledger.
  function Stored(files: Files, size: nat, ledger: nat): seq<Item>
    requires size > 0
  {
    match files(FileStart(ledger, size))
    case File(items) => Scores(items, ledger)
    case _ => []
  }

  lemma {:induction false} ScoresConcat(a: seq<Item>, b: seq<Item>, ledger: nat)
    ensures Scores(a + b, ledger) == Scores(a, ledger) + Scores(b, ledger)
    decreases |b|
  {
    if |b| == 0 {
      assert a + b == a;
    } else {
      assert (a + b)[..|a + b| - 1] == a + b[..|b| - 1];
      ScoresConcat(a, b[..|b| - 1], ledger);
    }
  }

  lemma {:induction false} ScoresSelected(items: seq<Item>, range: Range, ledger: nat)
    ensures Scores(Select(items, range, true), ledger) == if InRange(range, ledger) then Scores(items, ledger) else []
    decreases |items|
  {
    if |items| == 0 {
    } else {
      var n := |items| - 1;
      ScoresSelected(items[..n], range, ledger);
      var last := items[n];
      if InRange(range, last.ledger) && last.isScore {
        ScoresConcat(Select(items[..n], range, true), [last], ledger);
        ScoresOne(last, ledger);
      }
    }
  }

  lemma ScoresOne(item: Item, ledger: nat)
    ensures Scores([item], ledger) == if item.ledger == ledger && item.isScore then [item] else []
  {
    assert [item][..0] == [];
  }

  lemma {:induction false} NoScores(items: seq<Item>, ledger: nat)
    requires forall item :: item in items ==> item.ledger != ledger
    ensures Scores(items, ledger) == []
    decreases |items|
  {
    if |items| == 0 {
    } else {
      NoScores(items[..|items| - 1], ledger);
    }
  }

  lemma StartOfFile(ledger: nat, size: nat, f: nat, i: nat)
    requires size > 0 && f == i * size
    ensures f <= ledger < f + size <==> FileStart(ledger, size) == f
  {
    var q := ledger / size;
    if q < i {
      StrictlyMonotone(q, i, size);
    } else if i < q {
      StrictlyMonotone(i, q, size);
    }
  }

  // The first k files give a ledger's score events if they include its file, and nothing otherwise.
  lemma {:induction false} CollectCovers(files: Files, range: Range, size: nat, k: nat, ledger: nat)
    requires size > 0 && GoodFiles(files, size)
    ensures Scores(Collect(files, range, size, k, true), ledger) ==
            if InRange(range, ledger) && ledger < FileAt(range, size, k) then Stored(files, size, ledger) else []
    decreases k
  {
    hide Scores, Select;
    var q := range.from / size;
    if k == 0 {
      NoScores([], ledger);
      StartOfFile(range.from, size, FileStart(range.from, size), q);
    } else {
      var f := FileAt(range, size, k - 1);
      CollectCovers(files, range, size, k - 1, ledger);
      NextFile(range, size, k - 1);
      assert f == (q + k - 1) * size;
      StartOfFile(ledger, size, f, q + k - 1);
      var rest := Collect(files, range, size, k - 1, true);
      if files(f).File? {
        var items := files(f).items;
        ScoresConcat(rest, Select(items, range, true), ledger);
        ScoresSelected(items, range, ledger);
        if !(f <= ledger < f + size) {
          NoScores(items, ledger);
        }
      } else {
        EmptyEnd(rest);
      }
    }
  }

  // A page returns, for every ledger of its range below the cursor, exactly what the data lake has,
  // and nothing else.
  lemma PageExact(files: Files, range: Range, size: nat, visited: nat, ledger: nat)
    requires size > 0 && GoodFiles(files, size)
    requires forall i :: 0 <= i < visited ==> FileAt(range, size, i) <= range.to
    ensures Scores(Collect(files, range, size, visited, true), ledger) ==
            if InRange(range, ledger) && ledger < FileAt(range, size, visited) then Stored(files, size, ledger) else []
  {
    CollectCovers(files, range, size, visited, ledger);
  }

  // ----- Chained pages

  // The cursor after a page that found all its files.
  function CursorAfter(range: Range, size: nat): nat
    requires size > 0
  {
    FileStart(range.to, size) + size
  }

  // A scan without missing files ends at that cursor.
  lemma FullScanCursor(range: Range, size: nat, visited: nat)
    requires size > 0 && range.from <= range.to
    requires forall i :: 0 <= i < visited ==> FileAt(range, size, i) <= range.to
    requires range.to < FileAt(range, size, visited)
    ensures visited > 0 && FileAt(range, size, visited) == CursorAfter(range, size)
  {
    var q := range.from / size;
    if visited == 0 {
      StartOfFile(range.from, size, FileStart(range.from, size), q);
    } else {
      NextFile(range, size, visited - 1);
      var f := FileAt(range, size, visited - 1);
      assert f == (q + visited - 1) * size;
      StartOfFile(range.to, size, f, q + visited - 1);
    }
  }

  // The cursor is the ledger after the range exactly when the range ends with a file.
  lemma CursorAligned(range: Range, size: nat)
    requires size > 0
    ensures range.to < CursorAfter(range, size)
    ensures CursorAfter(range, size) == range.to + 1 <==> (range.to + 1) % size == 0
  {
    var q, r := range.to / size, range.to % size;
    assert range.to == q * size + r;
    if r == size - 1 {
      assert range.to + 1 == (q + 1) * size by { assert (q + 1) * size == q * size + size; }
      Remainder(range.to + 1, size, q + 1, 0);
    } else {
      Remainder(range.to + 1, size, q, r + 1);
    }
  }

  lemma Remainder(n: nat, size: nat, q: nat, r: nat)
    requires size > 0 && r < size && n == q * size + r
    ensures n % size == r
  {
    var p := n / size;
    assert n == p * size + n % size;
    if p < q {
      StrictlyMonotone(p, q, size);
    } else if q < p {
      StrictlyMonotone(q, p, size);
    }
  }

  // Pages where each starts at the cursor of the one before it.
  ghost predicate Chained(pages: seq<Range>, size: nat)
    requires size > 0
  {
    && (forall i :: 0 <= i < |pages| ==> pages[i].from <= pages[i].to)
    && (forall i :: 0 < i < |pages| ==> pages[i].from == CursorAfter(pages[i - 1], size))
  }

  ghost predicate Covered(pages: seq<Range>, ledger: nat) {
    exists i :: 0 <= i < |pages| && InRange(pages[i], ledger)
  }

  ghost predicate EndsWithFile(page: Range, size: nat)
    requires size > 0
  {
    (page.to + 1) % size == 0
  }

  // Earlier pages of a chain end before later ones start.
  lemma {:induction false} ChainOrder(pages: seq<Range>, size: nat, i: nat, j: nat)
    requires size > 0 && Chained(pages, size) && i < j < |pages|
    ensures pages[i].to < CursorAfter(pages[i], size) <= pages[j].from
    decreases j - i
  {
    CursorAligned(pages[i], size);
    if i + 1 < j {
      ChainOrder(pages, size, i, j - 1);
      CursorAligned(pages[j - 1], size);
    }
  }

  lemma EmptyEnd(items: seq<Item>)
    ensures items + [] == items && [] + items == items
  {
  }

  lemma {:induction false} RangesGapless(pages: seq<Range>, size: nat)
    requires size > 0 && Chained(pages, size) && |pages| > 0
    ensures (forall l :: pages[0].from <= l <= pages[|pages| - 1].to ==> Covered(pages, l)) <==>
            (forall i :: 0 <= i < |pages| - 1 ==> EndsWithFile(pages[i], size))
    ensures size == 1 ==> forall i :: 0 <= i < |pages| - 1 ==> EndsWithFile(pages[i], size)
  {
    hide CursorAfter;
    if forall i :: 0 <= i < |pages| - 1 ==> EndsWithFile(pages[i], size) {
      forall l | pages[0].from <= l <= pages[|pages| - 1].to
        ensures Covered(pages, l)
      {
        FindPage(pages, size, l, |pages|);
      }
    } else {
      var i :| 0 <= i < |pages| - 1 && !EndsWithFile(pages[i], size);
      GapAfter(pages, size, i);
      if i > 0 {
        ChainOrder(pages, size, 0, i);
      }
      if i + 1 < |pages| - 1 {
        ChainOrder(pages, size, i + 1, |pages| - 1);
      }
    }
  }

  // After a page that ends inside a file, the rest of that file is never read.
  lemma GapAfter(pages: seq<Range>, size: nat, i: nat)
    requires size > 0 && Chained(pages, size) && i < |pages| - 1 && !EndsWithFile(pages[i], size)
    ensures pages[i].to + 1 < CursorAfter(pages[i], size) == pages[i + 1].from
    ensures !Covered(pages, pages[i].to + 1)
  {
    hide CursorAfter;
    var l := pages[i].to + 1;
    CursorAligned(pages[i], size);
    forall j | 0 <= j < |pages|
      ensures !InRange(pages[j], l)
    {
      if j < i {
        ChainOrder(pages, size, j, i);
      } else if j > i {
        ChainOrder(pages, size, i, j);
      }
    }
  }

  lemma {:induction false} FindPage(pages: seq<Range>, size: nat, l: nat, k: nat)
    requires size > 0 && Chained(pages, size) && 0 < k <= |pages|
    requires forall i :: 0 <= i < |pages| - 1 ==> EndsWithFile(pages[i], size)
    requires pages[0].from <= l <= pages[k - 1].to
    ensures Covered(pages, l)
    decreases k
  {
    hide CursorAfter;
    if InRange(pages[k - 1], l) {
      assert Covered(pages, l);
    } else {
      CursorAligned(pages[k - 2], size);
      FindPage(pages, size, l, k - 1);
    }
  }

  // ----- The results of chained scans

  ghost predicate Scanned(files: Files, range: Range, size: nat, bounded: bool, maxMissing: nat, r: Result)
    requires size > 0
  {
    exists visited: nat :: IsScan(files, range, size, bounded, maxMissing, visited, r)
  }

  // Each page was scanned, and starts at the cursor that the one before it returned.
  ghost predicate Chain(files: Files, pages: seq<Range>, size: nat, bounded: bool, maxMissing: nat,
                        results: seq<Result>)
    requires size > 0
  {
    && |pages| == |results|
    && (forall i :: 0 <= i < |pages| ==>
          results[i].Fetched? && Scanned(files, pages[i], size, bounded, maxMissing, results[i]))
    && (forall i :: 0 < i < |pages| ==> pages[i].from == results[i - 1].nextLedger)
  }

  function Joined(results: seq<Result>): seq<Item>
    requires forall r :: r in results ==> r.Fetched?
  {
    if |results| == 0 then [] else Joined(results[..|results| - 1]) + results[|results| - 1].events
  }

  // A ledger of the range of a page, and before its cursor.
  ghost predicate Reached(pages: seq<Range>, results: seq<Result>, ledger: nat)
    requires |pages| == |results| && forall r :: r in results ==> r.Fetched?
  {
    exists i :: 0 <= i < |pages| && InRange(pages[i], ledger) && ledger < results[i].nextLedger
  }

  // One page of a chain, in terms of what it returned.
  lemma ScannedExact(files: Files, range: Range, size: nat, bounded: bool, maxMissing: nat, r: Result, ledger: nat)
    requires size > 0 && GoodFiles(files, size)
    requires r.Fetched? && Scanned(files, range, size, bounded, maxMissing, r)
    ensures range.from <= r.nextLedger
    ensures Scores(r.events, ledger) ==
            if InRange(range, ledger) && ledger < r.nextLedger then Stored(files, size, ledger) else []
  {
    hide Scores, Stored, Collect;
    var visited: nat :| IsScan(files, range, size, bounded, maxMissing, visited, r);
    CollectCovers(files, range, size, visited, ledger);
    if visited == 0 {
      CollectNone(files, range, size);
      NoScores([], ledger);
    } else {
      StartOfFile(range.from, size, FileStart(range.from, size), range.from / size);
      Monotone(1, visited, size);
    }
  }

  lemma {:induction false} CursorsRise(files: Files, pages: seq<Range>, size: nat, bounded: bool, maxMissing: nat,
                                       results: seq<Result>, i: nat, j: nat)
    requires size > 0 && GoodFiles(files, size) && Chain(files, pages, size, bounded, maxMissing, results)
    requires i < j < |pages|
    ensures results[i].nextLedger <= pages[j].from
    decreases j - i
  {
    hide Scanned, GoodFiles;
    if i + 1 == j {
    } else {
      CursorsRise(files, pages, size, bounded, maxMissing, results, i, j - 1);
      ScannedExact(files, pages[j - 1], size, bounded, maxMissing, results[j - 1], 0);
    }
  }

  // Chained scans return the score events of every ledger that one of them reached once, and nothing
  // of any other ledger; files may be missing.
  lemma {:induction false} ChainExact(files: Files, pages: seq<Range>, size: nat, bounded: bool, maxMissing: nat,
                                      results: seq<Result>, ledger: nat)
    requires size > 0 && GoodFiles(files, size) && Chain(files, pages, size, bounded, maxMissing, results)
    ensures Scores(Joined(results), ledger) ==
            if Reached(pages, results, ledger) then Stored(files, size, ledger) else []
    decreases |pages|
  {
    hide Scores, Stored, Scanned, GoodFiles, Reached;
    if |pages| == 0 {
      NoScores([], ledger);
      NothingReached(ledger);
      assert pages == [] && results == [];
    } else {
      var n := |pages| - 1;
      var front, done := pages[..n], results[..n];
      ChainExact(files, front, size, bounded, maxMissing, done, ledger);
      ScannedExact(files, pages[n], size, bounded, maxMissing, results[n], ledger);
      ScoresConcat(Joined(done), results[n].events, ledger);
      EmptyEnd(Stored(files, size, ledger));
      ReachedSplit(pages, results, ledger);
      if i :| 0 <= i < n && InRange(pages[i], ledger) && ledger < results[i].nextLedger {
        CursorsRise(files, pages, size, bounded, maxMissing, results, i, n);
      }
    }
  }

  lemma NothingReached(ledger: nat)
    ensures !Reached([], [], ledger)
  {
  }

  lemma ReachedSplit(pages: seq<Range>, results: seq<Result>, ledger: nat)
    requires |pages| == |results| > 0 && forall r :: r in results ==> r.Fetched?
    ensures var n := |pages| - 1;
            && (Reached(pages[..n], results[..n], ledger) <==>
                  exists i :: 0 <= i < n && InRange(pages[i], ledger) && ledger < results[i].nextLedger)
            && (Reached(pages, results, ledger) <==>
                  || Reached(pages[..n], results[..n], ledger)
                  || (InRange(pages[n], ledger) && ledger < results[n].nextLedger))
  {
    var n := |pages| - 1;
    var front, done := pages[..n], results[..n];
    assert forall i :: 0 <= i < n ==> front[i] == pages[i] && done[i] == results[i];
    if i :| 0 <= i < n && InRange(pages[i], ledger) && ledger < results[i].nextLedger {
      assert InRange(front[i], ledger) && ledger < done[i].nextLedger;
    }
  }

  // When every scan of a chain got past the end of its range, no ledger is left out exactly when every
  // page but the last ends with a file. With one ledger per file that is always so.
  lemma ChainGapless(files: Files, pages: seq<Range>, size: nat, bounded: bool, maxMissing: nat, results: seq<Result>)
    requires size > 0 && Chain(files, pages, size, bounded, maxMissing, results) && |pages| > 0
    requires forall i :: 0 <= i < |pages| ==> pages[i].from <= pages[i].to < results[i].nextLedger
    ensures (forall l :: pages[0].from <= l <= pages[|pages| - 1].to ==> Reached(pages, results, l)) <==>
            (forall i :: 0 <= i < |pages| - 1 ==> EndsWithFile(pages[i], size))
    ensures size == 1 ==> forall i :: 0 <= i < |pages| - 1 ==> EndsWithFile(pages[i], size)
  {
    hide CursorAfter, EndsWithFile, Scanned;
    forall i | 0 <= i < |pages|
      ensures results[i].nextLedger == CursorAfter(pages[i], size)
    {
      FullResult(files, pages[i], size, bounded, maxMissing, results[i]);
    }
    RangesGapless(pages, size);
    assert forall l: nat :: Covered(pages, l) <==> Reached(pages, results, l);
  }

  lemma FullResult(files: Files, range: Range, size: nat, bounded: bool, maxMissing: nat, r: Result)
    requires size > 0 && r.Fetched? && Scanned(files, range, size, bounded, maxMissing, r)
    requires range.from <= range.to < r.nextLedger
    ensures r.nextLedger == CursorAfter(range, size)
  {
    hide Collect;
    var visited: nat :| IsScan(files, range, size, bounded, maxMissing, visited, r);
    FullScanCursor(range, size, visited);
  }

  // For example, with 64 ledgers to a file and the default limit, the first page of a fresh scan
  // ends inside a file.
  lemma GapExample()
    ensures var first := NormalizeLedgerRange(None, None, None, None, None);
            var second := NormalizeLedgerRange(None, None, Some(CursorAfter(first, 64)), None, None);
            Chained([first, second], 64) && first.to == 201 && second.from == 256 && !Covered([first, second], 202)
  {
    var first := NormalizeLedgerRange(None, None, None, None, None);
    var second := NormalizeLedgerRange(None, None, Some(CursorAfter(first, 64)), None, None);
    assert first == Range(2, 201) && second.from == 256;
  }
}
