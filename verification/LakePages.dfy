// When the pages of a file scan meet the assumption that the ingestion protocol makes on its source.
module LakePages {
  import opened Basics
  import Scan
  import opened Store
  import opened Sync
  import opened SyncSafety
  import opened LedgerCursors

  // The records that a scan makes of score events.
  function Records(items: seq<Scan.Item>, record: Scan.Item -> Record): seq<Record> {
    seq(|items|, i requires 0 <= i < |items| => record(items[i]))
  }

  // The files hold the events of the chain, each in the file of its ledger.
  ghost predicate LakeHolds(ch: Chain, files: Scan.Files, size: nat, record: Scan.Item -> Record)
    requires size > 0
  {
    && Scan.GoodFiles(files, size)
    && (forall f: nat, item :: files(f).File? && item in files(f).items && item.isScore ==>
          record(item).event in ch.events && Ledger(record(item).event) == item.ledger)
    && (forall e :: e in ch.events && Ledger(e) >= 0 && files(Scan.FileStart(Ledger(e), size)).File? ==>
          exists item ::
            item in files(Scan.FileStart(Ledger(e), size)).items && item.isScore && record(item).event == e)
  }

  ghost predicate AllPresent(files: Scan.Files, range: Scan.Range, size: nat, visited: nat)
    requires size > 0
  {
    forall i :: 0 <= i < visited ==> files(Scan.FileAt(range, size, i)).File?
  }

  // The page of a scan that found all files of its range.
  function LakePage(files: Scan.Files, range: Scan.Range, size: nat, visited: nat, record: Scan.Item -> Record,
                    latest: Option<nat>): Page
    requires size > 0
  {
    Page(Records(Scan.Collect(files, range, size, visited, true), record),
         Some(AtLedger(Scan.FileAt(range, size, visited))),
         |Scan.Collect(files, range, size, visited, false)|, latest, Galexie)
  }

  lemma {:induction false} ScoresMember(items: seq<Scan.Item>, item: Scan.Item)
    ensures item in Scan.Scores(items, item.ledger) <==> item in items && item.isScore
    decreases |items|
  {
    if |items| == 0 {
    } else {
      ScoresMember(items[..|items| - 1], item);
      assert items == items[..|items| - 1] + [items[|items| - 1]];
    }
  }

  lemma {:induction false} SelectMember(items: seq<Scan.Item>, range: Scan.Range, item: Scan.Item)
    ensures item in Scan.Select(items, range, true) <==>
            item in items && item.isScore && Scan.InRange(range, item.ledger)
    decreases |items|
  {
    if |items| == 0 {
    } else {
      SelectMember(items[..|items| - 1], range, item);
      assert items == items[..|items| - 1] + [items[|items| - 1]];
    }
  }

  // An item is collected only if it stands in a file and in the range.
  lemma {:induction false} CollectMember(files: Scan.Files, range: Scan.Range, size: nat, k: nat, item: Scan.Item)
    returns (f: nat)
    requires size > 0 && item in Scan.Collect(files, range, size, k, true)
    ensures files(f).File? && item in files(f).items && item.isScore && Scan.InRange(range, item.ledger)
    decreases k
  {
    var at := Scan.FileAt(range, size, k - 1);
    if item in Scan.Collect(files, range, size, k - 1, true) {
      f := CollectMember(files, range, size, k - 1, item);
    } else {
      f := at;
      SelectMember(files(at).items, range, item);
    }
  }

  lemma RecordsMember(items: seq<Scan.Item>, record: Scan.Item -> Record, item: Scan.Item)
    requires item in items
    ensures record(item) in Records(items, record)
  {
    var i :| 0 <= i < |items| && items[i] == item;
    assert Records(items, record)[i] == record(item);
  }

  lemma RecordsSource(items: seq<Scan.Item>, record: Scan.Item -> Record, r: Record) returns (item: Scan.Item)
    requires r in Records(items, record)
    ensures item in items && record(item) == r
  {
    var i :| 0 <= i < |items| && Records(items, record)[i] == r;
    item := items[i];
  }

  // Every event of the range is on the page.
  lemma EventsDelivered(ch: Chain, files: Scan.Files, range: Scan.Range, size: nat, visited: nat,
                        record: Scan.Item -> Record, e: ScoreEvent)
    requires size > 0 && LakeHolds(ch, files, size, record) && AllPresent(files, range, size, visited)
    requires range.to < Scan.FileAt(range, size, visited)
    requires forall i :: 0 <= i < visited ==> Scan.FileAt(range, size, i) <= range.to
    requires e in ch.events && range.from <= Ledger(e) <= range.to
    ensures Delivers(Records(Scan.Collect(files, range, size, visited, true), record), e)
  {
    hide Scan.Collect, Scan.Scores;
    var l := Ledger(e);
    var items := Scan.Collect(files, range, size, visited, true);
    FilePresent(files, range, size, visited, l);
    var file := files(Scan.FileStart(l, size));
    var item :| item in file.items && item.isScore && record(item).event == e;
    Scan.PageExact(files, range, size, visited, l);
    ScoresMember(file.items, item);
    ScoresMember(items, item);
    RecordsMember(items, record, item);
  }

  // The file of a ledger in the range is one of those read.
  lemma FilePresent(files: Scan.Files, range: Scan.Range, size: nat, visited: nat, l: nat)
    requires size > 0 && AllPresent(files, range, size, visited)
    requires range.to < Scan.FileAt(range, size, visited) && Scan.InRange(range, l)
    ensures files(Scan.FileStart(l, size)).File?
  {
    var p, q := range.from / size, l / size;
    FileNumber(p, q, visited, size, range.from, l);
    assert Scan.FileAt(range, size, q - p) == Scan.FileStart(l, size);
  }

  lemma FileNumber(p: nat, q: nat, visited: nat, size: nat, from: nat, l: nat)
    requires p * size <= from < p * size + size && q * size <= l < q * size + size
    requires from <= l < p * size + visited * size
    ensures p <= q < p + visited && q * size == p * size + (q - p) * size
  {
    if q < p {
      StrictlyMonotone(q, p, size);
    } else {
      Distribute(p, q - p, size);
      if visited <= q - p {
        Monotone(visited, q - p, size);
      }
    }
  }

  lemma Distribute(a: nat, b: nat, c: nat)
    ensures (a + b) * c == a * c + b * c
  {
  }

  // A scan page is a good page exactly when no event lies between the end of its range and its
  // cursor, and the cursor passes closed ledgers only. In particular a page that ends with a file and
  // at or below the tip is good.
  lemma LakePageExact(ch: Chain, o: FetchOptions, own: nat, files: Scan.Files, range: Scan.Range, size: nat,
                      visited: nat, record: Scan.Item -> Record, latest: Option<nat>)
    requires size > 0 && ValidChain(ch) && LakeHolds(ch, files, size, record)
    requires range.from == StartOf(o, own) <= range.to
    requires AllPresent(files, range, size, visited)
    requires range.to < Scan.FileAt(range, size, visited)
    requires forall i :: 0 <= i < visited ==> Scan.FileAt(range, size, i) <= range.to
    ensures var cursor := Scan.FileAt(range, size, visited);
            GoodPage(ch, o, own, LakePage(files, range, size, visited, record, latest)) <==>
            cursor - 1 <= ch.tip && forall e :: e in ch.events ==> !(range.to < Ledger(e) < cursor)
    ensures Scan.EndsWithFile(range, size) && range.to <= ch.tip ==>
              GoodPage(ch, o, own, LakePage(files, range, size, visited, record, latest))
  {
    hide StartOf, HighestOf, Records, Scan.Collect, Scan.FileAt, Scan.CursorAfter;
    var cursor := Scan.FileAt(range, size, visited);
    var page := LakePage(files, range, size, visited, record, latest);
    var items := Scan.Collect(files, range, size, visited, true);
    Scan.FullScanCursor(range, size, visited);
    Scan.CursorAligned(range, size);
    forall r | r in page.events
      ensures r.event in ch.events && range.from <= Ledger(r.event) <= range.to
    {
      var item := RecordsSource(items, record, r);
      var f := CollectMember(files, range, size, visited, item);
    }
    HighestAtMost(page.events, range.to);
    forall e | e in ch.events && range.from <= Ledger(e) <= range.to
      ensures Delivers(page.events, e)
    {
      EventsDelivered(ch, files, range, size, visited, record, e);
    }
    forall e | e in ch.events && range.to < Ledger(e)
      ensures !Delivers(page.events, e)
    {
    }
  }

  // ----- The data lake as a source of ledger cursors

  function RangeOf(o: FetchOptions, latest: Option<nat>): Scan.Range {
    Scan.NormalizeLedgerRange(o.fromLedger, o.toLedger, ParseLedgerCursor(o.cursor), Some(o.limit), latest)
  }

  // The page that a scan makes of the answer to a request.
  ghost predicate ScanPage(files: Scan.Files, size: nat, maxMissing: nat, record: Scan.Item -> Record, o: FetchOptions,
                           latest: Option<nat>, r: Scan.Result, p: Page)
    requires size > 0
  {
    var range := RangeOf(o, latest);
    && r.Fetched? && Scan.Scanned(files, range, size, o.toLedger.Some?, maxMissing, r)
    && p == Page(Records(r.events, record), Some(AtLedger(r.nextLedger)), r.fetchedCount, latest, Galexie)
  }

  ghost predicate FromLake(env: Env, files: Scan.Files, size: nat, maxMissing: nat, record: Scan.Item -> Record)
    requires size > 0
  {
    forall i: nat, o :: env.fetch(i, o).Done? ==>
      exists latest, r :: ScanPage(files, size, maxMissing, record, o, latest, r, env.fetch(i, o).value)
  }

  // A scan returns a cursor at most a file behind its range, and events of its range and below its
  // cursor only.
  lemma ScanBounds(files: Scan.Files, range: Scan.Range, size: nat, bounded: bool, maxMissing: nat, r: Scan.Result)
    requires size > 0 && Scan.GoodFiles(files, size)
    requires r.Fetched? && Scan.Scanned(files, range, size, bounded, maxMissing, r)
    ensures range.from <= r.nextLedger <= Max(range.from, range.to + size)
    ensures forall item :: item in r.events ==> Scan.InRange(range, item.ledger) && item.ledger < r.nextLedger
  {
    hide Scan.Collect, Scan.GoodFiles;
    var visited: nat :| Scan.IsScan(files, range, size, bounded, maxMissing, visited, r);
    Scan.ScannedExact(files, range, size, bounded, maxMissing, r, 0);
    if visited > 0 {
      Scan.NextFile(range, size, visited - 1);
    }
    forall item | item in r.events
      ensures Scan.InRange(range, item.ledger) && item.ledger < r.nextLedger
    {
      var f := CollectMember(files, range, size, visited, item);
      ScoresMember(r.events, item);
      Scan.ScannedExact(files, range, size, bounded, maxMissing, r, item.ledger);
    }
  }

  // So the pages of the data lake are ledger pages that span the limit and the rest of a file, and its
  // catch-up pages show nothing behind the requested end.
  lemma LakeIsLedgerPages(env: Env, files: Scan.Files, size: nat, maxMissing: nat, record: Scan.Item -> Record,
                          limit: nat)
    requires size > 0 && Scan.GoodFiles(files, size) && FromLake(env, files, size, maxMissing, record)
    requires forall item: Scan.Item :: Ledger(record(item).event) == item.ledger
    requires 1 <= limit <= Scan.MAX_GALEXIE_PAGE_LIMIT
    ensures LedgerPages(env, limit, limit + size - 1)
    ensures CatchupPages(env)
  {
    hide Scan.NormalizeLedgerRange, Scan.Scanned, Scan.GoodFiles;
    forall i: nat, o | env.fetch(i, o).Done? && Requested(o).Some?
      ensures o.toLedger.None? && o.limit == limit ==>
                LedgerPage(env.fetch(i, o).value, Max(2, Requested(o).value), limit + size - 1)
      ensures o.toLedger.Some? ==>
                CatchupPage(env.fetch(i, o).value, Max(Max(2, Requested(o).value), o.toLedger.value))
    {
      var p := env.fetch(i, o).value;
      var latest, r :| ScanPage(files, size, maxMissing, record, o, latest, r, p);
      var range := RangeOf(o, latest);
      Scan.RangeBounds(o.fromLedger, o.toLedger, ParseLedgerCursor(o.cursor), Some(o.limit), latest);
      ScanBounds(files, range, size, o.toLedger.Some?, maxMissing, r);
      forall q | q in p.events
        ensures Ledger(q.event) <= range.to && Ledger(q.event) < r.nextLedger
      {
        var item := RecordsSource(r.events, record, q);
      }
    }
  }

  // With the default page limit and files of up to 1401 ledgers, the pages of a run cannot pass a
  // highest ledger from 8001 on.
  lemma DefaultLakeCannotPass(st: IngestionState, size: nat)
    requires 0 < size <= 1401 && st.highestLedger.Some? && st.highestLedger.value >= 8001
    ensures !CanPass(st, Scan.DEFAULT_GALEXIE_PAGE_LIMIT + size - 1)
  {
  }
}
