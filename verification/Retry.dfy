// Writing many records: batches of 64, and a failed batch is retried in halves.
module Retry {
  import opened Basics
  import opened Store

  const SYNC_UPSERT_BATCH_SIZE := 64

  // Either everything was written, or writing stopped at one record.
  datatype Written = AllWritten(counts: Counts) | StoppedAt(eventId: EventId)

  // Table, number of write attempts so far, and outcome.
  datatype Progress = Progress(events: Table, attempts: nat, outcome: Written)

  function Sum(a: Counts, b: Counts): Counts {
    Counts(a.inserted + b.inserted, a.updated + b.updated)
  }

  // Writes the rest after p, unless p stopped.
  function Then(p: Progress, q: Progress): Progress {
    match p.outcome
    case StoppedAt(_) => p
    case AllWritten(counts) =>
      if q.outcome.AllWritten? then q.(outcome := AllWritten(Sum(counts, q.outcome.counts))) else q
  }

  function WriteChunk(c: Codec, fails: (nat, nat) -> bool, t: Table, k: nat, rs: seq<Record>): Progress
    decreases |rs|
  {
    if |rs| == 0 then
      Progress(t, k, AllWritten(Counts(0, 0)))
    else if !fails(k, |rs|) then
      Progress(BatchTable(c, t, rs), k + 1, AllWritten(BatchCounts(c, t, rs)))
    else if |rs| == 1 then
      Progress(t, k + 1, StoppedAt(rs[0].Id()))
    else
      var split := |rs| / 2;
      var left := WriteChunk(c, fails, t, k + 1, rs[..split]);
      Then(left, WriteChunk(c, fails, left.events, left.attempts, rs[split..]))
  }

  function WriteAll(c: Codec, fails: (nat, nat) -> bool, t: Table, k: nat, rs: seq<Record>): Progress
    decreases |rs|
  {
    if |rs| == 0 then
      Progress(t, k, AllWritten(Counts(0, 0)))
    else
      var size := Min(SYNC_UPSERT_BATCH_SIZE, |rs|);
      var first := WriteChunk(c, fails, t, k, rs[..size]);
      Then(first, WriteAll(c, fails, first.events, first.attempts, rs[size..]))
  }

  // ----- The program

  method UpsertChunkWithFallback(db: Database, records: seq<Record>) returns (r: Written)
    modifies db`events, db`attempts
    ensures Progress(db.events, db.attempts, r) ==
            WriteChunk(db.codec, db.fails, old(db.events), old(db.attempts), records)
    decreases |records|
  {
    if |records| == 0 {
      return AllWritten(Counts(0, 0));
    }
    var upsert := db.UpsertLeaderboardEvents(records);
    if upsert.Done? {
      return AllWritten(upsert.value);
    }
    if |records| == 1 {
      return StoppedAt(records[0].Id());
    }
    var splitIndex := |records| / 2;
    var left := UpsertChunkWithFallback(db, records[..splitIndex]);
    if left.StoppedAt? {
      return left;
    }
    var right := UpsertChunkWithFallback(db, records[splitIndex..]);
    if right.StoppedAt? {
      return right;
    }
    return AllWritten(Sum(left.counts, right.counts));
  }

  // Cutting the next batch off the records that are left.
  lemma NextBatch(c: Codec, fails: (nat, nat) -> bool, t: Table, k: nat, rs: seq<Record>, offset: nat, size: nat,
                  total: Counts)
    requires offset < |rs| && size == Min(SYNC_UPSERT_BATCH_SIZE, |rs| - offset)
    ensures var first := WriteChunk(c, fails, t, k, rs[offset..offset + size]);
            var rest := WriteAll(c, fails, first.events, first.attempts, rs[offset + size..]);
            Then(Progress(t, k, AllWritten(total)), WriteAll(c, fails, t, k, rs[offset..])) ==
            if first.outcome.StoppedAt? then first
            else Then(first.(outcome := AllWritten(Sum(total, first.outcome.counts))), rest)
  {
    hide WriteChunk;
    assert rs[offset..][..size] == rs[offset..offset + size];
    assert rs[offset..][size..] == rs[offset + size..];
  }

  method UpsertSafely(db: Database, records: seq<Record>) returns (r: Written)
    modifies db`events, db`attempts
    ensures Progress(db.events, db.attempts, r) ==
            WriteAll(db.codec, db.fails, old(db.events), old(db.attempts), records)
  {
    hide WriteChunk;
    var total := Counts(0, 0);
    var offset := 0;
    assert records[0..] == records;
    ghost var goal := WriteAll(db.codec, db.fails, db.events, db.attempts, records);
    while offset < |records|
      invariant 0 <= offset <= |records|
      invariant goal == Then(Progress(db.events, db.attempts, AllWritten(total)),
                             WriteAll(db.codec, db.fails, db.events, db.attempts, records[offset..]))
    {
      var size := Min(SYNC_UPSERT_BATCH_SIZE, |records| - offset);
      NextBatch(db.codec, db.fails, db.events, db.attempts, records, offset, size, total);
      var result := UpsertChunkWithFallback(db, records[offset..offset + size]);
      if result.StoppedAt? {
        return result;
      }
      total := Sum(total, result.counts);
      offset := offset + size;
    }
    return AllWritten(total);
  }

  // Without failures there is one attempt for every 64 records.
  lemma {:induction false} BatchesOf64(c: Codec, fails: (nat, nat) -> bool, t: Table, k: nat, rs: seq<Record>)
    requires forall j, n :: 0 < n <= 64 ==> !fails(j, n)
    ensures var p := WriteAll(c, fails, t, k, rs);
            p.outcome.AllWritten? && p.attempts == k + (|rs| + 63) / 64
    decreases |rs|
  {
    hide BatchTable, BatchCounts;
    if |rs| == 0 {
    } else {
      var size := Min(SYNC_UPSERT_BATCH_SIZE, |rs|);
      BatchesOf64(c, fails, BatchTable(c, t, rs[..size]), k + 1, rs[size..]);
    }
  }

  // A failed batch is retried as two halves.
  lemma RetriedInHalves(c: Codec, t: Table, k: nat, rs: seq<Record>, half: nat)
    requires half > 0 && |rs| == 2 * half
    ensures var p := WriteChunk(c, (j, n) => n > half, t, k, rs);
            p.outcome.AllWritten? && p.attempts == k + 3
  {
    hide BatchTable, BatchCounts;
    var a, b := rs[..half], rs[half..];
    assert |a| == |b| == half;
  }

  // ----- What writing adds, whatever fails and whatever collides

  // From t to t': rows are kept or replaced by rows of the records, and none disappears. A record with
  // a negative score leaves no row.
  ghost predicate Grown(c: Codec, t: Table, t': Table, rs: seq<Record>) {
    && t.Keys <= t'.Keys
    && forall id :: id in t' ==>
         || (id in t && t'[id] == t[id])
         || (exists r :: r in rs && r.Id() == id && r.event.finalScore >= 0 && t'[id] == StoredRow(c, r))
  }

  lemma GrownTransitive(c: Codec, t: Table, u: Table, v: Table, rs: seq<Record>, ss: seq<Record>, all: seq<Record>)
    requires Grown(c, t, u, rs) && Grown(c, u, v, ss)
    requires forall r :: r in rs || r in ss ==> r in all
    ensures Grown(c, t, v, all)
  {
    hide StoredRow;
  }

  lemma BatchContents(c: Codec, t: Table, rs: seq<Record>)
    ensures var b, planned := BatchTable(c, t, rs), Planned(c, t, Last(rs));
            && b.Keys == t.Keys + planned
            && (forall id :: id in planned ==> b[id] == StoredRow(c, Last(rs)[id]))
            && (forall id :: id in t && id !in planned ==> b[id] == t[id])
  {
    hide StoredRow, Planned, Last;
  }

  lemma PlannedScore(c: Codec, t: Table, last: map<EventId, Record>, id: EventId)
    requires id in Planned(c, t, last)
    ensures last[id].event.finalScore >= 0
  {
  }

  lemma BatchGrows(c: Codec, t: Table, rs: seq<Record>)
    ensures Grown(c, t, BatchTable(c, t, rs), rs)
  {
    hide StoredRow, Planned, Last, BatchTable;
    BatchContents(c, t, rs);
    var t' := BatchTable(c, t, rs);
    forall id | id in t'
      ensures (id in t && t'[id] == t[id]) ||
              (exists r :: r in rs && r.Id() == id && r.event.finalScore >= 0 && t'[id] == StoredRow(c, r))
    {
      if id in Planned(c, t, Last(rs)) {
        assert Last(rs)[id] in rs;
        PlannedScore(c, t, Last(rs), id);
      }
    }
  }

  lemma BatchSize(c: Codec, t: Table, rs: seq<Record>)
    ensures |BatchTable(c, t, rs)| == |t| + BatchCounts(c, t, rs).inserted
  {
    hide *;
    BatchContents(c, t, rs);
    BatchKeys(c, t, Last(rs));
    BatchParts(c, t, rs);
    KeyCount(BatchTable(c, t, rs));
    KeyCount(t);
    assert BatchTable(c, t, rs).Keys == t.Keys + Added(t, Last(rs));
  }

  lemma BatchParts(c: Codec, t: Table, rs: seq<Record>)
    ensures Planned(c, t, Last(rs)) == Added(t, Last(rs)) + Changed(c, t, Last(rs))
    ensures BatchCounts(c, t, rs).inserted == |Added(t, Last(rs))|
    ensures forall id :: id in Last(rs) ==> Last(rs)[id].Id() == id
  {
    hide Added, Changed;
  }

  lemma KeyCount(t: Table)
    ensures |t| == |t.Keys|
  {
  }

  lemma BatchKeys(c: Codec, t: Table, last: map<EventId, Record>)
    requires forall id :: id in last ==> last[id].Id() == id
    ensures t.Keys * Added(t, last) == {}
    ensures Changed(c, t, last) <= t.Keys
    ensures |t.Keys + Added(t, last)| == |t.Keys| + |Added(t, last)|
  {
  }

  // Retrying is exact about what it reports as inserted.
  lemma {:induction false} ChunkGrows(c: Codec, fails: (nat, nat) -> bool, t: Table, k: nat, rs: seq<Record>)
    ensures var p := WriteChunk(c, fails, t, k, rs);
            && Grown(c, t, p.events, rs)
            && (p.outcome.AllWritten? ==> |p.events| == |t| + p.outcome.counts.inserted)
    decreases |rs|
  {
    hide Grown, BatchTable, BatchCounts;
    GrownRefl(c, t, rs);
    if |rs| > 0 && !fails(k, |rs|) {
      BatchGrows(c, t, rs);
      BatchSize(c, t, rs);
    } else if |rs| > 1 {
      var split := |rs| / 2;
      var left := WriteChunk(c, fails, t, k + 1, rs[..split]);
      ChunkGrows(c, fails, t, k + 1, rs[..split]);
      ChunkGrows(c, fails, left.events, left.attempts, rs[split..]);
      var right := WriteChunk(c, fails, left.events, left.attempts, rs[split..]);
      GrownTransitive(c, t, left.events, right.events, rs[..split], rs[split..], rs);
      GrownRefl(c, left.events, rs);
      GrownTransitive(c, t, left.events, left.events, rs[..split], rs, rs);
    }
  }

  lemma GrownRefl(c: Codec, t: Table, rs: seq<Record>)
    ensures Grown(c, t, t, rs)
  {
  }

  lemma {:induction false} WriteAllGrows(c: Codec, fails: (nat, nat) -> bool, t: Table, k: nat, rs: seq<Record>)
    ensures var p := WriteAll(c, fails, t, k, rs);
            && Grown(c, t, p.events, rs)
            && (p.outcome.AllWritten? ==> |p.events| == |t| + p.outcome.counts.inserted)
    decreases |rs|
  {
    hide Grown, WriteChunk;
    GrownRefl(c, t, rs);
    if |rs| == 0 {
    } else {
      var size := Min(SYNC_UPSERT_BATCH_SIZE, |rs|);
      var first := WriteChunk(c, fails, t, k, rs[..size]);
      ChunkGrows(c, fails, t, k, rs[..size]);
      WriteAllGrows(c, fails, first.events, first.attempts, rs[size..]);
      var rest := WriteAll(c, fails, first.events, first.attempts, rs[size..]);
      GrownTransitive(c, t, first.events, rest.events, rs[..size], rs[size..], rs);
      GrownRefl(c, first.events, rs);
      GrownTransitive(c, t, first.events, first.events, rs[..size], rs, rs);
    }
  }

  // ----- Last writer wins

  function LastWriter(c: Codec, t: Table, rs: seq<Record>): Table {
    if |rs| == 0 then t
    else
      var r := rs[|rs| - 1];
      LastWriter(c, t, rs[..|rs| - 1])[r.Id() := StoredRow(c, r)]
  }

  ghost predicate AllStorable(rs: seq<Record>) {
    forall r :: r in rs ==> Storable(r)
  }

  // Among these records and rows, an id with equal hashes has equal contents.
  ghost predicate CollisionFree(c: Codec, t: Table, rs: seq<Record>) {
    && (forall a, b :: a in rs && b in rs && a.Id() == b.Id() && RowHash(c, a) == RowHash(c, b) ==>
          StoredRow(c, a) == StoredRow(c, b))
    && (forall a :: a in rs && a.Id() in t && t[a.Id()].rowHash == RowHash(c, a) ==> t[a.Id()] == StoredRow(c, a))
  }

  lemma CollisionFreeKept(c: Codec, t: Table, t': Table, rs: seq<Record>, part: seq<Record>, rest: seq<Record>)
    requires CollisionFree(c, t, rs) && Grown(c, t, t', part)
    requires forall r :: r in part || r in rest ==> r in rs
    ensures CollisionFree(c, t, part) && CollisionFree(c, t', rest)
  {
    hide RowHash;
    forall a | a in rest && a.Id() in t' && t'[a.Id()].rowHash == RowHash(c, a)
      ensures t'[a.Id()] == StoredRow(c, a)
    {
      var id := a.Id();
      if !(id in t && t'[id] == t[id]) {
        var r :| r in part && r.Id() == id && t'[id] == StoredRow(c, r);
      }
    }
  }

  lemma {:induction false} LastWriterConcat(c: Codec, t: Table, a: seq<Record>, b: seq<Record>)
    ensures LastWriter(c, t, a + b) == LastWriter(c, LastWriter(c, t, a), b)
    decreases |b|
  {
    hide StoredRow;
    if |b| == 0 {
      assert a + b == a;
    } else {
      var n := |b| - 1;
      assert (a + b)[..|a| + n] == a + b[..n];
      LastWriterConcat(c, t, a, b[..n]);
    }
  }

  // The order only matters per id: the last record of an id gives its row.
  lemma {:induction false} LastWriterRows(c: Codec, t: Table, rs: seq<Record>)
    ensures var u, last := LastWriter(c, t, rs), Last(rs);
            && u.Keys == t.Keys + Ids(rs)
            && (forall id :: id in last ==> u[id] == StoredRow(c, last[id]))
            && (forall id :: id in t && id !in last ==> u[id] == t[id])
    decreases |rs|
  {
    hide StoredRow;
    if |rs| == 0 {
    } else {
      var n := |rs| - 1;
      LastWriterRows(c, t, rs[..n]);
      assert rs == rs[..n] + [rs[n]];
    }
  }

  // One batch is last-writer-wins exactly when no record that counts is hidden by an equal hash.
  lemma BatchExact(c: Codec, t: Table, rs: seq<Record>)
    requires AllStorable(rs)
    ensures BatchTable(c, t, rs) == LastWriter(c, t, rs) <==>
            forall id :: id in Last(rs) && id in t && t[id].rowHash == RowHash(c, Last(rs)[id]) ==>
              t[id] == StoredRow(c, Last(rs)[id])
  {
    hide StoredRow, RowHash, Last, Ids, Planned, BatchTable, LastWriter, Storable;
    BatchContents(c, t, rs);
    LastWriterRows(c, t, rs);
    PlannedIds(c, t, Last(rs));
    var b, u, last := BatchTable(c, t, rs), LastWriter(c, t, rs), Last(rs);
    assert b.Keys == u.Keys;
    forall id | id in u
      ensures b[id] == u[id] <==>
              (id in last && id in t && t[id].rowHash == RowHash(c, last[id]) ==> t[id] == StoredRow(c, last[id]))
    {
    }
  }

  lemma PlannedIds(c: Codec, t: Table, last: map<EventId, Record>)
    requires forall id :: id in last ==> Storable(last[id]) && last[id].Id() == id
    ensures forall id :: id in Planned(c, t, last) <==>
              id in last && !(id in t && t[id].rowHash == RowHash(c, last[id]))
    ensures t.Keys + Planned(c, t, last) == t.Keys + last.Keys
  {
    hide RowHash, Storable;
  }

  lemma BatchRefines(c: Codec, t: Table, rs: seq<Record>)
    requires AllStorable(rs)
    ensures BatchTable(c, t, rs).Keys == t.Keys + Ids(rs)
    ensures CollisionFree(c, t, rs) ==> BatchTable(c, t, rs) == LastWriter(c, t, rs)
  {
    hide StoredRow, RowHash, Last, Ids, Planned, BatchTable, LastWriter, Storable;
    BatchExact(c, t, rs);
    BatchContents(c, t, rs);
    PlannedIds(c, t, Last(rs));
  }

  // After writing, the first n records are in the table and no others; n is all of them, or the
  // n-th one failed when it was written alone.
  ghost predicate WrotePrefix(c: Codec, fails: (nat, nat) -> bool, t: Table, rs: seq<Record>, p: Progress, n: nat) {
    && n <= |rs|
    && p.events.Keys == t.Keys + Ids(rs[..n])
    && (CollisionFree(c, t, rs) ==> p.events == LastWriter(c, t, rs[..n]))
    && (match p.outcome
        case AllWritten(_) => n == |rs|
        case StoppedAt(id) => n < |rs| && id == rs[n].Id() && p.attempts > 0 && fails(p.attempts - 1, 1))
  }

  lemma PrefixThen(c: Codec, fails: (nat, nat) -> bool, t: Table, rs: seq<Record>, split: nat,
                   left: Progress, right: Progress, m: nat, n: nat)
    requires split <= |rs|
    requires WrotePrefix(c, fails, t, rs[..split], left, m) && Grown(c, t, left.events, rs[..split])
    requires left.outcome.AllWritten? ==> WrotePrefix(c, fails, left.events, rs[split..], right, n)
    ensures WrotePrefix(c, fails, t, rs, Then(left, right), if left.outcome.AllWritten? then split + n else m)
  {
    hide CollisionFree, LastWriter, Ids, Grown;
    if CollisionFree(c, t, rs) {
      CollisionFreeKept(c, t, left.events, rs, rs[..split], rs[split..]);
    }
    if left.outcome.AllWritten? {
      assert rs[..split][..m] == rs[..split];
      assert rs[..split + n] == rs[..split] + rs[split..][..n];
      LastWriterConcat(c, t, rs[..split], rs[split..][..n]);
      IdsConcat(rs[..split], rs[split..][..n]);
    } else {
      assert rs[..split][..m] == rs[..m];
    }
  }

  lemma IdsConcat(a: seq<Record>, b: seq<Record>)
    ensures Ids(a + b) == Ids(a) + Ids(b)
  {
  }

  lemma {:induction false} ChunkRefines(c: Codec, fails: (nat, nat) -> bool, t: Table, k: nat, rs: seq<Record>)
    returns (n: nat)
    requires AllStorable(rs)
    ensures WrotePrefix(c, fails, t, rs, WriteChunk(c, fails, t, k, rs), n)
    decreases |rs|
  {
    hide WrotePrefix, BatchTable, BatchCounts, Grown, Storable;
    if |rs| <= 1 || !fails(k, |rs|) {
      n := ChunkUnsplit(c, fails, t, k, rs);
    } else {
      var split := |rs| / 2;
      var left := WriteChunk(c, fails, t, k + 1, rs[..split]);
      var right := WriteChunk(c, fails, left.events, left.attempts, rs[split..]);
      var m := ChunkRefines(c, fails, t, k + 1, rs[..split]);
      var l := ChunkRefines(c, fails, left.events, left.attempts, rs[split..]);
      ChunkGrows(c, fails, t, k + 1, rs[..split]);
      PrefixThen(c, fails, t, rs, split, left, right, m, l);
      n := if left.outcome.AllWritten? then split + l else m;
    }
  }

  lemma ChunkUnsplit(c: Codec, fails: (nat, nat) -> bool, t: Table, k: nat, rs: seq<Record>) returns (n: nat)
    requires AllStorable(rs) && (|rs| <= 1 || !fails(k, |rs|))
    ensures WrotePrefix(c, fails, t, rs, WriteChunk(c, fails, t, k, rs), n)
  {
    hide CollisionFree, BatchTable, BatchCounts, Storable;
    assert rs[..|rs|] == rs;
    if |rs| == 0 {
      n := 0;
    } else if fails(k, |rs|) {
      n := 0;
    } else {
      BatchRefines(c, t, rs);
      n := |rs|;
    }
  }

  // Batching, splitting and retrying have the effect of writing the records one at a time, in
  // order, up to the first that cannot be written alone.
  lemma {:induction false} WriteAllRefines(c: Codec, fails: (nat, nat) -> bool, t: Table, k: nat, rs: seq<Record>)
    returns (n: nat)
    requires AllStorable(rs)
    ensures WrotePrefix(c, fails, t, rs, WriteAll(c, fails, t, k, rs), n)
    decreases |rs|
  {
    hide CollisionFree, WriteChunk, Grown, Storable;
    n := 0;
    assert rs[..|rs|] == rs;
    if |rs| == 0 {
    } else {
      var size := Min(SYNC_UPSERT_BATCH_SIZE, |rs|);
      var first := WriteChunk(c, fails, t, k, rs[..size]);
      var rest := WriteAll(c, fails, first.events, first.attempts, rs[size..]);
      var m := ChunkRefines(c, fails, t, k, rs[..size]);
      var l := WriteAllRefines(c, fails, first.events, first.attempts, rs[size..]);
      ChunkGrows(c, fails, t, k, rs[..size]);
      PrefixThen(c, fails, t, rs, size, first, rest, m, l);
      n := if first.outcome.AllWritten? then size + l else m;
    }
  }

  // When single writes succeed, everything is written: the table is last-writer-wins over all
  // records, and the reported number of insertions is the number of new ids.
  lemma RetryRefines(c: Codec, fails: (nat, nat) -> bool, t: Table, k: nat, rs: seq<Record>)
    requires AllStorable(rs) && CollisionFree(c, t, rs)
    requires forall j :: !fails(j, 1)
    ensures var p := WriteAll(c, fails, t, k, rs);
            && p.outcome.AllWritten?
            && p.events == LastWriter(c, t, rs)
            && p.outcome.counts.inserted == |Ids(rs) - t.Keys|
  {
    hide CollisionFree, WriteAll, LastWriter, Grown, Storable, Ids;
    var p := WriteAll(c, fails, t, k, rs);
    var n := WriteAllRefines(c, fails, t, k, rs);
    WriteAllGrows(c, fails, t, k, rs);
    assert rs[..|rs|] == rs;
    assert p.events.Keys == t.Keys + (Ids(rs) - t.Keys);
    assert |p.events| == |p.events.Keys| && |t| == |t.Keys|;
  }

  lemma OneRecord(c: Codec, t: Table, r: Record)
    requires Storable(r)
    ensures Last([r]) == map[r.Id() := r]
    ensures r.Id() !in t ==>
              BatchCounts(c, t, [r]) == Counts(1, 0) && BatchTable(c, t, [r]) == t[r.Id() := StoredRow(c, r)]
    ensures r.Id() in t && t[r.Id()].rowHash != RowHash(c, r) ==> BatchCounts(c, t, [r]) == Counts(0, 1)
  {
    hide StoredRow, RowHash, Storable, BatchTable, Added, Changed;
    assert [r][..0] == [];
    OneMore(c, t, map[], r.Id(), r);
    NothingPlanned(c, t);
    if r.Id() !in t {
      BatchOfOne(c, t, r);
    }
  }

  lemma WriteOne(c: Codec, t: Table, k: nat, r: Record)
    ensures WriteAll(c, (k, n) => false, t, k, [r]) ==
            Progress(BatchTable(c, t, [r]), k + 1, AllWritten(BatchCounts(c, t, [r])))
  {
    hide BatchTable, BatchCounts;
    assert [r][..1] == [r] && [r][1..] == [];
  }

  lemma NothingPlanned(c: Codec, t: Table)
    ensures Added(t, map[]) == {} && Changed(c, t, map[]) == {}
  {
  }

  lemma BatchOfOne(c: Codec, t: Table, r: Record)
    requires Last([r]) == map[r.Id() := r] && Planned(c, t, Last([r])) == {r.Id()}
    ensures BatchTable(c, t, [r]) == t[r.Id() := StoredRow(c, r)]
  {
    hide StoredRow, BatchTable, Planned, Last;
    BatchContents(c, t, [r]);
  }

  lemma TwoOfOneId(c: Codec, t: Table, a: Record, b: Record)
    requires a.Id() == b.Id() && a.Id() !in t && Storable(b)
    ensures BatchCounts(c, t, [a, b]) == Counts(1, 0)
  {
    hide StoredRow, RowHash, Storable;
    assert [a, b][..1] == [a];
    var last := Last([a, b]);
    assert last == map[b.Id() := b];
    assert Added(t, last) == {b.Id()};
    assert Changed(c, t, last) == {};
  }

  // The reported number of updates depends on the splitting: a record that replaces one of the
  // same fetch counts only when the two are written apart.
  lemma UpdatesNotInvariant(c: Codec, t: Table, a: Record, b: Record)
    requires AllStorable([a, b]) && a.Id() == b.Id() && a.Id() !in t && RowHash(c, a) != RowHash(c, b)
    ensures WriteChunk(c, (k, n) => false, t, 0, [a, b]).outcome == AllWritten(Counts(1, 0))
    ensures WriteChunk(c, (k, n) => n > 1, t, 0, [a, b]).outcome == AllWritten(Counts(1, 1))
  {
    hide RowHash, Storable, BatchCounts, BatchTable, Last;
    assert a in [a, b] && b in [a, b];
    TwoOfOneId(c, t, a, b);
    OneRecord(c, t, a);
    OneRecord(c, t[a.Id() := StoredRow(c, a)], b);
    assert [a, b][..1] == [a] && [a, b][1..] == [b];
  }
}
