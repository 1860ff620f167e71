// The event table of the leaderboard database, and the ingestion state stored beside it.
module Store {
  import opened Basics

  // Sources never produce an empty event id.
  type EventId = string

  datatype Source = Galexie | Rpc

  // A score event as the ledger has it. Times are milliseconds.
  datatype ScoreEvent = ScoreEvent(
    eventId: EventId,
    claimantAddress: string,
    seed: int,
    frameCount: Option<int>,
    finalScore: int,
    previousBest: int,
    newBest: int,
    mintedDelta: int,
    txHash: Option<string>,
    eventIndex: Option<nat>,
    ledger: Option<nat>,
    closedAt: int,
    source: Source)

  // An event as a fetch delivers it.
  datatype Record = Record(event: ScoreEvent, ingestedAt: int)
  {
    function Id(): EventId { event.eventId }
  }

  // A stored row; its key is the event id.
  datatype Row = Row(
    claimantAddress: string,
    seed: nat,
    frameCount: Option<nat>,
    finalScore: nat,
    previousBest: nat,
    newBest: nat,
    mintedDelta: nat,
    txHash: Option<string>,
    eventIndex: Option<nat>,
    ledger: Option<nat>,
    closedAt: int,
    source: Source,
    ingestedAt: int,
    rowHash: string)

  type Table = map<EventId, Row>

  // Text functions of the row: the hash of a record, and the lower-casing of transaction hashes.
  datatype Codec = Codec(hash: Record -> string, txHash: Option<string> -> Option<string>)

  function NullableUint32(n: Option<int>): Option<nat> {
    if n.Some? && n.value >= 0 then Some(Uint32(n.value)) else None
  }

  // A record with a negative score is never written.
  predicate Storable(r: Record) {
    r.event.finalScore >= 0
  }

  // Frame count and final score are normalised before the record is hashed.
  function Normalized(r: Record): Record {
    r.(event := r.event.(frameCount := NullableUint32(r.event.frameCount),
                         finalScore := Uint32(r.event.finalScore)))
  }

  function RowHash(c: Codec, r: Record): string {
    c.hash(Normalized(r))
  }

  function StoredRow(c: Codec, r: Record): Row {
    var e := r.event;
    Row(e.claimantAddress, Uint32(e.seed), NullableUint32(e.frameCount), Uint32(e.finalScore),
        Uint32(e.previousBest), Uint32(e.newBest), Uint32(e.mintedDelta), c.txHash(e.txHash),
        e.eventIndex, e.ledger, e.closedAt, e.source, r.ingestedAt, RowHash(c, r))
  }

  // ----- One batch

  function Ids(rs: seq<Record>): set<EventId> {
    set r | r in rs :: r.Id()
  }

  // The last record of each id.
  function Last(rs: seq<Record>): (m: map<EventId, Record>)
    ensures m.Keys == Ids(rs)
    ensures forall id :: id in m ==> m[id] in rs && m[id].Id() == id
  {
    if rs == [] then map[]
    else
      var n := |rs| - 1;
      assert rs == rs[..n] + [rs[n]];
      Last(rs[..n])[rs[n].Id() := rs[n]]
  }

  // A record that has to be written: it is new, or its hash differs from the stored one.
  predicate IsNew(t: Table, r: Record) {
    Storable(r) && r.Id() !in t
  }

  predicate IsChanged(c: Codec, t: Table, r: Record) {
    Storable(r) && r.Id() in t && t[r.Id()].rowHash != RowHash(c, r)
  }

  function Added(t: Table, last: map<EventId, Record>): set<EventId> {
    set id | id in last && IsNew(t, last[id])
  }

  function Changed(c: Codec, t: Table, last: map<EventId, Record>): set<EventId> {
    set id | id in last && IsChanged(c, t, last[id])
  }

  function Planned(c: Codec, t: Table, last: map<EventId, Record>): (ids: set<EventId>)
    ensures ids <= last.Keys
  {
    Added(t, last) + Changed(c, t, last)
  }

  // The table after one successful batch.
  function BatchTable(c: Codec, t: Table, rs: seq<Record>): Table {
    var last := Last(rs);
    t + map id | id in Planned(c, t, last) :: StoredRow(c, last[id])
  }

  datatype Counts = Counts(inserted: nat, updated: nat)

  function BatchCounts(c: Codec, t: Table, rs: seq<Record>): Counts {
    Counts(|Added(t, Last(rs))|, |Changed(c, t, Last(rs))|)
  }

  // ----- The database

  datatype IngestionState = IngestionState(
    provider: Source,
    cursor: Option<Cursor>,
    highestLedger: Option<nat>,
    lastSyncedAt: Option<int>,
    lastBackfillAt: Option<int>,
    totalEvents: int,
    lastError: Option<string>)

  // `ledger:N`, bare digits, an RPC position `toid-index` with the ledger in the upper bits of the
  // toid, or any other text.
  datatype Cursor = AtLedger(next: nat) | Digits(n: nat) | Toid(toid: nat, index: nat) | Token(text: string)

  const FRESH_STATE := IngestionState(Galexie, None, None, None, None, 0, None)

  datatype Attempt<+T> = Done(value: T) | Failed

  ghost predicate Distinct(ids: seq<EventId>) {
    forall j, k :: 0 <= j < k < |ids| ==> ids[j] != ids[k]
  }

  // The hashes of those ids that have a row.
  ghost predicate HashIndex(hashes: map<EventId, string>, ids: seq<EventId>, t: Table) {
    && (forall id :: id in hashes <==> id in ids && id in t)
    && (forall id :: id in hashes ==> hashes[id] == t[id].rowHash)
  }

  lemma AsBatch(c: Codec, t: Table, rs: seq<Record>, statements: Table)
    requires statements.Keys == Planned(c, t, Last(rs))
    requires forall id :: id in statements ==> statements[id] == StoredRow(c, Last(rs)[id])
    ensures t + statements == BatchTable(c, t, rs)
  {
    hide StoredRow, IsNew, IsChanged, Last, Planned;
    var last := Last(rs);
    assert statements == map id | id in Planned(c, t, last) :: StoredRow(c, last[id]);
  }

  lemma NothingToWrite(t: Table, statements: Table)
    requires |statements| == 0
    ensures t + statements == t
  {
    assert statements == map[];
  }

  // The first i ids with their records.
  ghost function Part(last: map<EventId, Record>, order: seq<EventId>, i: nat): map<EventId, Record>
    requires i <= |order|
  {
    map id | id in last && id in order[..i] :: last[id]
  }

  lemma PartEnds(c: Codec, t: Table, last: map<EventId, Record>, order: seq<EventId>)
    requires forall id :: id in order <==> id in last
    ensures Added(t, Part(last, order, 0)) == {} && Changed(c, t, Part(last, order, 0)) == {}
    ensures Planned(c, t, Part(last, order, 0)) == {}
    ensures Part(last, order, |order|) == last
  {
    assert order[..|order|] == order;
  }

  lemma PlanStep(c: Codec, t: Table, hashes: map<EventId, string>, last: map<EventId, Record>, order: seq<EventId>,
                 i: nat)
    requires i < |order| && Distinct(order)
    requires forall id :: id in order <==> id in last
    requires forall id :: id in last ==> last[id].Id() == id
    requires HashIndex(hashes, order, t)
    ensures var id, was, now := order[i], Part(last, order, i), Part(last, order, i + 1);
            var r := last[id];
            && Planned(c, t, now) == (if Storable(r) && (id !in hashes || hashes[id] != RowHash(c, r))
                                      then Planned(c, t, was) + {id} else Planned(c, t, was))
            && |Added(t, now)| == |Added(t, was)| + (if Storable(r) && id !in hashes then 1 else 0)
            && |Changed(c, t, now)| == |Changed(c, t, was)| +
                 (if Storable(r) && id in hashes && hashes[id] != RowHash(c, r) then 1 else 0)
  {
    hide RowHash, Storable, Added, Changed, Part, HashIndex, IsNew, IsChanged;
    var id, was := order[i], Part(last, order, i);
    PartStep(last, order, i);
    HashesTell(c, t, hashes, order, last[id]);
    OneMore(c, t, was, id, last[id]);
    OneMoreCount(c, t, was, id, last[id]);
  }

  lemma PartStep(last: map<EventId, Record>, order: seq<EventId>, i: nat)
    requires i < |order| && Distinct(order)
    requires forall id :: id in order <==> id in last
    ensures order[i] !in Part(last, order, i)
    ensures Part(last, order, i + 1) == Part(last, order, i)[order[i] := last[order[i]]]
  {
    assert order[..i + 1] == order[..i] + [order[i]];
  }

  lemma HashesTell(c: Codec, t: Table, hashes: map<EventId, string>, order: seq<EventId>, r: Record)
    requires HashIndex(hashes, order, t) && r.Id() in order
    ensures IsNew(t, r) <==> Storable(r) && r.Id() !in hashes
    ensures IsChanged(c, t, r) <==> Storable(r) && r.Id() in hashes && hashes[r.Id()] != RowHash(c, r)
  {
    hide RowHash, Storable;
  }

  lemma OneMoreCount(c: Codec, t: Table, last: map<EventId, Record>, id: EventId, r: Record)
    requires id !in last
    ensures |Added(t, last[id := r])| == |Added(t, last)| + if IsNew(t, r) then 1 else 0
    ensures |Changed(c, t, last[id := r])| == |Changed(c, t, last)| + if IsChanged(c, t, r) then 1 else 0
  {
    hide IsNew, IsChanged, Added, Changed;
    OneMore(c, t, last, id, r);
    AddOne(Added(t, last), id);
    AddOne(Changed(c, t, last), id);
  }

  lemma OneMore(c: Codec, t: Table, last: map<EventId, Record>, id: EventId, r: Record)
    requires id !in last
    ensures id !in Added(t, last) && id !in Changed(c, t, last)
    ensures Added(t, last[id := r]) == if IsNew(t, r) then Added(t, last) + {id} else Added(t, last)
    ensures Changed(c, t, last[id := r]) ==
            if IsChanged(c, t, r) then Changed(c, t, last) + {id} else Changed(c, t, last)
  {
    hide IsNew, IsChanged;
  }

  // Writes are all or nothing. Attempt number k to write n records fails when fails(k, n).
  class Database {
    const codec: Codec
    const fails: (nat, nat) -> bool
    var events: Table
    var attempts: nat
    var state: IngestionState

    constructor (codec: Codec, fails: (nat, nat) -> bool)
      ensures this.codec == codec && this.fails == fails
      ensures events == map[] && attempts == 0 && state == FRESH_STATE
    {
      this.codec := codec;
      this.fails := fails;
      events, attempts, state := map[], 0, FRESH_STATE;
    }

    // The hashes of the rows that exist, asked for 200 ids at a time.
    method GetExistingEventHashes(eventIds: seq<EventId>) returns (out: map<EventId, string>)
      ensures HashIndex(out, eventIds, events)
    {
      var chunkSize := 200;
      out := map[];
      var index := 0;
      while index < |eventIds|
        invariant HashIndex(out, eventIds[..Min(index, |eventIds|)], events)
      {
        var end := Min(index + chunkSize, |eventIds|);
        var chunk := eventIds[index..end];
        assert eventIds[..end] == eventIds[..index] + chunk;
        var page := map id | id in chunk && id in events :: events[id].rowHash;
        out := out + page;
        index := index + chunkSize;
      }
      assert eventIds[..Min(index, |eventIds|)] == eventIds;
    }

    // The last record of each id, and the ids in order of first appearance.
    static method Dedupe(records: seq<Record>)
      returns (deduped: map<EventId, Record>, order: seq<EventId>)
      ensures deduped == Last(records)
      ensures forall id :: id in order <==> id in deduped
      ensures Distinct(order)
    {
      deduped, order := map[], [];
      for i := 0 to |records|
        invariant deduped == Last(records[..i])
        invariant forall id :: id in order <==> id in deduped
        invariant Distinct(order)
      {
        assert records[..i + 1][..i] == records[..i];
        var id := records[i].Id();
        if id !in deduped {
          order := order + [id];
        }
        deduped := deduped[id := records[i]];
      }
      assert records[..|records|] == records;
    }

    // What a batch has to write, and how many of its rows are new and how many changed.
    static method Plan(codec: Codec, deduped: map<EventId, Record>, order: seq<EventId>,
                       existingHashes: map<EventId, string>, ghost t: Table)
      returns (counts: Counts, statements: Table)
      requires Distinct(order)
      requires forall id :: id in order <==> id in deduped
      requires forall id :: id in deduped ==> deduped[id].Id() == id
      requires HashIndex(existingHashes, order, t)
      ensures counts.inserted == |Added(t, deduped)| && counts.updated == |Changed(codec, t, deduped)|
      ensures statements.Keys == Planned(codec, t, deduped)
      ensures forall id :: id in statements ==> statements[id] == StoredRow(codec, deduped[id])
    {
      hide *;
      PartEnds(codec, t, deduped, order);
      var inserted, updated := 0, 0;
      statements := map[];
      for i := 0 to |order|
        invariant inserted == |Added(t, Part(deduped, order, i))|
        invariant updated == |Changed(codec, t, Part(deduped, order, i))|
        invariant statements.Keys == Planned(codec, t, Part(deduped, order, i))
        invariant forall id :: id in statements ==> id in deduped && statements[id] == StoredRow(codec, deduped[id])
      {
        var id := order[i];
        var record := deduped[id];
        PlanStep(codec, t, existingHashes, deduped, order, i);
        if !Storable(record) {
          continue;
        }
        var rowHash := RowHash(codec, record);
        if id !in existingHashes {
          inserted := inserted + 1;
        } else if existingHashes[id] != rowHash {
          updated := updated + 1;
        } else {
          continue;
        }
        WithKey(statements, id, StoredRow(codec, record));
        statements := statements[id := StoredRow(codec, record)];
      }
      counts := Counts(inserted, updated);
    }

    method UpsertLeaderboardEvents(records: seq<Record>) returns (r: Attempt<Counts>)
      modifies this`events, this`attempts
      ensures records == [] ==> attempts == old(attempts) && events == old(events) && r == Done(Counts(0, 0))
      ensures records != [] ==> attempts == old(attempts) + 1
      ensures records != [] && fails(old(attempts), |records|) ==> r == Failed && events == old(events)
      ensures records != [] && !fails(old(attempts), |records|) ==>
                && r == Done(BatchCounts(codec, old(events), records))
                && events == BatchTable(codec, old(events), records)
    {
      hide StoredRow, RowHash, Storable, IsNew, IsChanged, Added, Changed, Planned, BatchTable, Last;
      if records == [] {
        return Done(Counts(0, 0));
      }
      var deduped, order := Dedupe(records);
      var existingHashes := GetExistingEventHashes(order);
      var counts, statements := Plan(codec, deduped, order, existingHashes, events);
      attempts := attempts + 1;
      if fails(attempts - 1, |records|) {
        return Failed;
      }
      AsBatch(codec, events, records, statements);
      if |statements| > 0 {
        events := events + statements;
      } else {
        NothingToWrite(events, statements);
      }
      return Done(counts);
    }

    method CountLeaderboardEvents() returns (n: nat)
      ensures n == |events|
    {
      n := |events|;
    }
  }

  lemma AddOne<T>(s: set<T>, x: T)
    requires x !in s
    ensures |s + {x}| == |s| + 1
  {
  }

  lemma WithKey(t: Table, id: EventId, row: Row)
    ensures t[id := row].Keys == t.Keys + {id}
  {
  }
}
