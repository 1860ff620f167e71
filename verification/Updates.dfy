// How many updates a write reports. The number depends on how the write is split; this says by how
// much, and for which records it does not.
module Updates {
  import opened Basics
  import opened Store
  import opened Retry

  // ----- Hashes, all that counting updates looks at

  type Hashes = map<EventId, string>

  function HashesOf(t: Table): Hashes {
    map id | id in t :: t[id].rowHash
  }

  // The hashes after the records are written.
  function After(c: Codec, h: Hashes, rs: seq<Record>): Hashes {
    if |rs| == 0 then h
    else
      var r := rs[|rs| - 1];
      After(c, h, rs[..|rs| - 1])[r.Id() := RowHash(c, r)]
  }

  // Updates when the records are written one at a time: each that departs from the stored hash.
  function Singly(c: Codec, h: Hashes, rs: seq<Record>): nat {
    if |rs| == 0 then 0
    else
      var front, r := rs[..|rs| - 1], rs[|rs| - 1];
      var was := After(c, h, front);
      Singly(c, h, front) + if r.Id() in was && was[r.Id()] != RowHash(c, r) then 1 else 0
  }

  // The ids that one batch updates: those whose hash is another in the end.
  function Moved(c: Codec, h: Hashes, rs: seq<Record>): set<EventId> {
    var end := After(c, h, rs);
    set id | id in h && id in end && end[id] != h[id]
  }

  // Updates when no batch fails.
  function Batched(c: Codec, h: Hashes, rs: seq<Record>): nat
    decreases |rs|
  {
    if |rs| == 0 then 0
    else
      var size := Min(SYNC_UPSERT_BATCH_SIZE, |rs|);
      |Moved(c, h, rs[..size])| + Batched(c, After(c, h, rs[..size]), rs[size..])
  }

  // Among these records, one that is followed by another of its id with a different hash repeats the
  // stored row.
  ghost predicate Calm(c: Codec, h: Hashes, rs: seq<Record>) {
    forall i, j :: 0 <= i < j < |rs| && rs[i].Id() == rs[j].Id() && RowHash(c, rs[i]) != RowHash(c, rs[j]) ==>
      rs[i].Id() in h && h[rs[i].Id()] == RowHash(c, rs[i])
  }

  // The same within every batch of 64.
  ghost predicate CalmBatches(c: Codec, h: Hashes, rs: seq<Record>)
    decreases |rs|
  {
    if |rs| == 0 then true
    else
      var size := Min(SYNC_UPSERT_BATCH_SIZE, |rs|);
      Calm(c, h, rs[..size]) && CalmBatches(c, After(c, h, rs[..size]), rs[size..])
  }

  // ----- Writing in parts

  lemma {:induction false} AfterJoin(c: Codec, h: Hashes, a: seq<Record>, b: seq<Record>)
    ensures After(c, h, a + b) == After(c, After(c, h, a), b)
    ensures Singly(c, h, a + b) == Singly(c, h, a) + Singly(c, After(c, h, a), b)
    decreases |b|
  {
    hide RowHash;
    if |b| == 0 {
      assert a + b == a;
    } else {
      var n := |b| - 1;
      assert (a + b)[..|a| + n] == a + b[..n];
      AfterJoin(c, h, a, b[..n]);
    }
  }

  lemma {:induction false} AfterKeeps(c: Codec, h: Hashes, rs: seq<Record>)
    ensures forall id :: id in h ==> id in After(c, h, rs)
    ensures forall id :: id !in Ids(rs) ==> (id in After(c, h, rs) <==> id in h)
    ensures forall id :: id !in Ids(rs) && id in h ==> After(c, h, rs)[id] == h[id]
    decreases |rs|
  {
    hide RowHash;
    if |rs| == 0 {
    } else {
      var n := |rs| - 1;
      AfterKeeps(c, h, rs[..n]);
      assert rs == rs[..n] + [rs[n]];
    }
  }

  // Whatever moves over two parts moves over one of them.
  lemma MovedJoin(c: Codec, h: Hashes, a: seq<Record>, b: seq<Record>)
    ensures |Moved(c, h, a + b)| <= |Moved(c, h, a)| + |Moved(c, After(c, h, a), b)|
  {
    hide After;
    AfterJoin(c, h, a, b);
    AfterKeeps(c, h, a);
    var x, y := Moved(c, h, a), Moved(c, After(c, h, a), b);
    Smaller(Moved(c, h, a + b), x + y);
    UnionSize(x, y);
  }

  lemma Smaller<T>(a: set<T>, b: set<T>)
    requires a <= b
    ensures |a| <= |b|
  {
    assert b == a + (b - a);
    assert |b| == |a| + |b - a|;
  }

  lemma UnionSize<T>(a: set<T>, b: set<T>)
    ensures |a + b| <= |a| + |b|
  {
    assert |a + b| == |a| + |b| - |a * b|;
  }

  // ----- One batch

  // The hash of an id is that of its last record.
  lemma {:induction false} LastRecord(c: Codec, h: Hashes, rs: seq<Record>, id: EventId) returns (j: nat)
    requires id in Ids(rs)
    ensures j < |rs| && rs[j].Id() == id && forall k :: j < k < |rs| ==> rs[k].Id() != id
    ensures id in After(c, h, rs) && After(c, h, rs)[id] == RowHash(c, rs[j])
    decreases |rs|
  {
    hide RowHash;
    var n := |rs| - 1;
    assert rs == rs[..n] + [rs[n]];
    if rs[n].Id() == id {
      j := n;
    } else {
      j := LastRecord(c, h, rs[..n], id);
    }
  }

  lemma CalmFront(c: Codec, h: Hashes, front: seq<Record>, r: Record)
    ensures Calm(c, h, front + [r]) <==>
            && Calm(c, h, front)
            && forall i :: 0 <= i < |front| && front[i].Id() == r.Id() && RowHash(c, front[i]) != RowHash(c, r) ==>
                 r.Id() in h && h[r.Id()] == RowHash(c, front[i])
  {
    hide RowHash;
    var rs := front + [r];
    assert forall i :: 0 <= i < |front| ==> rs[i] == front[i];
    if Calm(c, h, rs) {
      forall i, j |
        0 <= i < j < |front| && front[i].Id() == front[j].Id() && RowHash(c, front[i]) != RowHash(c, front[j])
        ensures front[i].Id() in h && h[front[i].Id()] == RowHash(c, front[i])
      {
        assert rs[i].Id() == rs[j].Id();
      }
      forall i | 0 <= i < |front| && front[i].Id() == r.Id() && RowHash(c, front[i]) != RowHash(c, r)
        ensures r.Id() in h && h[r.Id()] == RowHash(c, front[i])
      {
        assert rs[i].Id() == rs[|front|].Id();
      }
    }
  }

  // One more record moves its id away from the stored hash, or back to it.
  lemma MovedStep(c: Codec, h: Hashes, front: seq<Record>, r: Record)
    ensures var was, m := After(c, h, front), Moved(c, h, front);
            && (r.Id() in m <==> r.Id() in h && r.Id() in was && was[r.Id()] != h[r.Id()])
            && Moved(c, h, front + [r]) ==
               if r.Id() !in h then m else if RowHash(c, r) != h[r.Id()] then m + {r.Id()} else m - {r.Id()}
  {
    hide RowHash;
    AfterKeeps(c, h, front);
    assert (front + [r])[..|front|] == front;
  }

  // The records before that have the id all have the last one's hash, unless the batch is not calm.
  lemma CalmStep(c: Codec, h: Hashes, front: seq<Record>, r: Record)
    requires Calm(c, h, front)
    ensures var was := After(c, h, front);
            Calm(c, h, front + [r]) <==>
            (r.Id() in was && was[r.Id()] != RowHash(c, r) ==> r.Id() in h && was[r.Id()] == h[r.Id()])
  {
    hide RowHash, After;
    CalmFront(c, h, front, r);
    AfterKeeps(c, h, front);
    if r.Id() in Ids(front) {
      var j := LastRecord(c, h, front, r.Id());
      assert forall i :: 0 <= i < |front| && front[i].Id() == r.Id() && i != j ==> i < j;
    } else {
      assert forall i :: 0 <= i < |front| ==> front[i] in front;
    }
  }

  // A batch updates at most as often as single writes do, and exactly as often when it is calm.
  lemma {:induction false} BatchedOrSingly(c: Codec, h: Hashes, rs: seq<Record>)
    ensures |Moved(c, h, rs)| <= Singly(c, h, rs)
    ensures |Moved(c, h, rs)| == Singly(c, h, rs) <==> Calm(c, h, rs)
    decreases |rs|
  {
    hide RowHash, Moved, Calm, After;
    if |rs| == 0 {
      NoneMoved(c, h);
      assert rs == [];
    } else {
      var front, r := rs[..|rs| - 1], rs[|rs| - 1];
      BatchedOrSingly(c, h, front);
      assert rs == front + [r];
      MovedStep(c, h, front, r);
      CalmFront(c, h, front, r);
      AfterKeeps(c, h, front);
      WithAndWithout(Moved(c, h, front), r.Id());
      if Calm(c, h, front) {
        CalmStep(c, h, front, r);
      }
    }
  }

  lemma WithAndWithout<T>(s: set<T>, x: T)
    ensures x in s ==> s + {x} == s && |s - {x}| == |s| - 1
    ensures x !in s ==> s - {x} == s && |s + {x}| == |s| + 1
  {
  }

  lemma NoneMoved(c: Codec, h: Hashes)
    ensures Moved(c, h, []) == {} && Calm(c, h, [])
  {
  }

  lemma {:induction false} AfterLast(c: Codec, h: Hashes, rs: seq<Record>)
    ensures After(c, h, rs).Keys == h.Keys + Ids(rs)
    ensures forall id :: id in Last(rs) ==> After(c, h, rs)[id] == RowHash(c, Last(rs)[id])
    ensures forall id :: id in h && id !in Last(rs) ==> After(c, h, rs)[id] == h[id]
    decreases |rs|
  {
    hide RowHash;
    if |rs| == 0 {
    } else {
      var n := |rs| - 1;
      AfterLast(c, h, rs[..n]);
      assert rs == rs[..n] + [rs[n]];
    }
  }

  // A batch of the program does to the hashes what this says.
  lemma BatchHashes(c: Codec, t: Table, rs: seq<Record>)
    requires AllStorable(rs)
    ensures HashesOf(BatchTable(c, t, rs)) == After(c, HashesOf(t), rs)
    ensures BatchCounts(c, t, rs).updated == |Moved(c, HashesOf(t), rs)|
  {
    hide RowHash, StoredRow, Storable, Last, Ids, Planned, BatchTable, BatchCounts, After, Moved;
    var h, last := HashesOf(t), Last(rs);
    AfterLast(c, h, rs);
    BatchContents(c, t, rs);
    PlannedIds(c, t, last);
    RowsCarryHashes(c);
    ChangedMoves(c, t, rs);
    var u, end := HashesOf(BatchTable(c, t, rs)), After(c, h, rs);
    assert u.Keys == end.Keys;
    assert forall id :: id in u ==> u[id] == end[id];
  }

  lemma ChangedMoves(c: Codec, t: Table, rs: seq<Record>)
    requires AllStorable(rs)
    ensures BatchCounts(c, t, rs).updated == |Moved(c, HashesOf(t), rs)|
  {
    hide RowHash, Storable, Last, Ids, After, Added;
    AfterLast(c, HashesOf(t), rs);
    assert Changed(c, t, Last(rs)) == Moved(c, HashesOf(t), rs);
  }

  lemma RowsCarryHashes(c: Codec)
    ensures forall r :: StoredRow(c, r).rowHash == RowHash(c, r)
  {
  }

  // ----- All failure patterns

  ghost predicate SinglesSucceed(fails: (nat, nat) -> bool) {
    forall k: nat :: !fails(k, 1)
  }

  // Everything was written, as the hashes show, and the reported updates lie between two numbers.
  ghost predicate Reports(c: Codec, h: Hashes, rs: seq<Record>, p: Progress, low: nat, high: nat) {
    && p.outcome.AllWritten?
    && HashesOf(p.events) == After(c, h, rs)
    && low <= p.outcome.counts.updated <= high
  }

  lemma {:induction false} ChunkReports(c: Codec, fails: (nat, nat) -> bool, t: Table, k: nat, rs: seq<Record>)
    requires AllStorable(rs) && SinglesSucceed(fails)
    ensures var h := HashesOf(t);
            Reports(c, h, rs, WriteChunk(c, fails, t, k, rs), |Moved(c, h, rs)|, Singly(c, h, rs))
    decreases |rs|
  {
    hide HashesOf, After, Singly, Moved, BatchTable, BatchCounts, Storable;
    var h := HashesOf(t);
    BatchedOrSingly(c, h, rs);
    if |rs| == 0 {
      NothingWritten(c, h);
      assert rs == [];
    } else if !fails(k, |rs|) {
      BatchHashes(c, t, rs);
    } else {
      var split := |rs| / 2;
      var a, b := rs[..split], rs[split..];
      var left := WriteChunk(c, fails, t, k + 1, a);
      ChunkReports(c, fails, t, k + 1, a);
      ChunkReports(c, fails, left.events, left.attempts, b);
      assert rs == a + b;
      AfterJoin(c, h, a, b);
      MovedJoin(c, h, a, b);
    }
  }

  lemma NothingWritten(c: Codec, h: Hashes)
    ensures After(c, h, []) == h && Moved(c, h, []) == {} && Singly(c, h, []) == 0
  {
  }

  lemma {:induction false} AllReports(c: Codec, fails: (nat, nat) -> bool, t: Table, k: nat, rs: seq<Record>)
    requires AllStorable(rs) && SinglesSucceed(fails)
    ensures var h := HashesOf(t);
            Reports(c, h, rs, WriteAll(c, fails, t, k, rs), Batched(c, h, rs), Singly(c, h, rs))
    decreases |rs|
  {
    hide HashesOf, After, Singly, Moved, WriteChunk, Storable;
    var h := HashesOf(t);
    if |rs| == 0 {
      NothingWritten(c, h);
      assert rs == [];
    } else {
      var size := Min(SYNC_UPSERT_BATCH_SIZE, |rs|);
      var a, b := rs[..size], rs[size..];
      var first := WriteChunk(c, fails, t, k, a);
      ChunkReports(c, fails, t, k, a);
      AllReports(c, fails, first.events, first.attempts, b);
      assert rs == a + b;
      AfterJoin(c, h, a, b);
    }
  }

  // The two ends are reached: by a write that never fails, and by one that fails for all but single
  // records.
  lemma {:induction false} NeverFailing(c: Codec, t: Table, k: nat, rs: seq<Record>)
    requires AllStorable(rs)
    ensures Reports(c, HashesOf(t), rs, WriteAll(c, (j, n) => false, t, k, rs),
                    Batched(c, HashesOf(t), rs), Batched(c, HashesOf(t), rs))
    decreases |rs|
  {
    hide HashesOf, After, Moved, BatchTable, BatchCounts, Storable;
    var h := HashesOf(t);
    if |rs| == 0 {
      NothingWritten(c, h);
      assert rs == [];
    } else {
      var size := Min(SYNC_UPSERT_BATCH_SIZE, |rs|);
      var a, b := rs[..size], rs[size..];
      BatchHashes(c, t, a);
      NeverFailing(c, BatchTable(c, t, a), k + 1, b);
      assert rs == a + b;
      AfterJoin(c, h, a, b);
    }
  }

  lemma {:induction false} OnlySinglesInChunk(c: Codec, t: Table, k: nat, rs: seq<Record>)
    requires AllStorable(rs)
    ensures Reports(c, HashesOf(t), rs, WriteChunk(c, (j, n) => n > 1, t, k, rs),
                    Singly(c, HashesOf(t), rs), Singly(c, HashesOf(t), rs))
    decreases |rs|
  {
    hide HashesOf, After, Singly, Moved, BatchTable, BatchCounts, Storable;
    var h := HashesOf(t);
    var fails := (j: nat, n: nat) => n > 1;
    if |rs| == 0 {
      NothingWritten(c, h);
      assert rs == [];
    } else if |rs| == 1 {
      BatchHashes(c, t, rs);
      BatchedOrSingly(c, h, rs);
    } else {
      var split := |rs| / 2;
      var a, b := rs[..split], rs[split..];
      var left := WriteChunk(c, (j, n) => n > 1, t, k + 1, a);
      OnlySinglesInChunk(c, t, k + 1, a);
      OnlySinglesInChunk(c, left.events, left.attempts, b);
      assert rs == a + b;
      AfterJoin(c, h, a, b);
    }
  }

  lemma {:induction false} OnlySingles(c: Codec, t: Table, k: nat, rs: seq<Record>)
    requires AllStorable(rs)
    ensures Reports(c, HashesOf(t), rs, WriteAll(c, (j, n) => n > 1, t, k, rs),
                    Singly(c, HashesOf(t), rs), Singly(c, HashesOf(t), rs))
    decreases |rs|
  {
    hide HashesOf, After, Singly, WriteChunk, Storable;
    var h := HashesOf(t);
    if |rs| == 0 {
      NothingWritten(c, h);
      assert rs == [];
    } else {
      var size := Min(SYNC_UPSERT_BATCH_SIZE, |rs|);
      var a, b := rs[..size], rs[size..];
      var first := WriteChunk(c, (j, n) => n > 1, t, k, a);
      OnlySinglesInChunk(c, t, k, a);
      OnlySingles(c, first.events, first.attempts, b);
      assert rs == a + b;
      AfterJoin(c, h, a, b);
    }
  }

  lemma {:induction false} EndsMeet(c: Codec, h: Hashes, rs: seq<Record>)
    ensures Batched(c, h, rs) <= Singly(c, h, rs)
    ensures Batched(c, h, rs) == Singly(c, h, rs) <==> CalmBatches(c, h, rs)
    decreases |rs|
  {
    hide After, Singly, Moved, Calm;
    if |rs| == 0 {
      NothingWritten(c, h);
      assert rs == [];
    } else {
      var size := Min(SYNC_UPSERT_BATCH_SIZE, |rs|);
      var a, b := rs[..size], rs[size..];
      BatchedOrSingly(c, h, a);
      EndsMeet(c, After(c, h, a), b);
      assert rs == a + b;
      AfterJoin(c, h, a, b);
    }
  }

  // Whatever fails, as long as single writes succeed, the number reported lies between these.
  ghost predicate AlwaysReports(c: Codec, t: Table, k: nat, rs: seq<Record>, low: nat, high: nat) {
    forall fails :: SinglesSucceed(fails) ==> Reports(c, HashesOf(t), rs, WriteAll(c, fails, t, k, rs), low, high)
  }

  // The reported updates lie between those of an undisturbed write and those of single writes, and
  // both occur. So the number is the same for every pattern of failures exactly when each batch of 64
  // is calm.
  lemma UpdatesInvariant(c: Codec, t: Table, k: nat, rs: seq<Record>)
    requires AllStorable(rs)
    ensures AlwaysReports(c, t, k, rs, Batched(c, HashesOf(t), rs), Singly(c, HashesOf(t), rs))
    ensures (exists n: nat :: AlwaysReports(c, t, k, rs, n, n)) <==> CalmBatches(c, HashesOf(t), rs)
  {
    hide HashesOf, After, Singly, Batched, CalmBatches, WriteAll, Storable;
    var h := HashesOf(t);
    EndsMeet(c, h, rs);
    NeverFailing(c, t, k, rs);
    OnlySingles(c, t, k, rs);
    forall fails | SinglesSucceed(fails)
      ensures Reports(c, h, rs, WriteAll(c, fails, t, k, rs), Batched(c, h, rs), Singly(c, h, rs))
    {
      AllReports(c, fails, t, k, rs);
    }
    if n: nat :| AlwaysReports(c, t, k, rs, n, n) {
      assert SinglesSucceed((j: nat, n: nat) => false) && SinglesSucceed((j: nat, n: nat) => n > 1);
      assert Reports(c, h, rs, WriteAll(c, (j: nat, n: nat) => false, t, k, rs), n, n);
      assert Reports(c, h, rs, WriteAll(c, (j: nat, n: nat) => n > 1, t, k, rs), n, n);
    }
  }

  // Records of different ids are calm, so their updates are always the rows that change.
  lemma DistinctIdsInvariant(c: Codec, fails: (nat, nat) -> bool, t: Table, k: nat, rs: seq<Record>)
    requires AllStorable(rs) && SinglesSucceed(fails)
    requires forall i, j :: 0 <= i < j < |rs| ==> rs[i].Id() != rs[j].Id()
    ensures var p := WriteAll(c, fails, t, k, rs);
            p.outcome.AllWritten? && p.outcome.counts.updated == |Changed(c, t, Last(rs))|
  {
    hide HashesOf, After, Singly, Batched, Moved, WriteAll, Storable, RowHash;
    var h := HashesOf(t);
    AllReports(c, fails, t, k, rs);
    DistinctCalm(c, h, rs);
    EndsMeet(c, h, rs);
    BatchedOrSingly(c, h, rs);
    BatchHashes(c, t, rs);
  }

  lemma {:induction false} DistinctCalm(c: Codec, h: Hashes, rs: seq<Record>)
    requires forall i, j :: 0 <= i < j < |rs| ==> rs[i].Id() != rs[j].Id()
    ensures Calm(c, h, rs) && CalmBatches(c, h, rs)
    decreases |rs|
  {
    hide After, RowHash;
    if |rs| == 0 {
    } else {
      var size := Min(SYNC_UPSERT_BATCH_SIZE, |rs|);
      DistinctCalm(c, After(c, h, rs[..size]), rs[size..]);
    }
  }

  // A record that is followed in its batch by another of its id, and repeats neither that one's hash
  // nor the stored one, makes two patterns report different numbers.
  lemma RepeatedIdVaries(c: Codec, t: Table, k: nat, rs: seq<Record>, i: nat, j: nat)
    requires AllStorable(rs) && i < j < |rs| <= SYNC_UPSERT_BATCH_SIZE
    requires rs[i].Id() == rs[j].Id() && RowHash(c, rs[i]) != RowHash(c, rs[j])
    requires rs[i].Id() in t ==> t[rs[i].Id()].rowHash != RowHash(c, rs[i])
    ensures var p, q := WriteAll(c, (j, n) => false, t, k, rs), WriteAll(c, (j, n) => n > 1, t, k, rs);
            && p.outcome.AllWritten? && q.outcome.AllWritten?
            && p.outcome.counts.updated < q.outcome.counts.updated
  {
    hide After, Singly, Batched, WriteAll, Storable, RowHash;
    var h := HashesOf(t);
    EndsMeet(c, h, rs);
    NeverFailing(c, t, k, rs);
    OnlySingles(c, t, k, rs);
    assert rs[..|rs|] == rs;
    assert !Calm(c, h, rs);
  }
}
