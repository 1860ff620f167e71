// What the rows of the table hold: the columns of the events that were written.
module StoredRows {
  import opened Basics
  import opened Store
  import opened Retry

  // ----- One row

  // The event that a row stands for, read column by column.
  function EventOf(id: EventId, row: Row): ScoreEvent {
    ScoreEvent(
      eventId := id,
      claimantAddress := row.claimantAddress,
      seed := row.seed,
      frameCount := row.frameCount,
      finalScore := row.finalScore,
      previousBest := row.previousBest,
      newBest := row.newBest,
      mintedDelta := row.mintedDelta,
      txHash := row.txHash,
      eventIndex := row.eventIndex,
      ledger := row.ledger,
      closedAt := row.closedAt,
      source := row.source)
  }

  predicate Unsigned(n: int) {
    0 <= n < 0x1_0000_0000
  }

  predicate UnsignedEvent(e: ScoreEvent) {
    && Unsigned(e.seed) && Unsigned(e.finalScore) && Unsigned(e.previousBest) && Unsigned(e.newBest)
    && Unsigned(e.mintedDelta) && (e.frameCount.Some? ==> Unsigned(e.frameCount.value))
  }

  // An unsigned 32-bit number that differs from another by a multiple of 2^32.
  predicate Wraps(n: int, stored: nat) {
    Unsigned(stored) && (stored - n) % 0x1_0000_0000 == 0
  }

  // A row gives back every event with unsigned numbers, up to the case of its transaction hash.
  lemma RowRoundTrip(c: Codec, r: Record)
    requires UnsignedEvent(r.event)
    ensures EventOf(r.Id(), StoredRow(c, r)) == r.event.(txHash := c.txHash(r.event.txHash))
    ensures StoredRow(c, r).ingestedAt == r.ingestedAt
    ensures StoredRow(c, r).rowHash == c.hash(r)
  {
    assert Normalized(r) == r;
  }

  // Other numbers wrap around, a negative frame count is dropped, and the hash is that of the record
  // with the stored frame count and final score.
  lemma RowWraps(c: Codec, r: Record)
    ensures var e, row := r.event, StoredRow(c, r);
            && Wraps(e.seed, row.seed) && Wraps(e.finalScore, row.finalScore)
            && Wraps(e.previousBest, row.previousBest) && Wraps(e.newBest, row.newBest)
            && Wraps(e.mintedDelta, row.mintedDelta)
            && (row.frameCount.Some? <==> e.frameCount.Some? && e.frameCount.value >= 0)
            && (row.frameCount.Some? ==> Wraps(e.frameCount.value, row.frameCount.value))
            && row.rowHash == c.hash(r.(event := e.(frameCount := row.frameCount, finalScore := row.finalScore)))
  {
    var e := r.event;
    Wrap(e.seed);
    Wrap(e.finalScore);
    Wrap(e.previousBest);
    Wrap(e.newBest);
    Wrap(e.mintedDelta);
    if e.frameCount.Some? {
      Wrap(e.frameCount.value);
    }
  }

  lemma Wrap(n: int)
    ensures Wraps(n, Uint32(n))
  {
    assert n == n / 0x1_0000_0000 * 0x1_0000_0000 + n % 0x1_0000_0000;
  }

  // ----- The table after a write

  // No later record has the id of record i.
  ghost predicate IsLast(rs: seq<Record>, i: nat)
    requires i < |rs|
  {
    forall k :: i < k < |rs| ==> rs[k].Id() != rs[i].Id()
  }

  lemma {:induction false} LastOne(rs: seq<Record>, i: nat)
    requires i < |rs| && IsLast(rs, i)
    ensures rs[i].Id() in Last(rs) && Last(rs)[rs[i].Id()] == rs[i]
    decreases |rs|
  {
    hide IsLast;
    var n := |rs| - 1;
    if i == n {
    } else {
      LastInFront(rs, i);
      LastOne(rs[..n], i);
    }
  }

  lemma LastInFront(rs: seq<Record>, i: nat)
    requires i < |rs| - 1 && IsLast(rs, i)
    ensures IsLast(rs[..|rs| - 1], i) && rs[|rs| - 1].Id() != rs[i].Id()
  {
    var front := rs[..|rs| - 1];
    assert forall k :: i < k < |front| ==> front[k] == rs[k];
  }

  // Every id of the records has a last one.
  lemma {:induction false} LastExists(rs: seq<Record>, id: EventId) returns (i: nat)
    requires id in Ids(rs)
    ensures i < |rs| && rs[i].Id() == id && IsLast(rs, i)
    decreases |rs|
  {
    var n := |rs| - 1;
    assert rs == rs[..n] + [rs[n]];
    if rs[n].Id() == id {
      i := n;
    } else {
      i := LastExists(rs[..n], id);
      assert forall k :: i < k < n ==> rs[k].Id() == rs[..n][k].Id();
    }
  }

  // When single writes succeed, the table gives back the last event of every id that was written, and
  // no other row changes.
  lemma WrittenReadBack(c: Codec, fails: (nat, nat) -> bool, t: Table, k: nat, rs: seq<Record>)
    requires CollisionFree(c, t, rs) && forall j :: !fails(j, 1)
    requires forall r :: r in rs ==> UnsignedEvent(r.event)
    ensures var u := WriteAll(c, fails, t, k, rs).events;
            && u.Keys == t.Keys + Ids(rs)
            && (forall i :: 0 <= i < |rs| && IsLast(rs, i) ==>
                  var id := rs[i].Id();
                  && id in u && u[id].ingestedAt == rs[i].ingestedAt
                  && EventOf(id, u[id]) == rs[i].event.(txHash := c.txHash(rs[i].event.txHash)))
            && (forall id :: id in t && id !in Ids(rs) ==> u[id] == t[id])
  {
    hide CollisionFree, WriteAll, LastWriter, Last, StoredRow, EventOf, IsLast, Ids;
    UnsignedStorable(rs);
    RetryRefines(c, fails, t, k, rs);
    LastWriterRows(c, t, rs);
    forall i | 0 <= i < |rs| && IsLast(rs, i)
      ensures rs[i].Id() in Last(rs) && Last(rs)[rs[i].Id()] == rs[i]
      ensures EventOf(rs[i].Id(), StoredRow(c, rs[i])) == rs[i].event.(txHash := c.txHash(rs[i].event.txHash))
      ensures StoredRow(c, rs[i]).ingestedAt == rs[i].ingestedAt
    {
      LastOne(rs, i);
      RowRoundTrip(c, rs[i]);
    }
  }

  lemma UnsignedStorable(rs: seq<Record>)
    requires forall r :: r in rs ==> UnsignedEvent(r.event)
    ensures AllStorable(rs)
  {
  }
}
