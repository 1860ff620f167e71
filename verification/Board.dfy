// The leaderboard of the table: after a write, the query over the table ranks the last record of every
// id, as the computed leaderboard does.
module Board {
  import opened Basics
  import opened Store
  import opened Retry
  import opened StoredRows
  import Ranking
  import RankingLaws

  // The place of event ids in their one order.
  type Places = EventId -> nat

  function RowEvent(place: Places, id: EventId, row: Row): Ranking.Event {
    Ranking.Event(
      eventId := place(id),
      claimant := row.claimantAddress,
      newBest := row.newBest,
      mintedDelta := row.mintedDelta,
      seed := row.seed,
      closedAt := row.closedAt)
  }

  // The rows that the query reads.
  ghost function QueryRows(place: Places, t: Table): set<Ranking.Event> {
    set id | id in t :: RowEvent(place, id, t[id])
  }

  function RecordEvent(place: Places, r: Record): Ranking.Event {
    var e := r.event;
    Ranking.Event(
      eventId := place(e.eventId),
      claimant := e.claimantAddress,
      newBest := e.newBest,
      mintedDelta := e.mintedDelta,
      seed := e.seed,
      closedAt := e.closedAt)
  }

  // The last record of every id.
  ghost function LastEvents(place: Places, rs: seq<Record>): set<Ranking.Event> {
    set i | 0 <= i < |rs| && IsLast(rs, i) :: RecordEvent(place, rs[i])
  }

  ghost predicate OneToOne(place: Places) {
    forall a, b :: place(a) == place(b) ==> a == b
  }

  ghost predicate GoodRecords(rs: seq<Record>) {
    forall r :: r in rs ==> UnsignedEvent(r.event) && r.event.closedAt > 0
  }

  // What the query reads after a write: the last record of every id, and the rows that were there
  // before under other ids.
  lemma TableIsRecords(c: Codec, fails: (nat, nat) -> bool, t: Table, k: nat, rs: seq<Record>, place: Places)
    requires CollisionFree(c, t, rs) && (forall j :: !fails(j, 1)) && GoodRecords(rs)
    ensures QueryRows(place, WriteAll(c, fails, t, k, rs).events) ==
            LastEvents(place, rs) + QueryRows(place, t - Ids(rs))
  {
    hide CollisionFree, WriteAll, IsLast, UnsignedEvent, QueryRows, LastEvents, Ids;
    WrittenReadBack(c, fails, t, k, rs);
    var u := WriteAll(c, fails, t, k, rs).events;
    forall i | 0 <= i < |rs| && IsLast(rs, i)
      ensures rs[i].Id() in u && RowEvent(place, rs[i].Id(), u[rs[i].Id()]) == RecordEvent(place, rs[i])
    {
      SameColumns(place, rs[i].Id(), u[rs[i].Id()]);
    }
    SplitRows(t, u, rs, place);
  }

  lemma SplitRows(t: Table, u: Table, rs: seq<Record>, place: Places)
    requires u.Keys == t.Keys + Ids(rs)
    requires forall i :: 0 <= i < |rs| && IsLast(rs, i) ==>
               rs[i].Id() in u && RowEvent(place, rs[i].Id(), u[rs[i].Id()]) == RecordEvent(place, rs[i])
    requires forall id :: id in t && id !in Ids(rs) ==> u[id] == t[id]
    ensures QueryRows(place, u) == LastEvents(place, rs) + QueryRows(place, t - Ids(rs))
  {
    hide IsLast, RowEvent, RecordEvent;
    var all := LastEvents(place, rs) + QueryRows(place, t - Ids(rs));
    forall id | id in u
      ensures RowEvent(place, id, u[id]) in all
    {
      if id in Ids(rs) {
        var i := LastExists(rs, id);
        assert RecordEvent(place, rs[i]) in LastEvents(place, rs);
      } else {
        assert id in t - Ids(rs);
      }
    }
    forall x | x in all
      ensures x in QueryRows(place, u)
    {
      if x in LastEvents(place, rs) {
        var i :| 0 <= i < |rs| && IsLast(rs, i) && x == RecordEvent(place, rs[i]);
        assert rs[i].Id() in u;
      } else {
        var id :| id in t - Ids(rs) && x == RowEvent(place, id, (t - Ids(rs))[id]);
        assert id in u && u[id] == t[id];
      }
    }
  }

  lemma SameColumns(place: Places, id: EventId, row: Row)
    ensures RowEvent(place, id, row) == RecordEvent(place, Record(EventOf(id, row), 0))
  {
  }

  lemma LastEventsGood(place: Places, rs: seq<Record>)
    requires OneToOne(place) && GoodRecords(rs)
    ensures RankingLaws.GoodRows(LastEvents(place, rs))
  {
    forall a, b | a in LastEvents(place, rs) && b in LastEvents(place, rs) && a.eventId == b.eventId
      ensures a == b
    {
      var i :| 0 <= i < |rs| && IsLast(rs, i) && a == RecordEvent(place, rs[i]);
      var j :| 0 <= j < |rs| && IsLast(rs, j) && b == RecordEvent(place, rs[j]);
      assert rs[i].Id() == rs[j].Id();
      assert i == j;
    }
  }

  // The windowed query over the table that a completed write leaves ranks as the leaderboard computed
  // from the last record of every id does: each of its best rows with a positive score stands at its
  // rank number, with the columns of its record.
  lemma QueryRanksRecords(c: Codec, fails: (nat, nat) -> bool, k: nat, rs: seq<Record>, place: Places,
                          events: seq<Ranking.Event>, window: Ranking.Window, nowMs: int, ranking: seq<Ranking.Run>)
    requires CollisionFree(c, map[], rs) && (forall j :: !fails(j, 1)) && GoodRecords(rs) && OneToOne(place)
    requires RankingLaws.RowSet(events) == LastEvents(place, rs)
    requires Ranking.IsRanking(Ranking.Visible(Ranking.SetOf(Ranking.RunsOf(events)), window, nowMs), ranking)
    ensures var rows := QueryRows(place, WriteAll(c, fails, map[], k, rs).events);
            var best := RankingLaws.BestRows(RankingLaws.Filtered(rows, window, nowMs));
            && Ranking.SetOf(ranking) == RankingLaws.RunSet(RankingLaws.Positive(best))
            && (forall e :: e in RankingLaws.Positive(best) ==>
                  var n := RankingLaws.RowNumber(best, e);
                  n <= |ranking| && RankingLaws.ShowsRow(ranking[n - 1], e))
            && (|ranking| == |best| <==> RankingLaws.Positive(best) == best)
  {
    hide CollisionFree, WriteAll, Ranking.IsRanking, Ranking.Visible, Ranking.RunsOf, Ranking.SetOf,
         RankingLaws.BestRows, RankingLaws.Filtered, RankingLaws.RunSet, RankingLaws.RowNumber, RankingLaws.Positive,
         RankingLaws.GoodRows, RankingLaws.RowSet, LastEvents, GoodRecords;
    TableIsRecords(c, fails, map[], k, rs, place);
    NoRows(place, rs);
    LastEventsGood(place, rs);
    RankingLaws.RankingRefinesQuery(events, window, nowMs, ranking);
  }

  lemma NoRows(place: Places, rs: seq<Record>)
    ensures LastEvents(place, rs) + QueryRows(place, map[] - Ids(rs)) == LastEvents(place, rs)
  {
    assert QueryRows(place, map[] - Ids(rs)) == {};
  }
}
