// Why pages must not end inside a ledger: what is left of that ledger is skipped, and stays missing.
module MidLedger {
  import opened Basics
  import opened Store
  import opened Retry
  import opened Sync
  import opened SyncSafety
  import opened Anchors
  import opened SyncProgress

  // The source answers with opaque cursors that do not fall behind the request, and shows the event
  // only when it was asked to start at or before its ledger.
  ghost predicate InOrder(env: Env, own: nat, e: ScoreEvent) {
    forall i: nat, o :: env.fetch(i, o).Done? ==>
      var p := env.fetch(i, o).value;
      && p.nextCursor.Some? && p.nextCursor.value.Toid?
      && StartOf(o, own) <= CursorEnd(p.nextCursor) + 1
      && (Shows(p.events, e) ==> StartOf(o, own) <= Ledger(e))
  }

  ghost predicate Shows(rs: seq<Record>, e: ScoreEvent) {
    e.eventId in Ids(rs)
  }

  // Pages that continue behind the event do not show it.
  ghost predicate Past(got: Fetched, e: ScoreEvent) {
    && got.last.nextCursor.Some? && got.last.nextCursor.value.Toid?
    && Ledger(e) <= CursorEnd(got.last.nextCursor)
    && !Shows(got.events, e)
  }

  lemma {:induction false} PagesPast(env: Env, own: nat, e: ScoreEvent, first: FetchOptions, pageCount: nat,
                                     got: Fetched)
    requires InOrder(env, own, e) && Past(got, e)
    ensures Past(MorePages(env, first, pageCount, got), e)
    decreases DEFAULT_LEADERBOARD_SYNC_MAX_PAGES - pageCount
  {
    hide ToidLedger;
    if WantsMore(got.last, first.limit, pageCount) {
      var o := NextFetch(first, got.last);
      var answer := env.fetch(pageCount, o);
      if answer.Done? {
        IdsConcat(got.events, answer.value.events);
        PagesPast(env, own, e, first, pageCount + 1, Fetched(got.events + answer.value.events, answer.value, false));
      }
    }
  }

  // The event lies behind the frontier of an opaque cursor, and is not in the table.
  ghost predicate Lost(w: World, e: ScoreEvent) {
    OnOpaqueCursor(w.db.state) && Ledger(e) <= Frontier(w.db.state) && e.eventId !in w.db.events
  }

  lemma RunStaysLost(c: Codec, fails: (nat, nat) -> bool, w: World, s: Step, e: ScoreEvent)
    requires Lost(w, e) && s.ForwardRun? && InOrder(s.env, s.own, e)
    ensures Lost(Next(c, fails, w, s), e)
  {
    hide WriteAll, MorePages, FirstFetch, HighestOf, StartOf, ToidLedger, Ids;
    var first := FirstFetch(w.db.state, ForwardRequest(s.cfg));
    OpaqueStart(w.db.state, s.cfg, s.own);
    if s.env.fetch(0, first).Done? {
      var page := s.env.fetch(0, first).value;
      PagesPast(s.env, s.own, e, first, 1, Fetched(page.events, page, false));
      var got := FetchAll(s.env, first);
      WriteAllGrows(c, fails, w.db.events, w.db.attempts, got.events);
      NotWritten(c, w.db.events, WriteAll(c, fails, w.db.events, w.db.attempts, got.events).events, got.events, e);
    }
  }

  lemma NotWritten(c: Codec, t: Table, t': Table, rs: seq<Record>, e: ScoreEvent)
    requires Grown(c, t, t', rs) && e.eventId !in t && !Shows(rs, e)
    ensures e.eventId !in t'
  {
    hide StoredRow;
  }

  // Whatever forward runs follow, and however the chain grows, the event stays missing.
  lemma {:induction false} StaysLost(c: Codec, fails: (nat, nat) -> bool, w: World, steps: seq<Step>, e: ScoreEvent)
    requires Lost(w, e)
    requires forall s :: s in steps ==> !s.CatchupRun? && (s.ForwardRun? ==> InOrder(s.env, s.own, e))
    ensures Lost(RunAll(c, fails, w, steps), e)
    decreases |steps|
  {
    hide InOrder, RunSync;
    if |steps| == 0 {
    } else {
      var front, s := steps[..|steps| - 1], steps[|steps| - 1];
      assert s in steps && forall x :: x in front ==> x in steps;
      StaysLost(c, fails, w, front, e);
      if s.ForwardRun? {
        RunStaysLost(c, fails, RunAll(c, fails, w, front), s, e);
      }
    }
  }

  // ----- A source that stops inside a ledger

  // A fresh database, a source that always answers with one page of one record, no write failure.
  function OnePageWorld(a: ScoreEvent, b: ScoreEvent): World {
    World(Chain(10, {a, b}), Db(map[], 0, FRESH_STATE), 0, 0, 0)
  }

  function OnePage(a: ScoreEvent, toid: nat): Page {
    Page([Record(a, 0)], Some(Toid(toid, 1)), 1, Some(10), Rpc)
  }

  function OnePageEnv(a: ScoreEvent, toid: nat): Env {
    Env((i, o) => Done(OnePage(a, toid)), false, 0)
  }

  // Two events of ledger 10; the source shows the first one and stops inside the ledger. The second
  // one is behind the frontier from then on, and no later forward run brings it.
  lemma PageEndingInsideALedger(c: Codec, a: ScoreEvent, b: ScoreEvent, toid: nat, steps: seq<Step>)
    requires a.ledger == b.ledger == Some(10) && a.eventId != b.eventId && a.finalScore >= 0
    requires ToidLedger(toid) == 10
    requires forall s :: s in steps ==> !s.CatchupRun? && (s.ForwardRun? ==> InOrder(s.env, s.own, b))
    ensures var v := Next(c, (k, n) => false, OnePageWorld(a, b), ForwardRun(DEFAULT_CONFIG, OnePageEnv(a, toid), 2));
            && v.completed == 1
            && v.first <= Ledger(b) <= Frontier(v.db.state)
            && b.eventId !in v.db.events
            && b.eventId !in RunAll(c, (k, n) => false, v, steps).db.events
  {
    hide StoredRow, Storable, ToidLedger, WriteAll, MorePages, BatchTable, BatchCounts, HighestOf, RunAll;
    var r := Record(a, 0);
    var first := FirstFetch(FRESH_STATE, ForwardRequest(DEFAULT_CONFIG));
    StorableRecord(r);
    OneRecord(c, map[], r);
    WriteOne(c, map[], 0, r);
    HighestOfOne(r);
    OnePageOnly(a, toid, first);
    var v := Next(c, (k, n) => false, OnePageWorld(a, b), ForwardRun(DEFAULT_CONFIG, OnePageEnv(a, toid), 2));
    StaysLost(c, (k, n) => false, v, steps, b);
  }

  lemma OnePageOnly(a: ScoreEvent, toid: nat, first: FetchOptions)
    requires ToidLedger(toid) == 10 && first.limit > 1
    ensures var got := Fetched([Record(a, 0)], OnePage(a, toid), false);
            MorePages(OnePageEnv(a, toid), first, 1, got) == got
  {
    hide ToidLedger;
  }

  lemma StorableRecord(r: Record)
    requires r.event.finalScore >= 0
    ensures Storable(r)
  {
  }
}
