// The catch-up runs of scheduled ticks: what they read again, and how often.
module Ticks {
  import opened Basics
  import opened Store
  import opened Retry
  import opened Sync
  import opened SyncSafety
  import opened Anchors

  // ----- What a catch-up run reads

  lemma {:induction false} PagesKeep(env: Env, first: FetchOptions, pageCount: nat, got: Fetched)
    ensures got.events <= MorePages(env, first, pageCount, got).events
    decreases DEFAULT_LEADERBOARD_SYNC_MAX_PAGES - pageCount
  {
    if WantsMore(got.last, first.limit, pageCount) {
      var answer := env.fetch(pageCount, NextFetch(first, got.last));
      if answer.Done? {
        PagesKeep(env, first, pageCount + 1, Fetched(got.events + answer.value.events, answer.value, false));
      }
    }
  }

  // The first request is for the window below the highest ledger. When the run completes, every event
  // from there to where the answer reaches has its id in the table.
  lemma CatchupReads(c: Codec, fails: (nat, nat) -> bool, ch: Chain, db: Db, cfg: Config, env: Env, own: nat)
    requires ValidChain(ch) && GoodSource(ch, env, own) && Faithful(c, ch, db.events)
    requires db.state.highestLedger.Some?
    ensures var h := db.state.highestLedger.value;
            var (db', o) := RunSync(c, fails, db, CatchupRequest(cfg, h), env);
            var from := if h - cfg.catchupWindowLedgers < 2 then 2 else h - cfg.catchupWindowLedgers;
            var limit := if cfg.limit < 1 then 1 else if cfg.limit > 1000 then 1000 else cfg.limit;
            var answer := env.fetch(0, FetchOptions(None, Some(from), Some(h), limit));
            o.Completed? ==>
              && answer.Done?
              && var p := answer.value;
                 var reach := Reach(p.nextCursor, HighestOf(p.events));
                 forall e :: e in ch.events && h - cfg.catchupWindowLedgers <= Ledger(e) <= reach ==>
                   e.eventId in db'.events
  {
    hide MorePages, HighestOf, RunSync, Faithful, NextState;
    var h := db.state.highestLedger.value;
    var req := CatchupRequest(cfg, h);
    var (db', o) := RunSync(c, fails, db, req, env);
    RunWrites(c, fails, ch, db, req, env, own);
    if o.Completed? {
      var first := FirstFetch(db.state, req);
      var p := env.fetch(0, first).value;
      assert GoodPage(ch, first, own, p);
      PagesKeep(env, first, 1, Fetched(p.events, p, false));
      forall e | e in ch.events && StartOf(first, own) <= Ledger(e) <= Reach(p.nextCursor, HighestOf(p.events))
        ensures e.eventId in db'.events
      {
        var r :| r in p.events && r.event == e;
        assert r in FetchAll(env, first).events;
        assert r.Id() in Ids(FetchAll(env, first).events);
      }
    }
  }

  // ----- How often

  lemma RunKeepsBackfillTime(c: Codec, fails: (nat, nat) -> bool, db: Db, req: SyncRequest, env: Env)
    ensures var (db', o) := RunSync(c, fails, db, req, env);
            db'.state.lastBackfillAt ==
            if o.Completed? && req.mode.Backfill? then Some(env.now) else db.state.lastBackfillAt
  {
    hide WriteAll, MorePages, FirstFetch, HighestOf;
  }

  // A tick runs a catch-up exactly when its forward run completed, catch-ups are configured, a highest
  // ledger is known, and the last completed one is an interval of minutes ago.
  lemma TickCatchesUp(c: Codec, fails: (nat, nat) -> bool, db: Db, cfg: Config, time: int, forward: Env, catchup: Env)
    ensures var (db', o) := RunTick(c, fails, db, cfg, time, forward, catchup);
            var (db1, o1) := RunSync(c, fails, db, ForwardRequest(cfg), forward);
            && o.forward == o1
            && (o.catchup.Some? <==>
                  && o1.Completed? && db1.state.highestLedger.Some?
                  && cfg.catchupWindowLedgers > 0 && cfg.catchupIntervalMinutes > 0
                  && (db.state.lastBackfillAt.Some? ==>
                        time - db.state.lastBackfillAt.value >= cfg.catchupIntervalMinutes * 60 * 1000))
            && db'.state.lastBackfillAt ==
               (if o.catchup.Some? && o.catchup.value.Completed? then Some(catchup.now) else db.state.lastBackfillAt)
  {
    hide RunSync;
    RunKeepsBackfillTime(c, fails, db, ForwardRequest(cfg), forward);
    var db1 := RunSync(c, fails, db, ForwardRequest(cfg), forward).0;
    if db1.state.highestLedger.Some? {
      RunKeepsBackfillTime(c, fails, db1, CatchupRequest(cfg, db1.state.highestLedger.value), catchup);
    }
  }

  datatype Tick = Tick(time: int, forward: Env, catchup: Env)

  function AfterTicks(c: Codec, fails: (nat, nat) -> bool, db: Db, cfg: Config, ticks: seq<Tick>): Db {
    if |ticks| == 0 then db
    else
      var n := |ticks| - 1;
      var t := ticks[n];
      RunTick(c, fails, AfterTicks(c, fails, db, cfg, ticks[..n]), cfg, t.time, t.forward, t.catchup).0
  }

  function OutcomeAt(c: Codec, fails: (nat, nat) -> bool, db: Db, cfg: Config, ticks: seq<Tick>, i: nat): TickOutcome
    requires i < |ticks|
  {
    var t := ticks[i];
    RunTick(c, fails, AfterTicks(c, fails, db, cfg, ticks[..i]), cfg, t.time, t.forward, t.catchup).1
  }

  predicate CaughtUpAt(c: Codec, fails: (nat, nat) -> bool, db: Db, cfg: Config, ticks: seq<Tick>, i: nat)
    requires i < |ticks|
  {
    var o := OutcomeAt(c, fails, db, cfg, ticks, i);
    o.catchup.Some? && o.catchup.value.Completed?
  }

  // The time of the last completed catch-up is kept.
  lemma {:induction false} TimeKept(c: Codec, fails: (nat, nat) -> bool, db: Db, cfg: Config, ticks: seq<Tick>,
                                    i: nat, k: nat)
    requires i < k <= |ticks| && CaughtUpAt(c, fails, db, cfg, ticks, i)
    requires forall j :: i < j < k ==> !CaughtUpAt(c, fails, db, cfg, ticks, j)
    ensures AfterTicks(c, fails, db, cfg, ticks[..k]).state.lastBackfillAt == Some(ticks[i].catchup.now)
    decreases k
  {
    hide RunTick;
    var n := k - 1;
    assert ticks[..k][..n] == ticks[..n];
    var t := ticks[n];
    TickCatchesUp(c, fails, AfterTicks(c, fails, db, cfg, ticks[..n]), cfg, t.time, t.forward, t.catchup);
    if n == i {
    } else {
      TimeKept(c, fails, db, cfg, ticks, i, n);
      assert !CaughtUpAt(c, fails, db, cfg, ticks, n);
    }
  }

  // So over any ticks, a catch-up run starts an interval after the last completed one at the earliest.
  lemma OncePerInterval(c: Codec, fails: (nat, nat) -> bool, db: Db, cfg: Config, ticks: seq<Tick>, i: nat, j: nat)
    requires i < j < |ticks| && CaughtUpAt(c, fails, db, cfg, ticks, i)
    requires forall k :: i < k < j ==> !CaughtUpAt(c, fails, db, cfg, ticks, k)
    requires OutcomeAt(c, fails, db, cfg, ticks, j).catchup.Some?
    ensures ticks[j].time >= ticks[i].catchup.now + cfg.catchupIntervalMinutes * 60 * 1000
  {
    hide RunTick, AfterTicks;
    TimeKept(c, fails, db, cfg, ticks, i, j);
    var t := ticks[j];
    TickCatchesUp(c, fails, AfterTicks(c, fails, db, cfg, ticks[..j]), cfg, t.time, t.forward, t.catchup);
  }
}
