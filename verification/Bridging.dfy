// The requests of a run: how far its pages take an opaque cursor, when it stops, and what it asks for.
module Bridging {
  import opened Basics
  import opened Store
  import opened Retry
  import opened Sync
  import opened SyncSafety
  import opened Anchors
  import opened SyncProgress

  // ----- How far a run gets

  // Every request is answered, and moves the cursor `span` ledgers on from its start, or to the tip. A
  // page that is not full says where the tip is.
  ghost predicate Bridges(env: Env, own: nat, tip: nat, span: nat) {
    forall i: nat, o ::
      env.fetch(i, o).Done? && (o.limit > 0 ==> BridgePage(env.fetch(i, o).value, StartOf(o, own), o.limit, tip, span))
  }

  ghost predicate BridgePage(p: Page, start: nat, limit: nat, tip: nat, span: nat) {
    && (p.fetchedCount >= limit || p.latestLedger == Some(tip))
    && p.nextCursor.Some? && p.nextCursor.value.Toid?
    && CursorEnd(p.nextCursor) == Min(tip, start + span - 1)
    && forall r :: r in p.events ==> Ledger(r.event) <= Min(tip, start + span - 1)
  }

  // The pages so far took the cursor here, and show nothing behind it.
  ghost predicate Reached(got: Fetched, to: int) {
    && got.last.nextCursor.Some? && got.last.nextCursor.value.Toid?
    && CursorEnd(got.last.nextCursor) == to
    && forall r :: r in got.events ==> Ledger(r.event) <= to
  }

  lemma {:induction false} PagesBridge(env: Env, own: nat, tip: nat, span: nat, first: FetchOptions, pageCount: nat,
                                       from: nat, got: Fetched)
    requires Bridges(env, own, tip, span) && span > 0 && first.limit > 0 && from <= tip + 1
    requires 1 <= pageCount <= 5 && !got.halted && Reached(got, Min(tip, from - 1 + pageCount * span))
    requires got.last.fetchedCount >= first.limit || got.last.latestLedger == Some(tip)
    ensures Reached(MorePages(env, first, pageCount, got), Min(tip, from - 1 + 5 * span))
    ensures !MorePages(env, first, pageCount, got).halted
    decreases 5 - pageCount
  {
    hide ToidLedger;
    Monotone(pageCount, 5, span);
    if pageCount < 5 && (got.last.fetchedCount >= first.limit || CursorEnd(got.last.nextCursor) < tip) {
      var o := NextFetch(first, got.last);
      var page := env.fetch(pageCount, o).value;
      assert BridgePage(page, StartOf(o, own), o.limit, tip, span);
      assert (pageCount + 1) * span == pageCount * span + span;
      PagesBridge(env, own, tip, span, first, pageCount + 1, from, Fetched(got.events + page.events, page, false));
    }
  }

  // On an opaque cursor, a completed run goes on through partial and empty pages: it takes the frontier
  // five times the span of a page further, or to the tip of the chain.
  lemma RunBridges(c: Codec, fails: (nat, nat) -> bool, db: Db, cfg: Config, env: Env, own: nat, tip: nat, span: nat)
    requires OnOpaqueCursor(db.state) && Frontier(db.state) <= tip
    requires Bridges(env, own, tip, span) && span > 0
    ensures var (db', o) := RunSync(c, fails, db, ForwardRequest(cfg), env);
            o.Completed? ==>
              && Frontier(db'.state) == Min(tip, Frontier(db.state) + 5 * span)
              && OnOpaqueCursor(db'.state)
              && db'.state.lastError == None
  {
    hide RunSync, MorePages, HighestOf, FirstFetch, StartOf, NextState, ToidLedger, Bridges;
    var st, req := db.state, ForwardRequest(cfg);
    var (db', o) := RunSync(c, fails, db, req, env);
    RunState(c, fails, db, req, env);
    OpaqueStart(st, cfg, own);
    if o.Completed? {
      var first := FirstFetch(st, req);
      LimitPositive(st, req);
      var got := FetchAll(env, first);
      FetchBridges(env, own, tip, span, first);
      HighestReached(got, Min(tip, Frontier(st) + 5 * span));
      FrontierAfter(st, Forward, got, o.counts.inserted, |db'.events|, env.now);
      NextCursor(st, Forward, got, o.counts.inserted, |db'.events|, env.now);
      NextError(st, Forward, got, o.counts.inserted, |db'.events|, env.now);
    }
  }

  lemma FetchBridges(env: Env, own: nat, tip: nat, span: nat, first: FetchOptions)
    requires Bridges(env, own, tip, span) && span > 0 && first.limit > 0 && 0 < StartOf(first, own) <= tip + 1
    ensures var got := FetchAll(env, first);
            Reached(got, Min(tip, StartOf(first, own) - 1 + 5 * span)) && !got.halted
  {
    hide MorePages, StartOf;
    var page := env.fetch(0, first).value;
    assert BridgePage(page, StartOf(first, own), first.limit, tip, span);
    PagesBridge(env, own, tip, span, first, 1, StartOf(first, own), Fetched(page.events, page, false));
  }

  lemma LimitPositive(st: IngestionState, req: SyncRequest)
    ensures FirstFetch(st, req).limit > 0
  {
  }

  lemma HighestReached(got: Fetched, to: nat)
    requires Reached(got, to)
    ensures OrMinusOne(HighestOf(got.events)) <= to
  {
    var h := HighestOf(got.events);
    if h.Some? {
      var r :| r in got.events && r.event.ledger == h;
    }
  }

  lemma NextError(st: IngestionState, mode: Mode, got: Fetched, inserted: nat, rows: nat, now: int)
    ensures NextState(st, mode, got, inserted, rows, now).lastError == None <==> !got.halted
  {
  }

  // ----- When a run stops

  // After a first page that is not full, and that shows no way to a later tip, nothing more is asked.
  lemma StopsAtTip(c: Codec, fails: (nat, nat) -> bool, db: Db, req: SyncRequest, env: Env, env': Env, p: Page)
    requires env.saveFails == env'.saveFails && env.now == env'.now
    requires var first := FirstFetch(db.state, req);
             env.fetch(0, first) == Done(p) && env'.fetch(0, first) == Done(p) && p.fetchedCount < first.limit
    requires || p.latestLedger.None? || p.nextCursor.None? || p.nextCursor.value.AtLedger?
             || (p.nextCursor.value.Toid? && CursorEnd(p.nextCursor) >= p.latestLedger.value)
    ensures RunSync(c, fails, db, req, env) == RunSync(c, fails, db, req, env')
  {
    hide FirstFetch, WriteAll, NextState;
  }

  // ----- What a run asks for

  // The end and the limit of a request are those of the whole run.
  ghost predicate SameAnswers(env: Env, env': Env, to: Option<nat>, limit: nat) {
    && env.saveFails == env'.saveFails && env.now == env'.now
    && forall i: nat, o: FetchOptions :: o.toLedger == to && o.limit == limit ==> env.fetch(i, o) == env'.fetch(i, o)
  }

  lemma {:induction false} PagesAsk(env: Env, env': Env, first: FetchOptions, pageCount: nat, got: Fetched)
    requires SameAnswers(env, env', first.toLedger, first.limit)
    ensures MorePages(env, first, pageCount, got) == MorePages(env', first, pageCount, got)
    decreases DEFAULT_LEADERBOARD_SYNC_MAX_PAGES - pageCount
  {
    if WantsMore(got.last, first.limit, pageCount) {
      var answer := env.fetch(pageCount, NextFetch(first, got.last));
      if answer.Done? {
        PagesAsk(env, env', first, pageCount + 1, Fetched(got.events + answer.value.events, answer.value, false));
      }
    }
  }

  // A run only depends on answers to requests with its own end and its own limit, between 1 and 1000.
  lemma RunAsks(c: Codec, fails: (nat, nat) -> bool, db: Db, req: SyncRequest, env: Env, env': Env)
    requires var first := FirstFetch(db.state, req); SameAnswers(env, env', first.toLedger, first.limit)
    ensures RunSync(c, fails, db, req, env) == RunSync(c, fails, db, req, env')
    ensures FirstFetch(db.state, req).limit ==
            if req.limit.None? then 200
            else if req.limit.value < 1 then 1 else if req.limit.value > 1000 then 1000 else req.limit.value
    ensures req.toLedger.None? ==> FirstFetch(db.state, req).toLedger.None?
    ensures req.mode.Backfill? ==> FirstFetch(db.state, req).toLedger == req.toLedger
  {
    hide MorePages, WriteAll, NextState;
    var first := FirstFetch(db.state, req);
    if env.fetch(0, first).Done? {
      var page := env.fetch(0, first).value;
      PagesAsk(env, env', first, 1, Fetched(page.events, page, false));
    }
  }

  // Requests with explicit bounds: a backfill asks for just these; a forward run keeps an explicit
  // start unless its cursor is stale; and a rewound run moves its end up to its start if necessary.
  lemma ManualRequests(st: IngestionState, req: SyncRequest)
    ensures var o := FirstFetch(st, req);
            var cursor := if req.cursor.Some? then req.cursor else st.cursor;
            && (req.mode.Backfill? ==>
                  o.cursor == req.cursor && o.fromLedger == req.fromLedger && o.toLedger == req.toLedger)
            && (req.mode.Forward? && req.fromLedger.Some? && (cursor.None? || cursor.value.AtLedger?) ==>
                  o.cursor == cursor && o.fromLedger == req.fromLedger && o.toLedger == req.toLedger)
            && (req.mode.Forward? && req.fromLedger.None? && cursor.None? && st.highestLedger.Some? ==>
                  var from := Max(2, st.highestLedger.value - 7999);
                  && o.cursor.None? && o.fromLedger == Some(from)
                  && o.toLedger == if req.toLedger.Some? then Some(Max(from, req.toLedger.value)) else None)
  {
  }

  // ----- A page that cannot be fetched

  // After a full page that is followed by a failed request, a forward run keeps what it has, continues
  // from there next time, and says so in its state.
  lemma HaltedRun(c: Codec, fails: (nat, nat) -> bool, db: Db, cfg: Config, env: Env, p: Page)
    requires var first := FirstFetch(db.state, ForwardRequest(cfg));
             && env.fetch(0, first) == Done(p) && p.fetchedCount >= first.limit && p.nextCursor.Some?
             && env.fetch(1, FetchOptions(p.nextCursor, None, first.toLedger, first.limit)).Failed?
    ensures var (db', o) := RunSync(c, fails, db, ForwardRequest(cfg), env);
            o.Completed? ==>
              && db'.state.cursor == p.nextCursor && db'.state.lastError.Some?
              && db'.state.provider == p.provider && db'.state.lastSyncedAt == Some(env.now)
              && WriteAll(c, fails, db.events, db.attempts, p.events).events == db'.events
  {
    hide WriteAll, FirstFetch, HighestOf;
    var first := FirstFetch(db.state, ForwardRequest(cfg));
    assert MorePages(env, first, 1, Fetched(p.events, p, false)) == Fetched(p.events, p, true);
  }
}
