// Forward runs on ledger cursors. Each starts a fixed window behind what is known, so whether it gets
// anywhere depends on how many ledgers the pages of one run span.
module LedgerCursors {
  import opened Basics
  import opened Store
  import opened Retry
  import opened Sync
  import opened SyncSafety
  import opened Anchors

  // ----- Ledger cursors and their pages

  predicate OnLedgerCursor(st: IngestionState) {
    st.cursor.Some? ==> ParseLedgerCursor(st.cursor).Some?
  }

  // What a forward run continues from: the highest known ledger, else the ledger of the cursor.
  function Anchor(st: IngestionState): Option<nat> {
    OrElse(st.highestLedger, ParseLedgerCursor(st.cursor))
  }

  // Where it starts.
  function Rewound(anchor: nat): nat {
    Max(2, anchor - DEFAULT_LEADERBOARD_FORWARD_REPLAY_WINDOW_LEDGERS + 1)
  }

  function PageLimit(cfg: Config): nat {
    Min(Max(cfg.limit, 1), 1000)
  }

  lemma RewoundFetch(st: IngestionState, cfg: Config)
    requires OnLedgerCursor(st) && Anchor(st).Some?
    ensures FirstFetch(st, ForwardRequest(cfg)) ==
            FetchOptions(None, Some(Rewound(Anchor(st).value)), None, PageLimit(cfg))
  {
  }

  // The ledger that a request names.
  function Requested(o: FetchOptions): Option<nat> {
    if o.fromLedger.Some? then o.fromLedger else ParseLedgerCursor(o.cursor)
  }

  // Answers in the style of the data lake to requests without an end: a page ends at a ledger cursor,
  // at most `span` ledgers after its start, and shows events before that cursor only.
  ghost predicate LedgerPages(env: Env, limit: nat, span: nat) {
    forall i: nat, o ::
      env.fetch(i, o).Done? && Requested(o).Some? && o.toLedger.None? && o.limit == limit ==>
        LedgerPage(env.fetch(i, o).value, Max(2, Requested(o).value), span)
  }

  ghost predicate LedgerPage(p: Page, start: nat, span: nat) {
    && p.nextCursor.Some? && p.nextCursor.value.AtLedger?
    && start <= p.nextCursor.value.next <= start + span
    && forall r :: r in p.events ==> Ledger(r.event) < p.nextCursor.value.next
  }

  // The pages of one run, after so many of them.
  ghost predicate LedgerFetch(got: Fetched, from: nat, reach: nat) {
    && got.last.nextCursor.Some? && got.last.nextCursor.value.AtLedger?
    && from <= got.last.nextCursor.value.next <= from + reach
    && forall r :: r in got.events ==> Ledger(r.event) < got.last.nextCursor.value.next
  }

  lemma {:induction false} LedgerPagesEnd(env: Env, span: nat, first: FetchOptions, pageCount: nat, from: nat,
                                          got: Fetched)
    requires LedgerPages(env, first.limit, span) && first.toLedger.None? && from >= 2
    requires 1 <= pageCount <= DEFAULT_LEADERBOARD_SYNC_MAX_PAGES && LedgerFetch(got, from, pageCount * span)
    ensures LedgerFetch(MorePages(env, first, pageCount, got), from, DEFAULT_LEADERBOARD_SYNC_MAX_PAGES * span)
    decreases DEFAULT_LEADERBOARD_SYNC_MAX_PAGES - pageCount
  {
    Monotone(pageCount, DEFAULT_LEADERBOARD_SYNC_MAX_PAGES, span);
    if WantsMore(got.last, first.limit, pageCount) {
      var o := NextFetch(first, got.last);
      var answer := env.fetch(pageCount, o);
      if answer.Done? {
        assert (pageCount + 1) * span == pageCount * span + span;
        assert LedgerPage(answer.value, Max(2, Requested(o).value), span);
        LedgerPagesEnd(env, span, first, pageCount + 1, from,
                       Fetched(got.events + answer.value.events, answer.value, false));
      }
    }
  }

  // The new state after a run from a ledger cursor: the cursor lies between the start and the end of
  // its pages, and the highest ledger rises to below the cursor at most.
  ghost predicate LedgerRun(st: IngestionState, st': IngestionState, span: nat)
    requires Anchor(st).Some?
  {
    var from := Rewound(Anchor(st).value);
    && st'.cursor.Some? && st'.cursor.value.AtLedger?
    && from <= st'.cursor.value.next <= from + DEFAULT_LEADERBOARD_SYNC_MAX_PAGES * span
    && OrMinusOne(st.highestLedger) <= OrMinusOne(st'.highestLedger)
    && OrMinusOne(st'.highestLedger) <= Max(OrMinusOne(st.highestLedger), st'.cursor.value.next - 1)
  }

  lemma RunOfLedgerPages(c: Codec, fails: (nat, nat) -> bool, db: Db, cfg: Config, env: Env, span: nat)
    requires OnLedgerCursor(db.state) && Anchor(db.state).Some? && LedgerPages(env, PageLimit(cfg), span)
    ensures var (db', o) := RunSync(c, fails, db, ForwardRequest(cfg), env);
            if o.Completed? then LedgerRun(db.state, db'.state, span) else db'.state == db.state
  {
    hide RunSync, MorePages, HighestOf, FirstFetch, Rewound, NextState, FetchAll;
    var st, req := db.state, ForwardRequest(cfg);
    var (db', o) := RunSync(c, fails, db, req, env);
    RunState(c, fails, db, req, env);
    if o.Completed? {
      var from := Rewound(Anchor(st).value);
      var got := FetchAll(env, FirstFetch(st, req));
      RewoundFetch(st, cfg);
      RewoundStart(Anchor(st).value);
      FetchOfLedgerPages(env, span, FirstFetch(st, req), from);
      HighestBelowCursor(got);
      FrontierAfter(st, Forward, got, o.counts.inserted, |db'.events|, env.now);
      NextCursor(st, Forward, got, o.counts.inserted, |db'.events|, env.now);
    }
  }

  lemma RewoundStart(anchor: nat)
    ensures Rewound(anchor) >= 2
  {
  }

  lemma FetchOfLedgerPages(env: Env, span: nat, first: FetchOptions, from: nat)
    requires LedgerPages(env, first.limit, span) && first.toLedger.None? && first.fromLedger == Some(from) && from >= 2
    requires env.fetch(0, first).Done?
    ensures LedgerFetch(FetchAll(env, first), from, DEFAULT_LEADERBOARD_SYNC_MAX_PAGES * span)
  {
    hide MorePages;
    var page := env.fetch(0, first).value;
    assert LedgerPage(page, Max(2, Requested(first).value), span);
    LedgerPagesEnd(env, span, first, 1, from, Fetched(page.events, page, false));
  }

  lemma HighestBelowCursor(got: Fetched)
    requires got.last.nextCursor.Some? && got.last.nextCursor.value.AtLedger?
    requires forall r :: r in got.events ==> Ledger(r.event) < got.last.nextCursor.value.next
    ensures OrMinusOne(HighestOf(got.events)) < got.last.nextCursor.value.next
  {
    var h := HighestOf(got.events);
    if h.Some? {
      var r :| r in got.events && r.event.ledger == h;
    }
  }

  // ----- Sources that go as far, or as little, as such pages can

  // Full pages of `span` ledgers each, with at most one event among them.
  function FullPages(tip: nat, span: nat, event: Option<ScoreEvent>): Env {
    Env((i, o) => if NamesLedger(o) && Max(2, Requested(o).value) + span <= tip + 1
                  then Done(FullPage(Max(2, Requested(o).value), span, event)) else Failed,
        false, 0)
  }

  function FullPage(start: nat, span: nat, event: Option<ScoreEvent>): Page {
    Page(if event.Some? && start <= Ledger(event.value) < start + span then [Record(event.value, 0)] else [],
         Some(AtLedger(start + span)), 1000, None, Galexie)
  }

  // Pages that pass no ledger.
  function IdlePages(tip: nat): Env {
    Env((i, o) => if NamesLedger(o) && Max(2, Requested(o).value) <= tip + 1
                  then Done(IdlePage(Max(2, Requested(o).value))) else Failed,
        false, 0)
  }

  function IdlePage(start: nat): Page {
    Page([], Some(AtLedger(start)), 0, None, Galexie)
  }

  predicate NamesLedger(o: FetchOptions) {
    Requested(o).Some? && !(o.cursor.Some? && o.cursor.value.Toid?)
  }

  ghost predicate OneEventChain(ch: Chain, event: Option<ScoreEvent>) {
    ValidChain(ch) && ch.events == if event.Some? then {event.value} else {}
  }

  // The requested ledger is where the source starts, whatever start it would choose itself.
  lemma StartRequested(o: FetchOptions, own: nat)
    requires NamesLedger(o)
    ensures StartOf(o, own) == Requested(o).value
  {
  }

  lemma FullPageGood(ch: Chain, o: FetchOptions, own: nat, span: nat, event: Option<ScoreEvent>)
    requires OneEventChain(ch, event) && NamesLedger(o) && Max(2, Requested(o).value) + span <= ch.tip + 1
    ensures GoodPage(ch, o, own, FullPage(Max(2, Requested(o).value), span, event))
  {
    hide StartOf, HighestOf;
    StartRequested(o, own);
    var p := FullPage(Max(2, Requested(o).value), span, event);
    HighestBelowCursor(Fetched(p.events, p, false));
    forall e | e in ch.events && StartOf(o, own) <= Ledger(e) <= Reach(p.nextCursor, HighestOf(p.events))
      ensures Delivers(p.events, e)
    {
      assert p.events == [Record(e, 0)];
    }
  }

  lemma FullPagesGood(ch: Chain, own: nat, span: nat, event: Option<ScoreEvent>)
    requires OneEventChain(ch, event)
    ensures GoodSource(ch, FullPages(ch.tip, span, event), own)
  {
    hide GoodPage, FullPage, Requested;
    var env := FullPages(ch.tip, span, event);
    forall i: nat, o | env.fetch(i, o).Done?
      ensures GoodPage(ch, o, own, env.fetch(i, o).value)
    {
      FullPageGood(ch, o, own, span, event);
    }
  }

  lemma IdlePagesGood(ch: Chain, own: nat)
    requires ch.events == {}
    ensures GoodSource(ch, IdlePages(ch.tip), own)
  {
    hide StartOf;
    assert HighestOf([]) == None;
  }

  lemma IdlePagesAnswer(limit: nat, tip: nat, span: nat)
    ensures LedgerPages(IdlePages(tip), limit, span)
  {
  }

  lemma FullPagesAnswer(limit: nat, tip: nat, span: nat, event: Option<ScoreEvent>)
    ensures LedgerPages(FullPages(tip, span, event), limit, span)
  {
  }

  // One run reads five full pages.
  lemma {:induction false} FullPagesEnd(tip: nat, span: nat, event: Option<ScoreEvent>, first: FetchOptions,
                                        pageCount: nat, from: nat)
    requires 2 <= from && from + DEFAULT_LEADERBOARD_SYNC_MAX_PAGES * span <= tip + 1
    requires first.toLedger.None? && first.limit <= 1000
    requires 1 <= pageCount <= DEFAULT_LEADERBOARD_SYNC_MAX_PAGES
    requires span > 0 && (event.Some? ==> Ledger(event.value) == from + DEFAULT_LEADERBOARD_SYNC_MAX_PAGES * span - 1)
    ensures var page := FullPage(from + (pageCount - 1) * span, span, event);
            MorePages(FullPages(tip, span, event), first, pageCount, Fetched(page.events, page, false)) ==
            var last := FullPage(from + (DEFAULT_LEADERBOARD_SYNC_MAX_PAGES - 1) * span, span, event);
            Fetched(last.events, last, false)
    decreases DEFAULT_LEADERBOARD_SYNC_MAX_PAGES - pageCount
  {
    if pageCount == DEFAULT_LEADERBOARD_SYNC_MAX_PAGES {
    } else {
      var page := FullPage(from + (pageCount - 1) * span, span, event);
      var next := FullPage(from + pageCount * span, span, event);
      Monotone(pageCount + 1, DEFAULT_LEADERBOARD_SYNC_MAX_PAGES, span);
      assert (pageCount + 1) * span == pageCount * span + span;
      assert (pageCount - 1) * span + span == pageCount * span;
      assert page.events == [] && [] + next.events == next.events;
      FullPagesEnd(tip, span, event, first, pageCount + 1, from);
    }
  }

  // A run that meets such pages, and whose writes succeed.
  lemma FullRun(c: Codec, db: Db, cfg: Config, ch: Chain, span: nat, event: Option<ScoreEvent>)
    requires OnLedgerCursor(db.state) && Anchor(db.state).Some? && span > 0
    requires ch.tip == Rewound(Anchor(db.state).value) + DEFAULT_LEADERBOARD_SYNC_MAX_PAGES * span - 1
    requires event.Some? ==> Ledger(event.value) == ch.tip
    ensures var (db', o) := RunSync(c, (k, n) => false, db, ForwardRequest(cfg), FullPages(ch.tip, span, event));
            && o.Completed?
            && db'.state.cursor == Some(AtLedger(ch.tip + 1))
            && OrMinusOne(db'.state.highestLedger) ==
               Max(OrMinusOne(db.state.highestLedger), if event.Some? then ch.tip else -1)
  {
    hide FirstFetch, Rewound, WriteAll, MorePages, NextState, HighestOf, FullPages;
    var st, req, env := db.state, ForwardRequest(cfg), FullPages(ch.tip, span, event);
    var from, first := Rewound(Anchor(st).value), FirstFetch(st, req);
    RewoundFetch(st, cfg);
    RewoundStart(Anchor(st).value);
    FirstFullPage(ch.tip, span, event, first);
    assert from + (1 - 1) * span == from;
    FullPagesEnd(ch.tip, span, event, first, 1, from);
    var last := FullPage(from + (DEFAULT_LEADERBOARD_SYNC_MAX_PAGES - 1) * span, span, event);
    var got := Fetched(last.events, last, false);
    var p := WriteAll(c, (k, n) => false, db.events, db.attempts, last.events);
    AtMostOne(c, db.events, db.attempts, event);
    assert last.events == EventsIn(event);
    FrontierAfter(st, Forward, got, p.outcome.counts.inserted, |p.events|, env.now);
    NextCursor(st, Forward, got, p.outcome.counts.inserted, |p.events|, env.now);
  }

  function EventsIn(event: Option<ScoreEvent>): seq<Record> {
    if event.Some? then [Record(event.value, 0)] else []
  }

  lemma FirstFullPage(tip: nat, span: nat, event: Option<ScoreEvent>, first: FetchOptions)
    requires first.cursor.None? && first.fromLedger.Some? && first.fromLedger.value >= 2
    requires first.fromLedger.value + span <= tip + 1
    ensures FullPages(tip, span, event).fetch(0, first) == Done(FullPage(first.fromLedger.value, span, event))
    ensures !FullPages(tip, span, event).saveFails
  {
  }

  lemma AtMostOne(c: Codec, t: Table, k: nat, event: Option<ScoreEvent>)
    ensures WriteAll(c, (k, n) => false, t, k, EventsIn(event)).outcome.AllWritten?
    ensures OrMinusOne(HighestOf(EventsIn(event))) == if event.Some? then Ledger(event.value) else -1
  {
    hide BatchTable, BatchCounts, HighestOf;
    if event.Some? {
      WriteOne(c, t, k, Record(event.value, 0));
      HighestOfOne(Record(event.value, 0));
    } else {
      HighestOfNothing();
    }
  }

  lemma IdleRun(c: Codec, db: Db, cfg: Config, tip: nat)
    requires OnLedgerCursor(db.state) && Anchor(db.state).Some? && Rewound(Anchor(db.state).value) <= tip + 1
    ensures var (db', o) := RunSync(c, (k, n) => false, db, ForwardRequest(cfg), IdlePages(tip));
            && o.Completed?
            && db'.state.cursor == Some(AtLedger(Rewound(Anchor(db.state).value)))
            && db'.state.highestLedger == db.state.highestLedger
  {
    hide FirstFetch, Rewound, MorePages, IdlePages;
    var st, first := db.state, FirstFetch(db.state, ForwardRequest(cfg));
    RewoundFetch(st, cfg);
    RewoundStart(Anchor(st).value);
    IdleAnswer(tip, first);
    HighestOfNothing();
  }

  lemma IdleAnswer(tip: nat, first: FetchOptions)
    requires first.cursor.None? && first.fromLedger.Some? && 2 <= first.fromLedger.value <= tip + 1 && first.limit > 0
    ensures IdlePages(tip).fetch(0, first) == Done(IdlePage(first.fromLedger.value))
    ensures !IdlePages(tip).saveFails
    ensures MorePages(IdlePages(tip), first, 1, Fetched([], IdlePage(first.fromLedger.value), false)) ==
            Fetched([], IdlePage(first.fromLedger.value), false)
  {
  }

  // ----- When a run passes its anchor

  // A run on such a source, which is good for some chain, completes and continues from further on.
  ghost predicate Passes(c: Codec, fails: (nat, nat) -> bool, ch: Chain, db: Db, cfg: Config, env: Env, own: nat,
                         span: nat)
  {
    var (db', o) := RunSync(c, fails, db, ForwardRequest(cfg), env);
    && ValidChain(ch) && GoodSource(ch, env, own) && LedgerPages(env, PageLimit(cfg), span)
    && o.Completed? && Anchor(db.state).Some? && Anchor(db'.state).Some?
    && Anchor(db'.state).value > Anchor(db.state).value
  }

  // The pages of a run have to span more than the replay window. An event can only be new behind the
  // highest ledger; a cursor alone has to be passed.
  predicate CanPass(st: IngestionState, span: nat)
    requires Anchor(st).Some?
  {
    var anchor := Anchor(st).value;
    Rewound(anchor) + DEFAULT_LEADERBOARD_SYNC_MAX_PAGES * span > if st.highestLedger.Some? then anchor + 1 else anchor
  }

  lemma PassesExactly(c: Codec, db: Db, cfg: Config, span: nat)
    requires OnLedgerCursor(db.state) && Anchor(db.state).Some? && span > 0
    ensures (exists fails, ch, env, own :: Passes(c, fails, ch, db, cfg, env, own, span)) <==> CanPass(db.state, span)
  {
    hide RunSync, Rewound, GoodSource, LedgerPages;
    var st := db.state;
    if fails, ch, env, own :| Passes(c, fails, ch, db, cfg, env, own, span) {
      RunOfLedgerPages(c, fails, db, cfg, env, span);
    }
    if CanPass(st, span) {
      RewoundStart(Anchor(st).value);
      var tip: nat := Rewound(Anchor(st).value) + DEFAULT_LEADERBOARD_SYNC_MAX_PAGES * span - 1;
      var event := if st.highestLedger.Some?
        then Some(ScoreEvent("1", "", 0, None, 0, 0, 0, 0, None, None, Some(tip), 0, Galexie)) else None;
      var ch := Chain(tip, if event.Some? then {event.value} else {});
      FullPagesGood(ch, 2, span, event);
      FullPagesAnswer(PageLimit(cfg), tip, span, event);
      FullRun(c, db, cfg, ch, span, event);
      assert Passes(c, (k, n) => false, ch, db, cfg, FullPages(tip, span, event), 2, span);
    }
  }

  // ----- When the frontier moves back

  // A completed run on such a source, which is good for some chain, with the frontier after it.
  ghost predicate RunsTo(c: Codec, fails: (nat, nat) -> bool, ch: Chain, db: Db, cfg: Config, env: Env, own: nat,
                         span: nat, frontier: int)
  {
    var (db', o) := RunSync(c, fails, db, ForwardRequest(cfg), env);
    && ValidChain(ch) && GoodSource(ch, env, own) && LedgerPages(env, PageLimit(cfg), span)
    && o.Completed? && Frontier(db'.state) == frontier
  }

  // A run can move the frontier back exactly when a cursor reaches beyond the highest ledger and
  // beyond the start of the run; it can leave or raise it exactly when the highest ledger or the end
  // of its pages reaches as far.
  lemma MovesBackExactly(c: Codec, db: Db, cfg: Config, span: nat)
    requires OnLedgerCursor(db.state) && Anchor(db.state).Some? && span > 0
    ensures var st, from := db.state, Rewound(Anchor(db.state).value);
            (exists fails, ch, env, own, f ::
               RunsTo(c, fails, ch, db, cfg, env, own, span, f) && f < Frontier(st)) <==>
            Max(OrMinusOne(st.highestLedger), from - 1) < Frontier(st)
    ensures var st, from := db.state, Rewound(Anchor(db.state).value);
            (exists fails, ch, env, own, f ::
               RunsTo(c, fails, ch, db, cfg, env, own, span, f) && f >= Frontier(st)) <==>
            Frontier(st) <= Max(OrMinusOne(st.highestLedger), from + DEFAULT_LEADERBOARD_SYNC_MAX_PAGES * span - 1)
  {
    hide RunSync, Rewound, LedgerPages, GoodSource;
    var st, from := db.state, Rewound(Anchor(db.state).value);
    forall fails, ch, env, own, f | RunsTo(c, fails, ch, db, cfg, env, own, span, f)
      ensures Max(OrMinusOne(st.highestLedger), from - 1) <= f
      ensures f <= Max(OrMinusOne(st.highestLedger), from + DEFAULT_LEADERBOARD_SYNC_MAX_PAGES * span - 1)
    {
      RunOfLedgerPages(c, fails, db, cfg, env, span);
    }
    RewoundStart(Anchor(st).value);
    var tip: nat := from + DEFAULT_LEADERBOARD_SYNC_MAX_PAGES * span - 1;
    var ch := Chain(tip, {});
    IdleRun(c, db, cfg, tip);
    IdlePagesAnswer(PageLimit(cfg), tip, span);
    IdlePagesGood(ch, 2);
    FullRun(c, db, cfg, ch, span, None);
    FullPagesAnswer(PageLimit(cfg), tip, span, None);
    FullPagesGood(ch, 2, span, None);
    assert RunsTo(c, (k, n) => false, ch, db, cfg, IdlePages(tip), 2, span,
                  Max(OrMinusOne(st.highestLedger), from - 1));
    assert RunsTo(c, (k, n) => false, ch, db, cfg, FullPages(tip, span, None), 2, span,
                  Max(OrMinusOne(st.highestLedger), tip));
  }

  // For example, pages of 200 ledgers from the cursor at ledger 9500 take the frontier from 9499 back
  // to a highest ledger of 9000, and below 2501 if none is known.
  lemma MovesBackExample(c: Codec, fails: (nat, nat) -> bool, db: Db, cfg: Config, env: Env)
    requires db.state.cursor == Some(AtLedger(9500)) && LedgerPages(env, PageLimit(cfg), 200)
    requires RunSync(c, fails, db, ForwardRequest(cfg), env).1.Completed?
    ensures var after := Frontier(RunSync(c, fails, db, ForwardRequest(cfg), env).0.state);
            && (db.state.highestLedger == Some(9000) ==> Frontier(db.state) == 9499 && after == 9000)
            && (db.state.highestLedger == None ==> Frontier(db.state) == 9499 && after <= 2500)
  {
    hide RunSync, LedgerPages;
    RunOfLedgerPages(c, fails, db, cfg, env, 200);
  }

  // ----- Whole histories that do not get on

  // Catch-up pages show nothing behind the requested end or, if later, the start.
  ghost predicate CatchupPages(env: Env) {
    forall i: nat, o :: env.fetch(i, o).Done? && Requested(o).Some? && o.toLedger.Some? ==>
      CatchupPage(env.fetch(i, o).value, Max(Max(2, Requested(o).value), o.toLedger.value))
  }

  ghost predicate CatchupPage(p: Page, end: int) {
    && p.nextCursor.Some? && p.nextCursor.value.AtLedger?
    && forall r :: r in p.events ==> Ledger(r.event) <= end
  }

  // A full first page: the run goes on behind its end, a page of one ledger at a time.
  predicate FullCatchup(db: Db, cfg: Config, env: Env)
    requires db.state.highestLedger.Some?
  {
    var first := FirstFetch(db.state, CatchupRequest(cfg, db.state.highestLedger.value));
    env.fetch(0, first).Done? && env.fetch(0, first).value.fetchedCount >= first.limit
  }

  // A catch-up run does not raise the highest ledger, unless its first page is full.
  lemma CatchupStays(c: Codec, fails: (nat, nat) -> bool, db: Db, cfg: Config, env: Env)
    requires CatchupPages(env) && db.state.highestLedger.Some? && !FullCatchup(db, cfg, env)
    ensures var h := db.state.highestLedger.value;
            var db' := RunSync(c, fails, db, CatchupRequest(cfg, h), env).0;
            && db'.state.cursor == db.state.cursor
            && db'.state.highestLedger.Some? && h <= db'.state.highestLedger.value <= Max(2, h)
  {
    hide WriteAll, HighestOf, MorePages;
    var st, req := db.state, CatchupRequest(cfg, db.state.highestLedger.value);
    var first := FirstFetch(st, req);
    if env.fetch(0, first).Done? {
      var page := env.fetch(0, first).value;
      assert CatchupPage(page, Max(Max(2, Requested(first).value), first.toLedger.value));
      SinglePage(env, first, page);
      HighestAtMost(page.events, Max(2, st.highestLedger.value));
    }
  }

  // After a full page up to some ledger, a page with an event of the next one.
  function BeyondPages(event: ScoreEvent, next: nat): Env {
    Env((i, o) => if i == 0 then Done(FullPage(next, 0, None))
                  else if NamesLedger(o) && Requested(o).value == next then Done(BeyondPage(event, next))
                  else Failed,
        false, 0)
  }

  function BeyondPage(event: ScoreEvent, next: nat): Page {
    Page([Record(event, 0)], Some(AtLedger(next + 1)), 0, None, Galexie)
  }

  // With a full first page it can.
  lemma FullCatchupRaises(c: Codec, db: Db, cfg: Config, event: ScoreEvent)
    requires db.state.highestLedger.Some? && event.ledger == Some(db.state.highestLedger.value + 1)
    ensures var h := db.state.highestLedger.value;
            var env := BeyondPages(event, h + 1);
            var (db', o) := RunSync(c, (k, n) => false, db, CatchupRequest(cfg, h), env);
            && CatchupPages(env) && FullCatchup(db, cfg, env)
            && o.Completed? && db'.state.highestLedger == Some(h + 1)
  {
    hide WriteAll, HighestOf;
    var h := db.state.highestLedger.value;
    var env := BeyondPages(event, h + 1);
    var first := FirstFetch(db.state, CatchupRequest(cfg, h));
    var full, last := FullPage(h + 1, 0, None), BeyondPage(event, h + 1);
    var o := NextFetch(first, full);
    assert NamesLedger(o) && Requested(o).value == h + 1;
    assert env.fetch(1, o) == Done(last);
    assert [] + last.events == last.events;
    assert MorePages(env, first, 2, Fetched(last.events, last, false)) == Fetched(last.events, last, false);
    assert MorePages(env, first, 1, Fetched([], full, false)) == Fetched(last.events, last, false);
    AtMostOne(c, db.events, db.attempts, Some(event));
    assert EventsIn(Some(event)) == last.events;
  }

  lemma SinglePage(env: Env, first: FetchOptions, page: Page)
    requires page.fetchedCount < first.limit && page.nextCursor.Some? && page.nextCursor.value.AtLedger?
    ensures MorePages(env, first, 1, Fetched(page.events, page, false)) == Fetched(page.events, page, false)
  {
  }

  lemma HighestAtMost(rs: seq<Record>, to: nat)
    requires forall r :: r in rs ==> Ledger(r.event) <= to
    ensures OrMinusOne(HighestOf(rs)) <= to
  {
    var h := HighestOf(rs);
    if h.Some? {
      var r :| r in rs && r.event.ledger == h;
    }
  }

  // Forward runs on ledger pages, catch-up runs on catch-up pages that are not full.
  ghost predicate LedgerSteps(steps: seq<Step>, limit: nat, span: nat) {
    forall s :: s in steps ==>
      && (s.ForwardRun? ==> PageLimit(s.cfg) == limit && LedgerPages(s.env, limit, span))
      && (s.CatchupRun? ==> CatchupPages(s.env) && NoFullPage(s.env))
  }

  ghost predicate NoFullPage(env: Env) {
    forall i: nat, o :: env.fetch(i, o).Done? ==> env.fetch(i, o).value.fetchedCount < o.limit
  }

  // If the pages of a run cannot pass the highest ledger, no number of runs ever raises it, however
  // far the chain grows.
  lemma {:induction false} LedgerCursorStalls(c: Codec, fails: (nat, nat) -> bool, w: World, steps: seq<Step>,
                                              limit: nat, span: nat)
    requires LedgerSteps(steps, limit, span) && span > 0
    requires OnLedgerCursor(w.db.state) && w.db.state.highestLedger.Some? && !CanPass(w.db.state, span)
    ensures var v := RunAll(c, fails, w, steps);
            OnLedgerCursor(v.db.state) && v.db.state.highestLedger == w.db.state.highestLedger
    decreases |steps|
  {
    hide RunSync, LedgerPages, CatchupPages, FirstFetch;
    if |steps| == 0 {
    } else {
      var front, s := steps[..|steps| - 1], steps[|steps| - 1];
      assert s in steps && forall x :: x in front ==> x in steps;
      LedgerCursorStalls(c, fails, w, front, limit, span);
      var v := RunAll(c, fails, w, front);
      if s.ForwardRun? {
        RunOfLedgerPages(c, fails, v.db, s.cfg, s.env, span);
      } else if s.CatchupRun? {
        CatchupStays(c, fails, v.db, s.cfg, s.env);
      }
    }
  }

  // While no event was seen, the cursor is what runs continue from. It does not get beyond a ledger
  // whose replay window the pages of a run cannot span, and neither does an event.
  lemma {:induction false} LedgerAnchorBounded(c: Codec, fails: (nat, nat) -> bool, w: World, steps: seq<Step>,
                                               limit: nat, span: nat, bound: nat)
    requires LedgerSteps(steps, limit, span) && span > 0
    requires OnLedgerCursor(w.db.state) && Anchor(w.db.state).Some? && Anchor(w.db.state).value <= bound
    requires Rewound(bound) + DEFAULT_LEADERBOARD_SYNC_MAX_PAGES * span <= bound
    ensures var v := RunAll(c, fails, w, steps);
            OnLedgerCursor(v.db.state) && Anchor(v.db.state).Some? && Anchor(v.db.state).value <= bound
    decreases |steps|
  {
    hide RunSync, LedgerPages, CatchupPages, FirstFetch;
    if |steps| == 0 {
    } else {
      var front, s := steps[..|steps| - 1], steps[|steps| - 1];
      assert s in steps && forall x :: x in front ==> x in steps;
      LedgerAnchorBounded(c, fails, w, front, limit, span, bound);
      var v := RunAll(c, fails, w, front);
      if s.ForwardRun? {
        RunOfLedgerPages(c, fails, v.db, s.cfg, s.env, span);
      } else if s.CatchupRun? && v.db.state.highestLedger.Some? {
        CatchupStays(c, fails, v.db, s.cfg, s.env);
      }
    }
  }
}
