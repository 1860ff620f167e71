// One run of the leaderboard synchronisation, and the scheduled tick that makes one or two runs.
module Sync {
  import opened Basics
  import opened Store
  import opened Retry

  const DEFAULT_LEADERBOARD_SYNC_MAX_PAGES := 5
  const DEFAULT_LEADERBOARD_FORWARD_REPLAY_WINDOW_LEDGERS := 8000

  // ----- Requests and pages

  datatype Mode = Forward | Backfill

  datatype SyncRequest = SyncRequest(
    mode: Mode,
    cursor: Option<Cursor>,
    fromLedger: Option<nat>,
    toLedger: Option<nat>,
    limit: Option<int>)

  datatype FetchOptions = FetchOptions(
    cursor: Option<Cursor>,
    fromLedger: Option<nat>,
    toLedger: Option<nat>,
    limit: nat)

  datatype Page = Page(
    events: seq<Record>,
    nextCursor: Option<Cursor>,
    fetchedCount: nat,
    latestLedger: Option<nat>,
    provider: Source)

  // What the outside does during a run: the answer to each numbered fetch, whether the final
  // count or save fails, and the time.
  datatype Env = Env(fetch: (nat, FetchOptions) -> Attempt<Page>, saveFails: bool, now: int)

  datatype RunOutcome =
    | Completed(counts: Counts) | FetchFailed | WriteFailed(eventId: EventId) | SaveFailed

  // ----- Cursors

  function ParseLedgerCursor(cursor: Option<Cursor>): Option<nat> {
    match cursor
    case Some(AtLedger(n)) => Some(n)
    case Some(Digits(n)) => Some(n)
    case _ => None
  }

  function ToidLedger(toid: nat): nat { toid / TWO_32 }

  function ExtractLedgerFromOpaqueCursor(cursor: Option<Cursor>): Option<nat> {
    match cursor
    case Some(Digits(n)) => Some(ToidLedger(n))
    case Some(Toid(toid, _)) => Some(ToidLedger(toid))
    case _ => None
  }

  function OrElse<T>(a: Option<T>, b: Option<T>): Option<T> {
    if a.Some? then a else b
  }

  // ----- Where a run starts

  // The first fetch of a run. A cursor behind the highest known ledger is stale and dropped; without
  // an opaque cursor a forward run goes back a fixed window from what it knows.
  function FirstFetch(st: IngestionState, req: SyncRequest): FetchOptions {
    var limit := Min(Max(if req.limit.Some? then req.limit.value else 200, 1), 1000);
    if req.mode.Backfill? then
      FetchOptions(req.cursor, req.fromLedger, req.toLedger, limit)
    else
      var cursor := OrElse(req.cursor, st.cursor);
      var ledger := ParseLedgerCursor(cursor);
      var position := ExtractLedgerFromOpaqueCursor(cursor);
      if cursor.Some? && ledger.None? && st.highestLedger.Some? &&
         position.Some? && position.value <= st.highestLedger.value then
        FetchOptions(None, Some(st.highestLedger.value + 1), req.toLedger, limit)
      else
        var anchor := OrElse(st.highestLedger, ledger);
        if req.fromLedger.None? && !(cursor.Some? && ledger.None?) && anchor.Some? then
          var from := Max(2, anchor.value - DEFAULT_LEADERBOARD_FORWARD_REPLAY_WINDOW_LEDGERS + 1);
          FetchOptions(None, Some(from),
                       if req.toLedger.Some? then Some(Max(req.toLedger.value, from)) else None, limit)
        else
          FetchOptions(cursor, req.fromLedger, req.toLedger, limit)
  }

  // ----- The pages of a run

  // Another page follows a full one, and one that ends before the chain tip.
  predicate WantsMore(last: Page, limit: nat, pageCount: nat) {
    && pageCount < DEFAULT_LEADERBOARD_SYNC_MAX_PAGES
    && last.nextCursor.Some?
    && (last.fetchedCount >= limit ||
        (&& last.latestLedger.Some?
         && ExtractLedgerFromOpaqueCursor(last.nextCursor).Some?
         && ExtractLedgerFromOpaqueCursor(last.nextCursor).value < last.latestLedger.value))
  }

  function NextFetch(first: FetchOptions, last: Page): FetchOptions {
    FetchOptions(last.nextCursor, None, first.toLedger, first.limit)
  }

  datatype Fetched = Fetched(events: seq<Record>, last: Page, halted: bool)

  // All pages after the given last one; a failed fetch ends the list but not the run.
  function MorePages(env: Env, first: FetchOptions, pageCount: nat, got: Fetched): Fetched
    decreases DEFAULT_LEADERBOARD_SYNC_MAX_PAGES - pageCount
  {
    if !WantsMore(got.last, first.limit, pageCount) then got
    else
      match env.fetch(pageCount, NextFetch(first, got.last))
      case Failed => got.(halted := true)
      case Done(page) => MorePages(env, first, pageCount + 1, Fetched(got.events + page.events, page, false))
  }

  // ----- The state after a run

  function HighestOf(rs: seq<Record>): (h: Option<nat>)
    ensures forall r :: r in rs && r.event.ledger.Some? ==> h.Some? && r.event.ledger.value <= h.value
    ensures h.Some? ==> exists r :: r in rs && r.event.ledger == h
  {
    if |rs| == 0 then None
    else
      var rest, last := HighestOf(rs[..|rs| - 1]), rs[|rs| - 1].event.ledger;
      assert rs == rs[..|rs| - 1] + [rs[|rs| - 1]];
      if last.None? || (rest.Some? && rest.value >= last.value) then rest else last
  }

  predicate HasBaseline(st: IngestionState) {
    st.totalEvents > 0 || st.cursor.Some? || st.lastSyncedAt.Some?
  }

  function NextState(st: IngestionState, mode: Mode, got: Fetched, inserted: nat, rows: nat, now: int): IngestionState {
    var batch := HighestOf(got.events);
    IngestionState(
      got.last.provider,
      if mode.Forward? then got.last.nextCursor else st.cursor,
      if batch.Some? then Some(Max(if st.highestLedger.Some? then st.highestLedger.value else 0, batch.value))
      else st.highestLedger,
      Some(now),
      if mode.Backfill? then Some(now) else st.lastBackfillAt,
      if HasBaseline(st) then Max(st.totalEvents, 0) + inserted else rows,
      if got.halted then Some("pagination halted") else None)
  }

  // ----- The run as a whole

  datatype Db = Db(events: Table, attempts: nat, state: IngestionState)

  function RunSync(c: Codec, fails: (nat, nat) -> bool, db: Db, req: SyncRequest, env: Env): (Db, RunOutcome) {
    var first := FirstFetch(db.state, req);
    match env.fetch(0, first)
    case Failed => (db, FetchFailed)
    case Done(page) =>
      var got := MorePages(env, first, 1, Fetched(page.events, page, false));
      var p := WriteAll(c, fails, db.events, db.attempts, got.events);
      match p.outcome
      case StoppedAt(id) => (Db(p.events, p.attempts, db.state), WriteFailed(id))
      case AllWritten(counts) =>
        if env.saveFails then (Db(p.events, p.attempts, db.state), SaveFailed)
        else
          (Db(p.events, p.attempts, NextState(db.state, req.mode, got, counts.inserted, |p.events|, env.now)),
           Completed(counts))
  }

  function Snapshot(db: Database): Db
    reads db
  {
    Db(db.events, db.attempts, db.state)
  }

  method RunLeaderboardSync(db: Database, request: SyncRequest, env: Env) returns (r: RunOutcome)
    modifies db`events, db`attempts, db`state
    ensures (Snapshot(db), r) == RunSync(db.codec, db.fails, old(Snapshot(db)), request, env)
  {
    hide WriteAll, FirstFetch, NextState, HighestOf;
    var existingState := db.state;
    var first := ResolveFirstFetch(existingState, request);
    var answer := env.fetch(0, first);
    if answer.Failed? {
      return FetchFailed;
    }
    var allEvents, lastFetched, pageCount, halted := answer.value.events, answer.value, 1, false;
    ghost var goal := MorePages(env, first, 1, Fetched(allEvents, lastFetched, false));
    while !halted && WantsMore(lastFetched, first.limit, pageCount)
      invariant 1 <= pageCount <= DEFAULT_LEADERBOARD_SYNC_MAX_PAGES
      invariant goal == if halted then Fetched(allEvents, lastFetched, true)
                        else MorePages(env, first, pageCount, Fetched(allEvents, lastFetched, false))
      invariant Snapshot(db) == old(Snapshot(db))
      decreases !halted, DEFAULT_LEADERBOARD_SYNC_MAX_PAGES - pageCount
    {
      var next := env.fetch(pageCount, NextFetch(first, lastFetched));
      if next.Failed? {
        halted := true;
      } else {
        lastFetched := next.value;
        allEvents := allEvents + lastFetched.events;
        pageCount := pageCount + 1;
      }
    }
    var upsert := UpsertSafely(db, allEvents);
    if upsert.StoppedAt? {
      return WriteFailed(upsert.eventId);
    }
    if env.saveFails {
      return SaveFailed;
    }
    db.state := ComputeNextState(db, existingState, request.mode, allEvents, lastFetched, halted,
                                 upsert.counts.inserted, env.now);
    return Completed(upsert.counts);
  }

  // The cursor and ledger bounds are adjusted step by step.
  method ResolveFirstFetch(existingState: IngestionState, request: SyncRequest) returns (first: FetchOptions)
    ensures first == FirstFetch(existingState, request)
  {
    var persistedCursor := if request.mode.Forward? then OrElse(request.cursor, existingState.cursor) else None;
    var persistedCursorLedger := ParseLedgerCursor(persistedCursor);
    var effectiveCursor := if request.mode.Forward? then persistedCursor else request.cursor;
    var effectiveFromLedger := request.fromLedger;
    var effectiveToLedger := request.toLedger;

    if request.mode.Forward? && effectiveCursor.Some? && persistedCursorLedger.None? &&
       existingState.highestLedger.Some? {
      var cursorLedger := ExtractLedgerFromOpaqueCursor(effectiveCursor);
      if cursorLedger.Some? && cursorLedger.value <= existingState.highestLedger.value {
        effectiveCursor := None;
        effectiveFromLedger := Some(existingState.highestLedger.value + 1);
      }
    }
    var hasActiveOpaqueCursor := effectiveCursor.Some? && ParseLedgerCursor(effectiveCursor).None?;
    if request.mode.Forward? && effectiveFromLedger.None? && !hasActiveOpaqueCursor {
      var anchorLedger := OrElse(existingState.highestLedger, persistedCursorLedger);
      if anchorLedger.Some? {
        effectiveFromLedger :=
          Some(Max(2, anchorLedger.value - DEFAULT_LEADERBOARD_FORWARD_REPLAY_WINDOW_LEDGERS + 1));
        effectiveCursor := None;
        if effectiveToLedger.Some? && effectiveToLedger.value < effectiveFromLedger.value {
          effectiveToLedger := effectiveFromLedger;
        }
      }
    }
    var effectiveLimit := Min(Max(if request.limit.Some? then request.limit.value else 200, 1), 1000);
    first := FetchOptions(effectiveCursor, effectiveFromLedger, effectiveToLedger, effectiveLimit);
  }

  lemma HighestOfNothing()
    ensures HighestOf([]) == None
  {
  }

  lemma HighestOfOneMore(rs: seq<Record>, i: nat)
    requires i < |rs|
    ensures var rest, last := HighestOf(rs[..i]), rs[i].event.ledger;
            HighestOf(rs[..i + 1]) == if last.None? || (rest.Some? && rest.value >= last.value) then rest else last
  {
    assert rs[..i + 1][..i] == rs[..i];
  }

  method ComputeNextState(db: Database, existingState: IngestionState, mode: Mode, allEvents: seq<Record>,
                          lastFetched: Page, halted: bool, inserted: nat, now: int)
    returns (nextState: IngestionState)
    ensures nextState ==
            NextState(existingState, mode, Fetched(allEvents, lastFetched, halted), inserted, |db.events|, now)
  {
    hide HighestOf;
    HighestOfNothing();
    var totalEvents;
    if HasBaseline(existingState) {
      totalEvents := Max(existingState.totalEvents, 0) + inserted;
    } else {
      totalEvents := db.CountLeaderboardEvents();
    }
    var highestLedgerFromBatch: Option<nat> := None;
    for i := 0 to |allEvents|
      invariant highestLedgerFromBatch == HighestOf(allEvents[..i])
    {
      HighestOfOneMore(allEvents, i);
      var ledger := allEvents[i].event.ledger;
      if ledger.Some? && (highestLedgerFromBatch.None? || ledger.value > highestLedgerFromBatch.value) {
        highestLedgerFromBatch := ledger;
      }
    }
    assert allEvents[..|allEvents|] == allEvents;
    var newHighestLedger := existingState.highestLedger;
    if highestLedgerFromBatch.Some? {
      newHighestLedger := Some(Max(if existingState.highestLedger.Some? then existingState.highestLedger.value else 0,
                                   highestLedgerFromBatch.value));
    }
    nextState := IngestionState(
      lastFetched.provider,
      if mode.Forward? then lastFetched.nextCursor else existingState.cursor,
      newHighestLedger,
      Some(now),
      if mode.Backfill? then Some(now) else existingState.lastBackfillAt,
      totalEvents,
      if halted then Some("pagination halted") else None);
  }

  // ----- The scheduled tick

  datatype Config = Config(limit: int, catchupIntervalMinutes: nat, catchupWindowLedgers: nat)

  predicate ShouldRunCatchup(st: IngestionState, now: int, intervalMinutes: nat) {
    && intervalMinutes > 0
    && (st.lastBackfillAt.None? || now - st.lastBackfillAt.value >= intervalMinutes * 60000)
  }

  function ForwardRequest(cfg: Config): SyncRequest {
    SyncRequest(Forward, None, None, None, Some(cfg.limit))
  }

  // The window below the highest known ledger is read again.
  function CatchupRequest(cfg: Config, highest: nat): SyncRequest {
    SyncRequest(Backfill, None, Some(Max(2, highest - cfg.catchupWindowLedgers)), Some(highest), Some(cfg.limit))
  }

  datatype TickOutcome = Ticked(forward: RunOutcome, catchup: Option<RunOutcome>, warning: bool)

  predicate WantsCatchup(st: IngestionState, cfg: Config, scheduledTime: int) {
    cfg.catchupWindowLedgers > 0 && ShouldRunCatchup(st, scheduledTime, cfg.catchupIntervalMinutes)
  }

  function RunTick(c: Codec, fails: (nat, nat) -> bool, db: Db, cfg: Config, time: int, forward: Env, catchup: Env):
    (Db, TickOutcome)
  {
    var (db1, o1) := RunSync(c, fails, db, ForwardRequest(cfg), forward);
    if !o1.Completed? || !WantsCatchup(db1.state, cfg, time) then (db1, Ticked(o1, None, false))
    else if db1.state.highestLedger.None? then (db1, Ticked(o1, None, true))
    else
      var (db2, o2) := RunSync(c, fails, db1, CatchupRequest(cfg, db1.state.highestLedger.value), catchup);
      (db2, Ticked(o1, Some(o2), false))
  }

  method RunScheduledLeaderboardSync(db: Database, cfg: Config, scheduledTime: int, forwardEnv: Env, catchupEnv: Env)
    returns (r: TickOutcome)
    modifies db`events, db`attempts, db`state
    ensures (Snapshot(db), r) ==
            RunTick(db.codec, db.fails, old(Snapshot(db)), cfg, scheduledTime, forwardEnv, catchupEnv)
  {
    hide RunSync;
    var forward := RunLeaderboardSync(db, ForwardRequest(cfg), forwardEnv);
    if !forward.Completed? {
      return Ticked(forward, None, false);
    }
    if WantsCatchup(db.state, cfg, scheduledTime) {
      if db.state.highestLedger.None? {
        return Ticked(forward, None, true);
      }
      var catchup := RunLeaderboardSync(db, CatchupRequest(cfg, db.state.highestLedger.value), catchupEnv);
      return Ticked(forward, Some(catchup), false);
    }
    return Ticked(forward, None, false);
  }

  // A failed tick only leaves its message.
  method RecordLeaderboardSyncFailure(db: Database, message: string)
    modifies db`state
    ensures Snapshot(db) == old(Snapshot(db)).(state := old(db.state).(lastError := Some(message)))
  {
    db.state := db.state.(lastError := Some(message));
  }
}
