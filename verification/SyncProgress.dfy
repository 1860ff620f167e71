// What runs achieve: the frontier only moves forward, forward runs catch up with the chain, and the
// stored total counts the rows.
module SyncProgress {
  import opened Basics
  import opened Store
  import opened Retry
  import opened Sync
  import opened SyncSafety
  import opened Anchors

  predicate OnOpaqueCursor(st: IngestionState) {
    st.cursor.Some? && st.cursor.value.Toid?
  }

  // The source answers with opaque cursors, and each passes at least the first ledger it was asked
  // for, as long as that ledger is closed.
  ghost predicate Advancing(ch: Chain, env: Env, own: nat) {
    forall i: nat, o :: env.fetch(i, o).Done? ==>
      var next := env.fetch(i, o).value.nextCursor;
      next.Some? && next.value.Toid? && CursorEnd(next) >= Min(StartOf(o, own), ch.tip)
  }

  lemma {:induction false} PagesAdvance(ch: Chain, env: Env, own: nat, first: FetchOptions, pageCount: nat,
                                        from: int, got: Fetched)
    requires Advancing(ch, env, own)
    requires got.last.nextCursor.Some? && got.last.nextCursor.value.Toid?
    requires CursorEnd(got.last.nextCursor) >= Min(from, ch.tip)
    ensures var next := MorePages(env, first, pageCount, got).last.nextCursor;
            next.Some? && next.value.Toid? && CursorEnd(next) >= Min(from, ch.tip)
    decreases DEFAULT_LEADERBOARD_SYNC_MAX_PAGES - pageCount
  {
    hide ToidLedger;
    if WantsMore(got.last, first.limit, pageCount) {
      var o := NextFetch(first, got.last);
      var answer := env.fetch(pageCount, o);
      if answer.Done? {
        PagesAdvance(ch, env, own, first, pageCount + 1, from,
                     Fetched(got.events + answer.value.events, answer.value, false));
      }
    }
  }

  lemma FetchAdvances(ch: Chain, env: Env, own: nat, first: FetchOptions)
    requires Advancing(ch, env, own) && env.fetch(0, first).Done?
    ensures var next := FetchAll(env, first).last.nextCursor;
            next.Some? && next.value.Toid? && CursorEnd(next) >= Min(StartOf(first, own), ch.tip)
  {
    hide StartOf, ToidLedger, MorePages;
    var page := env.fetch(0, first).value;
    PagesAdvance(ch, env, own, first, 1, StartOf(first, own), Fetched(page.events, page, false));
  }

  // On an opaque cursor a run starts right after the frontier, whether the cursor is stale or not.
  lemma OpaqueStart(st: IngestionState, cfg: Config, own: nat)
    requires OnOpaqueCursor(st)
    ensures StartOf(FirstFetch(st, ForwardRequest(cfg)), own) == Frontier(st) + 1
  {
    hide ToidLedger;
  }

  // A completed forward run reaches the tip of the chain or gets beyond the old frontier.
  lemma ForwardProgress(c: Codec, fails: (nat, nat) -> bool, w: World, s: Step)
    requires Safe(c, w) && OnOpaqueCursor(w.db.state)
    requires s.ForwardRun? && Allowed(w, s) && Advancing(w.chain, s.env, s.own)
    ensures var w' := Next(c, fails, w, s);
            && OnOpaqueCursor(w'.db.state)
            && (w'.completed == w.completed + 1 ==>
                  Frontier(w'.db.state) == w.chain.tip || Frontier(w'.db.state) > Frontier(w.db.state))
            && (w'.completed == w.completed ==> Frontier(w'.db.state) == Frontier(w.db.state))
  {
    hide RunSync, StartOf, FirstFetch, GoodSource, Advancing, FetchAll, HighestOf, Ids, NextState, ToidLedger, Faithful,
         ValidChain, Complete;
    var st, req := w.db.state, ForwardRequest(s.cfg);
    var (db', o) := RunSync(c, fails, w.db, req, s.env);
    StepSafe(c, fails, w, s);
    RunWrites(c, fails, w.chain, w.db, req, s.env, s.own);
    if o.Completed? {
      var first := FirstFetch(st, req);
      var got := FetchAll(s.env, first);
      FetchAdvances(w.chain, s.env, s.own, first);
      OpaqueStart(st, s.cfg, s.own);
      FrontierAfter(st, req.mode, got, o.counts.inserted, |db'.events|, s.env.now);
      NextCursor(st, req.mode, got, o.counts.inserted, |db'.events|, s.env.now);
    }
  }

  // Backfill never changes the forward cursor, and only raises the highest ledger.
  lemma CatchupKeepsCursor(c: Codec, fails: (nat, nat) -> bool, w: World, s: Step)
    requires s.CatchupRun?
    ensures var w' := Next(c, fails, w, s);
            && w'.db.state.cursor == w.db.state.cursor
            && w'.completed == w.completed
            && Frontier(w'.db.state) >= Frontier(w.db.state)
  {
    hide WriteAll, MorePages, FirstFetch, HighestOf, ToidLedger;
  }

  ghost predicate AllAdvancing(c: Codec, fails: (nat, nat) -> bool, w: World, steps: seq<Step>) {
    |steps| > 0 ==>
      var front, s := steps[..|steps| - 1], steps[|steps| - 1];
      && AllAdvancing(c, fails, w, front)
      && (s.ForwardRun? ==> Advancing(RunAll(c, fails, w, front).chain, s.env, s.own))
  }

  // The resume point never moves back, whatever fails and whatever is added to the chain.
  lemma {:induction false} NeverBack(c: Codec, fails: (nat, nat) -> bool, w: World, steps: seq<Step>)
    requires Safe(c, w) && OnOpaqueCursor(w.db.state)
    requires AllAllowed(c, fails, w, steps) && AllAdvancing(c, fails, w, steps)
    ensures var v := RunAll(c, fails, w, steps);
            Safe(c, v) && OnOpaqueCursor(v.db.state) && Frontier(v.db.state) >= Frontier(w.db.state)
  {
    hide Next, Allowed, Frontier, Advancing, Faithful, ValidChain, Complete;
    if |steps| == 0 {
    } else {
      var front, s := steps[..|steps| - 1], steps[|steps| - 1];
      NeverBack(c, fails, w, front);
      var v := RunAll(c, fails, w, front);
      StepSafe(c, fails, v, s);
      match s {
        case ForwardRun(_, _, _) =>
          ForwardProgress(c, fails, v, s);
          FrontierClosed(c, v);
          StepKeeps(c, fails, v, s);
        case CatchupRun(_, _, _) => CatchupKeepsCursor(c, fails, v, s);
        case RecordFailure(_) => StepKeeps(c, fails, v, s);
        case CloseLedgers(_) => CloseKeeps(c, fails, v, s);
      }
    }
  }

  lemma CloseKeeps(c: Codec, fails: (nat, nat) -> bool, w: World, s: Step)
    requires s.CloseLedgers?
    ensures Next(c, fails, w, s).db == w.db
  {
  }

  lemma FrontierClosed(c: Codec, w: World)
    requires Safe(c, w)
    ensures Frontier(w.db.state) <= w.chain.tip
  {
  }

  // Without new ledgers, every completed forward run is one ledger nearer to the tip at least.
  ghost predicate SameChainAdvancing(c: Codec, fails: (nat, nat) -> bool, w: World, steps: seq<Step>) {
    forall s :: s in steps ==>
      && !s.CloseLedgers?
      && (s.ForwardRun? ==> Advancing(w.chain, s.env, s.own))
  }

  lemma {:induction false} RunsCatchUp(c: Codec, fails: (nat, nat) -> bool, w: World, steps: seq<Step>)
    requires Safe(c, w) && OnOpaqueCursor(w.db.state)
    requires AllAllowed(c, fails, w, steps) && SameChainAdvancing(c, fails, w, steps)
    ensures var v := RunAll(c, fails, w, steps);
            && Safe(c, v)
            && v.chain == w.chain
            && v.first == w.first
            && v.completed >= w.completed
            && OnOpaqueCursor(v.db.state)
            && Frontier(v.db.state) >= Min(w.chain.tip, Frontier(w.db.state) + v.completed - w.completed)
            && Frontier(v.db.state) <= w.chain.tip
  {
    hide Next, Allowed, Frontier, Advancing, Faithful, ValidChain, Complete;
    if |steps| == 0 {
      FrontierClosed(c, w);
    } else {
      var front, s := steps[..|steps| - 1], steps[|steps| - 1];
      assert forall x :: x in front ==> x in steps;
      RunsCatchUp(c, fails, w, front);
      var v := RunAll(c, fails, w, front);
      StepSafe(c, fails, v, s);
      StepKeeps(c, fails, v, s);
      StepAnchors(c, fails, v, s);
      match s {
        case ForwardRun(_, _, _) => ForwardProgress(c, fails, v, s);
        case CatchupRun(_, _, _) => CatchupKeepsCursor(c, fails, v, s);
        case RecordFailure(_) =>
      }
    }
  }

  lemma StepKeeps(c: Codec, fails: (nat, nat) -> bool, w: World, s: Step)
    requires !s.CloseLedgers?
    ensures var w' := Next(c, fails, w, s);
            && w'.chain == w.chain
            && w.completed <= w'.completed <= w.completed + 1
            && (s.RecordFailure? ==> w'.completed == w.completed && w'.db.state.cursor == w.db.state.cursor &&
                                     Frontier(w'.db.state) == Frontier(w.db.state))
  {
    hide RunSync, FirstFetch, ToidLedger;
  }

  // After as many completed forward runs as ledgers were missing, the table holds every event of
  // the chain from the first scanned ledger on, and that ledger is still the same.
  lemma CaughtUp(c: Codec, fails: (nat, nat) -> bool, w: World, steps: seq<Step>, e: ScoreEvent)
    requires Safe(c, w) && OnOpaqueCursor(w.db.state)
    requires AllAllowed(c, fails, w, steps) && SameChainAdvancing(c, fails, w, steps)
    requires RunAll(c, fails, w, steps).completed - w.completed >= w.chain.tip - Frontier(w.db.state)
    requires e in w.chain.events && w.first <= Ledger(e)
    ensures Frontier(RunAll(c, fails, w, steps).db.state) == w.chain.tip
    ensures e.eventId in RunAll(c, fails, w, steps).db.events
  {
    hide RunAll, AllAllowed, SameChainAdvancing, Frontier, Faithful;
    RunsCatchUp(c, fails, w, steps);
  }

  // A fresh database gets onto an opaque cursor with its first completed run, and gains a ledger with
  // every other one.
  lemma {:induction false} FreshRunsCatchUp(c: Codec, fails: (nat, nat) -> bool, w0: World, steps: seq<Step>)
    requires Fresh(w0) && ValidChain(w0.chain)
    requires AllAllowed(c, fails, w0, steps) && SameChainAdvancing(c, fails, w0, steps)
    ensures var v := RunAll(c, fails, w0, steps);
            && Safe(c, v)
            && v.chain == w0.chain
            && (v.completed > 0 ==>
                  OnOpaqueCursor(v.db.state) && Frontier(v.db.state) >= Min(v.chain.tip, v.first + v.completed - 1))
  {
    hide Next, Allowed, Frontier, Advancing, Faithful, ValidChain, Complete;
    if |steps| == 0 {
      FreshSafe(c, w0);
    } else {
      var front, s := steps[..|steps| - 1], steps[|steps| - 1];
      assert forall x :: x in front ==> x in steps;
      FreshRunsCatchUp(c, fails, w0, front);
      var v := RunAll(c, fails, w0, front);
      StepSafe(c, fails, v, s);
      StepKeeps(c, fails, v, s);
      StepAnchors(c, fails, v, s);
      FrontierClosed(c, v);
      FrontierClosed(c, Next(c, fails, v, s));
      match s {
        case ForwardRun(_, _, _) =>
          if v.completed == 0 {
            FirstRun(c, fails, v, s);
          } else {
            ForwardProgress(c, fails, v, s);
          }
        case CatchupRun(_, _, _) => CatchupKeepsCursor(c, fails, v, s);
        case RecordFailure(_) =>
      }
    }
  }

  lemma FreshSafe(c: Codec, w0: World)
    requires Fresh(w0) && ValidChain(w0.chain)
    ensures Safe(c, w0)
  {
  }

  // The first run to complete leaves an opaque cursor that has passed the ledger it started from, if
  // that ledger is closed.
  lemma FirstRun(c: Codec, fails: (nat, nat) -> bool, w: World, s: Step)
    requires Safe(c, w) && w.completed == 0
    requires s.ForwardRun? && Advancing(w.chain, s.env, s.own)
    ensures var w' := Next(c, fails, w, s);
            w'.completed > 0 ==> OnOpaqueCursor(w'.db.state) && Frontier(w'.db.state) >= Min(w'.chain.tip, w'.first)
  {
    hide RunSync, StartOf, FirstFetch, Advancing, FetchAll, HighestOf, NextState, ToidLedger, Faithful, ValidChain,
         Complete;
    var st, req := w.db.state, ForwardRequest(s.cfg);
    var (db', o) := RunSync(c, fails, w.db, req, s.env);
    RunState(c, fails, w.db, req, s.env);
    if o.Completed? {
      var first := FirstFetch(st, req);
      var got := FetchAll(s.env, first);
      FetchAdvances(w.chain, s.env, s.own, first);
      NextCursor(st, req.mode, got, o.counts.inserted, |db'.events|, s.env.now);
    }
  }

  // From a fresh database, as many completed runs as the chain has ledgers from the first scanned one
  // on are enough to have every event from there in the table.
  lemma CaughtUpFromFresh(c: Codec, fails: (nat, nat) -> bool, w0: World, steps: seq<Step>, e: ScoreEvent)
    requires Fresh(w0) && ValidChain(w0.chain)
    requires AllAllowed(c, fails, w0, steps) && SameChainAdvancing(c, fails, w0, steps)
    requires var v := RunAll(c, fails, w0, steps); v.completed > 0 && v.first + v.completed > w0.chain.tip
    requires e in w0.chain.events && RunAll(c, fails, w0, steps).first <= Ledger(e)
    ensures Frontier(RunAll(c, fails, w0, steps).db.state) == w0.chain.tip
    ensures e.eventId in RunAll(c, fails, w0, steps).db.events
  {
    hide RunAll, AllAllowed, SameChainAdvancing, Frontier, Faithful;
    FreshRunsCatchUp(c, fails, w0, steps);
  }

  // ----- The stored total

  // Once a run has completed, the total falls short of the rows by exactly what failed runs inserted
  // since.
  ghost predicate Counted(w: World) {
    var st := w.db.state;
    if w.completed > 0 then st.lastSyncedAt.Some? && st.totalEvents >= 0 && st.totalEvents + w.missed == |w.db.events|
    else
      && st.cursor.None? && st.highestLedger.None? && st.lastSyncedAt.None?
      && st.totalEvents == 0 && w.missed == 0
  }

  // A completed run adds what it inserted, or recounts if the state has neither a total, nor a cursor,
  // nor a time of a former run.
  lemma TotalOfRun(c: Codec, fails: (nat, nat) -> bool, db: Db, req: SyncRequest, env: Env)
    ensures var st := db.state;
            var (db', o) := RunSync(c, fails, db, req, env);
            o.Completed? ==>
              db'.state.totalEvents ==
              if st.totalEvents <= 0 && st.cursor.None? && st.lastSyncedAt.None? then |db'.events|
              else Max(st.totalEvents, 0) + o.counts.inserted
  {
    hide WriteAll, MorePages, FirstFetch, HighestOf;
  }

  lemma StepCounted(c: Codec, fails: (nat, nat) -> bool, w: World, s: Step)
    requires Counted(w)
    ensures Counted(Next(c, fails, w, s))
  {
    hide WriteAll, MorePages, FirstFetch, HighestOf, Grown, Frontier, StartOf;
    if (s.ForwardRun? || s.CatchupRun?) && !(s.CatchupRun? && w.db.state.highestLedger.None?) {
      var req := RequestOf(w.db, s);
      var first := FirstFetch(w.db.state, req);
      if s.env.fetch(0, first).Done? {
        var got := FetchAll(s.env, first);
        WriteAllGrows(c, fails, w.db.events, w.db.attempts, got.events);
        var p := WriteAll(c, fails, w.db.events, w.db.attempts, got.events);
        GrownKeys(c, w.db.events, p.events, got.events);
        MoreKeys(w.db.events, p.events);
      }
    }
  }

  lemma MoreKeys(t: Table, t': Table)
    requires t.Keys <= t'.Keys
    ensures |t| <= |t'|
  {
    assert t'.Keys == t.Keys + (t'.Keys - t.Keys);
    assert |t'.Keys| == |t.Keys| + |t'.Keys - t.Keys|;
    assert |t| == |t.Keys| && |t'| == |t'.Keys|;
  }

  // In every reachable state the total is at most the number of rows; once a run has completed the two
  // are equal exactly when no later failed run inserted a row.
  lemma {:induction false} TotalsExact(c: Codec, fails: (nat, nat) -> bool, w0: World, steps: seq<Step>)
    requires Fresh(w0)
    ensures var w := RunAll(c, fails, w0, steps);
            && Counted(w)
            && w.db.state.totalEvents <= |w.db.events|
            && (w.completed > 0 ==> (w.db.state.totalEvents == |w.db.events| <==> w.missed == 0))
  {
    hide Next;
    if |steps| == 0 {
      FreshCounted(w0);
    } else {
      TotalsExact(c, fails, w0, steps[..|steps| - 1]);
      StepCounted(c, fails, RunAll(c, fails, w0, steps[..|steps| - 1]), steps[|steps| - 1]);
    }
  }

  lemma FreshCounted(w0: World)
    requires Fresh(w0)
    ensures Counted(w0)
  {
  }
}
