// Where forward runs continue from. A state that has neither a cursor nor a highest ledger leaves the
// start to the source, and then ledgers can be skipped for good.
module Anchors {
  import opened Basics
  import opened Store
  import opened Retry
  import opened Sync
  import opened SyncSafety

  const DEFAULT_CONFIG := Config(200, 30, 0)

  // ----- States that stay anchored

  // A source that always answers with a cursor.
  ghost predicate GivesCursors(env: Env) {
    forall i: nat, o :: env.fetch(i, o).Done? ==> env.fetch(i, o).value.nextCursor.Some?
  }

  ghost predicate AllGiveCursors(steps: seq<Step>) {
    forall s :: s in steps && s.ForwardRun? ==> GivesCursors(s.env)
  }

  lemma {:induction false} LastCursor(env: Env, first: FetchOptions, pageCount: nat, got: Fetched)
    requires GivesCursors(env) && got.last.nextCursor.Some?
    ensures MorePages(env, first, pageCount, got).last.nextCursor.Some?
    decreases DEFAULT_LEADERBOARD_SYNC_MAX_PAGES - pageCount
  {
    if WantsMore(got.last, first.limit, pageCount) {
      var answer := env.fetch(pageCount, NextFetch(first, got.last));
      if answer.Done? {
        LastCursor(env, first, pageCount + 1, Fetched(got.events + answer.value.events, answer.value, false));
      }
    }
  }

  // What a run does to the state: nothing, or the next state of what it fetched.
  lemma RunState(c: Codec, fails: (nat, nat) -> bool, db: Db, req: SyncRequest, env: Env)
    ensures var (db', o) := RunSync(c, fails, db, req, env);
            && (!o.Completed? ==> db'.state == db.state)
            && (o.Completed? ==>
                  && env.fetch(0, FirstFetch(db.state, req)).Done?
                  && db'.state == NextState(db.state, req.mode, FetchAll(env, FirstFetch(db.state, req)),
                                            o.counts.inserted, |db'.events|, env.now))
  {
    hide WriteAll, MorePages, FirstFetch, NextState;
  }

  // A highest ledger is never forgotten, and a run on a source that gives cursors leaves one.
  lemma StepAnchors(c: Codec, fails: (nat, nat) -> bool, w: World, s: Step)
    ensures var w' := Next(c, fails, w, s);
            && (w.db.state.highestLedger.Some? ==> w'.db.state.highestLedger.Some?)
            && w.completed <= w'.completed
            && (w.completed > 0 ==> w'.first == w.first)
            && ((s.ForwardRun? ==> GivesCursors(s.env)) && (w.completed > 0 ==> Anchored(w.db.state)) ==>
                  (w'.completed > 0 ==> Anchored(w'.db.state)))
  {
    hide RunSync, FirstFetch, HighestOf, GivesCursors, StartOf;
    if (s.ForwardRun? || s.CatchupRun?) && !(s.CatchupRun? && w.db.state.highestLedger.None?) {
      var req := RequestOf(w.db, s);
      var first := FirstFetch(w.db.state, req);
      RunState(c, fails, w.db, req, s.env);
      if s.ForwardRun? && GivesCursors(s.env) && s.env.fetch(0, first).Done? {
        CursorFetched(s.env, first);
      }
    }
  }

  lemma CursorFetched(env: Env, first: FetchOptions)
    requires GivesCursors(env) && env.fetch(0, first).Done?
    ensures FetchAll(env, first).last.nextCursor.Some?
  {
    hide MorePages;
    var page := env.fetch(0, first).value;
    LastCursor(env, first, 1, Fetched(page.events, page, false));
  }

  // With such a source every step of every history from a fresh database is anchored, and the first
  // scanned ledger never changes.
  lemma {:induction false} CursorsAnchor(c: Codec, fails: (nat, nat) -> bool, w: World, steps: seq<Step>)
    requires w.completed > 0 ==> Anchored(w.db.state)
    requires AllGiveCursors(steps)
    ensures AllAnchored(c, fails, w, steps)
    ensures var v := RunAll(c, fails, w, steps);
            && w.completed <= v.completed
            && (v.completed > 0 ==> Anchored(v.db.state))
            && (w.completed > 0 ==> v.first == w.first)
    decreases |steps|
  {
    hide Next, GivesCursors, Anchored;
    if |steps| == 0 {
    } else {
      var front, s := steps[..|steps| - 1], steps[|steps| - 1];
      assert s in steps && forall x :: x in front ==> x in steps;
      CursorsAnchor(c, fails, w, front);
      StepAnchors(c, fails, RunAll(c, fails, w, front), s);
    }
  }

  // Once an event was seen, every step is anchored, whatever the source answers.
  lemma {:induction false} SeenAnchors(c: Codec, fails: (nat, nat) -> bool, w: World, steps: seq<Step>)
    requires w.db.state.highestLedger.Some?
    ensures AllAnchored(c, fails, w, steps)
    ensures RunAll(c, fails, w, steps).db.state.highestLedger.Some?
    decreases |steps|
  {
    hide Next;
    if |steps| == 0 {
    } else {
      var front, s := steps[..|steps| - 1], steps[|steps| - 1];
      SeenAnchors(c, fails, w, front);
      StepAnchors(c, fails, RunAll(c, fails, w, front), s);
    }
  }

  // ----- Sources with nothing to show

  // Answers every request that starts above some ledger with an empty last page and a cursor.
  function Silent(own: nat, above: int, cursor: Option<Cursor>): Env {
    Env((i, o) => if StartOf(o, own) > above then Done(SilentPage(cursor)) else Failed, false, 0)
  }

  function SilentPage(cursor: Option<Cursor>): Page {
    Page([], cursor, 0, None, Rpc)
  }

  lemma SilentGood(ch: Chain, own: nat, above: int, cursor: Option<Cursor>)
    requires cursor.Some? ==> !cursor.value.Token?
    requires CursorEnd(cursor) <= ch.tip
    requires forall e :: e in ch.events ==> !(above < Ledger(e) <= CursorEnd(cursor))
    ensures GoodSource(ch, Silent(own, above, cursor), own)
  {
    hide StartOf, CursorEnd;
    assert HighestOf([]) == None;
  }

  lemma SilentFetch(own: nat, above: int, cursor: Option<Cursor>, first: FetchOptions)
    requires StartOf(first, own) > above && first.limit > 0
    ensures FetchAll(Silent(own, above, cursor), first) == Fetched([], SilentPage(cursor), false)
  {
    hide StartOf;
  }

  // A run on such a source completes, keeps the table and the highest ledger, and takes the cursor.
  lemma SilentRun(c: Codec, fails: (nat, nat) -> bool, w: World, cfg: Config, own: nat, above: int,
                  cursor: Option<Cursor>)
    requires StartOf(FirstFetch(w.db.state, ForwardRequest(cfg)), own) > above
    ensures var v := Next(c, fails, w, ForwardRun(cfg, Silent(own, above, cursor), own));
            && v.chain == w.chain
            && v.completed == w.completed + 1
            && v.db.events == w.db.events
            && v.db.state.cursor == cursor
            && v.db.state.highestLedger == w.db.state.highestLedger
            && v.first ==
               if w.completed == 0 then StartOf(FirstFetch(w.db.state, ForwardRequest(cfg)), own) else w.first
  {
    hide StartOf, Silent, MorePages;
    var first := FirstFetch(w.db.state, ForwardRequest(cfg));
    SilentFetch(own, above, cursor, first);
    SilentAnswer(own, above, cursor, first);
    assert HighestOf([]) == None;
  }

  lemma SilentAnswer(own: nat, above: int, cursor: Option<Cursor>, first: FetchOptions)
    requires StartOf(first, own) > above
    ensures Silent(own, above, cursor).fetch(0, first) == Done(SilentPage(cursor))
    ensures !Silent(own, above, cursor).saveFails
  {
    hide StartOf;
  }

  lemma HighestOfOne(r: Record)
    ensures HighestOf([r]) == r.event.ledger
  {
    assert HighestOf([r][..0]) == None;
  }

  function ToidOf(ledger: nat): Cursor {
    Toid(ledger * TWO_32, 0)
  }

  lemma ToidOfLedger(ledger: nat)
    ensures ToidOf(ledger).Toid? && CursorEnd(Some(ToidOf(ledger))) == ledger
  {
  }

  // The ledger of an opaque cursor is in its upper bits, and so it is in a number without an index.
  lemma LedgerOfToid(ledger: nat, rest: nat, index: nat)
    requires rest < 0x1_0000_0000
    ensures ExtractLedgerFromOpaqueCursor(Some(Toid(ledger * 0x1_0000_0000 + rest, index))) == Some(ledger)
    ensures ExtractLedgerFromOpaqueCursor(Some(Digits(ledger * 0x1_0000_0000 + rest))) == Some(ledger)
  {
  }

  // ----- What is lost without an anchor

  // An empty page with a cursor, an empty page without one, and an empty page from a later start: the
  // event between was to be scanned, lies behind the frontier, and is not in the table.
  lemma LostWithoutAnchor(c: Codec, fails: (nat, nat) -> bool, e: ScoreEvent)
    requires e.ledger == Some(5000) && e.finalScore >= 0
    ensures var w0 := World(Chain(100000, {e}), Db(map[], 0, FRESH_STATE), 0, 0, 0);
            var steps := [ForwardRun(DEFAULT_CONFIG, Silent(2, -1, Some(ToidOf(100))), 2),
                          ForwardRun(DEFAULT_CONFIG, Silent(2, -1, None), 2),
                          ForwardRun(DEFAULT_CONFIG, Silent(90000, 5000, Some(ToidOf(100000))), 90000)];
            var w := RunAll(c, fails, w0, steps);
            && Fresh(w0) && ValidChain(w0.chain) && AllAllowed(c, fails, w0, steps)
            && w.first == 2 && Frontier(w.db.state) == 100000
            && e in w.chain.events && e.eventId !in w.db.events
  {
    hide Silent, ToidOf, Next, CursorEnd;
    var ch := Chain(100000, {e});
    var w0 := World(ch, Db(map[], 0, FRESH_STATE), 0, 0, 0);
    var s1 := ForwardRun(DEFAULT_CONFIG, Silent(2, -1, Some(ToidOf(100))), 2);
    var s2 := ForwardRun(DEFAULT_CONFIG, Silent(2, -1, None), 2);
    var s3 := ForwardRun(DEFAULT_CONFIG, Silent(90000, 5000, Some(ToidOf(100000))), 90000);
    ToidOfLedger(100);
    ToidOfLedger(100000);
    NoCursorEnd();
    ThreeSteps(c, fails, w0, s1, s2, s3);
    SilentGood(ch, 2, -1, Some(ToidOf(100)));
    SilentGood(ch, 2, -1, None);
    SilentGood(ch, 90000, 5000, Some(ToidOf(100000)));
    SilentRun(c, fails, w0, DEFAULT_CONFIG, 2, -1, Some(ToidOf(100)));
    var w1 := Next(c, fails, w0, s1);
    SilentRun(c, fails, w1, DEFAULT_CONFIG, 2, -1, None);
    var w2 := Next(c, fails, w1, s2);
    SilentRun(c, fails, w2, DEFAULT_CONFIG, 90000, 5000, Some(ToidOf(100000)));
  }

  lemma NoCursorEnd()
    ensures CursorEnd(None) == -1
  {
  }

  lemma ThreeSteps(c: Codec, fails: (nat, nat) -> bool, w: World, a: Step, b: Step, d: Step)
    ensures var w1 := Next(c, fails, w, a);
            var w2 := Next(c, fails, w1, b);
            && RunAll(c, fails, w, [a, b, d]) == Next(c, fails, w2, d)
            && (AllAllowed(c, fails, w, [a, b, d]) <==> Allowed(w, a) && Allowed(w1, b) && Allowed(w2, d))
  {
    hide *;
    assert [a, b] + [d] == [a, b, d] && [a] + [b] == [a, b] && [] + [a] == [a];
    NoSteps(c, fails, w);
    OneStep(c, fails, w, [], a);
    OneStep(c, fails, w, [a], b);
    OneStep(c, fails, w, [a, b], d);
  }

  lemma NoSteps(c: Codec, fails: (nat, nat) -> bool, w: World)
    ensures RunAll(c, fails, w, []) == w && AllAllowed(c, fails, w, [])
  {
  }

  lemma OneStep(c: Codec, fails: (nat, nat) -> bool, w: World, steps: seq<Step>, s: Step)
    ensures var v := RunAll(c, fails, w, steps);
            && RunAll(c, fails, w, steps + [s]) == Next(c, fails, v, s)
            && (AllAllowed(c, fails, w, steps + [s]) <==> AllAllowed(c, fails, w, steps) && Allowed(v, s))
  {
    hide Next, Allowed;
    assert (steps + [s])[..|steps|] == steps;
  }

  // Every good continuation keeps all events: whatever the chain grows to, and whatever a forward
  // run then meets.
  ghost predicate KeepsAll(c: Codec, fails: (nat, nat) -> bool, w: World, ch: Chain, s: Step) {
    Allowed(w, CloseLedgers(ch)) && s.ForwardRun? && Allowed(w.(chain := ch), s) ==>
      Complete(Next(c, fails, w.(chain := ch), s))
  }

  // So after the first completed run no event can be lost exactly when there is a cursor or a highest
  // ledger to continue from.
  lemma AnchorNeeded(c: Codec, fails: (nat, nat) -> bool, w: World)
    requires Safe(c, w) && w.completed > 0
    ensures Anchored(w.db.state) <==> forall ch, s :: KeepsAll(c, fails, w, ch, s)
  {
    hide Next, Allowed;
    if Anchored(w.db.state) {
      forall ch, s
        ensures KeepsAll(c, fails, w, ch, s)
      {
        if Allowed(w, CloseLedgers(ch)) && s.ForwardRun? && Allowed(w.(chain := ch), s) {
          ChainGrows(c, w, ch);
          StepSafe(c, fails, w.(chain := ch), s);
        }
      }
    } else {
      var ch, s := LosingStep(c, fails, w);
      assert !KeepsAll(c, fails, w, ch, s);
    }
  }

  // Without an anchor, the next event is lost when the source starts behind it.
  lemma LosingStep(c: Codec, fails: (nat, nat) -> bool, w: World) returns (ch: Chain, s: Step)
    requires Safe(c, w) && w.completed > 0 && !Anchored(w.db.state)
    ensures Allowed(w, CloseLedgers(ch)) && s.ForwardRun? && Allowed(w.(chain := ch), s)
    ensures !Complete(Next(c, fails, w.(chain := ch), s))
  {
    hide Silent, ToidOf, Next, CursorEnd, StoredRow, FirstFetch;
    var l: nat := Max(2, Max(w.first, w.chain.tip + 1));
    var id := NewId(set e | e in w.chain.events :: e.eventId);
    var e := ScoreEvent(id, "", 0, None, 0, 0, 0, 0, None, None, Some(l), 0, Rpc);
    ch := Chain(l, w.chain.events + {e});
    s := ForwardRun(DEFAULT_CONFIG, Silent(l + 1, l, Some(ToidOf(l))), l + 1);
    ToidOfLedger(l);
    SilentGood(ch, l + 1, l, Some(ToidOf(l)));
    UnanchoredStart(w.db.state, l + 1);
    SilentRun(c, fails, w.(chain := ch), DEFAULT_CONFIG, l + 1, l, Some(ToidOf(l)));
    assert e in ch.events && Ledger(e) == l;
    assert id !in w.db.events;
  }

  lemma UnanchoredStart(st: IngestionState, own: nat)
    requires !Anchored(st)
    ensures StartOf(FirstFetch(st, ForwardRequest(DEFAULT_CONFIG)), own) == own
  {
  }

  // There is always another event id.
  lemma NewId(ids: set<EventId>) returns (id: EventId)
    ensures id !in ids
  {
    var n := LongerThan(ids);
    id := seq(n, i => 'x');
  }

  lemma {:induction false} LongerThan(ids: set<EventId>) returns (n: nat)
    ensures forall id :: id in ids ==> |id| < n
    decreases |ids|
  {
    if ids == {} {
      n := 0;
    } else {
      var id :| id in ids;
      n := LongerThan(ids - {id});
      if n <= |id| {
        n := |id| + 1;
      }
      assert ids == (ids - {id}) + {id};
    }
  }
}
