// Whole runs of the ingestion protocol: forward runs, catch-up runs, failures of every kind and new
// ledgers, in any order.
module SyncSafety {
  import opened Basics
  import opened Store
  import opened Retry
  import opened Sync

  // ----- The ledger and its source

  // The score events of all ledgers closed so far.
  datatype Chain = Chain(tip: nat, events: set<ScoreEvent>)

  function Ledger(e: ScoreEvent): int {
    if e.ledger.Some? then e.ledger.value else -1
  }

  // The first ledger is number 2; an event has one id, and its score fits the table.
  ghost predicate ValidChain(ch: Chain) {
    && (forall e :: e in ch.events ==> 2 <= Ledger(e) <= ch.tip && e.finalScore >= 0)
    && (forall e, f :: e in ch.events && f in ch.events && e.eventId == f.eventId ==> e == f)
  }

  // The ledger a cursor has passed, or -1.
  function CursorEnd(cursor: Option<Cursor>): int {
    match cursor
    case Some(AtLedger(n)) => n - 1
    case Some(Digits(n)) => n - 1
    case Some(Toid(toid, _)) => ToidLedger(toid)
    case _ => -1
  }

  function OrMinusOne(n: Option<nat>): int {
    if n.Some? then n.value else -1
  }

  // How far the known territory of a state or of a page list reaches.
  function Reach(cursor: Option<Cursor>, highest: Option<nat>): int {
    Max(CursorEnd(cursor), OrMinusOne(highest))
  }

  function Frontier(st: IngestionState): int {
    Reach(st.cursor, st.highestLedger)
  }

  ghost predicate Delivers(rs: seq<Record>, e: ScoreEvent) {
    exists r :: r in rs && r.event == e
  }

  // Everything from one ledger up to another is among the records.
  ghost predicate Covers(ch: Chain, from: int, to: int, rs: seq<Record>) {
    forall e :: e in ch.events && from <= Ledger(e) <= to ==> Delivers(rs, e)
  }

  ghost predicate Sound(ch: Chain, rs: seq<Record>) {
    forall r :: r in rs ==> r.event in ch.events
  }

  // Where the source starts reading: after an opaque cursor, else at the requested ledger, else at
  // the cursor's ledger, else at a ledger of its own choice.
  function StartOf(o: FetchOptions, own: nat): nat {
    match o.cursor
    case Some(Toid(toid, _)) => ToidLedger(toid) + 1
    case _ =>
      if o.fromLedger.Some? then o.fromLedger.value
      else if ParseLedgerCursor(o.cursor).Some? then ParseLedgerCursor(o.cursor).value
      else own
  }

  // The assumption on the source: a page holds events of the chain only, and all of them from where
  // it starts up to the last ledger it shows or passes, which is a closed one. So no page ends inside
  // a ledger.
  ghost predicate GoodPage(ch: Chain, o: FetchOptions, own: nat, p: Page) {
    && Sound(ch, p.events)
    && CursorEnd(p.nextCursor) <= ch.tip
    && Covers(ch, StartOf(o, own), Reach(p.nextCursor, HighestOf(p.events)), p.events)
    && (p.nextCursor.Some? ==> !p.nextCursor.value.Token?)
  }

  ghost predicate GoodSource(ch: Chain, env: Env, own: nat) {
    forall i: nat, o :: env.fetch(i, o).Done? ==> GoodPage(ch, o, own, env.fetch(i, o).value)
  }

  // ----- The pages of one run

  lemma {:induction false} HighestOfConcat(a: seq<Record>, b: seq<Record>)
    ensures OrMinusOne(HighestOf(a + b)) == Max(OrMinusOne(HighestOf(a)), OrMinusOne(HighestOf(b)))
    decreases |b|
  {
    if |b| == 0 {
      assert a + b == a;
    } else {
      assert (a + b)[..|a + b| - 1] == a + b[..|b| - 1];
      HighestOfConcat(a, b[..|b| - 1]);
    }
  }

  ghost predicate GoodFetch(ch: Chain, from: int, got: Fetched) {
    && Sound(ch, got.events)
    && CursorEnd(got.last.nextCursor) <= ch.tip
    && Covers(ch, from, Reach(got.last.nextCursor, HighestOf(got.events)), got.events)
    && (got.last.nextCursor.Some? ==> !got.last.nextCursor.value.Token?)
  }

  // A page that starts where the last one ended extends what is covered.
  lemma PageExtends(ch: Chain, from: int, got: Fetched, o: FetchOptions, own: nat, p: Page)
    requires GoodFetch(ch, from, got) && got.last.nextCursor.Some?
    requires o.cursor == got.last.nextCursor && o.fromLedger.None?
    requires GoodPage(ch, o, own, p)
    ensures GoodFetch(ch, from, Fetched(got.events + p.events, p, false))
  {
    hide HighestOf;
    HighestOfConcat(got.events, p.events);
    var all := got.events + p.events;
    assert StartOf(o, own) == CursorEnd(o.cursor) + 1;
    forall e | e in ch.events && from <= Ledger(e) <= Reach(p.nextCursor, HighestOf(all))
      ensures Delivers(all, e)
    {
      if Ledger(e) <= Reach(got.last.nextCursor, HighestOf(got.events)) {
        var r :| r in got.events && r.event == e;
        assert r in all;
      } else {
        var r :| r in p.events && r.event == e;
        assert r in all;
      }
    }
  }

  lemma {:induction false} PagesCover(ch: Chain, env: Env, own: nat, first: FetchOptions, pageCount: nat, from: int,
                                      got: Fetched)
    requires GoodSource(ch, env, own) && GoodFetch(ch, from, got)
    ensures GoodFetch(ch, from, MorePages(env, first, pageCount, got))
    decreases DEFAULT_LEADERBOARD_SYNC_MAX_PAGES - pageCount
  {
    hide GoodPage, GoodFetch;
    if WantsMore(got.last, first.limit, pageCount) {
      var o := NextFetch(first, got.last);
      var answer := env.fetch(pageCount, o);
      if answer.Done? {
        PageExtends(ch, from, got, o, own, answer.value);
        PagesCover(ch, env, own, first, pageCount + 1, from,
                   Fetched(got.events + answer.value.events, answer.value, false));
      } else {
        Halted(ch, from, got);
      }
    }
  }

  lemma Halted(ch: Chain, from: int, got: Fetched)
    requires GoodFetch(ch, from, got)
    ensures GoodFetch(ch, from, got.(halted := true))
  {
  }

  // ----- Worlds and steps

  // `first` is where the first completed forward run started; `missed` counts the rows that failed
  // runs inserted after the first completed run; `completed` counts forward runs.
  datatype World = World(chain: Chain, db: Db, first: nat, missed: nat, completed: nat)

  datatype Step =
    | ForwardRun(cfg: Config, env: Env, own: nat)
    | CatchupRun(cfg: Config, env: Env, own: nat)
    | RecordFailure(message: string)
    | CloseLedgers(chain: Chain)

  function RequestOf(db: Db, s: Step): SyncRequest
    requires s.ForwardRun? || s.CatchupRun?
    requires s.CatchupRun? ==> db.state.highestLedger.Some?
  {
    if s.ForwardRun? then ForwardRequest(s.cfg) else CatchupRequest(s.cfg, db.state.highestLedger.value)
  }

  function AfterRun(w: World, s: Step, db': Db, o: RunOutcome): World
    requires s.ForwardRun? || s.CatchupRun?
  {
    var st := w.db.state;
    if o.Completed? then
      World(w.chain, db',
            if s.ForwardRun? && w.completed == 0 then StartOf(FirstFetch(st, ForwardRequest(s.cfg)), s.own)
            else w.first,
            w.missed,
            if s.ForwardRun? then w.completed + 1 else w.completed)
    else
      w.(db := db',
         missed := if w.completed > 0 && |db'.events| >= |w.db.events|
                   then w.missed + |db'.events| - |w.db.events| else w.missed)
  }

  function Next(c: Codec, fails: (nat, nat) -> bool, w: World, s: Step): World {
    match s
    case CloseLedgers(ch) => w.(chain := ch)
    case RecordFailure(m) => w.(db := w.db.(state := w.db.state.(lastError := Some(m))))
    case _ =>
      if s.CatchupRun? && w.db.state.highestLedger.None? then w
      else
        var (db', o) := RunSync(c, fails, w.db, RequestOf(w.db, s), s.env);
        AfterRun(w, s, db', o)
  }

  // Runs meet a good source; the chain only grows, above its tip.
  ghost predicate Allowed(w: World, s: Step) {
    match s
    case ForwardRun(_, env, own) => GoodSource(w.chain, env, own)
    case CatchupRun(_, env, own) => GoodSource(w.chain, env, own)
    case RecordFailure(_) => true
    case CloseLedgers(ch) =>
      && ValidChain(ch)
      && w.chain.tip <= ch.tip
      && w.chain.events <= ch.events
      && forall e :: e in ch.events && e !in w.chain.events ==> Ledger(e) > w.chain.tip
  }

  function RunAll(c: Codec, fails: (nat, nat) -> bool, w: World, steps: seq<Step>): World {
    if |steps| == 0 then w else Next(c, fails, RunAll(c, fails, w, steps[..|steps| - 1]), steps[|steps| - 1])
  }

  ghost predicate AllAllowed(c: Codec, fails: (nat, nat) -> bool, w: World, steps: seq<Step>) {
    |steps| > 0 ==>
      && AllAllowed(c, fails, w, steps[..|steps| - 1])
      && Allowed(RunAll(c, fails, w, steps[..|steps| - 1]), steps[|steps| - 1])
  }

  predicate Fresh(w: World) {
    w.db.events == map[] && w.db.state == FRESH_STATE && w.missed == 0 && w.completed == 0
  }

  // A state from which a forward run knows where to continue.
  predicate Anchored(st: IngestionState) {
    st.cursor.Some? || st.highestLedger.Some?
  }

  // After the first completed forward run, the others start from such a state.
  predicate AnchoredStep(w: World, s: Step) {
    s.ForwardRun? && w.completed > 0 ==> Anchored(w.db.state)
  }

  ghost predicate AllAnchored(c: Codec, fails: (nat, nat) -> bool, w: World, steps: seq<Step>) {
    |steps| > 0 ==>
      && AllAnchored(c, fails, w, steps[..|steps| - 1])
      && AnchoredStep(RunAll(c, fails, w, steps[..|steps| - 1]), steps[|steps| - 1])
  }

  // A scheduled tick is a forward run, possibly followed by a catch-up run.
  lemma TickIsRuns(c: Codec, fails: (nat, nat) -> bool, w: World, cfg: Config, time: int,
                   forward: Env, catchup: Env, own: nat)
    ensures var (db', o) := RunTick(c, fails, w.db, cfg, time, forward, catchup);
            var once := Next(c, fails, w, ForwardRun(cfg, forward, own));
            db' == if o.catchup.Some? then Next(c, fails, once, CatchupRun(cfg, catchup, own)).db else once.db
  {
    hide RunSync;
  }

  // ----- No event is lost

  // The row of an event is in the table, whenever it was fetched.
  ghost predicate InTable(c: Codec, t: Table, e: ScoreEvent) {
    e.eventId in t && exists time :: t[e.eventId] == StoredRow(c, Record(e, time))
  }

  ghost predicate Faithful(c: Codec, ch: Chain, t: Table) {
    forall id :: id in t ==> exists r: Record :: r.event in ch.events && r.Id() == id && t[id] == StoredRow(c, r)
  }

  // Every event from the first scanned ledger up to the frontier has its id in the table.
  ghost predicate Complete(w: World) {
    forall e :: e in w.chain.events && w.first <= Ledger(e) <= Frontier(w.db.state) ==> e.eventId in w.db.events
  }

  ghost predicate NoTokens(st: IngestionState) {
    st.cursor.Some? ==> !st.cursor.value.Token?
  }

  ghost predicate Safe(c: Codec, w: World) {
    && ValidChain(w.chain)
    && Faithful(c, w.chain, w.db.events)
    && Complete(w)
    && NoTokens(w.db.state)
    && Frontier(w.db.state) <= w.chain.tip
    && (w.completed == 0 ==> !Anchored(w.db.state))
  }

  function FetchAll(env: Env, first: FetchOptions): Fetched
    requires env.fetch(0, first).Done?
  {
    var page := env.fetch(0, first).value;
    MorePages(env, first, 1, Fetched(page.events, page, false))
  }

  lemma FetchCovers(ch: Chain, env: Env, own: nat, first: FetchOptions)
    requires GoodSource(ch, env, own) && env.fetch(0, first).Done?
    ensures GoodFetch(ch, StartOf(first, own), FetchAll(env, first))
  {
    hide MorePages, StartOf, HighestOf;
    var page := env.fetch(0, first).value;
    assert GoodPage(ch, first, own, page);
    PagesCover(ch, env, own, first, 1, StartOf(first, own), Fetched(page.events, page, false));
  }

  lemma GrownFaithful(c: Codec, ch: Chain, t: Table, t': Table, rs: seq<Record>)
    requires Faithful(c, ch, t) && Grown(c, t, t', rs) && Sound(ch, rs)
    ensures Faithful(c, ch, t')
  {
    hide StoredRow;
  }

  lemma SoundStorable(ch: Chain, rs: seq<Record>)
    requires ValidChain(ch) && Sound(ch, rs)
    ensures AllStorable(rs)
  {
  }

  // What a run leaves in the table: rows of the chain only, nothing lost, and every fetched event
  // if the run completes.
  lemma RunWrites(c: Codec, fails: (nat, nat) -> bool, ch: Chain, db: Db, req: SyncRequest, env: Env, own: nat)
    requires ValidChain(ch) && GoodSource(ch, env, own) && Faithful(c, ch, db.events)
    ensures var (db', o) := RunSync(c, fails, db, req, env);
            var first := FirstFetch(db.state, req);
            && Faithful(c, ch, db'.events)
            && db.events.Keys <= db'.events.Keys
            && (!o.Completed? ==> db'.state == db.state)
            && (o.Completed? ==>
                  && env.fetch(0, first).Done?
                  && var got := FetchAll(env, first);
                  && GoodFetch(ch, StartOf(first, own), got)
                  && Ids(got.events) <= db'.events.Keys
                  && db'.state == NextState(db.state, req.mode, got, o.counts.inserted, |db'.events|, env.now))
  {
    hide MorePages, StartOf, HighestOf, WriteAll, FirstFetch, NextState, GoodSource, GoodFetch, Faithful, Grown,
         Ids, LastWriter, CollisionFree, ValidChain;
    var first := FirstFetch(db.state, req);
    if env.fetch(0, first).Done? {
      var got := FetchAll(env, first);
      FetchCovers(ch, env, own, first);
      FetchSound(ch, StartOf(first, own), got);
      SoundStorable(ch, got.events);
      WriteAllGrows(c, fails, db.events, db.attempts, got.events);
      var p := WriteAll(c, fails, db.events, db.attempts, got.events);
      GrownFaithful(c, ch, db.events, p.events, got.events);
      GrownKeys(c, db.events, p.events, got.events);
      var n := WriteAllRefines(c, fails, db.events, db.attempts, got.events);
      assert got.events[..|got.events|] == got.events;
    }
  }

  lemma FetchSound(ch: Chain, from: int, got: Fetched)
    requires GoodFetch(ch, from, got)
    ensures Sound(ch, got.events)
  {
  }

  lemma GrownKeys(c: Codec, t: Table, t': Table, rs: seq<Record>)
    requires Grown(c, t, t', rs)
    ensures t.Keys <= t'.Keys
  {
  }

  lemma CoveredIds(ch: Chain, from: int, to: int, rs: seq<Record>, t: Table)
    requires Covers(ch, from, to, rs) && Ids(rs) <= t.Keys
    ensures forall e :: e in ch.events && from <= Ledger(e) <= to ==> e.eventId in t
  {
    forall e | e in ch.events && from <= Ledger(e) <= to
      ensures e.eventId in t
    {
      var r :| r in rs && r.event == e;
      assert r.Id() in Ids(rs);
    }
  }

  lemma FrontierAfter(st: IngestionState, mode: Mode, got: Fetched, inserted: nat, rows: nat, now: int)
    ensures Frontier(NextState(st, mode, got, inserted, rows, now)) <=
            Max(Frontier(st), Reach(got.last.nextCursor, HighestOf(got.events)))
    ensures OrMinusOne(NextState(st, mode, got, inserted, rows, now).highestLedger) ==
            Max(OrMinusOne(st.highestLedger), OrMinusOne(HighestOf(got.events)))
  {
    hide HighestOf;
  }

  // A run never starts beyond the ledger after the frontier.
  lemma StartBehindFrontier(st: IngestionState, cfg: Config, own: nat)
    requires NoTokens(st)
    ensures Anchored(st) ==>
              var from := StartOf(FirstFetch(st, ForwardRequest(cfg)), own);
              from <= Frontier(st) + 1 || from == 2
    ensures st.highestLedger.Some? ==>
              var from := StartOf(FirstFetch(st, CatchupRequest(cfg, st.highestLedger.value)), own);
              from <= Frontier(st) + 1 || from == 2
  {
    hide ToidLedger;
  }

  lemma HighestSound(ch: Chain, rs: seq<Record>)
    requires ValidChain(ch) && Sound(ch, rs)
    ensures OrMinusOne(HighestOf(rs)) <= ch.tip
  {
    var h := HighestOf(rs);
    if h.Some? {
      var r :| r in rs && r.event.ledger == h;
      assert r.event in ch.events;
    }
  }

  // Every step keeps the safety invariant, except a forward run that has nothing to continue from.
  lemma StepSafe(c: Codec, fails: (nat, nat) -> bool, w: World, s: Step)
    requires Safe(c, w) && Allowed(w, s) && AnchoredStep(w, s)
    ensures Safe(c, Next(c, fails, w, s))
  {
    hide RunSync, StartOf, FirstFetch, GoodSource, FetchAll, HighestOf, Ids, NextState, ToidLedger;
    if (s.ForwardRun? || s.CatchupRun?) && !(s.CatchupRun? && w.db.state.highestLedger.None?) {
      var ch, db, st, req := w.chain, w.db, w.db.state, RequestOf(w.db, s);
      var (db', o) := RunSync(c, fails, db, req, s.env);
      RunWrites(c, fails, ch, db, req, s.env, s.own);
      if o.Completed? {
        var first := FirstFetch(st, req);
        var got := FetchAll(s.env, first);
        var reach := Reach(got.last.nextCursor, HighestOf(got.events));
        CoveredIds(ch, StartOf(first, s.own), reach, got.events, db'.events);
        FrontierAfter(st, req.mode, got, o.counts.inserted, |db'.events|, s.env.now);
        StartBehindFrontier(st, s.cfg, s.own);
        HighestSound(ch, got.events);
        NextCursor(st, req.mode, got, o.counts.inserted, |db'.events|, s.env.now);
      }
    } else if s.CloseLedgers? {
      ChainGrows(c, w, s.chain);
    }
  }

  lemma NextCursor(st: IngestionState, mode: Mode, got: Fetched, inserted: nat, rows: nat, now: int)
    ensures NextState(st, mode, got, inserted, rows, now).cursor ==
            if mode.Forward? then got.last.nextCursor else st.cursor
  {
  }

  lemma ChainGrows(c: Codec, w: World, ch: Chain)
    requires Safe(c, w) && Allowed(w, CloseLedgers(ch))
    ensures Safe(c, w.(chain := ch))
  {
    hide Frontier, StoredRow;
  }

  lemma {:induction false} AlwaysSafe(c: Codec, fails: (nat, nat) -> bool, w: World, steps: seq<Step>)
    requires Safe(c, w) && AllAllowed(c, fails, w, steps) && AllAnchored(c, fails, w, steps)
    ensures Safe(c, RunAll(c, fails, w, steps))
  {
    hide Safe, Allowed, AnchoredStep, Next;
    if |steps| == 0 {
    } else {
      AlwaysSafe(c, fails, w, steps[..|steps| - 1]);
      StepSafe(c, fails, RunAll(c, fails, w, steps[..|steps| - 1]), steps[|steps| - 1]);
    }
  }

  // Whatever fails and in whatever order runs come: after any steps from a fresh database, every
  // event from where the first completed run started up to the frontier has its row in the table, if
  // no later forward run starts without a cursor and without a highest ledger.
  lemma NoEventLost(c: Codec, fails: (nat, nat) -> bool, w0: World, steps: seq<Step>, e: ScoreEvent)
    requires Fresh(w0) && ValidChain(w0.chain)
    requires AllAllowed(c, fails, w0, steps) && AllAnchored(c, fails, w0, steps)
    requires e in RunAll(c, fails, w0, steps).chain.events
    requires var w := RunAll(c, fails, w0, steps); w.first <= Ledger(e) <= Frontier(w.db.state)
    ensures InTable(c, RunAll(c, fails, w0, steps).db.events, e)
  {
    hide RunAll, AllAllowed, AllAnchored, StoredRow;
    var w := RunAll(c, fails, w0, steps);
    assert Safe(c, w0);
    AlwaysSafe(c, fails, w0, steps);
    var r: Record :| r.event in w.chain.events && r.Id() == e.eventId && w.db.events[e.eventId] == StoredRow(c, r);
    assert r.event == e && r == Record(e, r.ingestedAt);
  }
}
