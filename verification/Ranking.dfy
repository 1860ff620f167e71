// The leaderboard: the best run of every claimant, ranked, and shown page by page.
module Ranking {
  import opened Basics

  // Event ids stand for their place in the one order of ids; times are milliseconds, 0 for a
  // timestamp that does not parse.
  datatype Event = Event(
    eventId: nat,
    claimant: string,
    newBest: int,
    mintedDelta: int,
    seed: int,
    closedAt: int)

  datatype Run = Run(jobId: nat, claimant: string, score: nat, mintedDelta: nat, seed: nat, completedAt: int)

  datatype Window = TenMinutes | Day | All

  const TEN_MINUTES_MS := 600000
  const ONE_DAY_MS := 86400000
  const DEFAULT_LEADERBOARD_LIMIT := 25
  const MAX_LEADERBOARD_LIMIT := 100
  const MAX_LEADERBOARD_OFFSET := 10000

  // ----- The order of runs

  // Higher score first, then the earlier run, then the smaller id.
  predicate Before(a: Run, b: Run) {
    || a.score > b.score
    || (a.score == b.score && a.completedAt < b.completedAt)
    || (a.score == b.score && a.completedAt == b.completedAt && a.jobId < b.jobId)
  }

  // The comparison that keeps the best run.
  predicate IsBetterRun(candidate: Run, current: Run) {
    if candidate.score != current.score then candidate.score > current.score
    else if candidate.completedAt != current.completedAt then candidate.completedAt < current.completedAt
    else candidate.jobId < current.jobId
  }

  // The comparison that sorting uses.
  function CompareRankedRuns(a: Run, b: Run): int {
    if a.score != b.score then b.score - a.score
    else if a.completedAt != b.completedAt then a.completedAt - b.completedAt
    else a.jobId - b.jobId
  }

  // Keeping the best run and sorting go by one order.
  lemma ComparisonsAgree(a: Run, b: Run)
    ensures IsBetterRun(a, b) <==> Before(a, b)
    ensures CompareRankedRuns(a, b) < 0 <==> Before(a, b)
    ensures CompareRankedRuns(a, b) > 0 <==> Before(b, a)
  {
  }

  // Ids identify runs.
  ghost predicate UniqueIds(s: set<Run>) {
    forall a, b :: a in s && b in s && a.jobId == b.jobId ==> a == b
  }

  // ----- Runs of events

  function CutoffMs(window: Window, nowMs: int): int {
    match window
    case TenMinutes => nowMs - TEN_MINUTES_MS
    case Day => nowMs - ONE_DAY_MS
    case All => 0
  }

  predicate Counts(e: Event) {
    e.closedAt != 0 && e.newBest > 0
  }

  function ToRun(e: Event): Run {
    Run(e.eventId, e.claimant, Uint32(e.newBest), Uint32(e.mintedDelta), Uint32(e.seed), e.closedAt)
  }

  function RunsOf(events: seq<Event>): seq<Run> {
    if |events| == 0 then []
    else
      var n := |events| - 1;
      if Counts(events[n]) then RunsOf(events[..n]) + [ToRun(events[n])] else RunsOf(events[..n])
  }

  method ExtractLeaderboardRuns(events: seq<Event>) returns (runs: seq<Run>)
    ensures runs == RunsOf(events)
  {
    runs := [];
    for i := 0 to |events|
      invariant runs == RunsOf(events[..i])
    {
      assert events[..i + 1][..i] == events[..i];
      var event := events[i];
      if event.closedAt == 0 || event.newBest <= 0 {
        continue;
      }
      runs := runs + [ToRun(event)];
    }
    assert events[..|events|] == events;
  }

  predicate InWindow(r: Run, window: Window, nowMs: int) {
    r.completedAt != 0 && (window.All? || r.completedAt >= CutoffMs(window, nowMs))
  }

  function Visible(runs: set<Run>, window: Window, nowMs: int): set<Run> {
    set r | r in runs && InWindow(r, window, nowMs)
  }

  function SetOf(runs: seq<Run>): set<Run> {
    set r | r in runs
  }

  // ----- The ranking, as a set of best runs and its one sorted enumeration

  ghost predicate IsBest(s: set<Run>, r: Run) {
    r in s && forall q :: q in s && q.claimant == r.claimant && q != r ==> Before(r, q)
  }

  ghost function Best(s: set<Run>): set<Run> {
    set r | r in s && IsBest(s, r)
  }

  ghost predicate Sorted(runs: seq<Run>) {
    forall i, j :: 0 <= i < j < |runs| ==> Before(runs[i], runs[j])
  }

  ghost predicate IsRanking(s: set<Run>, ranking: seq<Run>) {
    Sorted(ranking) && SetOf(ranking) == Best(s)
  }

  // A set has one sorted enumeration at most.
  lemma {:induction false} RankingUnique(a: seq<Run>, b: seq<Run>)
    requires Sorted(a) && Sorted(b) && SetOf(a) == SetOf(b)
    ensures a == b
    decreases |a|
  {
    if |a| == 0 {
      if |b| > 0 {
        InSetOf(b[0], b);
        InSetOf(b[0], a);
      }
    } else {
      InSetOf(a[0], a);
      InSetOf(a[0], b);
      assert a[0] in SetOf(b);
      assert b[0] in SetOf(a);
      assert a[0] == b[0];
      forall r
        ensures r in a[1..] <==> r in b[1..]
      {
        assert r in a[1..] ==> r in SetOf(a) && r != a[0];
        assert r in b[1..] ==> r in SetOf(b) && r != b[0];
      }
      RankingUnique(a[1..], b[1..]);
      assert a == [a[0]] + a[1..] && b == [b[0]] + b[1..];
    }
  }

  // ----- Computing the ranking

  function Insert(r: Run, sorted: seq<Run>): seq<Run> {
    if |sorted| == 0 || CompareRankedRuns(r, sorted[0]) < 0 then [r] + sorted
    else [sorted[0]] + Insert(r, sorted[1..])
  }

  function Sort(runs: seq<Run>): seq<Run> {
    if |runs| == 0 then [] else Insert(runs[|runs| - 1], Sort(runs[..|runs| - 1]))
  }

  lemma {:induction false} InsertSorts(r: Run, sorted: seq<Run>)
    requires Sorted(sorted)
    requires forall q :: q in sorted ==> q.jobId != r.jobId
    ensures Sorted(Insert(r, sorted))
    ensures SetOf(Insert(r, sorted)) == SetOf(sorted) + {r}
    decreases |sorted|
  {
    hide SetOf, CompareRankedRuns;
    if |sorted| == 0 {
    } else {
      ComparisonsAgree(r, sorted[0]);
      ComparisonsAgree(sorted[0], r);
      OneBefore(r, sorted[0]);
    }
    if |sorted| == 0 {
      SetOfCons(r, sorted);
    } else if CompareRankedRuns(r, sorted[0]) < 0 {
      SetOfCons(r, sorted);
    } else {
      InsertSorts(r, sorted[1..]);
      var rest := Insert(r, sorted[1..]);
      SetOfCons(sorted[0], rest);
      SetOfCons(sorted[0], sorted[1..]);
      assert sorted == [sorted[0]] + sorted[1..];
      forall q | q in rest
        ensures Before(sorted[0], q)
      {
        InSetOf(q, rest);
        InSetOf(q, sorted[1..]);
      }
    }
  }

  // Different ids decide where all else is equal.
  lemma OneBefore(a: Run, b: Run)
    requires a.jobId != b.jobId
    ensures Before(a, b) <==> !Before(b, a)
  {
  }

  lemma SetOfCons(r: Run, runs: seq<Run>)
    ensures SetOf([r] + runs) == {r} + SetOf(runs)
  {
  }

  lemma InSetOf(r: Run, runs: seq<Run>)
    ensures r in SetOf(runs) <==> r in runs
  {
  }

  ghost predicate DistinctIds(runs: seq<Run>) {
    forall i, j :: 0 <= i < j < |runs| ==> runs[i].jobId != runs[j].jobId
  }

  lemma {:induction false} SortSorts(runs: seq<Run>)
    requires DistinctIds(runs)
    ensures Sorted(Sort(runs)) && SetOf(Sort(runs)) == SetOf(runs)
    decreases |runs|
  {
    if |runs| == 0 {
    } else {
      var front, r := runs[..|runs| - 1], runs[|runs| - 1];
      SortSorts(front);
      forall q | q in Sort(front)
        ensures q.jobId != r.jobId
      {
        assert q in SetOf(front);
      }
      InsertSorts(r, Sort(front));
      assert runs == front + [r];
    }
  }

  datatype RankedEntry = RankedEntry(run: Run, rank: nat)

  datatype Page = Page(
    totalPlayers: nat,
    limit: nat,
    offset: nat,
    nextOffset: Option<nat>,
    entries: seq<RankedEntry>,
    me: Option<RankedEntry>)

  function ClampLimit(limit: Option<int>): nat {
    Min(Max(if limit.Some? then limit.value else DEFAULT_LEADERBOARD_LIMIT, 1), MAX_LEADERBOARD_LIMIT)
  }

  function ClampOffset(offset: Option<int>): nat {
    Min(Max(if offset.Some? then offset.value else 0, 0), MAX_LEADERBOARD_OFFSET)
  }

  function ToRankedEntries(runs: seq<Run>): seq<RankedEntry> {
    seq(|runs|, i requires 0 <= i < |runs| => RankedEntry(runs[i], i + 1))
  }

  function Slice<T>(s: seq<T>, from: nat, to: nat): seq<T>
    requires from <= to
  {
    s[Min(from, |s|)..Min(to, |s|)]
  }

  // The page of a ranking.
  ghost predicate IsPage(ranking: seq<Run>, limit: Option<int>, offset: Option<int>, claimant: Option<string>,
                         p: Page)
  {
    && p.totalPlayers == |ranking|
    && p.limit == ClampLimit(limit)
    && p.offset == ClampOffset(offset)
    && p.entries == Slice(ToRankedEntries(ranking), p.offset, p.offset + p.limit)
    && p.nextOffset == (if p.offset + p.limit < |ranking| then Some(p.offset + p.limit) else None)
    && (p.me.Some? ==>
          && claimant == Some(p.me.value.run.claimant) && claimant.value != ""
          && 1 <= p.me.value.rank <= |ranking| && ranking[p.me.value.rank - 1] == p.me.value.run)
    && (p.me.None? ==>
          claimant.None? || claimant.value == "" || forall r :: r in ranking ==> r.claimant != claimant.value)
  }

  // The best visible run of every claimant, and the claimants in order of appearance.
  method BestByClaimant(runs: seq<Run>, window: Window, nowMs: int)
    returns (best: map<string, Run>, order: seq<string>)
    requires UniqueIds(SetOf(runs))
    ensures forall c :: c in order <==> c in best
    ensures forall i, j :: 0 <= i < j < |order| ==> order[i] != order[j]
    ensures forall c :: c in best ==> best[c].claimant == c
    ensures forall r :: r in Best(Visible(SetOf(runs), window, nowMs)) <==> r.claimant in best && best[r.claimant] == r
  {
    hide IsBetterRun;
    best, order := map[], [];
    for i := 0 to |runs|
      invariant forall c :: c in order <==> c in best
      invariant forall i, j :: 0 <= i < j < |order| ==> order[i] != order[j]
      invariant forall c :: c in best ==> best[c].claimant == c
      invariant BestSoFar(Visible(SetOf(runs[..i]), window, nowMs), best)
    {
      var run := runs[i];
      assert runs[..i + 1] == runs[..i] + [run];
      assert SetOf(runs[..i + 1]) == SetOf(runs[..i]) + {run};
      assert SetOf(runs[..i + 1]) <= SetOf(runs);
      VisibleWith(SetOf(runs[..i]), run, window, nowMs);
      if run.completedAt == 0 || (!window.All? && run.completedAt < CutoffMs(window, nowMs)) {
        continue;
      }
      BetterRun(Visible(SetOf(runs[..i]), window, nowMs), best, run);
      if run.claimant !in best {
        order := order + [run.claimant];
        best := best[run.claimant := run];
      } else {
        ComparisonsAgree(run, best[run.claimant]);
        if IsBetterRun(run, best[run.claimant]) {
          best := best[run.claimant := run];
        }
      }
    }
    assert runs[..|runs|] == runs;
  }

  ghost predicate BestSoFar(s: set<Run>, best: map<string, Run>) {
    && (forall r :: r in s ==> r.claimant in best)
    && (forall c :: c in best ==> best[c] in s && best[c].claimant == c && IsBest(s, best[c]))
  }

  lemma VisibleWith(s: set<Run>, r: Run, window: Window, nowMs: int)
    ensures Visible(s + {r}, window, nowMs) ==
            if InWindow(r, window, nowMs) then Visible(s, window, nowMs) + {r} else Visible(s, window, nowMs)
  {
  }

  lemma BetterRun(s: set<Run>, best: map<string, Run>, r: Run)
    requires BestSoFar(s, best) && UniqueIds(s + {r})
    ensures BestSoFar(s + {r},
                      if r.claimant !in best || Before(r, best[r.claimant]) then best[r.claimant := r] else best)
  {
  }

  lemma ValuesAreBest(all: set<Run>, s: set<Run>, best: map<string, Run>, order: seq<string>, values: seq<Run>)
    requires s <= all && UniqueIds(all)
    requires forall c :: c in order <==> c in best
    requires forall i, j :: 0 <= i < j < |order| ==> order[i] != order[j]
    requires forall c :: c in best ==> best[c].claimant == c
    requires forall r :: r in Best(s) <==> r.claimant in best && best[r.claimant] == r
    requires |values| == |order| && forall i :: 0 <= i < |order| ==> values[i] == best[order[i]]
    ensures DistinctIds(values) && SetOf(values) == Best(s)
  {
    forall i | 0 <= i < |order|
      ensures values[i] in Best(s)
    {
      assert order[i] in order;
    }
    forall r | r in Best(s)
      ensures r in values
    {
      var i :| 0 <= i < |order| && order[i] == r.claimant;
      assert values[i] == r;
    }
  }

  method ComputeLeaderboard(runs: seq<Run>, window: Window, nowMs: int, limit: Option<int>, offset: Option<int>,
                            claimant: Option<string>)
    returns (p: Page)
    requires UniqueIds(SetOf(runs))
    ensures exists ranking ::
              IsRanking(Visible(SetOf(runs), window, nowMs), ranking) && IsPage(ranking, limit, offset, claimant, p)
  {
    hide SetOf, Visible, Best, Sorted, Sort, IsPage, DistinctIds;
    var best, order := BestByClaimant(runs, window, nowMs);
    var values := seq(|order|, i requires 0 <= i < |order| => best[order[i]]);
    var sorted := Sort(values);
    VisibleSubset(SetOf(runs), window, nowMs);
    ValuesAreBest(SetOf(runs), Visible(SetOf(runs), window, nowMs), best, order, values);
    SortSorts(values);
    p := ShowPage(sorted, limit, offset, claimant);
  }

  lemma VisibleSubset(s: set<Run>, window: Window, nowMs: int)
    ensures Visible(s, window, nowMs) <= s
  {
  }

  method ShowPage(sorted: seq<Run>, limit: Option<int>, offset: Option<int>, claimant: Option<string>) returns (p: Page)
    ensures IsPage(sorted, limit, offset, claimant, p)
  {
    hide ClampLimit, ClampOffset;
    var effectiveLimit := ClampLimit(limit);
    var effectiveOffset := ClampOffset(offset);
    var ranked := ToRankedEntries(sorted);
    var pagedEntries := Slice(ranked, effectiveOffset, effectiveOffset + effectiveLimit);
    var me := None;
    if claimant.Some? && claimant.value != "" {
      me := FindClaimant(ranked, claimant.value);
    }
    var end := effectiveOffset + effectiveLimit;
    var nextOffset := if end < |ranked| then Some(end) else None;
    p := Page(|ranked|, effectiveLimit, effectiveOffset, nextOffset, pagedEntries, me);
    if claimant.Some? && claimant.value != "" && me.None? {
      forall r | r in sorted
        ensures r.claimant != claimant.value
      {
        var i :| 0 <= i < |sorted| && sorted[i] == r;
        assert ranked[i] in ranked;
      }
    }
  }

  method FindClaimant(ranked: seq<RankedEntry>, claimant: string) returns (r: Option<RankedEntry>)
    ensures r.Some? ==> r.value in ranked && r.value.run.claimant == claimant
    ensures r.None? ==> forall e :: e in ranked ==> e.run.claimant != claimant
  {
    for i := 0 to |ranked|
      invariant forall e :: e in ranked[..i] ==> e.run.claimant != claimant
    {
      if ranked[i].run.claimant == claimant {
        return Some(ranked[i]);
      }
    }
    return None;
  }
}
