// Laws of the leaderboard: it does not depend on the order of the runs, it refines the windowed
// query, and one more run moves ranks by one at most.
module RankingLaws {
  import opened Basics
  import opened Ranking

  // ----- Counting

  lemma {:induction false} DistinctCount(runs: seq<Run>)
    requires Sorted(runs)
    ensures |SetOf(runs)| == |runs|
    decreases |runs|
  {
    if |runs| == 0 {
    } else {
      var n := |runs| - 1;
      DistinctCount(runs[..n]);
      assert runs == runs[..n] + [runs[n]];
      assert SetOf(runs) == SetOf(runs[..n]) + {runs[n]};
      assert runs[n] !in SetOf(runs[..n]);
    }
  }

  ghost function Ahead(s: set<Run>, r: Run): set<Run> {
    set q | q in s && Before(q, r)
  }

  // In a sorted list, the element at index i has exactly i elements of the list before it.
  lemma AheadAtIndex(runs: seq<Run>, i: nat)
    requires Sorted(runs) && i < |runs|
    ensures |Ahead(SetOf(runs), runs[i])| == i
  {
    DistinctCount(runs[..i]);
    forall q
      ensures q in Ahead(SetOf(runs), runs[i]) <==> q in SetOf(runs[..i])
    {
      if q in SetOf(runs) {
        var j :| 0 <= j < |runs| && runs[j] == q;
        if j < i {
          assert runs[..i][j] == q;
        } else if q in runs[..i] {
          assert false;
        }
      }
    }
    assert Ahead(SetOf(runs), runs[i]) == SetOf(runs[..i]);
  }

  // The place of a run in a ranking.
  lemma IndexOf(s: set<Run>, ranking: seq<Run>, r: Run) returns (i: nat)
    requires IsRanking(s, ranking) && r in Best(s)
    ensures i < |ranking| && ranking[i] == r && |Ahead(Best(s), r)| == i
  {
    InSetOf(r, ranking);
    i :| 0 <= i < |ranking| && ranking[i] == r;
    AheadAtIndex(ranking, i);
  }

  // The input order of the runs does not matter.
  lemma OrderIrrelevant(a: seq<Run>, b: seq<Run>, window: Window, nowMs: int, ra: seq<Run>, rb: seq<Run>)
    requires multiset(a) == multiset(b)
    requires IsRanking(Visible(SetOf(a), window, nowMs), ra)
    requires IsRanking(Visible(SetOf(b), window, nowMs), rb)
    ensures ra == rb
  {
    forall r
      ensures r in a <==> r in b
    {
      assert r in a <==> r in multiset(a);
      assert r in b <==> r in multiset(b);
    }
    assert SetOf(a) == SetOf(b);
    RankingUnique(ra, rb);
  }

  // ----- The windowed query

  // A row as the table has it: unsigned numbers and a valid time.
  ghost predicate Stored(e: Event) {
    && 0 <= e.newBest < 0x1_0000_0000 && 0 <= e.mintedDelta < 0x1_0000_0000 && 0 <= e.seed < 0x1_0000_0000
    && e.closedAt > 0
  }

  ghost predicate GoodRows(rows: set<Event>) {
    && (forall e :: e in rows ==> Stored(e))
    && (forall d, e :: d in rows && e in rows && d.eventId == e.eventId ==> d == e)
  }

  // ORDER BY new_best DESC, closed_at ASC, event_id ASC
  predicate RowBefore(a: Event, b: Event) {
    || a.newBest > b.newBest
    || (a.newBest == b.newBest && a.closedAt < b.closedAt)
    || (a.newBest == b.newBest && a.closedAt == b.closedAt && a.eventId < b.eventId)
  }

  ghost function RowsAhead(rows: set<Event>, e: Event): set<Event> {
    set d | d in rows && RowBefore(d, e)
  }

  ghost function RowNumber(rows: set<Event>, e: Event): nat {
    1 + |RowsAhead(rows, e)|
  }

  // How old an entry of a window is at most.
  ghost predicate Recent(at: int, window: Window, nowMs: int) {
    match window
    case TenMinutes => nowMs - at <= 10 * 60 * 1000
    case Day => nowMs - at <= 24 * 60 * 60 * 1000
    case All => true
  }

  ghost function Filtered(rows: set<Event>, window: Window, nowMs: int): set<Event> {
    set e | e in rows && Recent(e.closedAt, window, nowMs)
  }

  // The windows show exactly the runs of their age, so each shows those of the shorter ones.
  lemma WindowsNest(runs: set<Run>, nowMs: int)
    ensures forall r, w :: r in Visible(runs, w, nowMs) <==>
              r in runs && r.completedAt != 0 && Recent(r.completedAt, w, nowMs)
    ensures Visible(runs, TenMinutes, nowMs) <= Visible(runs, Day, nowMs) <= Visible(runs, All, nowMs)
    ensures forall r :: r in runs && r.completedAt == nowMs - 60 * 60 * 1000 && r.completedAt != 0 ==>
              r in Visible(runs, Day, nowMs) && r !in Visible(runs, TenMinutes, nowMs)
  {
  }

  // The run of an event has its columns.
  ghost predicate ShowsRow(r: Run, e: Event) {
    && r.jobId == e.eventId && r.claimant == e.claimant && r.completedAt == e.closedAt
    && r.score == e.newBest && r.mintedDelta == e.mintedDelta && r.seed == e.seed
  }

  lemma RunShowsRow(e: Event)
    requires Stored(e)
    ensures ShowsRow(ToRun(e), e)
  {
  }

  // Events give runs one by one, in order; those without a valid time or a positive score give none.
  lemma {:induction false} RunsOneByOne(a: seq<Event>, b: seq<Event>)
    ensures RunsOf(a + b) == RunsOf(a) + RunsOf(b)
    ensures |a| == 1 ==> if a[0].closedAt == 0 || a[0].newBest <= 0 then RunsOf(a) == [] else |RunsOf(a)| == 1
    ensures |a| == 1 && Stored(a[0]) && a[0].newBest > 0 ==> ShowsRow(RunsOf(a)[0], a[0])
    decreases |b|
  {
    hide ToRun;
    if |a| == 1 {
      assert a[..0] == [];
      if Stored(a[0]) {
        RunShowsRow(a[0]);
      }
    }
    if |b| == 0 {
      assert a + b == a;
    } else {
      var n := |b| - 1;
      assert (a + b)[..|a| + n] == a + b[..n];
      RunsOneByOne(a, b[..n]);
    }
  }

  ghost function OfClaimant(rows: set<Event>, claimant: string): set<Event> {
    set e | e in rows && e.claimant == claimant
  }

  // The rows numbered 1 within their claimant.
  ghost function BestRows(rows: set<Event>): set<Event> {
    set e | e in rows && RowNumber(OfClaimant(rows, e.claimant), e) == 1
  }

  ghost function Positive(rows: set<Event>): set<Event> {
    set e | e in rows && e.newBest > 0
  }

  ghost function RunSet(rows: set<Event>): set<Run> {
    set e | e in rows :: ToRun(e)
  }

  function RowSet(events: seq<Event>): set<Event> {
    set e | e in events
  }

  lemma FirstOfClaimant(rows: set<Event>, e: Event)
    requires e in rows
    ensures e in BestRows(rows) <==> forall d :: d in rows && d.claimant == e.claimant ==> !RowBefore(d, e)
  {
    var ahead := RowsAhead(OfClaimant(rows, e.claimant), e);
    if |ahead| == 0 {
      assert forall d :: d in rows && d.claimant == e.claimant && RowBefore(d, e) ==> d in ahead;
    }
    if e !in BestRows(rows) {
      assert |ahead| > 0;
      var d :| d in ahead;
      assert d in rows && d.claimant == e.claimant && RowBefore(d, e);
    }
  }

  lemma RowBeforeIsBefore(a: Event, b: Event)
    requires Stored(a) && Stored(b)
    ensures RowBefore(a, b) <==> Before(ToRun(a), ToRun(b))
  {
  }

  lemma {:induction false} RunsOfRows(events: seq<Event>)
    requires forall e :: e in events ==> Stored(e)
    ensures SetOf(RunsOf(events)) == RunSet(Positive(RowSet(events)))
    decreases |events|
  {
    hide ToRun;
    if |events| == 0 {
      assert SetOf(RunsOf(events)) == {};
    } else {
      var n := |events| - 1;
      RunsOfRows(events[..n]);
      assert events == events[..n] + [events[n]];
      var before, after := Positive(RowSet(events[..n])), Positive(RowSet(events));
      if Counts(events[n]) {
        assert after == before + {events[n]};
        assert RunSet(after) == RunSet(before) + {ToRun(events[n])};
        assert SetOf(RunsOf(events)) == SetOf(RunsOf(events[..n])) + {ToRun(events[n])};
      } else {
        assert after == before;
      }
    }
  }

  lemma ToRunInjective(a: Event, b: Event)
    requires Stored(a) && Stored(b) && a.eventId != b.eventId
    ensures ToRun(a) != ToRun(b)
  {
  }

  lemma {:induction false} RunSetCount(rows: set<Event>)
    requires GoodRows(rows)
    ensures |RunSet(rows)| == |rows|
    decreases |rows|
  {
    if rows == {} {
      assert RunSet(rows) == {};
    } else {
      var e :| e in rows;
      var rest := rows - {e};
      RunSetCount(rest);
      assert RunSet(rows) == RunSet(rest) + {ToRun(e)};
      forall d | d in rest
        ensures ToRun(d) != ToRun(e)
      {
        ToRunInjective(d, e);
      }
      assert ToRun(e) !in RunSet(rest);
    }
  }

  // Among positive rows, the best runs are the runs of the best rows.
  lemma BestMatches(rows: set<Event>)
    requires GoodRows(rows)
    ensures Best(RunSet(Positive(rows))) == RunSet(Positive(BestRows(rows)))
  {
    hide ToRun;
    var s := RunSet(Positive(rows));
    forall e | e in Positive(rows)
      ensures ToRun(e) in Best(s) <==> e in BestRows(rows)
    {
      BestMatchesOne(rows, e);
    }
  }

  lemma BestMatchesOne(rows: set<Event>, e: Event)
    requires GoodRows(rows) && e in Positive(rows)
    ensures ToRun(e) in Best(RunSet(Positive(rows))) <==> e in BestRows(rows)
  {
    hide BestRows;
    FirstOfClaimant(rows, e);
    var s := RunSet(Positive(rows));
    if e in BestRows(rows) {
      forall q | q in s && q.claimant == e.claimant && q != ToRun(e)
        ensures Before(ToRun(e), q)
      {
        var d :| d in Positive(rows) && ToRun(d) == q;
        RowBeforeIsBefore(d, e);
        ToRunIds(d, e);
      }
    } else {
      var d :| d in rows && d.claimant == e.claimant && RowBefore(d, e);
      RowBeforeIsBefore(d, e);
      assert ToRun(d) in s && ToRun(d) != ToRun(e);
    }
  }

  lemma ToRunIds(a: Event, b: Event)
    requires Stored(a) && Stored(b) && ToRun(a) != ToRun(b)
    ensures Before(ToRun(a), ToRun(b)) || Before(ToRun(b), ToRun(a)) || a.eventId == b.eventId
    ensures ToRun(a).jobId == a.eventId && ToRun(b).jobId == b.eventId
  {
  }

  lemma VisibleMatches(rows: set<Event>, window: Window, nowMs: int)
    requires GoodRows(rows)
    ensures Visible(RunSet(Positive(rows)), window, nowMs) == RunSet(Positive(Filtered(rows, window, nowMs)))
  {
  }

  lemma AheadMatches(best: set<Event>, e: Event)
    requires GoodRows(best) && e in Positive(best)
    ensures |Ahead(RunSet(Positive(best)), ToRun(e))| == |RowsAhead(best, e)|
  {
    hide ToRun;
    var rows := RowsAhead(best, e);
    forall d | d in best
      ensures RowBefore(d, e) <==> Before(ToRun(d), ToRun(e))
    {
      RowBeforeIsBefore(d, e);
    }
    assert Ahead(RunSet(Positive(best)), ToRun(e)) == RunSet(rows);
    RunSetCount(rows);
  }

  // The computed ranking is the query's ranking of the rows with positive scores, with the query's
  // rank numbers; the totals agree exactly when every best row of the query is positive.
  lemma RankingRefinesQuery(events: seq<Event>, window: Window, nowMs: int, ranking: seq<Run>)
    requires GoodRows(RowSet(events))
    requires IsRanking(Visible(SetOf(RunsOf(events)), window, nowMs), ranking)
    ensures var best := BestRows(Filtered(RowSet(events), window, nowMs));
            && SetOf(ranking) == RunSet(Positive(best))
            && (forall e :: e in Positive(best) ==>
                  var k := RowNumber(best, e);
                  k <= |ranking| && ranking[k - 1] == ToRun(e) && ShowsRow(ranking[k - 1], e))
            && (|ranking| == |best| <==> Positive(best) == best)
  {
    hide ToRun, Visible, Best, Sorted, Ahead, SetOf, RowsAhead, BestRows, Filtered, RunSet, RunsOf;
    var rows := RowSet(events);
    var filtered := Filtered(rows, window, nowMs);
    var best := BestRows(filtered);
    var s := Visible(SetOf(RunsOf(events)), window, nowMs);
    RunsOfRows(events);
    VisibleMatches(rows, window, nowMs);
    FilteredGood(rows, window, nowMs);
    BestMatches(filtered);
    forall e | e in Positive(best)
      ensures var k := RowNumber(best, e);
              k <= |ranking| && ranking[k - 1] == ToRun(e) && ShowsRow(ranking[k - 1], e)
    {
      AheadMatches(best, e);
      InRunSet(Positive(best), e);
      RunShowsRow(e);
      var i := IndexOf(s, ranking, ToRun(e));
    }
    DistinctCount(ranking);
    RunSetCount(Positive(best));
    PositiveCount(best);
  }

  lemma FilteredGood(rows: set<Event>, window: Window, nowMs: int)
    requires GoodRows(rows)
    ensures var filtered := Filtered(rows, window, nowMs);
            GoodRows(filtered) && GoodRows(BestRows(filtered)) && GoodRows(Positive(BestRows(filtered)))
  {
  }

  lemma InRunSet(rows: set<Event>, e: Event)
    requires e in rows
    ensures ToRun(e) in RunSet(rows)
  {
  }

  lemma PositiveCount(rows: set<Event>)
    ensures |Positive(rows)| == |rows| <==> Positive(rows) == rows
  {
    var p := Positive(rows);
    assert rows == p + (rows - p);
    assert |rows| == |p| + |rows - p|;
  }

  // ----- One more run

  lemma BeforeOrder(a: Run, b: Run, c: Run)
    ensures Before(a, b) && Before(b, c) ==> Before(a, c)
    ensures !(Before(a, b) && Before(b, a))
    ensures a.jobId != b.jobId ==> Before(a, b) || Before(b, a)
  {
  }

  // Claimants other than the new run's keep their best run.
  lemma OthersKeepBest(s: set<Run>, x: Run, r: Run)
    requires UniqueIds(s + {x}) && r.claimant != x.claimant
    ensures r in Best(s) <==> r in Best(s + {x})
  {
  }

  // The new run's claimant has a best run afterwards that is no worse than a former one.
  lemma NewBest(s: set<Run>, x: Run) returns (b: Run)
    requires UniqueIds(s + {x})
    ensures b in Best(s + {x}) && b.claimant == x.claimant
    ensures forall o :: o in Best(s) && o.claimant == x.claimant ==> b == o || Before(b, o)
    ensures forall q :: q in Best(s + {x}) && q.claimant == x.claimant ==> q == b
  {
    var own := set q | q in s + {x} && q.claimant == x.claimant;
    assert x in own;
    b := Minimum(own, s + {x});
  }

  // A nonempty set of runs has a first one.
  lemma {:induction false} Minimum(own: set<Run>, all: set<Run>) returns (m: Run)
    requires own != {} && own <= all && UniqueIds(all)
    ensures m in own && forall q :: q in own && q != m ==> Before(m, q)
    decreases |own|
  {
    hide Before;
    var r :| r in own;
    var rest := own - {r};
    assert own == rest + {r};
    if rest == {} {
      m := r;
    } else {
      var n := Minimum(rest, all);
      assert r in all && n in all && r != n;
      BeforeOrder(r, n, n);
      m := if Before(r, n) then r else n;
      forall q | q in own && q != m
        ensures Before(m, q)
      {
        BeforeOrder(r, n, q);
      }
    }
  }

  // A ranking shows every claimant with a visible run, each once.
  lemma EachClaimantOnce(s: set<Run>, ranking: seq<Run>)
    requires UniqueIds(s) && IsRanking(s, ranking)
    ensures forall i, j :: 0 <= i < j < |ranking| ==> ranking[i].claimant != ranking[j].claimant
    ensures forall r :: r in s ==> exists i :: 0 <= i < |ranking| && ranking[i].claimant == r.claimant
  {
    hide Before, Sorted;
    forall i, j | 0 <= i < j < |ranking|
      ensures ranking[i].claimant != ranking[j].claimant
    {
      InSetOf(ranking[i], ranking);
      InSetOf(ranking[j], ranking);
      BeforeOrder(ranking[i], ranking[j], ranking[i]);
      assert Before(ranking[i], ranking[j]) by { SortedAt(ranking, i, j); }
    }
    forall r | r in s
      ensures exists i :: 0 <= i < |ranking| && ranking[i].claimant == r.claimant
    {
      var own := set q | q in s && q.claimant == r.claimant;
      assert r in own;
      var m := Minimum(own, s);
      assert m in Best(s);
      InSetOf(m, ranking);
    }
  }

  lemma SortedAt(runs: seq<Run>, i: nat, j: nat)
    requires Sorted(runs) && i < j < |runs|
    ensures Before(runs[i], runs[j]) && runs[i] != runs[j]
  {
  }

  // The number of best runs ahead of another claimant's run grows by one at most.
  lemma AheadGrows(s: set<Run>, x: Run, r: Run)
    requires UniqueIds(s + {x}) && r.claimant != x.claimant
    ensures |Ahead(Best(s), r)| <= |Ahead(Best(s + {x}), r)| <= |Ahead(Best(s), r)| + 1
  {
    hide Before, Best, Ahead, Part;
    var b := NewBest(s, x);
    var was, now := Ahead(Best(s), r), Ahead(Best(s + {x}), r);
    AheadSubset(Best(s), r);
    AheadSubset(Best(s + {x}), r);
    SplitAhead(was, x.claimant);
    SplitAhead(now, x.claimant);
    OthersAhead(s, x, r);
    OneBest(s, was, x.claimant);
    OneBest(s + {x}, now, x.claimant);
    MineAhead(s, x, b, r);
  }

  lemma AheadSubset(s: set<Run>, r: Run)
    ensures Ahead(s, r) <= s
  {
  }

  // The runs of a claimant, or those of all others.
  ghost function Part(s: set<Run>, claimant: string, mine: bool): set<Run> {
    set q | q in s && (q.claimant == claimant) == mine
  }

  lemma SplitAhead(s: set<Run>, claimant: string)
    ensures |s| == |Part(s, claimant, true)| + |Part(s, claimant, false)|
  {
    assert s == Part(s, claimant, true) + Part(s, claimant, false);
    assert Part(s, claimant, true) * Part(s, claimant, false) == {};
  }

  lemma OthersAhead(s: set<Run>, x: Run, r: Run)
    requires UniqueIds(s + {x})
    ensures Part(Ahead(Best(s + {x}), r), x.claimant, false) == Part(Ahead(Best(s), r), x.claimant, false)
  {
    hide Best, Before;
    forall q: Run | q.claimant != x.claimant
      ensures q in Best(s) <==> q in Best(s + {x})
    {
      OthersKeepBest(s, x, q);
    }
  }

  lemma MineAhead(s: set<Run>, x: Run, b: Run, r: Run)
    requires b in Best(s + {x}) && b.claimant == x.claimant
    requires forall o :: o in Best(s) && o.claimant == x.claimant ==> b == o || Before(b, o)
    ensures Part(Ahead(Best(s), r), x.claimant, true) != {} ==> Part(Ahead(Best(s + {x}), r), x.claimant, true) != {}
  {
    hide Best, Before;
    if o :| o in Part(Ahead(Best(s), r), x.claimant, true) {
      BeforeOrder(b, o, r);
      assert b in Part(Ahead(Best(s + {x}), r), x.claimant, true);
    }
  }

  lemma OneBest(s: set<Run>, ahead: set<Run>, claimant: string)
    requires ahead <= Best(s)
    ensures |Part(ahead, claimant, true)| <= 1
  {
    var mine := Part(ahead, claimant, true);
    if |mine| > 1 {
      var a :| a in mine;
      assert |mine - {a}| == |mine| - 1;
      var b :| b in mine - {a};
      BeforeOrder(a, b, a);
    }
  }

  // After one more run, every other claimant's entry stays where it is or moves down one place, and
  // the run's own claimant, if ranked before, is ranked no lower.
  lemma OneMoreRun(runs: seq<Run>, x: Run, window: Window, nowMs: int, before: seq<Run>, after: seq<Run>, i: nat)
    requires UniqueIds(SetOf(runs + [x]))
    requires IsRanking(Visible(SetOf(runs), window, nowMs), before)
    requires IsRanking(Visible(SetOf(runs + [x]), window, nowMs), after)
    requires i < |before|
    ensures before[i].claimant != x.claimant ==>
              || (i < |after| && after[i] == before[i])
              || (i + 1 < |after| && after[i + 1] == before[i])
    ensures before[i].claimant == x.claimant ==>
              exists j :: 0 <= j <= i && j < |after| && after[j].claimant == x.claimant
  {
    hide Best, Sorted, Before, Visible, Ahead;
    var s, t := Visible(SetOf(runs), window, nowMs), Visible(SetOf(runs + [x]), window, nowMs);
    assert SetOf(runs + [x]) == SetOf(runs) + {x};
    VisibleWith(SetOf(runs), x, window, nowMs);
    InSetOf(before[i], before);
    var r := before[i];
    var k := IndexOf(s, before, r);
    AheadAtIndex(before, i);
    if !InWindow(x, window, nowMs) {
      RankingUnique(before, after);
    } else {
      VisibleUnique(SetOf(runs), x, window, nowMs);
      if r.claimant != x.claimant {
        OthersKeepBest(s, x, r);
        AheadGrows(s, x, r);
        var j := IndexOf(t, after, r);
      } else {
        var b := NewBest(s, x);
        var j := IndexOf(t, after, b);
        NewBestAhead(s, x, b, r);
      }
    }
  }

  lemma VisibleUnique(s: set<Run>, x: Run, window: Window, nowMs: int)
    requires UniqueIds(s + {x})
    ensures UniqueIds(Visible(s, window, nowMs) + {x})
  {
  }

  lemma NewBestAhead(s: set<Run>, x: Run, b: Run, o: Run)
    requires UniqueIds(s + {x}) && o in Best(s) && o.claimant == x.claimant
    requires b in Best(s + {x}) && b.claimant == x.claimant && (b == o || Before(b, o))
    ensures |Ahead(Best(s + {x}), b)| <= |Ahead(Best(s), o)|
  {
    hide Before;
    var now, was := Ahead(Best(s + {x}), b), Ahead(Best(s), o);
    forall q | q in now
      ensures q in was
    {
      BeforeOrder(q, b, o);
      BeforeOrder(q, b, q);
      if q.claimant != x.claimant {
        OthersKeepBest(s, x, q);
      }
    }
    assert was == now + (was - now);
    assert |was| == |now| + |was - now|;
  }
}
