// Following the page links of one ranking from the first page on.
module PageWalk {
  import opened Basics
  import opened Ranking

  // What is shown so far, and the link to the next page.
  datatype Walk = Walk(shown: seq<RankedEntry>, next: Option<nat>)

  // The page at an offset: offsets are clamped before they are used.
  function PageFrom(entries: seq<RankedEntry>, limit: nat, offset: nat): Walk {
    var o := ClampOffset(Some(offset));
    Walk(Slice(entries, o, o + limit), if o + limit < |entries| then Some(o + limit) else None)
  }

  // The first k pages.
  function Pages(entries: seq<RankedEntry>, limit: nat, k: nat): Walk {
    if k == 0 then Walk([], Some(0))
    else
      var w := Pages(entries, limit, k - 1);
      if w.next.None? then w
      else
        var page := PageFrom(entries, limit, w.next.value);
        Walk(w.shown + page.shown, page.next)
  }

  // The offset of the last page.
  function LastOffset(n: nat, limit: nat): nat
    requires limit > 0
  {
    if n == 0 then 0 else (n - 1) / limit * limit
  }

  // The limits of a page: 25 entries unless asked for 1 to 100, and an offset of at most 10000.
  lemma PageBounds(ranking: seq<Run>, limit: Option<int>, offset: Option<int>, claimant: Option<string>, p: Page)
    requires IsPage(ranking, limit, offset, claimant, p)
    ensures limit.None? ==> p.limit == 25
    ensures limit.Some? ==> p.limit == if limit.value < 1 then 1 else if limit.value > 100 then 100 else limit.value
    ensures offset.None? ==> p.offset == 0
    ensures offset.Some? ==>
              p.offset == if offset.value < 0 then 0 else if offset.value > 10000 then 10000 else offset.value
    ensures |p.entries| <= p.limit
    ensures forall i :: 0 <= i < |p.entries| ==>
              && p.entries[i].rank == p.offset + i + 1
              && p.offset + i < |ranking| && p.entries[i].run == ranking[p.offset + i]
  {
  }

  // These pages are the ones the leaderboard serves.
  lemma ServedPage(ranking: seq<Run>, limit: int, offset: nat, claimant: Option<string>, p: Page)
    requires IsPage(ranking, Some(limit), Some(offset), claimant, p)
    ensures Walk(p.entries, p.nextOffset) == PageFrom(ToRankedEntries(ranking), ClampLimit(Some(limit)), offset)
  {
  }

  lemma Multiples(n: nat, limit: nat, k: nat)
    requires limit > 0 && n > 0
    ensures k < (n - 1) / limit ==> k * limit + limit <= LastOffset(n, limit)
    ensures k <= (n - 1) / limit <==> k * limit <= LastOffset(n, limit)
    ensures LastOffset(n, limit) < n <= LastOffset(n, limit) + limit
  {
    var q := (n - 1) / limit;
    assert q * limit <= n - 1 < q * limit + limit;
    if k < q {
      MultiplyLess(k + 1, q, limit);
      assert (k + 1) * limit == k * limit + limit;
    } else if k > q {
      MultiplyLess(q + 1, k, limit);
      assert (q + 1) * limit == q * limit + limit;
    }
  }

  lemma MultiplyLess(a: nat, b: nat, c: nat)
    requires a <= b
    ensures a * c <= b * c
  {
  }

  // As long as no offset is clamped, k pages show the first k * limit entries.
  lemma {:induction false} WalkPrefix(entries: seq<RankedEntry>, limit: nat, k: nat)
    requires limit > 0 && |entries| > 0
    requires k <= (|entries| - 1) / limit && LastOffset(|entries|, limit) <= MAX_LEADERBOARD_OFFSET
    ensures k * limit < |entries|
    ensures Pages(entries, limit, k) == Walk(entries[..k * limit], Some(k * limit))
  {
    hide LastOffset, PageFrom;
    Multiples(|entries|, limit, k);
    if k == 0 {
    } else {
      Multiples(|entries|, limit, k - 1);
      WalkPrefix(entries, limit, k - 1);
      Previous(k, limit);
      UnclampedPage(entries, limit, (k - 1) * limit);
    }
  }

  lemma Previous(k: nat, limit: nat)
    requires k > 0
    ensures k * limit == (k - 1) * limit + limit
  {
  }

  lemma UnclampedPage(entries: seq<RankedEntry>, limit: nat, o: nat)
    requires o <= MAX_LEADERBOARD_OFFSET && o + limit < |entries|
    ensures PageFrom(entries, limit, o) == Walk(entries[o..o + limit], Some(o + limit))
    ensures entries[..o] + entries[o..o + limit] == entries[..o + limit]
  {
  }

  // Then the walk ends and its pages are the whole ranking in order.
  lemma WalkComplete(entries: seq<RankedEntry>, limit: nat) returns (k: nat)
    requires limit > 0 && LastOffset(|entries|, limit) <= MAX_LEADERBOARD_OFFSET
    ensures Pages(entries, limit, k) == Walk(entries, None)
  {
    var n := |entries|;
    if n == 0 {
      k := 1;
      assert Pages(entries, limit, 0) == Walk([], Some(0));
    } else {
      var last := (n - 1) / limit;
      Multiples(n, limit, last);
      WalkPrefix(entries, limit, last);
      k := last + 1;
      var o := last * limit;
      assert entries[..o] + entries[o..] == entries;
    }
  }

  // Once an offset is clamped, the walk repeats entries, and it may never end.
  ghost predicate OffTrack(entries: seq<RankedEntry>, limit: nat, w: Walk) {
    if w.next.None? then |w.shown| > |entries|
    else w.next.value == MAX_LEADERBOARD_OFFSET + limit < |entries|
  }

  lemma {:induction false} WalkStuck(entries: seq<RankedEntry>, limit: nat, k: nat)
    requires limit > 0 && LastOffset(|entries|, limit) > MAX_LEADERBOARD_OFFSET
    ensures var w := Pages(entries, limit, k);
            || (k * limit <= LastOffset(|entries|, limit) && w.next == Some(k * limit) && |w.shown| == k * limit)
            || OffTrack(entries, limit, w)
  {
    hide LastOffset, PageFrom;
    if k == 0 {
    } else {
      WalkStuck(entries, limit, k - 1);
      var w := Pages(entries, limit, k - 1);
      HasEntries(entries, limit);
      Multiples(|entries|, limit, k - 1);
      Multiples(|entries|, limit, k);
      Previous(k, limit);
      if !OffTrack(entries, limit, w) && (k - 1) * limit <= MAX_LEADERBOARD_OFFSET {
        BelowLast(|entries|, limit, k - 1);
        UnclampedPage(entries, limit, (k - 1) * limit);
      } else if w.next.Some? {
        ClampedPage(entries, limit, w.next.value);
      }
    }
  }

  lemma ClampedPage(entries: seq<RankedEntry>, limit: nat, o: nat)
    requires o > MAX_LEADERBOARD_OFFSET && |entries| > MAX_LEADERBOARD_OFFSET
    ensures var page := PageFrom(entries, limit, o);
            if MAX_LEADERBOARD_OFFSET + limit < |entries| then page.next == Some(MAX_LEADERBOARD_OFFSET + limit)
            else page.next.None? && |page.shown| == |entries| - MAX_LEADERBOARD_OFFSET
  {
  }

  lemma HasEntries(entries: seq<RankedEntry>, limit: nat)
    requires limit > 0 && LastOffset(|entries|, limit) > MAX_LEADERBOARD_OFFSET
    ensures |entries| > MAX_LEADERBOARD_OFFSET
  {
    if |entries| > 0 {
      Multiples(|entries|, limit, 0);
    }
  }

  lemma BelowLast(n: nat, limit: nat, k: nat)
    requires limit > 0 && n > 0 && k * limit < LastOffset(n, limit)
    ensures k * limit + limit <= LastOffset(n, limit)
  {
    Multiples(n, limit, k);
    if k >= (n - 1) / limit {
      MultiplyLess((n - 1) / limit, k, limit);
    }
  }

  // The walk shows the whole ranking, and ends, exactly when its last page starts within the
  // largest offset that is served.
  lemma WalkExact(entries: seq<RankedEntry>, limit: nat)
    requires limit > 0
    ensures (exists k :: Pages(entries, limit, k) == Walk(entries, None)) <==>
            LastOffset(|entries|, limit) <= MAX_LEADERBOARD_OFFSET
  {
    if LastOffset(|entries|, limit) <= MAX_LEADERBOARD_OFFSET {
      var k := WalkComplete(entries, limit);
    } else {
      forall k
        ensures Pages(entries, limit, k) != Walk(entries, None)
      {
        WalkStuck(entries, limit, k);
      }
    }
  }

  // So it does for up to 10000 players, whatever the limit.
  lemma WalkOfTenThousand(ranking: seq<Run>, limit: int) returns (k: nat)
    requires |ranking| <= MAX_LEADERBOARD_OFFSET
    ensures Pages(ToRankedEntries(ranking), ClampLimit(Some(limit)), k) == Walk(ToRankedEntries(ranking), None)
    ensures forall i :: 0 <= i < |ranking| ==> ToRankedEntries(ranking)[i] == RankedEntry(ranking[i], i + 1)
  {
    var l := ClampLimit(Some(limit));
    if |ranking| > 0 {
      Multiples(|ranking|, l, 0);
    }
    k := WalkComplete(ToRankedEntries(ranking), l);
  }
}
