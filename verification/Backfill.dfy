// The backfill of tape mappings: unmapped leaderboard events are joined to proof jobs, first through
// the claim index, then through the jobs of their claimant.
module Backfill {
  import opened Basics
  import opened Recovery

  // The outside world during one backfill. The index is absent when it cannot be loaded; listing
  // number k or write number k fails when so said; a job has a replay tape or not.
  datatype Env = Env(
    norm: Normalizer,
    index: Option<seq<ClaimEntry>>,
    jobsOf: string -> seq<Job>,
    hasTape: string -> bool,
    listFails: nat -> bool,
    writeFails: nat -> bool)

  datatype Mapping = Mapping(event: Unmapped, jobId: string)

  datatype Result = Result(unmapped: nat, matched: nat, written: nat, errors: nat)

  // ----- Which mappings are sound

  function EntryKey(norm: Normalizer, entry: ClaimEntry): string {
    var h := norm(entry.txHash);
    if h.Some? then h.value else entry.txHash
  }

  predicate EntryFits(norm: Normalizer, entry: ClaimEntry, e: Unmapped) {
    && norm(e.txHash) == Some(EntryKey(norm, entry))
    && entry.claimant == e.claimant
    && entry.seed == Uint32(e.seed)
    && entry.finalScore == Uint32(e.finalScore)
  }

  ghost predicate ByIndex(env: Env, m: Mapping) {
    && env.index.Some?
    && exists entry ::
         entry in env.index.value && EntryFits(env.norm, entry, m.event) && entry.proofJobId == m.jobId
  }

  ghost predicate ByClaim(env: Env, m: Mapping) {
    exists j :: j in env.jobsOf(m.event.claimant) && j.jobId == m.jobId && ExactMatch(env.norm, j, m.event)
  }

  ghost predicate ByElimination(env: Env, m: Mapping) {
    var jobs := env.jobsOf(m.event.claimant);
    && (forall j :: j in jobs ==> !ExactMatch(env.norm, j, m.event))
    && exists j :: OnlyCandidate(env.norm, jobs, m.event, j) && j.jobId == m.jobId
  }

  // A mapping is written for one of three reasons, and only to a job that has its tape.
  ghost predicate Sound(env: Env, m: Mapping) {
    env.hasTape(m.jobId) && (ByIndex(env, m) || ByClaim(env, m) || ByElimination(env, m))
  }

  // ----- What a sound mapping joins, in terms of the fields

  // The job played the event: same seed and same score.
  ghost predicate Played(j: Job, e: Unmapped) {
    j.seed == Some(e.seed) && j.finalScore == Some(e.finalScore)
  }

  // The job's claim, or one of its attempts, has the event's transaction.
  ghost predicate ClaimedBy(norm: Normalizer, j: Job, e: Unmapped) {
    && norm(e.txHash).Some?
    && ((j.claimTxHash.Some? && norm(j.claimTxHash.value) == norm(e.txHash)) ||
        exists i :: 0 <= i < |j.attemptTxHashes| && j.attemptTxHashes[i].Some? &&
                    norm(j.attemptTxHashes[i].value) == norm(e.txHash))
  }

  // The index entry has the event's claimant, transaction, seed and score.
  ghost predicate Names(norm: Normalizer, entry: ClaimEntry, e: Unmapped) {
    && entry.claimant == e.claimant
    && norm(e.txHash).Some?
    && (norm(entry.txHash) == norm(e.txHash) || (norm(entry.txHash).None? && Some(entry.txHash) == norm(e.txHash)))
    && 0 <= entry.seed < 0x1_0000_0000 && (entry.seed - e.seed) % 0x1_0000_0000 == 0
    && 0 <= entry.finalScore < 0x1_0000_0000 && (entry.finalScore - e.finalScore) % 0x1_0000_0000 == 0
  }

  // The job at place i is the only one that played the event, or the only one of those whose claim
  // succeeded.
  ghost predicate Alone(jobs: seq<Job>, e: Unmapped, i: int) {
    && 0 <= i < |jobs| && Played(jobs[i], e)
    && ((jobs[i].succeeded && forall k :: 0 <= k < |jobs| && k != i && Played(jobs[k], e) ==> !jobs[k].succeeded) ||
        forall k :: 0 <= k < |jobs| && k != i ==> !Played(jobs[k], e))
  }

  // A mapping joins an event to an index entry of the same claimant, transaction, seed and score; or
  // to a job of the claimant with the same seed and score, which claimed the transaction, or is the
  // only one to be when none claimed it.
  ghost predicate Joins(env: Env, m: Mapping) {
    var e, jobs := m.event, env.jobsOf(m.event.claimant);
    && env.hasTape(m.jobId)
    && (|| (&& env.index.Some?
            && exists entry :: entry in env.index.value && Names(env.norm, entry, e) && entry.proofJobId == m.jobId)
        || (exists j :: j in jobs && j.jobId == m.jobId && Played(j, e) && ClaimedBy(env.norm, j, e))
        || (&& (exists i :: Alone(jobs, e, i) && jobs[i].jobId == m.jobId)
            && forall j :: j in jobs && Played(j, e) ==> !ClaimedBy(env.norm, j, e)))
  }

  lemma FitsNames(norm: Normalizer, entry: ClaimEntry, e: Unmapped)
    ensures EntryFits(norm, entry, e) <==> Names(norm, entry, e)
  {
    WrapsOnce(e.seed, entry.seed);
    WrapsOnce(e.finalScore, entry.finalScore);
  }

  lemma WrapsOnce(n: int, u: int)
    ensures u == Uint32(n) <==> 0 <= u < 0x1_0000_0000 && (u - n) % 0x1_0000_0000 == 0
  {
    assert n == n / 0x1_0000_0000 * 0x1_0000_0000 + n % 0x1_0000_0000;
  }

  lemma ExactIsClaimed(norm: Normalizer, j: Job, e: Unmapped)
    ensures ExactMatch(norm, j, e) <==> Played(j, e) && ClaimedBy(norm, j, e)
  {
    if norm(e.txHash).Some? {
      var h := norm(e.txHash).value;
      assert forall i :: 0 <= i < |j.attemptTxHashes| ==>
          (NormalizeOption(norm, j.attemptTxHashes[i]) == Some(h) <==>
           j.attemptTxHashes[i].Some? && norm(j.attemptTxHashes[i].value) == norm(e.txHash));
    }
  }

  lemma OnlyIsAlone(norm: Normalizer, jobs: seq<Job>, e: Unmapped, j: Job)
    requires OnlyCandidate(norm, jobs, e, j)
    ensures exists i :: Alone(jobs, e, i) && jobs[i] == j
  {
    if i :| OnlyAt(norm, Succeeded, jobs, e, i) && jobs[i] == j {
      assert Alone(jobs, e, i);
    } else {
      var i :| OnlyAt(norm, Same, jobs, e, i) && jobs[i] == j;
      assert Alone(jobs, e, i);
    }
  }

  // Sound mappings join what they should.
  lemma SoundJoins(env: Env, m: Mapping)
    requires Sound(env, m)
    ensures Joins(env, m)
  {
    hide EntryFits, Names, ExactMatch, Played, ClaimedBy, OnlyCandidate, Alone;
    var e, jobs := m.event, env.jobsOf(m.event.claimant);
    forall entry
      ensures EntryFits(env.norm, entry, e) <==> Names(env.norm, entry, e)
    {
      FitsNames(env.norm, entry, e);
    }
    forall j
      ensures ExactMatch(env.norm, j, e) <==> Played(j, e) && ClaimedBy(env.norm, j, e)
    {
      ExactIsClaimed(env.norm, j, e);
    }
    if ByElimination(env, m) {
      var j :| OnlyCandidate(env.norm, jobs, e, j) && j.jobId == m.jobId;
      OnlyIsAlone(env.norm, jobs, e, j);
    }
  }

  function EventsOf(writes: seq<Mapping>): seq<Unmapped> {
    if |writes| == 0 then [] else EventsOf(writes[..|writes| - 1]) + [writes[|writes| - 1].event]
  }

  // The last index entry of each key.
  function IndexMap(norm: Normalizer, entries: seq<ClaimEntry>): (m: map<string, ClaimEntry>)
    ensures forall k :: k in m ==> m[k] in entries && EntryKey(norm, m[k]) == k
  {
    if |entries| == 0 then map[]
    else
      var n := |entries| - 1;
      assert entries == entries[..n] + [entries[n]];
      IndexMap(norm, entries[..n])[EntryKey(norm, entries[n]) := entries[n]]
  }

  // Only exact matches, or the best ones.
  function Match(norm: Normalizer, jobs: seq<Job>, e: Unmapped, exactOnly: bool): Option<Job> {
    if exactOnly then FindExactMatchingProofJob(norm, jobs, e) else FindBestMatchingProofJob(norm, jobs, e, true)
  }

  // Where the job of an event is looked for.
  datatype Way = InIndex | Among(jobs: seq<Job>, exactOnly: bool)

  // The job that an event is mapped to, if one is found and its tape exists.
  function JobFor(env: Env, way: Way, e: Unmapped): Option<string> {
    match way
    case InIndex =>
      var h := env.norm(e.txHash);
      if env.index.None? || h.None? then None
      else
        var entries := IndexMap(env.norm, env.index.value);
        if h.value in entries && EntryFits(env.norm, entries[h.value], e)
        then WithTape(env, entries[h.value].proofJobId) else None
    case Among(jobs, exactOnly) =>
      var r := Match(env.norm, jobs, e, exactOnly);
      if r.Some? then WithTape(env, r.value.jobId) else None
  }

  function WithTape(env: Env, jobId: string): Option<string> {
    if env.hasTape(jobId) then Some(jobId) else None
  }

  // When an index has one entry per key, an event is mapped through it exactly when some entry fits.
  lemma IndexExact(env: Env, e: Unmapped, jobId: string)
    requires env.index.Some?
    requires forall a, b :: a in env.index.value && b in env.index.value ==>
               EntryKey(env.norm, a) == EntryKey(env.norm, b) ==> a == b
    ensures JobFor(env, InIndex, e) == Some(jobId) <==> env.hasTape(jobId) && ByIndex(env, Mapping(e, jobId))
  {
    hide IndexMap, EntryKey;
    IndexKeys(env.norm, env.index.value);
  }

  lemma {:induction false} IndexKeys(norm: Normalizer, entries: seq<ClaimEntry>)
    ensures forall entry :: entry in entries ==> EntryKey(norm, entry) in IndexMap(norm, entries)
    decreases |entries|
  {
    if |entries| == 0 {
    } else {
      IndexKeys(norm, entries[..|entries| - 1]);
    }
  }

  // A match among all jobs of the claimant is sound; an exact one among some of them already is.
  lemma MatchSound(env: Env, jobs: seq<Job>, e: Unmapped, exactOnly: bool)
    requires forall j :: j in jobs ==> j in env.jobsOf(e.claimant)
    requires !exactOnly ==> jobs == env.jobsOf(e.claimant)
    ensures var r := JobFor(env, Among(jobs, exactOnly), e);
            r.Some? ==> Sound(env, Mapping(e, r.value))
  {
    hide OnlyCandidate, ExactMatch;
    var exact := FindExactMatchingProofJob(env.norm, jobs, e);
    if !exactOnly && exact.None? {
      BestMatchExact(env.norm, jobs, e);
    }
  }

  lemma IndexSound(env: Env, e: Unmapped)
    ensures var r := JobFor(env, InIndex, e);
            r.Some? ==> Sound(env, Mapping(e, r.value))
  {
    hide IndexMap;
  }

  // ----- What one way finds, and what it leaves

  function Found(env: Env, way: Way, events: seq<Unmapped>): seq<Mapping> {
    if |events| == 0 then []
    else
      var n := |events| - 1;
      var r := JobFor(env, way, events[n]);
      Found(env, way, events[..n]) + if r.Some? then [Mapping(events[n], r.value)] else []
  }

  function Rest(env: Env, way: Way, events: seq<Unmapped>): seq<Unmapped> {
    if |events| == 0 then []
    else
      var n := |events| - 1;
      Rest(env, way, events[..n]) + if JobFor(env, way, events[n]).None? then [events[n]] else []
  }

  // Each event is found or left, and not both; what is left has no job this way.
  lemma FoundOrLeft(env: Env, way: Way, events: seq<Unmapped>)
    ensures multiset(EventsOf(Found(env, way, events))) + multiset(Rest(env, way, events)) == multiset(events)
    ensures forall e :: e in Rest(env, way, events) <==> e in events && JobFor(env, way, e).None?
    ensures forall m :: m in Found(env, way, events) ==> m.event in events && JobFor(env, way, m.event) == Some(m.jobId)
  {
    hide *;
    FoundCount(env, way, events);
    FoundExact(env, way, events);
  }

  lemma {:induction false} FoundCount(env: Env, way: Way, events: seq<Unmapped>)
    ensures multiset(EventsOf(Found(env, way, events))) + multiset(Rest(env, way, events)) == multiset(events)
    decreases |events|
  {
    hide JobFor, EventsOf;
    if |events| == 0 {
      NoEvents();
    } else {
      var n := |events| - 1;
      var front, e := events[..n], events[n];
      FoundCount(env, way, front);
      assert events == front + [e];
      var found, rest := Found(env, way, front), Rest(env, way, front);
      var r := JobFor(env, way, e);
      if r.Some? {
        EventsPush(found, Mapping(e, r.value));
        assert Rest(env, way, events) == rest;
      } else {
        Push(rest, e);
        assert Found(env, way, events) == found;
      }
      Push(front, e);
      MovedOne(multiset(EventsOf(found)), multiset(rest), multiset(front), e);
    }
  }

  lemma NoEvents()
    ensures EventsOf([]) == []
  {
  }

  lemma MovedOne<T>(found: multiset<T>, rest: multiset<T>, events: multiset<T>, x: T)
    requires found + rest == events
    ensures found + multiset{x} + rest == events + multiset{x}
    ensures found + (rest + multiset{x}) == events + multiset{x}
  {
    assert found + multiset{x} + rest == found + rest + multiset{x};
  }

  lemma {:induction false} FoundExact(env: Env, way: Way, events: seq<Unmapped>)
    ensures forall e :: e in Rest(env, way, events) <==> e in events && JobFor(env, way, e).None?
    ensures forall m :: m in Found(env, way, events) ==> m.event in events && JobFor(env, way, m.event) == Some(m.jobId)
    decreases |events|
  {
    hide JobFor;
    if |events| == 0 {
    } else {
      var n := |events| - 1;
      FoundExact(env, way, events[..n]);
      assert events == events[..n] + [events[n]];
    }
  }

  lemma {:induction false} NothingFound(env: Env, way: Way, events: seq<Unmapped>)
    requires forall e :: e in events ==> JobFor(env, way, e).None?
    ensures Found(env, way, events) == [] && Rest(env, way, events) == events
    decreases |events|
  {
    hide JobFor;
    if |events| == 0 {
    } else {
      var n := |events| - 1;
      NothingFound(env, way, events[..n]);
      assert events == events[..n] + [events[n]];
    }
  }

  // The mappings whose write succeeds, when number k of them is write number k.
  function Written(env: Env, tried: seq<Mapping>): seq<Mapping> {
    if |tried| == 0 then []
    else
      var n := |tried| - 1;
      Written(env, tried[..n]) + if env.writeFails(n) then [] else [tried[n]]
  }

  lemma WrittenPush(env: Env, tried: seq<Mapping>, m: Mapping)
    ensures Written(env, tried + [m]) == Written(env, tried) + if env.writeFails(|tried|) then [] else [m]
  {
    assert (tried + [m])[..|tried|] == tried;
  }

  lemma {:induction false} WrittenBounds(env: Env, tried: seq<Mapping>)
    ensures |Written(env, tried)| <= |tried|
    ensures forall m :: m in Written(env, tried) ==> m in tried
    ensures Written(env, tried) == tried <==> forall k :: 0 <= k < |tried| ==> !env.writeFails(k)
    decreases |tried|
  {
    hide Written;
    if |tried| == 0 {
      WrittenNothing(env);
    } else {
      var n := |tried| - 1;
      var front := tried[..n];
      assert tried == front + [tried[n]];
      WrittenBounds(env, front);
      WrittenPush(env, front, tried[n]);
      if !env.writeFails(n) && Written(env, tried) == tried {
        assert Written(env, front) == tried[..n];
      }
    }
  }

  lemma WrittenNothing(env: Env)
    ensures Written(env, []) == []
  {
  }

  // How many of a claimant's jobs are listed, page by page, until the limit is reached.
  function Listed(count: nat, pageSize: nat, maxJobs: nat): nat
    requires pageSize > 0
  {
    Min(count, (maxJobs + pageSize - 1) / pageSize * pageSize)
  }

  // Neither the index nor the listed jobs have a job for the event: the only candidate will do after
  // a complete listing, otherwise only an exact match.
  ghost predicate Unmatched(env: Env, e: Unmapped, pageSize: nat, maxJobs: nat)
    requires pageSize > 0
  {
    var all := env.jobsOf(e.claimant);
    var n := Listed(|all|, pageSize, maxJobs);
    JobFor(env, InIndex, e).None? && JobFor(env, Among(all[..n], n < |all|), e).None?
  }

  // What that means for the listed jobs: whichever of them played and claimed the event, one at least
  // as fresh did so and has no tape; and if all jobs are listed and none claimed it, a job that is
  // alone has no tape.
  lemma UnmatchedExact(env: Env, e: Unmapped, pageSize: nat, maxJobs: nat)
    requires pageSize > 0 && Unmatched(env, e, pageSize, maxJobs)
    ensures var all := env.jobsOf(e.claimant);
            var listed := all[..Listed(|all|, pageSize, maxJobs)];
            && (forall j :: j in listed && Played(j, e) && ClaimedBy(env.norm, j, e) ==>
                  exists k :: k in listed && Played(k, e) && ClaimedBy(env.norm, k, e) &&
                              k.freshAt >= j.freshAt && !env.hasTape(k.jobId))
            && (listed == all && (forall j :: j in all && Played(j, e) ==> !ClaimedBy(env.norm, j, e)) ==>
                  forall i :: 0 <= i < |all| && Alone(all, e, i) ==> !env.hasTape(all[i].jobId))
  {
    hide ExactMatch, Played, ClaimedBy, OnlyCandidate, Alone, IndexMap, EntryFits;
    var all := env.jobsOf(e.claimant);
    var listed := all[..Listed(|all|, pageSize, maxJobs)];
    forall j
      ensures ExactMatch(env.norm, j, e) <==> Played(j, e) && ClaimedBy(env.norm, j, e)
    {
      ExactIsClaimed(env.norm, j, e);
    }
    var found := FindExactMatchingProofJob(env.norm, listed, e);
    if listed == all && found.None? {
      assert |listed| == |all|;
      BestMatchExact(env.norm, all, e);
      forall i | 0 <= i < |all| && Alone(all, e, i)
        ensures OnlyCandidate(env.norm, all, e, all[i])
        ensures forall j :: OnlyCandidate(env.norm, all, e, j) ==> j == all[i]
      {
        AloneIsOnly(env.norm, all, e, i);
        forall j | OnlyCandidate(env.norm, all, e, j)
          ensures j == all[i]
        {
          AloneUnique(env.norm, all, e, i, j);
        }
      }
    }
  }

  lemma AloneIsOnly(norm: Normalizer, jobs: seq<Job>, e: Unmapped, i: int)
    requires Alone(jobs, e, i)
    ensures OnlyCandidate(norm, jobs, e, jobs[i])
  {
    if jobs[i].succeeded {
      assert OnlyAt(norm, Succeeded, jobs, e, i);
    } else {
      assert OnlyAt(norm, Same, jobs, e, i);
    }
  }

  lemma AloneUnique(norm: Normalizer, jobs: seq<Job>, e: Unmapped, i: int, j: Job)
    requires Alone(jobs, e, i) && OnlyCandidate(norm, jobs, e, j)
    ensures jobs[i] == j
  {
    if k :| OnlyAt(norm, Succeeded, jobs, e, k) && jobs[k] == j {
      assert Fits(norm, Succeeded, jobs[k], e);
    } else {
      var k :| OnlyAt(norm, Same, jobs, e, k) && jobs[k] == j;
      assert Fits(norm, Same, jobs[k], e);
    }
  }

  class Pass {
    const env: Env
    var writes: seq<Mapping>
    var matched: nat
    var errors: nat
    var listings: nat
    ghost var tried: seq<Mapping>
    ghost var dropped: seq<Unmapped>

    ghost predicate Valid()
      reads this
    {
      && matched == |tried|
      && writes == Written(env, tried)
      && errors == |tried| - |writes| + |dropped|
      && (forall m :: m in tried ==> Sound(env, m))
      && (dropped != [] ==> exists k :: 0 <= k < listings && env.listFails(k))
    }

    // The events that a write was tried for, or that were given up.
    ghost function Settled(): multiset<Unmapped>
      reads this
    {
      multiset(EventsOf(tried)) + multiset(dropped)
    }

    constructor (env: Env)
      ensures this.env == env && Valid() && tried == [] && Settled() == multiset{}
    {
      this.env := env;
      writes, matched, errors, listings, tried, dropped := [], 0, 0, 0, [], [];
    }

    method Write(event: Unmapped, jobId: string)
      requires Valid() && Sound(env, Mapping(event, jobId))
      modifies this
      ensures Valid() && tried == old(tried) + [Mapping(event, jobId)]
      ensures dropped == old(dropped) && listings == old(listings)
    {
      hide Sound, Written;
      var m := Mapping(event, jobId);
      WrittenPush(env, tried, m);
      tried := tried + [m];
      matched := matched + 1;
      if env.writeFails(matched - 1) {
        errors := errors + 1;
      } else {
        writes := writes + [m];
      }
    }

    // Tries a mapping for every event that has a fitting index entry, and returns the others.
    method ApplyClaimIndexMatches(events: seq<Unmapped>) returns (unresolved: seq<Unmapped>)
      requires Valid()
      modifies this
      ensures Valid() && dropped == old(dropped) && listings == old(listings)
      ensures tried == old(tried) + Found(env, InIndex, events)
      ensures unresolved == Rest(env, InIndex, events)
    {
      if env.index.None? || |env.index.value| == 0 {
        NothingFound(env, InIndex, events);
        return events;
      }
      hide Sound, IndexMap, Valid;
      var entriesByTxHash := IndexMap(env.norm, env.index.value);
      unresolved := [];
      for i := 0 to |events|
        invariant Valid() && dropped == old(dropped) && listings == old(listings)
        invariant tried == old(tried) + Found(env, InIndex, events[..i])
        invariant unresolved == Rest(env, InIndex, events[..i])
      {
        var event := events[i];
        assert events[..i + 1][..i] == events[..i];
        var normalizedTxHash := env.norm(event.txHash);
        if normalizedTxHash.None? || normalizedTxHash.value !in entriesByTxHash {
          unresolved := unresolved + [event];
          continue;
        }
        var entry := entriesByTxHash[normalizedTxHash.value];
        if entry.claimant != event.claimant || entry.seed != Uint32(event.seed) ||
           entry.finalScore != Uint32(event.finalScore) || !env.hasTape(entry.proofJobId) {
          unresolved := unresolved + [event];
          continue;
        }
        IndexSound(env, event);
        Write(event, entry.proofJobId);
      }
      assert events[..|events|] == events;
    }

    // Tries a mapping for every event that matches one of the jobs, and returns the others.
    method ApplyMatches(jobs: seq<Job>, events: seq<Unmapped>, exactOnly: bool, ghost claimant: string)
      returns (unresolved: seq<Unmapped>)
      requires Valid()
      requires forall e :: e in events ==> e.claimant == claimant
      requires forall j :: j in jobs ==> j in env.jobsOf(claimant)
      requires !exactOnly ==> jobs == env.jobsOf(claimant)
      modifies this
      ensures Valid() && dropped == old(dropped) && listings == old(listings)
      ensures tried == old(tried) + Found(env, Among(jobs, exactOnly), events)
      ensures unresolved == Rest(env, Among(jobs, exactOnly), events)
    {
      hide Sound, Match, Valid;
      unresolved := [];
      for i := 0 to |events|
        invariant Valid() && dropped == old(dropped) && listings == old(listings)
        invariant tried == old(tried) + Found(env, Among(jobs, exactOnly), events[..i])
        invariant unresolved == Rest(env, Among(jobs, exactOnly), events[..i])
      {
        var event := events[i];
        assert events[..i + 1][..i] == events[..i];
        var found := Match(env.norm, jobs, event, exactOnly);
        if found.None? || !env.hasTape(found.value.jobId) {
          unresolved := unresolved + [event];
          continue;
        }
        MatchSound(env, jobs, event, exactOnly);
        Write(event, found.value.jobId);
      }
      assert events[..|events|] == events;
    }

    // All events of one claimant: exact matches page by page, then the best matches among all jobs
    // if the listing was complete.
    method ClaimantPass(claimant: string, events: seq<Unmapped>, jobsPageSize: nat, maxJobsPerClaimant: nat)
      returns (pending: seq<Unmapped>)
      requires Valid() && jobsPageSize > 0
      requires forall e :: e in events ==> e.claimant == claimant && JobFor(env, InIndex, e).None?
      modifies this
      ensures Valid()
      ensures multiset(pending) + Settled() == multiset(events) + old(Settled())
      ensures forall e :: e in pending ==> Unmatched(env, e, jobsPageSize, maxJobsPerClaimant)
      ensures dropped != old(dropped) ==> pending == []
    {
      hide Sound, Valid, Settled, JobFor, Found, Rest, Listing, Listed;
      var all := env.jobsOf(claimant);
      pending := events;
      var jobs: seq<Job>, offset: nat, fullyScanned := [], 0, false;
      NoJobs(env);
      ListingStart(|all|, jobsPageSize, maxJobsPerClaimant);
      while |pending| > 0 && !fullyScanned && |jobs| < maxJobsPerClaimant
        invariant Valid()
        invariant offset <= |all| && jobs == all[..offset]
        invariant Listing(|all|, offset, fullyScanned, jobsPageSize, maxJobsPerClaimant)
        invariant if fullyScanned then offset == |all| else offset == 0 || offset < |all|
        invariant forall e :: e in pending ==> e in events && JobFor(env, Among(jobs, true), e).None?
        invariant multiset(pending) + Settled() == multiset(events) + old(Settled())
        invariant dropped != old(dropped) ==> pending == []
        decreases |pending| > 0, !fullyScanned, |all| - offset
      {
        ListingStep(|all|, offset, jobsPageSize, maxJobsPerClaimant);
        if env.listFails(listings) {
          DropAll(pending);
          pending := [];
          break;
        }
        CountListing();
        var response := all[offset..Min(offset + jobsPageSize, |all|)];
        var total := |all|;
        if |response| == 0 {
          fullyScanned := true;
          break;
        }
        assert jobs + response == all[..offset + |response|];
        jobs := jobs + response;
        offset := offset + |response|;
        pending := Apply(jobs, pending, true, claimant);
        if offset >= total || |response| < jobsPageSize {
          fullyScanned := true;
        }
      }
      if |pending| > 0 {
        ListingEnd(|all|, offset, fullyScanned, jobsPageSize, maxJobsPerClaimant);
      }
      if |pending| > 0 && fullyScanned && |jobs| > 0 {
        assert jobs == all && all[..|all|] == all;
        pending := Apply(jobs, pending, false, claimant);
      }
    }

    // One round of matches, in terms of the events that are settled and left by it.
    method Apply(jobs: seq<Job>, events: seq<Unmapped>, exactOnly: bool, ghost claimant: string)
      returns (unresolved: seq<Unmapped>)
      requires Valid()
      requires forall e :: e in events ==> e.claimant == claimant
      requires forall j :: j in jobs ==> j in env.jobsOf(claimant)
      requires !exactOnly ==> jobs == env.jobsOf(claimant)
      modifies this
      ensures Valid() && dropped == old(dropped)
      ensures multiset(unresolved) + Settled() == multiset(events) + old(Settled())
      ensures forall e :: e in unresolved ==> e in events && JobFor(env, Among(jobs, exactOnly), e).None?
    {
      hide Sound, Valid, JobFor, Found, Rest, EventsOf;
      unresolved := ApplyMatches(jobs, events, exactOnly, claimant);
      var way := Among(jobs, exactOnly);
      FoundOrLeft(env, way, events);
      EventsJoin(old(tried), Found(env, way, events));
    }

    // A failed listing counts all pending events as errors.
    method DropAll(pending: seq<Unmapped>)
      requires Valid() && env.listFails(listings)
      modifies this
      ensures Valid() && Settled() == multiset(pending) + old(Settled())
    {
      hide Sound, EventsOf, Written;
      listings := listings + 1;
      errors := errors + |pending|;
      dropped := dropped + pending;
    }

    method CountListing()
      requires Valid()
      modifies this
      ensures Valid() && Settled() == old(Settled()) && dropped == old(dropped)
    {
      hide Sound, EventsOf, Written;
      listings := listings + 1;
    }
  }

  lemma NoJobs(env: Env)
    ensures forall exactOnly, e :: JobFor(env, Among([], exactOnly), e).None?
  {
  }

  // Listing stands at an offset after some pages: all of them full, unless the jobs have run out.
  ghost predicate Listing(count: nat, offset: nat, complete: bool, size: nat, maxJobs: nat)
    requires size > 0
  {
    var limit := (maxJobs + size - 1) / size;
    if complete then offset == count <= limit * size
    else exists pages: nat :: pages <= limit && offset == pages * size
  }

  lemma ListingStart(count: nat, size: nat, maxJobs: nat)
    requires size > 0
    ensures Listing(count, 0, false, size, maxJobs)
  {
    assert 0 == 0 * size;
  }

  lemma ListingStep(count: nat, offset: nat, size: nat, maxJobs: nat)
    requires size > 0 && Listing(count, offset, false, size, maxJobs) && offset <= count && offset < maxJobs
    ensures offset + size <= count ==> Listing(count, offset + size, false, size, maxJobs)
    ensures count <= offset + size ==> Listing(count, count, true, size, maxJobs)
  {
    var limit: nat := (maxJobs + size - 1) / size;
    var pages: nat :| pages <= limit && offset == pages * size;
    RoundedUp(maxJobs, size);
    Product(pages, limit, size);
    assert offset + size == (pages + 1) * size;
  }

  lemma RoundedUp(n: nat, size: nat)
    requires size > 0
    ensures n <= (n + size - 1) / size * size
  {
  }

  lemma ListingEnd(count: nat, offset: nat, complete: bool, size: nat, maxJobs: nat)
    requires size > 0 && Listing(count, offset, complete, size, maxJobs) && offset <= count
    requires complete || maxJobs <= offset
    ensures offset == Listed(count, size, maxJobs)
  {
    var limit := (maxJobs + size - 1) / size;
    if !complete {
      var pages: nat :| pages <= limit && offset == pages * size;
      LastPage(pages, limit, size, maxJobs);
    }
  }

  lemma LastPage(pages: nat, limit: nat, size: nat, maxJobs: nat)
    requires pages <= limit && limit * size < maxJobs + size && maxJobs <= pages * size
    ensures pages == limit
  {
    if pages < limit {
      Product(pages, limit, size);
    }
  }

  lemma JoinParts<T>(left: multiset<T>, before: multiset<T>, done: multiset<T>, was: multiset<T>,
                     pending: multiset<T>, after: multiset<T>, events: multiset<T>)
    requires left + before == done + was
    requires pending + after == events + before
    ensures left + pending + after == done + events + was
  {
    assert left + pending + after == left + (pending + after);
    assert left + (events + before) == left + before + events;
    assert done + was + events == done + events + was;
  }

  lemma EventsPush(writes: seq<Mapping>, m: Mapping)
    ensures multiset(EventsOf(writes + [m])) == multiset(EventsOf(writes)) + multiset{m.event}
  {
    assert (writes + [m])[..|writes|] == writes;
  }

  lemma {:induction false} EventsJoin(a: seq<Mapping>, b: seq<Mapping>)
    ensures EventsOf(a + b) == EventsOf(a) + EventsOf(b)
    decreases |b|
  {
    if |b| == 0 {
      assert a + b == a;
    } else {
      var n := |b| - 1;
      assert (a + b)[..|a| + n] == a + b[..n];
      EventsJoin(a, b[..n]);
    }
  }

  lemma Push<T>(s: seq<T>, x: T)
    ensures multiset(s + [x]) == multiset(s) + multiset{x}
  {
  }

  // ----- Grouping by claimant

  function Flatten(groups: map<string, seq<Unmapped>>, order: seq<string>): seq<Unmapped>
    requires forall c :: c in order ==> c in groups
  {
    if |order| == 0 then [] else Flatten(groups, order[..|order| - 1]) + groups[order[|order| - 1]]
  }

  ghost predicate Distinct(order: seq<string>) {
    forall i, j :: 0 <= i < j < |order| ==> order[i] != order[j]
  }

  ghost predicate Grouped(groups: map<string, seq<Unmapped>>, order: seq<string>) {
    && Distinct(order)
    && (forall c :: c in order <==> c in groups)
    && (forall c, e :: c in groups && e in groups[c] ==> e.claimant == c)
  }

  lemma {:induction false} FlattenOther(groups: map<string, seq<Unmapped>>, order: seq<string>, c: string,
                                        es: seq<Unmapped>)
    requires forall k :: k in order ==> k in groups
    requires c !in order
    ensures Flatten(groups[c := es], order) == Flatten(groups, order)
    decreases |order|
  {
    if |order| == 0 {
    } else {
      FlattenOther(groups, order[..|order| - 1], c, es);
    }
  }

  lemma {:induction false} FlattenPush(groups: map<string, seq<Unmapped>>, order: seq<string>, c: string, e: Unmapped)
    requires forall k :: k in order ==> k in groups
    requires Distinct(order) && c in order
    ensures multiset(Flatten(groups[c := groups[c] + [e]], order)) == multiset(Flatten(groups, order)) + multiset{e}
    decreases |order|
  {
    var n := |order| - 1;
    var front := order[..n];
    assert order == front + [order[n]];
    if order[n] == c {
      FlattenOther(groups, front, c, groups[c] + [e]);
      assert Flatten(groups, front) + (groups[c] + [e]) == Flatten(groups, front) + groups[c] + [e];
      Push(Flatten(groups, front) + groups[c], e);
    } else {
      FlattenPush(groups, front, c, e);
    }
  }

  lemma NothingGrouped()
    ensures Grouped(map[], []) && Flatten(map[], []) == []
  {
  }

  method GroupByClaimant(pending: seq<Unmapped>) returns (groups: map<string, seq<Unmapped>>, order: seq<string>)
    ensures Grouped(groups, order)
    ensures multiset(Flatten(groups, order)) == multiset(pending)
    ensures forall c, e :: c in groups && e in groups[c] ==> e in pending
  {
    groups, order := map[], [];
    NothingGrouped();
    hide Grouped, Flatten;
    for i := 0 to |pending|
      invariant Grouped(groups, order) && forall c :: c in order ==> c in groups
      invariant multiset(Flatten(groups, order)) == multiset(pending[..i])
      invariant forall c, e :: c in groups && e in groups[c] ==> e in pending
    {
      var e := pending[i];
      assert pending[..i + 1] == pending[..i] + [e];
      Push(pending[..i], e);
      GroupStep(groups, order, e);
      if e.claimant in groups {
        groups := groups[e.claimant := groups[e.claimant] + [e]];
      } else {
        groups, order := groups[e.claimant := [e]], order + [e.claimant];
      }
    }
    assert pending[..|pending|] == pending;
  }

  lemma GroupStep(groups: map<string, seq<Unmapped>>, order: seq<string>, e: Unmapped)
    requires Grouped(groups, order)
    ensures forall c :: c in order ==> c in groups
    ensures e.claimant in groups ==>
              var g := groups[e.claimant := groups[e.claimant] + [e]];
              Grouped(g, order) && multiset(Flatten(g, order)) == multiset(Flatten(groups, order)) + multiset{e}
    ensures e.claimant !in groups ==>
              var g, o := groups[e.claimant := [e]], order + [e.claimant];
              Grouped(g, o) && multiset(Flatten(g, o)) == multiset(Flatten(groups, order)) + multiset{e}
  {
    hide Flatten;
    if e.claimant in groups {
      FlattenPush(groups, order, e.claimant, e);
    } else {
      FlattenNew(groups, order, e);
    }
  }

  lemma FlattenNew(groups: map<string, seq<Unmapped>>, order: seq<string>, e: Unmapped)
    requires (forall c :: c in order ==> c in groups) && e.claimant !in order
    ensures var g, o := groups[e.claimant := [e]], order + [e.claimant];
            multiset(Flatten(g, o)) == multiset(Flatten(groups, order)) + multiset{e}
  {
    FlattenOther(groups, order, e.claimant, [e]);
    assert (order + [e.claimant])[..|order|] == order;
    Push(Flatten(groups, order), e);
  }

  // ----- The whole backfill

  // The unmapped rows, read batch by batch.
  method LoadUnmapped(rows: seq<Unmapped>, batchSize: nat, maxBatches: nat) returns (unmapped: seq<Unmapped>)
    requires batchSize > 0
    ensures unmapped == rows[..Min(|rows|, maxBatches * batchSize)]
  {
    unmapped := [];
    var batch := 0;
    while batch < maxBatches
      invariant 0 <= batch <= maxBatches
      invariant batch * batchSize <= |rows| && unmapped == rows[..batch * batchSize]
    {
      var offset := batch * batchSize;
      var page := rows[offset..Min(offset + batchSize, |rows|)];
      Product(batch, maxBatches, batchSize);
      if |page| == 0 {
        break;
      }
      assert unmapped + page == rows[..offset + |page|];
      unmapped := unmapped + page;
      if |page| < batchSize {
        break;
      }
      batch := batch + 1;
    }
  }

  lemma Product(a: nat, b: nat, c: nat)
    requires a < b
    ensures a * c + c <= b * c && (a + 1) * c == a * c + c
  {
    assert (a + 1) * c == a * c + c;
    Monotone(a + 1, b, c);
  }

  lemma {:induction false} EventsCount(writes: seq<Mapping>)
    ensures |EventsOf(writes)| == |writes|
  {
    if |writes| == 0 {
    } else {
      EventsCount(writes[..|writes| - 1]);
    }
  }

  // Every unmapped event is tried once, given up once because a listing failed, or left; what is left
  // has no job to find; every mapping is sound; and the counters say how many of each there are.
  method BackfillProofTapeMappings(env: Env, rows: seq<Unmapped>, batchSize: nat, maxBatches: nat,
                                   jobsPageSize: nat, maxJobsPerClaimant: nat)
    returns (r: Result, writes: seq<Mapping>, ghost tried: seq<Mapping>, ghost dropped: seq<Unmapped>,
             ghost left: seq<Unmapped>)
    requires batchSize > 0 && jobsPageSize > 0
    ensures writes == Written(env, tried) && forall m :: m in tried ==> Joins(env, m)
    ensures multiset(rows[..Min(|rows|, maxBatches * batchSize)]) ==
            multiset(EventsOf(tried)) + multiset(dropped) + multiset(left)
    ensures forall e :: e in left ==> Unmatched(env, e, jobsPageSize, maxJobsPerClaimant)
    ensures dropped != [] ==> exists k :: env.listFails(k)
    ensures r.unmapped == Min(|rows|, maxBatches * batchSize) == r.written + r.errors + |left|
    ensures r.matched == |tried| && r.written == |writes| && r.errors == |tried| - |writes| + |dropped|
  {
    hide Sound, Joins, EventsOf, Written, JobFor, Found, Rest, Unmatched;
    var unmapped := LoadUnmapped(rows, batchSize, maxBatches);
    var pass := new Pass(env);
    if |unmapped| == 0 {
      left := [];
      assert unmapped == [];
    } else {
      FoundOrLeft(env, InIndex, unmapped);
      var pendingUnmapped := pass.ApplyClaimIndexMatches(unmapped);
      assert pass.tried == Found(env, InIndex, unmapped);
      left := FinishClaimants(pass, pendingUnmapped, jobsPageSize, maxJobsPerClaimant);
    }
    r := Result(|unmapped|, pass.matched, |pass.writes|, pass.errors);
    writes, tried, dropped := pass.writes, pass.tried, pass.dropped;
    forall m | m in tried
      ensures Joins(env, m)
    {
      SoundJoins(env, m);
    }
    EventsCount(tried);
    WrittenBounds(env, tried);
    AddUp(unmapped, EventsOf(tried), dropped, left);
  }

  lemma AddUp<T>(all: seq<T>, a: seq<T>, b: seq<T>, c: seq<T>)
    requires multiset(c) + (multiset(a) + multiset(b)) == multiset(all)
    ensures multiset(all) == multiset(a) + multiset(b) + multiset(c)
    ensures |all| == |a| + |b| + |c|
  {
    assert multiset(all) == multiset(a) + multiset(b) + multiset(c);
    assert multiset(a + b + c) == multiset(all);
    assert |multiset(a + b + c)| == |a + b + c| && |multiset(all)| == |all|;
  }

  method FinishClaimants(pass: Pass, pendingUnmapped: seq<Unmapped>, jobsPageSize: nat, maxJobsPerClaimant: nat)
    returns (ghost left: seq<Unmapped>)
    requires pass.Valid() && jobsPageSize > 0
    requires forall e :: e in pendingUnmapped ==> JobFor(pass.env, InIndex, e).None?
    modifies pass
    ensures pass.Valid()
    ensures multiset(left) + pass.Settled() == multiset(pendingUnmapped) + old(pass.Settled())
    ensures forall e :: e in left ==> Unmatched(pass.env, e, jobsPageSize, maxJobsPerClaimant)
  {
    hide Sound, Pass.Valid, Pass.Settled, JobFor, Unmatched;
    left := [];
    var byClaimant, order := GroupByClaimant(pendingUnmapped);
    ghost var was := pass.Settled();
    for i := 0 to |order|
      invariant pass.Valid()
      invariant multiset(left) + pass.Settled() == multiset(Flatten(byClaimant, order[..i])) + was
      invariant forall e :: e in left ==> Unmatched(pass.env, e, jobsPageSize, maxJobsPerClaimant)
    {
      assert order[i] in order && order[..i + 1][..i] == order[..i];
      var events := byClaimant[order[i]];
      ghost var before := pass.Settled();
      var pending := pass.ClaimantPass(order[i], events, jobsPageSize, maxJobsPerClaimant);
      JoinParts(multiset(left), before, multiset(Flatten(byClaimant, order[..i])), was,
                multiset(pending), pass.Settled(), multiset(events));
      left := left + pending;
      assert Flatten(byClaimant, order[..i + 1]) == Flatten(byClaimant, order[..i]) + events;
    }
    assert order[..|order|] == order;
  }
}
