// Which proof job a leaderboard event came from.
module Recovery {
  import opened Basics

  // An event without a tape mapping.
  datatype Unmapped = Unmapped(txHash: string, claimant: string, seed: int, finalScore: int)

  // `freshAt` is the time a job was claimed, completed or created.
  datatype Job = Job(
    jobId: string,
    seed: Option<int>,
    finalScore: Option<int>,
    claimTxHash: Option<string>,
    attemptTxHashes: seq<Option<string>>,
    succeeded: bool,
    freshAt: int)

  datatype ClaimEntry = ClaimEntry(proofJobId: string, claimant: string, txHash: string, seed: int, finalScore: int)

  // Normalisation of transaction hashes is a parameter: 64 hexadecimal digits in lower case, or
  // nothing.
  type Normalizer = string -> Option<string>

  function NormalizeOption(norm: Normalizer, h: Option<string>): Option<string> {
    if h.Some? then norm(h.value) else None
  }

  predicate Claims(norm: Normalizer, job: Job, hash: string) {
    || NormalizeOption(norm, job.claimTxHash) == Some(hash)
    || exists i :: 0 <= i < |job.attemptTxHashes| && NormalizeOption(norm, job.attemptTxHashes[i]) == Some(hash)
  }

  // All hashes under which a job was claimed.
  method JobClaimTxHashes(norm: Normalizer, job: Job) returns (hashes: set<string>)
    ensures forall h :: h in hashes <==> Claims(norm, job, h)
  {
    hashes := {};
    var primary := NormalizeOption(norm, job.claimTxHash);
    if primary.Some? {
      hashes := hashes + {primary.value};
    }
    for i := 0 to |job.attemptTxHashes|
      invariant forall h :: h in hashes <==>
        primary == Some(h) || exists k :: 0 <= k < i && NormalizeOption(norm, job.attemptTxHashes[k]) == Some(h)
    {
      var normalized := NormalizeOption(norm, job.attemptTxHashes[i]);
      if normalized.Some? {
        hashes := hashes + {normalized.value};
      }
    }
  }

  // ----- Matching

  predicate SameRun(job: Job, e: Unmapped) {
    job.seed == Some(e.seed) && job.finalScore == Some(e.finalScore)
  }

  predicate ExactMatch(norm: Normalizer, job: Job, e: Unmapped) {
    SameRun(job, e) && norm(e.txHash).Some? && Claims(norm, job, norm(e.txHash).value)
  }

  // Three ways to be a candidate for an event: same seed and score, a claim of its transaction as
  // well, or a succeeded claim as well.
  datatype Kind = Same | Exact | Succeeded

  predicate Fits(norm: Normalizer, kind: Kind, job: Job, e: Unmapped) {
    match kind
    case Same => SameRun(job, e)
    case Exact => ExactMatch(norm, job, e)
    case Succeeded => SameRun(job, e) && job.succeeded
  }

  // The candidates of a kind, in order.
  function Candidates(norm: Normalizer, kind: Kind, jobs: seq<Job>, e: Unmapped): (kept: seq<Job>)
    ensures forall j :: j in kept <==> j in jobs && Fits(norm, kind, j, e)
  {
    if |jobs| == 0 then []
    else
      var n := |jobs| - 1;
      assert jobs == jobs[..n] + [jobs[n]];
      if Fits(norm, kind, jobs[n], e) then Candidates(norm, kind, jobs[..n], e) + [jobs[n]]
      else Candidates(norm, kind, jobs[..n], e)
  }

  // The first of the freshest jobs: what sorting by freshness puts at the front.
  function Freshest(jobs: seq<Job>): (j: Job)
    requires |jobs| > 0
    ensures j in jobs && forall k :: k in jobs ==> k.freshAt <= j.freshAt
  {
    if |jobs| == 1 then jobs[0]
    else
      var n := |jobs| - 1;
      assert jobs == jobs[..n] + [jobs[n]];
      var best := Freshest(jobs[..n]);
      if jobs[n].freshAt > best.freshAt then jobs[n] else best
  }

  // A job that claimed the event's transaction, if there is one: the freshest.
  function FindExactMatchingProofJob(norm: Normalizer, jobs: seq<Job>, e: Unmapped): (r: Option<Job>)
    ensures r.Some? <==> exists j :: j in jobs && ExactMatch(norm, j, e)
    ensures r.Some? ==> r.value in jobs && ExactMatch(norm, r.value, e)
    ensures r.Some? ==> forall j :: j in jobs && ExactMatch(norm, j, e) ==> j.freshAt <= r.value.freshAt
  {
    var exact := Candidates(norm, Exact, jobs, e);
    if |exact| == 0 then
      assert forall j :: j in jobs && ExactMatch(norm, j, e) ==> j in exact;
      None
    else
      Some(Freshest(exact))
  }

  function FindBestMatchingProofJob(norm: Normalizer, jobs: seq<Job>, e: Unmapped, allowNonSucceeded: bool):
    Option<Job>
  {
    var matches := Candidates(norm, Same, jobs, e);
    var exact := FindExactMatchingProofJob(norm, jobs, e);
    var succeeded := Candidates(norm, Succeeded, jobs, e);
    if exact.Some? then exact
    else if |succeeded| == 1 then Some(succeeded[0])
    else if |succeeded| > 1 || !allowNonSucceeded then None
    else if |matches| == 1 then Some(matches[0])
    else None
  }

  // The only place in a list where a candidate of a kind stands.
  ghost predicate OnlyAt(norm: Normalizer, kind: Kind, jobs: seq<Job>, e: Unmapped, i: int) {
    && 0 <= i < |jobs| && Fits(norm, kind, jobs[i], e)
    && forall k :: 0 <= k < |jobs| && k != i ==> !Fits(norm, kind, jobs[k], e)
  }

  lemma OneCandidate(norm: Normalizer, kind: Kind, jobs: seq<Job>, e: Unmapped)
    ensures |Candidates(norm, kind, jobs, e)| == 1 ==>
              exists i :: OnlyAt(norm, kind, jobs, e, i) && jobs[i] == Candidates(norm, kind, jobs, e)[0]
    ensures (exists i :: OnlyAt(norm, kind, jobs, e, i)) ==> |Candidates(norm, kind, jobs, e)| == 1
  {
    hide Candidates, OnlyAt;
    if |Candidates(norm, kind, jobs, e)| == 1 {
      var i := PlaceOfOne(norm, kind, jobs, e);
      assert OnlyAt(norm, kind, jobs, e, i);
    }
    if i :| OnlyAt(norm, kind, jobs, e, i) {
      OneAtPlace(norm, kind, jobs, e, i);
    }
  }

  lemma {:induction false} PlaceOfOne(norm: Normalizer, kind: Kind, jobs: seq<Job>, e: Unmapped) returns (i: nat)
    requires |Candidates(norm, kind, jobs, e)| == 1
    ensures i < |jobs| && OnlyAt(norm, kind, jobs, e, i) && jobs[i] == Candidates(norm, kind, jobs, e)[0]
    decreases |jobs|
  {
    hide Fits;
    var n := |jobs| - 1;
    if Fits(norm, kind, jobs[n], e) {
      NoCandidates(norm, kind, jobs[..n], e);
      i := n;
    } else {
      i := PlaceOfOne(norm, kind, jobs[..n], e);
      assert forall k :: 0 <= k < n ==> jobs[..n][k] == jobs[k];
    }
  }

  lemma {:induction false} OneAtPlace(norm: Normalizer, kind: Kind, jobs: seq<Job>, e: Unmapped, i: int)
    requires OnlyAt(norm, kind, jobs, e, i)
    ensures |Candidates(norm, kind, jobs, e)| == 1
    decreases |jobs|
  {
    hide Fits;
    var n := |jobs| - 1;
    if i == n {
      NoCandidates(norm, kind, jobs[..n], e);
    } else {
      OneAtPlace(norm, kind, jobs[..n], e, i);
    }
  }

  lemma NoCandidates(norm: Normalizer, kind: Kind, jobs: seq<Job>, e: Unmapped)
    ensures |Candidates(norm, kind, jobs, e)| == 0 <==>
            forall k :: 0 <= k < |jobs| ==> !Fits(norm, kind, jobs[k], e)
  {
    var c := Candidates(norm, kind, jobs, e);
    if |c| > 0 {
      assert c[0] in c;
    }
    assert forall k :: 0 <= k < |jobs| && Fits(norm, kind, jobs[k], e) ==> jobs[k] in c;
  }

  // The job is the only succeeded candidate, or, when none succeeded, the only candidate.
  ghost predicate OnlyCandidate(norm: Normalizer, jobs: seq<Job>, e: Unmapped, j: Job) {
    || (exists i :: OnlyAt(norm, Succeeded, jobs, e, i) && jobs[i] == j)
    || (&& (forall k :: k in jobs ==> !Fits(norm, Succeeded, k, e))
        && exists i :: OnlyAt(norm, Same, jobs, e, i) && jobs[i] == j)
  }

  // Without an exact match, the best match is the only candidate, and it is found if there is one.
  lemma BestMatchExact(norm: Normalizer, jobs: seq<Job>, e: Unmapped)
    requires FindExactMatchingProofJob(norm, jobs, e).None?
    ensures var r := FindBestMatchingProofJob(norm, jobs, e, true);
            && (r.Some? ==> OnlyCandidate(norm, jobs, e, r.value))
            && (r.None? ==> forall j :: !OnlyCandidate(norm, jobs, e, j))
  {
    hide Fits, FindExactMatchingProofJob;
    OneCandidate(norm, Same, jobs, e);
    OneCandidate(norm, Succeeded, jobs, e);
    NoCandidates(norm, Succeeded, jobs, e);
    assert forall k :: 0 <= k < |jobs| ==> jobs[k] in jobs;
  }
}
