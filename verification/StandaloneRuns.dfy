/**
 * What holds over every run of the standalone repository whose drawn ids and tokens are distinct:
 * how daemon leases and job claims fence their holders, what the counters mean, and what stays
 * terminal.
 */
module StandaloneRuns {
  import opened Wrappers
  import M = OrderedMaps
  import opened StandaloneRepository

  // ----- Runs ----------------------------------------------------------------------------------

  function Drawn(op: Op): Option<Id> {
    if op.AcquireLease? || op.FindOrCreateSession? || op.EnqueueJob? || op.ClaimJob? then Some(op.drawn) else None
  }

  /** Random ids never repeat, and results have the type the source gives them. */
  predicate IsRun(ops: seq<Op>) {
    && (forall i :: 0 <= i < |ops| ==> IsWellTyped(ops[i]))
    && (forall i, j :: 0 <= i < j < |ops| && Drawn(ops[i]).Some? && Drawn(ops[j]).Some? ==> Drawn(ops[i]) != Drawn(ops[j]))
  }

  function At(ops: seq<Op>, k: nat): Repository
    requires k <= |ops|
  {
    if k == 0 then EmptyRepository else Apply(At(ops, k - 1), ops[k - 1]).repo
  }

  function ResponseAt(ops: seq<Op>, k: nat): Response
    requires k < |ops|
  {
    Apply(At(ops, k), ops[k]).response
  }

  // ----- Leases --------------------------------------------------------------------------------

  predicate GrantsAt(ops: seq<Op>, i: nat, leaseId: Id)
    requires i < |ops|
  {
    ops[i].AcquireLease? && ops[i].leaseId == leaseId && ResponseAt(ops, i).Leased?
  }

  predicate ReleasesAt(ops: seq<Op>, i: nat, leaseId: Id)
    requires i < |ops|
  {
    ops[i].ReleaseLease? && ops[i].ref.leaseId == leaseId && ResponseAt(ops, i).Released?
  }

  /** One step of one lease: granted, released, renewed by its holder, or left alone. */
  lemma LeaseStep(r: Repository, op: Op, leaseId: Id)
    ensures var o := Apply(r, op);
            if op.AcquireLease? && op.leaseId == leaseId && o.response.Leased? then
              leaseId in o.repo.leases && o.repo.leases[leaseId].ownerId == op.ownerId && o.repo.leases[leaseId].leaseToken == op.drawn
            else if op.ReleaseLease? && op.ref.leaseId == leaseId && o.response.Released? then
              leaseId !in o.repo.leases
            else
              && (leaseId in o.repo.leases <==> leaseId in r.leases)
              && (leaseId in r.leases ==>
                    && o.repo.leases[leaseId].ownerId == r.leases[leaseId].ownerId
                    && o.repo.leases[leaseId].leaseToken == r.leases[leaseId].leaseToken)
  {
  }

  predicate IsLatestGrant(ops: seq<Op>, i: nat, k: nat, leaseId: Id) {
    && i < k <= |ops| && GrantsAt(ops, i, leaseId)
    && (forall j :: i < j < k ==> !GrantsAt(ops, j, leaseId))
  }

  /** A lease on record is the latest grant's, and was not released since. */
  lemma {:induction false} LeaseIsLatestGrant(ops: seq<Op>, k: nat, leaseId: Id) returns (i: nat)
    requires k <= |ops| && leaseId in At(ops, k).leases
    ensures IsLatestGrant(ops, i, k, leaseId) && forall m :: i < m < k ==> !ReleasesAt(ops, m, leaseId)
    ensures At(ops, k).leases[leaseId].leaseToken == ops[i].drawn && At(ops, k).leases[leaseId].ownerId == ops[i].ownerId
  {
    LeaseStep(At(ops, k - 1), ops[k - 1], leaseId);
    if GrantsAt(ops, k - 1, leaseId) {
      i := k - 1;
    } else {
      i := LeaseIsLatestGrant(ops, k - 1, leaseId);
    }
  }

  lemma {:induction false} UnreleasedGrantStays(ops: seq<Op>, i: nat, k: nat, leaseId: Id)
    requires i < k <= |ops| && GrantsAt(ops, i, leaseId) && forall m :: i < m < k ==> !ReleasesAt(ops, m, leaseId)
    ensures leaseId in At(ops, k).leases
    decreases k
  {
    LeaseStep(At(ops, k - 1), ops[k - 1], leaseId);
    if i < k - 1 {
      assert !ReleasesAt(ops, k - 1, leaseId);
      UnreleasedGrantStays(ops, i, k - 1, leaseId);
    }
  }

  /** The lease reference that an operation must hold. */
  function Guard(op: Op): Option<LeaseRef> {
    match op
    case RenewLease(ref, _, _) => Some(ref)
    case ReleaseLease(ref) => Some(ref)
    case ClaimJob(_, _, lease, _, _) => lease
    case Prune(_, ref, _) => Some(ref)
    case _ => None
  }

  /** Once a new token is issued, nothing guarded by an older one succeeds or changes anything. */
  lemma ReplacedLeaseIsFenced(ops: seq<Op>, i: nat, j: nat, k: nat, leaseId: Id)
    requires IsRun(ops) && i < j < k < |ops| && GrantsAt(ops, i, leaseId) && GrantsAt(ops, j, leaseId)
    requires Guard(ops[k]).Some? && Guard(ops[k]).value.leaseId == leaseId && Guard(ops[k]).value.leaseToken == ops[i].drawn
    ensures ResponseAt(ops, k) == Nothing && At(ops, k + 1) == At(ops, k)
  {
    if Holds(At(ops, k), Guard(ops[k]).value) {
      var g := LeaseIsLatestGrant(ops, k, leaseId);
    }
  }

  /** Once a lease is released, nothing guarded by its token succeeds or changes anything, replaced or not. */
  lemma ReleasedLeaseIsFenced(ops: seq<Op>, i: nat, j: nat, k: nat, leaseId: Id)
    requires IsRun(ops) && i < j < k < |ops| && GrantsAt(ops, i, leaseId) && ReleasesAt(ops, j, leaseId)
    requires Guard(ops[k]).Some? && Guard(ops[k]).value.leaseId == leaseId && Guard(ops[k]).value.leaseToken == ops[i].drawn
    ensures ResponseAt(ops, k) == Nothing && At(ops, k + 1) == At(ops, k)
  {
    if Holds(At(ops, k), Guard(ops[k]).value) {
      var g := LeaseIsLatestGrant(ops, k, leaseId);
    }
  }

  // ----- Jobs ----------------------------------------------------------------------------------

  predicate JobIsSound(job: Job) {
    match job.status
    case Pending => job.claimToken.None? && job.attemptCount == 0
    case Claimed => job.claimToken.Some? && job.claimExpiresAt.Some? && job.attemptCount > 0
    case Running => false
    case _ => job.claimToken.Some? && job.claimExpiresAt.None? && job.attemptCount > 0
  }

  ghost predicate JobsAreSound(r: Repository) {
    M.Valid(r.jobs) && forall k :: k in r.jobs.at ==> JobIsSound(r.jobs.at[k])
  }

  predicate ClaimsStep(r: Repository, op: Op, id: Id) {
    op.ClaimJob? && Apply(r, op).response.JobIs? && Apply(r, op).response.jobId == id
  }

  /** One step of one job: queued, claimed when claimable, finished under its token, or left alone. */
  lemma JobStep(r: Repository, op: Op, id: Id)
    requires id in Apply(r, op).repo.jobs.at
    ensures var job := Apply(r, op).repo.jobs.at[id];
            if op.EnqueueJob? && op.drawn == id then job == NewJob(op.kind, op.target, op.availableAt, op.now)
            else
              && id in r.jobs.at
              && (|| (ClaimsStep(r, op, id) && job == ClaimOf(r.jobs.at[id], op.claimedBy, op.ttl, op.now, op.drawn))
                  || (op.FinishJob? && op.jobId == id && r.jobs.at[id].claimToken == Some(op.claimToken)
                      && job == r.jobs.at[id].(status := op.result, claimExpiresAt := None, updatedAt := op.now))
                  || job == r.jobs.at[id])
    ensures ClaimsStep(r, op, id) ==> id in r.jobs.at && Apply(r, op).repo.jobs.at[id] == ClaimOf(r.jobs.at[id], op.claimedBy, op.ttl, op.now, op.drawn)
  {
  }

  lemma ClaimedJobStays(r: Repository, op: Op, id: Id)
    requires ClaimsStep(r, op, id)
    ensures id in r.jobs.at && id in Apply(r, op).repo.jobs.at && IsClaimable(r.jobs.at[id], op.now)
  {
    ClaimableKeysAreExact(r.jobs.keys, r.jobs.at, op.now);
    var keys := ClaimableKeys(r.jobs.keys, r.jobs.at, op.now);
    CandidateIsEarliest(r.jobs, op.now);
  }

  lemma JobsStayValid(r: Repository, op: Op)
    requires M.Valid(r.jobs)
    ensures M.Valid(Apply(r, op).repo.jobs)
  {
    match op
    case EnqueueJob(kind, target, availableAt, now, drawn) => M.PutKeepsValid(r.jobs, drawn, NewJob(kind, target, availableAt, now));
    case ClaimJob(_, _, _, _, _) =>
      var o := Apply(r, op);
      if o.response.JobIs? {
        M.PutKeepsValid(r.jobs, o.response.jobId, o.response.job);
      }
    case FinishJob(jobId, _, _, _) =>
      var o := Apply(r, op);
      if o.response.JobIs? {
        M.PutKeepsValid(r.jobs, jobId, o.response.job);
      }
    case Prune(retention, ref, now) => M.DeleteAllKeepsValid(r.jobs, OldJobs(r, Cutoff(now, retention.jobDays)));
    case _ =>
  }

  lemma ApplyKeepsJobsSound(r: Repository, op: Op)
    requires JobsAreSound(r) && IsWellTyped(op)
    ensures JobsAreSound(Apply(r, op).repo)
  {
    JobsStayValid(r, op);
    forall id | id in Apply(r, op).repo.jobs.at ensures JobIsSound(Apply(r, op).repo.jobs.at[id]) {
      JobStep(r, op, id);
    }
  }

  lemma {:induction false} RunKeepsJobsSound(ops: seq<Op>, k: nat)
    requires IsRun(ops) && k <= |ops|
    ensures JobsAreSound(At(ops, k))
  {
    if k > 0 {
      RunKeepsJobsSound(ops, k - 1);
      ApplyKeepsJobsSound(At(ops, k - 1), ops[k - 1]);
    }
  }

  predicate ClaimsAt(ops: seq<Op>, i: nat, id: Id)
    requires i < |ops|
  {
    ClaimsStep(At(ops, i), ops[i], id)
  }

  /** A job on record was queued by an earlier operation. */
  lemma {:induction false} JobWasQueued(ops: seq<Op>, k: nat, id: Id) returns (i: nat)
    requires k <= |ops| && id in At(ops, k).jobs.at
    ensures i < k && ops[i].EnqueueJob? && ops[i].drawn == id
  {
    JobStep(At(ops, k - 1), ops[k - 1], id);
    if ops[k - 1].EnqueueJob? && ops[k - 1].drawn == id {
      i := k - 1;
    } else {
      i := JobWasQueued(ops, k - 1, id);
    }
  }

  /** A job that was ever on record is queued no more: it is still there or gone for good. */
  lemma JobIsQueuedOnce(ops: seq<Op>, i: nat, k: nat, id: Id)
    requires IsRun(ops) && i <= k < |ops| && id in At(ops, i).jobs.at
    ensures !(ops[k].EnqueueJob? && ops[k].drawn == id)
  {
    var q := JobWasQueued(ops, i, id);
    assert q < k && Drawn(ops[q]) == Some(id);
  }

  lemma {:induction false} JobWasThere(ops: seq<Op>, i: nat, k: nat, id: Id)
    requires IsRun(ops) && i <= k <= |ops| && id in At(ops, i).jobs.at && id in At(ops, k).jobs.at
    ensures k > i ==> id in At(ops, k - 1).jobs.at && !(ops[k - 1].EnqueueJob? && ops[k - 1].drawn == id)
  {
    if k > i {
      JobIsQueuedOnce(ops, i, k - 1, id);
      JobStep(At(ops, k - 1), ops[k - 1], id);
    }
  }

  /** A terminal job stays terminal for as long as it is on record. */
  lemma {:induction false} TerminalStaysTerminal(ops: seq<Op>, i: nat, k: nat, id: Id)
    requires IsRun(ops) && i <= k <= |ops| && id in At(ops, i).jobs.at && id in At(ops, k).jobs.at
    requires IsTerminal(At(ops, i).jobs.at[id].status)
    ensures IsTerminal(At(ops, k).jobs.at[id].status)
    decreases k
  {
    if i < k {
      JobWasThere(ops, i, k, id);
      TerminalStaysTerminal(ops, i, k - 1, id);
      JobStep(At(ops, k - 1), ops[k - 1], id);
      if ClaimsAt(ops, k - 1, id) {
        ClaimedJobStays(At(ops, k - 1), ops[k - 1], id);
      }
    }
  }

  /** A job leaves the record only by a prune, when it is terminal. */
  lemma OnlyPruneRemovesJobs(ops: seq<Op>, k: nat, id: Id)
    requires k < |ops| && id in At(ops, k).jobs.at && id !in At(ops, k + 1).jobs.at
    ensures ops[k].Prune? && ResponseAt(ops, k).Pruned? && IsTerminal(At(ops, k).jobs.at[id].status)
    ensures At(ops, k).jobs.at[id].updatedAt < Cutoff(ops[k].now, ops[k].retention.jobDays)
  {
  }

  function ClaimCount(ops: seq<Op>, k: nat, id: Id): nat
    requires k <= |ops|
  {
    if k == 0 then 0 else ClaimCount(ops, k - 1, id) + if ClaimsAt(ops, k - 1, id) then 1 else 0
  }

  lemma {:induction false} UnqueuedJobsHaveNoClaims(ops: seq<Op>, k: nat, id: Id)
    requires IsRun(ops) && k <= |ops| && forall i :: 0 <= i < k ==> !(ops[i].EnqueueJob? && ops[i].drawn == id)
    ensures ClaimCount(ops, k, id) == 0
  {
    if k > 0 {
      UnqueuedJobsHaveNoClaims(ops, k - 1, id);
      if ClaimsAt(ops, k - 1, id) {
        ClaimedJobStays(At(ops, k - 1), ops[k - 1], id);
        var i := JobWasQueued(ops, k - 1, id);
        assert false;
      }
    }
  }

  /** The attempt counter is the number of times the job was handed out. */
  lemma {:induction false} AttemptsCountClaims(ops: seq<Op>, k: nat, id: Id)
    requires IsRun(ops) && k <= |ops| && id in At(ops, k).jobs.at
    ensures At(ops, k).jobs.at[id].attemptCount == ClaimCount(ops, k, id)
  {
    JobStep(At(ops, k - 1), ops[k - 1], id);
    if ops[k - 1].EnqueueJob? && ops[k - 1].drawn == id {
      assert forall i :: 0 <= i < k - 1 ==> Drawn(ops[i]) != Drawn(ops[k - 1]);
      UnqueuedJobsHaveNoClaims(ops, k - 1, id);
    } else {
      AttemptsCountClaims(ops, k - 1, id);
    }
  }

  predicate IsLatestClaim(ops: seq<Op>, i: nat, k: nat, id: Id) {
    i < k <= |ops| && ClaimsAt(ops, i, id) && forall j :: i < j < k ==> !ClaimsAt(ops, j, id)
  }

  /** The claim token on record is the one of the latest claim. */
  lemma {:induction false} TokenIsLatestClaim(ops: seq<Op>, k: nat, id: Id) returns (i: nat)
    requires IsRun(ops) && k <= |ops| && id in At(ops, k).jobs.at && At(ops, k).jobs.at[id].claimToken.Some?
    ensures IsLatestClaim(ops, i, k, id) && At(ops, k).jobs.at[id].claimToken == Some(ops[i].drawn)
  {
    JobStep(At(ops, k - 1), ops[k - 1], id);
    if ClaimsAt(ops, k - 1, id) {
      i := k - 1;
    } else {
      i := TokenIsLatestClaim(ops, k - 1, id);
    }
  }

  /** After a job is reclaimed, the older claim can no longer finish it. */
  lemma OlderClaimCannotFinish(ops: seq<Op>, i: nat, j: nat, k: nat, id: Id)
    requires IsRun(ops) && i < j < k < |ops| && ClaimsAt(ops, i, id) && ClaimsAt(ops, j, id)
    requires ops[k].FinishJob? && ops[k].jobId == id && ops[k].claimToken == ops[i].drawn
    ensures ResponseAt(ops, k).Threw? && At(ops, k + 1) == At(ops, k)
  {
    if id in At(ops, k).jobs.at && At(ops, k).jobs.at[id].claimToken == Some(ops[i].drawn) {
      var g := TokenIsLatestClaim(ops, k, id);
    }
  }

  lemma {:induction false} ClaimExpiryStays(ops: seq<Op>, i: nat, k: nat, id: Id)
    requires IsRun(ops) && i < k <= |ops| && IsLatestClaim(ops, i, k, id) && id in At(ops, k).jobs.at
    ensures At(ops, k).jobs.at[id].status == Claimed ==> At(ops, k).jobs.at[id].claimExpiresAt == Some(ops[i].now + ops[i].ttl)
    ensures At(ops, k).jobs.at[id].status != Pending
    decreases k
  {
    ClaimedJobStays(At(ops, i), ops[i], id);
    JobStep(At(ops, k - 1), ops[k - 1], id);
    if i < k - 1 {
      assert IsWellTyped(ops[k - 1]) && !ClaimsAt(ops, k - 1, id);
      JobWasThere(ops, i, k, id);
      ClaimExpiryStays(ops, i, k - 1, id);
    }
  }

  /** A job is handed out again only when the previous claim has run out. */
  lemma ReclaimedOnlyAfterExpiry(ops: seq<Op>, i: nat, j: nat, id: Id)
    requires IsRun(ops) && i < j < |ops| && IsLatestClaim(ops, i, j, id) && ClaimsAt(ops, j, id)
    ensures ops[i].now + ops[i].ttl <= ops[j].now
  {
    ClaimedJobStays(At(ops, j), ops[j], id);
    ClaimExpiryStays(ops, i, j, id);
  }
}
