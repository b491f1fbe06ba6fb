/**
 * The job runner's drain loop: claim the next due job, execute it, finish it, until nothing is
 * claimable. What other handlers and the prompt itself do to the repository meanwhile is a
 * parameter of each round, as are the clock, the drawn token and the outcome of the prompt.
 */
module JobDrain {
  import opened Wrappers
  import opened Sequences
  import M = OrderedMaps
  import opened StandaloneRepository
  import opened StandaloneState

  const CLAIM_TTL := 30000

  datatype Round = Round(active: bool, now: int, token: Id, work: seq<Op>, succeeds: bool, finishedAt: int)

  /** Operations that touch sessions, events, leases and audits only. */
  predicate LeavesJobs(op: Op) {
    !op.EnqueueJob? && !op.ClaimJob? && !op.FinishJob? && !op.Prune?
  }

  predicate IsQuiet(round: Round) {
    forall i :: 0 <= i < |round.work| ==> LeavesJobs(round.work[i])
  }

  /**
   * A job as a round leaves it: claimed by the runner for one more attempt, and completed exactly if
   * it is a prompt that succeeded, dead exactly if it is a prompt that failed for the third time or
   * later, failed otherwise.
   */
  predicate EndsAs(job: Job, job': Job, claimedBy: Id, round: Round) {
    && job' == job.(status := job'.status, claimedBy := Some(claimedBy), claimToken := Some(round.token), claimExpiresAt := None,
                    attemptCount := job.attemptCount + 1, updatedAt := round.finishedAt)
    && (job'.status == Completed <==> job.kind == PromptJob && round.succeeds)
    && (job'.status == Dead <==> job.kind == PromptJob && !round.succeeds && job.attemptCount + 1 >= 3)
    && (job'.status == Failed <==> job'.status != Completed && job'.status != Dead)
  }

  /** Of the jobs outside `done`, the one that was available first among those claimable, the one queued first among equals. */
  ghost predicate IsFirstDue(jobs: M.OrderedMap<Id, Job>, done: set<Id>, id: Id, now: int) {
    exists i :: 0 <= i < |jobs.keys| && jobs.keys[i] == id && id !in done && IsClaimableAt(jobs, i, now)
      && forall j :: 0 <= j < |jobs.keys| && jobs.keys[j] !in done && IsClaimableAt(jobs, j, now) ==> IsEarlier(jobs, i, j)
  }

  /** Round `i` took the job that was then first due and ended it as it went. */
  ghost predicate WasHandledIn(before: M.OrderedMap<Id, Job>, jobs: M.OrderedMap<Id, Job>, claimedBy: Id, handled: seq<Id>, i: nat, round: Round)
    requires i < |handled|
  {
    && handled[i] in before.at && handled[i] in jobs.at && round.active
    && IsFirstDue(before, ToSet(handled[..i]), handled[i], round.now)
    && EndsAs(before.at[handled[i]], jobs.at[handled[i]], claimedBy, round)
  }

  /** What a drain whose round `i` handled job `handled[i]` has made of the jobs. */
  ghost predicate AreDrained(before: M.OrderedMap<Id, Job>, jobs: M.OrderedMap<Id, Job>, claimedBy: Id, rounds: nat -> Round, handled: seq<Id>) {
    && jobs.keys == before.keys && jobs.at.Keys == before.at.Keys
    && Distinct(handled)
    && (forall i :: 0 <= i < |handled| ==> WasHandledIn(before, jobs, claimedBy, handled, i, rounds(i)))
    && (forall k :: k in before.at && k !in handled ==> jobs.at[k] == before.at[k])
  }

  function OpenJobs(jobs: M.OrderedMap<Id, Job>): set<Id> {
    set k | k in jobs.at && !IsTerminal(jobs.at[k].status)
  }

  lemma CandidateIsFirstDue(jobs: M.OrderedMap<Id, Job>, now: int)
    requires Candidate(jobs, now).Some?
    ensures Candidate(jobs, now).value in jobs.at && IsFirstDue(jobs, {}, Candidate(jobs, now).value, now)
  {
    CandidateIsEarliest(jobs, now);
  }

  lemma NoCandidateNoClaimable(jobs: M.OrderedMap<Id, Job>, now: int)
    requires M.Valid(jobs) && Candidate(jobs, now).None?
    ensures forall k :: k in jobs.at ==> !IsClaimable(jobs.at[k], now)
  {
    CandidateIsEarliest(jobs, now);
    forall k | k in jobs.at ensures !IsClaimable(jobs.at[k], now) {
      assert k in jobs.keys;
      var j :| 0 <= j < |jobs.keys| && jobs.keys[j] == k;
      assert !IsClaimableAt(jobs, j, now);
    }
  }

  /** A job that ended was open before and is terminal now. */
  lemma EndingClosesOne(jobs: M.OrderedMap<Id, Job>, id: Id, job: Job, claimedBy: Id, round: Round, jobs': M.OrderedMap<Id, Job>)
    requires IsFirstDue(jobs, {}, id, round.now) && id in jobs.at && EndsAs(jobs.at[id], job, claimedBy, round)
    requires jobs'.at == jobs.at[id := job]
    ensures id in OpenJobs(jobs) && |OpenJobs(jobs')| == |OpenJobs(jobs)| - 1
  {
    assert OpenJobs(jobs') == OpenJobs(jobs) - {id};
  }

  /** What was first due among the jobs left is first due among those not handled. */
  lemma FirstOfTheRest(before: M.OrderedMap<Id, Job>, jobs: M.OrderedMap<Id, Job>, handled: seq<Id>, id: Id, now: int)
    requires jobs.keys == before.keys && jobs.at.Keys == before.at.Keys && IsFirstDue(jobs, {}, id, now)
    requires forall k :: k in before.at && k !in handled ==> jobs.at[k] == before.at[k]
    requires forall k :: k in handled ==> k in jobs.at && IsTerminal(jobs.at[k].status)
    ensures id !in handled && IsFirstDue(before, ToSet(handled), id, now)
  {
    var i :| 0 <= i < |jobs.keys| && jobs.keys[i] == id && IsClaimableAt(jobs, i, now)
             && forall j :: 0 <= j < |jobs.keys| && IsClaimableAt(jobs, j, now) ==> IsEarlier(jobs, i, j);
    forall j | 0 <= j < |before.keys| && before.keys[j] !in ToSet(handled) && IsClaimableAt(before, j, now) ensures IsEarlier(before, i, j) {
      assert IsClaimableAt(jobs, j, now) && IsEarlier(jobs, i, j);
    }
  }

  lemma EarlierRoundsStay(before: M.OrderedMap<Id, Job>, jobs: M.OrderedMap<Id, Job>, claimedBy: Id, rounds: nat -> Round, handled: seq<Id>, id: Id, jobs': M.OrderedMap<Id, Job>, i: nat)
    requires i < |handled| && WasHandledIn(before, jobs, claimedBy, handled, i, rounds(i)) && handled[i] != id
    requires id in jobs'.at && jobs'.at == jobs.at[id := jobs'.at[id]]
    ensures WasHandledIn(before, jobs', claimedBy, handled + [id], i, rounds(i))
  {
    assert (handled + [id])[..i] == handled[..i] && (handled + [id])[i] == handled[i];
  }

  /** One more round. */
  lemma DrainStep(before: M.OrderedMap<Id, Job>, jobs: M.OrderedMap<Id, Job>, claimedBy: Id, rounds: nat -> Round, handled: seq<Id>, id: Id, jobs': M.OrderedMap<Id, Job>)
    requires AreDrained(before, jobs, claimedBy, rounds, handled) && rounds(|handled|).active
    requires IsFirstDue(jobs, {}, id, rounds(|handled|).now) && id in jobs.at && id in jobs'.at
    requires jobs'.keys == jobs.keys && jobs'.at == jobs.at[id := jobs'.at[id]]
    requires EndsAs(jobs.at[id], jobs'.at[id], claimedBy, rounds(|handled|))
    ensures AreDrained(before, jobs', claimedBy, rounds, handled + [id])
  {
    forall k | k in handled ensures k in jobs.at && IsTerminal(jobs.at[k].status) {
      var i :| 0 <= i < |handled| && handled[i] == k;
      assert WasHandledIn(before, jobs, claimedBy, handled, i, rounds(i));
    }
    FirstOfTheRest(before, jobs, handled, id, rounds(|handled|).now);
    DistinctAppend(handled, id);
    var longer := handled + [id];
    forall i | 0 <= i < |longer| ensures WasHandledIn(before, jobs', claimedBy, longer, i, rounds(i)) {
      if i < |handled| {
        EarlierRoundsStay(before, jobs, claimedBy, rounds, handled, id, jobs', i);
      } else {
        assert longer[..i] == handled;
      }
    }
    assert forall k :: k in longer <==> k in handled || k == id;
  }

  /** Runs what happens to the repository while a prompt is executing. */
  method Meanwhile(repo: InMemoryRepository, work: seq<Op>)
    requires forall i :: 0 <= i < |work| ==> LeavesJobs(work[i])
    modifies repo
    ensures repo.jobs == old(repo.jobs)
  {
    for i := 0 to |work|
      invariant repo.jobs == old(repo.jobs)
    {
      match work[i] {
        case AcquireLease(leaseId, ownerId, ttl, now, drawn) => var r := repo.AcquireDaemonLease(leaseId, ownerId, ttl, now, drawn);
        case RenewLease(ref, ttl, now) => var r := repo.RenewDaemonLease(ref, ttl, now);
        case ReleaseLease(ref) => var r := repo.ReleaseDaemonLease(ref);
        case FindOrCreateSession(address, now, drawn) => var r := repo.FindOrCreateSessionFor(address, now, drawn);
        case UpdateSession(sid, opencodeSessionId, status, now) => var r := repo.UpdateSessionRuntime(sid, opencodeSessionId, status, now);
        case AppendEvent(sid, now) => var r := repo.AppendSessionEvent(sid, now);
        case RecordAudit(actor, now) => repo.AddAudit(actor, now);
      }
    }
  }

  /** Executes a claimed job and finishes it under its claim token. */
  method ExecuteClaimed(repo: InMemoryRepository, claimedBy: Id, id: Id, job: Job, round: Round)
    requires IsQuiet(round) && id in repo.jobs.at && repo.jobs.at[id] == job && job.claimToken == Some(round.token)
    modifies repo
    ensures repo.jobs.keys == old(repo.jobs.keys)
    ensures id in repo.jobs.at && repo.jobs.at == old(repo.jobs.at)[id := repo.jobs.at[id]]
    ensures repo.jobs.at[id] == job.(status := repo.jobs.at[id].status, claimExpiresAt := None, updatedAt := round.finishedAt)
    ensures repo.jobs.at[id].status == Completed <==> job.kind == PromptJob && round.succeeds
    ensures repo.jobs.at[id].status == Dead <==> job.kind == PromptJob && !round.succeeds && job.attemptCount >= 3
    ensures repo.jobs.at[id].status == Failed <==> job.kind != PromptJob || (!round.succeeds && job.attemptCount < 3)
  {
    repo.AddAudit(claimedBy, round.now);
    if job.kind != PromptJob {
      repo.AddAudit(claimedBy, round.now);
      var done := repo.Finish(id, round.token, Failed, round.finishedAt);
      return;
    }
    Meanwhile(repo, round.work);
    if round.succeeds {
      var done := repo.Finish(id, round.token, Completed, round.finishedAt);
    } else {
      var done := repo.Finish(id, round.token, if job.attemptCount >= 3 then Dead else Failed, round.finishedAt);
    }
  }

  /** One pass of the loop: false when there is nothing to claim or the lease is gone. */
  method RunRound(repo: InMemoryRepository, claimedBy: Id, lease: Option<LeaseRef>, round: Round) returns (ran: bool, ghost id: Id)
    requires IsQuiet(round) && M.Valid(repo.jobs)
    modifies repo
    ensures M.Valid(repo.jobs)
    ensures ran <==> && (lease.Some? ==> HoldsActive(old(repo.View()), lease.value, round.now))
                     && exists k :: k in old(repo.jobs.at) && IsClaimable(old(repo.jobs.at)[k], round.now)
    ensures ran ==> && id in old(repo.jobs.at) && id in repo.jobs.at
                    && repo.jobs.keys == old(repo.jobs.keys) && repo.jobs.at == old(repo.jobs.at)[id := repo.jobs.at[id]]
                    && IsFirstDue(old(repo.jobs), {}, id, round.now)
                    && EndsAs(old(repo.jobs.at)[id], repo.jobs.at[id], claimedBy, round)
    ensures !ran ==> repo.View() == old(repo.View())
  {
    ghost var jobs := repo.jobs;
    var claim := repo.ClaimNextJob(claimedBy, CLAIM_TTL, lease, round.now, round.token);
    id := 0;
    if Candidate(jobs, round.now).Some? {
      CandidateIsFirstDue(jobs, round.now);
      id := Candidate(jobs, round.now).value;
    } else {
      NoCandidateNoClaimable(jobs, round.now);
    }
    if !claim.JobIs? {
      return false, id;
    }
    ExecuteClaimed(repo, claimedBy, claim.jobId, claim.job, round);
    ran := true;
  }

  /**
   * Drains the due jobs. Round `i` handles job `handled[i]`, the first due of those not yet handled
   * at the round's clock, and ends it by the round's outcome; the other jobs stay as they were. It
   * returns how many jobs it made terminal, and stops only when the runner is no longer active, its
   * lease is not held, or no job is claimable at the clock it last read.
   */
  method RunDueJobs(repo: InMemoryRepository, claimedBy: Id, lease: Option<LeaseRef>, rounds: nat -> Round) returns (processed: nat, ghost handled: seq<Id>)
    requires M.Valid(repo.jobs) && forall i :: IsQuiet(rounds(i))
    modifies repo
    ensures M.Valid(repo.jobs) && AreDrained(old(repo.jobs), repo.jobs, claimedBy, rounds, handled)
    ensures processed == |handled| == |OpenJobs(old(repo.jobs))| - |OpenJobs(repo.jobs)|
    ensures || !rounds(processed).active
            || (lease.Some? && !HoldsActive(repo.View(), lease.value, rounds(processed).now))
            || forall k :: k in repo.jobs.at ==> !IsClaimable(repo.jobs.at[k], rounds(processed).now)
  {
    ghost var before := repo.jobs;
    processed, handled := 0, [];
    while true
      invariant M.Valid(repo.jobs) && AreDrained(before, repo.jobs, claimedBy, rounds, handled)
      invariant processed == |handled| == |OpenJobs(before)| - |OpenJobs(repo.jobs)|
      decreases |OpenJobs(repo.jobs)|
    {
      var round := rounds(processed);
      if !round.active {
        break;
      }
      ghost var jobs := repo.jobs;
      var ran, id := RunRound(repo, claimedBy, lease, round);
      if !ran {
        break;
      }
      EndingClosesOne(jobs, id, repo.jobs.at[id], claimedBy, round, repo.jobs);
      DrainStep(before, jobs, claimedBy, rounds, handled, id, repo.jobs);
      processed := processed + 1;
      handled := handled + [id];
    }
  }
}
