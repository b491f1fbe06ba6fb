/**
 * When the standalone repository grants a lease, lets its holder through, hands out a job and lets
 * it be finished, told by the operations before: their clocks, times to live, owners and tokens.
 */
module StandaloneOutcomes {
  import opened Wrappers
  import opened Sequences
  import M = OrderedMaps
  import opened StandaloneRepository
  import opened StandaloneRuns

  // ----- Daemon leases ---------------------------------------------------------------------------

  predicate RenewsAt(ops: seq<Op>, m: nat, leaseId: Id)
    requires m < |ops|
  {
    ops[m].RenewLease? && ops[m].ref.leaseId == leaseId && ResponseAt(ops, m).Leased?
  }

  /** Operation `i` is the latest grant before `k`, and the lease was not released since. */
  predicate IsInForce(ops: seq<Op>, i: nat, k: nat, leaseId: Id) {
    IsLatestGrant(ops, i, k, leaseId) && forall j :: i < j < k ==> !ReleasesAt(ops, j, leaseId)
  }

  /** Operation `m` is the latest before `k` that granted or renewed the lease. */
  predicate IsLatestTerm(ops: seq<Op>, m: nat, k: nat, leaseId: Id) {
    && m < k <= |ops| && (GrantsAt(ops, m, leaseId) || RenewsAt(ops, m, leaseId))
    && (forall j :: m < j < k ==> !GrantsAt(ops, j, leaseId) && !RenewsAt(ops, j, leaseId))
  }

  /** When the term that operation `m` granted or renewed runs out. */
  function EndOfTerm(op: Op): int
    requires op.AcquireLease? || op.RenewLease?
  {
    op.now + op.ttl
  }

  lemma TermStep(r: Repository, op: Op, leaseId: Id)
    ensures var o := Apply(r, op);
            if ((op.AcquireLease? && op.leaseId == leaseId) || (op.RenewLease? && op.ref.leaseId == leaseId)) && o.response.Leased? then
              leaseId in o.repo.leases && o.repo.leases[leaseId].expiresAt == EndOfTerm(op)
            else leaseId in o.repo.leases ==> leaseId in r.leases && o.repo.leases[leaseId].expiresAt == r.leases[leaseId].expiresAt
  {
  }

  lemma {:induction false} LeaseEndsWithTerm(ops: seq<Op>, k: nat, leaseId: Id) returns (m: nat)
    requires k <= |ops| && leaseId in At(ops, k).leases
    ensures IsLatestTerm(ops, m, k, leaseId) && At(ops, k).leases[leaseId].expiresAt == EndOfTerm(ops[m])
  {
    TermStep(At(ops, k - 1), ops[k - 1], leaseId);
    if GrantsAt(ops, k - 1, leaseId) || RenewsAt(ops, k - 1, leaseId) {
      m := k - 1;
    } else {
      m := LeaseEndsWithTerm(ops, k - 1, leaseId);
    }
  }

  /** A lease is on record exactly while a grant is in force, as that grant's and until its term ends. */
  lemma LeaseIsInForce(ops: seq<Op>, k: nat, leaseId: Id)
    requires k <= |ops|
    ensures leaseId in At(ops, k).leases <==> exists i: nat :: IsInForce(ops, i, k, leaseId)
    ensures forall i: nat :: IsInForce(ops, i, k, leaseId) ==>
              && leaseId in At(ops, k).leases
              && At(ops, k).leases[leaseId].ownerId == ops[i].ownerId && At(ops, k).leases[leaseId].leaseToken == ops[i].drawn
    ensures forall m: nat :: leaseId in At(ops, k).leases && IsLatestTerm(ops, m, k, leaseId) ==>
              At(ops, k).leases[leaseId].expiresAt == EndOfTerm(ops[m])
  {
    if leaseId in At(ops, k).leases {
      var i := LeaseIsLatestGrant(ops, k, leaseId);
      assert IsInForce(ops, i, k, leaseId);
      var m := LeaseEndsWithTerm(ops, k, leaseId);
      assert forall n: nat :: IsLatestTerm(ops, n, k, leaseId) ==> n == m;
    }
    forall i: nat | IsInForce(ops, i, k, leaseId)
      ensures leaseId in At(ops, k).leases
      ensures At(ops, k).leases[leaseId].ownerId == ops[i].ownerId && At(ops, k).leases[leaseId].leaseToken == ops[i].drawn
    {
      UnreleasedGrantStays(ops, i, k, leaseId);
      var g := LeaseIsLatestGrant(ops, k, leaseId);
      assert g == i;
    }
  }

  /** The term last granted or renewed goes on after `now`. */
  ghost predicate IsWithinTerm(ops: seq<Op>, k: nat, leaseId: Id, now: int) {
    exists m: nat :: IsLatestTerm(ops, m, k, leaseId) && now < EndOfTerm(ops[m])
  }

  lemma WithinTermIffActive(ops: seq<Op>, k: nat, leaseId: Id, now: int)
    requires k <= |ops| && leaseId in At(ops, k).leases
    ensures IsWithinTerm(ops, k, leaseId, now) <==> now < At(ops, k).leases[leaseId].expiresAt
  {
    LeaseIsInForce(ops, k, leaseId);
    var m := LeaseEndsWithTerm(ops, k, leaseId);
  }

  /** Another owner's grant is in force and its term goes on. */
  ghost predicate IsTaken(ops: seq<Op>, k: nat, leaseId: Id, ownerId: Id, now: int) {
    exists i: nat :: IsInForce(ops, i, k, leaseId) && ops[i].ownerId != ownerId && IsWithinTerm(ops, k, leaseId, now)
  }

  lemma TakenIffActive(ops: seq<Op>, k: nat, leaseId: Id, ownerId: Id, now: int)
    requires k <= |ops|
    ensures IsTaken(ops, k, leaseId, ownerId, now) <==>
            var leases := At(ops, k).leases; leaseId in leases && leases[leaseId].ownerId != ownerId && now < leases[leaseId].expiresAt
  {
    LeaseIsInForce(ops, k, leaseId);
    if leaseId in At(ops, k).leases {
      WithinTermIffActive(ops, k, leaseId, now);
    }
  }

  lemma AcquireOutcome(r: Repository, op: Op)
    requires op.AcquireLease?
    ensures var taken := op.leaseId in r.leases && r.leases[op.leaseId].ownerId != op.ownerId && op.now < r.leases[op.leaseId].expiresAt;
            Apply(r, op).response == (if taken then Nothing else Leased(Lease(op.ownerId, op.drawn, EndOfTerm(op), op.now)))
            && (taken ==> Apply(r, op).repo == r)
  {
  }

  /**
   * A lease is granted exactly unless another owner's grant is in force, not released, and the term
   * of that grant or of its latest renewal goes on at the clock of the call. So another owner gets
   * it exactly when it was released or that term has run out.
   */
  lemma GrantedIffNotTaken(ops: seq<Op>, k: nat)
    requires k < |ops| && ops[k].AcquireLease?
    ensures GrantsAt(ops, k, ops[k].leaseId) <==> !IsTaken(ops, k, ops[k].leaseId, ops[k].ownerId, ops[k].now)
    ensures GrantsAt(ops, k, ops[k].leaseId) ==>
              ResponseAt(ops, k) == Leased(Lease(ops[k].ownerId, ops[k].drawn, EndOfTerm(ops[k]), ops[k].now))
    ensures !GrantsAt(ops, k, ops[k].leaseId) ==> ResponseAt(ops, k) == Nothing && At(ops, k + 1) == At(ops, k)
  {
    TakenIffActive(ops, k, ops[k].leaseId, ops[k].ownerId, ops[k].now);
    AcquireOutcome(At(ops, k), ops[k]);
  }

  /**
   * After a grant to one owner, another owner is granted the lease exactly when it was released
   * since, or the term of that grant, or of its latest renewal, has run out at the clock of the call.
   */
  lemma LeaseChangesHandsIffRunOut(ops: seq<Op>, i: nat, k: nat)
    requires k < |ops| && ops[k].AcquireLease? && IsLatestGrant(ops, i, k, ops[k].leaseId) && ops[k].ownerId != ops[i].ownerId
    ensures GrantsAt(ops, k, ops[k].leaseId)
       <==> || (exists j :: i < j < k && ReleasesAt(ops, j, ops[k].leaseId))
            || (exists m: nat :: IsLatestTerm(ops, m, k, ops[k].leaseId) && EndOfTerm(ops[m]) <= ops[k].now)
  {
    var leaseId := ops[k].leaseId;
    GrantedIffNotTaken(ops, k);
    assert forall g: nat :: IsInForce(ops, g, k, leaseId) ==> g == i;
    if forall j :: i < j < k ==> !ReleasesAt(ops, j, leaseId) {
      assert IsInForce(ops, i, k, leaseId);
      LeaseIsInForce(ops, k, leaseId);
      var m := LeaseEndsWithTerm(ops, k, leaseId);
      assert forall n: nat :: IsLatestTerm(ops, n, k, leaseId) ==> n == m;
    }
  }

  /** The reference is to the grant in force. */
  ghost predicate RefersToHolder(ops: seq<Op>, k: nat, ref: LeaseRef) {
    exists i: nat :: IsInForce(ops, i, k, ref.leaseId) && ops[i].ownerId == ref.ownerId && ops[i].drawn == ref.leaseToken
  }

  /** The holder, before its term ends. */
  ghost predicate PassesGuard(ops: seq<Op>, k: nat, ref: LeaseRef, now: int) {
    RefersToHolder(ops, k, ref) && IsWithinTerm(ops, k, ref.leaseId, now)
  }

  lemma GuardIsExact(ops: seq<Op>, k: nat, ref: LeaseRef, now: int)
    requires k <= |ops|
    ensures Holds(At(ops, k), ref) <==> RefersToHolder(ops, k, ref)
    ensures HoldsActive(At(ops, k), ref, now) <==> PassesGuard(ops, k, ref, now)
  {
    LeaseIsInForce(ops, k, ref.leaseId);
    if ref.leaseId in At(ops, k).leases {
      WithinTermIffActive(ops, k, ref.leaseId, now);
    }
  }

  /** The holder renews, for the time it asks, whether or not the term has run out; nobody else does. */
  lemma RenewsIffHolder(ops: seq<Op>, k: nat)
    requires k < |ops| && ops[k].RenewLease?
    ensures RenewsAt(ops, k, ops[k].ref.leaseId) <==> RefersToHolder(ops, k, ops[k].ref)
    ensures RenewsAt(ops, k, ops[k].ref.leaseId) ==>
              ResponseAt(ops, k) == Leased(Lease(ops[k].ref.ownerId, ops[k].ref.leaseToken, EndOfTerm(ops[k]), ops[k].now))
    ensures !RenewsAt(ops, k, ops[k].ref.leaseId) ==> ResponseAt(ops, k) == Nothing && At(ops, k + 1) == At(ops, k)
  {
    GuardIsExact(ops, k, ops[k].ref, ops[k].now);
  }

  /** The holder releases its lease; nobody else does. */
  lemma ReleasesIffHolder(ops: seq<Op>, k: nat)
    requires k < |ops| && ops[k].ReleaseLease?
    ensures ReleasesAt(ops, k, ops[k].ref.leaseId) <==> RefersToHolder(ops, k, ops[k].ref)
    ensures !ReleasesAt(ops, k, ops[k].ref.leaseId) ==> ResponseAt(ops, k) == Nothing && At(ops, k + 1) == At(ops, k)
  {
    GuardIsExact(ops, k, ops[k].ref, 0);
  }

  /** A prune goes through exactly for the holder before its term ends. */
  lemma PrunesIffWithinTerm(ops: seq<Op>, k: nat)
    requires k < |ops| && ops[k].Prune?
    ensures ResponseAt(ops, k).Pruned? <==> PassesGuard(ops, k, ops[k].ref, ops[k].now)
    ensures !ResponseAt(ops, k).Pruned? ==> ResponseAt(ops, k) == Nothing && At(ops, k + 1) == At(ops, k)
  {
    GuardIsExact(ops, k, ops[k].ref, ops[k].now);
  }

  // ----- Jobs ------------------------------------------------------------------------------------

  predicate QueuesAt(ops: seq<Op>, q: nat, id: Id)
    requires q < |ops|
  {
    ops[q].EnqueueJob? && ops[q].drawn == id
  }

  predicate FinishesAt(ops: seq<Op>, j: nat, id: Id)
    requires j < |ops|
  {
    ops[j].FinishJob? && ops[j].jobId == id && ResponseAt(ops, j).JobIs?
  }

  /** What the caller that queued a job fixed about it. */
  lemma {:induction false} JobIsAsQueued(ops: seq<Op>, k: nat, id: Id) returns (q: nat)
    requires k <= |ops| && id in At(ops, k).jobs.at
    ensures q < k && QueuesAt(ops, q, id)
    ensures var job := At(ops, k).jobs.at[id];
            job.availableAt == ops[q].availableAt && job.kind == ops[q].kind && job.sessionId == ops[q].target && job.createdAt == ops[q].now
  {
    JobStep(At(ops, k - 1), ops[k - 1], id);
    if QueuesAt(ops, k - 1, id) {
      q := k - 1;
    } else {
      q := JobIsAsQueued(ops, k - 1, id);
    }
  }

  /** Finished at or after its latest claim. */
  predicate WasFinished(ops: seq<Op>, i: nat, k: nat, id: Id)
    requires k <= |ops|
  {
    exists j :: i < j < k && FinishesAt(ops, j, id)
  }

  lemma NeverClaimedIsPending(ops: seq<Op>, k: nat, id: Id)
    requires IsRun(ops) && k <= |ops| && id in At(ops, k).jobs.at && forall i :: 0 <= i < k ==> !ClaimsAt(ops, i, id)
    ensures At(ops, k).jobs.at[id].status == Pending
  {
    RunKeepsJobsSound(ops, k);
    if At(ops, k).jobs.at[id].status != Pending {
      var i := TokenIsLatestClaim(ops, k, id);
    }
  }

  /** A claimed job is claimed until it is finished, and terminal from then on. */
  lemma {:induction false} ClaimedUntilFinished(ops: seq<Op>, i: nat, k: nat, id: Id)
    requires IsRun(ops) && IsLatestClaim(ops, i, k, id) && id in At(ops, k).jobs.at
    ensures At(ops, k).jobs.at[id].status == Claimed <==> !WasFinished(ops, i, k, id)
    decreases k
  {
    if i == k - 1 {
      ClaimedJobStays(At(ops, i), ops[i], id);
      JobStep(At(ops, i), ops[i], id);
    } else {
      ClaimedJobStays(At(ops, i), ops[i], id);
      JobWasThere(ops, i, k, id);
      ClaimedUntilFinished(ops, i, k - 1, id);
      assert IsWellTyped(ops[k - 1]) && !ClaimsAt(ops, k - 1, id);
      StatusStep(At(ops, k - 1), ops[k - 1], id);
      FinishedSoFar(ops, i, k - 1, id);
    }
  }

  lemma FinishedSoFar(ops: seq<Op>, i: nat, k: nat, id: Id)
    requires i < k < |ops|
    ensures WasFinished(ops, i, k + 1, id) <==> WasFinished(ops, i, k, id) || FinishesAt(ops, k, id)
  {
  }

  /** Without a new claim, a job on record is left as it is or finished. */
  lemma StatusStep(r: Repository, op: Op, id: Id)
    requires id in r.jobs.at && id in Apply(r, op).repo.jobs.at && !(op.EnqueueJob? && op.drawn == id) && !ClaimsStep(r, op, id)
    requires IsWellTyped(op)
    ensures var status := Apply(r, op).repo.jobs.at[id].status;
            if op.FinishJob? && op.jobId == id && Apply(r, op).response.JobIs? then status != Claimed else status == r.jobs.at[id].status
  {
    FinishStep(r, op, id);
  }

  lemma FinishStep(r: Repository, op: Op, id: Id)
    requires id in r.jobs.at && id in Apply(r, op).repo.jobs.at && !(op.EnqueueJob? && op.drawn == id)
    ensures var job, job' := r.jobs.at[id], Apply(r, op).repo.jobs.at[id];
            if op.FinishJob? && op.jobId == id && Apply(r, op).response.JobIs? then
              job' == job.(status := op.result, claimExpiresAt := None, updatedAt := op.now)
            else if ClaimsStep(r, op, id) then true
            else job' == job
  {
    JobStep(r, op, id);
  }

  /**
   * A job is due: on record, available at `now` by what its caller asked, and never handed out, or
   * handed out last under a claim that has run out without the job being finished.
   */
  ghost predicate IsDue(ops: seq<Op>, k: nat, id: Id, now: int)
    requires k <= |ops|
  {
    && id in At(ops, k).jobs.at
    && (exists q :: 0 <= q < k && QueuesAt(ops, q, id) && ops[q].availableAt <= now)
    && (|| (forall i :: 0 <= i < k ==> !ClaimsAt(ops, i, id))
        || (exists i: nat :: IsLatestClaim(ops, i, k, id) && !WasFinished(ops, i, k, id) && ops[i].now + ops[i].ttl <= now))
  }

  lemma {:induction false} LatestClaim(ops: seq<Op>, j: nat, k: nat, id: Id) returns (i: nat)
    requires j < k <= |ops| && ClaimsAt(ops, j, id)
    ensures IsLatestClaim(ops, i, k, id)
    decreases k - j
  {
    if forall m :: j < m < k ==> !ClaimsAt(ops, m, id) {
      i := j;
    } else {
      var m :| j < m < k && ClaimsAt(ops, m, id);
      i := LatestClaim(ops, m, k, id);
    }
  }

  lemma QueuedOnce(ops: seq<Op>, p: nat, q: nat, id: Id)
    requires IsRun(ops) && p < |ops| && q < |ops| && QueuesAt(ops, p, id) && QueuesAt(ops, q, id)
    ensures p == q
  {
    assert Drawn(ops[p]) == Drawn(ops[q]) == Some(id);
  }

  lemma AvailableAsAsked(ops: seq<Op>, k: nat, id: Id, now: int)
    requires IsRun(ops) && k <= |ops| && id in At(ops, k).jobs.at
    ensures At(ops, k).jobs.at[id].availableAt <= now <==> exists q :: 0 <= q < k && QueuesAt(ops, q, id) && ops[q].availableAt <= now
  {
    var p := JobIsAsQueued(ops, k, id);
    forall q | 0 <= q < k && QueuesAt(ops, q, id) ensures q == p {
      QueuedOnce(ops, p, q, id);
    }
  }

  /** A job can be handed out exactly when it is due. */
  lemma ClaimableIffDue(ops: seq<Op>, k: nat, id: Id, now: int)
    requires IsRun(ops) && k <= |ops| && id in At(ops, k).jobs.at
    ensures IsClaimable(At(ops, k).jobs.at[id], now) <==> IsDue(ops, k, id, now)
  {
    AvailableAsAsked(ops, k, id, now);
    if forall i :: 0 <= i < k ==> !ClaimsAt(ops, i, id) {
      NeverClaimedIsPending(ops, k, id);
    } else {
      var c :| 0 <= c < k && ClaimsAt(ops, c, id);
      var i := LatestClaim(ops, c, k, id);
      ClaimExpiryStays(ops, i, k, id);
      ClaimedUntilFinished(ops, i, k, id);
      assert forall j: nat :: IsLatestClaim(ops, j, k, id) ==> j == i;
    }
  }

  // ----- The order of the queue ------------------------------------------------------------------

  /** Jobs are kept in the order in which they were queued. */
  ghost predicate InQueueOrder(ops: seq<Op>, k: nat)
    requires k <= |ops|
  {
    var keys := At(ops, k).jobs.keys;
    forall a, b, p, q ::
      (0 <= a < b < |keys| && 0 <= p < k && 0 <= q < k && QueuesAt(ops, p, keys[a]) && QueuesAt(ops, q, keys[b])) ==> p < q
  }

  /** Deleting keys leaves a subsequence. */
  lemma {:induction false} OutsideKeepsOrder<K(!new)>(keys: seq<K>, gone: set<K>) returns (places: seq<nat>)
    ensures |places| == |M.Outside(keys, gone)|
    ensures forall a :: 0 <= a < |places| ==> places[a] < |keys| && keys[places[a]] == M.Outside(keys, gone)[a]
    ensures forall a, b :: 0 <= a < b < |places| ==> places[a] < places[b]
  {
    if keys == [] {
      places := [];
    } else {
      var init, last := keys[..|keys| - 1], keys[|keys| - 1];
      var before := OutsideKeepsOrder(init, gone);
      places := before + if last in gone then [] else [|keys| - 1];
    }
  }

  lemma JobKeysStep(r: Repository, op: Op)
    ensures var keys, keys' := r.jobs.keys, Apply(r, op).repo.jobs.keys;
            || keys' == keys
            || (op.EnqueueJob? && keys' == keys + [op.drawn])
            || (op.Prune? && keys' == M.Outside(keys, OldJobs(r, Cutoff(op.now, op.retention.jobDays))))
  {
  }

  /** Where two jobs stood one operation earlier; the second may be the one just queued. */
  lemma PairBefore(ops: seq<Op>, k: nat, a: nat, b: nat) returns (a': nat, b': nat)
    requires 0 < k <= |ops| && a < b < |At(ops, k).jobs.keys|
    ensures var keys, keys' := At(ops, k - 1).jobs.keys, At(ops, k).jobs.keys;
            && a' < b' <= |keys| && keys[a'] == keys'[a]
            && if b' < |keys| then keys[b'] == keys'[b] else QueuesAt(ops, k - 1, keys'[b])
  {
    var r, op := At(ops, k - 1), ops[k - 1];
    JobKeysStep(r, op);
    a', b' := a, b;
    if op.Prune? && At(ops, k).jobs.keys != r.jobs.keys {
      var places := OutsideKeepsOrder(r.jobs.keys, OldJobs(r, Cutoff(op.now, op.retention.jobDays)));
      a', b' := places[a], places[b];
    }
  }

  lemma KeysAreQueued(ops: seq<Op>, k: nat, a: nat) returns (q: nat)
    requires IsRun(ops) && k <= |ops| && a < |At(ops, k).jobs.keys|
    ensures q < k && QueuesAt(ops, q, At(ops, k).jobs.keys[a])
  {
    RunKeepsJobsSound(ops, k);
    assert At(ops, k).jobs.keys[a] in At(ops, k).jobs.keys;
    q := JobIsAsQueued(ops, k, At(ops, k).jobs.keys[a]);
  }

  lemma {:induction false} QueuedInOrder(ops: seq<Op>, k: nat, a: nat, b: nat, p: nat, q: nat)
    requires IsRun(ops) && k <= |ops| && a < b < |At(ops, k).jobs.keys| && p < k && q < k
    requires QueuesAt(ops, p, At(ops, k).jobs.keys[a]) && QueuesAt(ops, q, At(ops, k).jobs.keys[b])
    ensures p < q
    decreases k
  {
    var keys := At(ops, k - 1).jobs.keys;
    var a', b' := PairBefore(ops, k, a, b);
    var p' := KeysAreQueued(ops, k - 1, a');
    QueuedOnce(ops, p, p', keys[a']);
    if b' < |keys| {
      var q' := KeysAreQueued(ops, k - 1, b');
      QueuedOnce(ops, q, q', keys[b']);
      QueuedInOrder(ops, k - 1, a', b', p, q);
    } else {
      QueuedOnce(ops, q, k - 1, At(ops, k).jobs.keys[b]);
    }
  }

  lemma RunKeepsQueueOrder(ops: seq<Op>, k: nat)
    requires IsRun(ops) && k <= |ops|
    ensures InQueueOrder(ops, k)
  {
    var keys := At(ops, k).jobs.keys;
    forall a, b, p, q | 0 <= a < b < |keys| && 0 <= p < k && 0 <= q < k && QueuesAt(ops, p, keys[a]) && QueuesAt(ops, q, keys[b])
      ensures p < q
    {
      QueuedInOrder(ops, k, a, b, p, q);
    }
  }

  // ----- Handing out and finishing ---------------------------------------------------------------

  /** Job `id` comes before job `other`: available earlier, or together and queued first. */
  ghost predicate ComesFirst(ops: seq<Op>, k: nat, id: Id, other: Id)
    requires k <= |ops|
  {
    forall p, q :: 0 <= p < k && 0 <= q < k && QueuesAt(ops, p, id) && QueuesAt(ops, q, other) ==>
      ops[p].availableAt < ops[q].availableAt || (ops[p].availableAt == ops[q].availableAt && p <= q)
  }

  lemma EarlierComesFirst(ops: seq<Op>, k: nat, a: nat, b: nat)
    requires IsRun(ops) && k <= |ops|
    requires var jobs := At(ops, k).jobs; a < |jobs.keys| && b < |jobs.keys| && IsEarlier(jobs, a, b)
    ensures ComesFirst(ops, k, At(ops, k).jobs.keys[a], At(ops, k).jobs.keys[b])
  {
    var jobs := At(ops, k).jobs;
    RunKeepsJobsSound(ops, k);
    RunKeepsQueueOrder(ops, k);
    assert jobs.keys[a] in jobs.keys && jobs.keys[b] in jobs.keys;
    var p' := JobIsAsQueued(ops, k, jobs.keys[a]);
    var q' := JobIsAsQueued(ops, k, jobs.keys[b]);
    forall p, q | 0 <= p < k && 0 <= q < k && QueuesAt(ops, p, jobs.keys[a]) && QueuesAt(ops, q, jobs.keys[b])
      ensures ops[p].availableAt < ops[q].availableAt || (ops[p].availableAt == ops[q].availableAt && p <= q)
    {
      QueuedOnce(ops, p, p', jobs.keys[a]);
      QueuedOnce(ops, q, q', jobs.keys[b]);
    }
  }

  ghost predicate MayClaim(ops: seq<Op>, k: nat)
    requires k < |ops| && ops[k].ClaimJob?
  {
    ops[k].lease.Some? ==> PassesGuard(ops, k, ops[k].lease.value, ops[k].now)
  }

  /** The job as the claim of operation `op` leaves it. */
  predicate IsClaimedBy(job: Job, op: Op, job': Job)
    requires op.ClaimJob?
  {
    job' == job.(status := Claimed, claimedBy := Some(op.claimedBy), claimToken := Some(op.drawn),
                 claimExpiresAt := Some(op.now + op.ttl), attemptCount := job.attemptCount + 1, updatedAt := op.now)
  }

  lemma ClaimOutcome(r: Repository, op: Op)
    requires op.ClaimJob?
    ensures var o, candidate := Apply(r, op), Candidate(r.jobs, op.now);
            if (op.lease.Some? ==> HoldsActive(r, op.lease.value, op.now)) && candidate.Some? then
              && o.response.JobIs? && o.response.jobId == candidate.value
              && candidate.value in r.jobs.at && IsClaimedBy(r.jobs.at[candidate.value], op, o.response.job)
              && o.repo.jobs.at == r.jobs.at[candidate.value := o.response.job]
            else o == Outcome(r, Nothing)
  {
    CandidateIsEarliest(r.jobs, op.now);
  }

  /**
   * A job is handed out exactly when the caller, if it names a lease, is its holder before the term
   * ends, and some job is due; otherwise nothing changes.
   */
  lemma HandsOutIffDue(ops: seq<Op>, k: nat)
    requires IsRun(ops) && k < |ops| && ops[k].ClaimJob?
    ensures ResponseAt(ops, k).JobIs? <==> MayClaim(ops, k) && exists id :: IsDue(ops, k, id, ops[k].now)
    ensures !ResponseAt(ops, k).JobIs? ==> ResponseAt(ops, k) == Nothing && At(ops, k + 1) == At(ops, k)
  {
    if ops[k].lease.Some? {
      GuardIsExact(ops, k, ops[k].lease.value, ops[k].now);
    }
    ClaimOutcome(At(ops, k), ops[k]);
    CandidateIffDue(ops, k, ops[k].now);
  }

  /**
   * The job handed out is the due one that was available first, the one queued first among those,
   * claimed for the caller under the drawn token; no other job changes.
   */
  lemma HandsOutFirstDue(ops: seq<Op>, k: nat)
    requires IsRun(ops) && k < |ops| && ops[k].ClaimJob? && ResponseAt(ops, k).JobIs?
    ensures var id, job := ResponseAt(ops, k).jobId, ResponseAt(ops, k).job;
            && IsDue(ops, k, id, ops[k].now) && (forall other :: IsDue(ops, k, other, ops[k].now) ==> ComesFirst(ops, k, id, other))
            && id in At(ops, k).jobs.at && IsClaimedBy(At(ops, k).jobs.at[id], ops[k], job)
            && At(ops, k + 1).jobs.at == At(ops, k).jobs.at[id := job]
  {
    ClaimOutcome(At(ops, k), ops[k]);
    FirstDue(ops, k, ops[k].now);
  }

  lemma CandidateIffDue(ops: seq<Op>, k: nat, now: int)
    requires IsRun(ops) && k <= |ops|
    ensures Candidate(At(ops, k).jobs, now).Some? <==> exists id :: IsDue(ops, k, id, now)
  {
    var jobs := At(ops, k).jobs;
    if Candidate(jobs, now).Some? {
      FirstDue(ops, k, now);
    } else {
      RunKeepsJobsSound(ops, k);
      CandidateIsEarliest(jobs, now);
      forall id ensures !IsDue(ops, k, id, now) {
        if id in jobs.at {
          assert id in jobs.keys;
          var j :| 0 <= j < |jobs.keys| && jobs.keys[j] == id;
          assert !IsClaimableAt(jobs, j, now);
          ClaimableIffDue(ops, k, id, now);
        }
      }
    }
  }

  lemma FirstDue(ops: seq<Op>, k: nat, now: int)
    requires IsRun(ops) && k <= |ops| && Candidate(At(ops, k).jobs, now).Some?
    ensures var id := Candidate(At(ops, k).jobs, now).value;
            IsDue(ops, k, id, now) && forall other :: IsDue(ops, k, other, now) ==> ComesFirst(ops, k, id, other)
  {
    var jobs := At(ops, k).jobs;
    RunKeepsJobsSound(ops, k);
    CandidateIsEarliest(jobs, now);
    var i :| 0 <= i < |jobs.keys| && jobs.keys[i] == Candidate(jobs, now).value && IsClaimableAt(jobs, i, now)
             && forall j :: 0 <= j < |jobs.keys| && IsClaimableAt(jobs, j, now) ==> IsEarlier(jobs, i, j);
    ClaimableIffDue(ops, k, jobs.keys[i], now);
    forall other | IsDue(ops, k, other, now) ensures ComesFirst(ops, k, jobs.keys[i], other) {
      ClaimableIffDue(ops, k, other, now);
      assert other in jobs.keys;
      var j :| 0 <= j < |jobs.keys| && jobs.keys[j] == other;
      assert IsClaimableAt(jobs, j, now);
      EarlierComesFirst(ops, k, i, j);
    }
  }

  /** A job is finished exactly under the token of its latest claim, while it is on record. */
  lemma FinishesIffLatestClaim(ops: seq<Op>, k: nat)
    requires IsRun(ops) && k < |ops| && ops[k].FinishJob?
    ensures var id := ops[k].jobId;
            && (FinishesAt(ops, k, id) <==> id in At(ops, k).jobs.at && exists i: nat :: IsLatestClaim(ops, i, k, id) && ops[i].drawn == ops[k].claimToken)
            && (FinishesAt(ops, k, id) ==>
                  && id in At(ops, k + 1).jobs.at
                  && At(ops, k + 1).jobs.at[id] == At(ops, k).jobs.at[id].(status := ops[k].result, claimExpiresAt := None, updatedAt := ops[k].now))
            && (!FinishesAt(ops, k, id) ==> ResponseAt(ops, k).Threw? && At(ops, k + 1) == At(ops, k))
  {
    var id := ops[k].jobId;
    if id in At(ops, k).jobs.at {
      if i: nat :| IsLatestClaim(ops, i, k, id) && ops[i].drawn == ops[k].claimToken {
        ClaimExpiryStays(ops, i, k, id);
        RunKeepsJobsSound(ops, k);
        var j := TokenIsLatestClaim(ops, k, id);
        assert i == j;
      }
      if At(ops, k).jobs.at[id].claimToken == Some(ops[k].claimToken) {
        var j := TokenIsLatestClaim(ops, k, id);
      }
    }
  }
}
