/**
 * What holds over every run of one session of the lease-fenced store: how leases fence workers,
 * what the version counters mean, and what can happen to a queued command.
 */
module ProofStoreRuns {
  import opened Wrappers
  import opened Json
  import opened StableJson
  import opened StableJsonTies
  import opened ProofStore

  // ----- The invariant -------------------------------------------------------------------------

  predicate LeaseIsExact(s: Session) {
    && (s.lease.None? ==> s.nextLeaseAttempt == 0)
    && (s.lease.Some? ==>
          && s.lease.value.leaseToken == Token(s.sessionId, s.nextLeaseAttempt, s.lease.value.leasedBy)
          && s.lease.value.sessionId == s.sessionId
          && s.lease.value.checkpointVersion == s.checkpointVersion)
  }

  predicate CommandIsSound(c: Command) {
    && (c.ackedBy.None? <==> c.status == Pending)
    && (c.ackedAt.Some? <==> c.status == Acked)
    && (c.error.Some? <==> c.status == Failed)
  }

  predicate QueueIsExact(s: Session) {
    && |s.commands| == s.nextCommandSeq
    && (forall i :: 0 <= i < |s.commands| ==> s.commands[i].createdSeq == i + 1 && CommandIsSound(s.commands[i]))
    && (forall i, j :: 0 <= i < j < |s.commands| ==> s.commands[i].commandId != s.commands[j].commandId)
  }

  predicate Valid(s: Session) {
    LeaseIsExact(s) && QueueIsExact(s)
  }

  /** What may happen to one command, over any number of steps. */
  predicate Follows(c: Command, d: Command) {
    && d.commandId == c.commandId && d.content == c.content && d.createdSeq == c.createdSeq
    && (c.status == Running ==> d.status != Pending && d.ackedBy == c.ackedBy)
    && (c.status == Acked || c.status == Failed ==> d == c)
  }

  predicate Evolves(s: Session, t: Session) {
    && t.sessionId == s.sessionId
    && s.nextLeaseAttempt <= t.nextLeaseAttempt
    && s.checkpointVersion <= t.checkpointVersion
    && s.projectionSeq <= t.projectionSeq
    && |s.commands| <= |t.commands|
    && (forall i :: 0 <= i < |s.commands| ==> Follows(s.commands[i], t.commands[i]))
  }

  lemma EvolvesIsReflexive(s: Session)
    ensures Evolves(s, s)
  {
  }

  lemma EvolvesIsTransitive(s: Session, t: Session, u: Session)
    requires Evolves(s, t) && Evolves(t, u)
    ensures Evolves(s, u)
  {
    forall i | 0 <= i < |s.commands| ensures Follows(s.commands[i], u.commands[i]) {
      assert Follows(s.commands[i], t.commands[i]) && Follows(t.commands[i], u.commands[i]);
    }
  }

  lemma QueueGrows(s: Session, c: Command, t: Session)
    requires QueueIsExact(s) && CommandIsSound(c) && c.createdSeq == s.nextCommandSeq + 1
    requires forall i :: 0 <= i < |s.commands| ==> s.commands[i].commandId != c.commandId
    requires t.commands == s.commands + [c] && t.nextCommandSeq == s.nextCommandSeq + 1
    ensures QueueIsExact(t)
    ensures forall i :: 0 <= i < |s.commands| ==> Follows(s.commands[i], t.commands[i])
  {
  }

  lemma QueueMoves(s: Session, p: nat, c: Command, t: Session)
    requires QueueIsExact(s) && p < |s.commands| && CommandIsSound(c) && Follows(s.commands[p], c)
    requires t.commands == s.commands[p := c] && t.nextCommandSeq == s.nextCommandSeq
    ensures QueueIsExact(t)
    ensures forall i :: 0 <= i < |s.commands| ==> Follows(s.commands[i], t.commands[i])
  {
  }

  lemma QueueStays(s: Session, t: Session)
    requires QueueIsExact(s) && t.commands == s.commands && t.nextCommandSeq == s.nextCommandSeq
    ensures QueueIsExact(t)
    ensures forall i :: 0 <= i < |s.commands| ==> Follows(s.commands[i], t.commands[i])
  {
  }

  /** The command that an operation moves, if it moves one. */
  function Touched(s: Session, op: Op): nat {
    match op
    case ClaimNext(l) => FindEligible(s.commands, l.leaseToken)
    case Ack(_, commandId, _) => FindId(s.commands, commandId)
    case Fail(_, commandId, _) => FindId(s.commands, commandId)
    case _ => |s.commands|
  }

  predicate ChangesQueue(op: Op) {
    op.ClaimNext? || op.Ack? || op.Fail?
  }

  lemma FencedQueueMoves(s: Session, op: Op)
    requires Valid(s) && ChangesQueue(op) && s.lease.Some?
    ensures Valid(ApplyFenced(s, op).session) && Evolves(s, ApplyFenced(s, op).session)
  {
    var t, p := ApplyFenced(s, op).session, Touched(s, op);
    match op {
      case ClaimNext(l) => FindEligibleIsFirst(s.commands, l.leaseToken);
      case Ack(_, commandId, _) => FindIdIsFirst(s.commands, commandId);
      case Fail(_, commandId, _) => FindIdIsFirst(s.commands, commandId);
    }
    if t != s {
      QueueMoves(s, p, t.commands[p], t);
    }
  }

  lemma EnqueueKeeps(le: Comparison, s: Session, commandId: string, content: Content)
    requires Valid(s)
    ensures Valid(ApplyEnqueue(le, s, commandId, content).session) && Evolves(s, ApplyEnqueue(le, s, commandId, content).session)
  {
    var t := ApplyEnqueue(le, s, commandId, content).session;
    FindIdIsFirst(s.commands, commandId);
    if FindId(s.commands, commandId) >= |s.commands| {
      QueueGrows(s, t.commands[|s.commands|], t);
    }
  }

  /** Every operation keeps the invariant and only moves the session forward. */
  lemma ApplyKeeps(le: Comparison, s: Session, op: Op)
    requires Valid(s)
    ensures Valid(Apply(le, s, op).session) && Evolves(s, Apply(le, s, op).session)
  {
    match op
    case Enqueue(commandId, content) => EnqueueKeeps(le, s, commandId, content);
    case Claim(_, _, _) => QueueStays(s, Apply(le, s, op).session);
    case _ =>
      if !IsCurrent(s, op.lease) {
        EvolvesIsReflexive(s);
      } else if ChangesQueue(op) {
        FencedQueueMoves(s, op);
      } else {
        QueueStays(s, Apply(le, s, op).session);
      }
  }

  // ----- Runs ----------------------------------------------------------------------------------

  /** The session after the first `k` operations. */
  function At(le: Comparison, sid: string, ops: seq<Op>, k: nat): Session
    requires k <= |ops|
  {
    if k == 0 then NewSession(sid) else Apply(le, At(le, sid, ops, k - 1), ops[k - 1]).session
  }

  function ResponseAt(le: Comparison, sid: string, ops: seq<Op>, k: nat): Response
    requires k < |ops|
  {
    Apply(le, At(le, sid, ops, k), ops[k]).response
  }

  lemma {:induction false} RunKeeps(le: Comparison, sid: string, ops: seq<Op>, k: nat)
    requires k <= |ops|
    ensures Valid(At(le, sid, ops, k)) && At(le, sid, ops, k).sessionId == sid
  {
    if k > 0 {
      RunKeeps(le, sid, ops, k - 1);
      ApplyKeeps(le, At(le, sid, ops, k - 1), ops[k - 1]);
    }
  }

  lemma StepEvolves(le: Comparison, sid: string, ops: seq<Op>, k: nat)
    requires k < |ops|
    ensures Evolves(At(le, sid, ops, k), At(le, sid, ops, k + 1))
  {
    RunKeeps(le, sid, ops, k);
    ApplyKeeps(le, At(le, sid, ops, k), ops[k]);
  }

  /** Between any two moments of a run the session only moves forward. */
  lemma {:induction false} RunEvolves(le: Comparison, sid: string, ops: seq<Op>, i: nat, k: nat)
    requires i <= k <= |ops|
    ensures Evolves(At(le, sid, ops, i), At(le, sid, ops, k))
    decreases k - i
  {
    var s, t := At(le, sid, ops, i), At(le, sid, ops, k);
    if i == k {
      EvolvesIsReflexive(s);
    } else {
      StepEvolves(le, sid, ops, i);
      RunEvolves(le, sid, ops, i + 1, k);
      EvolvesIsTransitive(s, At(le, sid, ops, i + 1), t);
    }
  }

  // ----- Leases --------------------------------------------------------------------------------

  /** Operation `i` granted a new lease. */
  predicate GrantsAt(le: Comparison, sid: string, ops: seq<Op>, i: nat)
    requires i < |ops|
  {
    ops[i].Claim? && ResponseAt(le, sid, ops, i).Granted?
  }

  function TokenAt(le: Comparison, sid: string, ops: seq<Op>, i: nat): string
    requires i < |ops| && GrantsAt(le, sid, ops, i)
  {
    ResponseAt(le, sid, ops, i).lease.leaseToken
  }

  lemma GrantStep(le: Comparison, sid: string, ops: seq<Op>, i: nat)
    requires i < |ops| && GrantsAt(le, sid, ops, i)
    ensures At(le, sid, ops, i + 1).nextLeaseAttempt == At(le, sid, ops, i).nextLeaseAttempt + 1
    ensures TokenAt(le, sid, ops, i) == Token(sid, At(le, sid, ops, i + 1).nextLeaseAttempt, ops[i].worker)
  {
    RunKeeps(le, sid, ops, i);
  }

  /** The tokens of a session's grants are pairwise distinct. */
  lemma TokensAreDistinct(le: Comparison, sid: string, ops: seq<Op>, i: nat, j: nat)
    requires i < j < |ops| && GrantsAt(le, sid, ops, i) && GrantsAt(le, sid, ops, j)
    ensures TokenAt(le, sid, ops, i) != TokenAt(le, sid, ops, j)
  {
    GrantStep(le, sid, ops, i);
    GrantStep(le, sid, ops, j);
    RunEvolves(le, sid, ops, i + 1, j);
    var a, b := At(le, sid, ops, i + 1).nextLeaseAttempt, At(le, sid, ops, j + 1).nextLeaseAttempt;
    if Token(sid, a, ops[i].worker) == Token(sid, b, ops[j].worker) {
      TokenDeterminesAttempt(sid, a, ops[i].worker, b, ops[j].worker);
    }
  }

  predicate IsLatestGrant(le: Comparison, sid: string, ops: seq<Op>, i: nat, k: nat) {
    && i < k <= |ops|
    && GrantsAt(le, sid, ops, i)
    && (forall j :: i < j < k ==> !GrantsAt(le, sid, ops, j))
  }

  lemma OnlyGrantsChangeTokens(le: Comparison, s: Session, op: Op)
    ensures var o := Apply(le, s, op);
            if op.Claim? && o.response.Granted? then o.session.lease == Some(o.response.lease)
            else o.session.lease.Some? == s.lease.Some? && (s.lease.Some? ==> o.session.lease.value.leaseToken == s.lease.value.leaseToken)
  {
  }

  lemma TokenStep(le: Comparison, sid: string, ops: seq<Op>, k: nat)
    requires k < |ops|
    ensures var lease, lease' := At(le, sid, ops, k).lease, At(le, sid, ops, k + 1).lease;
            if GrantsAt(le, sid, ops, k) then lease'.Some? && lease'.value.leaseToken == TokenAt(le, sid, ops, k)
            else lease'.Some? == lease.Some? && (lease.Some? ==> lease'.value.leaseToken == lease.value.leaseToken)
  {
    OnlyGrantsChangeTokens(le, At(le, sid, ops, k), ops[k]);
  }

  lemma LatestExtends(le: Comparison, sid: string, ops: seq<Op>, i: nat, k: nat)
    requires IsLatestGrant(le, sid, ops, i, k) && k < |ops| && !GrantsAt(le, sid, ops, k)
    ensures IsLatestGrant(le, sid, ops, i, k + 1)
  {
  }

  lemma NoLeaseAtFirst(le: Comparison, sid: string, ops: seq<Op>)
    ensures At(le, sid, ops, 0).lease.None?
  {
  }

  /** The session's lease carries the token of the latest grant. */
  lemma {:induction false} LeaseIsLatestGrant(le: Comparison, sid: string, ops: seq<Op>, k: nat) returns (i: nat)
    requires k <= |ops| && At(le, sid, ops, k).lease.Some?
    ensures IsLatestGrant(le, sid, ops, i, k) && TokenAt(le, sid, ops, i) == At(le, sid, ops, k).lease.value.leaseToken
  {
    NoLeaseAtFirst(le, sid, ops);
    TokenStep(le, sid, ops, k - 1);
    if GrantsAt(le, sid, ops, k - 1) {
      i := k - 1;
    } else {
      i := LeaseIsLatestGrant(le, sid, ops, k - 1);
      LatestExtends(le, sid, ops, i, k - 1);
    }
  }

  lemma {:induction false} GrantLeavesLease(le: Comparison, sid: string, ops: seq<Op>, i: nat, k: nat)
    requires i < k <= |ops| && GrantsAt(le, sid, ops, i)
    ensures At(le, sid, ops, k).lease.Some?
    decreases k
  {
    OnlyGrantsChangeTokens(le, At(le, sid, ops, k - 1), ops[k - 1]);
    if i < k - 1 {
      GrantLeavesLease(le, sid, ops, i, k - 1);
    }
  }

  /** A token is current exactly when it is the one of the latest grant. */
  lemma CurrentIffLatestGrant(le: Comparison, sid: string, ops: seq<Op>, k: nat, lease: Lease)
    requires k <= |ops|
    ensures IsCurrent(At(le, sid, ops, k), lease)
       <==> exists i :: IsLatestGrant(le, sid, ops, i, k) && TokenAt(le, sid, ops, i) == lease.leaseToken
  {
    if i: nat :| IsLatestGrant(le, sid, ops, i, k) && TokenAt(le, sid, ops, i) == lease.leaseToken {
      GrantLeavesLease(le, sid, ops, i, k);
      var j := LeaseIsLatestGrant(le, sid, ops, k);
      assert i == j;
    }
    if IsCurrent(At(le, sid, ops, k), lease) {
      var j := LeaseIsLatestGrant(le, sid, ops, k);
    }
  }

  /** Once a newer lease is granted, nothing done with an earlier one ever succeeds or changes anything. */
  lemma ReplacedLeaseIsFenced(le: Comparison, sid: string, ops: seq<Op>, i: nat, j: nat, k: nat)
    requires i < j < k < |ops| && GrantsAt(le, sid, ops, i) && GrantsAt(le, sid, ops, j)
    requires LeaseOf(ops[k]).Some? && LeaseOf(ops[k]).value.leaseToken == TokenAt(le, sid, ops, i)
    ensures ResponseAt(le, sid, ops, k) == Refused(StaleLease) && At(le, sid, ops, k + 1) == At(le, sid, ops, k)
  {
    if IsCurrent(At(le, sid, ops, k), LeaseOf(ops[k]).value) {
      var g := LeaseIsLatestGrant(le, sid, ops, k);
      TokensAreDistinct(le, sid, ops, i, g);
    }
  }

  // ----- Versions and projections --------------------------------------------------------------

  predicate CheckpointsAt(le: Comparison, sid: string, ops: seq<Op>, i: nat)
    requires i < |ops|
  {
    ops[i].Checkpoint? && ResponseAt(le, sid, ops, i).Granted?
  }

  function CheckpointCount(le: Comparison, sid: string, ops: seq<Op>, k: nat): nat
    requires k <= |ops|
  {
    if k == 0 then 0 else CheckpointCount(le, sid, ops, k - 1) + if CheckpointsAt(le, sid, ops, k - 1) then 1 else 0
  }

  lemma VersionStep(le: Comparison, s: Session, op: Op)
    ensures var o := Apply(le, s, op);
            o.session.checkpointVersion == s.checkpointVersion + if op.Checkpoint? && o.response.Granted? then 1 else 0
    ensures op.Checkpoint? && Apply(le, s, op).response.Granted? ==> op.lease.checkpointVersion == s.checkpointVersion
  {
  }

  /** The version is the number of checkpoints that succeeded. */
  lemma {:induction false} VersionCountsCheckpoints(le: Comparison, sid: string, ops: seq<Op>, k: nat)
    requires k <= |ops|
    ensures At(le, sid, ops, k).checkpointVersion == CheckpointCount(le, sid, ops, k)
  {
    if k > 0 {
      VersionCountsCheckpoints(le, sid, ops, k - 1);
      VersionStep(le, At(le, sid, ops, k - 1), ops[k - 1]);
    }
  }

  /** No two successful checkpoints start from the same version: a lease copy checkpoints at most once. */
  lemma CheckpointsNeverShareAVersion(le: Comparison, sid: string, ops: seq<Op>, i: nat, j: nat)
    requires i < j < |ops| && CheckpointsAt(le, sid, ops, i) && CheckpointsAt(le, sid, ops, j)
    ensures ops[i].lease.checkpointVersion == CheckpointCount(le, sid, ops, i)
    ensures ops[i].lease.checkpointVersion < ops[j].lease.checkpointVersion
  {
    VersionCountsCheckpoints(le, sid, ops, i);
    VersionStep(le, At(le, sid, ops, i), ops[i]);
    VersionStep(le, At(le, sid, ops, j), ops[j]);
    RunEvolves(le, sid, ops, i + 1, j);
  }

  predicate WritesAt(le: Comparison, sid: string, ops: seq<Op>, i: nat)
    requires i < |ops|
  {
    ops[i].WriteProjection? && ResponseAt(le, sid, ops, i).Written?
  }

  /** Accepted projection sequences strictly increase. */
  lemma ProjectionsIncrease(le: Comparison, sid: string, ops: seq<Op>, i: nat, j: nat)
    requires i < j < |ops| && WritesAt(le, sid, ops, i) && WritesAt(le, sid, ops, j)
    ensures 0 < ops[i].sequence < ops[j].sequence
  {
    RunEvolves(le, sid, ops, 0, i);
    RunEvolves(le, sid, ops, i + 1, j);
    assert At(le, sid, ops, i + 1).projectionSeq == ops[i].sequence;
  }

  // ----- Commands ------------------------------------------------------------------------------

  /** Operation `i` handed command `p` to the worker. */
  predicate ClaimsAt(le: Comparison, sid: string, ops: seq<Op>, i: nat, p: nat)
    requires i < |ops|
  {
    && ops[i].ClaimNext? && ResponseAt(le, sid, ops, i).Queued?
    && p == FindEligible(At(le, sid, ops, i).commands, ops[i].lease.leaseToken)
  }

  lemma ClaimStep(le: Comparison, s: Session, lease: Lease)
    requires IsCurrent(s, lease)
    ensures var o := Apply(le, s, ClaimNext(lease));
            var p := FindEligible(s.commands, lease.leaseToken);
            if o.response.Queued? then
              && p < |s.commands| && IsEligible(s.commands[p], lease.leaseToken)
              && (forall q :: 0 <= q < p ==> !IsEligible(s.commands[q], lease.leaseToken))
              && o.response.command == s.commands[p].(status := Running, ackedBy := Some(lease.leasedBy))
              && o.session.commands == s.commands[p := o.response.command]
            else o == Outcome(s, NothingToDo) && forall q :: 0 <= q < |s.commands| ==> !IsEligible(s.commands[q], lease.leaseToken)
  {
    FindEligibleIsFirst(s.commands, lease.leaseToken);
  }

  /** A claim takes the oldest eligible command, and comes back empty only if there is none. */
  lemma ClaimTakesOldest(le: Comparison, sid: string, ops: seq<Op>, i: nat)
    requires i < |ops| && ops[i].ClaimNext? && ResponseAt(le, sid, ops, i) != Refused(StaleLease)
    ensures var commands, response := At(le, sid, ops, i).commands, ResponseAt(le, sid, ops, i);
            var eligible := set c | c in commands && IsEligible(c, ops[i].lease.leaseToken) :: c.createdSeq;
            && (response.NothingToDo? <==> eligible == {})
            && (response.Queued? ==> response.command.createdSeq in eligible && forall n :: n in eligible ==> response.command.createdSeq <= n)
  {
    var s, lease := At(le, sid, ops, i), ops[i].lease;
    RunKeeps(le, sid, ops, i);
    ClaimStep(le, s, lease);
    var p := FindEligible(s.commands, lease.leaseToken);
    var eligible := set c | c in s.commands && IsEligible(c, lease.leaseToken) :: c.createdSeq;
    if ResponseAt(le, sid, ops, i).Queued? {
      assert s.commands[p].createdSeq in eligible;
    }
  }

  /** No command is handed out twice. */
  lemma ClaimedAtMostOnce(le: Comparison, sid: string, ops: seq<Op>, i: nat, p: nat, j: nat, q: nat)
    requires i < j < |ops| && ClaimsAt(le, sid, ops, i, p) && ClaimsAt(le, sid, ops, j, q)
    ensures p != q && ResponseAt(le, sid, ops, i).command.commandId != ResponseAt(le, sid, ops, j).command.commandId
  {
    var s, t := At(le, sid, ops, i), At(le, sid, ops, j);
    ClaimStep(le, s, ops[i].lease);
    ClaimStep(le, t, ops[j].lease);
    RunKeeps(le, sid, ops, j);
    RunEvolves(le, sid, ops, i + 1, j);
    assert Follows(At(le, sid, ops, i + 1).commands[p], t.commands[p]);
  }

  /** A command that left Pending was claimed, under the worker name it carries. */
  lemma {:induction false} StartedWasClaimed(le: Comparison, sid: string, ops: seq<Op>, k: nat, p: nat) returns (i: nat)
    requires k <= |ops| && p < |At(le, sid, ops, k).commands| && At(le, sid, ops, k).commands[p].status != Pending
    ensures i < k && ClaimsAt(le, sid, ops, i, p) && At(le, sid, ops, k).commands[p].ackedBy == Some(ops[i].lease.leasedBy)
  {
    var s := At(le, sid, ops, k - 1);
    StatusStepAt(le, sid, ops, k - 1, p);
    if p < |s.commands| && s.commands[p].status != Pending {
      i := StartedWasClaimed(le, sid, ops, k - 1, p);
    } else {
      i := k - 1;
    }
  }

  /** One step of one command: it appears pending, is claimed, or is settled by the worker that claimed it. */
  lemma StatusStep(le: Comparison, s: Session, op: Op, p: nat)
    requires p < |Apply(le, s, op).session.commands|
    ensures var o := Apply(le, s, op);
            var d := o.session.commands[p];
            if p >= |s.commands| then d.status == Pending
            else
              var c := s.commands[p];
              || d == c
              || (c.status == Pending && d.status == Running && op.ClaimNext? && o.response.Queued?
                  && p == FindEligible(s.commands, op.lease.leaseToken) && d.ackedBy == Some(op.lease.leasedBy))
              || (c.status == Running && d.ackedBy == c.ackedBy
                  && ((op.Ack? && d.status == Acked && op.commandId == c.commandId && c.ackedBy == Some(op.lease.leasedBy))
                      || (op.Fail? && d.status == Failed && op.commandId == c.commandId && c.ackedBy == Some(op.lease.leasedBy))))
  {
    match op
    case ClaimNext(l) => FindEligibleIsFirst(s.commands, l.leaseToken);
    case Ack(_, commandId, _) => FindIdIsFirst(s.commands, commandId);
    case Fail(_, commandId, _) => FindIdIsFirst(s.commands, commandId);
    case _ =>
  }

  lemma StatusStepAt(le: Comparison, sid: string, ops: seq<Op>, k: nat, p: nat)
    requires k < |ops| && p < |At(le, sid, ops, k + 1).commands|
    ensures var s, t := At(le, sid, ops, k), At(le, sid, ops, k + 1);
            if p >= |s.commands| then t.commands[p].status == Pending
            else s.commands[p].status == Pending && t.commands[p].status != Pending ==>
              ClaimsAt(le, sid, ops, k, p) && t.commands[p].ackedBy == Some(ops[k].lease.leasedBy)
    ensures var s, t := At(le, sid, ops, k), At(le, sid, ops, k + 1);
            p < |s.commands| && s.commands[p].status != Pending ==> t.commands[p].ackedBy == s.commands[p].ackedBy
  {
    StatusStep(le, At(le, sid, ops, k), ops[k], p);
  }

  predicate AcksAt(le: Comparison, sid: string, ops: seq<Op>, j: nat, p: nat)
    requires j < |ops|
  {
    var s := At(le, sid, ops, j);
    ops[j].Ack? && p < |s.commands| && s.commands[p].commandId == ops[j].commandId && s.commands[p].status == Running
  }

  lemma {:induction false} AckedWasAcked(le: Comparison, sid: string, ops: seq<Op>, k: nat, p: nat) returns (j: nat)
    requires k <= |ops| && p < |At(le, sid, ops, k).commands| && At(le, sid, ops, k).commands[p].status == Acked
    ensures j < k && AcksAt(le, sid, ops, j, p) && At(le, sid, ops, k).commands[p].ackedBy == Some(ops[j].lease.leasedBy)
  {
    var s, op := At(le, sid, ops, k - 1), ops[k - 1];
    StatusStep(le, s, op, p);
    if p < |s.commands| && s.commands[p].status == Acked {
      j := AckedWasAcked(le, sid, ops, k - 1, p);
    } else {
      j := k - 1;
    }
  }

  /** An acked command was first claimed and then acked under the same worker name. */
  lemma AckedByItsClaimer(le: Comparison, sid: string, ops: seq<Op>, k: nat, p: nat) returns (i: nat, j: nat)
    requires k <= |ops| && p < |At(le, sid, ops, k).commands| && At(le, sid, ops, k).commands[p].status == Acked
    ensures i < j < k && ClaimsAt(le, sid, ops, i, p) && AcksAt(le, sid, ops, j, p)
    ensures ops[i].lease.leasedBy == ops[j].lease.leasedBy
  {
    j := AckedWasAcked(le, sid, ops, k, p);
    i := StartedWasClaimed(le, sid, ops, j, p);
    RunEvolves(le, sid, ops, j, k);
    assert Follows(At(le, sid, ops, j).commands[p], At(le, sid, ops, k).commands[p]);
  }

  lemma OthersLeaveRunning(le: Comparison, s: Session, op: Op, p: nat)
    requires p < |s.commands| && s.commands[p].status == Running
    requires op.Ack? || op.Fail? ==> Some(op.lease.leasedBy) != s.commands[p].ackedBy
    ensures var t := Apply(le, s, op).session; p < |t.commands| && t.commands[p] == s.commands[p]
  {
    match op
    case ClaimNext(l) => FindEligibleIsFirst(s.commands, l.leaseToken);
    case Ack(_, commandId, _) => FindIdIsFirst(s.commands, commandId);
    case Fail(_, commandId, _) => FindIdIsFirst(s.commands, commandId);
    case _ =>
  }

  /** A running command stays with its worker name: operations under other names never settle it. */
  lemma {:induction false} OthersCannotSettle(le: Comparison, sid: string, ops: seq<Op>, i: nat, k: nat, p: nat)
    requires i <= k <= |ops| && p < |At(le, sid, ops, i).commands| && At(le, sid, ops, i).commands[p].status == Running
    requires forall j :: i <= j < k && (ops[j].Ack? || ops[j].Fail?) ==> Some(ops[j].lease.leasedBy) != At(le, sid, ops, i).commands[p].ackedBy
    ensures p < |At(le, sid, ops, k).commands| && At(le, sid, ops, k).commands[p] == At(le, sid, ops, i).commands[p]
    decreases k
  {
    if i < k {
      OthersCannotSettle(le, sid, ops, i, k - 1, p);
      OthersLeaveRunning(le, At(le, sid, ops, k - 1), ops[k - 1], p);
    }
  }

  // ----- Idempotent enqueue --------------------------------------------------------------------

  ghost predicate MeansTheSame(a: Content, b: Content) {
    a.(payload := Null) == b.(payload := Null) && MeaningOf(a.payload) == MeaningOf(b.payload)
  }

  /** A reused id is accepted exactly when the content is the same up to key order; nothing changes either way. */
  lemma ReuseAcceptedIffSameContent(le: Comparison, s: Session, p: nat, content: Content)
    requires Valid(s) && p < |s.commands|
    requires IsTotalPreorder(le) && WellFormed(s.commands[p].content.payload) && WellFormed(content.payload)
    requires TieFree(le, s.commands[p].content.payload)
    ensures var o := Apply(le, s, Enqueue(s.commands[p].commandId, content));
            && o.session == s
            && o.response == if MeansTheSame(s.commands[p].content, content) then Queued(s.commands[p]) else Refused(ReusedId)
  {
    FindIdIsFirst(s.commands, s.commands[p].commandId);
    StableJsonIsCanonical(le, s.commands[p].content.payload, content.payload);
  }

  ghost predicate AcceptsRetry(le: Comparison, s: Session, p: nat, content: Content)
    requires p < |s.commands|
  {
    Apply(le, s, Enqueue(s.commands[p].commandId, content)).response == Queued(s.commands[p])
  }

  lemma OtherTextIsRefused(le: Comparison, s: Session, p: nat, content: Content)
    requires Valid(s) && p < |s.commands|
    requires StableJson.StableJson(le, content.payload) != StableJson.StableJson(le, s.commands[p].content.payload)
    ensures !AcceptsRetry(le, s, p, content)
  {
    FindIdIsFirst(s.commands, s.commands[p].commandId);
  }

  /** Every retry with equal content is accepted, in whatever key order, exactly when the payload has no compare-equal keys. */
  lemma RetriesAcceptedIffTieFree(le: Comparison, s: Session, p: nat)
    requires Valid(s) && p < |s.commands| && IsTotalPreorder(le) && WellFormed(s.commands[p].content.payload)
    ensures (forall content: Content :: WellFormed(content.payload) && MeansTheSame(s.commands[p].content, content) ==> AcceptsRetry(le, s, p, content))
       <==> TieFree(le, s.commands[p].content.payload)
  {
    var mine := s.commands[p].content;
    OneTextIffTieFree(le, mine.payload);
    if TieFree(le, mine.payload) {
      forall content: Content | WellFormed(content.payload) && MeansTheSame(mine, content) ensures AcceptsRetry(le, s, p, content) {
        ReuseAcceptedIffSameContent(le, s, p, content);
      }
    } else {
      var b :| WellFormed(b) && MeaningOf(b) == MeaningOf(mine.payload) && StableJson.StableJson(le, b) != StableJson.StableJson(le, mine.payload);
      OtherTextIsRefused(le, s, p, mine.(payload := b));
      assert MeansTheSame(mine, mine.(payload := b));
    }
  }

  /** An accepted command keeps its place, id and content for the rest of the run. */
  lemma EnqueuedStays(le: Comparison, sid: string, ops: seq<Op>, i: nat, k: nat)
    requires i < k <= |ops| && ops[i].Enqueue? && ResponseAt(le, sid, ops, i).Queued?
    ensures var c, commands := ResponseAt(le, sid, ops, i).command, At(le, sid, ops, k).commands;
            && 1 <= c.createdSeq <= |commands|
            && commands[c.createdSeq - 1].commandId == ops[i].commandId
            && commands[c.createdSeq - 1].content == c.content
  {
    RunKeeps(le, sid, ops, i);
    RunEvolves(le, sid, ops, i + 1, k);
    var s := At(le, sid, ops, i);
    FindIdIsFirst(s.commands, ops[i].commandId);
    var p := FindId(s.commands, ops[i].commandId);
    assert Follows(At(le, sid, ops, i + 1).commands[p], At(le, sid, ops, k).commands[p]);
  }
}
