/**
 * When each operation of the lease-fenced store succeeds, told by the operations before it: their
 * clocks and times to live, who was granted the lease last, and which commands were queued, handed
 * out and settled.
 */
module ProofStoreOutcomes {
  import opened Wrappers
  import opened Json
  import opened StableJson
  import opened ProofStore
  import opened ProofStoreRuns

  // ----- Claiming the session --------------------------------------------------------------------

  predicate RenewsAt(le: Comparison, sid: string, ops: seq<Op>, m: nat)
    requires m < |ops|
  {
    ops[m].Renew? && ResponseAt(le, sid, ops, m).Granted?
  }

  /** Operation `m` is the latest before `k` that granted or renewed the lease. */
  predicate IsLatestTerm(le: Comparison, sid: string, ops: seq<Op>, m: nat, k: nat) {
    && m < k <= |ops| && (GrantsAt(le, sid, ops, m) || RenewsAt(le, sid, ops, m))
    && (forall j :: m < j < k ==> !GrantsAt(le, sid, ops, j) && !RenewsAt(le, sid, ops, j))
  }

  /** When the term that operation `m` granted or renewed runs out. */
  function EndOfTerm(op: Op): int
    requires op.Claim? || op.Renew?
  {
    op.now + op.ttl
  }

  lemma TermStep(le: Comparison, s: Session, op: Op)
    ensures var o := Apply(le, s, op);
            if (op.Claim? || op.Renew?) && o.response.Granted? then
              o.session.lease.Some? && o.session.lease.value.leaseExpiresAt == EndOfTerm(op)
            else
              && (o.session.lease.Some? <==> s.lease.Some?)
              && (s.lease.Some? ==> o.session.lease.value.leaseExpiresAt == s.lease.value.leaseExpiresAt)
  {
  }

  /** The lease on record ends when the latest grant or renewal says. */
  lemma {:induction false} LeaseEndsWithTerm(le: Comparison, sid: string, ops: seq<Op>, k: nat) returns (m: nat)
    requires k <= |ops| && At(le, sid, ops, k).lease.Some?
    ensures IsLatestTerm(le, sid, ops, m, k) && At(le, sid, ops, k).lease.value.leaseExpiresAt == EndOfTerm(ops[m])
  {
    TermStep(le, At(le, sid, ops, k - 1), ops[k - 1]);
    if GrantsAt(le, sid, ops, k - 1) || RenewsAt(le, sid, ops, k - 1) {
      m := k - 1;
    } else {
      m := LeaseEndsWithTerm(le, sid, ops, k - 1);
    }
  }

  predicate NeverGranted(le: Comparison, sid: string, ops: seq<Op>, k: nat)
    requires k <= |ops|
  {
    forall i :: 0 <= i < k ==> !GrantsAt(le, sid, ops, i)
  }

  lemma NoLeaseIffNeverGranted(le: Comparison, sid: string, ops: seq<Op>, k: nat)
    requires k <= |ops|
    ensures At(le, sid, ops, k).lease.None? <==> NeverGranted(le, sid, ops, k)
  {
    if At(le, sid, ops, k).lease.Some? {
      var i := LeaseIsLatestGrant(le, sid, ops, k);
    } else {
      forall i | 0 <= i < k ensures !GrantsAt(le, sid, ops, i) {
        if GrantsAt(le, sid, ops, i) {
          GrantLeavesLease(le, sid, ops, i, k);
        }
      }
    }
  }

  ghost predicate TermHasRunOut(le: Comparison, sid: string, ops: seq<Op>, k: nat, now: int) {
    exists m: nat :: IsLatestTerm(le, sid, ops, m, k) && EndOfTerm(ops[m]) <= now
  }

  /** The term has run out exactly when the expiry on record has passed. */
  lemma RunOutIffExpired(le: Comparison, sid: string, ops: seq<Op>, k: nat, now: int)
    requires k <= |ops| && At(le, sid, ops, k).lease.Some?
    ensures TermHasRunOut(le, sid, ops, k, now) <==> At(le, sid, ops, k).lease.value.leaseExpiresAt <= now
  {
    var m := LeaseEndsWithTerm(le, sid, ops, k);
    if i: nat :| IsLatestTerm(le, sid, ops, i, k) && EndOfTerm(ops[i]) <= now {
      assert i == m;
    }
  }

  lemma ClaimOutcome(le: Comparison, s: Session, worker: string, now: int, ttl: int)
    ensures var o := Apply(le, s, Claim(worker, now, ttl));
            if s.lease.None? || s.lease.value.leaseExpiresAt <= now then
              && o.response.Granted? && o.response.lease.sessionId == s.sessionId && o.response.lease.leasedBy == worker
              && o.response.lease.leaseExpiresAt == now + ttl && o.response.lease.checkpointVersion == s.checkpointVersion
            else o == Outcome(s, Held)
  {
  }

  /**
   * A claim is granted exactly when nobody was granted the lease before, or the term of the latest
   * grant, or of its latest renewal, has run out at the clock of the claim; otherwise it is held and
   * nothing changes. A granted lease is the claimer's, for its time to live, at the version reached.
   */
  lemma ClaimGrantedIffRunOut(le: Comparison, sid: string, ops: seq<Op>, k: nat)
    requires k < |ops| && ops[k].Claim?
    ensures GrantsAt(le, sid, ops, k) <==> NeverGranted(le, sid, ops, k) || TermHasRunOut(le, sid, ops, k, ops[k].now)
    ensures !GrantsAt(le, sid, ops, k) ==> ResponseAt(le, sid, ops, k) == Held && At(le, sid, ops, k + 1) == At(le, sid, ops, k)
    ensures GrantsAt(le, sid, ops, k) ==>
              var lease := ResponseAt(le, sid, ops, k).lease;
              && lease.sessionId == sid && lease.leasedBy == ops[k].worker && lease.leaseExpiresAt == EndOfTerm(ops[k])
              && lease.checkpointVersion == CheckpointCount(le, sid, ops, k)
  {
    RunKeeps(le, sid, ops, k);
    NoLeaseIffNeverGranted(le, sid, ops, k);
    VersionCountsCheckpoints(le, sid, ops, k);
    ClaimOutcome(le, At(le, sid, ops, k), ops[k].worker, ops[k].now, ops[k].ttl);
    if At(le, sid, ops, k).lease.Some? {
      RunOutIffExpired(le, sid, ops, k, ops[k].now);
    }
  }

  // ----- The operations behind the fence ---------------------------------------------------------

  /** The lease carries the token of the latest grant. */
  ghost predicate HoldsLatest(le: Comparison, sid: string, ops: seq<Op>, k: nat, lease: Lease)
    requires k <= |ops|
  {
    exists i :: IsLatestGrant(le, sid, ops, i, k) && TokenAt(le, sid, ops, i) == lease.leaseToken
  }

  /** A guarded operation is refused as stale exactly when its token is not the latest grant's, run out or not. */
  lemma StaleIffNotLatest(le: Comparison, sid: string, ops: seq<Op>, k: nat)
    requires k < |ops| && LeaseOf(ops[k]).Some?
    ensures ResponseAt(le, sid, ops, k) == Refused(StaleLease) <==> !HoldsLatest(le, sid, ops, k, LeaseOf(ops[k]).value)
  {
    CurrentIffLatestGrant(le, sid, ops, k, LeaseOf(ops[k]).value);
  }

  /** The holder of the latest grant can always renew, for the time it asks. */
  lemma RenewsIffLatest(le: Comparison, sid: string, ops: seq<Op>, k: nat)
    requires k < |ops| && ops[k].Renew?
    ensures RenewsAt(le, sid, ops, k) <==> HoldsLatest(le, sid, ops, k, ops[k].lease)
    ensures RenewsAt(le, sid, ops, k) ==>
              ResponseAt(le, sid, ops, k).lease == At(le, sid, ops, k).lease.value.(leaseExpiresAt := EndOfTerm(ops[k]))
  {
    CurrentIffLatestGrant(le, sid, ops, k, ops[k].lease);
  }

  /** A checkpoint succeeds exactly from the latest grant and the version that the checkpoints so far make. */
  lemma CheckpointsIffLatest(le: Comparison, sid: string, ops: seq<Op>, k: nat)
    requires k < |ops| && ops[k].Checkpoint?
    ensures CheckpointsAt(le, sid, ops, k)
       <==> HoldsLatest(le, sid, ops, k, ops[k].lease) && ops[k].lease.checkpointVersion == CheckpointCount(le, sid, ops, k)
    ensures CheckpointsAt(le, sid, ops, k) ==>
              ResponseAt(le, sid, ops, k).lease.checkpointVersion == CheckpointCount(le, sid, ops, k) + 1
  {
    CurrentIffLatestGrant(le, sid, ops, k, ops[k].lease);
    VersionCountsCheckpoints(le, sid, ops, k);
  }

  /** The sequence of the latest accepted projection, 0 before the first. */
  function LatestProjection(le: Comparison, sid: string, ops: seq<Op>, k: nat): int
    requires k <= |ops|
  {
    if k == 0 then 0
    else if WritesAt(le, sid, ops, k - 1) then ops[k - 1].sequence
    else LatestProjection(le, sid, ops, k - 1)
  }

  lemma ProjectionStep(le: Comparison, s: Session, op: Op)
    ensures var o := Apply(le, s, op);
            o.session.projectionSeq == if op.WriteProjection? && o.response.Written? then op.sequence else s.projectionSeq
  {
  }

  lemma {:induction false} ProjectionIsLatest(le: Comparison, sid: string, ops: seq<Op>, k: nat)
    requires k <= |ops|
    ensures At(le, sid, ops, k).projectionSeq == LatestProjection(le, sid, ops, k)
  {
    if k > 0 {
      ProjectionIsLatest(le, sid, ops, k - 1);
      ProjectionStep(le, At(le, sid, ops, k - 1), ops[k - 1]);
    }
  }

  /** A projection is accepted exactly from the latest grant, at the current version, with a higher sequence. */
  lemma WritesIffHigher(le: Comparison, sid: string, ops: seq<Op>, k: nat)
    requires k < |ops| && ops[k].WriteProjection?
    ensures WritesAt(le, sid, ops, k)
       <==> && HoldsLatest(le, sid, ops, k, ops[k].lease) && ops[k].lease.checkpointVersion == CheckpointCount(le, sid, ops, k)
            && ops[k].sequence > LatestProjection(le, sid, ops, k)
    ensures WritesAt(le, sid, ops, k) ==> ResponseAt(le, sid, ops, k) == Written(ops[k].sequence)
  {
    CurrentIffLatestGrant(le, sid, ops, k, ops[k].lease);
    VersionCountsCheckpoints(le, sid, ops, k);
    ProjectionIsLatest(le, sid, ops, k);
  }

  // ----- Commands --------------------------------------------------------------------------------

  /** Whether some earlier operation queued the id. */
  predicate IsKnown(ops: seq<Op>, k: nat, commandId: string)
    requires k <= |ops|
  {
    exists i :: 0 <= i < k && ops[i].Enqueue? && ops[i].commandId == commandId
  }

  lemma CommandsStep(le: Comparison, s: Session, op: Op, commandId: string)
    ensures (exists c :: c in Apply(le, s, op).session.commands && c.commandId == commandId)
       <==> (exists c :: c in s.commands && c.commandId == commandId) || (op.Enqueue? && op.commandId == commandId)
  {
    var t := Apply(le, s, op).session;
    match op
    case Enqueue(id, _) =>
      FindIdIsFirst(s.commands, id);
      if FindId(s.commands, id) >= |s.commands| {
        assert t.commands[|s.commands|].commandId == id && t.commands[..|s.commands|] == s.commands;
        assert forall c :: c in s.commands ==> c in t.commands;
      } else {
        assert s.commands[FindId(s.commands, id)] in s.commands;
      }
    case ClaimNext(l) => FindEligibleIsFirst(s.commands, l.leaseToken); SameIds(s, t, commandId);
    case Ack(_, id, _) => FindIdIsFirst(s.commands, id); SameIds(s, t, commandId);
    case Fail(_, id, _) => FindIdIsFirst(s.commands, id); SameIds(s, t, commandId);
    case _ =>
  }

  lemma SameIds(s: Session, t: Session, commandId: string)
    requires |s.commands| == |t.commands| && forall i :: 0 <= i < |s.commands| ==> s.commands[i].commandId == t.commands[i].commandId
    ensures (exists c :: c in s.commands && c.commandId == commandId) <==> (exists c :: c in t.commands && c.commandId == commandId)
  {
    if c :| c in s.commands && c.commandId == commandId {
      var i :| 0 <= i < |s.commands| && s.commands[i] == c;
      assert t.commands[i] in t.commands;
    }
    if c :| c in t.commands && c.commandId == commandId {
      var i :| 0 <= i < |t.commands| && t.commands[i] == c;
      assert s.commands[i] in s.commands;
    }
  }

  /** The queue holds exactly the ids that were enqueued. */
  lemma {:induction false} KnownIffQueued(le: Comparison, sid: string, ops: seq<Op>, k: nat, commandId: string)
    requires k <= |ops|
    ensures IsKnown(ops, k, commandId) <==> exists c :: c in At(le, sid, ops, k).commands && c.commandId == commandId
  {
    if k > 0 {
      KnownIffQueued(le, sid, ops, k - 1, commandId);
      CommandsStep(le, At(le, sid, ops, k - 1), ops[k - 1], commandId);
    }
  }

  /** An id that nobody used before is queued at the end, pending, with the content given. */
  lemma NewIdIsQueued(le: Comparison, sid: string, ops: seq<Op>, k: nat)
    requires k < |ops| && ops[k].Enqueue? && !IsKnown(ops, k, ops[k].commandId)
    ensures var s, t := At(le, sid, ops, k), At(le, sid, ops, k + 1);
            var command := Command(ops[k].commandId, ops[k].content, |s.commands| + 1, Pending, None, None, None);
            ResponseAt(le, sid, ops, k) == Queued(command) && t.commands == s.commands + [command]
  {
    RunKeeps(le, sid, ops, k);
    KnownIffQueued(le, sid, ops, k, ops[k].commandId);
    FindIdIsFirst(At(le, sid, ops, k).commands, ops[k].commandId);
  }

  predicate WasHandedOut(le: Comparison, sid: string, ops: seq<Op>, k: nat, p: nat)
    requires k <= |ops|
  {
    exists i :: 0 <= i < k && ClaimsAt(le, sid, ops, i, p)
  }

  lemma HandedOutIsStarted(le: Comparison, sid: string, ops: seq<Op>, i: nat, k: nat, p: nat)
    requires i < k <= |ops| && ClaimsAt(le, sid, ops, i, p)
    ensures p < |At(le, sid, ops, k).commands| && At(le, sid, ops, k).commands[p].status != Pending
  {
    ClaimStep(le, At(le, sid, ops, i), ops[i].lease);
    RunEvolves(le, sid, ops, i + 1, k);
    assert Follows(At(le, sid, ops, i + 1).commands[p], At(le, sid, ops, k).commands[p]);
  }

  lemma PendingIffNotHandedOut(le: Comparison, sid: string, ops: seq<Op>, k: nat, p: nat)
    requires k <= |ops| && p < |At(le, sid, ops, k).commands|
    ensures At(le, sid, ops, k).commands[p].status == Pending <==> !WasHandedOut(le, sid, ops, k, p)
  {
    if At(le, sid, ops, k).commands[p].status != Pending {
      var i := StartedWasClaimed(le, sid, ops, k, p);
    }
    if i: nat :| i < k && ClaimsAt(le, sid, ops, i, p) {
      HandedOutIsStarted(le, sid, ops, i, k, p);
    }
  }

  /** Command `p` is queued, was handed to nobody, and is open to everybody or to this token. */
  predicate IsWaiting(le: Comparison, sid: string, ops: seq<Op>, k: nat, p: nat, token: string)
    requires k <= |ops|
  {
    var commands := At(le, sid, ops, k).commands;
    && p < |commands| && !WasHandedOut(le, sid, ops, k, p)
    && (commands[p].content.target.None? || commands[p].content.target.value == token)
  }

  lemma WaitingIsEligible(le: Comparison, sid: string, ops: seq<Op>, k: nat, token: string)
    requires k <= |ops|
    ensures var commands := At(le, sid, ops, k).commands;
            forall p :: 0 <= p < |commands| ==> (IsEligible(commands[p], token) <==> IsWaiting(le, sid, ops, k, p, token))
  {
    var commands := At(le, sid, ops, k).commands;
    forall p | 0 <= p < |commands| ensures IsEligible(commands[p], token) <==> IsWaiting(le, sid, ops, k, p, token) {
      PendingIffNotHandedOut(le, sid, ops, k, p);
    }
  }

  /**
   * The holder of the latest grant is handed the first command that waits for it, running under its
   * name, and comes back empty only when none waits.
   */
  lemma HandsOutFirstWaiting(le: Comparison, sid: string, ops: seq<Op>, k: nat)
    requires k < |ops| && ops[k].ClaimNext? && HoldsLatest(le, sid, ops, k, ops[k].lease)
    ensures var commands, token, response := At(le, sid, ops, k).commands, ops[k].lease.leaseToken, ResponseAt(le, sid, ops, k);
            if forall p :: 0 <= p < |commands| ==> !IsWaiting(le, sid, ops, k, p, token) then response == NothingToDo
            else exists p :: 0 <= p < |commands| && IsWaiting(le, sid, ops, k, p, token)
                   && (forall q :: 0 <= q < p ==> !IsWaiting(le, sid, ops, k, q, token))
                   && response == Queued(commands[p].(status := Running, ackedBy := Some(ops[k].lease.leasedBy)))
                   && At(le, sid, ops, k + 1).commands == commands[p := response.command]
  {
    CurrentIffLatestGrant(le, sid, ops, k, ops[k].lease);
    ClaimStep(le, At(le, sid, ops, k), ops[k].lease);
    WaitingIsEligible(le, sid, ops, k, ops[k].lease.leaseToken);
  }

  /** Command `p` was handed to a worker of this name and is neither acked nor failed. */
  predicate IsInHand(le: Comparison, sid: string, ops: seq<Op>, k: nat, p: nat, worker: string)
    requires k <= |ops| && p < |At(le, sid, ops, k).commands|
  {
    && (exists i :: 0 <= i < k && ClaimsAt(le, sid, ops, i, p) && ops[i].lease.leasedBy == worker)
    && At(le, sid, ops, k).commands[p].status != Acked && At(le, sid, ops, k).commands[p].status != Failed
  }

  lemma InHandIffOwned(le: Comparison, sid: string, ops: seq<Op>, k: nat, p: nat, worker: string)
    requires k <= |ops| && p < |At(le, sid, ops, k).commands|
    ensures IsInHand(le, sid, ops, k, p, worker)
       <==> At(le, sid, ops, k).commands[p].status == Running && At(le, sid, ops, k).commands[p].ackedBy == Some(worker)
  {
    PendingIffNotHandedOut(le, sid, ops, k, p);
    if WasHandedOut(le, sid, ops, k, p) {
      var i := StartedWasClaimed(le, sid, ops, k, p);
      forall j | 0 <= j < k && ClaimsAt(le, sid, ops, j, p) ensures j == i {
        if j < i { ClaimedAtMostOnce(le, sid, ops, j, p, i, p); }
        if i < j { ClaimedAtMostOnce(le, sid, ops, i, p, j, p); }
      }
    }
  }

  /** The only command with an id is found under it. */
  lemma FindIdIsIt(s: Session, p: nat)
    requires QueueIsExact(s) && p < |s.commands|
    ensures FindId(s.commands, s.commands[p].commandId) == p
  {
    FindIdIsFirst(s.commands, s.commands[p].commandId);
  }

  /**
   * The holder of the latest grant settles a command exactly if it is in its name's hands: an ack
   * records its time, a failure its error. An ack of an acked command repeats it; anything else is
   * refused, and then nothing changes.
   */
  lemma SettlesIffInHand(le: Comparison, sid: string, ops: seq<Op>, k: nat, p: nat)
    requires k < |ops| && (ops[k].Ack? || ops[k].Fail?) && HoldsLatest(le, sid, ops, k, ops[k].lease)
    requires p < |At(le, sid, ops, k).commands| && At(le, sid, ops, k).commands[p].commandId == ops[k].commandId
    ensures var s, t, response := At(le, sid, ops, k), At(le, sid, ops, k + 1), ResponseAt(le, sid, ops, k);
            var command := s.commands[p];
            if IsInHand(le, sid, ops, k, p, ops[k].lease.leasedBy) then
              var settled := if ops[k].Ack? then command.(status := Acked, ackedAt := Some(ops[k].now))
                             else command.(status := Failed, error := Some(ops[k].error));
              response == Queued(settled) && t == s.(commands := s.commands[p := settled])
            else
              t == s && response == if ops[k].Ack? && command.status == Acked then Queued(command) else Refused(NotOwned)
  {
    RunKeeps(le, sid, ops, k);
    CurrentIffLatestGrant(le, sid, ops, k, ops[k].lease);
    InHandIffOwned(le, sid, ops, k, p, ops[k].lease.leasedBy);
    FindIdIsIt(At(le, sid, ops, k), p);
  }

  /** An id that was never queued cannot be settled. */
  lemma UnknownIsRefused(le: Comparison, sid: string, ops: seq<Op>, k: nat)
    requires k < |ops| && (ops[k].Ack? || ops[k].Fail?) && HoldsLatest(le, sid, ops, k, ops[k].lease)
    requires !IsKnown(ops, k, ops[k].commandId)
    ensures ResponseAt(le, sid, ops, k) == Refused(UnknownCommand) && At(le, sid, ops, k + 1) == At(le, sid, ops, k)
  {
    CurrentIffLatestGrant(le, sid, ops, k, ops[k].lease);
    KnownIffQueued(le, sid, ops, k, ops[k].commandId);
    FindIdIsFirst(At(le, sid, ops, k).commands, ops[k].commandId);
  }
}
