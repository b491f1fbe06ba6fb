/** The store object: one record per session, updated in place, and how its sessions stay apart. */
module ProofStoreState {
  import opened Wrappers
  import opened StableJson
  import opened ProofStore
  import opened ProofStoreRuns

  /** A session's record; one that does not exist yet counts as new. */
  function RecordOf(sessions: map<string, Session>, sid: string): Session {
    if sid in sessions then sessions[sid] else NewSession(sid)
  }

  predicate CreatesSession(op: Op) {
    op.Claim? || op.Enqueue?
  }

  /** One call on the store: claims and enqueues create the session, the rest demand it. */
  function Call(le: Comparison, sessions: map<string, Session>, sid: string, op: Op): (map<string, Session>, Response) {
    if sid !in sessions && !CreatesSession(op) then (sessions, Refused(UnknownSession))
    else
      var o := Apply(le, RecordOf(sessions, sid), op);
      (sessions[sid := o.session], o.response)
  }

  function StoreAt(le: Comparison, calls: seq<(string, Op)>): map<string, Session> {
    if calls == [] then map[]
    else
      var last := calls[|calls| - 1];
      Call(le, StoreAt(le, calls[..|calls| - 1]), last.0, last.1).0
  }

  /** The calls that go to one session, in order. */
  function Addressed(calls: seq<(string, Op)>, sid: string): seq<Op> {
    if calls == [] then []
    else
      var last := calls[|calls| - 1];
      Addressed(calls[..|calls| - 1], sid) + if last.0 == sid then [last.1] else []
  }

  lemma {:induction false} AtPrefix(le: Comparison, sid: string, ops: seq<Op>, more: seq<Op>, k: nat)
    requires k <= |ops|
    ensures At(le, sid, ops + more, k) == At(le, sid, ops, k)
  {
    if k > 0 {
      AtPrefix(le, sid, ops, more, k - 1);
    }
  }

  /** A call without a session is answered as it would be by a new one, except for the reason. */
  lemma NewSessionRefuses(le: Comparison, sid: string, op: Op)
    requires !CreatesSession(op)
    ensures Apply(le, NewSession(sid), op) == Outcome(NewSession(sid), Refused(StaleLease))
  {
  }

  lemma CallStep(le: Comparison, sessions: map<string, Session>, sid: string, op: Op, other: string)
    ensures RecordOf(Call(le, sessions, sid, op).0, other)
         == if other == sid then Apply(le, RecordOf(sessions, sid), op).session else RecordOf(sessions, other)
  {
    if sid !in sessions && !CreatesSession(op) {
      NewSessionRefuses(le, sid, op);
    }
  }

  lemma OneMoreOp(le: Comparison, sid: string, ops: seq<Op>, op: Op)
    ensures At(le, sid, ops + [op], |ops| + 1) == Apply(le, At(le, sid, ops, |ops|), op).session
  {
    AtPrefix(le, sid, ops, [op], |ops|);
  }

  /** Sessions are independent: each one's record is the result of the calls addressed to it. */
  lemma {:induction false} SessionsAreIndependent(le: Comparison, calls: seq<(string, Op)>, sid: string)
    ensures var ops := Addressed(calls, sid); RecordOf(StoreAt(le, calls), sid) == At(le, sid, ops, |ops|)
  {
    if calls != [] {
      var init, last := calls[..|calls| - 1], calls[|calls| - 1];
      var ops := Addressed(init, sid);
      SessionsAreIndependent(le, init, sid);
      CallStep(le, StoreAt(le, init), last.0, last.1, sid);
      OneMoreOp(le, sid, ops, last.1);
      assert Addressed(calls, sid) == if last.0 == sid then ops + [last.1] else ops;
    }
  }

  lemma UpdateTwice(m: map<string, Session>, sid: string, s: Session, t: Session)
    ensures m[sid := s][sid := t] == m[sid := t]
    ensures sid in m ==> m[sid := m[sid]] == m
  {
  }

  class Store {
    const le: Comparison
    var sessions: map<string, Session>

    constructor (le: Comparison)
      ensures sessions == map[] && this.le == le
    {
      this.le := le;
      sessions := map[];
    }

    method EnsureSession(sid: string) returns (s: Session)
      modifies this
      ensures s == RecordOf(old(sessions), sid) && sessions == old(sessions)[sid := s]
    {
      if sid !in sessions {
        sessions := sessions[sid := NewSession(sid)];
      }
      s := sessions[sid];
    }

    method ClaimSession(sid: string, worker: string, now: int, ttl: int) returns (r: Response)
      modifies this
      ensures (sessions, r) == Call(le, old(sessions), sid, Claim(worker, now, ttl))
    {
      var s := EnsureSession(sid);
      if s.lease.Some? && s.lease.value.leaseExpiresAt > now {
        return Held;
      }
      var attempt := s.nextLeaseAttempt + 1;
      var lease := Lease(s.sessionId, worker, Token(s.sessionId, attempt, worker), now + ttl, s.checkpointVersion);
      var t := s.(nextLeaseAttempt := attempt, lease := Some(lease));
      UpdateTwice(old(sessions), sid, s, t);
      sessions := sessions[sid := t];
      r := Granted(lease);
    }

    method RenewLease(lease: Lease, now: int, ttl: int) returns (r: Response)
      modifies this
      ensures (sessions, r) == Call(le, old(sessions), lease.sessionId, Renew(lease, now, ttl))
    {
      var sid := lease.sessionId;
      if sid !in sessions {
        return Refused(UnknownSession);
      }
      var s := sessions[sid];
      UpdateTwice(sessions, sid, s, s);
      if !IsCurrent(s, lease) {
        return Refused(StaleLease);
      }
      var renewed := s.lease.value.(leaseExpiresAt := now + ttl);
      sessions := sessions[sid := s.(lease := Some(renewed))];
      r := Granted(renewed);
    }

    method TakeCheckpoint(lease: Lease) returns (r: Response)
      modifies this
      ensures (sessions, r) == Call(le, old(sessions), lease.sessionId, Checkpoint(lease))
    {
      var sid := lease.sessionId;
      if sid !in sessions {
        return Refused(UnknownSession);
      }
      var s := sessions[sid];
      UpdateTwice(sessions, sid, s, s);
      if !IsCurrent(s, lease) {
        return Refused(StaleLease);
      }
      if lease.checkpointVersion != s.checkpointVersion {
        return Refused(StaleCheckpoint);
      }
      var version := s.checkpointVersion + 1;
      var advanced := s.lease.value.(checkpointVersion := version);
      sessions := sessions[sid := s.(checkpointVersion := version, lease := Some(advanced))];
      r := Granted(advanced);
    }

    method WriteProjectionSeq(lease: Lease, sequence: int) returns (r: Response)
      modifies this
      ensures (sessions, r) == Call(le, old(sessions), lease.sessionId, WriteProjection(lease, sequence))
    {
      var sid := lease.sessionId;
      if sid !in sessions {
        return Refused(UnknownSession);
      }
      var s := sessions[sid];
      UpdateTwice(sessions, sid, s, s);
      if !IsCurrent(s, lease) {
        return Refused(StaleLease);
      }
      if lease.checkpointVersion != s.checkpointVersion {
        return Refused(StaleCheckpoint);
      }
      if sequence <= s.projectionSeq {
        return Refused(NotMonotonic);
      }
      sessions := sessions[sid := s.(projectionSeq := sequence)];
      r := Written(sequence);
    }

    method FindCommand(commands: seq<Command>, commandId: string) returns (i: nat)
      ensures i == FindId(commands, commandId) && i <= |commands|
    {
      i := 0;
      while i < |commands| && commands[i].commandId != commandId
        invariant i <= |commands| && FindId(commands, commandId) == i + FindId(commands[i..], commandId)
      {
        assert commands[i..][1..] == commands[i + 1..];
        i := i + 1;
      }
    }

    method FindClaimable(commands: seq<Command>, token: string) returns (i: nat)
      ensures i == FindEligible(commands, token) && i <= |commands|
    {
      i := 0;
      while i < |commands| && !IsEligible(commands[i], token)
        invariant i <= |commands| && FindEligible(commands, token) == i + FindEligible(commands[i..], token)
      {
        assert commands[i..][1..] == commands[i + 1..];
        i := i + 1;
      }
    }

    method EnqueueCommand(sid: string, commandId: string, content: Content) returns (r: Response)
      modifies this
      ensures (sessions, r) == Call(le, old(sessions), sid, Enqueue(commandId, content))
    {
      var s := EnsureSession(sid);
      var i := FindCommand(s.commands, commandId);
      if i < |s.commands| {
        if !SameContent(le, s.commands[i].content, content) {
          return Refused(ReusedId);
        }
        return Queued(s.commands[i]);
      }
      var command := Command(commandId, content, s.nextCommandSeq + 1, Pending, None, None, None);
      var t := s.(nextCommandSeq := s.nextCommandSeq + 1, commands := s.commands + [command]);
      UpdateTwice(old(sessions), sid, s, t);
      sessions := sessions[sid := t];
      r := Queued(command);
    }

    method ClaimNextCommand(lease: Lease) returns (r: Response)
      modifies this
      ensures (sessions, r) == Call(le, old(sessions), lease.sessionId, ClaimNext(lease))
    {
      var sid := lease.sessionId;
      if sid !in sessions {
        return Refused(UnknownSession);
      }
      var s := sessions[sid];
      UpdateTwice(sessions, sid, s, s);
      if !IsCurrent(s, lease) {
        return Refused(StaleLease);
      }
      var i := FindClaimable(s.commands, lease.leaseToken);
      if i == |s.commands| {
        return NothingToDo;
      }
      var command := s.commands[i].(status := Running, ackedBy := Some(lease.leasedBy));
      sessions := sessions[sid := s.(commands := s.commands[i := command])];
      r := Queued(command);
    }

    method AckCommand(lease: Lease, commandId: string, now: int) returns (r: Response)
      modifies this
      ensures (sessions, r) == Call(le, old(sessions), lease.sessionId, Ack(lease, commandId, now))
    {
      var sid := lease.sessionId;
      if sid !in sessions {
        return Refused(UnknownSession);
      }
      var s := sessions[sid];
      UpdateTwice(sessions, sid, s, s);
      if !IsCurrent(s, lease) {
        return Refused(StaleLease);
      }
      var i := FindCommand(s.commands, commandId);
      if i == |s.commands| {
        return Refused(UnknownCommand);
      }
      var command := s.commands[i];
      if command.status == Acked {
        return Queued(command);
      }
      if command.status != Running || command.ackedBy != Some(lease.leasedBy) {
        return Refused(NotOwned);
      }
      command := command.(status := Acked, ackedAt := Some(now), error := None);
      sessions := sessions[sid := s.(commands := s.commands[i := command])];
      r := Queued(command);
    }

    method FailCommand(lease: Lease, commandId: string, error: string) returns (r: Response)
      modifies this
      ensures (sessions, r) == Call(le, old(sessions), lease.sessionId, Fail(lease, commandId, error))
    {
      var sid := lease.sessionId;
      if sid !in sessions {
        return Refused(UnknownSession);
      }
      var s := sessions[sid];
      UpdateTwice(sessions, sid, s, s);
      if !IsCurrent(s, lease) {
        return Refused(StaleLease);
      }
      var i := FindCommand(s.commands, commandId);
      if i == |s.commands| {
        return Refused(UnknownCommand);
      }
      var command := s.commands[i];
      if command.status != Running || command.ackedBy != Some(lease.leasedBy) {
        return Refused(NotOwned);
      }
      command := command.(status := Failed, error := Some(error));
      sessions := sessions[sid := s.(commands := s.commands[i := command])];
      r := Queued(command);
    }
  }
}
