/**
 * The lease-fenced command store of one session: worker leases with tokens, versioned checkpoints,
 * a monotone projection and an idempotent command queue. Expiry is only looked at when a lease is
 * claimed, so a lease is fenced by being replaced, not by running out.
 */
module ProofStore {
  import opened Wrappers
  import opened Json
  import opened StableJson

  datatype Lease = Lease(sessionId: string, leasedBy: string, leaseToken: string, leaseExpiresAt: int, checkpointVersion: nat)

  datatype Kind = Prompt | Abort | PermissionRespond | QuestionReply

  datatype Status = Pending | Running | Acked | Failed

  /** What the caller fixes about a command. */
  datatype Content = Content(tenantId: string, userId: string, kind: Kind, payload: Json, target: Option<string>)

  datatype Command = Command(
    commandId: string,
    content: Content,
    createdSeq: nat,
    status: Status,
    ackedBy: Option<string>,
    ackedAt: Option<int>,
    error: Option<string>)

  datatype Session = Session(
    sessionId: string,
    lease: Option<Lease>,
    nextLeaseAttempt: nat,
    nextCommandSeq: nat,
    checkpointVersion: nat,
    projectionSeq: int,
    commands: seq<Command>)

  datatype Op =
    | Claim(worker: string, now: int, ttl: int)
    | Renew(lease: Lease, now: int, ttl: int)
    | Checkpoint(lease: Lease)
    | WriteProjection(lease: Lease, sequence: int)
    | Enqueue(commandId: string, content: Content)
    | ClaimNext(lease: Lease)
    | Ack(lease: Lease, commandId: string, now: int)
    | Fail(lease: Lease, commandId: string, error: string)

  datatype Failure = StaleLease | StaleCheckpoint | NotMonotonic | ReusedId | UnknownCommand | NotOwned | UnknownSession

  datatype Response =
    | Granted(lease: Lease)
    | Held
    | Written(projectionSeq: int)
    | Queued(command: Command)
    | NothingToDo
    | Refused(failure: Failure)

  datatype Outcome = Outcome(session: Session, response: Response)

  // ----- Tokens --------------------------------------------------------------------------------

  function Decimal(n: nat): string {
    if n < 10 then [('0' as int + n) as char] else Decimal(n / 10) + [('0' as int + n % 10) as char]
  }

  function Token(sessionId: string, attempt: nat, worker: string): string {
    sessionId + (":" + (Decimal(attempt) + (":" + worker)))
  }

  lemma {:induction false} DecimalIsDigits(n: nat)
    ensures Decimal(n) != "" && forall i :: 0 <= i < |Decimal(n)| ==> '0' <= Decimal(n)[i] <= '9'
  {
    if n >= 10 {
      DecimalIsDigits(n / 10);
    }
  }

  lemma {:induction false} DecimalIsInjective(m: nat, n: nat)
    requires Decimal(m) == Decimal(n)
    ensures m == n
  {
    DecimalIsDigits(m / 10);
    DecimalIsDigits(n / 10);
    var a, b := Decimal(m), Decimal(n);
    assert a[|a| - 1] as int == '0' as int + m % 10;
    assert b[|b| - 1] as int == '0' as int + n % 10;
    if m >= 10 {
      assert a[..|a| - 1] == Decimal(m / 10) && b[..|b| - 1] == Decimal(n / 10);
      DecimalIsInjective(m / 10, n / 10);
    }
  }

  lemma ColonPosition(d: string, w: string)
    requires forall i :: 0 <= i < |d| ==> '0' <= d[i] <= '9'
    ensures var text := d + (":" + w);
            text[|d|] == ':' && forall i :: 0 <= i < |d| ==> text[i] == d[i] && text[i] != ':'
  {
  }

  /** A session's tokens with different attempts differ, whoever holds them. */
  lemma TokenDeterminesAttempt(sessionId: string, a: nat, v: string, b: nat, w: string)
    requires Token(sessionId, a, v) == Token(sessionId, b, w)
    ensures a == b && v == w
  {
    var x, y := Decimal(a) + (":" + v), Decimal(b) + (":" + w);
    SameFront(sessionId, sessionId, ":" + x, ":" + y);
    SameFront(":", ":", x, y);
    DecimalIsDigits(a);
    DecimalIsDigits(b);
    ColonPosition(Decimal(a), v);
    ColonPosition(Decimal(b), w);
    assert |Decimal(a)| == |Decimal(b)|;
    SameFront(Decimal(a), Decimal(b), ":" + v, ":" + w);
    SameFront(":", ":", v, w);
    DecimalIsInjective(a, b);
  }

  // ----- Operations ----------------------------------------------------------------------------

  function NewSession(sessionId: string): Session {
    Session(sessionId, None, 0, 0, 0, 0, [])
  }

  predicate IsCurrent(s: Session, lease: Lease) {
    s.lease.Some? && s.lease.value.leaseToken == lease.leaseToken
  }

  function LeaseOf(op: Op): Option<Lease> {
    match op
    case Claim(_, _, _) => None
    case Enqueue(_, _) => None
    case _ => Some(op.lease)
  }

  predicate IsEligible(c: Command, token: string) {
    c.status == Pending && (c.content.target.None? || c.content.target.value == token)
  }

  /** Position of the first command that satisfies a test, or the length. */
  function FindId(commands: seq<Command>, commandId: string): nat {
    if commands == [] || commands[0].commandId == commandId then 0 else 1 + FindId(commands[1..], commandId)
  }

  function FindEligible(commands: seq<Command>, token: string): nat {
    if commands == [] || IsEligible(commands[0], token) then 0 else 1 + FindEligible(commands[1..], token)
  }

  predicate SameContent(le: Comparison, a: Content, b: Content) {
    && a.tenantId == b.tenantId && a.userId == b.userId && a.kind == b.kind && a.target == b.target
    && StableJson.StableJson(le, a.payload) == StableJson.StableJson(le, b.payload)
  }

  function Apply(le: Comparison, s: Session, op: Op): Outcome {
    match op
    case Claim(worker, now, ttl) =>
      if s.lease.Some? && s.lease.value.leaseExpiresAt > now then Outcome(s, Held)
      else
        var attempt := s.nextLeaseAttempt + 1;
        var lease := Lease(s.sessionId, worker, Token(s.sessionId, attempt, worker), now + ttl, s.checkpointVersion);
        Outcome(s.(nextLeaseAttempt := attempt, lease := Some(lease)), Granted(lease))
    case Enqueue(commandId, content) => ApplyEnqueue(le, s, commandId, content)
    case _ =>
      if !IsCurrent(s, op.lease) then Outcome(s, Refused(StaleLease)) else ApplyFenced(s, op)
  }

  function ApplyEnqueue(le: Comparison, s: Session, commandId: string, content: Content): Outcome {
    var i := FindId(s.commands, commandId);
    if i < |s.commands| then
      if SameContent(le, s.commands[i].content, content) then Outcome(s, Queued(s.commands[i]))
      else Outcome(s, Refused(ReusedId))
    else
      var command := Command(commandId, content, s.nextCommandSeq + 1, Pending, None, None, None);
      Outcome(s.(nextCommandSeq := s.nextCommandSeq + 1, commands := s.commands + [command]), Queued(command))
  }

  /** The operations that need the current lease. */
  function ApplyFenced(s: Session, op: Op): Outcome
    requires LeaseOf(op).Some? && s.lease.Some?
  {
    match op
    case Renew(_, now, ttl) =>
      var lease := s.lease.value.(leaseExpiresAt := now + ttl);
      Outcome(s.(lease := Some(lease)), Granted(lease))
    case Checkpoint(l) =>
      if l.checkpointVersion != s.checkpointVersion then Outcome(s, Refused(StaleCheckpoint))
      else
        var lease := s.lease.value.(checkpointVersion := s.checkpointVersion + 1);
        Outcome(s.(checkpointVersion := s.checkpointVersion + 1, lease := Some(lease)), Granted(lease))
    case WriteProjection(l, sequence) =>
      if l.checkpointVersion != s.checkpointVersion then Outcome(s, Refused(StaleCheckpoint))
      else if sequence <= s.projectionSeq then Outcome(s, Refused(NotMonotonic))
      else Outcome(s.(projectionSeq := sequence), Written(sequence))
    case ClaimNext(l) =>
      var i := FindEligible(s.commands, l.leaseToken);
      if i >= |s.commands| then Outcome(s, NothingToDo)
      else
        var command := s.commands[i].(status := Running, ackedBy := Some(l.leasedBy));
        Outcome(s.(commands := s.commands[i := command]), Queued(command))
    case Ack(l, commandId, now) =>
      var i := FindId(s.commands, commandId);
      if i >= |s.commands| then Outcome(s, Refused(UnknownCommand))
      else if s.commands[i].status == Acked then Outcome(s, Queued(s.commands[i]))
      else if s.commands[i].status != Running || s.commands[i].ackedBy != Some(l.leasedBy) then Outcome(s, Refused(NotOwned))
      else
        var command := s.commands[i].(status := Acked, ackedAt := Some(now), error := None);
        Outcome(s.(commands := s.commands[i := command]), Queued(command))
    case Fail(l, commandId, error) =>
      var i := FindId(s.commands, commandId);
      if i >= |s.commands| then Outcome(s, Refused(UnknownCommand))
      else if s.commands[i].status != Running || s.commands[i].ackedBy != Some(l.leasedBy) then Outcome(s, Refused(NotOwned))
      else
        var command := s.commands[i].(status := Failed, error := Some(error));
        Outcome(s.(commands := s.commands[i := command]), Queued(command))
  }

  lemma {:induction false} FindIdIsFirst(commands: seq<Command>, commandId: string)
    ensures FindId(commands, commandId) <= |commands|
    ensures FindId(commands, commandId) < |commands| ==> commands[FindId(commands, commandId)].commandId == commandId
    ensures forall i :: 0 <= i < FindId(commands, commandId) ==> commands[i].commandId != commandId
  {
    if commands != [] && commands[0].commandId != commandId {
      FindIdIsFirst(commands[1..], commandId);
    }
  }

  /** The claim takes the oldest eligible command. */
  lemma {:induction false} FindEligibleIsFirst(commands: seq<Command>, token: string)
    ensures FindEligible(commands, token) <= |commands|
    ensures FindEligible(commands, token) < |commands| ==> IsEligible(commands[FindEligible(commands, token)], token)
    ensures forall i :: 0 <= i < FindEligible(commands, token) ==> !IsEligible(commands[i], token)
  {
    if commands != [] && !IsEligible(commands[0], token) {
      FindEligibleIsFirst(commands[1..], token);
    }
  }
}
