/**
 * What a session and a job on record are, and what a prune removes, told by the operations before:
 * who touched them last and when, which status was given, which jobs were finished.
 */
module StandaloneHistory {
  import opened Wrappers
  import opened Sequences
  import M = OrderedMaps
  import opened StandaloneRepository
  import opened StandaloneRuns
  import opened StandaloneSessions
  import opened StandaloneOutcomes

  // ----- Sessions --------------------------------------------------------------------------------

  /** A prompt from an address finds the session of that address, or creates one with its first event. */
  lemma FindsOrCreates(ops: seq<Op>, k: nat)
    requires IsRun(ops) && k < |ops| && ops[k].FindOrCreateSession?
    ensures var r, r', op := At(ops, k), At(ops, k + 1), ops[k];
            && ResponseAt(ops, k).SessionIs?
            && var id, session := ResponseAt(ops, k).sessionId, ResponseAt(ops, k).session;
            && id in r'.sessions.at && r'.sessions.at == r.sessions.at[id := session] && session.address == op.address
            && if exists other :: other in r.sessions.at && r.sessions.at[other].address == op.address then
                 id in r.sessions.at && session == r.sessions.at[id].(updatedAt := op.now) && r'.events == r.events
               else
                 && id == op.drawn && id !in r.sessions.at && session == Session(op.address, None, Idle, 1, op.now, op.now)
                 && r'.events == r.events[id := [Event(1, op.now)]]
  {
    var r, op := At(ops, k), ops[k];
    RunKeepsSessionsSound(ops, k);
    FindAddressIsExact(r.sessions.keys, r.sessions.at, op.address);
    if op.drawn in r.sessions.at {
      SessionIsDrawnOnce(ops, k, k, op.drawn);
    }
    FindOrCreateEffect(r, op.address, op.now, op.drawn);
  }

  lemma FindOrCreateEffect(r: Repository, address: Address, now: int, drawn: Id)
    requires drawn !in r.sessions.at && drawn !in r.events
    ensures var o, found := FindOrCreate(r, address, now, drawn), FindAddress(r.sessions.keys, r.sessions.at, address);
            if found.Some? && found.value in r.sessions.at then
              var session := r.sessions.at[found.value].(updatedAt := now);
              o.response == SessionIs(found.value, session) && o.repo.sessions.at == r.sessions.at[found.value := session] && o.repo.events == r.events
            else
              var session := Session(address, None, Idle, 1, now, now);
              && o.response == SessionIs(drawn, session) && o.repo.sessions.at == r.sessions.at[drawn := session]
              && o.repo.events == r.events[drawn := [Event(1, now)]]
  {
    assert [] + [Event(1, now)] == [Event(1, now)];
  }

  /** An event is appended under the next number, to a session on record only. */
  lemma AppendsNext(ops: seq<Op>, k: nat)
    requires IsRun(ops) && k < |ops| && ops[k].AppendEvent?
    ensures var r, r', id, now := At(ops, k), At(ops, k + 1), ops[k].sessionId, ops[k].now;
            if id in r.sessions.at then
              && id in r.events && ResponseAt(ops, k) == EventIs(Event(|r.events[id]| + 1, now))
              && r'.events == r.events[id := r.events[id] + [Event(|r.events[id]| + 1, now)]]
              && r'.sessions.at == r.sessions.at[id := r.sessions.at[id].(lastEventSequence := |r.events[id]| + 1, updatedAt := now)]
            else ResponseAt(ops, k) == Threw(UnknownSession) && r' == r
  {
    RunKeepsSessionsSound(ops, k);
  }

  /** Operation `j` found, created, updated or extended the session. */
  predicate TouchesAt(ops: seq<Op>, j: nat, id: Id)
    requires j < |ops|
  {
    match ops[j]
    case FindOrCreateSession(_, _, _) => ResponseAt(ops, j).SessionIs? && ResponseAt(ops, j).sessionId == id
    case UpdateSession(sid, _, _, _) => sid == id && ResponseAt(ops, j).SessionIs?
    case AppendEvent(sid, _) => sid == id && ResponseAt(ops, j).EventIs?
    case _ => false
  }

  /** The status given to the session last; idle when it was created. */
  function LatestStatus(ops: seq<Op>, k: nat, id: Id): SessionStatus
    requires k <= |ops|
  {
    if k == 0 then Idle
    else if !TouchesAt(ops, k - 1, id) then LatestStatus(ops, k - 1, id)
    else if ops[k - 1].FindOrCreateSession? && ops[k - 1].drawn == id then Idle
    else if ops[k - 1].UpdateSession? && ops[k - 1].status.Some? then ops[k - 1].status.value
    else LatestStatus(ops, k - 1, id)
  }

  /** The runtime id given to the session first, since it was created. */
  function FirstRuntimeId(ops: seq<Op>, k: nat, id: Id): Option<Id>
    requires k <= |ops|
  {
    if k == 0 then None
    else if !TouchesAt(ops, k - 1, id) then FirstRuntimeId(ops, k - 1, id)
    else if ops[k - 1].FindOrCreateSession? && ops[k - 1].drawn == id then None
    else if ops[k - 1].UpdateSession? && FirstRuntimeId(ops, k - 1, id).None? then ops[k - 1].opencodeSessionId
    else FirstRuntimeId(ops, k - 1, id)
  }

  predicate IsLatestTouch(ops: seq<Op>, t: nat, k: nat, id: Id) {
    t < k <= |ops| && TouchesAt(ops, t, id) && forall j :: t < j < k ==> !TouchesAt(ops, j, id)
  }

  lemma UntouchedStays(ops: seq<Op>, k: nat, id: Id)
    requires IsRun(ops) && k < |ops| && !TouchesAt(ops, k, id) && id in At(ops, k + 1).sessions.at
    ensures id in At(ops, k).sessions.at && At(ops, k + 1).sessions.at[id] == At(ops, k).sessions.at[id]
  {
    match ops[k]
    case FindOrCreateSession(_, _, _) => FindsOrCreates(ops, k);
    case _ =>
  }

  lemma TouchedIs(ops: seq<Op>, k: nat, id: Id)
    requires IsRun(ops) && k < |ops| && TouchesAt(ops, k, id)
    ensures id in At(ops, k + 1).sessions.at
    ensures var created := ops[k].FindOrCreateSession? && ops[k].drawn == id;
            var session := At(ops, k + 1).sessions.at[id];
            && session.updatedAt == ops[k].now
            && (created ==> session.status == Idle && session.opencodeSessionId.None?)
            && (!created ==>
                  && id in At(ops, k).sessions.at
                  && var was := At(ops, k).sessions.at[id];
                  && session.status == (if ops[k].UpdateSession? && ops[k].status.Some? then ops[k].status.value else was.status)
                  && session.opencodeSessionId == if ops[k].UpdateSession? && was.opencodeSessionId.None? then ops[k].opencodeSessionId else was.opencodeSessionId)
  {
    match ops[k]
    case FindOrCreateSession(_, _, _) =>
      FindsOrCreates(ops, k);
      if ops[k].drawn == id && id in At(ops, k).sessions.at {
        SessionIsDrawnOnce(ops, k, k, id);
      }
    case _ =>
  }

  /** A session carries the time of the operation that touched it last, the status given last and the runtime id given first. */
  lemma {:induction false} SessionIsAsTouched(ops: seq<Op>, k: nat, id: Id) returns (t: nat)
    requires IsRun(ops) && k <= |ops| && id in At(ops, k).sessions.at
    ensures IsLatestTouch(ops, t, k, id)
    ensures var session := At(ops, k).sessions.at[id];
            session.updatedAt == ops[t].now && session.status == LatestStatus(ops, k, id) && session.opencodeSessionId == FirstRuntimeId(ops, k, id)
  {
    if TouchesAt(ops, k - 1, id) {
      t := k - 1;
      TouchedIs(ops, t, id);
      if !(ops[t].FindOrCreateSession? && ops[t].drawn == id) {
        var before := SessionIsAsTouched(ops, t, id);
      }
    } else {
      UntouchedStays(ops, k - 1, id);
      t := SessionIsAsTouched(ops, k - 1, id);
    }
  }

  // ----- Finished jobs ---------------------------------------------------------------------------

  predicate IsLatestFinish(ops: seq<Op>, j: nat, k: nat, id: Id) {
    j < k <= |ops| && FinishesAt(ops, j, id) && forall m :: j < m < k ==> !FinishesAt(ops, m, id)
  }

  ghost predicate IsFinished(ops: seq<Op>, k: nat, id: Id) {
    exists j: nat :: IsLatestFinish(ops, j, k, id)
  }

  lemma ClaimedIsNotTerminal(r: Repository, op: Op, id: Id)
    requires ClaimsStep(r, op, id)
    ensures id in r.jobs.at && !IsTerminal(r.jobs.at[id].status)
  {
    ClaimedJobStays(r, op, id);
  }

  /** A terminal job carries the result and the time of the operation that finished it last. */
  lemma {:induction false} TerminalIsFinished(ops: seq<Op>, k: nat, id: Id) returns (j: nat)
    requires IsRun(ops) && k <= |ops| && id in At(ops, k).jobs.at && IsTerminal(At(ops, k).jobs.at[id].status)
    ensures IsLatestFinish(ops, j, k, id)
    ensures At(ops, k).jobs.at[id].updatedAt == ops[j].now && At(ops, k).jobs.at[id].status == ops[j].result
  {
    JobStep(At(ops, k - 1), ops[k - 1], id);
    FinishStep(At(ops, k - 1), ops[k - 1], id);
    if FinishesAt(ops, k - 1, id) {
      j := k - 1;
    } else {
      j := TerminalIsFinished(ops, k - 1, id);
    }
  }

  lemma {:induction false} FinishedIsTerminal(ops: seq<Op>, j: nat, k: nat, id: Id)
    requires IsRun(ops) && j < k <= |ops| && FinishesAt(ops, j, id) && id in At(ops, k).jobs.at
    ensures IsTerminal(At(ops, k).jobs.at[id].status)
    decreases k
  {
    FinishesIffLatestClaim(ops, j);
    assert IsWellTyped(ops[j]);
    TerminalStaysTerminal(ops, j + 1, k, id);
  }

  lemma TerminalIffFinished(ops: seq<Op>, k: nat, id: Id)
    requires IsRun(ops) && k <= |ops| && id in At(ops, k).jobs.at
    ensures IsTerminal(At(ops, k).jobs.at[id].status) <==> IsFinished(ops, k, id)
  {
    if IsTerminal(At(ops, k).jobs.at[id].status) {
      var j := TerminalIsFinished(ops, k, id);
    }
    if j: nat :| IsLatestFinish(ops, j, k, id) {
      FinishedIsTerminal(ops, j, k, id);
    }
  }

  // ----- Retention -------------------------------------------------------------------------------

  /** The instant that many whole days, at least one, before `now`. */
  function DaysBefore(now: int, days: int): int {
    now - (if days < 1 then 1 else days) * 86_400_000
  }

  /** A job on record that was queued for the session and never finished. */
  ghost predicate IsNeeded(ops: seq<Op>, k: nat, sid: Id)
    requires k <= |ops|
  {
    exists id :: id in At(ops, k).jobs.at && !IsFinished(ops, k, id) && exists q :: 0 <= q < k && QueuesAt(ops, q, id) && ops[q].target == Some(sid)
  }

  lemma QueuedFor(ops: seq<Op>, k: nat, id: Id, sid: Id)
    requires IsRun(ops) && k <= |ops| && id in At(ops, k).jobs.at
    ensures At(ops, k).jobs.at[id].sessionId == Some(sid) <==> exists q :: 0 <= q < k && QueuesAt(ops, q, id) && ops[q].target == Some(sid)
  {
    var p := JobIsAsQueued(ops, k, id);
    forall q | 0 <= q < k && QueuesAt(ops, q, id) ensures q == p {
      QueuedOnce(ops, p, q, id);
    }
  }

  lemma NeededIffActive(ops: seq<Op>, k: nat, sid: Id)
    requires IsRun(ops) && k <= |ops|
    ensures IsNeeded(ops, k, sid) <==> HasActiveJob(At(ops, k).jobs.at, sid)
  {
    forall id | id in At(ops, k).jobs.at
      ensures !IsTerminal(At(ops, k).jobs.at[id].status) <==> !IsFinished(ops, k, id)
      ensures At(ops, k).jobs.at[id].sessionId == Some(sid) <==> exists q :: 0 <= q < k && QueuesAt(ops, q, id) && ops[q].target == Some(sid)
    {
      TerminalIffFinished(ops, k, id);
      QueuedFor(ops, k, id, sid);
    }
  }

  /** Untouched for the days of retention, idle, failed or completed, and needed by no job. */
  ghost predicate IsStaleSession(ops: seq<Op>, k: nat, id: Id, cutoff: int)
    requires k <= |ops|
  {
    && (exists t: nat :: IsLatestTouch(ops, t, k, id) && ops[t].now < cutoff)
    && LatestStatus(ops, k, id) in {Idle, FailedSession, CompletedSession}
    && !IsNeeded(ops, k, id)
  }

  lemma StaleIffOld(ops: seq<Op>, k: nat, id: Id, cutoff: int)
    requires IsRun(ops) && k <= |ops| && id in At(ops, k).sessions.at
    ensures IsStaleSession(ops, k, id, cutoff) <==> IsOldSession(At(ops, k), id, cutoff)
  {
    var t := SessionIsAsTouched(ops, k, id);
    assert forall u: nat :: IsLatestTouch(ops, u, k, id) ==> u == t;
    NeededIffActive(ops, k, id);
  }

  lemma PruneOutcome(r: Repository, op: Op)
    requires op.Prune? && HoldsActive(r, op.ref, op.now)
    ensures var r' := Apply(r, op).repo;
            && (forall k :: k in r'.sessions.at <==> k in r.sessions.at && !IsOldSession(r, k, DaysBefore(op.now, op.retention.sessionDays)))
            && (forall k :: k in r'.sessions.at ==> r'.sessions.at[k] == r.sessions.at[k])
            && (forall k :: k in r'.jobs.at <==> k in r.jobs.at && !IsOldJob(r, k, DaysBefore(op.now, op.retention.jobDays)))
            && (forall k :: k in r'.jobs.at ==> r'.jobs.at[k] == r.jobs.at[k])
            && (forall k :: k in r'.events <==> k in r.events && !IsOldSession(r, k, DaysBefore(op.now, op.retention.sessionDays)))
            && (forall k :: k in r'.events ==> r'.events[k] == r.events[k])
  {
    assert Cutoff(op.now, op.retention.sessionDays) == DaysBefore(op.now, op.retention.sessionDays);
    assert Cutoff(op.now, op.retention.jobDays) == DaysBefore(op.now, op.retention.jobDays);
  }

  /**
   * A prune that goes through removes, with their events, exactly the sessions that no operation
   * touched within the days of retention, that were last left idle, failed or completed, and that no
   * unfinished job was queued for; the others stay as they are.
   */
  lemma PruneRemovesStaleSessions(ops: seq<Op>, k: nat, id: Id)
    requires IsRun(ops) && k < |ops| && ops[k].Prune? && PassesGuard(ops, k, ops[k].ref, ops[k].now) && id in At(ops, k).sessions.at
    ensures var stale := IsStaleSession(ops, k, id, DaysBefore(ops[k].now, ops[k].retention.sessionDays));
            && (id in At(ops, k + 1).sessions.at <==> !stale) && (id in At(ops, k + 1).events <==> !stale)
            && (!stale ==> At(ops, k + 1).sessions.at[id] == At(ops, k).sessions.at[id] && At(ops, k + 1).events[id] == At(ops, k).events[id])
  {
    GuardIsExact(ops, k, ops[k].ref, ops[k].now);
    RunKeepsSessionsSound(ops, k);
    StaleIffOld(ops, k, id, DaysBefore(ops[k].now, ops[k].retention.sessionDays));
    PruneOutcome(At(ops, k), ops[k]);
  }

  /** A prune that goes through removes exactly the jobs whose last finish is longer ago than the days of retention. */
  lemma PruneRemovesFinishedJobs(ops: seq<Op>, k: nat, id: Id)
    requires IsRun(ops) && k < |ops| && ops[k].Prune? && PassesGuard(ops, k, ops[k].ref, ops[k].now) && id in At(ops, k).jobs.at
    ensures var aged := exists j: nat :: IsLatestFinish(ops, j, k, id) && ops[j].now < DaysBefore(ops[k].now, ops[k].retention.jobDays);
            (id in At(ops, k + 1).jobs.at <==> !aged) && (!aged ==> At(ops, k + 1).jobs.at[id] == At(ops, k).jobs.at[id])
  {
    GuardIsExact(ops, k, ops[k].ref, ops[k].now);
    PruneOutcome(At(ops, k), ops[k]);
    TerminalIffFinished(ops, k, id);
    if IsTerminal(At(ops, k).jobs.at[id].status) {
      var j := TerminalIsFinished(ops, k, id);
      assert forall m: nat :: IsLatestFinish(ops, m, k, id) ==> m == j;
    }
  }
}
