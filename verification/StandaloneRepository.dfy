/**
 * The standalone gateway's repository: daemon leases, sessions with their events, jobs, audits and
 * retention. Identifiers and tokens are only compared, so they are numbers here; the ones the
 * repository draws at random are parameters of the operation that draws them.
 */
module StandaloneRepository {
  import opened Wrappers
  import opened Sequences
  import opened OrderedMaps

  type Id = nat

  datatype Lease = Lease(ownerId: Id, leaseToken: Id, expiresAt: int, updatedAt: int)

  datatype LeaseRef = LeaseRef(leaseId: Id, ownerId: Id, leaseToken: Id)

  datatype JobKind = PromptJob | WorkflowJob | WatchJob | TeamTaskJob

  datatype JobStatus = Pending | Claimed | Running | Completed | Failed | Dead

  datatype Job = Job(
    kind: JobKind,
    status: JobStatus,
    sessionId: Option<Id>,
    claimedBy: Option<Id>,
    claimToken: Option<Id>,
    claimExpiresAt: Option<int>,
    attemptCount: nat,
    availableAt: int,
    createdAt: int,
    updatedAt: int)

  datatype SessionStatus = Idle | RunningSession | Blocked | FailedSession | CompletedSession

  /** Where the conversation lives at its provider: provider, workspace, chat and thread. */
  datatype Address = Address(provider: Id, workspace: Option<Id>, chat: Id, thread: Id)

  datatype Session = Session(
    address: Address,
    opencodeSessionId: Option<Id>,
    status: SessionStatus,
    lastEventSequence: nat,
    createdAt: int,
    updatedAt: int)

  datatype Event = Event(sequence: nat, createdAt: int)

  datatype Audit = Audit(actor: Id, createdAt: int)

  datatype Repository = Repository(
    leases: map<Id, Lease>,
    sessions: OrderedMap<Id, Session>,
    events: map<Id, seq<Event>>,
    jobs: OrderedMap<Id, Job>,
    audits: seq<Audit>)

  /** Days are whole numbers here, as the floor leaves them. */
  datatype Retention = Retention(sessionDays: int, auditDays: int, jobDays: int)

  datatype Op =
    | AcquireLease(leaseId: Id, ownerId: Id, ttl: int, now: int, drawn: Id)
    | RenewLease(ref: LeaseRef, ttl: int, now: int)
    | ReleaseLease(ref: LeaseRef)
    | FindOrCreateSession(address: Address, now: int, drawn: Id)
    | UpdateSession(sessionId: Id, opencodeSessionId: Option<Id>, status: Option<SessionStatus>, now: int)
    | AppendEvent(sessionId: Id, now: int)
    | EnqueueJob(kind: JobKind, target: Option<Id>, availableAt: int, now: int, drawn: Id)
    | ClaimJob(claimedBy: Id, ttl: int, lease: Option<LeaseRef>, now: int, drawn: Id)
    | FinishJob(jobId: Id, claimToken: Id, result: JobStatus, now: int)
    | RecordAudit(actor: Id, now: int)
    | Prune(retention: Retention, ref: LeaseRef, now: int)

  datatype Failure = UnknownSession | UnknownJob | StaleClaim

  datatype Response =
    | Leased(lease: Lease)
    | Released
    | SessionIs(sessionId: Id, session: Session)
    | EventIs(event: Event)
    | JobIs(jobId: Id, job: Job)
    | Nothing
    | Recorded
    | Pruned(sessionsDeleted: nat, jobsDeleted: nat, auditsDeleted: nat)
    | Threw(failure: Failure)

  datatype Outcome = Outcome(repo: Repository, response: Response)

  const EmptyRepository := Repository(map[], OrderedMaps.Empty(), map[], OrderedMaps.Empty(), [])

  // ----- Leases --------------------------------------------------------------------------------

  predicate Holds(r: Repository, ref: LeaseRef) {
    && ref.leaseId in r.leases
    && r.leases[ref.leaseId].ownerId == ref.ownerId
    && r.leases[ref.leaseId].leaseToken == ref.leaseToken
  }

  predicate HoldsActive(r: Repository, ref: LeaseRef, now: int) {
    Holds(r, ref) && r.leases[ref.leaseId].expiresAt > now
  }

  function Acquire(r: Repository, leaseId: Id, ownerId: Id, ttl: int, now: int, token: Id): Outcome {
    if leaseId in r.leases && r.leases[leaseId].expiresAt > now && r.leases[leaseId].ownerId != ownerId then
      Outcome(r, Nothing)
    else
      var lease := Lease(ownerId, token, now + ttl, now);
      Outcome(r.(leases := r.leases[leaseId := lease]), Leased(lease))
  }

  function Renew(r: Repository, ref: LeaseRef, ttl: int, now: int): Outcome {
    if !Holds(r, ref) then Outcome(r, Nothing)
    else
      var lease := r.leases[ref.leaseId].(expiresAt := now + ttl, updatedAt := now);
      Outcome(r.(leases := r.leases[ref.leaseId := lease]), Leased(lease))
  }

  function Release(r: Repository, ref: LeaseRef): Outcome {
    if !Holds(r, ref) then Outcome(r, Nothing)
    else Outcome(r.(leases := r.leases - {ref.leaseId}), Released)
  }

  // ----- Sessions and events -------------------------------------------------------------------

  function FindAddress(keys: seq<Id>, at: map<Id, Session>, address: Address): Option<Id> {
    if keys == [] then None
    else if keys[0] in at && at[keys[0]].address == address then Some(keys[0])
    else FindAddress(keys[1..], at, address)
  }

  function Append(r: Repository, sessionId: Id, now: int): Outcome {
    if sessionId !in r.sessions.at then Outcome(r, Threw(UnknownSession))
    else
      var current := r.sessions.at[sessionId];
      var event := Event(current.lastEventSequence + 1, now);
      var log := if sessionId in r.events then r.events[sessionId] else [];
      Outcome(r.(events := r.events[sessionId := log + [event]],
                 sessions := Put(r.sessions, sessionId, current.(lastEventSequence := event.sequence, updatedAt := now))),
              EventIs(event))
  }

  function FindOrCreate(r: Repository, address: Address, now: int, drawn: Id): Outcome {
    var found := FindAddress(r.sessions.keys, r.sessions.at, address);
    if found.Some? && found.value in r.sessions.at then
      var touched := r.sessions.at[found.value].(updatedAt := now);
      Outcome(r.(sessions := Put(r.sessions, found.value, touched)), SessionIs(found.value, touched))
    else
      var session := Session(address, None, Idle, 0, now, now);
      var created := Append(r.(sessions := Put(r.sessions, drawn, session)), drawn, now).repo;
      Outcome(created, SessionIs(drawn, session.(lastEventSequence := 1)))
  }

  /** The runtime session id is written once. */
  function Update(r: Repository, sessionId: Id, opencodeSessionId: Option<Id>, status: Option<SessionStatus>, now: int): Outcome {
    if sessionId !in r.sessions.at then Outcome(r, Threw(UnknownSession))
    else
      var current := r.sessions.at[sessionId];
      var updated := current.(
        opencodeSessionId := if current.opencodeSessionId.Some? then current.opencodeSessionId else opencodeSessionId,
        status := if status.Some? then status.value else current.status,
        updatedAt := now);
      Outcome(r.(sessions := Put(r.sessions, sessionId, updated)), SessionIs(sessionId, updated))
  }

  // ----- Jobs ----------------------------------------------------------------------------------

  predicate IsTerminal(status: JobStatus) {
    status == Completed || status == Failed || status == Dead
  }

  /** Pending, or claimed under a claim that has run out; and due. */
  predicate IsClaimable(job: Job, now: int) {
    && (job.status == Pending || (job.status == Claimed && job.claimExpiresAt.Some? && job.claimExpiresAt.value <= now))
    && job.availableAt <= now
  }

  function ClaimableKeys(keys: seq<Id>, at: map<Id, Job>, now: int): seq<Id> {
    if keys == [] then []
    else (if keys[0] in at && IsClaimable(at[keys[0]], now) then [keys[0]] else []) + ClaimableKeys(keys[1..], at, now)
  }

  function AvailableAt(at: map<Id, Job>, k: Id): int {
    if k in at then at[k].availableAt else 0
  }

  function InsertByAvailability(k: Id, keys: seq<Id>, at: map<Id, Job>): seq<Id> {
    if keys == [] || AvailableAt(at, k) <= AvailableAt(at, keys[0]) then [k] + keys
    else [keys[0]] + InsertByAvailability(k, keys[1..], at)
  }

  /** A stable sort: jobs that become available together keep the order in which they were queued. */
  function SortByAvailability(keys: seq<Id>, at: map<Id, Job>): seq<Id> {
    if keys == [] then [] else InsertByAvailability(keys[0], SortByAvailability(keys[1..], at), at)
  }

  function Candidate(jobs: OrderedMap<Id, Job>, now: int): Option<Id> {
    var sorted := SortByAvailability(ClaimableKeys(jobs.keys, jobs.at, now), jobs.at);
    if sorted == [] then None else Some(sorted[0])
  }

  function NewJob(kind: JobKind, sessionId: Option<Id>, availableAt: int, now: int): Job {
    Job(kind, Pending, sessionId, None, None, None, 0, availableAt, now, now)
  }

  function ClaimOf(job: Job, claimedBy: Id, ttl: int, now: int, token: Id): Job {
    job.(status := Claimed, claimedBy := Some(claimedBy), claimToken := Some(token), claimExpiresAt := Some(now + ttl),
         attemptCount := job.attemptCount + 1, updatedAt := now)
  }

  function Claim(r: Repository, claimedBy: Id, ttl: int, lease: Option<LeaseRef>, now: int, token: Id): Outcome {
    if lease.Some? && !HoldsActive(r, lease.value, now) then Outcome(r, Nothing)
    else
      var candidate := Candidate(r.jobs, now);
      if candidate.None? || candidate.value !in r.jobs.at then Outcome(r, Nothing)
      else
        var claimed := ClaimOf(r.jobs.at[candidate.value], claimedBy, ttl, now, token);
        Outcome(r.(jobs := Put(r.jobs, candidate.value, claimed)), JobIs(candidate.value, claimed))
  }

  function Finish(r: Repository, jobId: Id, claimToken: Id, result: JobStatus, now: int): Outcome {
    if jobId !in r.jobs.at then Outcome(r, Threw(UnknownJob))
    else if r.jobs.at[jobId].claimToken != Some(claimToken) then Outcome(r, Threw(StaleClaim))
    else
      var updated := r.jobs.at[jobId].(status := result, claimExpiresAt := None, updatedAt := now);
      Outcome(r.(jobs := Put(r.jobs, jobId, updated)), JobIs(jobId, updated))
  }

  // ----- Retention -----------------------------------------------------------------------------

  const DAY := 24 * 60 * 60 * 1000

  function Cutoff(now: int, days: int): int {
    now - (if days < 1 then 1 else days) * DAY
  }

  predicate IsRetainable(status: SessionStatus) {
    status == Idle || status == FailedSession || status == CompletedSession
  }

  predicate HasActiveJob(jobs: map<Id, Job>, sessionId: Id) {
    exists k :: k in jobs && jobs[k].sessionId == Some(sessionId) && !IsTerminal(jobs[k].status)
  }

  predicate IsOldSession(r: Repository, k: Id, cutoff: int) {
    && k in r.sessions.at && r.sessions.at[k].updatedAt < cutoff && IsRetainable(r.sessions.at[k].status)
    && !HasActiveJob(r.jobs.at, k)
  }

  predicate IsOldJob(r: Repository, k: Id, cutoff: int) {
    k in r.jobs.at && r.jobs.at[k].updatedAt < cutoff && IsTerminal(r.jobs.at[k].status)
  }

  function OldSessions(r: Repository, cutoff: int): set<Id> {
    set k | k in r.sessions.at && IsOldSession(r, k, cutoff)
  }

  function OldJobs(r: Repository, cutoff: int): set<Id> {
    set k | k in r.jobs.at && IsOldJob(r, k, cutoff)
  }

  function RecentAudits(audits: seq<Audit>, cutoff: int): seq<Audit> {
    if audits == [] then []
    else (if audits[0].createdAt < cutoff then [] else [audits[0]]) + RecentAudits(audits[1..], cutoff)
  }

  lemma {:induction false} RecentAuditsAreFewer(audits: seq<Audit>, cutoff: int)
    ensures |RecentAudits(audits, cutoff)| <= |audits|
  {
    if audits != [] {
      RecentAuditsAreFewer(audits[1..], cutoff);
    }
  }

  function PruneAll(r: Repository, retention: Retention, ref: LeaseRef, now: int): Outcome {
    if !HoldsActive(r, ref, now) then Outcome(r, Nothing)
    else
      var sessions := OldSessions(r, Cutoff(now, retention.sessionDays));
      var jobs := OldJobs(r, Cutoff(now, retention.jobDays));
      var recent := RecentAudits(r.audits, Cutoff(now, retention.auditDays));
      RecentAuditsAreFewer(r.audits, Cutoff(now, retention.auditDays));
      Outcome(
        r.(sessions := DeleteAll(r.sessions, sessions), events := r.events - sessions,
           jobs := DeleteAll(r.jobs, jobs), audits := recent + [Audit(ref.ownerId, now)]),
        Pruned(|sessions|, |jobs|, |r.audits| - |recent|))
  }

  // ----- One operation -------------------------------------------------------------------------

  /** The type of `status` in the source admits only terminal results. */
  predicate IsWellTyped(op: Op) {
    op.FinishJob? ==> IsTerminal(op.result)
  }

  function Apply(r: Repository, op: Op): Outcome {
    match op
    case AcquireLease(leaseId, ownerId, ttl, now, drawn) => Acquire(r, leaseId, ownerId, ttl, now, drawn)
    case RenewLease(ref, ttl, now) => Renew(r, ref, ttl, now)
    case ReleaseLease(ref) => Release(r, ref)
    case FindOrCreateSession(address, now, drawn) => FindOrCreate(r, address, now, drawn)
    case UpdateSession(sessionId, opencodeSessionId, status, now) => Update(r, sessionId, opencodeSessionId, status, now)
    case AppendEvent(sessionId, now) => Append(r, sessionId, now)
    case EnqueueJob(kind, target, availableAt, now, drawn) =>
      var job := NewJob(kind, target, availableAt, now);
      Outcome(r.(jobs := Put(r.jobs, drawn, job)), JobIs(drawn, job))
    case ClaimJob(claimedBy, ttl, lease, now, drawn) => Claim(r, claimedBy, ttl, lease, now, drawn)
    case FinishJob(jobId, claimToken, result, now) => Finish(r, jobId, claimToken, result, now)
    case RecordAudit(actor, now) => Outcome(r.(audits := r.audits + [Audit(actor, now)]), Recorded)
    case Prune(retention, ref, now) => PruneAll(r, retention, ref, now)
  }

  // ----- The candidate -------------------------------------------------------------------------

  lemma {:induction false} ClaimableKeysAreExact(keys: seq<Id>, at: map<Id, Job>, now: int)
    ensures forall k :: k in ClaimableKeys(keys, at, now) <==> k in keys && k in at && IsClaimable(at[k], now)
  {
    if keys != [] {
      ClaimableKeysAreExact(keys[1..], at, now);
      HeadAndTail(keys);
    }
  }

  /** The head of the sorted list is the first of the jobs that were available earliest. */
  lemma {:induction false} SortedHead(keys: seq<Id>, at: map<Id, Job>) returns (i: nat)
    requires keys != []
    ensures i < |keys| && SortByAvailability(keys, at) != [] && SortByAvailability(keys, at)[0] == keys[i]
    ensures forall j :: 0 <= j < |keys| ==> AvailableAt(at, keys[i]) <= AvailableAt(at, keys[j])
    ensures forall j :: 0 <= j < i ==> AvailableAt(at, keys[i]) < AvailableAt(at, keys[j])
  {
    var rest := keys[1..];
    if rest == [] {
      i := 0;
    } else {
      var m := SortedHead(rest, at);
      if AvailableAt(at, keys[0]) <= AvailableAt(at, rest[m]) {
        i := 0;
      } else {
        i := m + 1;
        assert keys[i] == rest[m];
      }
      assert forall j :: 1 <= j < |keys| ==> keys[j] == rest[j - 1];
    }
  }

  predicate IsEarlier(jobs: OrderedMap<Id, Job>, i: nat, j: nat)
    requires i < |jobs.keys| && j < |jobs.keys|
  {
    var a, b := AvailableAt(jobs.at, jobs.keys[i]), AvailableAt(jobs.at, jobs.keys[j]);
    a < b || (a == b && i <= j)
  }

  predicate IsClaimableAt(jobs: OrderedMap<Id, Job>, i: nat, now: int)
    requires i < |jobs.keys|
  {
    jobs.keys[i] in jobs.at && IsClaimable(jobs.at[jobs.keys[i]], now)
  }

  ghost function Shifted(places: seq<nat>): (moved: seq<nat>)
    ensures |moved| == |places| && forall m :: 0 <= m < |places| ==> moved[m] == places[m] + 1
  {
    seq(|places|, m requires 0 <= m < |places| => places[m] + 1)
  }

  /** Claimable keys in map order, with their places. */
  lemma {:induction false} ClaimableKeysInOrder(keys: seq<Id>, at: map<Id, Job>, now: int) returns (places: seq<nat>)
    ensures |places| == |ClaimableKeys(keys, at, now)|
    ensures forall m :: 0 <= m < |places| ==> places[m] < |keys| && keys[places[m]] == ClaimableKeys(keys, at, now)[m]
    ensures forall m, n :: 0 <= m < n < |places| ==> places[m] < places[n]
    ensures forall j :: 0 <= j < |keys| && keys[j] in at && IsClaimable(at[keys[j]], now) ==> j in places
  {
    if keys == [] {
      places := [];
    } else {
      var rest := ClaimableKeysInOrder(keys[1..], at, now);
      var moved := Shifted(rest);
      var head := if keys[0] in at && IsClaimable(at[keys[0]], now) then [0] else [];
      places := head + moved;
      forall j | 0 <= j < |keys| && keys[j] in at && IsClaimable(at[keys[j]], now) ensures j in places {
        if j > 0 {
          assert keys[1..][j - 1] == keys[j];
          var m :| 0 <= m < |rest| && rest[m] == j - 1;
          assert places[|head| + m] == j;
        } else {
          assert places[0] == 0;
        }
      }
    }
  }

  /** A claim takes the job available earliest, the one queued first among equals; none only if none is claimable. */
  lemma CandidateIsEarliest(jobs: OrderedMap<Id, Job>, now: int)
    ensures Candidate(jobs, now).None? <==> forall j :: 0 <= j < |jobs.keys| ==> !IsClaimableAt(jobs, j, now)
    ensures Candidate(jobs, now).Some? ==>
              exists i :: 0 <= i < |jobs.keys| && jobs.keys[i] == Candidate(jobs, now).value && IsClaimableAt(jobs, i, now)
                && forall j :: 0 <= j < |jobs.keys| && IsClaimableAt(jobs, j, now) ==> IsEarlier(jobs, i, j)
  {
    var keys := ClaimableKeys(jobs.keys, jobs.at, now);
    var places := ClaimableKeysInOrder(jobs.keys, jobs.at, now);
    if keys == [] {
      assert forall j :: 0 <= j < |jobs.keys| && IsClaimableAt(jobs, j, now) ==> j in places;
    } else {
      var m := SortedHead(keys, jobs.at);
      var i := places[m];
      ClaimableKeysAreExact(jobs.keys, jobs.at, now);
      assert keys[m] in keys;
      assert IsClaimableAt(jobs, i, now);
      forall j | 0 <= j < |jobs.keys| && IsClaimableAt(jobs, j, now) ensures IsEarlier(jobs, i, j) {
        var n :| 0 <= n < |places| && places[n] == j;
        assert AvailableAt(jobs.at, keys[m]) <= AvailableAt(jobs.at, keys[n]);
      }
    }
  }
}
