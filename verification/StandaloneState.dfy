/** The repository as a mutable object, and the loops that prune it. */
module StandaloneState {
  import opened Wrappers
  import opened Sequences
  import M = OrderedMaps
  import opened StandaloneRepository

  /** One step of a loop over `keys` that collects the ones in `old`. */
  lemma CollectStep(keys: seq<Id>, n: nat, stale: set<Id>)
    requires Distinct(keys) && n < |keys|
    ensures keys[n] !in ToSet(keys[..n])
    ensures ToSet(keys[..n + 1]) * stale == ToSet(keys[..n]) * stale + if keys[n] in stale then {keys[n]} else {}
  {
    TakeOneMore(keys, n);
    ToSetAppend(keys[..n], keys[n]);
  }

  lemma CollectAll(keys: seq<Id>, stale: set<Id>)
    requires stale <= ToSet(keys)
    ensures ToSet(keys[..|keys|]) * stale == stale
  {
    assert keys[..|keys|] == keys;
  }

  lemma OldJobsDependOnJobs(r: Repository, r': Repository, cutoff: int)
    requires r.jobs == r'.jobs
    ensures OldJobs(r, cutoff) == OldJobs(r', cutoff)
  {
    assert forall k :: k in r.jobs.at ==> IsOldJob(r, k, cutoff) == IsOldJob(r', k, cutoff);
  }

  lemma RecordEffect(r: Repository, actor: Id, now: int)
    ensures Apply(r, RecordAudit(actor, now)) == Outcome(r.(audits := r.audits + [Audit(actor, now)]), Recorded)
  {
  }

  ghost function WithoutSessions(r: Repository, gone: set<Id>): Repository {
    r.(sessions := M.DeleteAll(r.sessions, gone), events := r.events - gone)
  }

  ghost function WithoutJobs(r: Repository, gone: set<Id>): Repository {
    r.(jobs := M.DeleteAll(r.jobs, gone))
  }

  lemma WithoutNothing(r: Repository)
    ensures WithoutSessions(r, {}) == r && WithoutJobs(r, {}) == r
  {
    M.DeleteNothing(r.sessions);
    M.DeleteNothing(r.jobs);
    assert r.events - {} == r.events;
  }

  lemma DeleteJustOne<V>(m: M.OrderedMap<Id, V>, k: Id)
    ensures M.Delete(m, k) == M.DeleteAll(m, {k})
  {
    M.DeleteNothing(m);
    M.DeleteOneMore(m, {}, k);
    assert {} + {k} == {k};
  }

  lemma WithoutOneMoreSession(r: Repository, gone: set<Id>, k: Id)
    ensures WithoutSessions(WithoutSessions(r, gone), {k}) == WithoutSessions(r, gone + {k})
  {
    M.DeleteOneMore(r.sessions, gone, k);
    DeleteJustOne(M.DeleteAll(r.sessions, gone), k);
    assert (r.events - gone) - {k} == r.events - (gone + {k});
  }

  lemma WithoutOneMoreJob(r: Repository, gone: set<Id>, k: Id)
    ensures WithoutJobs(WithoutJobs(r, gone), {k}) == WithoutJobs(r, gone + {k})
  {
    M.DeleteOneMore(r.jobs, gone, k);
    DeleteJustOne(M.DeleteAll(r.jobs, gone), k);
  }

  /** What was pruned so far does not change whether the next session is old. */
  lemma StillOld(r: Repository, gone: set<Id>, k: Id, cutoff: int)
    requires M.Valid(r.sessions) && k in r.sessions.keys && k !in gone
    ensures var r' := WithoutSessions(r, gone);
            k in r'.sessions.at && r'.jobs == r.jobs && (IsOldSession(r', k, cutoff) <==> k in OldSessions(r, cutoff))
  {
  }

  lemma StillOldJob(r: Repository, gone: set<Id>, k: Id, cutoff: int)
    requires M.Valid(r.jobs) && k in r.jobs.keys && k !in gone
    ensures var r' := WithoutJobs(r, gone);
            k in r'.jobs.at && (IsOldJob(r', k, cutoff) <==> k in OldJobs(r, cutoff))
  {
  }

  function Joined(gone: set<Id>, k: Id, joins: bool): set<Id> {
    if joins then gone + {k} else gone
  }

  /** One step of the loop over the sessions. */
  lemma SessionLoopStep(r: Repository, n: nat, gone: set<Id>, cutoff: int)
    requires M.Valid(r.sessions) && n < |r.sessions.keys| && gone == ToSet(r.sessions.keys[..n]) * OldSessions(r, cutoff)
    ensures var r', k := WithoutSessions(r, gone), r.sessions.keys[n];
            var stale := IsOldSession(r', k, cutoff);
            && k in r'.sessions.at && r'.jobs == r.jobs
            && Joined(gone, k, stale) == ToSet(r.sessions.keys[..n + 1]) * OldSessions(r, cutoff)
            && |Joined(gone, k, stale)| == |gone| + (if stale then 1 else 0)
            && WithoutSessions(r, Joined(gone, k, stale)) == if stale then WithoutSessions(r', {k}) else r'
  {
    CollectStep(r.sessions.keys, n, OldSessions(r, cutoff));
    StillOld(r, gone, r.sessions.keys[n], cutoff);
    WithoutOneMoreSession(r, gone, r.sessions.keys[n]);
  }

  /** One step of the loop over the jobs. */
  lemma JobLoopStep(r: Repository, n: nat, gone: set<Id>, cutoff: int)
    requires M.Valid(r.jobs) && n < |r.jobs.keys| && gone == ToSet(r.jobs.keys[..n]) * OldJobs(r, cutoff)
    ensures var r', k := WithoutJobs(r, gone), r.jobs.keys[n];
            var stale := IsOldJob(r', k, cutoff);
            && k in r'.jobs.at
            && Joined(gone, k, stale) == ToSet(r.jobs.keys[..n + 1]) * OldJobs(r, cutoff)
            && |Joined(gone, k, stale)| == |gone| + (if stale then 1 else 0)
            && WithoutJobs(r, Joined(gone, k, stale)) == if stale then WithoutJobs(r', {k}) else r'
  {
    CollectStep(r.jobs.keys, n, OldJobs(r, cutoff));
    StillOldJob(r, gone, r.jobs.keys[n], cutoff);
    WithoutOneMoreJob(r, gone, r.jobs.keys[n]);
  }

  /** One step of the backward splice. */
  lemma SpliceStep(audits: seq<Audit>, index: nat, cutoff: int)
    requires index < |audits|
    ensures RecentAudits(audits[index..], cutoff)
         == (if audits[index].createdAt < cutoff then [] else [audits[index]]) + RecentAudits(audits[index + 1..], cutoff)
  {
    assert audits[index..][1..] == audits[index + 1..];
  }

  lemma AllButLast<T>(a: seq<T>, x: T, b: seq<T>, i: nat)
    requires i == |a|
    ensures (a + [x] + b)[..i] + (a + [x] + b)[i + 1..] == a + b
    ensures (a + [x] + b)[i] == x
    ensures a + [x] + b == a + ([x] + b)
  {
  }

  class InMemoryRepository {
    var leases: map<Id, Lease>
    var sessions: M.OrderedMap<Id, Session>
    var events: map<Id, seq<Event>>
    var jobs: M.OrderedMap<Id, Job>
    var audits: seq<Audit>

    ghost function View(): Repository
      reads this
    {
      Repository(leases, sessions, events, jobs, audits)
    }

    constructor ()
      ensures View() == EmptyRepository
    {
      leases, sessions, events, jobs, audits := map[], M.Empty(), map[], M.Empty(), [];
    }

    method IsHeld(ref: LeaseRef) returns (held: bool)
      ensures held == Holds(View(), ref)
    {
      held := ref.leaseId in leases && leases[ref.leaseId].ownerId == ref.ownerId && leases[ref.leaseId].leaseToken == ref.leaseToken;
    }

    method AcquireDaemonLease(leaseId: Id, ownerId: Id, ttl: int, now: int, token: Id) returns (r: Response)
      modifies this
      ensures Outcome(View(), r) == Acquire(old(View()), leaseId, ownerId, ttl, now, token)
    {
      if leaseId in leases && leases[leaseId].expiresAt > now && leases[leaseId].ownerId != ownerId {
        return Nothing;
      }
      var lease := Lease(ownerId, token, now + ttl, now);
      leases := leases[leaseId := lease];
      r := Leased(lease);
    }

    method RenewDaemonLease(ref: LeaseRef, ttl: int, now: int) returns (r: Response)
      modifies this
      ensures Outcome(View(), r) == Renew(old(View()), ref, ttl, now)
    {
      var held := IsHeld(ref);
      if !held {
        return Nothing;
      }
      var lease := leases[ref.leaseId].(expiresAt := now + ttl, updatedAt := now);
      leases := leases[ref.leaseId := lease];
      r := Leased(lease);
    }

    method ReleaseDaemonLease(ref: LeaseRef) returns (r: Response)
      modifies this
      ensures Outcome(View(), r) == Release(old(View()), ref)
    {
      var held := IsHeld(ref);
      if !held {
        return Nothing;
      }
      leases := leases - {ref.leaseId};
      r := Released;
    }

    method AppendSessionEvent(sessionId: Id, now: int) returns (r: Response)
      modifies this
      ensures Outcome(View(), r) == Append(old(View()), sessionId, now)
    {
      if sessionId !in sessions.at {
        return Threw(UnknownSession);
      }
      var current := sessions.at[sessionId];
      var event := Event(current.lastEventSequence + 1, now);
      var log := if sessionId in events then events[sessionId] else [];
      events := events[sessionId := log + [event]];
      sessions := M.Put(sessions, sessionId, current.(lastEventSequence := event.sequence, updatedAt := now));
      r := EventIs(event);
    }

    method FindSession(address: Address) returns (found: Option<Id>)
      ensures found == FindAddress(sessions.keys, sessions.at, address)
      ensures found.Some? ==> found.value in sessions.at
    {
      var keys := sessions.keys;
      for i := 0 to |keys|
        invariant FindAddress(keys, sessions.at, address) == FindAddress(keys[i..], sessions.at, address)
      {
        assert keys[i..][1..] == keys[i + 1..];
        if keys[i] in sessions.at && sessions.at[keys[i]].address == address {
          return Some(keys[i]);
        }
      }
      found := None;
    }

    method FindOrCreateSessionFor(address: Address, now: int, drawn: Id) returns (r: Response)
      modifies this
      ensures Outcome(View(), r) == FindOrCreate(old(View()), address, now, drawn)
    {
      var found := FindSession(address);
      if found.Some? {
        var touched := sessions.at[found.value].(updatedAt := now);
        sessions := M.Put(sessions, found.value, touched);
        return SessionIs(found.value, touched);
      }
      var session := Session(address, None, Idle, 0, now, now);
      sessions := M.Put(sessions, drawn, session);
      var created := AppendSessionEvent(drawn, now);
      r := SessionIs(drawn, sessions.at[drawn]);
    }

    method UpdateSessionRuntime(sessionId: Id, opencodeSessionId: Option<Id>, status: Option<SessionStatus>, now: int) returns (r: Response)
      modifies this
      ensures Outcome(View(), r) == Update(old(View()), sessionId, opencodeSessionId, status, now)
    {
      if sessionId !in sessions.at {
        return Threw(UnknownSession);
      }
      var current := sessions.at[sessionId];
      var updated := current.(
        opencodeSessionId := if current.opencodeSessionId.Some? then current.opencodeSessionId else opencodeSessionId,
        status := if status.Some? then status.value else current.status,
        updatedAt := now);
      sessions := M.Put(sessions, sessionId, updated);
      r := SessionIs(sessionId, updated);
    }

    method Enqueue(kind: JobKind, target: Option<Id>, availableAt: int, now: int, drawn: Id) returns (r: Response)
      modifies this
      ensures Outcome(View(), r) == Apply(old(View()), EnqueueJob(kind, target, availableAt, now, drawn))
    {
      var job := NewJob(kind, target, availableAt, now);
      jobs := M.Put(jobs, drawn, job);
      r := JobIs(drawn, job);
    }

    method ClaimNextJob(claimedBy: Id, ttl: int, lease: Option<LeaseRef>, now: int, token: Id) returns (r: Response)
      modifies this
      ensures Outcome(View(), r) == Claim(old(View()), claimedBy, ttl, lease, now, token)
    {
      if lease.Some? {
        var held := IsHeld(lease.value);
        if !held || leases[lease.value.leaseId].expiresAt <= now {
          return Nothing;
        }
      }
      var candidate := Candidate(jobs, now);
      if candidate.None? || candidate.value !in jobs.at {
        return Nothing;
      }
      var claimed := ClaimOf(jobs.at[candidate.value], claimedBy, ttl, now, token);
      jobs := M.Put(jobs, candidate.value, claimed);
      r := JobIs(candidate.value, claimed);
    }

    method Finish(jobId: Id, claimToken: Id, result: JobStatus, now: int) returns (r: Response)
      modifies this
      ensures Outcome(View(), r) == StandaloneRepository.Finish(old(View()), jobId, claimToken, result, now)
    {
      if jobId !in jobs.at {
        return Threw(UnknownJob);
      }
      if jobs.at[jobId].claimToken != Some(claimToken) {
        return Threw(StaleClaim);
      }
      var updated := jobs.at[jobId].(status := result, claimExpiresAt := None, updatedAt := now);
      jobs := M.Put(jobs, jobId, updated);
      r := JobIs(jobId, updated);
    }

    method AddAudit(actor: Id, now: int)
      modifies this
      ensures Outcome(View(), Recorded) == Apply(old(View()), RecordAudit(actor, now))
    {
      audits := audits + [Audit(actor, now)];
    }

    // ----- Pruning -----------------------------------------------------------------------------

    method HasActiveJobFor(sessionId: Id) returns (active: bool)
      requires M.Valid(jobs)
      ensures active == HasActiveJob(jobs.at, sessionId)
    {
      for i := 0 to |jobs.keys|
        invariant forall m :: 0 <= m < i ==> jobs.keys[m] in jobs.at
        invariant forall m :: 0 <= m < i && jobs.at[jobs.keys[m]].sessionId == Some(sessionId) ==> IsTerminal(jobs.at[jobs.keys[m]].status)
      {
        assert jobs.keys[i] in jobs.keys;
        var job := jobs.at[jobs.keys[i]];
        if job.sessionId == Some(sessionId) && !IsTerminal(job.status) {
          return true;
        }
      }
      active := false;
    }

    method PruneSession(k: Id, cutoff: int) returns (deleted: bool)
      requires k in sessions.at && M.Valid(jobs)
      modifies this
      ensures deleted == IsOldSession(old(View()), k, cutoff)
      ensures View() == if deleted then WithoutSessions(old(View()), {k}) else old(View())
    {
      var session := sessions.at[k];
      var active := HasActiveJobFor(k);
      deleted := session.updatedAt < cutoff && IsRetainable(session.status) && !active;
      if deleted {
        DeleteJustOne(sessions, k);
        sessions := M.Delete(sessions, k);
        events := events - {k};
      }
    }

    method PruneSessions(cutoff: int) returns (deleted: nat)
      requires M.Valid(sessions) && M.Valid(jobs)
      modifies this
      ensures var gone := OldSessions(old(View()), cutoff);
              View() == WithoutSessions(old(View()), gone) && deleted == |gone|
    {
      ghost var before := View();
      var keys := sessions.keys;
      ghost var stale := OldSessions(before, cutoff);
      ghost var gone: set<Id> := {};
      deleted := 0;
      WithoutNothing(before);
      for i := 0 to |keys|
        invariant gone == ToSet(keys[..i]) * stale && deleted == |gone|
        invariant View() == WithoutSessions(before, gone)
      {
        SessionLoopStep(before, i, gone, cutoff);
        var done := PruneSession(keys[i], cutoff);
        if done {
          deleted := deleted + 1;
        }
        gone := Joined(gone, keys[i], done);
      }
      CollectAll(keys, stale);
    }

    method PruneJob(k: Id, cutoff: int) returns (deleted: bool)
      requires k in jobs.at
      modifies this
      ensures deleted == IsOldJob(old(View()), k, cutoff)
      ensures View() == if deleted then WithoutJobs(old(View()), {k}) else old(View())
    {
      deleted := jobs.at[k].updatedAt < cutoff && IsTerminal(jobs.at[k].status);
      if deleted {
        DeleteJustOne(jobs, k);
        jobs := M.Delete(jobs, k);
      }
    }

    method PruneJobs(cutoff: int) returns (deleted: nat)
      requires M.Valid(jobs)
      modifies this
      ensures var gone := OldJobs(old(View()), cutoff);
              View() == WithoutJobs(old(View()), gone) && deleted == |gone|
    {
      ghost var before := View();
      var keys := jobs.keys;
      ghost var stale := OldJobs(before, cutoff);
      ghost var gone: set<Id> := {};
      deleted := 0;
      WithoutNothing(before);
      for i := 0 to |keys|
        invariant gone == ToSet(keys[..i]) * stale && deleted == |gone|
        invariant View() == WithoutJobs(before, gone)
      {
        JobLoopStep(before, i, gone, cutoff);
        var done := PruneJob(keys[i], cutoff);
        if done {
          deleted := deleted + 1;
        }
        gone := Joined(gone, keys[i], done);
      }
      CollectAll(keys, stale);
    }

    /** Splices old audits out from the back, so that the indices still to come stay put. */
    method PruneAudits(cutoff: int) returns (deleted: nat)
      modifies this
      ensures View() == old(View()).(audits := RecentAudits(old(audits), cutoff))
      ensures deleted == |old(audits)| - |audits|
    {
      ghost var before := audits;
      var index := |audits|;
      deleted := 0;
      assert before[index..] == [] && before[..index] + [] == before;
      while index > 0
        invariant 0 <= index <= |before|
        invariant View() == old(View()).(audits := before[..index] + RecentAudits(before[index..], cutoff))
        invariant deleted == |before| - |audits|
      {
        index := index - 1;
        SpliceStep(before, index, cutoff);
        TakeOneMore(before, index);
        AllButLast(before[..index], before[index], RecentAudits(before[index + 1..], cutoff), index);
        if audits[index].createdAt < cutoff {
          audits := audits[..index] + audits[index + 1..];
          deleted := deleted + 1;
        }
      }
      assert before[0..] == before && before[..0] == [];
    }

    method PruneRetention(retention: Retention, ref: LeaseRef, now: int) returns (r: Response)
      requires M.Valid(sessions) && M.Valid(jobs)
      modifies this
      ensures Outcome(View(), r) == PruneAll(old(View()), retention, ref, now)
    {
      var held := IsHeld(ref);
      if !held || leases[ref.leaseId].expiresAt <= now {
        return Nothing;
      }
      ghost var before := View();
      var sessionsDeleted := PruneSessions(Cutoff(now, retention.sessionDays));
      OldJobsDependOnJobs(before, View(), Cutoff(now, retention.jobDays));
      var jobsDeleted := PruneJobs(Cutoff(now, retention.jobDays));
      var auditsDeleted := PruneAudits(Cutoff(now, retention.auditDays));
      RecordEffect(View(), ref.ownerId, now);
      AddAudit(ref.ownerId, now);
      r := Pruned(sessionsDeleted, jobsDeleted, auditsDeleted);
    }
  }
}
