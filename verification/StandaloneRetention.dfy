/** Retention pruning removes exactly what is old and finished, counts it, and is idempotent. */
module StandaloneRetention {
  import opened Wrappers
  import opened Sequences
  import M = OrderedMaps
  import opened StandaloneRepository

  lemma {:induction false} OutsideCount<K(!new)>(keys: seq<K>, gone: set<K>)
    requires Distinct(keys)
    ensures |M.Outside(keys, gone)| == |keys| - |gone * ToSet(keys)|
  {
    if keys != [] {
      var init, last := keys[..|keys| - 1], keys[|keys| - 1];
      OutsideCount(init, gone);
      LastApart(keys);
      ToSetAppend(init, last);
      assert last !in ToSet(init);
      if last in gone {
        assert gone * ToSet(keys) == gone * ToSet(init) + {last};
      } else {
        assert gone * ToSet(keys) == gone * ToSet(init);
      }
    }
  }

  lemma DeleteAllCount<V>(m: M.OrderedMap<Id, V>, gone: set<Id>)
    requires M.Valid(m) && forall k :: k in gone ==> k in m.at
    ensures |M.DeleteAll(m, gone).keys| == |m.keys| - |gone|
  {
    OutsideCount(m.keys, gone);
    assert gone * ToSet(m.keys) == gone;
  }

  /** The kept audits, as a multiset: all of them less the old ones. */
  lemma {:induction false} RecentAuditsAreExact(audits: seq<Audit>, cutoff: int)
    ensures forall a :: multiset(RecentAudits(audits, cutoff))[a] == if a.createdAt < cutoff then 0 else multiset(audits)[a]
  {
    if audits != [] {
      RecentAuditsAreExact(audits[1..], cutoff);
      HeadAndTail(audits);
    }
  }

  lemma {:induction false} RecentAuditsStay(audits: seq<Audit>, cutoff: int)
    requires forall i :: 0 <= i < |audits| ==> audits[i].createdAt >= cutoff
    ensures RecentAudits(audits, cutoff) == audits
  {
    if audits != [] {
      RecentAuditsStay(audits[1..], cutoff);
      HeadAndTail(audits);
    }
  }

  lemma AllRecent(audits: seq<Audit>, cutoff: int, i: nat)
    requires i < |RecentAudits(audits, cutoff)|
    ensures RecentAudits(audits, cutoff)[i].createdAt >= cutoff
  {
    RecentAuditsAreExact(audits, cutoff);
    var kept := RecentAudits(audits, cutoff);
    assert multiset(kept)[kept[i]] > 0;
  }

  lemma CutoffIsPast(now: int, days: int)
    ensures Cutoff(now, days) <= now - DAY
  {
    if days >= 1 {
      assert days * DAY >= DAY;
    }
  }

  /** A session, a job or an audit is kept, unchanged, exactly when it is not old and finished. */
  lemma PruneIsExact(r: Repository, retention: Retention, ref: LeaseRef, now: int)
    requires HoldsActive(r, ref, now)
    ensures var r' := PruneAll(r, retention, ref, now).repo;
            && r'.leases == r.leases
            && (forall k :: k in r'.sessions.at <==> k in r.sessions.at && !IsOldSession(r, k, Cutoff(now, retention.sessionDays)))
            && (forall k :: k in r'.sessions.at ==> r'.sessions.at[k] == r.sessions.at[k])
            && (forall k :: k in r'.events <==> k in r.events && !IsOldSession(r, k, Cutoff(now, retention.sessionDays)))
            && (forall k :: k in r'.events ==> r'.events[k] == r.events[k])
            && (forall k :: k in r'.jobs.at <==> k in r.jobs.at && !IsOldJob(r, k, Cutoff(now, retention.jobDays)))
            && (forall k :: k in r'.jobs.at ==> r'.jobs.at[k] == r.jobs.at[k])
  {
  }

  lemma PruneKeepsRecentAudits(r: Repository, retention: Retention, ref: LeaseRef, now: int)
    requires HoldsActive(r, ref, now)
    ensures var r', cutoff := PruneAll(r, retention, ref, now).repo, Cutoff(now, retention.auditDays);
            forall a :: multiset(r'.audits)[a]
              == (if a.createdAt < cutoff then 0 else multiset(r.audits)[a]) + if a == Audit(ref.ownerId, now) then 1 else 0
  {
    RecentAuditsAreExact(r.audits, Cutoff(now, retention.auditDays));
  }

  /** The returned counts are the numbers of records that went, and the prune's own audit is added. */
  lemma PruneCountsMatch(r: Repository, retention: Retention, ref: LeaseRef, now: int)
    requires HoldsActive(r, ref, now) && M.Valid(r.sessions) && M.Valid(r.jobs)
    ensures var o := PruneAll(r, retention, ref, now);
            && o.response.Pruned?
            && o.response.sessionsDeleted == |r.sessions.keys| - |o.repo.sessions.keys|
            && o.response.jobsDeleted == |r.jobs.keys| - |o.repo.jobs.keys|
            && o.response.auditsDeleted == |r.audits| + 1 - |o.repo.audits|
  {
    DeleteAllCount(r.sessions, OldSessions(r, Cutoff(now, retention.sessionDays)));
    DeleteAllCount(r.jobs, OldJobs(r, Cutoff(now, retention.jobDays)));
  }

  /** No job that is still open, and no session that one still needs, is removed. */
  lemma PruneIsSafe(r: Repository, retention: Retention, ref: LeaseRef, now: int, job: Id)
    requires job in r.jobs.at && !IsTerminal(r.jobs.at[job].status)
    ensures var r' := PruneAll(r, retention, ref, now).repo;
            && job in r'.jobs.at && r'.jobs.at[job] == r.jobs.at[job]
            && (r.jobs.at[job].sessionId.Some? && r.jobs.at[job].sessionId.value in r.sessions.at
                ==> r.jobs.at[job].sessionId.value in r'.sessions.at)
  {
  }

  lemma NothingOldLeft(r: Repository, retention: Retention, ref: LeaseRef, now: int)
    requires HoldsActive(r, ref, now)
    ensures var r' := PruneAll(r, retention, ref, now).repo;
            && OldSessions(r', Cutoff(now, retention.sessionDays)) == {}
            && OldJobs(r', Cutoff(now, retention.jobDays)) == {}
  {
    var r' := PruneAll(r, retention, ref, now).repo;
    var cutoff := Cutoff(now, retention.sessionDays);
    forall k | k in r'.sessions.at ensures !IsOldSession(r', k, cutoff) {
      ActiveJobsStay(r, retention, ref, now, k);
    }
    assert forall k :: k in r'.jobs.at ==> !IsOldJob(r', k, Cutoff(now, retention.jobDays));
  }

  lemma ActiveJobsStay(r: Repository, retention: Retention, ref: LeaseRef, now: int, sid: Id)
    ensures HasActiveJob(r.jobs.at, sid) ==> HasActiveJob(PruneAll(r, retention, ref, now).repo.jobs.at, sid)
  {
    if HasActiveJob(r.jobs.at, sid) {
      var k :| k in r.jobs.at && r.jobs.at[k].sessionId == Some(sid) && !IsTerminal(r.jobs.at[k].status);
      PruneIsSafe(r, retention, ref, now, k);
    }
  }

  lemma NoOldAuditsLeft(r: Repository, retention: Retention, ref: LeaseRef, now: int)
    requires HoldsActive(r, ref, now)
    ensures var audits := PruneAll(r, retention, ref, now).repo.audits;
            RecentAudits(audits, Cutoff(now, retention.auditDays)) == audits
  {
    var cutoff := Cutoff(now, retention.auditDays);
    var audits := PruneAll(r, retention, ref, now).repo.audits;
    CutoffIsPast(now, retention.auditDays);
    forall i | 0 <= i < |audits| ensures audits[i].createdAt >= cutoff {
      if i < |audits| - 1 {
        AllRecent(r.audits, cutoff, i);
      }
    }
    RecentAuditsStay(audits, cutoff);
  }

  /** A second prune at the same instant deletes nothing and only records itself. */
  lemma PruneIsIdempotent(r: Repository, retention: Retention, ref: LeaseRef, now: int)
    requires HoldsActive(r, ref, now)
    ensures var r' := PruneAll(r, retention, ref, now).repo;
            PruneAll(r', retention, ref, now) == Outcome(r'.(audits := r'.audits + [Audit(ref.ownerId, now)]), Pruned(0, 0, 0))
  {
    var r' := PruneAll(r, retention, ref, now).repo;
    NothingOldLeft(r, retention, ref, now);
    NoOldAuditsLeft(r, retention, ref, now);
    M.DeleteNothing(r'.sessions);
    M.DeleteNothing(r'.jobs);
    assert r'.events - {} == r'.events;
  }
}
