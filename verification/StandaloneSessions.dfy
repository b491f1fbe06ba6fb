/**
 * Sessions and their event logs over every run of the standalone repository: one session per
 * address, event numbers without gaps, a runtime id written once, and no session lost under a job
 * that still needs it.
 */
module StandaloneSessions {
  import opened Wrappers
  import opened Sequences
  import M = OrderedMaps
  import opened StandaloneRepository
  import opened StandaloneRuns

  predicate LogIsContiguous(log: seq<Event>, last: nat) {
    |log| == last && forall i :: 0 <= i < |log| ==> log[i].sequence == i + 1
  }

  ghost predicate LogsAreExact(r: Repository) {
    && (forall k :: k in r.events <==> k in r.sessions.at)
    && (forall k :: k in r.sessions.at ==> k in r.events && LogIsContiguous(r.events[k], r.sessions.at[k].lastEventSequence))
  }

  ghost predicate AddressesAreUnique(r: Repository) {
    forall k, l :: k in r.sessions.at && l in r.sessions.at && r.sessions.at[k].address == r.sessions.at[l].address ==> k == l
  }

  ghost predicate SessionsAreSound(r: Repository) {
    M.Valid(r.sessions) && LogsAreExact(r) && AddressesAreUnique(r)
  }

  lemma {:induction false} FindAddressIsExact(keys: seq<Id>, at: map<Id, Session>, address: Address)
    ensures var found := FindAddress(keys, at, address);
            if found.Some? then found.value in keys && found.value in at && at[found.value].address == address
            else forall k :: k in keys && k in at ==> at[k].address != address
  {
    if keys != [] {
      FindAddressIsExact(keys[1..], at, address);
    }
  }

  lemma ExtendLog(log: seq<Event>, last: nat, now: int)
    requires LogIsContiguous(log, last)
    ensures LogIsContiguous(log + [Event(last + 1, now)], last + 1)
  {
  }

  lemma LogsAfterPut(r: Repository, k: Id, session: Session, log: seq<Event>, r': Repository)
    requires LogsAreExact(r) && LogIsContiguous(log, session.lastEventSequence)
    requires r'.sessions.at == r.sessions.at[k := session] && r'.events == r.events[k := log]
    ensures LogsAreExact(r')
  {
  }

  lemma AddressesAfterPut(r: Repository, k: Id, session: Session, r': Repository)
    requires AddressesAreUnique(r) && r'.sessions.at == r.sessions.at[k := session]
    requires forall l :: l in r.sessions.at && l != k ==> r.sessions.at[l].address != session.address
    ensures AddressesAreUnique(r')
  {
  }

  /** Replacing a session by one with the same address and a log that fits keeps everything. */
  lemma TouchKeeps(r: Repository, k: Id, session: Session, log: seq<Event>, r': Repository)
    requires SessionsAreSound(r) && k in r.sessions.at && session.address == r.sessions.at[k].address
    requires LogIsContiguous(log, session.lastEventSequence)
    requires r'.sessions == M.Put(r.sessions, k, session) && r'.events == r.events[k := log]
    ensures SessionsAreSound(r')
  {
    M.PutKeepsValid(r.sessions, k, session);
    LogsAfterPut(r, k, session, log, r');
    AddressesAfterPut(r, k, session, r');
  }

  lemma SameLog(r: Repository, k: Id)
    requires k in r.events
    ensures r.events[k := r.events[k]] == r.events
  {
  }

  lemma AppendKeeps(r: Repository, k: Id, now: int)
    requires SessionsAreSound(r)
    ensures SessionsAreSound(Append(r, k, now).repo)
  {
    if k in r.sessions.at {
      var r', current := Append(r, k, now).repo, r.sessions.at[k];
      ExtendLog(r.events[k], current.lastEventSequence, now);
      TouchKeeps(r, k, r'.sessions.at[k], r'.events[k], r');
    }
  }

  /** A session created under a new id starts with one event. */
  lemma CreateKeeps(r: Repository, address: Address, now: int, drawn: Id, r': Repository)
    requires SessionsAreSound(r) && drawn !in r.sessions.at
    requires forall k :: k in r.sessions.at ==> r.sessions.at[k].address != address
    requires r'.sessions == M.Put(M.Put(r.sessions, drawn, Session(address, None, Idle, 0, now, now)), drawn, Session(address, None, Idle, 1, now, now))
    requires r'.events == r.events[drawn := [Event(1, now)]]
    ensures SessionsAreSound(r')
  {
    var session := Session(address, None, Idle, 0, now, now);
    M.PutKeepsValid(r.sessions, drawn, session);
    M.PutKeepsValid(M.Put(r.sessions, drawn, session), drawn, session.(lastEventSequence := 1));
    assert r'.sessions.at == r.sessions.at[drawn := session.(lastEventSequence := 1)];
    LogsAfterPut(r, drawn, session.(lastEventSequence := 1), [Event(1, now)], r');
    AddressesAfterPut(r, drawn, session.(lastEventSequence := 1), r');
  }

  lemma FindOrCreateKeeps(r: Repository, address: Address, now: int, drawn: Id)
    requires SessionsAreSound(r) && drawn !in r.sessions.at
    ensures SessionsAreSound(FindOrCreate(r, address, now, drawn).repo)
  {
    var r' := FindOrCreate(r, address, now, drawn).repo;
    FindAddressIsExact(r.sessions.keys, r.sessions.at, address);
    var found := FindAddress(r.sessions.keys, r.sessions.at, address);
    if found.Some? {
      SameLog(r, found.value);
      TouchKeeps(r, found.value, r'.sessions.at[found.value], r.events[found.value], r');
    } else {
      assert [] + [Event(1, now)] == [Event(1, now)];
      CreateKeeps(r, address, now, drawn, r');
    }
  }

  lemma PruneKeepsSessions(r: Repository, gone: set<Id>, r': Repository)
    requires SessionsAreSound(r) && r'.sessions == M.DeleteAll(r.sessions, gone) && r'.events == r.events - gone
    ensures SessionsAreSound(r')
  {
    M.DeleteAllKeepsValid(r.sessions, gone);
  }

  lemma ApplyKeepsSessions(r: Repository, op: Op)
    requires SessionsAreSound(r) && (op.FindOrCreateSession? ==> op.drawn !in r.sessions.at)
    ensures SessionsAreSound(Apply(r, op).repo)
  {
    var r' := Apply(r, op).repo;
    match op
    case FindOrCreateSession(address, now, drawn) => FindOrCreateKeeps(r, address, now, drawn);
    case UpdateSession(k, _, _, _) =>
      if k in r.sessions.at {
        SameLog(r, k);
        TouchKeeps(r, k, r'.sessions.at[k], r.events[k], r');
      }
    case AppendEvent(k, now) => AppendKeeps(r, k, now);
    case Prune(retention, ref, now) =>
      if HoldsActive(r, ref, now) {
        PruneKeepsSessions(r, OldSessions(r, Cutoff(now, retention.sessionDays)), r');
      }
    case _ => assert r'.sessions == r.sessions && r'.events == r.events;
  }

  // ----- Runs ----------------------------------------------------------------------------------

  /** What one operation may do to a session that stays on record. */
  predicate SessionFollows(s: Session, log: seq<Event>, t: Session, log': seq<Event>) {
    && t.address == s.address && t.createdAt == s.createdAt
    && (s.opencodeSessionId.Some? ==> t.opencodeSessionId == s.opencodeSessionId)
    && log <= log'
  }

  predicate FollowsAt(r: Repository, r': Repository, k: Id) {
    && k in r.sessions.at && k in r.events && k in r'.sessions.at && k in r'.events
    && SessionFollows(r.sessions.at[k], r.events[k], r'.sessions.at[k], r'.events[k])
  }

  lemma FollowsIsTransitive(r: Repository, r': Repository, r'': Repository, k: Id)
    requires FollowsAt(r, r', k) && FollowsAt(r', r'', k)
    ensures FollowsAt(r, r'', k)
  {
  }

  lemma FindOrCreateStep(r: Repository, address: Address, now: int, drawn: Id, k: Id)
    requires LogsAreExact(r) && k in FindOrCreate(r, address, now, drawn).repo.sessions.at && k != drawn
    ensures FollowsAt(r, FindOrCreate(r, address, now, drawn).repo, k)
  {
  }

  lemma AppendStep(r: Repository, id: Id, now: int, k: Id)
    requires LogsAreExact(r) && k in Append(r, id, now).repo.sessions.at
    ensures FollowsAt(r, Append(r, id, now).repo, k)
  {
  }

  lemma SessionStep(r: Repository, op: Op, k: Id)
    requires LogsAreExact(r) && k in Apply(r, op).repo.sessions.at
    requires !(op.FindOrCreateSession? && op.drawn == k)
    ensures FollowsAt(r, Apply(r, op).repo, k)
  {
    match op
    case FindOrCreateSession(address, now, drawn) => FindOrCreateStep(r, address, now, drawn, k);
    case AppendEvent(id, now) => AppendStep(r, id, now, k);
    case _ =>
  }

  lemma {:induction false} SessionWasDrawn(ops: seq<Op>, k: nat, id: Id) returns (i: nat)
    requires k <= |ops| && id in At(ops, k).sessions.at
    ensures i < k && ops[i].FindOrCreateSession? && ops[i].drawn == id
  {
    if ops[k - 1].FindOrCreateSession? && ops[k - 1].drawn == id {
      i := k - 1;
    } else {
      i := SessionWasDrawn(ops, k - 1, id);
    }
  }

  lemma SessionIsDrawnOnce(ops: seq<Op>, i: nat, k: nat, id: Id)
    requires IsRun(ops) && i <= k < |ops| && id in At(ops, i).sessions.at
    ensures !(ops[k].FindOrCreateSession? && ops[k].drawn == id)
  {
    var q := SessionWasDrawn(ops, i, id);
    assert q < k && Drawn(ops[q]) == Some(id);
  }

  /** One session per address, and each log numbered 1, 2, ... up to the session's last number. */
  lemma {:induction false} RunKeepsSessionsSound(ops: seq<Op>, k: nat)
    requires IsRun(ops) && k <= |ops|
    ensures SessionsAreSound(At(ops, k))
  {
    if k > 0 {
      RunKeepsSessionsSound(ops, k - 1);
      if ops[k - 1].FindOrCreateSession? && ops[k - 1].drawn in At(ops, k - 1).sessions.at {
        SessionIsDrawnOnce(ops, k - 1, k - 1, ops[k - 1].drawn);
      }
      ApplyKeepsSessions(At(ops, k - 1), ops[k - 1]);
    }
  }

  lemma SessionHasLog(ops: seq<Op>, k: nat, id: Id)
    requires IsRun(ops) && k <= |ops| && id in At(ops, k).sessions.at
    ensures FollowsAt(At(ops, k), At(ops, k), id)
  {
    RunKeepsSessionsSound(ops, k);
  }

  lemma SessionStepAt(ops: seq<Op>, i: nat, k: nat, id: Id)
    requires IsRun(ops) && i < k <= |ops| && id in At(ops, i).sessions.at && id in At(ops, k).sessions.at
    ensures FollowsAt(At(ops, k - 1), At(ops, k), id)
  {
    RunKeepsSessionsSound(ops, k - 1);
    SessionIsDrawnOnce(ops, i, k - 1, id);
    SessionStep(At(ops, k - 1), ops[k - 1], id);
  }

  /** While a session is on record its address is fixed, its runtime id is written once, its log only grows. */
  lemma {:induction false} SessionOnlyMovesForward(ops: seq<Op>, i: nat, k: nat, id: Id)
    requires IsRun(ops) && i <= k <= |ops| && id in At(ops, i).sessions.at && id in At(ops, k).sessions.at
    ensures FollowsAt(At(ops, i), At(ops, k), id)
    decreases k
  {
    if i == k {
      SessionHasLog(ops, k, id);
    } else {
      SessionStepAt(ops, i, k, id);
      SessionOnlyMovesForward(ops, i, k - 1, id);
      FollowsIsTransitive(At(ops, i), At(ops, k - 1), At(ops, k), id);
    }
  }

  /** A session disappears only by a prune, and never while a job that is not terminal needs it. */
  lemma SessionOfOpenJobStays(ops: seq<Op>, k: nat, sid: Id)
    requires k < |ops| && sid in At(ops, k).sessions.at && sid !in At(ops, k + 1).sessions.at
    ensures ops[k].Prune? && ResponseAt(ops, k).Pruned?
    ensures forall j :: j in At(ops, k).jobs.at && At(ops, k).jobs.at[j].sessionId == Some(sid) ==> IsTerminal(At(ops, k).jobs.at[j].status)
  {
  }
}
