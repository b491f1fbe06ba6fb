/**
 * Per-key serialisation by chained promises: each run waits for the run that was the key's tail
 * when it was submitted, and the tail is forgotten once it has settled and is still the tail.
 */
module SerializedRuns {
  import opened Wrappers

  datatype Phase = Waiting | Running | Settled

  datatype Run<K> = Run(key: K, previous: Option<nat>, phase: Phase)

  datatype Queues<!K> = Queues(runs: seq<Run<K>>, tails: map<K, nat>)

  /** A run settles well or badly; either way the next one may begin. */
  datatype Action<K> = Submit(key: K) | Begin(r: nat) | Settle(r: nat) | Tidy(r: nat)

  predicate CanHappen<K>(q: Queues<K>, a: Action<K>) {
    match a
    case Submit(_) => true
    case Begin(r) => r < |q.runs| && q.runs[r].phase == Waiting && PreviousIsSettled(q, q.runs[r].previous)
    case Settle(r) => r < |q.runs| && q.runs[r].phase == Running
    case Tidy(r) => r < |q.runs| && q.runs[r].phase == Settled
  }

  predicate PreviousIsSettled<K>(q: Queues<K>, previous: Option<nat>) {
    previous.Some? ==> previous.value < |q.runs| && q.runs[previous.value].phase == Settled
  }

  function Step<K(==)>(q: Queues<K>, a: Action<K>): Queues<K> {
    if !CanHappen(q, a) then q
    else
      match a
      case Submit(k) =>
        var previous := if k in q.tails then Some(q.tails[k]) else None;
        Queues(q.runs + [Run(k, previous, Waiting)], q.tails[k := |q.runs|])
      case Begin(r) => q.(runs := q.runs[r := q.runs[r].(phase := Running)])
      case Settle(r) => q.(runs := q.runs[r := q.runs[r].(phase := Settled)])
      case Tidy(r) =>
        var k := q.runs[r].key;
        if k in q.tails && q.tails[k] == r then q.(tails := q.tails - {k}) else q
  }

  function At<K(==)>(actions: seq<Action<K>>, n: nat): Queues<K>
    requires n <= |actions|
  {
    if n == 0 then Queues([], map[]) else Step(At(actions, n - 1), actions[n - 1])
  }

  /** Every run of the key before position `r` has settled. */
  ghost predicate SettledBefore<K>(q: Queues<K>, k: K, r: nat) {
    forall i :: 0 <= i < r && i < |q.runs| && q.runs[i].key == k ==> q.runs[i].phase == Settled
  }

  ghost predicate NoneBetween<K>(q: Queues<K>, k: K, lo: nat, hi: nat) {
    forall i :: lo < i < hi && i < |q.runs| ==> q.runs[i].key != k
  }

  ghost predicate TailIsLatest<K(!new)>(q: Queues<K>) {
    forall k :: k in q.tails ==> q.tails[k] < |q.runs| && q.runs[q.tails[k]].key == k && NoneBetween(q, k, q.tails[k], |q.runs|)
  }

  ghost predicate ForgottenIsSettled<K(!new)>(q: Queues<K>) {
    forall k :: k !in q.tails ==> SettledBefore(q, k, |q.runs|)
  }

  ghost predicate IsChained<K>(q: Queues<K>, r: nat)
    requires r < |q.runs|
  {
    match q.runs[r].previous
    case Some(p) => p < r && q.runs[p].key == q.runs[r].key && NoneBetween(q, q.runs[r].key, p, r)
    case None => SettledBefore(q, q.runs[r].key, r)
  }

  ghost predicate Valid<K(!new)>(q: Queues<K>) {
    && TailIsLatest(q) && ForgottenIsSettled(q)
    && (forall r :: 0 <= r < |q.runs| ==> IsChained(q, r))
    && (forall r :: 0 <= r < |q.runs| && q.runs[r].phase != Waiting ==> SettledBefore(q, q.runs[r].key, r))
  }

  /** Phases only move forward, so what has settled stays settled. */
  lemma PhaseChange<K(!new)>(q: Queues<K>, r: nat, phase: Phase, q': Queues<K>)
    requires r < |q.runs| && q.runs[r].phase != Settled && q' == q.(runs := q.runs[r := q.runs[r].(phase := phase)])
    ensures forall k, n :: SettledBefore(q, k, n) ==> SettledBefore(q', k, n)
    ensures forall k, lo, hi :: NoneBetween(q, k, lo, hi) ==> NoneBetween(q', k, lo, hi)
  {
  }

  lemma PhaseChangeKeeps<K(!new)>(q: Queues<K>, r: nat, phase: Phase, q': Queues<K>)
    requires Valid(q) && r < |q.runs| && q.runs[r].phase != Settled && q' == q.(runs := q.runs[r := q.runs[r].(phase := phase)])
    requires SettledBefore(q, q.runs[r].key, r)
    ensures Valid(q')
  {
    PhaseChange(q, r, phase, q');
    forall i | 0 <= i < |q'.runs| ensures IsChained(q', i) {
      assert IsChained(q, i);
    }
  }

  /** A run that may begin has nothing unsettled before it. */
  lemma BeginIsSafe<K(!new)>(q: Queues<K>, r: nat)
    requires Valid(q) && CanHappen(q, Begin(r))
    ensures SettledBefore(q, q.runs[r].key, r)
  {
    assert IsChained(q, r);
    if q.runs[r].previous.Some? {
      var p := q.runs[r].previous.value;
      assert SettledBefore(q, q.runs[p].key, p);
    }
  }

  lemma SubmitFrame<K(!new)>(q: Queues<K>, run: Run<K>, q': Queues<K>)
    requires q'.runs == q.runs + [run]
    ensures forall k, n: nat :: n <= |q.runs| && SettledBefore(q, k, n) ==> SettledBefore(q', k, n)
    ensures forall k, lo: nat, hi: nat :: hi <= |q.runs| && NoneBetween(q, k, lo, hi) ==> NoneBetween(q', k, lo, hi)
  {
  }

  lemma SubmitKeeps<K(!new)>(q: Queues<K>, k: K)
    requires Valid(q)
    ensures Valid(Step(q, Submit(k)))
  {
    var q', n := Step(q, Submit(k)), |q.runs|;
    SubmitFrame(q, q'.runs[n], q');
    forall r | 0 <= r < |q'.runs| ensures IsChained(q', r) {
      if r < n {
        assert IsChained(q, r) && q'.runs[r] == q.runs[r];
      }
    }
    forall l | l in q'.tails ensures q'.tails[l] < |q'.runs| && q'.runs[q'.tails[l]].key == l && NoneBetween(q', l, q'.tails[l], |q'.runs|) {
      if l != k {
        assert NoneBetween(q, l, q.tails[l], n);
      }
    }
    forall l | l !in q'.tails ensures SettledBefore(q', l, |q'.runs|) {
      assert SettledBefore(q, l, n);
    }
    forall r | 0 <= r < |q'.runs| && q'.runs[r].phase != Waiting ensures SettledBefore(q', q'.runs[r].key, r) {
      assert SettledBefore(q, q.runs[r].key, r);
    }
  }

  lemma TidyKeeps<K(!new)>(q: Queues<K>, r: nat)
    requires Valid(q) && CanHappen(q, Tidy(r))
    ensures Valid(Step(q, Tidy(r)))
  {
    var q', k := Step(q, Tidy(r)), q.runs[r].key;
    assert forall i :: 0 <= i < |q.runs| ==> IsChained(q, i) && IsChained(q', i);
    assert forall l, n :: SettledBefore(q, l, n) ==> SettledBefore(q', l, n);
    if q' != q {
      assert SettledBefore(q, k, r) && NoneBetween(q, k, r, |q.runs|);
      assert SettledBefore(q', k, |q'.runs|);
    }
  }

  lemma StepKeeps<K(!new)>(q: Queues<K>, a: Action<K>)
    requires Valid(q)
    ensures Valid(Step(q, a))
  {
    if CanHappen(q, a) {
      match a
      case Submit(k) => SubmitKeeps(q, k);
      case Begin(r) =>
        BeginIsSafe(q, r);
        PhaseChangeKeeps(q, r, Running, Step(q, a));
      case Settle(r) => PhaseChangeKeeps(q, r, Settled, Step(q, a));
      case Tidy(r) => TidyKeeps(q, r);
    }
  }

  lemma {:induction false} RunKeeps<K(!new)>(actions: seq<Action<K>>, n: nat)
    requires n <= |actions|
    ensures Valid(At(actions, n))
  {
    if n > 0 {
      RunKeeps(actions, n - 1);
      StepKeeps(At(actions, n - 1), actions[n - 1]);
    }
  }

  /** In every run of the queues, at most one action per key is under way, and they go in submission order. */
  lemma OneAtATimeInOrder<K(!new)>(actions: seq<Action<K>>, n: nat, r: nat, s: nat)
    requires n <= |actions| && r < s < |At(actions, n).runs| && At(actions, n).runs[r].key == At(actions, n).runs[s].key
    ensures At(actions, n).runs[s].phase != Waiting ==> At(actions, n).runs[r].phase == Settled
  {
    RunKeeps(actions, n);
    var q := At(actions, n);
    if q.runs[s].phase != Waiting {
      assert SettledBefore(q, q.runs[s].key, s);
    }
  }

  /** The first unsettled run of a key can always begin or is running: the chain never jams. */
  lemma FirstUnsettledCanMove<K(!new)>(actions: seq<Action<K>>, n: nat, r: nat)
    requires n <= |actions| && r < |At(actions, n).runs| && At(actions, n).runs[r].phase == Waiting
    requires SettledBefore(At(actions, n), At(actions, n).runs[r].key, r)
    ensures CanHappen(At(actions, n), Begin(r))
  {
    RunKeeps(actions, n);
    assert IsChained(At(actions, n), r);
  }

  // ----- The runs are the submissions ------------------------------------------------------------

  /** The keys submitted by the first `n` actions, in order. */
  function Submitted<K>(actions: seq<Action<K>>, n: nat): seq<K>
    requires n <= |actions|
  {
    if n == 0 then []
    else if actions[n - 1].Submit? then Submitted(actions, n - 1) + [actions[n - 1].key]
    else Submitted(actions, n - 1)
  }

  /** The runs are exactly the submissions, in their order. */
  lemma {:induction false} RunsAreSubmissions<K>(actions: seq<Action<K>>, n: nat)
    requires n <= |actions|
    ensures |At(actions, n).runs| == |Submitted(actions, n)|
    ensures forall r :: 0 <= r < |At(actions, n).runs| ==> At(actions, n).runs[r].key == Submitted(actions, n)[r]
  {
    if n > 0 {
      RunsAreSubmissions(actions, n - 1);
    }
  }

  /** A run stands where its own actions have brought it; another run's actions never move it. */
  lemma PhaseMovesByOwnAction<K(!new)>(actions: seq<Action<K>>, n: nat, r: nat)
    requires n < |actions| && r < |At(actions, n).runs|
    ensures r < |At(actions, n + 1).runs|
    ensures var q := At(actions, n);
            At(actions, n + 1).runs[r].phase == (
              if actions[n] == Begin(r) && q.runs[r].phase == Waiting && SettledBefore(q, q.runs[r].key, r) then Running
              else if actions[n] == Settle(r) && q.runs[r].phase == Running then Settled
              else q.runs[r].phase)
  {
    RunKeeps(actions, n);
    var q := At(actions, n);
    if actions[n] == Begin(r) && CanHappen(q, Begin(r)) {
      BeginIsSafe(q, r);
    } else if actions[n] == Begin(r) && q.runs[r].phase == Waiting && SettledBefore(q, q.runs[r].key, r) {
      FirstUnsettledCanMove(actions, n, r);
    }
  }

  /** Nothing is kept for a key once its last submitted run has settled and tidied up. */
  lemma LastTidyForgets<K(!new)>(actions: seq<Action<K>>, n: nat, r: nat)
    requires n < |actions| && actions[n] == Tidy(r) && r < |At(actions, n).runs| && At(actions, n).runs[r].phase == Settled
    requires NoneBetween(At(actions, n), At(actions, n).runs[r].key, r, |At(actions, n).runs|)
    ensures At(actions, n).runs[r].key !in At(actions, n + 1).tails
  {
    RunKeeps(actions, n);
    var q := At(actions, n);
    var k := q.runs[r].key;
    if k in q.tails {
      assert NoneBetween(q, k, q.tails[k], |q.runs|) && q.runs[q.tails[k]].key == k;
      assert q.tails[k] == r;
    }
  }

  class SessionQueues<K(==)> {
    var runs: seq<Run<K>>
    var tails: map<K, nat>

    ghost function View(): Queues<K>
      reads this
    {
      Queues(runs, tails)
    }

    constructor ()
      ensures View() == Queues([], map[])
    {
      runs, tails := [], map[];
    }

    method RunSerialized(key: K) returns (r: nat)
      modifies this
      ensures View() == Step(old(View()), Submit(key)) && r == |old(runs)|
    {
      var previous := if key in tails then Some(tails[key]) else None;
      r := |runs|;
      runs := runs + [Run(key, previous, Waiting)];
      tails := tails[key := r];
    }

    /** Forgets the key only if no later run took its place. */
    method OnFinally(r: nat)
      requires r < |runs| && runs[r].phase == Settled
      modifies this
      ensures View() == Step(old(View()), Tidy(r))
    {
      var key := runs[r].key;
      if key in tails && tails[key] == r {
        tails := tails - {key};
      }
    }
  }
}
