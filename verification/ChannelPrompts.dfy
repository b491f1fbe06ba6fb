/**
 * Channel messages call the prompt adapter from inside serialised runs, one queue key per session:
 * a run calls while it is under way, awaits the prompt, and settles afterwards. Run together, the
 * queues give the adapter the serialised prompts that its fence relies on.
 */
module ChannelPrompts {
  import opened Wrappers
  import opened Sequences
  import Q = SerializedRuns
  import F = InterruptFence

  /** `owners` are the runs that called the prompts. */
  datatype Gateway<!K> = Gateway(queues: Q.Queues<K>, world: F.World<K>, owners: seq<nat>)

  /** `run` is the queue run that makes a call; other adapter actions are nobody's. */
  datatype Action<K> = Queue(action: Q.Action<K>) | Adapter(step: F.Action<K>, run: nat)

  ghost predicate IsIdle<K>(g: Gateway<K>, r: nat) {
    forall p :: 0 <= p < |g.world.prompts| && p < |g.owners| && g.owners[p] == r ==> g.world.prompts[p].phase == F.Done
  }

  ghost predicate CanHappen<K>(g: Gateway<K>, a: Action<K>) {
    match a
    case Queue(action) => action.Settle? ==> IsIdle(g, action.r)
    case Adapter(step, r) =>
      step.Call? ==> r < |g.queues.runs| && g.queues.runs[r].phase == Q.Running && g.queues.runs[r].key == step.session && IsIdle(g, r)
  }

  ghost function Step<K>(g: Gateway<K>, a: Action<K>): Gateway<K> {
    if !CanHappen(g, a) then g
    else
      match a
      case Queue(action) => g.(queues := Q.Step(g.queues, action))
      case Adapter(step, r) =>
        g.(world := F.Step(g.world, step), owners := if step.Call? && F.CanHappen(g.world, step) then g.owners + [r] else g.owners)
  }

  ghost function At<K>(actions: seq<Action<K>>, k: nat): Gateway<K>
    requires k <= |actions|
  {
    if k == 0 then Gateway(Q.Queues([], map[]), F.World([], map[], []), []) else Step(At(actions, k - 1), actions[k - 1])
  }

  /** What the adapter sees of a run. */
  ghost function Seen<K>(actions: seq<Action<K>>, k: nat): seq<F.Action<K>>
    requires k <= |actions|
  {
    if k == 0 then []
    else
      var a := actions[k - 1];
      Seen(actions, k - 1) + if a.Adapter? && CanHappen(At(actions, k - 1), a) then [a.step] else []
  }

  /** A prompt that is under way belongs to a run of its session that is under way. */
  ghost predicate IsOwned<K>(g: Gateway<K>, p: nat)
    requires p < |g.world.prompts| && p < |g.owners|
  {
    && g.owners[p] < |g.queues.runs|
    && g.queues.runs[g.owners[p]].key == g.world.prompts[p].session
    && (g.world.prompts[p].phase != F.Done ==> g.queues.runs[g.owners[p]].phase == Q.Running)
  }

  ghost predicate Valid<K(!new)>(g: Gateway<K>) {
    && Q.Valid(g.queues)
    && |g.owners| == |g.world.prompts|
    && (forall p :: 0 <= p < |g.world.prompts| ==> IsOwned(g, p))
  }

  lemma QueueStepKeepsOwner<K(!new)>(g: Gateway<K>, action: Q.Action<K>, p: nat)
    requires p < |g.world.prompts| && p < |g.owners| && IsOwned(g, p) && (action.Settle? ==> IsIdle(g, action.r))
    ensures IsOwned(g.(queues := Q.Step(g.queues, action)), p)
  {
  }

  lemma DoneStaysDone<K>(w: F.World<K>, a: F.Action<K>, p: nat)
    requires p < |w.prompts|
    ensures p < |F.Step(w, a).prompts| && F.Step(w, a).prompts[p].session == w.prompts[p].session
    ensures w.prompts[p].phase == F.Done ==> F.Step(w, a).prompts[p].phase == F.Done
  {
  }

  lemma CallGrows<K>(w: F.World<K>, a: F.Action<K>)
    ensures var w' := F.Step(w, a);
            if a.Call? && F.CanHappen(w, a) then |w'.prompts| == |w.prompts| + 1 && w'.prompts[|w.prompts|].session == a.session
            else |w'.prompts| == |w.prompts|
  {
  }

  lemma StepKeeps<K(!new)>(g: Gateway<K>, a: Action<K>)
    requires Valid(g)
    ensures Valid(Step(g, a))
  {
    if CanHappen(g, a) {
      var g' := Step(g, a);
      match a
      case Queue(action) =>
        Q.StepKeeps(g.queues, action);
        forall p | 0 <= p < |g'.world.prompts| ensures IsOwned(g', p) {
          QueueStepKeepsOwner(g, action, p);
        }
      case Adapter(step, r) =>
        CallGrows(g.world, step);
        forall p | 0 <= p < |g'.world.prompts| ensures IsOwned(g', p) {
          if p < |g.world.prompts| {
            DoneStaysDone(g.world, step, p);
            assert IsOwned(g, p) && g'.owners[p] == g.owners[p];
          }
        }
    }
  }

  lemma {:induction false} RunKeeps<K(!new)>(actions: seq<Action<K>>, k: nat)
    requires k <= |actions|
    ensures Valid(At(actions, k))
  {
    if k > 0 {
      RunKeeps(actions, k - 1);
      StepKeeps(At(actions, k - 1), actions[k - 1]);
    }
  }

  /** A run that may call finds all prompts of its session done. */
  lemma CallerIsAlone<K(!new)>(g: Gateway<K>, s: K, r: nat)
    requires Valid(g) && CanHappen(g, Adapter(F.Call(s), r))
    ensures F.AllDone(g.world, s)
  {
    forall p | 0 <= p < |g.world.prompts| && g.world.prompts[p].session == s ensures g.world.prompts[p].phase == F.Done {
      assert IsOwned(g, p);
      var o := g.owners[p];
      assert g.queues.runs[r].phase != Q.Waiting && Q.SettledBefore(g.queues, s, r);
      assert g.world.prompts[p].phase != F.Done ==> Q.SettledBefore(g.queues, s, o);
    }
  }

  lemma {:induction false} SerialPrefix<K>(actions: seq<F.Action<K>>, a: F.Action<K>, s: K)
    requires F.IsSerialised(actions, s) && (a == F.Call(s) ==> F.AllDone(F.At(actions, |actions|), s))
    ensures F.IsSerialised(actions + [a], s)
  {
    var all := actions + [a];
    forall k | 0 <= k < |all| ensures F.IsSerialAt(all, k, s) {
      F.AtPrefix(actions, [a], k);
      if k < |actions| {
        assert F.IsSerialAt(actions, k, s) && all[k] == actions[k];
      }
    }
  }

  lemma SeenStep<K(!new)>(actions: seq<Action<K>>, k: nat, s: K)
    requires k < |actions| && F.IsSerialised(Seen(actions, k), s)
    requires At(actions, k).world == F.At(Seen(actions, k), |Seen(actions, k)|)
    ensures F.IsSerialised(Seen(actions, k + 1), s)
    ensures At(actions, k + 1).world == F.At(Seen(actions, k + 1), |Seen(actions, k + 1)|)
  {
    var g, a, seen := At(actions, k), actions[k], Seen(actions, k);
    if a.Adapter? && CanHappen(g, a) {
      RunKeeps(actions, k);
      if a.step == F.Call(s) {
        CallerIsAlone(g, s, a.run);
      }
      SerialPrefix(seen, a.step, s);
      F.AtAppend(seen, a.step);
    } else {
      assert Seen(actions, k + 1) == seen;
    }
  }

  /** Channel prompts are serialised: the adapter's view of every run together meets the fence's hypothesis. */
  lemma {:induction false} ChannelPromptsAreSerialised<K(!new)>(actions: seq<Action<K>>, k: nat, s: K)
    requires k <= |actions|
    ensures F.IsSerialised(Seen(actions, k), s)
    ensures At(actions, k).world == F.At(Seen(actions, k), |Seen(actions, k)|)
  {
    if k == 0 {
      NothingSeen(actions, s);
    } else {
      var j := k - 1;
      ChannelPromptsAreSerialised(actions, j, s);
      SeenStep(actions, j, s);
    }
  }

  lemma NothingSeen<K(!new)>(actions: seq<Action<K>>, s: K)
    ensures F.IsSerialised(Seen(actions, 0), s) && At(actions, 0).world == F.At(Seen(actions, 0), |Seen(actions, 0)|)
  {
  }

  /** So a channel prompt is posted only while every interrupt of its session has succeeded. */
  lemma ChannelPostsAreUnfenced<K(!new)>(actions: seq<Action<K>>, k: nat, p: nat)
    requires k <= |actions| && F.CanHappen(At(actions, k).world, F.Post(p))
    ensures F.AllSucceeded(At(actions, k).world, At(actions, k).world.prompts[p].session)
  {
    var w, seen := At(actions, k).world, Seen(actions, k);
    var s := w.prompts[p].session;
    ChannelPromptsAreSerialised(actions, k, s);
    SerialPrefix(seen, F.Post(p), s);
    F.AtPrefix(seen, [F.Post(p)], |seen|);
    F.SerialisedPostsAreUnfenced(seen + [F.Post(p)], |seen|, s);
  }
}
