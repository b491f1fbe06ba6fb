/**
 * When the fence issues an interrupt, told by the events of the run alone: which callbacks of a
 * prompt have come so far decides where it stands, and that decides what its next callback does.
 */
module InterruptCauses {
  import opened InterruptFence

  /** The callbacks of one prompt that have come so far. */
  datatype Past = Past(failed: bool, posted: bool, ended: bool, resolved: bool, rejected: bool, late: bool, caught: bool, waited: bool)

  const NOTHING := Past(false, false, false, false, false, false, false, false)

  function Mark<S>(past: Past, a: Action<S>, p: nat): Past {
    match a
    case SetupFails(q) => past.(failed := past.failed || q == p)
    case Post(q) => past.(posted := past.posted || q == p)
    case SeeTerminal(q) => past.(ended := past.ended || q == p)
    case RaceResolves(q) => past.(resolved := past.resolved || q == p)
    case RaceRejects(q) => past.(rejected := past.rejected || q == p)
    case DeadlineFires(q) => past.(late := past.late || q == p)
    case Catch(q) => past.(caught := past.caught || q == p)
    case WaitEnds(q) => past.(waited := past.waited || q == p)
    case _ => past
  }

  /** What has happened to prompt `p` before moment `k`; an action that could not happen leaves no mark. */
  function PastOf<S(==)>(actions: seq<Action<S>>, k: nat, p: nat): Past
    requires k <= |actions|
  {
    if k == 0 then NOTHING
    else if CanHappen(At(actions, k - 1), actions[k - 1]) then Mark(PastOf(actions, k - 1, p), actions[k - 1], p)
    else PastOf(actions, k - 1, p)
  }

  /** A prompt is turned away once at most: before it posts, by its race or by its deadline. */
  predicate IsOrderly(past: Past) {
    && !(past.failed && past.posted)
    && (past.ended || past.resolved || past.rejected || past.late ==> past.posted)
    && !(past.resolved && past.rejected) && !(past.resolved && past.late) && !(past.rejected && past.late)
    && (past.caught ==> past.failed || past.rejected || (past.late && past.waited))
    && (past.waited ==> past.late || (past.rejected && past.caught))
  }

  /** Where a prompt stands, read from what has happened to it. */
  predicate StandsAt<S>(prompt: Prompt<S>, past: Past) {
    && prompt.postStarted == past.posted && prompt.terminalObserved == past.ended && prompt.fenced == past.late
    && (prompt.phase == Setup <==> !past.posted && !past.failed)
    && (prompt.phase == Observing <==> past.posted && !past.resolved && !past.rejected && !past.late)
    && (prompt.phase == Catching <==> (past.failed || past.rejected || (past.late && past.waited)) && !past.caught)
    && (prompt.phase == Interrupting(true) <==> past.late && !past.waited)
    && (prompt.phase == Interrupting(false) ==> past.rejected && past.caught && !past.waited)
  }

  predicate IsTold<S>(w: World<S>, p: nat, past: Past) {
    if p < |w.prompts| then IsOrderly(past) && StandsAt(w.prompts[p], past) else past == NOTHING
  }

  lemma StepTells<S>(w: World<S>, a: Action<S>, p: nat, past: Past)
    requires IsTold(w, p, past) && CanHappen(w, a)
    ensures IsTold(Step(w, a), p, Mark(past, a, p))
  {
    match a
    case Call(_) =>
    case InterruptSettles(_, _) =>
    case _ =>
      if a.p != p {
        assert p < |w.prompts| ==> Step(w, a).prompts[p] == w.prompts[p];
      }
  }

  /** In every run the callbacks that have come tell where a prompt stands and what its flags are. */
  lemma {:induction false} RunTells<S>(actions: seq<Action<S>>, k: nat, p: nat)
    requires k <= |actions|
    ensures IsTold(At(actions, k), p, PastOf(actions, k, p))
  {
    if k > 0 {
      RunTells(actions, k - 1, p);
      if CanHappen(At(actions, k - 1), actions[k - 1]) {
        StepTells(At(actions, k - 1), actions[k - 1], p, PastOf(actions, k - 1, p));
      }
    }
  }

  /** The step appends one unsettled interrupt of prompt `p`, on the session of `p`. */
  predicate Issues<S(==)>(w: World<S>, w': World<S>, p: nat) {
    p < |w.prompts| && w'.interrupts == w.interrupts + [Interrupt(w.prompts[p].session, p, Unsettled)]
  }

  /**
   * An action interrupts prompt `p` exactly when it is the deadline of a posted prompt whose race
   * is still open, or the first catch of a prompt whose race was rejected before any terminal event
   * was seen. So a prompt that errors after its terminal event, before it posted, or after its
   * deadline already interrupted it, issues none.
   */
  lemma InterruptsIffLost<S>(actions: seq<Action<S>>, k: nat, p: nat)
    requires k < |actions|
    ensures var past := PastOf(actions, k, p);
            Issues(At(actions, k), At(actions, k + 1), p) == (
              || (actions[k] == DeadlineFires(p) && past.posted && !past.resolved && !past.rejected && !past.late)
              || (actions[k] == Catch(p) && past.rejected && !past.ended && !past.caught))
  {
    RunTells(actions, k, p);
    var w := At(actions, k);
    if p < |w.prompts| && Issues(w, At(actions, k + 1), p) {
      assert At(actions, k + 1).interrupts[|w.interrupts|].owner == p;
    }
  }

  /** The interrupts on record are only ever added to, and settled as their own answer says. */
  lemma SettlesAsAnswered<S>(actions: seq<Action<S>>, k: nat, i: nat)
    requires k < |actions| && i < |At(actions, k).interrupts|
    ensures var was, now := At(actions, k).interrupts[i], At(actions, k + 1).interrupts;
            && i < |now|
            && now[i] == if actions[k] == InterruptSettles(i, true) && was.settlement == Unsettled then was.(settlement := Succeeded)
                         else if actions[k] == InterruptSettles(i, false) && was.settlement == Unsettled then was.(settlement := Failed)
                         else was
  {
  }
}
