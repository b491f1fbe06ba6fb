/**
 * The fail-closed fence around native prompts: a prompt that was posted and never seen to end is
 * interrupted, and its session admits no further prompt until that interrupt has succeeded. One
 * step per event of the asynchronous code; an action that cannot happen changes nothing.
 */
module InterruptFence {
  import opened Wrappers
  import opened Sequences

  /** `Interrupting(true)` is the wait inside the deadline handler, which is followed by the catch. */
  datatype Phase = Setup | Observing | Catching | Interrupting(fromDeadline: bool) | Done

  datatype Prompt<S> = Prompt(session: S, phase: Phase, postStarted: bool, terminalObserved: bool, fenced: bool)

  datatype Settlement = Unsettled | Succeeded | Failed

  datatype Interrupt<S> = Interrupt(session: S, owner: nat, settlement: Settlement)

  datatype World<!S> = World(prompts: seq<Prompt<S>>, pending: map<S, nat>, interrupts: seq<Interrupt<S>>)

  datatype Action<S> =
    | Call(session: S)
    | SetupFails(p: nat)
    | Post(p: nat)
    | SeeTerminal(p: nat)
    | RaceResolves(p: nat)
    | RaceRejects(p: nat)
    | DeadlineFires(p: nat)
    | Catch(p: nat)
    | WaitEnds(p: nat)
    | InterruptSettles(i: nat, ok: bool)

  predicate CanHappen<S(==)>(w: World<S>, a: Action<S>) {
    match a
    case Call(s) => s !in w.pending
    case InterruptSettles(i, _) => i < |w.interrupts| && w.interrupts[i].settlement == Unsettled
    case _ => a.p < |w.prompts| && PromptCan(w.prompts[a.p], a)
  }

  /** The transcript settles well only after a terminal event; the deadline runs only once posted. */
  predicate PromptCan<S>(p: Prompt<S>, a: Action<S>) {
    match a
    case SetupFails(_) => p.phase == Setup
    case Post(_) => p.phase == Setup
    case SeeTerminal(_) => p.postStarted
    case RaceResolves(_) => p.phase == Observing && p.terminalObserved
    case RaceRejects(_) => p.phase == Observing
    case DeadlineFires(_) => p.phase == Observing
    case Catch(_) => p.phase == Catching
    case WaitEnds(_) => p.phase.Interrupting?
    case _ => false
  }

  function Issue<S(==)>(w: World<S>, p: nat): World<S>
    requires p < |w.prompts|
  {
    var s := w.prompts[p].session;
    w.(interrupts := w.interrupts + [Interrupt(s, p, Unsettled)], pending := w.pending[s := |w.interrupts|])
  }

  function Update<S>(w: World<S>, p: nat, prompt: Prompt<S>): World<S>
    requires p < |w.prompts|
  {
    w.(prompts := w.prompts[p := prompt])
  }

  predicate MustInterrupt<S>(p: Prompt<S>) {
    p.postStarted && !p.terminalObserved && !p.fenced
  }

  function Settle<S(==)>(w: World<S>, i: nat, ok: bool): World<S>
    requires i < |w.interrupts|
  {
    var interrupt := w.interrupts[i];
    var s := interrupt.session;
    w.(interrupts := w.interrupts[i := interrupt.(settlement := if ok then Succeeded else Failed)],
       pending := if ok && s in w.pending && w.pending[s] == i then w.pending - {s} else w.pending)
  }

  function Step<S(==)>(w: World<S>, a: Action<S>): World<S> {
    if !CanHappen(w, a) then w
    else
      match a
      case Call(s) => w.(prompts := w.prompts + [Prompt(s, Setup, false, false, false)])
      case InterruptSettles(i, ok) => Settle(w, i, ok)
      case SetupFails(p) => Update(w, p, w.prompts[p].(phase := Catching))
      case Post(p) => Update(w, p, w.prompts[p].(phase := Observing, postStarted := true))
      case SeeTerminal(p) => Update(w, p, w.prompts[p].(terminalObserved := true))
      case RaceResolves(p) => Update(w, p, w.prompts[p].(phase := Done))
      case RaceRejects(p) => Update(w, p, w.prompts[p].(phase := Catching))
      case DeadlineFires(p) => Update(Issue(w, p), p, w.prompts[p].(phase := Interrupting(true), fenced := true))
      case Catch(p) =>
        if MustInterrupt(w.prompts[p]) then Update(Issue(w, p), p, w.prompts[p].(phase := Interrupting(false)))
        else Update(w, p, w.prompts[p].(phase := Done))
      case WaitEnds(p) =>
        Update(w, p, w.prompts[p].(phase := if w.prompts[p].phase.fromDeadline then Catching else Done))
  }

  function At<S(==)>(actions: seq<Action<S>>, k: nat): World<S>
    requires k <= |actions|
  {
    if k == 0 then World([], map[], []) else Step(At(actions, k - 1), actions[k - 1])
  }

  // ----- How often a prompt interrupts -----------------------------------------------------------

  function IssuedBy<S>(interrupts: seq<Interrupt<S>>, p: nat): nat {
    if interrupts == [] then 0
    else IssuedBy(interrupts[..|interrupts| - 1], p) + if interrupts[|interrupts| - 1].owner == p then 1 else 0
  }

  lemma IssuedByAppend<S>(interrupts: seq<Interrupt<S>>, x: Interrupt<S>, p: nat)
    ensures IssuedBy(interrupts + [x], p) == IssuedBy(interrupts, p) + if x.owner == p then 1 else 0
  {
    assert (interrupts + [x])[..|interrupts|] == interrupts;
  }

  lemma {:induction false} IssuedBySettled<S>(interrupts: seq<Interrupt<S>>, i: nat, settlement: Settlement, p: nat)
    requires i < |interrupts|
    ensures IssuedBy(interrupts[i := interrupts[i].(settlement := settlement)], p) == IssuedBy(interrupts, p)
  {
    var n := |interrupts| - 1;
    var settled := interrupts[i := interrupts[i].(settlement := settlement)];
    if i < n {
      assert settled[..n] == interrupts[..n][i := interrupts[i].(settlement := settlement)];
      IssuedBySettled(interrupts[..n], i, settlement, p);
    } else {
      assert settled[..n] == interrupts[..n];
    }
  }

  /** What a prompt's flags say about the interrupts it has issued. */
  predicate PromptIsSound<S>(p: Prompt<S>, issued: nat) {
    match p.phase
    case Setup => !p.postStarted && !p.fenced && issued == 0
    case Observing => p.postStarted && !p.fenced && issued == 0
    case Catching => (p.fenced ==> p.postStarted) && issued == if p.fenced then 1 else 0
    case Interrupting(fromDeadline) => p.postStarted && p.fenced == fromDeadline && issued == 1
    case Done => issued <= 1 && (issued == 1 ==> p.postStarted) && (p.postStarted && !p.terminalObserved ==> issued == 1)
  }

  ghost predicate PromptsAreSound<S>(w: World<S>) {
    && (forall p :: 0 <= p < |w.prompts| ==> PromptIsSound(w.prompts[p], IssuedBy(w.interrupts, p)))
    && (forall i :: 0 <= i < |w.interrupts| ==> w.interrupts[i].owner < |w.prompts|)
  }

  lemma {:induction false} NoneIssuedByNew<S>(interrupts: seq<Interrupt<S>>, p: nat)
    requires forall i :: 0 <= i < |interrupts| ==> interrupts[i].owner < p
    ensures IssuedBy(interrupts, p) == 0
  {
    if interrupts != [] {
      NoneIssuedByNew(interrupts[..|interrupts| - 1], p);
    }
  }

  lemma UpdateKeepsSound<S>(w: World<S>, p: nat, prompt: Prompt<S>)
    requires PromptsAreSound(w) && p < |w.prompts| && prompt.session == w.prompts[p].session
    requires PromptIsSound(prompt, IssuedBy(w.interrupts, p))
    ensures PromptsAreSound(Update(w, p, prompt))
  {
  }

  lemma IssueKeepsSound<S>(w: World<S>, p: nat, prompt: Prompt<S>)
    requires PromptsAreSound(w) && p < |w.prompts| && prompt.session == w.prompts[p].session
    requires IssuedBy(w.interrupts, p) == 0 && PromptIsSound(prompt, 1)
    ensures PromptsAreSound(Update(Issue(w, p), p, prompt))
  {
    var w' := Update(Issue(w, p), p, prompt);
    forall q | 0 <= q < |w'.prompts| ensures PromptIsSound(w'.prompts[q], IssuedBy(w'.interrupts, q)) {
      IssuedByAppend(w.interrupts, Interrupt(w.prompts[p].session, p, Unsettled), q);
    }
  }

  lemma SettleKeepsSound<S>(w: World<S>, i: nat, ok: bool)
    requires PromptsAreSound(w) && i < |w.interrupts|
    ensures PromptsAreSound(Settle(w, i, ok))
  {
    var w' := Settle(w, i, ok);
    forall q | 0 <= q < |w'.prompts| ensures PromptIsSound(w'.prompts[q], IssuedBy(w'.interrupts, q)) {
      IssuedBySettled(w.interrupts, i, if ok then Succeeded else Failed, q);
    }
  }

  lemma CallKeepsSound<S>(w: World<S>, s: S)
    requires PromptsAreSound(w) && s !in w.pending
    ensures PromptsAreSound(Step(w, Call(s)))
  {
    NoneIssuedByNew(w.interrupts, |w.prompts|);
  }

  lemma StepKeepsSound<S>(w: World<S>, a: Action<S>)
    requires PromptsAreSound(w)
    ensures PromptsAreSound(Step(w, a))
  {
    if CanHappen(w, a) {
      match a
      case Call(s) => CallKeepsSound(w, s);
      case InterruptSettles(i, ok) => SettleKeepsSound(w, i, ok);
      case DeadlineFires(p) => IssueKeepsSound(w, p, w.prompts[p].(phase := Interrupting(true), fenced := true));
      case Catch(p) =>
        if MustInterrupt(w.prompts[p]) {
          IssueKeepsSound(w, p, w.prompts[p].(phase := Interrupting(false)));
        } else {
          UpdateKeepsSound(w, p, Step(w, a).prompts[p]);
        }
      case _ => UpdateKeepsSound(w, a.p, Step(w, a).prompts[a.p]);
    }
  }

  lemma {:induction false} RunKeepsSound<S>(actions: seq<Action<S>>, k: nat)
    requires k <= |actions|
    ensures PromptsAreSound(At(actions, k))
  {
    if k > 0 {
      RunKeepsSound(actions, k - 1);
      StepKeepsSound(At(actions, k - 1), actions[k - 1]);
    }
  }

  /**
   * In every run a prompt issues at most one interrupt, none before it posted, and exactly one by
   * the time it is done if it posted and no terminal event was observed.
   */
  lemma InterruptsOncePerLostPrompt<S>(actions: seq<Action<S>>, k: nat, p: nat)
    requires k <= |actions| && p < |At(actions, k).prompts|
    ensures var prompt, issued := At(actions, k).prompts[p], IssuedBy(At(actions, k).interrupts, p);
            && issued <= 1
            && (!prompt.postStarted ==> issued == 0)
            && (prompt.phase == Done && prompt.postStarted && !prompt.terminalObserved ==> issued == 1)
  {
    RunKeepsSound(actions, k);
    assert PromptIsSound(At(actions, k).prompts[p], IssuedBy(At(actions, k).interrupts, p));
  }

  // ----- What the fence remembers ----------------------------------------------------------------

  /** The session's interrupt that was issued last. */
  function Latest<S(==)>(interrupts: seq<Interrupt<S>>, s: S): Option<nat> {
    if interrupts == [] then None
    else if interrupts[|interrupts| - 1].session == s then Some(|interrupts| - 1)
    else Latest(interrupts[..|interrupts| - 1], s)
  }

  predicate IsLatest<S(==)>(interrupts: seq<Interrupt<S>>, i: nat, s: S)
    requires i < |interrupts|
  {
    interrupts[i].session == s && forall j :: i < j < |interrupts| ==> interrupts[j].session != s
  }

  lemma {:induction false} LatestIsLast<S>(interrupts: seq<Interrupt<S>>, s: S)
    ensures var latest := Latest(interrupts, s);
            if latest.Some? then latest.value < |interrupts| && IsLatest(interrupts, latest.value, s)
            else forall i :: 0 <= i < |interrupts| ==> interrupts[i].session != s
  {
    if interrupts != [] && interrupts[|interrupts| - 1].session != s {
      LatestIsLast(interrupts[..|interrupts| - 1], s);
    }
  }

  lemma LatestAppend<S>(interrupts: seq<Interrupt<S>>, x: Interrupt<S>, s: S)
    ensures Latest(interrupts + [x], s) == if x.session == s then Some(|interrupts|) else Latest(interrupts, s)
  {
    assert (interrupts + [x])[..|interrupts|] == interrupts;
  }

  lemma {:induction false} LatestSettled<S>(interrupts: seq<Interrupt<S>>, i: nat, settlement: Settlement, s: S)
    requires i < |interrupts|
    ensures Latest(interrupts[i := interrupts[i].(settlement := settlement)], s) == Latest(interrupts, s)
  {
    var n := |interrupts| - 1;
    var settled := interrupts[i := interrupts[i].(settlement := settlement)];
    if i < n {
      assert settled[..n] == interrupts[..n][i := interrupts[i].(settlement := settlement)];
      LatestSettled(interrupts[..n], i, settlement, s);
    } else {
      assert settled[..n] == interrupts[..n];
    }
  }

  /** The fence of a session is its latest interrupt until that one has succeeded. */
  predicate FenceIsExact<S(==)>(w: World<S>, s: S) {
    var latest := Latest(w.interrupts, s);
    && (latest.Some? ==> latest.value < |w.interrupts|)
    && (s in w.pending <==> latest.Some? && w.interrupts[latest.value].settlement != Succeeded)
    && (s in w.pending ==> latest == Some(w.pending[s]))
  }

  lemma SettleKeepsFence<S>(w: World<S>, i: nat, ok: bool, s: S)
    requires FenceIsExact(w, s) && i < |w.interrupts| && w.interrupts[i].settlement == Unsettled
    ensures FenceIsExact(Settle(w, i, ok), s)
  {
    LatestSettled(w.interrupts, i, if ok then Succeeded else Failed, s);
    LatestIsLast(w.interrupts, s);
  }

  lemma StepKeepsFence<S>(w: World<S>, a: Action<S>, s: S)
    requires FenceIsExact(w, s)
    ensures FenceIsExact(Step(w, a), s)
  {
    if CanHappen(w, a) {
      match a
      case InterruptSettles(i, ok) => SettleKeepsFence(w, i, ok, s);
      case DeadlineFires(p) => LatestAppend(w.interrupts, Interrupt(w.prompts[p].session, p, Unsettled), s);
      case Catch(p) => LatestAppend(w.interrupts, Interrupt(w.prompts[p].session, p, Unsettled), s);
      case _ =>
    }
  }

  lemma {:induction false} RunKeepsFence<S>(actions: seq<Action<S>>, k: nat, s: S)
    requires k <= |actions|
    ensures FenceIsExact(At(actions, k), s)
  {
    if k > 0 {
      RunKeepsFence(actions, k - 1, s);
      StepKeepsFence(At(actions, k - 1), actions[k - 1], s);
    }
  }

  /** In every run a prompt is admitted exactly when the session's latest interrupt, if any, has succeeded. */
  lemma AdmittedIffLatestSucceeded<S>(actions: seq<Action<S>>, k: nat, s: S)
    requires k <= |actions|
    ensures var w := At(actions, k);
            CanHappen(w, Call(s)) <==> forall i :: 0 <= i < |w.interrupts| && IsLatest(w.interrupts, i, s) ==> w.interrupts[i].settlement == Succeeded
  {
    RunKeepsFence(actions, k, s);
    LatestIsLast(At(actions, k).interrupts, s);
  }

  // ----- Which calls are safe --------------------------------------------------------------------

  ghost predicate AllSucceeded<S>(w: World<S>, s: S) {
    forall i :: 0 <= i < |w.interrupts| && w.interrupts[i].session == s ==> w.interrupts[i].settlement == Succeeded
  }

  /** The prompt can still come to issue an interrupt. */
  predicate MayInterrupt<S>(p: Prompt<S>) {
    p.phase == Setup || p.phase == Observing || (p.phase == Catching && MustInterrupt(p))
  }

  /** No prompt of the session other than `p` can still come to interrupt. */
  ghost predicate OthersAreSpent<S>(w: World<S>, s: S, p: nat) {
    forall q :: 0 <= q < |w.prompts| && q != p && w.prompts[q].session == s ==> !MayInterrupt(w.prompts[q])
  }

  /** Nothing of the session is outstanding and nothing can become so. */
  ghost predicate IsClear<S>(w: World<S>, s: S) {
    AllSucceeded(w, s) && OthersAreSpent(w, s, |w.prompts|)
  }

  lemma StepSpends<S>(w: World<S>, a: Action<S>, p: nat)
    requires PromptsAreSound(w) && p < |w.prompts|
    ensures p < |Step(w, a).prompts| && Step(w, a).prompts[p].session == w.prompts[p].session
    ensures MayInterrupt(Step(w, a).prompts[p]) ==> MayInterrupt(w.prompts[p])
  {
    assert PromptIsSound(w.prompts[p], IssuedBy(w.interrupts, p));
  }

  /** A step issues an interrupt only for a prompt that could, and settles only what is unsettled. */
  lemma InterruptStep<S>(w: World<S>, a: Action<S>)
    requires PromptsAreSound(w)
    ensures var w' := Step(w, a);
            || w'.interrupts == w.interrupts
            || (a.InterruptSettles? && a.i < |w.interrupts| && w.interrupts[a.i].settlement == Unsettled
                && w'.interrupts == w.interrupts[a.i := w.interrupts[a.i].(settlement := if a.ok then Succeeded else Failed)])
            || ((a.DeadlineFires? || a.Catch?) && a.p < |w.prompts| && MayInterrupt(w.prompts[a.p]) && !MayInterrupt(w'.prompts[a.p])
                && w'.interrupts == w.interrupts + [Interrupt(w.prompts[a.p].session, a.p, Unsettled)])
  {
  }

  /** Prompt `p` waits to be posted with nothing outstanding and nothing that can become so. */
  ghost predicate IsGuarded<S>(w: World<S>, s: S, p: nat) {
    && p < |w.prompts| && w.prompts[p].session == s
    && (w.prompts[p].phase == Setup ==> AllSucceeded(w, s) && OthersAreSpent(w, s, p))
  }

  lemma GuardStays<S>(w: World<S>, a: Action<S>, s: S, p: nat)
    requires PromptsAreSound(w) && IsGuarded(w, s, p) && a != Call(s)
    ensures IsGuarded(Step(w, a), s, p)
  {
    var w' := Step(w, a);
    StepSpends(w, a, p);
    InterruptStep(w, a);
    if w'.prompts[p].phase == Setup {
      assert w.prompts[p].phase == Setup;
      forall q | 0 <= q < |w'.prompts| && q != p && w'.prompts[q].session == s ensures !MayInterrupt(w'.prompts[q]) {
        assert q < |w.prompts|;
        StepSpends(w, a, q);
      }
    }
  }

  /** The two forms of a run with one more action. */
  lemma {:induction false} AtPrefix<S>(actions: seq<Action<S>>, more: seq<Action<S>>, k: nat)
    requires k <= |actions|
    ensures At(actions + more, k) == At(actions, k)
  {
    if k > 0 {
      AtPrefix(actions, more, k - 1);
    }
  }

  lemma AtAppend<S>(actions: seq<Action<S>>, a: Action<S>)
    ensures At(actions + [a], |actions| + 1) == Step(At(actions, |actions|), a)
  {
    AtPrefix(actions, [a], |actions|);
  }

  ghost predicate HasNoCall<S>(more: seq<Action<S>>, s: S) {
    forall i :: 0 <= i < |more| ==> more[i] != Call(s)
  }

  /** A prompt called at a clear session stays guarded until somebody else is called. */
  lemma {:induction false} ClearCallStaysGuarded<S>(actions: seq<Action<S>>, s: S, more: seq<Action<S>>)
    requires CanHappen(At(actions, |actions|), Call(s)) && IsClear(At(actions, |actions|), s) && HasNoCall(more, s)
    ensures var all := actions + [Call(s)] + more; IsGuarded(At(all, |all|), s, |At(actions, |actions|).prompts|)
    decreases |more|
  {
    var called := actions + [Call(s)];
    var p := |At(actions, |actions|).prompts|;
    if more == [] {
      assert called + more == called;
      AtAppend(actions, Call(s));
    } else {
      var init, last := more[..|more| - 1], more[|more| - 1];
      ClearCallStaysGuarded(actions, s, init);
      assert called + more == called + init + [last];
      AtAppend(called + init, last);
      RunKeepsSound(called + init, |called + init|);
      GuardStays(At(called + init, |called + init|), last, s, p);
    }
  }

  /** At the end of the continuation, the prompt called last can be posted only with nothing outstanding. */
  ghost predicate PostsUnfenced<S>(actions: seq<Action<S>>, s: S, more: seq<Action<S>>) {
    var all := actions + [Call(s)] + more;
    CanHappen(At(all, |all|), Post(|At(actions, |actions|).prompts|)) ==> AllSucceeded(At(all, |all|), s)
  }

  /** A continuation that ends with the new prompt about to be posted under an unsettled or failed interrupt. */
  ghost predicate Escapes<S>(w: World<S>, s: S, p: nat) {
    p < |w.prompts| && w.prompts[p].session == s && w.prompts[p].phase == Setup && !AllSucceeded(w, s)
  }

  lemma InterruptEscapes<S>(w: World<S>, s: S, p: nat, q: nat)
    requires p < |w.prompts| && w.prompts[p].session == s && w.prompts[p].phase == Setup
    requires q < |w.prompts| && q != p && w.prompts[q].session == s && MayInterrupt(w.prompts[q]) && w.prompts[q].phase != Setup
    ensures Escapes(Step(w, if w.prompts[q].phase == Observing then DeadlineFires(q) else Catch(q)), s, p)
  {
    var w' := Step(w, if w.prompts[q].phase == Observing then DeadlineFires(q) else Catch(q));
    assert w'.interrupts[|w.interrupts|] == Interrupt(s, q, Unsettled);
  }

  /** A prompt that may interrupt gets there by itself, in at most two steps. */
  lemma OtherPromptEscapes<S>(actions: seq<Action<S>>, s: S, p: nat, q: nat) returns (more: seq<Action<S>>)
    requires var w := At(actions, |actions|);
             p < |w.prompts| && w.prompts[p].session == s && w.prompts[p].phase == Setup
             && q < |w.prompts| && q != p && w.prompts[q].session == s && MayInterrupt(w.prompts[q])
    ensures HasNoCall(more, s) && Escapes(At(actions + more, |actions + more|), s, p)
    decreases if At(actions, |actions|).prompts[q].phase == Setup then 1 else 0
  {
    var w := At(actions, |actions|);
    if w.prompts[q].phase == Setup {
      AtAppend(actions, Post(q));
      var rest := OtherPromptEscapes(actions + [Post(q)], s, p, q);
      more := [Post(q)] + rest;
      AppendIsAssociative(actions, [Post(q)], rest);
    } else {
      var a := if w.prompts[q].phase == Observing then DeadlineFires(q) else Catch(q);
      AtAppend(actions, a);
      InterruptEscapes(w, s, p, q);
      more := [a];
    }
  }

  /** A call that the adapter admits at a session that is not clear can be posted under an interrupt. */
  lemma UnclearCallEscapes<S>(actions: seq<Action<S>>, s: S) returns (more: seq<Action<S>>)
    requires CanHappen(At(actions, |actions|), Call(s)) && !IsClear(At(actions, |actions|), s)
    ensures HasNoCall(more, s) && !PostsUnfenced(actions, s, more)
  {
    var w, called := At(actions, |actions|), actions + [Call(s)];
    var p := |w.prompts|;
    AtAppend(actions, Call(s));
    if AllSucceeded(w, s) {
      var q :| 0 <= q < |w.prompts| && w.prompts[q].session == s && MayInterrupt(w.prompts[q]);
      assert At(called, |called|).prompts[q] == w.prompts[q];
      more := OtherPromptEscapes(called, s, p, q);
    } else {
      more := [];
      assert called + more == called;
    }
  }

  /**
   * Exactly which admitted calls are safe: in every continuation without a further call of the
   * session the new prompt is posted only while all interrupts have succeeded, if and only if at
   * the call all of them had and no prompt of the session could still come to interrupt.
   */
  lemma CallIsSafeIffClear<S(!new)>(actions: seq<Action<S>>, s: S)
    requires CanHappen(At(actions, |actions|), Call(s))
    ensures (forall more: seq<Action<S>> :: HasNoCall(more, s) ==> PostsUnfenced(actions, s, more)) <==> IsClear(At(actions, |actions|), s)
  {
    if IsClear(At(actions, |actions|), s) {
      forall more: seq<Action<S>> | HasNoCall(more, s) ensures PostsUnfenced(actions, s, more) {
        ClearCallStaysGuarded(actions, s, more);
      }
    } else {
      var more := UnclearCallEscapes(actions, s);
    }
  }

  // ----- Runs of safe calls ----------------------------------------------------------------------

  ghost predicate OlderSucceeded<S>(w: World<S>, s: S) {
    forall i, j :: 0 <= i < j < |w.interrupts| && w.interrupts[i].session == s && w.interrupts[j].session == s
      ==> w.interrupts[i].settlement == Succeeded
  }

  /** A prompt that may interrupt is the only one, with nothing outstanding. */
  ghost predicate IsOrderly<S>(w: World<S>, s: S) {
    && (forall p :: 0 <= p < |w.prompts| && w.prompts[p].session == s && MayInterrupt(w.prompts[p]) ==>
          AllSucceeded(w, s) && OthersAreSpent(w, s, p))
    && OlderSucceeded(w, s)
  }

  lemma OrderlyStep<S>(w: World<S>, a: Action<S>, s: S)
    requires PromptsAreSound(w) && IsOrderly(w, s) && a != Call(s)
    ensures IsOrderly(Step(w, a), s)
  {
    var w' := Step(w, a);
    InterruptStep(w, a);
    forall p | 0 <= p < |w'.prompts| && w'.prompts[p].session == s && MayInterrupt(w'.prompts[p])
      ensures AllSucceeded(w', s) && OthersAreSpent(w', s, p)
    {
      assert p < |w.prompts|;
      StepSpends(w, a, p);
      assert AllSucceeded(w, s) && OthersAreSpent(w, s, p);
      forall q | 0 <= q < |w'.prompts| && q != p && w'.prompts[q].session == s ensures !MayInterrupt(w'.prompts[q]) {
        assert q < |w.prompts|;
        StepSpends(w, a, q);
      }
    }
  }

  lemma OrderlyCall<S>(w: World<S>, s: S)
    requires IsOrderly(w, s) && IsClear(w, s) && s !in w.pending
    ensures IsOrderly(Step(w, Call(s)), s)
  {
    assert Step(w, Call(s)).interrupts == w.interrupts;
  }

  ghost predicate IsClearCallAt<S>(actions: seq<Action<S>>, k: nat, s: S)
    requires k < |actions|
  {
    actions[k] == Call(s) && CanHappen(At(actions, k), actions[k]) ==> IsClear(At(actions, k), s)
  }

  /** Every admitted call of the session comes at a clear moment. */
  ghost predicate HasClearCalls<S>(actions: seq<Action<S>>, s: S) {
    forall k :: 0 <= k < |actions| ==> IsClearCallAt(actions, k, s)
  }

  lemma OrderlyStepAt<S>(actions: seq<Action<S>>, k: nat, s: S)
    requires k < |actions| && IsClearCallAt(actions, k, s) && IsOrderly(At(actions, k), s)
    ensures IsOrderly(At(actions, k + 1), s)
  {
    RunKeepsSound(actions, k);
    if actions[k] != Call(s) {
      OrderlyStep(At(actions, k), actions[k], s);
    } else if CanHappen(At(actions, k), actions[k]) {
      OrderlyCall(At(actions, k), s);
    }
  }

  lemma StartIsOrderly<S>(actions: seq<Action<S>>, s: S)
    ensures IsOrderly(At(actions, 0), s)
  {
  }

  lemma {:induction false} RunKeepsOrderly<S>(actions: seq<Action<S>>, k: nat, s: S)
    requires k <= |actions| && forall j :: 0 <= j < k ==> IsClearCallAt(actions, j, s)
    ensures IsOrderly(At(actions, k), s)
  {
    if k == 0 {
      StartIsOrderly(actions, s);
    } else {
      var j := k - 1;
      RunKeepsOrderly(actions, j, s);
      OrderlyStepAt(actions, j, s);
    }
  }

  /** When every admitted call comes at a clear moment, every POST starts with all interrupts succeeded. */
  lemma ClearCallsPostUnfenced<S>(actions: seq<Action<S>>, k: nat, s: S)
    requires k < |actions| && HasClearCalls(actions, s)
    requires actions[k].Post? && CanHappen(At(actions, k), actions[k]) && At(actions, k).prompts[actions[k].p].session == s
    ensures AllSucceeded(At(actions, k), s)
  {
    RunKeepsOrderly(actions, k, s);
  }

  // ----- Serialised prompts ----------------------------------------------------------------------

  ghost predicate AllDone<S>(w: World<S>, s: S) {
    forall p :: 0 <= p < |w.prompts| && w.prompts[p].session == s ==> w.prompts[p].phase == Done
  }

  ghost predicate IsSerialAt<S>(actions: seq<Action<S>>, k: nat, s: S)
    requires k < |actions|
  {
    actions[k] == Call(s) && CanHappen(At(actions, k), actions[k]) ==> AllDone(At(actions, k), s)
  }

  /** The session's admitted prompts are called one after the other. */
  ghost predicate IsSerialised<S>(actions: seq<Action<S>>, s: S) {
    forall k :: 0 <= k < |actions| ==> IsSerialAt(actions, k, s)
  }

  lemma DoneIsClear<S>(w: World<S>, s: S)
    requires FenceIsExact(w, s) && OlderSucceeded(w, s) && s !in w.pending && AllDone(w, s)
    ensures IsClear(w, s)
  {
    LatestIsLast(w.interrupts, s);
  }

  /** Serialised prompts are called at clear moments. */
  lemma {:induction false} SerialisedCallsAreClear<S>(actions: seq<Action<S>>, s: S, k: nat)
    requires k <= |actions| && IsSerialised(actions, s)
    ensures forall j :: 0 <= j < k ==> IsClearCallAt(actions, j, s)
  {
    if k > 0 {
      var j := k - 1;
      SerialisedCallsAreClear(actions, s, j);
      RunKeepsOrderly(actions, j, s);
      RunKeepsFence(actions, j, s);
      assert IsSerialAt(actions, j, s);
      if actions[j] == Call(s) && CanHappen(At(actions, j), actions[j]) {
        DoneIsClear(At(actions, j), s);
      }
    }
  }

  /**
   * When a session's prompts are serialised, a prompt is posted only while every interrupt ever
   * issued for the session has succeeded: an unsettled or failed one blocks all later posts.
   */
  lemma SerialisedPostsAreUnfenced<S>(actions: seq<Action<S>>, k: nat, s: S)
    requires k < |actions| && IsSerialised(actions, s)
    requires actions[k].Post? && CanHappen(At(actions, k), actions[k]) && At(actions, k).prompts[actions[k].p].session == s
    ensures AllSucceeded(At(actions, k), s)
  {
    SerialisedCallsAreClear(actions, s, |actions|);
    ClearCallsPostUnfenced(actions, k, s);
  }

  lemma SettledStays<S>(w: World<S>, a: Action<S>, i: nat)
    requires i < |w.interrupts| && w.interrupts[i].settlement != Unsettled
    ensures i < |Step(w, a).interrupts| && Step(w, a).interrupts[i] == w.interrupts[i]
  {
  }

  lemma {:induction false} FailureIsForever<S>(actions: seq<Action<S>>, j: nat, k: nat, i: nat)
    requires j <= k <= |actions| && i < |At(actions, j).interrupts| && At(actions, j).interrupts[i].settlement == Failed
    ensures i < |At(actions, k).interrupts| && At(actions, k).interrupts[i] == At(actions, j).interrupts[i]
    decreases k
  {
    if j < k {
      FailureIsForever(actions, j, k - 1, i);
      SettledStays(At(actions, k - 1), actions[k - 1], i);
    }
  }

  /** Fail-closed: after a failed interrupt, a session whose calls come at clear moments never posts again. */
  lemma FailedInterruptClosesSession<S>(actions: seq<Action<S>>, j: nat, k: nat, i: nat)
    requires j <= k < |actions| && i < |At(actions, j).interrupts| && At(actions, j).interrupts[i].settlement == Failed
    requires HasClearCalls(actions, At(actions, j).interrupts[i].session)
    requires actions[k].Post? && CanHappen(At(actions, k), actions[k])
    ensures At(actions, k).prompts[actions[k].p].session != At(actions, j).interrupts[i].session
  {
    FailureIsForever(actions, j, k, i);
    if At(actions, k).prompts[actions[k].p].session == At(actions, j).interrupts[i].session {
      ClearCallsPostUnfenced(actions, k, At(actions, j).interrupts[i].session);
    }
  }

  // ----- Overlapping prompts ---------------------------------------------------------------------

  function EarlyCallRun<S>(s: S): seq<Action<S>> {
    [Call(s), Call(s), Post(0), DeadlineFires(0), Post(1)]
  }

  /**
   * The fence is looked at when a prompt is called, not when it is posted: of two prompts called
   * before either is posted, the second is posted under the interrupt of the first.
   */
  lemma EarlyCallEscapesFence<S>(s: S)
    ensures var actions := EarlyCallRun(s);
            && actions[4] == Post(1) && CanHappen(At(actions, 4), actions[4])
            && At(actions, 4).prompts[1].session == s && !AllSucceeded(At(actions, 4), s)
  {
    var actions := EarlyCallRun(s);
    var posted, setup := Prompt(s, Observing, true, false, false), Prompt(s, Setup, false, false, false);
    assert At(actions, 0) == World([], map[], []);
    assert At(actions, 1) == World([setup], map[], []);
    assert At(actions, 2) == World([setup, setup], map[], []);
    assert At(actions, 3) == World([posted, setup], map[], []);
    assert At(actions, 4).interrupts == [Interrupt(s, 0, Unsettled)] && At(actions, 4).prompts[1] == setup;
    assert At(actions, 4).interrupts[0].session == s;
  }

  function OverlapRun<S>(s: S): seq<Action<S>> {
    [Call(s), Call(s), Post(0), Post(1), DeadlineFires(0), DeadlineFires(1), InterruptSettles(1, true), Call(s), Post(2)]
  }

  lemma OverlapPostsTwice<S>(s: S)
    ensures var posted := Prompt(s, Observing, true, false, false);
            At(OverlapRun(s), 4) == World([posted, posted], map[], [])
  {
    var actions := OverlapRun(s);
    var posted := Prompt(s, Observing, true, false, false);
    var setup := Prompt(s, Setup, false, false, false);
    assert At(actions, 0) == World([], map[], []);
    assert At(actions, 1) == World([setup], map[], []);
    assert At(actions, 2) == World([setup, setup], map[], []);
    assert At(actions, 3) == World([posted, setup], map[], []);
  }

  lemma OverlapInterruptsTwice<S>(s: S)
    ensures var interrupted := Prompt(s, Interrupting(true), true, false, true);
            At(OverlapRun(s), 6) == World([interrupted, interrupted], map[s := 1], [Interrupt(s, 0, Unsettled), Interrupt(s, 1, Unsettled)])
  {
    OverlapPostsTwice(s);
    var posted := Prompt(s, Observing, true, false, false);
    var interrupted := Prompt(s, Interrupting(true), true, false, true);
    assert At(OverlapRun(s), 5) == World([interrupted, posted], map[s := 0], [Interrupt(s, 0, Unsettled)]);
  }

  /**
   * A fence can also be replaced: the second of two overlapping prompts puts its interrupt in the
   * first one's place, and a third prompt is admitted and posted while the first is unsettled.
   */
  lemma OverlapEscapesFence<S>(s: S)
    ensures var actions := OverlapRun(s);
            && actions[8] == Post(2) && CanHappen(At(actions, 8), actions[8])
            && At(actions, 8).prompts[2].session == s && !AllSucceeded(At(actions, 8), s)
  {
    OverlapInterruptsTwice(s);
    var actions := OverlapRun(s);
    var interrupts := [Interrupt(s, 0, Unsettled), Interrupt(s, 1, Succeeded)];
    assert At(actions, 7).interrupts == interrupts && At(actions, 7).pending == map[];
    assert At(actions, 8).interrupts[0] == interrupts[0];
  }

  // ----- The adapter object ----------------------------------------------------------------------

  class PromptAdapter<S(==)> {
    var prompts: seq<Prompt<S>>
    var pendingInterrupts: map<S, nat>
    var interrupts: seq<Interrupt<S>>

    ghost function View(): World<S>
      reads this
    {
      World(prompts, pendingInterrupts, interrupts)
    }

    constructor ()
      ensures View() == World([], map[], [])
    {
      prompts, pendingInterrupts, interrupts := [], map[], [];
    }

    /** Refuses a session whose last interrupt has not succeeded. */
    method BeginPrompt(s: S) returns (p: Option<nat>)
      modifies this
      ensures View() == Step(old(View()), Call(s))
      ensures p == if s in old(pendingInterrupts) then None else Some(|old(prompts)|)
    {
      if s in pendingInterrupts {
        return None;
      }
      p := Some(|prompts|);
      prompts := prompts + [Prompt(s, Setup, false, false, false)];
    }

    method StartPost(p: nat)
      requires p < |prompts| && prompts[p].phase == Setup
      modifies this
      ensures View() == Step(old(View()), Post(p))
    {
      prompts := prompts[p := prompts[p].(phase := Observing, postStarted := true)];
    }

    method ObserveTerminal(p: nat)
      requires p < |prompts| && prompts[p].postStarted
      modifies this
      ensures View() == Step(old(View()), SeeTerminal(p))
    {
      prompts := prompts[p := prompts[p].(terminalObserved := true)];
    }

    /** Records the interrupt as the session's fence before it is awaited. */
    method InterruptWithFence(p: nat)
      requires p < |prompts|
      modifies this
      ensures View() == Issue(old(View()), p)
    {
      var s := prompts[p].session;
      pendingInterrupts := pendingInterrupts[s := |interrupts|];
      interrupts := interrupts + [Interrupt(s, p, Unsettled)];
    }

    method OnDeadline(p: nat)
      requires p < |prompts| && prompts[p].phase == Observing
      modifies this
      ensures View() == Step(old(View()), DeadlineFires(p))
    {
      prompts := prompts[p := prompts[p].(phase := Interrupting(true), fenced := true)];
      InterruptWithFence(p);
    }

    method OnError(p: nat)
      requires p < |prompts| && prompts[p].phase == Catching
      modifies this
      ensures View() == Step(old(View()), Catch(p))
    {
      var prompt := prompts[p];
      if prompt.postStarted && !prompt.terminalObserved && !prompt.fenced {
        prompts := prompts[p := prompt.(phase := Interrupting(false))];
        InterruptWithFence(p);
      } else {
        prompts := prompts[p := prompt.(phase := Done)];
      }
    }

    /** Lifts the fence only for a success, and only if it is still this interrupt's. */
    method OnInterruptSettled(i: nat, ok: bool)
      requires i < |interrupts| && interrupts[i].settlement == Unsettled
      modifies this
      ensures View() == Step(old(View()), InterruptSettles(i, ok))
    {
      var s := interrupts[i].session;
      interrupts := interrupts[i := interrupts[i].(settlement := if ok then Succeeded else Failed)];
      if ok && s in pendingInterrupts && pendingInterrupts[s] == i {
        pendingInterrupts := pendingInterrupts - {s};
      }
    }
  }
}
