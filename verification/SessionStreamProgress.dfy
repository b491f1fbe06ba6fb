/**
 * Handlings of an event are bounded in every run, and the stream's own steps, with any render and
 * fetch outcomes in any order, come to an end with the stored cursor at the last event of the log.
 */
module SessionStreamProgress {
  import opened Wrappers
  import opened Sequences
  import opened SessionStream

  // ----- What an event can still cause -----------------------------------------------------------

  function AttemptCap(cfg: Config): nat {
    Max(1, cfg.maxRenderAttempts)
  }

  /** The cursor the stream will go by when the write in flight is answered, if that is lower. */
  function Settled(w: World): nat {
    if w.stream.work.Saving? && w.reply.Some? && w.reply.value < w.stream.last then w.reply.value else w.stream.last
  }

  /** The cursor write behind the rendered or dead-lettered event `e` is under way. */
  predicate BeingSaved(w: World, e: nat) {
    w.stream.work.Saving? && w.stream.work.purpose != AfterSnapshot && w.stream.work.target == e
  }

  predicate BeingRendered(w: World, e: nat) {
    w.stream.work.Rendering? && w.stream.queue != [] && w.stream.queue[0].event.sequence == e
  }

  /** Handlings that event `e` can still cause unless its dead-letter write fails. */
  function Left(cfg: Config, w: World, e: nat): nat {
    var attempts := AttemptCap(cfg) - Failures(w.stream, e);
    if BeingSaved(w, e) then Max(0, if w.stream.work.purpose == AfterRender then attempts - 1 else attempts)
    else if e <= Settled(w) && !BeingRendered(w, e) then 0
    else Max(1, attempts)
  }

  /** The step ends a handling of `e`, well or badly. */
  predicate EndsHandling(w: World, a: Action, e: nat) {
    (a.RenderOk? || a.RenderFail?) && w.stream.queue != [] && w.stream.queue[0].event.sequence == e
  }

  /** The step fails the cursor write that would have moved past the dead-lettered event `e`. */
  predicate LosesDeadLetter(w: World, a: Action, e: nat) {
    a.SaveFail? && w.stream.work.Saving? && w.stream.work.purpose == AfterFailure && w.stream.work.target == e
  }

  /** Steps that leave the failures and the head task alone. */
  lemma OuterStep(cfg: Config, w: World, a: Action, e: nat)
    requires WorkIsEntitled(w) && Enabled(w, a)
    requires a.Deliver? || a.DeliverSnapshot? || a.DeliverLate? || a.SseError? || a.Timer? || a.CloseStream?
          || a.AppendEvent? || a.OtherWriter? || a.LateWrite? || a.EnsureReported?
    ensures Left(cfg, Step(cfg, w, a), e) <= Left(cfg, w, e)
    ensures !a.EnsureReported? ==> Left(cfg, Step(cfg, w, a), e) == Left(cfg, w, e)
  {
    var w' := Step(cfg, w, a);
    assert w'.stream.renderFailures == w.stream.renderFailures && w'.stream.work == w.stream.work && w'.reply == w.reply;
    assert w.stream.queue != [] ==> w'.stream.queue != [] && w'.stream.queue[0] == w.stream.queue[0];
  }

  /** Starting, fetching and giving up a snapshot. */
  lemma PreparingStep(cfg: Config, w: World, a: Action, e: nat)
    requires WorkIsEntitled(w) && Enabled(w, a)
    requires a.Start? || a.FetchOk? || a.FetchFail?
    ensures Left(cfg, Step(cfg, w, a), e) == Left(cfg, w, e)
  {
    FinishFrame(w.stream);
    FinishFrame(Reconnect(w.stream));
    var w' := Step(cfg, w, a);
    assert w'.stream.renderFailures == w.stream.renderFailures && w'.stream.last == w.stream.last;
  }

  lemma SavingStep(cfg: Config, w: World, a: Action, e: nat)
    requires WorkIsEntitled(w) && w.stream.last <= w.stored && Enabled(w, a)
    requires a.SaveApplied? || a.SaveAnswered?
    ensures Left(cfg, Step(cfg, w, a), e) <= Left(cfg, w, e)
    ensures a.SaveApplied? ==> Left(cfg, Step(cfg, w, a), e) == Left(cfg, w, e)
  {
    var s := w.stream;
    if a.SaveAnswered? {
      FinishFrame(s.(last := w.reply.value, renderFailures := s.renderFailures - {s.queue[0].event.sequence}));
      FinishFrame(s.(last := w.reply.value));
    }
  }

  lemma FailingStep(cfg: Config, w: World, transient: bool, e: nat)
    requires w.stream.queue != []
    ensures var h, f := w.stream.queue[0].event.sequence, Failures(w.stream, w.stream.queue[0].event.sequence);
            var w', left := Failing(cfg, w, transient), Left(cfg, Failing(cfg, w, transient), e);
            && w'.stream.last == w.stream.last && w'.reply.None?
            && (e == h ==> left <= Max(0, AttemptCap(cfg) - f - 1))
            && (e != h ==> left == if e <= w.stream.last then 0 else Max(1, AttemptCap(cfg) - Failures(w.stream, e)))
  {
    var s, h := w.stream, w.stream.queue[0].event.sequence;
    var t := s.(renderFailures := s.renderFailures[h := Failures(s, h) + 1]);
    FinishFrame(Reconnect(t));
    var w' := Failing(cfg, w, transient);
    assert w'.stream.renderFailures == t.renderFailures;
    assert Failures(t, e) == if e == h then Failures(s, h) + 1 else Failures(s, e);
  }

  lemma RenderingStep(cfg: Config, w: World, a: Action, e: nat)
    requires WorkIsEntitled(w) && Enabled(w, a)
    requires a.RenderOk? || a.RenderFail?
    ensures Left(cfg, Step(cfg, w, a), e) + (if EndsHandling(w, a, e) then 1 else 0) <= Left(cfg, w, e)
  {
    if a.RenderFail? {
      FailingStep(cfg, w, a.transient, e);
    }
  }

  lemma SaveAfterRenderFails(cfg: Config, w: World, a: Action, e: nat)
    requires WorkIsEntitled(w) && Enabled(w, a) && a.SaveFail? && w.stream.work.purpose == AfterRender
    ensures Left(cfg, Step(cfg, w, a), e) <= Left(cfg, w, e)
  {
    FailingStep(cfg, w.(lost := w.lost + {w.stream.work.target}), a.transient, e);
  }

  lemma OtherSaveFails(cfg: Config, w: World, a: Action, e: nat)
    requires WorkIsEntitled(w) && Enabled(w, a) && a.SaveFail? && w.stream.work.purpose != AfterRender
    ensures Left(cfg, Step(cfg, w, a), e) <= Left(cfg, w, e) + (if LosesDeadLetter(w, a, e) then 1 else 0)
  {
    FinishFrame(Reconnect(w.stream));
    var w' := Step(cfg, w, a);
    assert w'.stream.renderFailures == w.stream.renderFailures && w'.stream.last == w.stream.last && w'.stream.work.NotStarted?;
  }

  /** Every step: what is left of `e` falls with each handling and rises only by a lost dead-letter write. */
  lemma LeftStep(cfg: Config, w: World, a: Action, e: nat)
    requires Valid(cfg, w) && Enabled(w, a)
    ensures Left(cfg, Step(cfg, w, a), e) + (if EndsHandling(w, a, e) then 1 else 0)
         <= Left(cfg, w, e) + (if LosesDeadLetter(w, a, e) then 1 else 0)
  {
    match a
    case Start => PreparingStep(cfg, w, a, e);
    case FetchOk(_) => PreparingStep(cfg, w, a, e);
    case FetchFail => PreparingStep(cfg, w, a, e);
    case SaveApplied => SavingStep(cfg, w, a, e);
    case SaveAnswered => SavingStep(cfg, w, a, e);
    case RenderOk => RenderingStep(cfg, w, a, e);
    case RenderFail(_) => RenderingStep(cfg, w, a, e);
    case SaveFail(_) =>
      if w.stream.work.purpose == AfterRender {
        SaveAfterRenderFails(cfg, w, a, e);
      } else {
        OtherSaveFails(cfg, w, a, e);
      }
    case _ => OuterStep(cfg, w, a, e);
  }

  // ----- Handlings are bounded -------------------------------------------------------------------

  /** How often a run handled event `e` to its end. */
  function Handlings(cfg: Config, w: World, actions: seq<Action>, e: nat): nat
    decreases |actions|
  {
    if actions == [] || !Enabled(w, actions[0]) then 0
    else
      (if EndsHandling(w, actions[0], e) then 1 else 0) + Handlings(cfg, Step(cfg, w, actions[0]), actions[1..], e)
  }

  /** How often a run lost the cursor write behind the dead-lettered event `e`. */
  function LostDeadLetters(cfg: Config, w: World, actions: seq<Action>, e: nat): nat
    decreases |actions|
  {
    if actions == [] || !Enabled(w, actions[0]) then 0
    else
      (if LosesDeadLetter(w, actions[0], e) then 1 else 0) + LostDeadLetters(cfg, Step(cfg, w, actions[0]), actions[1..], e)
  }

  lemma {:induction false} HandlingsUseUpBudget(cfg: Config, w: World, actions: seq<Action>, w': World, e: nat)
    requires Valid(cfg, w) && IsRun(cfg, w, actions, w')
    ensures Handlings(cfg, w, actions, e) + Left(cfg, w', e) <= Left(cfg, w, e) + LostDeadLetters(cfg, w, actions, e)
    ensures Valid(cfg, w')
    decreases |actions|
  {
    if actions != [] {
      LeftStep(cfg, w, actions[0], e);
      StepKeeps(cfg, w, actions[0]);
      HandlingsUseUpBudget(cfg, Step(cfg, w, actions[0]), actions[1..], w', e);
    }
  }

  /** Nothing at or below `floor` will ever be handled. */
  predicate IsAbove(w: World, floor: nat) {
    && floor <= w.stream.last <= w.stored
    && (w.stream.work.Saving? && w.reply.Some? ==> floor <= w.reply.value)
    && (w.stream.work.Rendering? ==> w.stream.queue != [] && floor < w.stream.queue[0].event.sequence)
  }

  /** The actions that are neither an outcome of the head task nor its start. */
  predicate LeavesHead(a: Action) {
    !a.Start? && !a.RenderOk? && !a.RenderFail? && !a.FetchOk? && !a.FetchFail? && !a.SaveApplied? && !a.SaveAnswered? && !a.SaveFail?
  }

  lemma HeadIsLeft(cfg: Config, w: World, a: Action)
    requires Enabled(w, a) && LeavesHead(a)
    ensures var w' := Step(cfg, w, a);
            && w'.stream.work == w.stream.work && w'.reply == w.reply && w.stored <= w'.stored && w.stream.last <= w'.stream.last
            && (w.stream.last <= w.stored ==> w'.stream.last <= w'.stored)
            && (w.stream.queue != [] ==> w'.stream.queue != [] && w'.stream.queue[0] == w.stream.queue[0])
  {
  }

  lemma AboveStep(cfg: Config, w: World, a: Action, floor: nat)
    requires WorkIsEntitled(w) && IsAbove(w, floor) && Enabled(w, a)
    ensures IsAbove(Step(cfg, w, a), floor)
  {
    match a
    case SaveFail(transient) => AboveAfterSaveFail(cfg, w, transient, floor);
    case RenderFail(transient) => AboveAfterFailing(cfg, w, transient, floor);
    case SaveAnswered => AboveAfterAnswer(cfg, w, floor);
    case Start => FinishFrame(w.stream);
    case FetchOk(_) => FinishFrame(w.stream);
    case FetchFail => FinishFrame(Reconnect(w.stream));
    case RenderOk =>
    case SaveApplied =>
    case _ => HeadIsLeft(cfg, w, a);
  }

  lemma AboveAfterFailing(cfg: Config, w: World, transient: bool, floor: nat)
    requires w.stream.queue != [] && floor <= w.stream.last <= w.stored
    ensures IsAbove(Failing(cfg, w, transient), floor)
  {
    var e := w.stream.queue[0].event.sequence;
    FinishFrame(Reconnect(w.stream.(renderFailures := w.stream.renderFailures[e := Failures(w.stream, e) + 1])));
  }

  lemma AboveAfterAnswer(cfg: Config, w: World, floor: nat)
    requires WorkIsEntitled(w) && IsAbove(w, floor) && Enabled(w, SaveAnswered)
    ensures IsAbove(Step(cfg, w, SaveAnswered), floor)
  {
    var s := w.stream;
    FinishFrame(s.(last := w.reply.value));
    FinishFrame(s.(last := w.reply.value, renderFailures := s.renderFailures - {s.queue[0].event.sequence}));
  }

  lemma AboveAfterSaveFail(cfg: Config, w: World, transient: bool, floor: nat)
    requires WorkIsEntitled(w) && IsAbove(w, floor) && Enabled(w, SaveFail(transient))
    ensures IsAbove(Step(cfg, w, SaveFail(transient)), floor)
  {
    AboveAfterFailing(cfg, w.(lost := w.lost + {w.stream.work.target}), transient, floor);
    FinishFrame(Reconnect(w.stream));
  }

  lemma {:induction false} NothingBelowIsHandled(cfg: Config, w: World, actions: seq<Action>, w': World, floor: nat, e: nat)
    requires Valid(cfg, w) && IsAbove(w, floor) && IsRun(cfg, w, actions, w') && e <= floor
    ensures Handlings(cfg, w, actions, e) == 0
    decreases |actions|
  {
    if actions != [] {
      AboveStep(cfg, w, actions[0], floor);
      StepKeeps(cfg, w, actions[0]);
      NothingBelowIsHandled(cfg, Step(cfg, w, actions[0]), actions[1..], w', floor, e);
    }
  }

  /**
   * In every run an event is handled at most max(1, maxRenderAttempts) times, however often the
   * stream reconnects and the log grows, plus once for each time the cursor write behind its dead
   * letter failed; after the last time the cursor is past it or being moved past it. Events at or
   * below the opening cursor are never handled.
   */
  lemma HandlingsAreBounded(cfg: Config, log: seq<nat>, cursor: nat, actions: seq<Action>, w: World, e: nat)
    requires cfg.maxQueueDepth >= 1 && Increasing(log) && IsRun(cfg, Opened(log, cursor), actions, w)
    ensures var handlings := Handlings(cfg, Opened(log, cursor), actions, e);
            var bound := AttemptCap(cfg) + LostDeadLetters(cfg, Opened(log, cursor), actions, e);
            && handlings <= bound
            && (e <= cursor ==> handlings == 0)
            && (handlings == bound ==> e <= w.stored || BeingSaved(w, e))
  {
    var w0 := Opened(log, cursor);
    OpenedIsValid(cfg, log, cursor);
    HandlingsUseUpBudget(cfg, w0, actions, w, e);
    if e <= cursor {
      NothingBelowIsHandled(cfg, w0, actions, w, cursor, e);
    }
  }

  // ----- All handlings together ------------------------------------------------------------------

  /** Handlings that the first `n` events of the log can still cause. */
  function Budget(cfg: Config, w: World, n: nat): nat
    requires n <= |w.log|
  {
    if n == 0 then 0 else Budget(cfg, w, n - 1) + Left(cfg, w, w.log[n - 1])
  }

  lemma {:induction false} BudgetBound(cfg: Config, w: World, n: nat)
    requires n <= |w.log|
    ensures Budget(cfg, w, n) <= n * AttemptCap(cfg)
  {
    if n > 0 {
      BudgetBound(cfg, w, n - 1);
      LeftBound(cfg, w, w.log[n - 1]);
      OneMore(n - 1, AttemptCap(cfg));
    }
  }

  /** The step spends `d` on event `e` and nothing is added elsewhere. */
  predicate IsSpentAt(cfg: Config, w: World, w': World, i: nat, e: nat, d: int)
    requires i < |w.log|
  {
    Left(cfg, w', w.log[i]) + (if w.log[i] == e then d else 0) <= Left(cfg, w, w.log[i])
  }

  ghost predicate Spends(cfg: Config, w: World, w': World, e: nat, d: int) {
    forall i :: 0 <= i < |w.log| ==> IsSpentAt(cfg, w, w', i, e, d)
  }

  /** What a step that spends `d` on `e` takes off the first `n` events. */
  function Spent(log: seq<nat>, e: nat, d: int, n: nat): int
    requires n <= |log|
  {
    if n == 0 then 0 else Spent(log, e, d, n - 1) + if log[n - 1] == e then d else 0
  }

  lemma {:induction false} BudgetFalls(cfg: Config, w: World, w': World, n: nat, e: nat, d: int)
    requires n <= |w.log| <= |w'.log| && w.log == w'.log[..|w.log|] && Spends(cfg, w, w', e, d)
    ensures Budget(cfg, w', n) + Spent(w.log, e, d, n) <= Budget(cfg, w, n)
  {
    if n > 0 {
      BudgetFalls(cfg, w, w', n - 1, e, d);
      assert w'.log[n - 1] == w.log[n - 1] && IsSpentAt(cfg, w, w', n - 1, e, d);
    }
  }

  /** An event of an increasing log is counted once. */
  lemma {:induction false} SpentOnce(log: seq<nat>, k: nat, d: int, n: nat)
    requires Increasing(log) && k < |log| && n <= |log|
    ensures Spent(log, log[k], d, n) == if k < n then d else 0
  {
    if n > 0 {
      SpentOnce(log, k, d, n - 1);
    }
  }

  lemma {:induction false} NothingSpent(log: seq<nat>, e: nat, n: nat)
    requires n <= |log|
    ensures Spent(log, e, 0, n) == 0
  {
    if n > 0 {
      NothingSpent(log, e, n - 1);
    }
  }

  predicate Handles(a: Action) {
    a.RenderOk? || a.RenderFail?
  }

  predicate LosesAny(w: World, a: Action) {
    a.SaveFail? && w.stream.work.Saving? && w.stream.work.purpose == AfterFailure
  }

  /** The event that a handling, or a lost dead letter, is about; it is in the log. */
  lemma HeadPosition(w: World, a: Action) returns (k: nat, e: nat)
    requires WorkIsEntitled(w) && Enabled(w, a) && (Handles(a) || LosesAny(w, a))
    ensures k < |w.log| && w.log[k] == e && w.stream.queue != [] && w.stream.queue[0].event.sequence == e
  {
    e := w.stream.queue[0].event.sequence;
    assert e in w.log;
    k :| 0 <= k < |w.log| && w.log[k] == e;
  }

  lemma LogOnlyGrows(cfg: Config, w: World, a: Action)
    requires Enabled(w, a)
    ensures var w' := Step(cfg, w, a);
            w'.log == (if a.AppendEvent? then w.log + [a.sequence] else w.log) && w.log == w'.log[..|w.log|]
  {
  }

  lemma SpendingStep(cfg: Config, w: World, a: Action, e: nat)
    requires Valid(cfg, w) && Enabled(w, a)
    requires Handles(a) || LosesAny(w, a) ==> w.stream.queue != [] && w.stream.queue[0].event.sequence == e
    ensures Spends(cfg, w, Step(cfg, w, a), e, Gain(w, a))
  {
    forall i | 0 <= i < |w.log| ensures IsSpentAt(cfg, w, Step(cfg, w, a), i, e, Gain(w, a)) {
      LeftStep(cfg, w, a, w.log[i]);
    }
  }

  /** A handling spends one, a lost dead letter gives one back. */
  function Gain(w: World, a: Action): int {
    if Handles(a) then 1 else if LosesAny(w, a) then -1 else 0
  }

  lemma BudgetStep(cfg: Config, w: World, a: Action)
    requires Valid(cfg, w) && Enabled(w, a)
    ensures |w.log| <= |Step(cfg, w, a).log|
    ensures Budget(cfg, Step(cfg, w, a), |w.log|) + Gain(w, a) <= Budget(cfg, w, |w.log|)
  {
    LogOnlyGrows(cfg, w, a);
    if Handles(a) || LosesAny(w, a) {
      var k, e := HeadPosition(w, a);
      SpendingStep(cfg, w, a, e);
      BudgetFalls(cfg, w, Step(cfg, w, a), |w.log|, e, Gain(w, a));
      SpentOnce(w.log, k, Gain(w, a), |w.log|);
    } else {
      SpendingStep(cfg, w, a, 0);
      BudgetFalls(cfg, w, Step(cfg, w, a), |w.log|, 0, 0);
      NothingSpent(w.log, 0, |w.log|);
    }
  }

  /** How many handlings a run brought to an end, over all events, less the dead letters it lost. */
  function NetHandlings(cfg: Config, w: World, actions: seq<Action>): int
    decreases |actions|
  {
    if actions == [] || !Enabled(w, actions[0]) then 0
    else Gain(w, actions[0]) + NetHandlings(cfg, Step(cfg, w, actions[0]), actions[1..])
  }

  lemma GrowingBudget(cfg: Config, w: World, w': World, gain: int)
    requires |w.log| <= |w'.log| <= |w.log| + 1 && Budget(cfg, w', |w.log|) + gain <= Budget(cfg, w, |w.log|)
    ensures gain + Budget(cfg, w', |w'.log|) + |w.log| * AttemptCap(cfg) <= Budget(cfg, w, |w.log|) + |w'.log| * AttemptCap(cfg)
  {
    if |w'.log| > |w.log| {
      LeftBound(cfg, w', w'.log[|w.log|]);
      OneMore(|w.log|, AttemptCap(cfg));
    }
  }

  lemma OneMore(n: nat, c: nat)
    ensures (n + 1) * c == n * c + c
  {
  }

  lemma LeftBound(cfg: Config, w: World, e: nat)
    ensures Left(cfg, w, e) <= AttemptCap(cfg)
  {
  }

  lemma {:induction false} HandlingsSpendBudget(cfg: Config, w: World, actions: seq<Action>, w': World)
    requires Valid(cfg, w) && IsRun(cfg, w, actions, w')
    ensures NetHandlings(cfg, w, actions) + Budget(cfg, w', |w'.log|) + |w.log| * AttemptCap(cfg)
         <= Budget(cfg, w, |w.log|) + |w'.log| * AttemptCap(cfg)
    decreases |actions|
  {
    if actions != [] {
      var a, w1 := actions[0], Step(cfg, w, actions[0]);
      BudgetStep(cfg, w, a);
      LogOnlyGrows(cfg, w, a);
      GrowingBudget(cfg, w, w1, Gain(w, a));
      StepKeeps(cfg, w, a);
      HandlingsSpendBudget(cfg, w1, actions[1..], w');
    }
  }

  /** In every run all handlings together are bounded by the final log, plus the dead letters lost. */
  lemma AllHandlingsAreBounded(cfg: Config, w: World, actions: seq<Action>, w': World)
    requires Valid(cfg, w) && IsRun(cfg, w, actions, w')
    ensures NetHandlings(cfg, w, actions) <= |w'.log| * AttemptCap(cfg)
  {
    HandlingsSpendBudget(cfg, w, actions, w');
    BudgetBound(cfg, w, |w.log|);
  }
}
