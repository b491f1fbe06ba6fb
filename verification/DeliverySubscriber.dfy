/**
 * The self-healing delivery subscription: it resubscribes after an error, a clean close or a quiet
 * spell, reports its health, and leaves no connection behind. Errors and closes may be reported by
 * any connection ever opened, deliveries only by one that has not been closed. An action that
 * cannot happen changes nothing.
 */
module DeliverySubscriber {
  import opened Wrappers

  /** `open` are the transport's connections that nobody has closed; `issued` numbers them. */
  datatype Subscriber = Subscriber(
    started: bool,
    closed: bool,
    subscription: Option<nat>,
    retryPending: bool,
    watchdogRunning: bool,
    retryAttempts: nat,
    healthy: bool,
    open: set<nat>,
    issued: nat)

  datatype Action = Start | Delivery(id: nat) | Lost(id: nat) | RetryFires | WatchdogFires(quiet: bool) | Close

  const Fresh := Subscriber(false, false, None, false, false, 0, false, {}, 0)

  predicate CanHappen(s: Subscriber, a: Action) {
    match a
    case Start => !s.started
    case Delivery(id) => id in s.open
    case Lost(id) => id < s.issued
    case RetryFires => s.retryPending
    case WatchdogFires(_) => s.watchdogRunning
    case Close => true
  }

  function Open(s: Subscriber): Subscriber {
    if s.closed then s
    else s.(subscription := Some(s.issued), open := s.open + {s.issued}, issued := s.issued + 1, healthy := true)
  }

  function DropSubscription(s: Subscriber): Subscriber {
    s.(subscription := None, open := if s.subscription.Some? then s.open - {s.subscription.value} else s.open)
  }

  function ScheduleRetry(s: Subscriber): Subscriber {
    if s.closed || s.retryPending then s else s.(retryPending := true, retryAttempts := s.retryAttempts + 1)
  }

  function Reconnect(s: Subscriber): Subscriber {
    if s.closed then s else ScheduleRetry(DropSubscription(s.(healthy := false)))
  }

  function OnDelivery(s: Subscriber): Subscriber {
    s.(retryAttempts := 0, healthy := true)
  }

  function OnWatchdog(s: Subscriber, quiet: bool): Subscriber {
    if s.closed || s.retryPending || s.subscription.None? || !quiet then s else Open(DropSubscription(s))
  }

  function Shut(s: Subscriber): Subscriber {
    DropSubscription(s.(closed := true, retryPending := false, watchdogRunning := false))
  }

  function OnStart(s: Subscriber): Subscriber {
    if s.closed then s.(started := true) else Open(s.(started := true)).(watchdogRunning := true)
  }

  function Step(s: Subscriber, a: Action): Subscriber {
    if !CanHappen(s, a) then s
    else
      match a
      case Start => OnStart(s)
      case Delivery(_) => OnDelivery(s)
      case Lost(_) => Reconnect(s)
      case RetryFires => Open(s.(retryPending := false))
      case WatchdogFires(quiet) => OnWatchdog(s, quiet)
      case Close => Shut(s)
  }

  function At(actions: seq<Action>, k: nat): Subscriber
    requires k <= |actions|
  {
    if k == 0 then Fresh else Step(At(actions, k - 1), actions[k - 1])
  }

  /** Exactly one of a live subscription and a pending retry; the flag tells which; nothing leaks. */
  predicate IsRunningWell(s: Subscriber) {
    && (s.subscription.Some? <==> !s.retryPending)
    && s.healthy == s.subscription.Some?
    && s.watchdogRunning
  }

  predicate Valid(s: Subscriber) {
    && s.open == (if s.subscription.Some? then {s.subscription.value} else {})
    && (s.subscription.Some? ==> s.subscription.value < s.issued)
    && (!s.started ==> s.issued == 0)
    && (s.started && !s.closed ==> IsRunningWell(s))
    && (!s.started || s.closed ==> s.subscription.None? && !s.retryPending && !s.watchdogRunning)
  }

  lemma StepKeeps(s: Subscriber, a: Action)
    requires Valid(s)
    ensures Valid(Step(s, a))
  {
  }

  /** In every run, at every moment. */
  lemma {:induction false} RunKeeps(actions: seq<Action>, k: nat)
    requires k <= |actions|
    ensures Valid(At(actions, k))
  {
    if k > 0 {
      RunKeeps(actions, k - 1);
      StepKeeps(At(actions, k - 1), actions[k - 1]);
    }
  }

  /** Once closed it stays closed: no connection, no timer, nothing opened ever after. */
  lemma {:induction false} ClosedForGood(actions: seq<Action>, i: nat, k: nat)
    requires i <= k <= |actions| && At(actions, i).closed
    ensures var s := At(actions, k);
            s.closed && s.open == {} && !s.retryPending && !s.watchdogRunning && s.issued == At(actions, i).issued
    decreases k
  {
    RunKeeps(actions, k);
    if i < k {
      ClosedForGood(actions, i, k - 1);
    }
  }

  /** A connection that was replaced or dropped is never heard from again. */
  lemma {:induction false} DroppedStaysDropped(actions: seq<Action>, i: nat, k: nat, id: nat)
    requires i <= k <= |actions| && id < At(actions, i).issued && id !in At(actions, i).open
    ensures id !in At(actions, k).open && id < At(actions, k).issued
    decreases k
  {
    if i < k {
      DroppedStaysDropped(actions, i, k - 1, id);
    }
  }

  // ----- What each callback brings about ---------------------------------------------------------

  /** The subscriber was started and not yet closed, told by the actions alone. */
  ghost predicate IsRunning(actions: seq<Action>, k: nat)
    requires k <= |actions|
  {
    Start in actions[..k] && Close !in actions[..k]
  }

  lemma {:induction false} FlagsAreTold(actions: seq<Action>, k: nat)
    requires k <= |actions|
    ensures At(actions, k).started <==> Start in actions[..k]
    ensures At(actions, k).closed <==> Close in actions[..k]
  {
    if k > 0 {
      FlagsAreTold(actions, k - 1);
      assert actions[..k] == actions[..k - 1] + [actions[k - 1]];
    }
  }

  /** The step replaced whatever was open by one connection that was never used before. */
  predicate IsFreshlyOpen(s: Subscriber, s': Subscriber) {
    s'.issued == s.issued + 1 && s'.subscription == Some(s.issued) && s'.open == {s.issued} && s'.healthy && !s'.retryPending
  }

  /**
   * While it runs: a loss reported by any connection, even an old one, leaves nothing open and a
   * retry pending; a retry and a quiet spell of the open connection open a new one; a spell that is
   * not quiet, or one that comes while a retry is pending, changes nothing; a delivery keeps the
   * connection and starts the retries from zero. The first start of an unclosed subscriber opens.
   */
  lemma CallbackHeals(actions: seq<Action>, k: nat)
    requires k < |actions|
    ensures var s, s' := At(actions, k), At(actions, k + 1);
            && (actions[k] == Start && Start !in actions[..k] && Close !in actions[..k] ==> IsFreshlyOpen(s, s'))
            && (IsRunning(actions, k) ==>
                  match actions[k]
                  case Lost(id) =>
                    if id < s.issued then s'.open == {} && s'.subscription.None? && s'.retryPending && !s'.healthy && s'.issued == s.issued
                    else s' == s
                  case RetryFires => if s.retryPending then IsFreshlyOpen(s, s') && s'.retryAttempts == s.retryAttempts else s' == s
                  case WatchdogFires(quiet) =>
                    if quiet && s.open != {} then IsFreshlyOpen(s, s') && s'.retryAttempts == s.retryAttempts else s' == s
                  case Delivery(id) =>
                    if id in s.open then s' == s.(retryAttempts := 0) else s' == s
                  case Start => s' == s
                  case Close => s'.open == {})
  {
    RunKeeps(actions, k);
    FlagsAreTold(actions, k);
  }

  /** The step lost the connection that was open. */
  predicate LosesConnection(s: Subscriber, s': Subscriber) {
    !s.retryPending && s'.retryPending
  }

  /** Losses before `k` since the last delivery. */
  function LossCount(actions: seq<Action>, k: nat): nat
    requires k <= |actions|
  {
    if k == 0 then 0
    else if LosesConnection(At(actions, k - 1), At(actions, k)) then LossCount(actions, k - 1) + 1
    else if actions[k - 1].Delivery? && actions[k - 1].id in At(actions, k - 1).open then 0
    else LossCount(actions, k - 1)
  }

  /** The number that the retry delay grows with is the number of losses since the last delivery. */
  lemma {:induction false} AttemptsCountLosses(actions: seq<Action>, k: nat)
    requires k <= |actions|
    ensures At(actions, k).retryAttempts == LossCount(actions, k)
  {
    if k > 0 {
      AttemptsCountLosses(actions, k - 1);
    }
  }

  /**
   * The flag relies on closed connections being silent: a delivery callback leaves it right exactly
   * when a subscription is open, so one that arrives late, during a retry, leaves it wrong.
   */
  lemma LateDeliveryMisleads(s: Subscriber)
    requires Valid(s) && s.started && !s.closed
    ensures IsRunningWell(OnDelivery(s)) <==> s.subscription.Some?
  {
  }

  /** It happens: after a start and a lost connection, a delivery of that connection sets the flag with nothing open. */
  lemma LateDeliveryRun()
    ensures var s := At([Start, Lost(0)], 2);
            && s.started && !s.closed && s.subscription.None? && s.retryPending && !s.healthy && 0 < s.issued && 0 !in s.open
            && OnDelivery(s).healthy && OnDelivery(s).subscription.None? && !IsRunningWell(OnDelivery(s))
  {
    var actions := [Start, Lost(0)];
    assert At(actions, 0) == Fresh;
    assert At(actions, 1) == Fresh.(started := true, subscription := Some(0), open := {0}, issued := 1, healthy := true, watchdogRunning := true);
    assert At(actions, 2).open == {};
  }

  class SubscriberState {
    var started: bool
    var closed: bool
    var subscription: Option<nat>
    var retryPending: bool
    var watchdogRunning: bool
    var retryAttempts: nat
    var healthy: bool
    ghost var connections: set<nat>
    var issued: nat

    ghost function View(): Subscriber
      reads this
    {
      Subscriber(started, closed, subscription, retryPending, watchdogRunning, retryAttempts, healthy, connections, issued)
    }

    constructor ()
      ensures View() == Fresh
    {
      started, closed, subscription, retryPending, watchdogRunning := false, false, None, false, false;
      retryAttempts, healthy, connections, issued := 0, false, {}, 0;
    }

    method OpenSubscription()
      modifies this
      ensures View() == Open(old(View()))
    {
      if closed {
        return;
      }
      subscription := Some(issued);
      connections := connections + {issued};
      issued := issued + 1;
      healthy := true;
    }

    method CloseSubscription()
      modifies this
      ensures View() == DropSubscription(old(View()))
    {
      if subscription.Some? {
        connections := connections - {subscription.value};
      }
      subscription := None;
    }

    method ScheduleRetryTimer()
      modifies this
      ensures View() == ScheduleRetry(old(View()))
    {
      if closed || retryPending {
        return;
      }
      retryAttempts := retryAttempts + 1;
      retryPending := true;
    }

    method OnErrorOrClose(id: nat)
      requires id < issued
      modifies this
      ensures View() == Step(old(View()), Lost(id))
    {
      if closed {
        return;
      }
      healthy := false;
      CloseSubscription();
      ScheduleRetryTimer();
    }

    method OnDeliveryReceived(id: nat)
      requires id in connections
      modifies this
      ensures View() == Step(old(View()), Delivery(id))
    {
      retryAttempts := 0;
      healthy := true;
    }

    method OnRetryTimer()
      requires retryPending
      modifies this
      ensures View() == Step(old(View()), RetryFires)
    {
      retryPending := false;
      OpenSubscription();
    }

    method OnWatchdogTimer(quiet: bool)
      requires watchdogRunning
      modifies this
      ensures View() == Step(old(View()), WatchdogFires(quiet))
    {
      if closed || retryPending || subscription.None? {
        return;
      }
      if quiet {
        CloseSubscription();
        OpenSubscription();
      }
    }

    method StartOnce()
      requires !started
      modifies this
      ensures View() == Step(old(View()), Start)
    {
      started := true;
      if closed {
        return;
      }
      OpenSubscription();
      watchdogRunning := true;
    }

    method Stop()
      modifies this
      ensures View() == Step(old(View()), Close)
    {
      closed := true;
      retryPending := false;
      watchdogRunning := false;
      CloseSubscription();
    }
  }
}
