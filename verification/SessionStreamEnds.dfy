/**
 * Where a stream ends up. Its own steps, in any order and with any outcome of renders and snapshot
 * fetches, sink a measure; when none is possible, the stored cursor is at or past every event of
 * the log. Only new connection errors, failed cursor writes and outside deliveries are excluded.
 */
module SessionStreamEnds {
  import opened Wrappers
  import opened Sequences
  import opened SessionStream
  import opened SessionStreamProgress

  /** What the stream does by itself, while the connection holds and cursor writes get through. */
  predicate IsOwn(a: Action) {
    || a.Deliver? || a.Timer? || a.Start? || a.RenderOk? || a.RenderFail? || a.FetchOk? || a.FetchFail?
    || a.SaveApplied? || a.SaveAnswered?
  }

  ghost predicate IsCaughtUp(w: World) {
    forall i :: 0 <= i < |w.log| ==> w.log[i] <= w.stored
  }

  // ----- At rest ---------------------------------------------------------------------------------

  /** The next step of a stream that meets no further fault. */
  function FaultFree(w: World): Action {
    var s := w.stream;
    if s.queue != [] then
      match s.work
      case NotStarted => Start
      case Rendering => RenderOk
      case Fetching => FetchOk(0)
      case Saving(_, _) => if w.reply.None? then SaveApplied else SaveAnswered
    else if s.retryPending then Timer
    else Deliver
  }

  /** With an empty queue and everything delivered, the stored cursor is past everything. */
  lemma DrainedIsCaughtUp(cfg: Config, w: World)
    requires Valid(cfg, w) && !w.stream.closed && w.stream.queue == [] && !w.stream.retryPending && w.next >= |w.log|
    ensures IsCaughtUp(w)
  {
    assert forall i :: 0 <= i < w.next && i < |w.log| ==> BehindOrQueued(w, w.log[i]);
  }

  /** An open stream that is not caught up can go on, even without a fault. */
  lemma CanGoOn(cfg: Config, w: World)
    requires Valid(cfg, w) && !w.stream.closed && !IsCaughtUp(w)
    ensures Enabled(w, FaultFree(w)) && IsOwn(FaultFree(w))
  {
    if w.stream.queue == [] && !w.stream.retryPending && w.next >= |w.log| {
      DrainedIsCaughtUp(cfg, w);
    }
  }

  /** When nothing of its own is possible, the stored cursor is at or past the last event. */
  lemma RestMeansCaughtUp(cfg: Config, w: World)
    requires Valid(cfg, w) && !w.stream.closed && forall a :: IsOwn(a) ==> !Enabled(w, a)
    ensures IsCaughtUp(w)
  {
    if !IsCaughtUp(w) {
      CanGoOn(cfg, w);
    }
  }

  // ----- The measure -----------------------------------------------------------------------------

  /** The cursor is past the event, or its write is under way. */
  predicate IsPast(w: World, e: nat) {
    BeingSaved(w, e) || e <= Settled(w)
  }

  /** A task that will leave the queue without a render. */
  predicate IsIdle(w: World, t: Task) {
    t.generation != w.stream.generation || t.event.SnapshotRequired? || IsPast(w, t.event.sequence)
  }

  function IdleTasks(w: World, tasks: seq<Task>): nat {
    if tasks == [] then 0 else (if IsIdle(w, tasks[0]) then 1 else 0) + IdleTasks(w, tasks[1..])
  }

  function SnapshotTasks(tasks: seq<Task>): nat {
    if tasks == [] then 0 else (if tasks[0].event.SnapshotRequired? then 1 else 0) + SnapshotTasks(tasks[1..])
  }

  /** Events from position `n` of the log on that are past already. */
  function PastEvents(w: World, n: nat): nat
    decreases |w.log| - n
  {
    if n >= |w.log| then 0 else (if IsPast(w, w.log[n]) then 1 else 0) + PastEvents(w, n + 1)
  }

  /** Handlings that can still come, and snapshots that can still fail. */
  function Chances(cfg: Config, w: World): nat {
    Budget(cfg, w, |w.log|) + SnapshotTasks(w.stream.queue)
  }

  function Retries(w: World): nat {
    if w.stream.retryPending then 1 else 0
  }

  /** Tasks, queued or yet to be delivered, that will come to nothing. */
  function IdleLoad(w: World): nat {
    IdleTasks(w, w.stream.queue) + if w.stream.subscription.Some? then PastEvents(w, w.next) else 0
  }

  function Room(w: World): nat {
    if w.stream.overflowing then 1 else 2
  }

  function Undelivered(w: World): nat {
    if w.stream.subscription.Some? then Max(0, |w.log| - w.next) else 0
  }

  function Stage(w: World): nat {
    match w.stream.work
    case NotStarted => 3
    case Rendering => 2
    case Fetching => 2
    case Saving(_, _) => if w.reply.None? then 1 else 0
  }

  /** Lexicographically lower. */
  predicate Sinks(cfg: Config, w: World, w': World) {
    || Chances(cfg, w') < Chances(cfg, w)
    || (Chances(cfg, w') == Chances(cfg, w) && SinksInRetries(w, w'))
  }

  predicate SinksInRetries(w: World, w': World) {
    Retries(w') < Retries(w) || (Retries(w') == Retries(w) && SinksInLoad(w, w'))
  }

  predicate SinksInLoad(w: World, w': World) {
    IdleLoad(w') < IdleLoad(w) || (IdleLoad(w') == IdleLoad(w) && SinksInRoom(w, w'))
  }

  predicate SinksInRoom(w: World, w': World) {
    Room(w') < Room(w) || (Room(w') == Room(w) && SinksInDeliveries(w, w'))
  }

  predicate SinksInDeliveries(w: World, w': World) {
    Undelivered(w') < Undelivered(w) || (Undelivered(w') == Undelivered(w) && SinksInQueue(w, w'))
  }

  predicate SinksInQueue(w: World, w': World) {
    |w'.stream.queue| < |w.stream.queue| || (|w'.stream.queue| == |w.stream.queue| && Stage(w') < Stage(w))
  }

  // ----- Counting --------------------------------------------------------------------------------

  lemma {:induction false} IdleAppend(w: World, tasks: seq<Task>, t: Task)
    ensures IdleTasks(w, tasks + [t]) == IdleTasks(w, tasks) + if IsIdle(w, t) then 1 else 0
    ensures SnapshotTasks(tasks + [t]) == SnapshotTasks(tasks) + if t.event.SnapshotRequired? then 1 else 0
  {
    if tasks == [] {
      assert [t][1..] == [];
    } else {
      IdleAppend(w, tasks[1..], t);
      assert (tasks + [t])[1..] == tasks[1..] + [t];
    }
  }

  ghost predicate StaysBusy(w: World, w': World, t: Task) {
    IsIdle(w', t) ==> IsIdle(w, t)
  }

  lemma {:induction false} IdleTasksStay(w: World, w': World, tasks: seq<Task>)
    requires forall i :: 0 <= i < |tasks| ==> StaysBusy(w, w', tasks[i])
    ensures IdleTasks(w', tasks) <= IdleTasks(w, tasks)
  {
    if tasks != [] {
      assert forall i :: 0 <= i < |tasks[1..]| ==> tasks[1..][i] == tasks[i + 1];
      IdleTasksStay(w, w', tasks[1..]);
      assert StaysBusy(w, w', tasks[0]);
    }
  }

  ghost predicate StaysAhead(w: World, w': World, i: nat)
    requires i < |w.log|
  {
    IsPast(w', w.log[i]) ==> IsPast(w, w.log[i])
  }

  /** No event of the log is newly past. */
  ghost predicate NoneNewlyPast(w: World, w': World) {
    forall i :: 0 <= i < |w.log| ==> StaysAhead(w, w', i)
  }

  lemma {:induction false} PastEventsStay(w: World, w': World, n: nat)
    requires w'.log == w.log && NoneNewlyPast(w, w')
    ensures PastEvents(w', n) <= PastEvents(w, n)
    decreases |w.log| - n
  {
    if n < |w.log| {
      PastEventsStay(w, w', n + 1);
      assert StaysAhead(w, w', n);
    }
  }

  lemma {:induction false} NoPastEvents(w: World, n: nat)
    requires forall i :: n <= i < |w.log| ==> !IsPast(w, w.log[i])
    ensures PastEvents(w, n) == 0
    decreases |w.log| - n
  {
    if n < |w.log| {
      NoPastEvents(w, n + 1);
    }
  }

  lemma {:induction false} CountsAreBounded(w: World, tasks: seq<Task>, n: nat)
    ensures IdleTasks(w, tasks) <= |tasks|
    ensures PastEvents(w, n) <= |w.log|
    ensures n <= |w.log| ==> PastEvents(w, n) <= |w.log| - n
    decreases |tasks| + if n < |w.log| then |w.log| - n else 0
  {
    if tasks != [] {
      CountsAreBounded(w, tasks[1..], n);
    } else if n < |w.log| {
      CountsAreBounded(w, tasks, n + 1);
    }
  }

  // ----- Every own step sinks the measure ----------------------------------------------------------

  lemma OwnFrame(cfg: Config, w: World, a: Action)
    requires IsOwn(a) && Enabled(w, a)
    ensures Step(cfg, w, a).log == w.log && Step(cfg, w, a).stream.closed == w.stream.closed
  {
  }

  /** Handlings that can still come do not get more, and each handling is one less. */
  lemma ChancesFall(cfg: Config, w: World, a: Action)
    requires Valid(cfg, w) && IsOwn(a) && Enabled(w, a)
    ensures Budget(cfg, Step(cfg, w, a), |Step(cfg, w, a).log|) + (if Handles(a) then 1 else 0) <= Budget(cfg, w, |w.log|)
  {
    BudgetStep(cfg, w, a);
    OwnFrame(cfg, w, a);
  }

  /** The head leaves the queue or the queue stays. */
  lemma HandlingSinks(cfg: Config, w: World, a: Action)
    requires Valid(cfg, w) && Enabled(w, a) && (Handles(a) || a.FetchFail?)
    ensures Sinks(cfg, w, Step(cfg, w, a))
  {
    ChancesFall(cfg, w, a);
    var s, w' := w.stream, Step(cfg, w, a);
    assert w'.stream.queue == s.queue || w'.stream.queue == s.queue[1..];
    assert a.FetchFail? ==> w'.stream.queue == s.queue[1..] && s.queue[0].event.SnapshotRequired?;
  }

  lemma TimerSinks(cfg: Config, w: World)
    requires Valid(cfg, w) && Enabled(w, Timer)
    ensures Sinks(cfg, w, Step(cfg, w, Timer))
  {
    ChancesFall(cfg, w, Timer);
    assert Step(cfg, w, Timer).stream.queue == w.stream.queue;
  }

  /** A delivery only adds to or keeps the queue, and moves on in the log. */
  lemma DeliverEffect(cfg: Config, w: World)
    requires Enabled(w, Deliver)
    ensures var s, s' := w.stream, Step(cfg, w, Deliver).stream;
            && Step(cfg, w, Deliver).next == w.next + 1 && Step(cfg, w, Deliver).reply == w.reply
            && s'.last == s.last && s'.generation == s.generation && s'.subscription == s.subscription
            && s'.retryPending == s.retryPending && s'.work == s.work
            && (|| (s'.queue == s.queue && s'.overflowing)
                || (s'.queue == s.queue + [Task(Plain(w.log[w.next]), s.generation)] && s'.overflowing == s.overflowing))
            && (s.overflowing ==> s'.overflowing)
  {
  }

  lemma DeliverSinks(cfg: Config, w: World)
    requires Valid(cfg, w) && Enabled(w, Deliver)
    ensures Sinks(cfg, w, Step(cfg, w, Deliver))
  {
    var w' := Step(cfg, w, Deliver);
    ChancesFall(cfg, w, Deliver);
    OwnFrame(cfg, w, Deliver);
    DeliverEffect(cfg, w);
    assert forall e: nat :: IsPast(w', e) == IsPast(w, e);
    SamePast(w, w', w.stream.queue, w.next + 1);
    IdleAppend(w, w.stream.queue, Task(Plain(w.log[w.next]), w.stream.generation));
    SamePast(w, w', w'.stream.queue, w.next + 1);
  }

  lemma SamePast(w: World, w': World, tasks: seq<Task>, n: nat)
    requires w'.log == w.log && w'.stream.generation == w.stream.generation && forall e: nat :: IsPast(w', e) == IsPast(w, e)
    ensures IdleTasks(w', tasks) == IdleTasks(w, tasks) && PastEvents(w', n) == PastEvents(w, n)
  {
    assert forall t :: IsIdle(w', t) == IsIdle(w, t);
    assert forall i :: 0 <= i < |tasks| ==> StaysBusy(w, w', tasks[i]) && StaysBusy(w', w, tasks[i]);
    IdleTasksStay(w, w', tasks);
    IdleTasksStay(w', w, tasks);
    assert forall i :: 0 <= i < |w.log| ==> StaysAhead(w, w', i) && StaysAhead(w', w, i);
    PastEventsStay(w, w', n);
    PastEventsStay(w', w, n);
  }

  /** A subscription opened just now delivers nothing that is past. */
  ghost predicate IsFreshlyOpened(w: World) {
    w.stream.subscription.Some? && w.stream.queue == [] && w.stream.work.NotStarted? && w.next == StartAfter(w.log, w.stream.last)
  }

  ghost predicate SameSubscription(w: World, w': World) {
    w'.stream.generation == w.stream.generation && w'.stream.subscription == w.stream.subscription && w'.next == w.next
  }

  lemma FreshHasNoLoad(w: World)
    requires IsFreshlyOpened(w) && Increasing(w.log)
    ensures IdleLoad(w) == 0
  {
    StartAfterIsExact(w.log, w.stream.last);
    NoPastEvents(w, w.next);
  }

  /** An idle head that leaves makes the load smaller. */
  lemma DroppedHeadSinks(w: World, w': World)
    requires w.stream.queue != [] && IsIdle(w, w.stream.queue[0]) && Increasing(w.log) && w'.log == w.log
    requires w'.stream.queue == w.stream.queue[1..]
    requires IsFreshlyOpened(w') || (SameSubscription(w, w') && NoneNewlyPast(w, w'))
    requires forall t :: t in w.stream.queue && t.generation == w.stream.generation && t.event.Plain? ==> t.event.sequence in w.log
    ensures IdleLoad(w') < IdleLoad(w)
  {
    if IsFreshlyOpened(w') {
      FreshHasNoLoad(w');
    } else {
      var rest := w'.stream.queue;
      forall i | 0 <= i < |rest| ensures StaysBusy(w, w', rest[i]) {
        var t := rest[i];
        assert t == w.stream.queue[i + 1] && t in w.stream.queue;
        if t.generation == w.stream.generation && t.event.Plain? {
          var k :| 0 <= k < |w.log| && w.log[k] == t.event.sequence;
          assert StaysAhead(w, w', k);
        }
      }
      IdleTasksStay(w, w', rest);
      PastEventsStay(w, w', w.next);
    }
  }

  /** What finishing the head does to the subscription. */
  lemma FinishEffect(w: World, s: Stream)
    requires s.queue != [] && s.generation == w.stream.generation && s.subscription == w.stream.subscription
    ensures var w' := With(w, Finish(s));
            && w'.stream.queue == s.queue[1..] && w'.stream.retryPending == s.retryPending && w'.stream.last == s.last
            && w'.stream.work.NotStarted? && w'.log == w.log
            && (IsFreshlyOpened(w') || SameSubscription(w, w'))
  {
  }

  lemma QueueIsLogged(cfg: Config, w: World)
    requires Valid(cfg, w) && !w.stream.closed
    ensures forall t :: t in w.stream.queue && t.generation == w.stream.generation && t.event.Plain? ==> t.event.sequence in w.log
  {
  }

  lemma StartSinks(cfg: Config, w: World)
    requires Valid(cfg, w) && !w.stream.closed && Enabled(w, Start)
    ensures Sinks(cfg, w, Step(cfg, w, Start))
  {
    var s, w' := w.stream, Step(cfg, w, Start);
    ChancesFall(cfg, w, Start);
    if Begin(s) == Finish(s) {
      DropSinks(cfg, w, w');
    } else {
      assert w'.stream == s.(work := w'.stream.work) && w'.log == w.log && w'.next == w.next;
      SamePast(w, w', s.queue, w.next);
    }
  }

  /** The head is dropped without having been worked on, or as a snapshot with nothing new. */
  lemma DropSinks(cfg: Config, w: World, w': World)
    requires Valid(cfg, w) && !w.stream.closed && w.stream.queue != [] && IsIdle(w, w.stream.queue[0]) && !w.stream.work.Saving?
    requires w' == With(w, Finish(w.stream)) || w' == With(w.(reply := None), Finish(w.stream))
    requires Budget(cfg, w', |w'.log|) <= Budget(cfg, w, |w.log|)
    ensures Sinks(cfg, w, w')
  {
    FinishEffect(w, w.stream);
    FinishEffect(w.(reply := None), w.stream);
    QueueIsLogged(cfg, w);
    assert Settled(w') == Settled(w);
    assert forall i :: 0 <= i < |w.log| ==> StaysAhead(w, w', i);
    DroppedHeadSinks(w, w');
  }

  lemma FetchOkSinks(cfg: Config, w: World, projection: nat)
    requires Valid(cfg, w) && !w.stream.closed && Enabled(w, FetchOk(projection))
    ensures Sinks(cfg, w, Step(cfg, w, FetchOk(projection)))
  {
    var s, w' := w.stream, Step(cfg, w, FetchOk(projection));
    ChancesFall(cfg, w, FetchOk(projection));
    if SnapshotTarget(s, projection) <= s.last {
      DropSinks(cfg, w, w');
    } else {
      assert w'.stream == s.(work := w'.stream.work) && w'.log == w.log && w'.next == w.next && w'.reply.None?;
      SamePast(w, w', s.queue, w.next);
    }
  }

  lemma SaveAppliedSinks(cfg: Config, w: World)
    requires Valid(cfg, w) && Enabled(w, SaveApplied)
    ensures Sinks(cfg, w, Step(cfg, w, SaveApplied))
  {
    var w' := Step(cfg, w, SaveApplied);
    ChancesFall(cfg, w, SaveApplied);
    assert w'.stream == w.stream && w'.log == w.log && w'.next == w.next;
    SamePast(w, w', w.stream.queue, w.next);
  }

  /** If an event becomes past by an answer, it was worth a handling before. */
  lemma NewlyPastWasWorth(cfg: Config, w: World, i: nat)
    requires Valid(cfg, w) && Enabled(w, SaveAnswered) && i < |w.log| && !StaysAhead(w, Step(cfg, w, SaveAnswered), i)
    ensures Left(cfg, Step(cfg, w, SaveAnswered), w.log[i]) < Left(cfg, w, w.log[i])
  {
    var s := w.stream;
    FinishFrame(s.(last := w.reply.value));
    FinishFrame(s.(last := w.reply.value, renderFailures := s.renderFailures - {s.queue[0].event.sequence}));
  }

  lemma AnswerSpends(cfg: Config, w: World, i: nat)
    requires Valid(cfg, w) && Enabled(w, SaveAnswered) && i < |w.log| && !StaysAhead(w, Step(cfg, w, SaveAnswered), i)
    ensures Budget(cfg, Step(cfg, w, SaveAnswered), |w.log|) < Budget(cfg, w, |w.log|)
  {
    var w' := Step(cfg, w, SaveAnswered);
    OwnFrame(cfg, w, SaveAnswered);
    forall k | 0 <= k < |w.log| ensures IsSpentAt(cfg, w, w', k, w.log[i], 1) {
      if w.log[k] == w.log[i] {
        NewlyPastWasWorth(cfg, w, i);
      } else {
        LeftStep(cfg, w, SaveAnswered, w.log[k]);
      }
    }
    BudgetFalls(cfg, w, w', |w.log|, w.log[i], 1);
    SpentOnce(w.log, i, 1, |w.log|);
  }

  lemma AnswerEffect(cfg: Config, w: World)
    requires Enabled(w, SaveAnswered)
    ensures var s, w' := w.stream, Step(cfg, w, SaveAnswered);
            && w'.stream.queue == s.queue[1..] && w'.stream.retryPending == s.retryPending && w'.log == w.log
            && (IsFreshlyOpened(w') || SameSubscription(w, w'))
  {
    var s := w.stream;
    var failures := if s.work.purpose == AfterSnapshot then s.renderFailures else s.renderFailures - {s.queue[0].event.sequence};
    FinishEffect(w.(reply := None), s.(last := w.reply.value, renderFailures := failures));
  }

  lemma SaveAnsweredSinks(cfg: Config, w: World)
    requires Valid(cfg, w) && !w.stream.closed && Enabled(w, SaveAnswered)
    ensures Sinks(cfg, w, Step(cfg, w, SaveAnswered))
  {
    var w' := Step(cfg, w, SaveAnswered);
    ChancesFall(cfg, w, SaveAnswered);
    AnswerEffect(cfg, w);
    if NoneNewlyPast(w, w') {
      QueueIsLogged(cfg, w);
      DroppedHeadSinks(w, w');
    } else {
      var i :| 0 <= i < |w.log| && !StaysAhead(w, w', i);
      AnswerSpends(cfg, w, i);
    }
  }

  /** Every own step, whatever its outcome, sinks the measure. */
  lemma OwnStepSinks(cfg: Config, w: World, a: Action)
    requires Valid(cfg, w) && !w.stream.closed && IsOwn(a) && Enabled(w, a)
    ensures Sinks(cfg, w, Step(cfg, w, a))
  {
    match a
    case Deliver => DeliverSinks(cfg, w);
    case Timer => TimerSinks(cfg, w);
    case Start => StartSinks(cfg, w);
    case FetchOk(projection) => FetchOkSinks(cfg, w, projection);
    case SaveApplied => SaveAppliedSinks(cfg, w);
    case SaveAnswered => SaveAnsweredSinks(cfg, w);
    case _ => HandlingSinks(cfg, w, a);
  }

  // ----- Whole runs ------------------------------------------------------------------------------

  /** One more digit below `a`, with base `n`. */
  lemma DigitSinks(a: nat, b: nat, a': nat, b': nat, n: nat)
    requires b < n && b' < n && (a' < a || (a' == a && b' < b))
    ensures a' * n + b' < a * n + b
  {
    if a' < a {
      MultipleBelow(a', a, n);
    }
  }

  lemma {:induction false} MultipleBelow(a': nat, a: nat, n: nat)
    requires a' < a
    ensures a' * n + n <= a * n
  {
    OneMore(a - 1, n);
    if a' < a - 1 {
      MultipleBelow(a', a - 1, n);
    }
  }

  function Digits(high: nat, low: nat, base: nat): nat {
    high * base + low
  }

  function QueueRank(w: World, high: nat, depth: nat): nat {
    Digits(Digits(high, |w.stream.queue|, depth + 1), Stage(w), 4)
  }

  function LoadRank(w: World, high: nat, depth: nat): nat {
    QueueRank(w, Digits(Digits(Digits(high, IdleLoad(w), depth + |w.log| + 1), Room(w), 3), Undelivered(w), |w.log| + 1), depth)
  }

  /** The measure as one number, for a queue bound and a log that stay fixed. */
  function Rank(cfg: Config, w: World): nat {
    LoadRank(w, Digits(Chances(cfg, w), Retries(w), 2), cfg.maxQueueDepth)
  }

  lemma QueueRankSinks(w: World, w': World, high: nat, high': nat, depth: nat)
    requires |w.stream.queue| <= depth && |w'.stream.queue| <= depth
    requires high' < high || (high' == high && SinksInQueue(w, w'))
    ensures QueueRank(w', high', depth) < QueueRank(w, high, depth)
  {
    var q, q' := |w.stream.queue|, |w'.stream.queue|;
    if high' < high || q' < q {
      DigitSinks(high, q, high', q', depth + 1);
    }
    DigitSinks(Digits(high, q, depth + 1), Stage(w), Digits(high', q', depth + 1), Stage(w'), 4);
  }

  lemma LoadIsBounded(w: World, depth: nat)
    requires |w.stream.queue| <= depth
    ensures IdleLoad(w) <= depth + |w.log| && Undelivered(w) <= |w.log|
  {
    CountsAreBounded(w, w.stream.queue, w.next);
  }

  lemma LoadRankSinks(w: World, w': World, high: nat, high': nat, depth: nat)
    requires |w.stream.queue| <= depth && |w'.stream.queue| <= depth && w'.log == w.log
    requires high' < high || (high' == high && SinksInLoad(w, w'))
    ensures LoadRank(w', high', depth) < LoadRank(w, high, depth)
  {
    LoadIsBounded(w, depth);
    LoadIsBounded(w', depth);
    var n := |w.log|;
    var a, a' := Digits(high, IdleLoad(w), depth + n + 1), Digits(high', IdleLoad(w'), depth + n + 1);
    if high' < high || IdleLoad(w') < IdleLoad(w) {
      DigitSinks(high, IdleLoad(w), high', IdleLoad(w'), depth + n + 1);
    }
    assert a' < a || (a' == a && SinksInRoom(w, w'));
    var b, b' := Digits(a, Room(w), 3), Digits(a', Room(w'), 3);
    if a' < a || Room(w') < Room(w) {
      DigitSinks(a, Room(w), a', Room(w'), 3);
    }
    assert b' < b || (b' == b && SinksInDeliveries(w, w'));
    var c, c' := Digits(b, Undelivered(w), n + 1), Digits(b', Undelivered(w'), n + 1);
    if b' < b || Undelivered(w') < Undelivered(w) {
      DigitSinks(b, Undelivered(w), b', Undelivered(w'), n + 1);
    }
    assert c' < c || (c' == c && SinksInQueue(w, w'));
    QueueRankSinks(w, w', c, c', depth);
  }

  lemma RankSinks(cfg: Config, w: World, w': World)
    requires |w.stream.queue| <= cfg.maxQueueDepth && |w'.stream.queue| <= cfg.maxQueueDepth && w'.log == w.log
    requires Sinks(cfg, w, w')
    ensures Rank(cfg, w') < Rank(cfg, w)
  {
    var a, a' := Digits(Chances(cfg, w), Retries(w), 2), Digits(Chances(cfg, w'), Retries(w'), 2);
    if Chances(cfg, w') < Chances(cfg, w) || Retries(w') < Retries(w) {
      DigitSinks(Chances(cfg, w), Retries(w), Chances(cfg, w'), Retries(w'), 2);
    }
    assert a' < a || (a' == a && SinksInLoad(w, w'));
    LoadRankSinks(w, w', a, a', cfg.maxQueueDepth);
  }

  lemma OwnStep(cfg: Config, w: World, a: Action)
    requires Valid(cfg, w) && !w.stream.closed && IsOwn(a) && Enabled(w, a)
    ensures var w' := Step(cfg, w, a);
            Valid(cfg, w') && !w'.stream.closed && w'.log == w.log && Rank(cfg, w') < Rank(cfg, w)
  {
    StepKeeps(cfg, w, a);
    OwnFrame(cfg, w, a);
    OwnStepSinks(cfg, w, a);
    RankSinks(cfg, w, Step(cfg, w, a));
  }

  ghost predicate AllOwn(actions: seq<Action>) {
    forall i :: 0 <= i < |actions| ==> IsOwn(actions[i])
  }

  /**
   * Stream progress, from every state a stream can be in and for every choice of render and fetch
   * outcomes and every order: a run of its own steps is no longer than the measure allows, and when
   * it can go no further the stored cursor is at or past every event of the log.
   */
  lemma {:induction false} OwnRunsEndCaughtUp(cfg: Config, w: World, actions: seq<Action>, w': World)
    requires Valid(cfg, w) && !w.stream.closed && IsRun(cfg, w, actions, w') && AllOwn(actions)
    ensures |actions| + Rank(cfg, w') <= Rank(cfg, w)
    ensures w'.log == w.log
    ensures (forall a :: IsOwn(a) ==> !Enabled(w', a)) ==> IsCaughtUp(w')
    decreases |actions|
  {
    if actions == [] {
      if forall a :: IsOwn(a) ==> !Enabled(w', a) {
        RestMeansCaughtUp(cfg, w');
      }
    } else {
      OwnStep(cfg, w, actions[0]);
      assert AllOwn(actions[1..]);
      OwnRunsEndCaughtUp(cfg, Step(cfg, w, actions[0]), actions[1..], w');
    }
  }

  predicate IsFaultFree(a: Action) {
    IsOwn(a) && !a.RenderFail? && !a.FetchFail?
  }

  lemma FaultFreeStep(cfg: Config, w: World)
    requires Valid(cfg, w) && !w.stream.closed && !IsCaughtUp(w)
    ensures Enabled(w, FaultFree(w)) && IsFaultFree(FaultFree(w))
    ensures var w' := Step(cfg, w, FaultFree(w));
            Valid(cfg, w') && !w'.stream.closed && w'.log == w.log && Rank(cfg, w') < Rank(cfg, w)
  {
    CanGoOn(cfg, w);
    OwnStep(cfg, w, FaultFree(w));
  }

  /**
   * Never wedged: every state of an open stream has a continuation, one without any further fault,
   * after which the stored cursor is at or past every event of the log.
   */
  lemma {:induction false} CanAlwaysFinish(cfg: Config, w: World) returns (actions: seq<Action>, w': World)
    requires Valid(cfg, w) && !w.stream.closed
    ensures IsRun(cfg, w, actions, w') && w'.log == w.log && IsCaughtUp(w')
    ensures forall i :: 0 <= i < |actions| ==> IsFaultFree(actions[i])
    decreases Rank(cfg, w)
  {
    if IsCaughtUp(w) {
      actions, w' := [], w;
    } else {
      var a := FaultFree(w);
      FaultFreeStep(cfg, w);
      var rest;
      rest, w' := CanAlwaysFinish(cfg, Step(cfg, w, a));
      actions := [a] + rest;
      assert actions[1..] == rest;
    }
  }
}
