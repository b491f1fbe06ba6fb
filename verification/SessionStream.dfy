/**
 * One session stream of the gateway: a consumer of a sequenced event log with a durable cursor,
 * a bounded serial queue, generation numbers that void queued work, capped render retries and
 * dead-lettering. Every await of the program is a separate step, so any callback may come between.
 */
module SessionStream {
  import opened Wrappers
  import opened Sequences

  datatype Event =
    | Plain(sequence: nat)
    | SnapshotRequired(sequence: nat, latest: nat)

  /** A queued event with the generation of the subscription that delivered it. */
  datatype Task = Task(event: Event, generation: nat)

  datatype Purpose = AfterRender | AfterFailure | AfterSnapshot

  /** What the task at the head of the queue is waiting for. */
  datatype Work =
    | NotStarted
    | Rendering
    | Fetching
    | Saving(target: nat, purpose: Purpose)

  /** `subscription` is the sequence after which the live subscription was opened. */
  datatype Stream = Stream(
    last: nat,
    generation: nat,
    subscription: Option<nat>,
    queue: seq<Task>,
    work: Work,
    overflowing: bool,
    closed: bool,
    retryPending: bool,
    renderFailures: map<nat, nat>)

  datatype Config = Config(maxQueueDepth: nat, maxRenderAttempts: int)

  function Max(a: int, b: int): int {
    if a < b then b else a
  }

  // ----- The callbacks of one stream -----------------------------------------------------------

  function InitialStream(last: nat): Stream {
    Subscribe(Stream(last, 0, None, [], NotStarted, false, false, false, map[]))
  }

  function Subscribe(s: Stream): Stream {
    if s.closed then s
    else s.(overflowing := false, generation := s.generation + 1, subscription := Some(s.last))
  }

  function Reconnect(s: Stream): Stream {
    s.(generation := s.generation + 1, subscription := None, retryPending := s.retryPending || !s.closed)
  }

  function OnEvent(cfg: Config, s: Stream, event: Event, generation: nat): Stream {
    if s.overflowing then s
    else if |s.queue| >= cfg.maxQueueDepth then s.(overflowing := true)
    else s.(queue := s.queue + [Task(event, generation)])
  }

  function TimerFired(s: Stream): Stream {
    Subscribe(s.(retryPending := false))
  }

  /** The head task settles: it leaves the queue, and a drained overflow resubscribes. */
  function Finish(s: Stream): Stream
    requires s.queue != []
  {
    var t := s.(queue := s.queue[1..], work := NotStarted);
    if t.overflowing && t.queue == [] && !t.closed && !t.retryPending then Subscribe(t) else t
  }

  function Begin(s: Stream): Stream
    requires s.queue != []
  {
    var task := s.queue[0];
    if s.closed || task.generation != s.generation then Finish(s)
    else if task.event.SnapshotRequired? then s.(work := Fetching)
    else if task.event.sequence <= s.last then Finish(s)
    else s.(work := Rendering)
  }

  function RenderSucceeded(s: Stream): Stream
    requires s.queue != []
  {
    s.(work := Saving(s.queue[0].event.sequence, AfterRender))
  }

  function Failures(s: Stream, sequence: nat): nat {
    if sequence in s.renderFailures then s.renderFailures[sequence] else 0
  }

  predicate WillRetry(cfg: Config, s: Stream, sequence: nat, transient: bool) {
    transient && Failures(s, sequence) + 1 < cfg.maxRenderAttempts
  }

  /** A render, or the cursor write behind it, failed. */
  function RenderFailed(cfg: Config, s: Stream, transient: bool): Stream
    requires s.queue != []
  {
    var e := s.queue[0].event.sequence;
    var t := s.(renderFailures := s.renderFailures[e := Failures(s, e) + 1]);
    if WillRetry(cfg, s, e, transient) then Finish(Reconnect(t))
    else t.(work := Saving(e, AfterFailure))
  }

  function SnapshotTarget(s: Stream, projection: nat): nat
    requires s.queue != [] && s.queue[0].event.SnapshotRequired?
  {
    Max(Max(s.last, s.queue[0].event.latest), Max(projection, s.queue[0].event.sequence))
  }

  function SnapshotFetched(s: Stream, projection: nat): Stream
    requires s.queue != [] && s.queue[0].event.SnapshotRequired?
  {
    var target := SnapshotTarget(s, projection);
    if target <= s.last then Finish(s) else s.(work := Saving(target, AfterSnapshot))
  }

  /** The cursor write was answered with the stored cursor. */
  function Saved(s: Stream, stored: nat): Stream
    requires s.queue != [] && s.work.Saving?
  {
    var failures := if s.work.purpose == AfterSnapshot then s.renderFailures
                    else s.renderFailures - {s.queue[0].event.sequence};
    Finish(s.(last := stored, renderFailures := failures))
  }

  function SaveFailed(cfg: Config, s: Stream, transient: bool): Stream
    requires s.queue != [] && s.work.Saving?
  {
    if s.work.purpose == AfterRender then RenderFailed(cfg, s, transient)
    else Finish(Reconnect(s))
  }

  function Ensure(s: Stream, reported: nat): Stream {
    s.(last := Max(s.last, reported))
  }

  function Close(s: Stream): Stream {
    s.(closed := true)
  }

  // ----- The stream in its world ---------------------------------------------------------------

  /**
   * The stream with the event log, the cursor the cloud stores, and what happened so far:
   * `next` is the log position the live subscription delivers next, `reply` the answer of the
   * cursor write in flight, `lost` the targets of writes that failed here and may still arrive,
   * `base` the highest cursor that others put into the cloud.
   */
  datatype World = World(
    stream: Stream,
    log: seq<nat>,
    next: nat,
    stored: nat,
    reply: Option<nat>,
    lost: set<nat>,
    base: nat,
    rendered: set<nat>,
    deadLettered: set<nat>,
    snapshotTo: nat)

  datatype Action =
    | Deliver
    | DeliverSnapshot(sequence: nat, latest: nat)
    | DeliverLate(event: Event, generation: nat)
    | SseError
    | Timer
    | Start
    | RenderOk
    | RenderFail(transient: bool)
    | FetchOk(projection: nat)
    | FetchFail
    | SaveApplied
    | SaveAnswered
    | SaveFail(transient: bool)
    | EnsureReported(reported: nat)
    | CloseStream
    | AppendEvent(sequence: nat)
    | OtherWriter(cursor: nat)
    | LateWrite(target: nat)

  /** Number of log events at or before a sequence: where a subscription after it begins. */
  function StartAfter(log: seq<nat>, after: nat): nat {
    if log == [] then 0
    else if log[|log| - 1] <= after then |log|
    else StartAfter(log[..|log| - 1], after)
  }

  predicate Enabled(w: World, a: Action) {
    var s := w.stream;
    match a
    case Deliver => !s.closed && s.subscription.Some? && w.next < |w.log|
    case DeliverSnapshot(_, _) => !s.closed && s.subscription.Some?
    case DeliverLate(_, generation) => generation < s.generation || (s.closed && generation == s.generation)
    case SseError => true
    case Timer => s.retryPending && !s.closed
    case Start => s.queue != [] && s.work.NotStarted?
    case RenderOk => s.queue != [] && s.work.Rendering?
    case RenderFail(_) => s.queue != [] && s.work.Rendering?
    case FetchOk(_) => s.queue != [] && s.queue[0].event.SnapshotRequired? && s.work.Fetching?
    case FetchFail => s.queue != [] && s.work.Fetching?
    case SaveApplied => s.queue != [] && s.work.Saving? && w.reply.None?
    case SaveAnswered => s.queue != [] && s.work.Saving? && w.reply.Some?
    case SaveFail(_) => s.queue != [] && s.work.Saving?
    case EnsureReported(reported) => reported <= w.stored && !s.closed
    case CloseStream => true
    case AppendEvent(sequence) => forall i :: 0 <= i < |w.log| ==> w.log[i] < sequence
    case OtherWriter(_) => true
    case LateWrite(target) => target in w.lost
  }

  /** Puts a new stream state into the world; a new subscription starts behind the cursor. */
  function With(w: World, s: Stream): World {
    if s.subscription.Some? && s.generation != w.stream.generation
    then w.(stream := s, next := StartAfter(w.log, s.subscription.value))
    else w.(stream := s)
  }

  function Step(cfg: Config, w: World, a: Action): World
    requires Enabled(w, a)
  {
    var s := w.stream;
    match a
    case Deliver => With(w.(next := w.next + 1), OnEvent(cfg, s, Plain(w.log[w.next]), s.generation))
    case DeliverSnapshot(sequence, latest) => With(w, OnEvent(cfg, s, SnapshotRequired(sequence, latest), s.generation))
    case DeliverLate(event, generation) => With(w, OnEvent(cfg, s, event, generation))
    case SseError => With(w, Reconnect(s))
    case Timer => With(w, TimerFired(s))
    case Start => With(w, Begin(s))
    case RenderOk => With(w.(rendered := w.rendered + {s.queue[0].event.sequence}, reply := None), RenderSucceeded(s))
    case RenderFail(transient) => Failing(cfg, w, transient)
    case FetchOk(projection) =>
      var target := SnapshotTarget(s, projection);
      With(w.(snapshotTo := if target <= s.last then w.snapshotTo else Max(w.snapshotTo, target), reply := None),
           SnapshotFetched(s, projection))
    case FetchFail => With(w, Finish(Reconnect(s)))
    case SaveApplied =>
      var stored := Max(w.stored, s.work.target);
      w.(stored := stored, reply := Some(stored))
    case SaveAnswered => With(w.(reply := None), Saved(s, w.reply.value))
    case SaveFail(transient) =>
      var w1 := w.(lost := w.lost + {s.work.target});
      if s.work.purpose == AfterRender then Failing(cfg, w1, transient)
      else With(w1.(reply := None), SaveFailed(cfg, s, transient))
    case EnsureReported(reported) => With(w, Ensure(s, reported))
    case CloseStream => With(w, Close(s))
    case AppendEvent(sequence) => w.(log := w.log + [sequence])
    case OtherWriter(cursor) => w.(stored := Max(w.stored, cursor), base := Max(w.base, cursor))
    case LateWrite(target) => w.(stored := Max(w.stored, target))
  }

  function Failing(cfg: Config, w: World, transient: bool): World
    requires w.stream.queue != []
  {
    var e := w.stream.queue[0].event.sequence;
    var dead := if WillRetry(cfg, w.stream, e, transient) then w.deadLettered else w.deadLettered + {e};
    With(w.(deadLettered := dead, reply := None), RenderFailed(cfg, w.stream, transient))
  }

  /** A stream opened on a binding whose stored cursor is `cursor`. */
  function Opened(log: seq<nat>, cursor: nat): World {
    World(InitialStream(cursor), log, StartAfter(log, cursor), cursor, None, {}, cursor, {}, {}, 0)
  }

  ghost predicate IsRun(cfg: Config, w: World, actions: seq<Action>, w': World)
    decreases |actions|
  {
    if actions == [] then w == w'
    else Enabled(w, actions[0]) && IsRun(cfg, Step(cfg, w, actions[0]), actions[1..], w')
  }

  // ----- Invariants ----------------------------------------------------------------------------

  predicate Increasing(log: seq<nat>) {
    forall i, j :: 0 <= i < j < |log| ==> log[i] < log[j]
  }

  /** The event was rendered, dead-lettered, covered by a snapshot or passed by another writer. */
  predicate Handled(w: World, e: nat) {
    e in w.rendered || e in w.deadLettered || e <= w.snapshotTo || e <= w.base
  }

  /** Every log event before `e` is handled. */
  ghost predicate ClearBefore(w: World, e: nat) {
    forall i :: 0 <= i < |w.log| && w.log[i] < e ==> Handled(w, w.log[i])
  }

  /** The durable cursor never stands beyond an event that was not handled. */
  ghost predicate CursorIsSafe(w: World) {
    && w.stream.last <= w.stored
    && (forall i :: 0 <= i < |w.log| && w.log[i] <= w.stored ==> Handled(w, w.log[i]))
    && (w.stored <= w.base || w.stored <= w.snapshotTo || w.stored in w.log)
  }

  /** A log event is handled or still waits in this generation, before position `q` of the queue. */
  ghost predicate HandledOrQueued(w: World, e: nat, q: nat)
    requires q <= |w.stream.queue|
  {
    Handled(w, e) || exists p :: 0 <= p < q && w.stream.queue[p] == Task(Plain(e), w.stream.generation)
  }

  /** A log event is at or below the stored cursor or still waits in this generation. */
  ghost predicate BehindOrQueued(w: World, e: nat) {
    e <= w.stored || exists p :: 0 <= p < |w.stream.queue| && w.stream.queue[p] == Task(Plain(e), w.stream.generation)
  }

  /** Events of the current generation queue up in log order without a gap. */
  ghost predicate IsGapless(w: World) {
    var s := w.stream;
    && (forall q :: 0 <= q < |s.queue| ==> s.queue[q].generation <= s.generation)
    && (s.subscription.None? ==> forall q :: 0 <= q < |s.queue| ==> s.queue[q].generation != s.generation)
    && (forall q :: 0 <= q < |s.queue| && s.queue[q].generation == s.generation && s.queue[q].event.Plain? ==>
          s.queue[q].event.sequence in w.log)
    && (forall q, i ::
          (0 <= q < |s.queue| && s.queue[q].generation == s.generation && s.queue[q].event.Plain?
           && 0 <= i < |w.log| && w.log[i] < s.queue[q].event.sequence)
          ==> HandledOrQueued(w, w.log[i], q))
    && (s.subscription.Some? ==> w.next <= |w.log|)
    && (s.subscription.Some? && !s.overflowing ==>
          forall i :: 0 <= i < w.next ==> BehindOrQueued(w, w.log[i]))
  }

  /** A closed stream drops its queue; until then the queue has no gap. */
  ghost predicate QueueIsGapless(w: World) {
    !w.stream.closed ==> IsGapless(w)
  }

  /** The work at the head of the queue is entitled to move the cursor to its target. */
  ghost predicate WorkIsEntitled(w: World) {
    var s := w.stream;
    && (!s.work.NotStarted? ==> s.queue != [])
    && (s.work.Fetching? ==> s.queue[0].event.SnapshotRequired?)
    && (s.work.Rendering? ==> s.queue[0].event.Plain?)
    && (s.work.Rendering? ==> s.queue[0].event.sequence in w.log && ClearBefore(w, s.queue[0].event.sequence))
    && (s.work.Saving? ==>
          match s.work.purpose
          case AfterSnapshot => s.queue[0].event.SnapshotRequired? && s.work.target <= w.snapshotTo
          case _ =>
            && s.queue[0].event.Plain? && s.queue[0].event.sequence == s.work.target
            && s.work.target in w.log && ClearBefore(w, s.work.target) && Handled(w, s.work.target))
    && (s.work.Saving? && w.reply.Some? ==> s.work.target <= w.reply.value <= w.stored)
  }

  /** An open stream always has a way on, and its queue stays within its bound. */
  predicate NotWedged(cfg: Config, s: Stream) {
    && (!s.closed ==> (s.subscription.Some? <==> !s.retryPending))
    && |s.queue| <= cfg.maxQueueDepth
    && (s.overflowing && !s.closed ==> s.queue != [] || s.retryPending)
  }

  /** What holds whatever the head task is doing. */
  ghost predicate Sound(cfg: Config, w: World) {
    && cfg.maxQueueDepth >= 1
    && Increasing(w.log)
    && CursorIsSafe(w)
    && QueueIsGapless(w)
    && NotWedged(cfg, w.stream)
  }

  ghost predicate Core(cfg: Config, w: World) {
    Sound(cfg, w) && WorkIsEntitled(w)
  }

  /** A write that failed here may be applied at any later time without harm. */
  ghost predicate LostIsCovered(w: World) {
    forall t :: t in w.lost ==> t <= w.snapshotTo || (t in w.log && ClearBefore(w, t) && Handled(w, t))
  }

  ghost predicate Valid(cfg: Config, w: World) {
    Core(cfg, w) && LostIsCovered(w)
  }

  // ----- Small facts ---------------------------------------------------------------------------

  lemma {:induction false} StartAfterIsExact(log: seq<nat>, after: nat)
    requires Increasing(log)
    ensures StartAfter(log, after) <= |log|
    ensures forall i :: 0 <= i < |log| ==> (i < StartAfter(log, after) <==> log[i] <= after)
  {
    if log != [] && log[|log| - 1] > after {
      StartAfterIsExact(log[..|log| - 1], after);
    }
  }

  lemma FinishFrame(s: Stream)
    requires s.queue != []
    ensures Finish(s).work.NotStarted? && Finish(s).last == s.last && Finish(s).renderFailures == s.renderFailures
  {
  }

  lemma OpenedIsValid(cfg: Config, log: seq<nat>, cursor: nat)
    requires cfg.maxQueueDepth >= 1 && Increasing(log)
    ensures Valid(cfg, Opened(log, cursor))
  {
    StartAfterIsExact(log, cursor);
  }

  // ----- Building blocks: every step keeps the invariants ---------------------------------------

  lemma SubscribeKeeps(cfg: Config, w: World)
    requires cfg.maxQueueDepth >= 1 && Increasing(w.log) && CursorIsSafe(w)
    requires forall q :: 0 <= q < |w.stream.queue| ==> w.stream.queue[q].generation <= w.stream.generation
    requires |w.stream.queue| <= cfg.maxQueueDepth && !w.stream.retryPending && !w.stream.closed
    ensures Sound(cfg, With(w, Subscribe(w.stream)))
  {
    StartAfterIsExact(w.log, w.stream.last);
  }

  lemma ReconnectKeeps(cfg: Config, w: World)
    requires Sound(cfg, w)
    ensures Sound(cfg, With(w, Reconnect(w.stream)))
  {
  }

  /** The head may leave when its event is handled or its generation is void. */
  ghost predicate HeadIsSettled(w: World)
    requires w.stream.queue != []
  {
    var task := w.stream.queue[0];
    w.stream.closed || task.generation != w.stream.generation || task.event.SnapshotRequired? || task.event.sequence <= w.stored
  }

  lemma DropHeadKeeps(cfg: Config, w: World)
    requires Sound(cfg, w) && w.stream.queue != [] && HeadIsSettled(w)
    ensures QueueIsGapless(w.(stream := w.stream.(queue := w.stream.queue[1..], work := NotStarted)))
  {
    var s := w.stream;
    if s.closed { return; }
    var w' := w.(stream := s.(queue := s.queue[1..], work := NotStarted));
    assert s.queue[0].generation == s.generation && s.queue[0].event.Plain? ==> Handled(w, s.queue[0].event.sequence);
    var rest := w'.stream.queue;
    forall e, q: nat | q <= |rest| && HandledOrQueued(w, e, q + 1) ensures HandledOrQueued(w', e, q) {
      if !Handled(w, e) {
        var p :| 0 <= p < q + 1 && s.queue[p] == Task(Plain(e), s.generation);
        assert rest[p - 1] == s.queue[p];
      }
    }
    forall e: nat | BehindOrQueued(w, e) ensures BehindOrQueued(w', e) {
      if e > w.stored {
        var p :| 0 <= p < |s.queue| && s.queue[p] == Task(Plain(e), s.generation);
        assert rest[p - 1] == s.queue[p];
      }
    }
    assert forall q :: 0 <= q < |rest| ==> rest[q] == s.queue[q + 1];
  }

  lemma FinishKeeps(cfg: Config, w: World)
    requires Sound(cfg, w) && w.stream.queue != [] && HeadIsSettled(w)
    ensures Core(cfg, With(w, Finish(w.stream)))
  {
    var t := w.stream.(queue := w.stream.queue[1..], work := NotStarted);
    DropHeadKeeps(cfg, w);
    if t.overflowing && t.queue == [] && !t.closed && !t.retryPending {
      SubscribeKeeps(cfg, w.(stream := t));
    }
  }

  lemma ReconnectAndFinishKeeps(cfg: Config, w: World)
    requires Sound(cfg, w) && w.stream.queue != []
    ensures Core(cfg, With(w, Finish(Reconnect(w.stream))))
  {
    ReconnectKeeps(cfg, w);
    FinishKeeps(cfg, With(w, Reconnect(w.stream)));
  }

  /** Handling more events, with the same stream and log, keeps everything. */
  lemma MoreHandledKeeps(cfg: Config, w: World, w': World)
    requires Sound(cfg, w)
    requires w'.stream == w.stream && w'.log == w.log && w'.next == w.next && w'.stored == w.stored
    requires w.rendered <= w'.rendered && w.deadLettered <= w'.deadLettered
    requires w.snapshotTo <= w'.snapshotTo && w.base <= w'.base
    ensures Sound(cfg, w')
  {
    assert forall e :: Handled(w, e) ==> Handled(w', e);
    assert forall e, q: nat :: q <= |w.stream.queue| && HandledOrQueued(w, e, q) ==> HandledOrQueued(w', e, q);
    assert forall e :: BehindOrQueued(w, e) ==> BehindOrQueued(w', e);
  }

  /** A task at the end of the queue leaves what is before it alone. */
  lemma EnqueueExtends(w: World, task: Task, e: nat, q: nat)
    requires q <= |w.stream.queue| && HandledOrQueued(w, e, q)
    ensures var w' := w.(stream := w.stream.(queue := w.stream.queue + [task]));
            HandledOrQueued(w', e, q)
  {
    var w' := w.(stream := w.stream.(queue := w.stream.queue + [task]));
    if !Handled(w, e) {
      var p :| 0 <= p < q && w.stream.queue[p] == Task(Plain(e), w.stream.generation);
      assert w'.stream.queue[p] == w.stream.queue[p];
    }
  }

  lemma EnqueueKeepsBehind(w: World, task: Task, e: nat)
    requires BehindOrQueued(w, e)
    ensures BehindOrQueued(w.(stream := w.stream.(queue := w.stream.queue + [task])), e)
  {
    if e > w.stored {
      var p :| 0 <= p < |w.stream.queue| && w.stream.queue[p] == Task(Plain(e), w.stream.generation);
      assert (w.stream.queue + [task])[p] == w.stream.queue[p];
    }
  }

  lemma BehindIsHandled(w: World, i: nat)
    requires CursorIsSafe(w) && i < |w.log| && BehindOrQueued(w, w.log[i])
    ensures HandledOrQueued(w, w.log[i], |w.stream.queue|)
  {
  }

  ghost predicate MayDeliver(w: World, event: Event, generation: nat, next: nat) {
    || ((generation < w.stream.generation || w.stream.closed) && next == w.next)
    || (generation == w.stream.generation && event.SnapshotRequired? && next == w.next && w.stream.subscription.Some?)
    || (generation == w.stream.generation && w.next < |w.log| && event == Plain(w.log[w.next]) && next == w.next + 1
        && w.stream.subscription.Some?)
  }

  /** Before any task of the longer queue there is still no gap. */
  lemma NoGapAfterEnqueue(w: World, event: Event, generation: nat, next: nat, q: nat, i: nat)
    requires IsGapless(w) && CursorIsSafe(w) && Increasing(w.log) && MayDeliver(w, event, generation, next)
    requires !w.stream.overflowing && !w.stream.closed
    requires q <= |w.stream.queue| && i < |w.log|
    requires var task := (w.stream.queue + [Task(event, generation)])[q];
             task.generation == w.stream.generation && task.event.Plain? && w.log[i] < task.event.sequence
    ensures HandledOrQueued(w.(next := next, stream := w.stream.(queue := w.stream.queue + [Task(event, generation)])), w.log[i], q)
  {
    if q == |w.stream.queue| {
      assert i < w.next;
      BehindIsHandled(w, i);
    }
    assert HandledOrQueued(w, w.log[i], q);
    EnqueueExtends(w, Task(event, generation), w.log[i], q);
  }

  lemma EnqueueKeepsGapless(w: World, event: Event, generation: nat, next: nat)
    requires IsGapless(w) && CursorIsSafe(w) && Increasing(w.log) && MayDeliver(w, event, generation, next)
    requires !w.stream.overflowing && !w.stream.closed
    ensures IsGapless(w.(next := next, stream := w.stream.(queue := w.stream.queue + [Task(event, generation)])))
  {
    var task := Task(event, generation);
    var queue' := w.stream.queue + [task];
    var w' := w.(next := next, stream := w.stream.(queue := queue'));
    assert queue'[|w.stream.queue|] == task;
    assert forall q :: 0 <= q < |w.stream.queue| ==> queue'[q] == w.stream.queue[q];
    forall q, i | 0 <= q < |queue'| && queue'[q].generation == w.stream.generation && queue'[q].event.Plain?
                  && 0 <= i < |w.log| && w.log[i] < queue'[q].event.sequence
      ensures HandledOrQueued(w', w.log[i], q)
    {
      NoGapAfterEnqueue(w, event, generation, next, q, i);
    }
    if w.stream.subscription.Some? {
      forall i | 0 <= i < next ensures BehindOrQueued(w', w.log[i]) {
        if i < w.next {
          EnqueueKeepsBehind(w, task, w.log[i]);
        }
      }
    }
  }

  lemma EnqueueKeeps(cfg: Config, w: World, event: Event, generation: nat, next: nat)
    requires Core(cfg, w) && MayDeliver(w, event, generation, next)
    requires !w.stream.overflowing && |w.stream.queue| < cfg.maxQueueDepth
    ensures Core(cfg, w.(next := next, stream := w.stream.(queue := w.stream.queue + [Task(event, generation)])))
  {
    if !w.stream.closed {
      EnqueueKeepsGapless(w, event, generation, next);
    }
    if w.stream.queue != [] {
      assert (w.stream.queue + [Task(event, generation)])[0] == w.stream.queue[0];
    }
  }

  lemma DropKeeps(cfg: Config, w: World, next: nat)
    requires Core(cfg, w) && w.stream.queue != [] && w.next <= next
    requires w.stream.subscription.Some? && next != w.next ==> next <= |w.log|
    ensures Core(cfg, w.(next := next, stream := w.stream.(overflowing := true)))
  {
    var w' := w.(next := next, stream := w.stream.(overflowing := true));
    assert forall e, q: nat :: q <= |w.stream.queue| && HandledOrQueued(w, e, q) ==> HandledOrQueued(w', e, q);
    assert forall e :: BehindOrQueued(w, e) ==> BehindOrQueued(w', e);
  }

  lemma IgnoreKeeps(cfg: Config, w: World, next: nat)
    requires Core(cfg, w) && w.stream.overflowing && w.next <= next
    requires w.stream.subscription.Some? && next != w.next ==> next <= |w.log|
    ensures Core(cfg, w.(next := next))
  {
    var w' := w.(next := next);
    assert forall e, q: nat :: q <= |w.stream.queue| && HandledOrQueued(w, e, q) ==> HandledOrQueued(w', e, q);
    assert forall e :: BehindOrQueued(w, e) ==> BehindOrQueued(w', e);
  }

  lemma DeliverKeeps(cfg: Config, w: World, event: Event, generation: nat, next: nat)
    requires Core(cfg, w) && MayDeliver(w, event, generation, next)
    ensures Core(cfg, w.(next := next, stream := OnEvent(cfg, w.stream, event, generation)))
  {
    if w.stream.overflowing {
      IgnoreKeeps(cfg, w, next);
      assert w.(next := next, stream := OnEvent(cfg, w.stream, event, generation)) == w.(next := next);
    } else if |w.stream.queue| >= cfg.maxQueueDepth {
      DropKeeps(cfg, w, next);
    } else {
      EnqueueKeeps(cfg, w, event, generation, next);
    }
  }

  lemma DeliveryEffect(cfg: Config, w: World, event: Event, generation: nat, next: nat)
    ensures With(w.(next := next), OnEvent(cfg, w.stream, event, generation))
         == w.(next := next, stream := OnEvent(cfg, w.stream, event, generation))
  {
  }

  lemma DeliveryKeeps(cfg: Config, w: World, event: Event, generation: nat, next: nat)
    requires Core(cfg, w) && MayDeliver(w, event, generation, next)
    ensures Core(cfg, With(w.(next := next), OnEvent(cfg, w.stream, event, generation)))
  {
    DeliveryEffect(cfg, w, event, generation, next);
    DeliverKeeps(cfg, w, event, generation, next);
  }

  lemma LiveDeliveryKeeps(cfg: Config, w: World)
    requires Core(cfg, w) && Enabled(w, Deliver)
    ensures Core(cfg, Step(cfg, w, Deliver))
  {
    var event := Plain(w.log[w.next]);
    DeliveryKeeps(cfg, w, event, w.stream.generation, w.next + 1);
  }

  lemma SnapshotDeliveryKeeps(cfg: Config, w: World, sequence: nat, latest: nat)
    requires Core(cfg, w) && Enabled(w, DeliverSnapshot(sequence, latest))
    ensures Core(cfg, Step(cfg, w, DeliverSnapshot(sequence, latest)))
  {
    var event := SnapshotRequired(sequence, latest);
    DeliveryKeeps(cfg, w, event, w.stream.generation, w.next);
    assert w.(next := w.next) == w;
  }

  lemma LateDeliveryKeeps(cfg: Config, w: World, event: Event, generation: nat)
    requires Core(cfg, w) && Enabled(w, DeliverLate(event, generation))
    ensures Core(cfg, Step(cfg, w, DeliverLate(event, generation)))
  {
    DeliveryKeeps(cfg, w, event, generation, w.next);
    assert w.(next := w.next) == w;
  }

  lemma TimerKeeps(cfg: Config, w: World)
    requires Core(cfg, w) && Enabled(w, Timer)
    ensures Core(cfg, Step(cfg, w, Timer))
  {
    var w1 := w.(stream := w.stream.(retryPending := false));
    SubscribeKeeps(cfg, w1);
    var w' := With(w1, Subscribe(w1.stream));
    assert Step(cfg, w, Timer) == w';
    assert w'.stream.queue == w.stream.queue && w'.stream.work == w.stream.work;
    forall e | ClearBefore(w, e) ensures ClearBefore(w', e) { ClearStaysClear(w, w', e); }
  }

  lemma StartKeeps(cfg: Config, w: World)
    requires Core(cfg, w) && Enabled(w, Start)
    ensures Core(cfg, Step(cfg, w, Start))
  {
    var s := w.stream;
    var task := s.queue[0];
    if s.closed || task.generation != s.generation {
      FinishKeeps(cfg, w);
    } else if task.event.Plain? {
      if task.event.sequence <= s.last {
        FinishKeeps(cfg, w);
      } else {
        assert forall i :: 0 <= i < |w.log| && w.log[i] < task.event.sequence ==> HandledOrQueued(w, w.log[i], 0);
        WorkIsFree(cfg, w, Rendering);
      }
    } else {
      WorkIsFree(cfg, w, Fetching);
    }
  }

  lemma RenderOkKeeps(cfg: Config, w: World)
    requires Core(cfg, w) && Enabled(w, RenderOk)
    ensures Core(cfg, Step(cfg, w, RenderOk))
  {
    var e := w.stream.queue[0].event.sequence;
    var w1 := w.(rendered := w.rendered + {e}, reply := None);
    MoreHandledKeeps(cfg, w, w1);
    ClearStaysClear(w, w1, e);
    WorkIsFree(cfg, w1, Saving(e, AfterRender));
  }

  lemma FailingKeeps(cfg: Config, w: World, transient: bool)
    requires Core(cfg, w)
    requires w.stream.work.Rendering? || (w.stream.work.Saving? && w.stream.work.purpose == AfterRender)
    ensures Core(cfg, Failing(cfg, w, transient))
  {
    var s := w.stream;
    var e := s.queue[0].event.sequence;
    var failures := s.renderFailures[e := Failures(s, e) + 1];
    if WillRetry(cfg, s, e, transient) {
      FailureRecorded(cfg, w, w.deadLettered, failures);
      ReconnectAndFinishKeeps(cfg, w.(reply := None, stream := s.(renderFailures := failures)));
    } else {
      FailureRecorded(cfg, w, w.deadLettered + {e}, failures);
      DeadLetterKeeps(cfg, w, e, failures);
    }
  }

  lemma FailureRecorded(cfg: Config, w: World, deadLettered: set<nat>, failures: map<nat, nat>)
    requires Sound(cfg, w) && w.deadLettered <= deadLettered
    ensures Sound(cfg, w.(deadLettered := deadLettered, reply := None, stream := w.stream.(renderFailures := failures)))
  {
    var w1 := w.(deadLettered := deadLettered, reply := None);
    MoreHandledKeeps(cfg, w, w1);
    RenderFailuresAreFree(cfg, w1, failures);
  }

  lemma ClearStaysClear(w: World, w': World, e: nat)
    requires ClearBefore(w, e) && w'.log == w.log
    requires w.rendered <= w'.rendered && w.deadLettered <= w'.deadLettered
    requires w.snapshotTo <= w'.snapshotTo && w.base <= w'.base
    ensures ClearBefore(w', e)
  {
  }

  lemma DeadLetterKeeps(cfg: Config, w: World, e: nat, failures: map<nat, nat>)
    requires w.stream.queue != [] && w.stream.queue[0].event == Plain(e) && e in w.log && ClearBefore(w, e)
    requires Sound(cfg, w.(deadLettered := w.deadLettered + {e}, reply := None, stream := w.stream.(renderFailures := failures)))
    ensures Core(cfg, With(w.(deadLettered := w.deadLettered + {e}, reply := None),
                            w.stream.(renderFailures := failures, work := Saving(e, AfterFailure))))
  {
    var w1 := w.(deadLettered := w.deadLettered + {e}, reply := None, stream := w.stream.(renderFailures := failures));
    ClearStaysClear(w, w1, e);
    WorkIsFree(cfg, w1, Saving(e, AfterFailure));
  }

  lemma WorkIsFree(cfg: Config, w: World, work: Work)
    requires Sound(cfg, w)
    ensures Sound(cfg, With(w, w.stream.(work := work)))
  {
    var w' := With(w, w.stream.(work := work));
    assert forall e, q: nat :: q <= |w.stream.queue| && HandledOrQueued(w, e, q) ==> HandledOrQueued(w', e, q);
    assert forall e :: BehindOrQueued(w, e) ==> BehindOrQueued(w', e);
  }

  lemma RenderFailuresAreFree(cfg: Config, w: World, failures: map<nat, nat>)
    requires Sound(cfg, w)
    ensures Sound(cfg, w.(stream := w.stream.(renderFailures := failures)))
  {
    var w' := w.(stream := w.stream.(renderFailures := failures));
    assert forall e, q: nat :: q <= |w.stream.queue| && HandledOrQueued(w, e, q) ==> HandledOrQueued(w', e, q);
    assert forall e :: BehindOrQueued(w, e) ==> BehindOrQueued(w', e);
  }

  lemma FetchOkKeeps(cfg: Config, w: World, projection: nat)
    requires Core(cfg, w) && Enabled(w, FetchOk(projection))
    ensures Core(cfg, Step(cfg, w, FetchOk(projection)))
  {
    var target := SnapshotTarget(w.stream, projection);
    if target <= w.stream.last {
      MoreHandledKeeps(cfg, w, w.(reply := None));
      FinishKeeps(cfg, w.(reply := None));
    } else {
      var w1 := w.(snapshotTo := Max(w.snapshotTo, target), reply := None);
      MoreHandledKeeps(cfg, w, w1);
      WorkIsFree(cfg, w1, Saving(target, AfterSnapshot));
    }
  }

  /** The cloud stores the target: every log event up to it was handled. */
  lemma SaveAppliedKeeps(cfg: Config, w: World)
    requires Core(cfg, w) && Enabled(w, SaveApplied)
    ensures Core(cfg, Step(cfg, w, SaveApplied))
  {
    var stored := Max(w.stored, w.stream.work.target);
    forall i | 0 <= i < |w.log| && w.log[i] <= stored ensures Handled(w, w.log[i]) {
    }
    StoredMayRise(cfg, w, stored);
    var w1 := w.(stored := stored);
    MoreHandledKeeps(cfg, w1, w1.(reply := Some(stored)));
    forall e | ClearBefore(w, e) ensures ClearBefore(Step(cfg, w, SaveApplied), e) {
      ClearStaysClear(w, Step(cfg, w, SaveApplied), e);
    }
  }

  lemma SaveAnsweredKeeps(cfg: Config, w: World)
    requires Core(cfg, w) && Enabled(w, SaveAnswered)
    ensures Core(cfg, Step(cfg, w, SaveAnswered))
  {
    var s := w.stream;
    var failures := if s.work.purpose == AfterSnapshot then s.renderFailures else s.renderFailures - {s.queue[0].event.sequence};
    var w0 := w.(reply := None);
    MoreHandledKeeps(cfg, w, w0);
    RenderFailuresAreFree(cfg, w0, failures);
    var w1 := w0.(stream := s.(renderFailures := failures));
    LastIsFree(cfg, w1, w.reply.value);
    var w2 := w1.(stream := w1.stream.(last := w.reply.value));
    FinishKeeps(cfg, w2);
  }

  lemma LastIsFree(cfg: Config, w: World, last: nat)
    requires Sound(cfg, w) && last <= w.stored
    ensures Sound(cfg, w.(stream := w.stream.(last := last)))
  {
    var w' := w.(stream := w.stream.(last := last));
    assert forall e, q: nat :: q <= |w.stream.queue| && HandledOrQueued(w, e, q) ==> HandledOrQueued(w', e, q);
    assert forall e :: BehindOrQueued(w, e) ==> BehindOrQueued(w', e);
  }

  lemma SaveFailKeeps(cfg: Config, w: World, transient: bool)
    requires Core(cfg, w) && Enabled(w, SaveFail(transient))
    ensures Core(cfg, Step(cfg, w, SaveFail(transient)))
  {
    var w1 := w.(lost := w.lost + {w.stream.work.target});
    MoreHandledKeeps(cfg, w, w1);
    assert forall e :: ClearBefore(w, e) ==> ClearBefore(w1, e);
    if w.stream.work.purpose == AfterRender {
      FailingKeeps(cfg, w1, transient);
    } else {
      MoreHandledKeeps(cfg, w1, w1.(reply := None));
      ReconnectAndFinishKeeps(cfg, w1.(reply := None));
    }
  }

  lemma AppendKeepsGapless(w: World, sequence: nat)
    requires IsGapless(w) && Enabled(w, AppendEvent(sequence))
    ensures IsGapless(w.(log := w.log + [sequence]))
  {
    var w' := w.(log := w.log + [sequence]);
    assert forall i :: 0 <= i < |w.log| ==> w'.log[i] == w.log[i];
    assert forall e, q: nat :: q <= |w.stream.queue| && HandledOrQueued(w, e, q) ==> HandledOrQueued(w', e, q);
    assert forall e :: BehindOrQueued(w, e) ==> BehindOrQueued(w', e);
    assert forall e :: e in w.log ==> e in w'.log && e < sequence;
  }

  lemma AppendKeepsEntitlement(w: World, sequence: nat)
    requires WorkIsEntitled(w) && CursorIsSafe(w) && Enabled(w, AppendEvent(sequence))
    ensures WorkIsEntitled(w.(log := w.log + [sequence])) && CursorIsSafe(w.(log := w.log + [sequence]))
  {
    var w' := w.(log := w.log + [sequence]);
    assert forall i :: 0 <= i < |w.log| ==> w'.log[i] == w.log[i];
    assert forall e :: e in w.log ==> e in w'.log && e < sequence;
    assert forall e :: e in w.log && ClearBefore(w, e) ==> ClearBefore(w', e);
  }

  lemma AppendKeeps(cfg: Config, w: World, sequence: nat)
    requires Core(cfg, w) && Enabled(w, AppendEvent(sequence))
    ensures Core(cfg, Step(cfg, w, AppendEvent(sequence)))
  {
    if !w.stream.closed {
      AppendKeepsGapless(w, sequence);
    }
    AppendKeepsEntitlement(w, sequence);
  }

  lemma OtherWriterKeeps(cfg: Config, w: World, cursor: nat)
    requires Core(cfg, w)
    ensures Core(cfg, Step(cfg, w, OtherWriter(cursor)))
  {
    var w1 := w.(base := Max(w.base, cursor));
    MoreHandledKeeps(cfg, w, w1);
    StoredMayRise(cfg, w1, Max(w.stored, cursor));
    var w' := Step(cfg, w, OtherWriter(cursor));
    assert forall e :: ClearBefore(w, e) ==> ClearBefore(w', e) by {
      forall e | ClearBefore(w, e) ensures ClearBefore(w', e) { ClearStaysClear(w, w', e); }
    }
  }

  /** The stored cursor may rise over events that are all handled. */
  lemma StoredMayRise(cfg: Config, w: World, stored: nat)
    requires Sound(cfg, w) && w.stored <= stored
    requires forall i :: 0 <= i < |w.log| && w.log[i] <= stored ==> Handled(w, w.log[i])
    requires stored == w.stored || stored <= w.base || stored <= w.snapshotTo || stored in w.log
    ensures Sound(cfg, w.(stored := stored))
  {
    var w' := w.(stored := stored);
    assert forall e, q: nat :: q <= |w.stream.queue| && HandledOrQueued(w, e, q) ==> HandledOrQueued(w', e, q);
    assert forall e :: BehindOrQueued(w, e) ==> BehindOrQueued(w', e);
  }

  lemma CloseKeeps(cfg: Config, w: World)
    requires Core(cfg, w)
    ensures Core(cfg, Step(cfg, w, CloseStream))
  {
  }

  lemma SseErrorKeeps(cfg: Config, w: World)
    requires Core(cfg, w)
    ensures Core(cfg, Step(cfg, w, SseError))
  {
    ReconnectKeeps(cfg, w);
  }

  lemma EnsureKeeps(cfg: Config, w: World, reported: nat)
    requires Core(cfg, w) && Enabled(w, EnsureReported(reported))
    ensures Core(cfg, Step(cfg, w, EnsureReported(reported)))
  {
    LastIsFree(cfg, w, Max(w.stream.last, reported));
  }

  lemma RenderFailKeeps(cfg: Config, w: World, transient: bool)
    requires Core(cfg, w) && Enabled(w, RenderFail(transient))
    ensures Core(cfg, Step(cfg, w, RenderFail(transient)))
  {
    FailingKeeps(cfg, w, transient);
  }

  lemma FetchFailKeeps(cfg: Config, w: World)
    requires Core(cfg, w) && Enabled(w, FetchFail)
    ensures Core(cfg, Step(cfg, w, FetchFail))
  {
    ReconnectAndFinishKeeps(cfg, w);
  }

  lemma LateWriteKeeps(cfg: Config, w: World, target: nat)
    requires Valid(cfg, w) && Enabled(w, LateWrite(target))
    ensures Core(cfg, Step(cfg, w, LateWrite(target)))
  {
    var w' := Step(cfg, w, LateWrite(target));
    StoredMayRise(cfg, w, w'.stored);
    forall e | ClearBefore(w, e) ensures ClearBefore(w', e) { ClearStaysClear(w, w', e); }
  }

  /** What was handled stays handled, and the log only grows at its end. */
  ghost predicate HandlesMore(w: World, w': World) {
    && w.rendered <= w'.rendered && w.deadLettered <= w'.deadLettered && w.snapshotTo <= w'.snapshotTo && w.base <= w'.base
    && (w'.log == w.log || (exists e :: w'.log == w.log + [e] && forall i :: 0 <= i < |w.log| ==> w.log[i] < e))
  }

  lemma StepHandlesMore(cfg: Config, w: World, a: Action)
    requires Enabled(w, a)
    ensures HandlesMore(w, Step(cfg, w, a))
    ensures var lost := Step(cfg, w, a).lost; lost == w.lost || (a.SaveFail? && lost == w.lost + {w.stream.work.target})
  {
  }

  lemma CoverStays(w: World, w': World, t: nat)
    requires HandlesMore(w, w') && t in w.log && ClearBefore(w, t) && Handled(w, t)
    ensures t in w'.log && ClearBefore(w', t) && Handled(w', t)
  {
    forall i | 0 <= i < |w'.log| && w'.log[i] < t ensures Handled(w', w'.log[i]) {
      assert i < |w.log| && w'.log[i] == w.log[i];
    }
  }

  lemma StepKeepsLost(cfg: Config, w: World, a: Action)
    requires LostIsCovered(w) && WorkIsEntitled(w) && Enabled(w, a)
    ensures LostIsCovered(Step(cfg, w, a))
  {
    var w' := Step(cfg, w, a);
    StepHandlesMore(cfg, w, a);
    forall t | t in w'.lost ensures t <= w'.snapshotTo || (t in w'.log && ClearBefore(w', t) && Handled(w', t)) {
      if t > w.snapshotTo {
        CoverStays(w, w', t);
      }
    }
  }

  /** Every step of the stream or of its surroundings keeps the invariant. */
  lemma StepKeeps(cfg: Config, w: World, a: Action)
    requires Valid(cfg, w) && Enabled(w, a)
    ensures Valid(cfg, Step(cfg, w, a))
  {
    StepKeepsCore(cfg, w, a);
    StepKeepsLost(cfg, w, a);
  }

  lemma StepKeepsCore(cfg: Config, w: World, a: Action)
    requires Valid(cfg, w) && Enabled(w, a)
    ensures Core(cfg, Step(cfg, w, a))
  {
    match a
    case Deliver => LiveDeliveryKeeps(cfg, w);
    case DeliverSnapshot(sequence, latest) => SnapshotDeliveryKeeps(cfg, w, sequence, latest);
    case DeliverLate(event, generation) => LateDeliveryKeeps(cfg, w, event, generation);
    case SseError => SseErrorKeeps(cfg, w);
    case Timer => TimerKeeps(cfg, w);
    case Start => StartKeeps(cfg, w);
    case RenderOk => RenderOkKeeps(cfg, w);
    case RenderFail(transient) => RenderFailKeeps(cfg, w, transient);
    case FetchOk(projection) => FetchOkKeeps(cfg, w, projection);
    case FetchFail => FetchFailKeeps(cfg, w);
    case SaveApplied => SaveAppliedKeeps(cfg, w);
    case SaveAnswered => SaveAnsweredKeeps(cfg, w);
    case SaveFail(transient) => SaveFailKeeps(cfg, w, transient);
    case EnsureReported(reported) => EnsureKeeps(cfg, w, reported);
    case CloseStream => CloseKeeps(cfg, w);
    case AppendEvent(sequence) => AppendKeeps(cfg, w, sequence);
    case OtherWriter(cursor) => OtherWriterKeeps(cfg, w, cursor);
    case LateWrite(target) => LateWriteKeeps(cfg, w, target);
  }

  lemma {:induction false} RunKeeps(cfg: Config, w: World, actions: seq<Action>, w': World)
    requires Valid(cfg, w) && IsRun(cfg, w, actions, w')
    ensures Valid(cfg, w')
    decreases |actions|
  {
    if actions != [] {
      StepKeeps(cfg, w, actions[0]);
      RunKeeps(cfg, Step(cfg, w, actions[0]), actions[1..], w');
    }
  }

  /**
   * No lost event: after any run of a stream, whatever errors, overflows, failures, retries and
   * late completions it contains, every log event at or below the stored cursor, and so at or
   * below the stream's own cursor, was rendered, dead-lettered, covered by a snapshot, or at or
   * below a cursor that the binding had at the start or another writer stored.
   */
  lemma NoLostEvent(cfg: Config, log: seq<nat>, cursor: nat, actions: seq<Action>, w: World)
    requires cfg.maxQueueDepth >= 1 && Increasing(log)
    requires IsRun(cfg, Opened(log, cursor), actions, w)
    ensures w.stream.last <= w.stored
    ensures forall i :: 0 <= i < |w.log| && w.log[i] <= w.stored ==>
              w.log[i] in w.rendered || w.log[i] in w.deadLettered || w.log[i] <= w.snapshotTo || w.log[i] <= w.base
  {
    OpenedIsValid(cfg, log, cursor);
    RunKeeps(cfg, Opened(log, cursor), actions, w);
    assert forall i :: 0 <= i < |w.log| && w.log[i] <= w.stored ==> Handled(w, w.log[i]);
  }
}
