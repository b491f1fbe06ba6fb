/**
 * What each callback brings about, told by the history of a run: which deliveries are queued, which
 * queued events are started, that every loss of the connection is followed by a retry, and that a
 * closed stream starts nothing more.
 */
module SessionStreamEffects {
  import opened Wrappers
  import opened SessionStream
  import opened SessionStreamCursor
  import opened SessionStreamRetries

  // ----- How a step changes the link -------------------------------------------------------------

  /** What a stream knows about its connection. */
  datatype Link = Link(closed: bool, generation: nat, subscription: Option<nat>, overflowing: bool, retryPending: bool)

  function LinkOf(s: Stream): Link {
    Link(s.closed, s.generation, s.subscription, s.overflowing, s.retryPending)
  }

  function CutOff(l: Link): Link {
    l.(generation := l.generation + 1, subscription := None, retryPending := l.retryPending || !l.closed)
  }

  /** The link behind a stream whose cursor is at `last` when the queue loses its head. */
  function AfterHead(l: Link, last: nat, drained: bool): Link {
    if l.overflowing && drained && !l.closed && !l.retryPending
    then l.(overflowing := false, generation := l.generation + 1, subscription := Some(last)) else l
  }

  lemma FinishLinks(s: Stream)
    requires s.queue != []
    ensures LinkOf(Finish(s)) == AfterHead(LinkOf(s), s.last, |s.queue| == 1)
    ensures LinkOf(Finish(Reconnect(s))) == CutOff(LinkOf(s))
    ensures Finish(s).queue == s.queue[1..]
  {
  }

  lemma FailingLinks(cfg: Config, w: World, transient: bool)
    requires w.stream.queue != []
    ensures var s' := Failing(cfg, w, transient).stream;
            if s'.work.Saving? then LinkOf(s') == LinkOf(w.stream) && s'.queue == w.stream.queue else LinkOf(s') == CutOff(LinkOf(w.stream))
  {
  }

  lemma AnswerLinks(s: Stream, stored: nat)
    requires s.queue != [] && s.work.Saving?
    ensures LinkOf(Saved(s, stored)) == AfterHead(LinkOf(s), stored, |s.queue| == 1)
    ensures Saved(s, stored).last == stored && Saved(s, stored).queue == s.queue[1..]
  {
  }

  /** The link after a step is cut off, is behind a finished head, or changes by the step's own kind. */
  predicate IsLinkStep(cfg: Config, w: World, a: Action, w': World) {
    var l, l' := LinkOf(w.stream), LinkOf(w'.stream);
    match a
    case SseError => l' == CutOff(l)
    case FetchFail => l' == CutOff(l)
    case Timer => l' == l.(retryPending := false, overflowing := false, generation := l.generation + 1, subscription := Some(w'.stream.last))
    case RenderFail(_) => l' == CutOff(l) || (l' == l && w'.stream.queue == w.stream.queue)
    case SaveFail(_) => l' == CutOff(l) || (l' == l && w'.stream.queue == w.stream.queue)
    case Start => IsHeadStep(w, w')
    case FetchOk(_) => IsHeadStep(w, w')
    case SaveAnswered => IsHeadStep(w, w')
    case CloseStream => l' == l.(closed := true)
    case _ => if IsDelivery(a) && |w.stream.queue| >= cfg.maxQueueDepth then l' == l.(overflowing := true) else l' == l && |w.stream.queue| <= |w'.stream.queue|
  }

  predicate IsHeadStep(w: World, w': World) {
    var l, l' := LinkOf(w.stream), LinkOf(w'.stream);
    && w.stream.queue != []
    && (|| (l' == l && w'.stream.queue == w.stream.queue)
        || (l' == AfterHead(l, w'.stream.last, |w.stream.queue| == 1) && w'.stream.queue == w.stream.queue[1..]))
  }

  lemma LinkStep(cfg: Config, w: World, a: Action)
    requires Enabled(w, a)
    ensures IsLinkStep(cfg, w, a, Step(cfg, w, a))
  {
    match a
    case Start => FinishLinks(w.stream);
    case FetchOk(_) => FinishLinks(w.stream);
    case FetchFail => FinishLinks(w.stream);
    case RenderFail(transient) => FailingLinks(cfg, w, transient);
    case SaveFail(transient) =>
      FailingLinks(cfg, w.(lost := w.lost + {w.stream.work.target}), transient);
      FinishLinks(w.stream);
    case SaveAnswered => AnswerLinks(w.stream, w.reply.value);
    case _ =>
  }

  // ----- Closed for good -------------------------------------------------------------------------

  predicate IsClosedBefore(actions: seq<Action>, k: nat)
    requires k <= |actions|
  {
    exists i :: 0 <= i < k && actions[i].CloseStream?
  }

  lemma ClosedStep(cfg: Config, w: World, a: Action, w': World)
    requires IsLinkStep(cfg, w, a, w')
    ensures w'.stream.closed <==> w.stream.closed || a.CloseStream?
  {
  }

  /** A stream is closed exactly when it was asked to close, at any time before. */
  lemma {:induction false} ClosedIffAsked(cfg: Config, log: seq<nat>, cursor: nat, ws: seq<World>, actions: seq<Action>, k: nat)
    requires IsTraceOf(cfg, log, cursor, ws, actions) && k < |ws|
    ensures ws[k].stream.closed <==> IsClosedBefore(actions, k)
  {
    if k > 0 {
      ClosedIffAsked(cfg, log, cursor, ws, actions, k - 1);
      assert IsTraceStep(cfg, ws, actions, k - 1);
      LinkStep(cfg, ws[k - 1], actions[k - 1]);
      ClosedStep(cfg, ws[k - 1], actions[k - 1], ws[k]);
    }
  }

  // ----- Subscriptions ---------------------------------------------------------------------------

  /** The step opened a new subscription. */
  predicate Subscribes(w: World, w': World) {
    w'.stream.subscription.Some? && w'.stream.generation != w.stream.generation
  }

  /** The connection is gone, nothing of it still counts, and an open stream will try again. */
  ghost predicate IsCutOff(w: World, w': World) {
    && w'.stream.subscription.None? && w'.stream.generation > w.stream.generation
    && (!w'.stream.closed ==>
          && w'.stream.retryPending
          && forall q :: 0 <= q < |w'.stream.queue| ==> w'.stream.queue[q].generation < w'.stream.generation)
  }

  lemma SubscribeStep(cfg: Config, w: World, a: Action, w': World)
    requires IsLinkStep(cfg, w, a, w') && Subscribes(w, w')
    ensures a.Timer? || !w'.stream.closed
    ensures !w'.stream.overflowing && w'.stream.subscription == Some(w'.stream.last)
  {
  }

  lemma DeliveryStartsBehind(cfg: Config, w: World, a: Action)
    requires Enabled(w, a) && Subscribes(w, Step(cfg, w, a))
    ensures var w' := Step(cfg, w, a);
            w'.log == w.log && w'.next == StartAfter(w'.log, w'.stream.subscription.value) && (a.Timer? ==> !w'.stream.closed)
  {
  }

  /** The subscription delivers exactly the log events past sequence `after` next. */
  ghost predicate StartsBehind(w: World, after: nat) {
    && w.next <= |w.log|
    && (forall i :: 0 <= i < w.next ==> w.log[i] <= after)
    && (forall i :: w.next <= i < |w.log| ==> w.log[i] > after)
  }

  /** Only an open stream subscribes, and always behind its own cursor. */
  lemma SubscribesBehindCursor(cfg: Config, log: seq<nat>, cursor: nat, ws: seq<World>, actions: seq<Action>, k: nat)
    requires IsTraceOf(cfg, log, cursor, ws, actions) && k < |actions| && Subscribes(ws[k], ws[k + 1])
    ensures !IsClosedBefore(actions, k + 1) && !ws[k + 1].stream.overflowing
    ensures ws[k + 1].stream.subscription == Some(ws[k + 1].stream.last) && StartsBehind(ws[k + 1], ws[k + 1].stream.last)
  {
    OpenedIsValid(cfg, log, cursor);
    TraceKeeps(cfg, ws, actions, k + 1);
    ClosedIffAsked(cfg, log, cursor, ws, actions, k + 1);
    assert IsTraceStep(cfg, ws, actions, k);
    LinkStep(cfg, ws[k], actions[k]);
    SubscribeStep(cfg, ws[k], actions[k], ws[k + 1]);
    DeliveryStartsBehind(cfg, ws[k], actions[k]);
    StartAfterIsExact(ws[k + 1].log, ws[k + 1].stream.last);
  }

  /** Exactly a retry that fires, and the draining of an overflow with no retry pending, subscribe. */
  lemma SubscribesIffDue(cfg: Config, w: World, a: Action)
    requires Enabled(w, a)
    ensures var w' := Step(cfg, w, a);
            Subscribes(w, w') <==>
              a.Timer? || (!w.stream.closed && w.stream.overflowing && !w.stream.retryPending && w.stream.queue != [] && w'.stream.queue == []
                           && !w'.stream.retryPending)
  {
  }

  // ----- Losing the connection -------------------------------------------------------------------

  /** An action that fails the connection, a fetch, or a write that is not behind a render. */
  predicate CutsOffAt(actions: seq<Action>, k: nat)
    requires k < |actions|
  {
    actions[k].SseError? || actions[k].FetchFail? || (actions[k].SaveFail? && !FollowsRender(actions, k))
  }

  /**
   * Every error of the connection, failed fetch or failed write of a dead letter or a snapshot cuts
   * the stream off with a retry pending, moves no cursor and handles nothing; a failed task leaves
   * the queue.
   */
  lemma CutOffIsRetried(cfg: Config, log: seq<nat>, cursor: nat, ws: seq<World>, actions: seq<Action>, k: nat)
    requires IsTraceOf(cfg, log, cursor, ws, actions) && k < |actions| && CutsOffAt(actions, k)
    ensures !actions[k].SseError? ==> ws[k].stream.queue != []
    ensures IsCutOff(ws[k], ws[k + 1])
    ensures ws[k + 1].stream.last == ws[k].stream.last && ws[k + 1].stored == ws[k].stored
    ensures ws[k + 1].stream.queue == if actions[k].SseError? then ws[k].stream.queue else ws[k].stream.queue[1..]
    ensures ws[k + 1].rendered == ws[k].rendered && ws[k + 1].deadLettered == ws[k].deadLettered
    ensures ws[k + 1].snapshotTo == ws[k].snapshotTo
  {
    OpenedIsValid(cfg, log, cursor);
    TraceKeeps(cfg, ws, actions, k);
    PurposeStaysTold(cfg, ws, actions, k);
    assert IsTraceStep(cfg, ws, actions, k);
  }

  // ----- Which deliveries are queued -------------------------------------------------------------

  predicate IsDelivery(a: Action) {
    a.Deliver? || a.DeliverSnapshot? || a.DeliverLate?
  }

  /** Some delivery before `k` found the queue full, and the stream has not subscribed since. */
  function HasRefused(cfg: Config, ws: seq<World>, actions: seq<Action>, k: nat): bool
    requires k <= |actions| && |ws| == |actions| + 1
  {
    if k == 0 then false
    else if Subscribes(ws[k - 1], ws[k]) then false
    else if IsDelivery(actions[k - 1]) && |ws[k - 1].stream.queue| >= cfg.maxQueueDepth then true
    else HasRefused(cfg, ws, actions, k - 1)
  }

  lemma OverflowStep(cfg: Config, w: World, a: Action, w': World)
    requires IsLinkStep(cfg, w, a, w')
    ensures w'.stream.overflowing == if Subscribes(w, w') then false
                                     else w.stream.overflowing || (IsDelivery(a) && |w.stream.queue| >= cfg.maxQueueDepth)
  {
  }

  lemma {:induction false} OverflowIsTold(cfg: Config, ws: seq<World>, actions: seq<Action>, k: nat)
    requires IsTrace(cfg, ws, actions) && k < |ws| && !ws[0].stream.overflowing
    ensures ws[k].stream.overflowing == HasRefused(cfg, ws, actions, k)
  {
    if k > 0 {
      OverflowIsTold(cfg, ws, actions, k - 1);
      assert IsTraceStep(cfg, ws, actions, k - 1);
      LinkStep(cfg, ws[k - 1], actions[k - 1]);
      OverflowStep(cfg, ws[k - 1], actions[k - 1], ws[k]);
    }
  }

  /** The event of a delivery, with the generation of the subscription that reports it. */
  function TaskOf(w: World, a: Action): Task
    requires Enabled(w, a) && IsDelivery(a)
  {
    match a
    case Deliver => Task(Plain(w.log[w.next]), w.stream.generation)
    case DeliverSnapshot(sequence, latest) => Task(SnapshotRequired(sequence, latest), w.stream.generation)
    case DeliverLate(event, generation) => Task(event, generation)
  }

  /**
   * A delivery joins the back of the queue exactly when the queue has room and no delivery was
   * refused since the stream last subscribed; otherwise the queue stays as it is.
   */
  lemma QueuedIffRoom(cfg: Config, log: seq<nat>, cursor: nat, ws: seq<World>, actions: seq<Action>, k: nat)
    requires IsTraceOf(cfg, log, cursor, ws, actions) && k < |actions| && IsDelivery(actions[k])
    ensures Enabled(ws[k], actions[k])
    ensures ws[k + 1].stream.queue
         == if |ws[k].stream.queue| < cfg.maxQueueDepth && !HasRefused(cfg, ws, actions, k)
            then ws[k].stream.queue + [TaskOf(ws[k], actions[k])] else ws[k].stream.queue
  {
    OverflowIsTold(cfg, ws, actions, k);
    assert IsTraceStep(cfg, ws, actions, k);
  }

  // ----- Which queued events are started ---------------------------------------------------------

  /**
   * The event whose turn it is is rendered exactly when the stream was not asked to close, the event
   * came by the current subscription and is past the cursor; a snapshot notice of the current
   * subscription is fetched; everything else leaves the queue untouched by either.
   */
  lemma StartedIffCurrent(cfg: Config, log: seq<nat>, cursor: nat, ws: seq<World>, actions: seq<Action>, k: nat)
    requires IsTraceOf(cfg, log, cursor, ws, actions) && k < |actions| && actions[k].Start?
    ensures ws[k].stream.queue != []
    ensures var task, work := ws[k].stream.queue[0], ws[k + 1].stream.work;
            var current := !IsClosedBefore(actions, k) && task.generation == ws[k].stream.generation;
            && (work.Rendering? <==> current && task.event.Plain? && task.event.sequence > ws[k].stream.last)
            && (work.Fetching? <==> current && task.event.SnapshotRequired?)
            && (!work.Rendering? && !work.Fetching? ==> work.NotStarted?)
            && ws[k + 1].stream.queue == if work.NotStarted? then ws[k].stream.queue[1..] else ws[k].stream.queue
    ensures ws[k + 1].stream.last == ws[k].stream.last && ws[k + 1].stored == ws[k].stored
  {
    ClosedIffAsked(cfg, log, cursor, ws, actions, k);
    assert IsTraceStep(cfg, ws, actions, k);
  }

  /** A rendered event is written behind itself, and an answered write moves the cursor there and the queue on. */
  lemma AnswerMovesOn(cfg: Config, w: World, a: Action)
    requires Enabled(w, a) && (a.RenderOk? || a.SaveAnswered?)
    ensures var s, s' := w.stream, Step(cfg, w, a).stream;
            if a.RenderOk? then s'.queue == s.queue && s'.work == Saving(s.queue[0].event.sequence, AfterRender) && s'.last == s.last
            else s'.queue == s.queue[1..] && s'.work.NotStarted? && s'.last == w.reply.value
  {
  }

  /** Nothing is under way in `t` that was not in `s`. */
  predicate IsQuieter(s: Stream, t: Stream) {
    && (t.subscription.Some? ==> t.generation == s.generation)
    && (t.work.Rendering? ==> s.work.Rendering?)
    && (t.work.Fetching? ==> s.work.Fetching?)
    && (t.retryPending ==> s.retryPending)
  }

  lemma ClosedFinish(s: Stream)
    requires s.closed && s.queue != []
    ensures IsQuieter(s, Finish(s)) && IsQuieter(s, Finish(Reconnect(s)))
    ensures IsQuieter(s, Begin(s))
  {
  }

  lemma ClosedFailure(cfg: Config, w: World, transient: bool)
    requires w.stream.closed && w.stream.queue != []
    ensures IsQuieter(w.stream, Failing(cfg, w, transient).stream)
  {
  }

  lemma ClosedWorkStep(cfg: Config, w: World, a: Action)
    requires Enabled(w, a) && w.stream.closed
    ensures IsQuieter(w.stream, Step(cfg, w, a).stream)
  {
    if w.stream.queue != [] {
      ClosedFinish(w.stream);
    }
    match a
    case RenderFail(transient) => ClosedFailure(cfg, w, transient);
    case SaveFail(transient) => ClosedFailure(cfg, w.(lost := w.lost + {w.stream.work.target}), transient);
    case SaveAnswered => AnswerMovesOn(cfg, w, a);
    case _ =>
  }

  /** Once closed: no subscription is opened, and only what was under way can still finish. */
  lemma ClosedStartsNothing(cfg: Config, log: seq<nat>, cursor: nat, ws: seq<World>, actions: seq<Action>, k: nat)
    requires IsTraceOf(cfg, log, cursor, ws, actions) && k < |actions| && IsClosedBefore(actions, k)
    ensures !Subscribes(ws[k], ws[k + 1]) && !actions[k].Timer? && !actions[k].Deliver?
    ensures ws[k + 1].stream.work.Rendering? ==> ws[k].stream.work.Rendering?
    ensures ws[k + 1].stream.work.Fetching? ==> ws[k].stream.work.Fetching?
    ensures !ws[k].stream.retryPending ==> !ws[k + 1].stream.retryPending
  {
    ClosedIffAsked(cfg, log, cursor, ws, actions, k);
    assert IsTraceStep(cfg, ws, actions, k);
    ClosedWorkStep(cfg, ws[k], actions[k]);
  }
}
