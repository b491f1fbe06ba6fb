/**
 * When a failed render is retried and when the event is given up, told by the history of a run: by
 * what failed, how, and how often since the event last got through. The records of a run are exact:
 * an event is rendered, dead-lettered or covered by a snapshot only by the action that says so.
 */
module SessionStreamRetries {
  import opened Wrappers
  import opened SessionStream
  import opened SessionStreamCursor

  // ----- What the actions of a run say -----------------------------------------------------------

  predicate IsOutcome(a: Action) {
    a.RenderOk? || a.RenderFail? || a.FetchOk? || a.SaveFail?
  }

  /** The latest outcome of a render, a fetch or a failed write before action `k`. */
  function LatestOutcome(actions: seq<Action>, k: nat): Option<Action>
    requires k <= |actions|
  {
    if k == 0 then None
    else if IsOutcome(actions[k - 1]) then Some(actions[k - 1])
    else LatestOutcome(actions, k - 1)
  }

  predicate FollowsRender(actions: seq<Action>, k: nat)
    requires k <= |actions|
  {
    LatestOutcome(actions, k) == Some(RenderOk)
  }

  predicate FollowsFetch(actions: seq<Action>, k: nat)
    requires k <= |actions|
  {
    LatestOutcome(actions, k).Some? && LatestOutcome(actions, k).value.FetchOk?
  }

  /** Action `k` is a failed render, or the failed cursor write behind a render. */
  predicate FailsAt(actions: seq<Action>, k: nat)
    requires k < |actions|
  {
    actions[k].RenderFail? || (actions[k].SaveFail? && FollowsRender(actions, k))
  }

  /** Action `k` ends the cursor write behind a render or a dead letter well. */
  predicate GetsThroughAt(actions: seq<Action>, k: nat)
    requires k < |actions|
  {
    actions[k].SaveAnswered? && !FollowsFetch(actions, k)
  }

  /** The event whose turn it is. */
  predicate IsAtHead(w: World, e: nat) {
    w.stream.queue != [] && w.stream.queue[0].event.sequence == e
  }

  /** Failures of event `e` among the first `k` actions since it last got through. */
  function FailureCount(ws: seq<World>, actions: seq<Action>, k: nat, e: nat): nat
    requires k <= |actions| && |ws| == |actions| + 1
  {
    if k == 0 then 0
    else if !IsAtHead(ws[k - 1], e) then FailureCount(ws, actions, k - 1, e)
    else if FailsAt(actions, k - 1) then FailureCount(ws, actions, k - 1, e) + 1
    else if GetsThroughAt(actions, k - 1) then 0
    else FailureCount(ws, actions, k - 1, e)
  }

  /** Action `k` fails event `e` for good: permanently, or as often as events are tried. */
  predicate GivesUpAt(cfg: Config, ws: seq<World>, actions: seq<Action>, k: nat, e: nat)
    requires k < |actions| && |ws| == |actions| + 1
  {
    && IsAtHead(ws[k], e) && FailsAt(actions, k)
    && (!actions[k].transient || FailureCount(ws, actions, k + 1, e) >= Max(1, cfg.maxRenderAttempts))
  }

  ghost predicate IsTraceOf(cfg: Config, log: seq<nat>, cursor: nat, ws: seq<World>, actions: seq<Action>) {
    cfg.maxQueueDepth >= 1 && Increasing(log) && IsTrace(cfg, ws, actions) && ws[0] == Opened(log, cursor)
  }

  // ----- The stream's own books agree with the history -------------------------------------------

  lemma FailingWork(cfg: Config, w: World, transient: bool)
    requires w.stream.queue != []
    ensures var work := Failing(cfg, w, transient).stream.work; work.Saving? ==> work.purpose == AfterFailure
  {
    var s, e := w.stream, w.stream.queue[0].event.sequence;
    FinishFrame(Reconnect(s.(renderFailures := s.renderFailures[e := Failures(s, e) + 1])));
  }

  lemma AnswerWork(s: Stream, stored: nat)
    requires s.queue != [] && s.work.Saving?
    ensures Saved(s, stored).work.NotStarted?
  {
    FinishFrame(s.(last := stored));
    FinishFrame(s.(last := stored, renderFailures := s.renderFailures - {s.queue[0].event.sequence}));
  }

  /** Where a cursor write under way comes from. */
  lemma WriteStep(cfg: Config, w: World, a: Action)
    requires Enabled(w, a)
    ensures var work := Step(cfg, w, a).stream.work;
            work.Saving? ==>
              match a
              case RenderOk => work.purpose == AfterRender
              case FetchOk(_) => work.purpose == AfterSnapshot
              case RenderFail(_) => work.purpose == AfterFailure
              case SaveFail(_) => work.purpose == AfterFailure
              case _ => work == w.stream.work
  {
    match a
    case Start => FinishFrame(w.stream);
    case FetchOk(_) => FinishFrame(w.stream);
    case FetchFail => FinishFrame(Reconnect(w.stream));
    case RenderFail(transient) => FailingWork(cfg, w, transient);
    case SaveFail(transient) =>
      FailingWork(cfg, w.(lost := w.lost + {w.stream.work.target}), transient);
      FinishFrame(Reconnect(w.stream));
    case SaveAnswered => AnswerWork(w.stream, w.reply.value);
    case _ =>
  }

  predicate PurposeIsTold(s: Stream, actions: seq<Action>, k: nat)
    requires k <= |actions|
  {
    s.work.Saving? ==>
      (s.work.purpose == AfterRender <==> FollowsRender(actions, k)) && (s.work.purpose == AfterSnapshot <==> FollowsFetch(actions, k))
  }

  lemma {:induction false} PurposeStaysTold(cfg: Config, ws: seq<World>, actions: seq<Action>, k: nat)
    requires IsTrace(cfg, ws, actions) && k < |ws| && !ws[0].stream.work.Saving?
    ensures PurposeIsTold(ws[k].stream, actions, k)
  {
    if k > 0 && ws[k].stream.work.Saving? {
      PurposeStaysTold(cfg, ws, actions, k - 1);
      assert IsTraceStep(cfg, ws, actions, k - 1);
      WriteStep(cfg, ws[k - 1], actions[k - 1]);
    }
  }

  /** The step fails the render at the head, or the write behind it. */
  predicate FailsHead(w: World, a: Action) {
    a.RenderFail? || (a.SaveFail? && w.stream.work.Saving? && w.stream.work.purpose == AfterRender)
  }

  /** The step ends the write behind a render or a dead letter well. */
  predicate PassesHead(w: World, a: Action) {
    a.SaveAnswered? && w.stream.work.Saving? && w.stream.work.purpose != AfterSnapshot
  }

  lemma HeadStep(w: World, actions: seq<Action>, k: nat)
    requires k < |actions| && Enabled(w, actions[k]) && PurposeIsTold(w.stream, actions, k)
    ensures FailsHead(w, actions[k]) <==> FailsAt(actions, k)
    ensures PassesHead(w, actions[k]) <==> GetsThroughAt(actions, k)
  {
  }

  lemma FailingBooks(cfg: Config, w: World, transient: bool, e: nat)
    requires w.stream.queue != []
    ensures Failures(Failing(cfg, w, transient).stream, e) == Failures(w.stream, e) + if IsAtHead(w, e) then 1 else 0
  {
    var s, h := w.stream, w.stream.queue[0].event.sequence;
    var t := s.(renderFailures := s.renderFailures[h := Failures(s, h) + 1]);
    FinishFrame(Reconnect(t));
    assert Failing(cfg, w, transient).stream.renderFailures == t.renderFailures;
  }

  lemma AnswerBooks(cfg: Config, w: World, e: nat)
    requires Enabled(w, SaveAnswered)
    ensures Failures(Step(cfg, w, SaveAnswered).stream, e)
         == if IsAtHead(w, e) && PassesHead(w, SaveAnswered) then 0 else Failures(w.stream, e)
  {
    var s := w.stream;
    FinishFrame(s.(last := w.reply.value));
    FinishFrame(s.(last := w.reply.value, renderFailures := s.renderFailures - {s.queue[0].event.sequence}));
  }

  lemma OtherBooks(cfg: Config, w: World, a: Action)
    requires Enabled(w, a) && !FailsHead(w, a) && !a.SaveAnswered?
    ensures Step(cfg, w, a).stream.renderFailures == w.stream.renderFailures
  {
    if w.stream.queue != [] {
      FinishFrame(w.stream);
      FinishFrame(Reconnect(w.stream));
    }
  }

  /** What one step does to the failures on the books. */
  lemma BooksStep(cfg: Config, w: World, a: Action, e: nat)
    requires Enabled(w, a)
    ensures var before, after := Failures(w.stream, e), Failures(Step(cfg, w, a).stream, e);
            if IsAtHead(w, e) && FailsHead(w, a) then after == before + 1
            else if IsAtHead(w, e) && PassesHead(w, a) then after == 0
            else after == before
  {
    if a.RenderFail? {
      FailingBooks(cfg, w, a.transient, e);
    } else if FailsHead(w, a) {
      FailingBooks(cfg, w.(lost := w.lost + {w.stream.work.target}), a.transient, e);
    } else if a.SaveAnswered? {
      AnswerBooks(cfg, w, e);
    } else {
      OtherBooks(cfg, w, a);
    }
  }

  lemma {:induction false} BooksAreExact(cfg: Config, ws: seq<World>, actions: seq<Action>, k: nat, e: nat)
    requires IsTrace(cfg, ws, actions) && k < |ws| && !ws[0].stream.work.Saving? && ws[0].stream.renderFailures == map[]
    ensures Failures(ws[k].stream, e) == FailureCount(ws, actions, k, e)
  {
    if k > 0 {
      BooksAreExact(cfg, ws, actions, k - 1, e);
      PurposeStaysTold(cfg, ws, actions, k - 1);
      assert IsTraceStep(cfg, ws, actions, k - 1);
      HeadStep(ws[k - 1], actions, k - 1);
      BooksStep(cfg, ws[k - 1], actions[k - 1], e);
    }
  }

  // ----- Given up or retried ---------------------------------------------------------------------

  /** The failed event left the queue unhandled, with the cursors where they were and a retry to come. */
  predicate IsRetried(w: World, w': World) {
    && w.stream.queue != [] && w'.stream.queue == w.stream.queue[1..] && w'.stream.work.NotStarted?
    && w'.stream.last == w.stream.last && w'.stored == w.stored
    && (w'.stream.closed || (w'.stream.retryPending && w'.stream.subscription.None?))
  }

  /** The cursor write past the failed event is under way. */
  predicate IsBeingPassed(w: World, w': World, e: nat) {
    w'.stream.queue == w.stream.queue && w'.stream.work.Saving? && w'.stream.work.target == e && w'.stored == w.stored
  }

  /** The failure of an event that has failed `n` times since it last got through, this time included. */
  lemma FailingHead(cfg: Config, w: World, transient: bool, e: nat, n: nat)
    requires IsAtHead(w, e) && n == Failures(w.stream, e) + 1
    ensures var w' := Failing(cfg, w, transient);
            if !transient || n >= Max(1, cfg.maxRenderAttempts) then
              w'.deadLettered == w.deadLettered + {e} && IsBeingPassed(w, w', e)
            else w'.deadLettered == w.deadLettered && IsRetried(w, w')
  {
    FinishFrame(Reconnect(w.stream.(renderFailures := w.stream.renderFailures[e := n])));
  }

  lemma DeadLetterStep(cfg: Config, w: World, a: Action)
    requires Enabled(w, a) && !FailsHead(w, a)
    ensures Step(cfg, w, a).deadLettered == w.deadLettered
  {
  }

  /**
   * In every run an event becomes a dead letter exactly at a failure of its render, or of the write
   * behind its render, that was permanent or brought its failures since it last got through to
   * max(1, maxRenderAttempts); its cursor write is then under way. Every other such failure leaves
   * the dead letters alone and, on an open stream, a retry pending.
   */
  lemma GivenUpIffExhausted(cfg: Config, log: seq<nat>, cursor: nat, ws: seq<World>, actions: seq<Action>, k: nat, e: nat)
    requires IsTraceOf(cfg, log, cursor, ws, actions) && k < |actions|
    ensures e in ws[k + 1].deadLettered <==> e in ws[k].deadLettered || GivesUpAt(cfg, ws, actions, k, e)
    ensures GivesUpAt(cfg, ws, actions, k, e) ==> IsBeingPassed(ws[k], ws[k + 1], e)
    ensures IsAtHead(ws[k], e) && FailsAt(actions, k) && !GivesUpAt(cfg, ws, actions, k, e) ==> IsRetried(ws[k], ws[k + 1])
  {
    var w, a := ws[k], actions[k];
    assert IsTraceStep(cfg, ws, actions, k);
    PurposeStaysTold(cfg, ws, actions, k);
    HeadStep(w, actions, k);
    if FailsHead(w, a) {
      var h := w.stream.queue[0].event.sequence;
      BooksAreExact(cfg, ws, actions, k, h);
      FailingHead(cfg, w, a.transient, h, Failures(w.stream, h) + 1);
      if a.SaveFail? {
        FailingHead(cfg, w.(lost := w.lost + {w.stream.work.target}), a.transient, h, Failures(w.stream, h) + 1);
      }
    } else {
      DeadLetterStep(cfg, w, a);
    }
  }

  /** Every dead letter of a run was given up by one of its actions. */
  lemma {:induction false} DeadLetterWasGivenUp(cfg: Config, log: seq<nat>, cursor: nat, ws: seq<World>, actions: seq<Action>, k: nat, e: nat) returns (i: nat)
    requires IsTraceOf(cfg, log, cursor, ws, actions) && k < |ws| && e in ws[k].deadLettered
    ensures i < k && GivesUpAt(cfg, ws, actions, i, e)
  {
    GivenUpIffExhausted(cfg, log, cursor, ws, actions, k - 1, e);
    if e in ws[k - 1].deadLettered {
      i := DeadLetterWasGivenUp(cfg, log, cursor, ws, actions, k - 1, e);
    } else {
      i := k - 1;
    }
  }

  // ----- Every event behind the cursor has a cause -----------------------------------------------

  /** `target` is the highest of the cursor, the two sequences of the snapshot event and the projection. */
  predicate IsSnapshotTarget(s: Stream, projection: nat, target: nat) {
    && s.queue != [] && s.queue[0].event.SnapshotRequired?
    && s.last <= target && s.queue[0].event.sequence <= target && s.queue[0].event.latest <= target && projection <= target
    && (target == s.last || target == s.queue[0].event.sequence || target == s.queue[0].event.latest || target == projection)
  }

  /** A fetched snapshot moves the cursor to the highest sequence it knows of, or does nothing. */
  lemma SnapshotMovesToHighest(cfg: Config, w: World, projection: nat) returns (target: nat)
    requires Enabled(w, FetchOk(projection))
    ensures IsSnapshotTarget(w.stream, projection, target)
    ensures var w' := Step(cfg, w, FetchOk(projection));
            && w'.stored == w.stored && w'.stream.last == w.stream.last
            && if target > w.stream.last then
                 && w'.snapshotTo == Max(w.snapshotTo, target)
                 && w'.stream.queue == w.stream.queue && w'.stream.work == Saving(target, AfterSnapshot)
               else w'.snapshotTo == w.snapshotTo && w'.stream.queue == w.stream.queue[1..] && w'.stream.work.NotStarted?
  {
    target := SnapshotTarget(w.stream, projection);
    FinishFrame(w.stream);
  }

  /** Only renders, fetched snapshots and other writers add to the records besides dead letters. */
  lemma RecordStep(cfg: Config, w: World, a: Action)
    requires Enabled(w, a)
    ensures var w' := Step(cfg, w, a);
            && (a.RenderOk? ==> w.stream.queue != [] && w'.rendered == w.rendered + {w.stream.queue[0].event.sequence})
            && (!a.RenderOk? ==> w'.rendered == w.rendered)
            && (!a.FetchOk? ==> w'.snapshotTo == w.snapshotTo)
            && w'.base == if a.OtherWriter? then Max(w.base, a.cursor) else w.base
  {
  }

  /** Action `k` is the reason that event `e` needs no more handling. */
  ghost predicate AccountsFor(cfg: Config, ws: seq<World>, actions: seq<Action>, k: nat, e: nat)
    requires k < |actions| && |ws| == |actions| + 1
  {
    || (actions[k].RenderOk? && IsAtHead(ws[k], e))
    || GivesUpAt(cfg, ws, actions, k, e)
    || (actions[k].FetchOk? && exists target :: IsSnapshotTarget(ws[k].stream, actions[k].projection, target) && e <= target)
    || (actions[k].OtherWriter? && e <= actions[k].cursor)
  }

  lemma {:induction false} HandledHasCause(cfg: Config, log: seq<nat>, cursor: nat, ws: seq<World>, actions: seq<Action>, k: nat, e: nat) returns (i: nat)
    requires IsTraceOf(cfg, log, cursor, ws, actions) && k < |ws| && Handled(ws[k], e) && e > cursor
    ensures i < k && AccountsFor(cfg, ws, actions, i, e)
  {
    if Handled(ws[k - 1], e) {
      i := HandledHasCause(cfg, log, cursor, ws, actions, k - 1, e);
    } else {
      i := k - 1;
      assert IsTraceStep(cfg, ws, actions, i);
      RecordStep(cfg, ws[i], actions[i]);
      GivenUpIffExhausted(cfg, log, cursor, ws, actions, i, e);
      if actions[i].FetchOk? {
        var target := SnapshotMovesToHighest(cfg, ws[i], actions[i].projection);
      }
    }
  }

  /**
   * No lost event, told by the actions alone: in every run, each log event past the opening cursor
   * and at or below the stored one has an earlier action that rendered it, gave it up, fetched a
   * snapshot reaching it, or was another writer's cursor at or past it.
   */
  lemma PassedEventHasCause(cfg: Config, log: seq<nat>, cursor: nat, ws: seq<World>, actions: seq<Action>, k: nat, e: nat) returns (i: nat)
    requires IsTraceOf(cfg, log, cursor, ws, actions) && k < |ws|
    requires e in ws[k].log && cursor < e <= ws[k].stored
    ensures i < k && AccountsFor(cfg, ws, actions, i, e)
  {
    OpenedIsValid(cfg, log, cursor);
    TraceKeeps(cfg, ws, actions, k);
    var p :| 0 <= p < |ws[k].log| && ws[k].log[p] == e;
    i := HandledHasCause(cfg, log, cursor, ws, actions, k, e);
  }
}
