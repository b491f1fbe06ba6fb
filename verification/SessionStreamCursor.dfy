/** How the two cursors of a stream move: the stored one only up, the stream's own exactly when an answer is overtaken. */
module SessionStreamCursor {
  import opened Wrappers
  import opened SessionStream

  lemma StepRaisesStored(cfg: Config, w: World, a: Action)
    requires Enabled(w, a)
    ensures w.stored <= Step(cfg, w, a).stored
  {
  }

  /** The stored cursor never decreases, whoever writes it. */
  lemma {:induction false} StoredNeverDecreases(cfg: Config, w: World, actions: seq<Action>, w': World)
    requires IsRun(cfg, w, actions, w')
    ensures w.stored <= w'.stored
    decreases |actions|
  {
    if actions != [] {
      StepRaisesStored(cfg, w, actions[0]);
      StoredNeverDecreases(cfg, Step(cfg, w, actions[0]), actions[1..], w');
    }
  }

  // ----- One step --------------------------------------------------------------------------------

  /** The stream's own cursor falls exactly when a cursor write is answered with a lower one. */
  lemma FallsOnlyByAnswer(cfg: Config, w: World, a: Action)
    requires Enabled(w, a)
    ensures Step(cfg, w, a).stream.last < w.stream.last <==> a.SaveAnswered? && w.reply.value < w.stream.last
  {
    var s := w.stream;
    if s.queue != [] {
      var e := s.queue[0].event.sequence;
      match a
      case SaveAnswered =>
        FinishFrame(s.(last := w.reply.value));
        FinishFrame(s.(last := w.reply.value, renderFailures := s.renderFailures - {e}));
      case SaveFail(_) => FailingKeepsLast(s);
      case RenderFail(_) => FailingKeepsLast(s);
      case FetchFail => FinishFrame(Reconnect(s));
      case _ => FinishFrame(s);
    }
  }

  lemma FailingKeepsLast(s: Stream)
    requires s.queue != []
    ensures Finish(Reconnect(s)).last == s.last
    ensures var e := s.queue[0].event.sequence;
            Finish(Reconnect(s.(renderFailures := s.renderFailures[e := Failures(s, e) + 1]))).last == s.last
  {
  }

  predicate IsAnswering(w: World) {
    w.stream.work.Saving? && w.reply.Some?
  }

  predicate EndsWrite(a: Action) {
    a.SaveAnswered? || a.SaveFail?
  }

  /** Between being applied and being answered a write stays as it is, and only `ensure` moves the own cursor. */
  lemma AnsweringStep(cfg: Config, w: World, a: Action)
    requires WorkIsEntitled(w) && Enabled(w, a) && !a.SaveApplied?
    ensures var w' := Step(cfg, w, a);
            && (IsAnswering(w') ==> IsAnswering(w) && !EndsWrite(a))
            && (IsAnswering(w) && !EndsWrite(a) ==>
                  && IsAnswering(w') && w'.reply == w.reply
                  && w'.stream.last == if a.EnsureReported? then Max(w.stream.last, a.reported) else w.stream.last)
  {
  }

  // ----- Whole runs ------------------------------------------------------------------------------

  ghost predicate IsTraceStep(cfg: Config, ws: seq<World>, actions: seq<Action>, k: nat)
    requires k < |actions| && |ws| == |actions| + 1
  {
    Enabled(ws[k], actions[k]) && ws[k + 1] == Step(cfg, ws[k], actions[k])
  }

  /** A run with all the states it goes through. */
  ghost predicate IsTrace(cfg: Config, ws: seq<World>, actions: seq<Action>) {
    && |ws| == |actions| + 1
    && (forall k :: 0 <= k < |actions| ==> IsTraceStep(cfg, ws, actions, k))
  }

  /** Every run has a trace. */
  lemma {:induction false} RunHasTrace(cfg: Config, w: World, actions: seq<Action>, w': World) returns (ws: seq<World>)
    requires IsRun(cfg, w, actions, w')
    ensures IsTrace(cfg, ws, actions) && ws[0] == w && ws[|actions|] == w'
    decreases |actions|
  {
    if actions == [] {
      ws := [w];
    } else {
      var rest := RunHasTrace(cfg, Step(cfg, w, actions[0]), actions[1..], w');
      ws := [w] + rest;
      forall k | 0 <= k < |actions| ensures IsTraceStep(cfg, ws, actions, k) {
        if k > 0 {
          assert IsTraceStep(cfg, rest, actions[1..], k - 1);
        }
      }
    }
  }

  lemma {:induction false} TraceKeeps(cfg: Config, ws: seq<World>, actions: seq<Action>, k: nat)
    requires IsTrace(cfg, ws, actions) && k < |ws| && Valid(cfg, ws[0])
    ensures Valid(cfg, ws[k])
  {
    if k > 0 {
      TraceKeeps(cfg, ws, actions, k - 1);
      assert IsTraceStep(cfg, ws, actions, k - 1);
      StepKeeps(cfg, ws[k - 1], actions[k - 1]);
    }
  }

  /** The write that action `i` applied is still in flight at `k`. */
  ghost predicate IsOpenWrite(actions: seq<Action>, i: nat, k: nat) {
    i < k <= |actions| && actions[i].SaveApplied? && forall m :: i < m < k ==> !EndsWrite(actions[m])
  }

  /** Action `j` reported more than the cloud had stored when action `i` was applied. */
  predicate Overtakes(ws: seq<World>, actions: seq<Action>, i: nat, j: nat)
    requires i < |actions| && j < |actions| && |ws| == |actions| + 1
  {
    ws[i + 1].reply.Some? && actions[j].EnsureReported? && actions[j].reported > ws[i + 1].reply.value
  }

  ghost predicate IsOvertaken(ws: seq<World>, actions: seq<Action>, k: nat)
    requires k <= |actions| && |ws| == |actions| + 1
  {
    exists i, j :: 0 <= i < j < k && IsOpenWrite(actions, i, k) && Overtakes(ws, actions, i, j)
  }

  /** From the application on, the answer is fixed and the own cursor is at least what was reported. */
  lemma {:induction false} OpenWriteStays(cfg: Config, ws: seq<World>, actions: seq<Action>, i: nat, k: nat)
    requires IsTrace(cfg, ws, actions) && Valid(cfg, ws[0]) && IsOpenWrite(actions, i, k)
    ensures IsAnswering(ws[k]) && ws[k].reply == ws[i + 1].reply && ws[i + 1].stream.last <= ws[i + 1].reply.value
    ensures forall j :: i < j < k && actions[j].EnsureReported? ==> actions[j].reported <= ws[k].stream.last
    ensures ws[k].stream.last > ws[k].reply.value ==> exists j :: i < j < k && Overtakes(ws, actions, i, j)
    decreases k
  {
    assert IsTraceStep(cfg, ws, actions, k - 1);
    TraceKeeps(cfg, ws, actions, k - 1);
    if i < k - 1 {
      OpenWriteStays(cfg, ws, actions, i, k - 1);
      if !actions[k - 1].SaveApplied? {
        AnsweringStep(cfg, ws[k - 1], actions[k - 1]);
        assert Overtakes(ws, actions, i, k - 1) ==> exists j :: i < j < k && Overtakes(ws, actions, i, j);
      }
    }
  }

  /** A write in flight was applied by some action and not ended since. */
  lemma {:induction false} AnsweringWasApplied(cfg: Config, ws: seq<World>, actions: seq<Action>, k: nat) returns (i: nat)
    requires IsTrace(cfg, ws, actions) && Valid(cfg, ws[0]) && !IsAnswering(ws[0]) && k < |ws| && IsAnswering(ws[k])
    ensures IsOpenWrite(actions, i, k)
    decreases k
  {
    assert IsTraceStep(cfg, ws, actions, k - 1);
    if actions[k - 1].SaveApplied? {
      i := k - 1;
    } else {
      TraceKeeps(cfg, ws, actions, k - 1);
      AnsweringStep(cfg, ws[k - 1], actions[k - 1]);
      i := AnsweringWasApplied(cfg, ws, actions, k - 1);
    }
  }

  /**
   * In every run the own cursor falls exactly when a cursor write is answered and, between its
   * application and its answer, `ensure` reported a cursor above the one it was answered with.
   */
  lemma CursorFallsIffOvertaken(cfg: Config, ws: seq<World>, actions: seq<Action>, k: nat)
    requires IsTrace(cfg, ws, actions) && Valid(cfg, ws[0]) && !IsAnswering(ws[0]) && k < |actions|
    ensures ws[k + 1].stream.last < ws[k].stream.last <==> actions[k].SaveAnswered? && IsOvertaken(ws, actions, k)
  {
    assert IsTraceStep(cfg, ws, actions, k);
    TraceKeeps(cfg, ws, actions, k);
    FallsOnlyByAnswer(cfg, ws[k], actions[k]);
    if actions[k].SaveAnswered? {
      if IsOvertaken(ws, actions, k) {
        var i, j :| 0 <= i < j < k && IsOpenWrite(actions, i, k) && Overtakes(ws, actions, i, j);
        OpenWriteStays(cfg, ws, actions, i, k);
      }
      if ws[k].reply.value < ws[k].stream.last {
        var i := AnsweringWasApplied(cfg, ws, actions, k);
        OpenWriteStays(cfg, ws, actions, i, k);
      }
    }
  }

  // ----- One writer, and two ---------------------------------------------------------------------

  /** Nobody else writes the cursor, and no failed write arrives after all. */
  ghost predicate OneWriter(actions: seq<Action>) {
    forall i :: 0 <= i < |actions| ==> !actions[i].OtherWriter? && !actions[i].LateWrite?
  }

  /** With one writer, the answer of a cursor write is what the cloud still stores. */
  predicate AnswerIsCurrent(w: World) {
    IsAnswering(w) ==> w.reply.value == w.stored
  }

  lemma OneWriterStep(cfg: Config, w: World, a: Action)
    requires WorkIsEntitled(w) && w.stream.last <= w.stored && AnswerIsCurrent(w) && Enabled(w, a) && !a.OtherWriter? && !a.LateWrite?
    ensures AnswerIsCurrent(Step(cfg, w, a))
    ensures w.stream.last <= Step(cfg, w, a).stream.last
  {
    FallsOnlyByAnswer(cfg, w, a);
    if !a.SaveApplied? {
      AnsweringStep(cfg, w, a);
      StoredFrame(cfg, w, a);
    }
  }

  lemma StoredFrame(cfg: Config, w: World, a: Action)
    requires Enabled(w, a) && !a.SaveApplied? && !a.OtherWriter? && !a.LateWrite?
    ensures Step(cfg, w, a).stored == w.stored
  {
  }

  /** With one writer the stream's own cursor never decreases either. */
  lemma {:induction false} CursorNeverDecreases(cfg: Config, w: World, actions: seq<Action>, w': World)
    requires Valid(cfg, w) && AnswerIsCurrent(w) && IsRun(cfg, w, actions, w') && OneWriter(actions)
    ensures w.stream.last <= w'.stream.last
    decreases |actions|
  {
    if actions != [] {
      var w1 := Step(cfg, w, actions[0]);
      OneWriterStep(cfg, w, actions[0]);
      StepKeeps(cfg, w, actions[0]);
      assert OneWriter(actions[1..]);
      CursorNeverDecreases(cfg, w1, actions[1..], w');
    }
  }

  ghost predicate Reachable(cfg: Config, w: World) {
    exists log, cursor, actions :: Increasing(log) && IsRun(cfg, Opened(log, cursor), actions, w)
  }

  lemma {:induction false} RunExtends(cfg: Config, w: World, actions: seq<Action>, w': World, a: Action)
    requires IsRun(cfg, w, actions, w') && Enabled(w', a)
    ensures IsRun(cfg, w, actions + [a], Step(cfg, w', a))
    decreases |actions|
  {
    if actions == [] {
      assert (actions + [a])[1..] == [];
    } else {
      assert (actions + [a])[1..] == actions[1..] + [a];
      RunExtends(cfg, Step(cfg, w, actions[0]), actions[1..], w', a);
    }
  }

  lemma ReachableStep(cfg: Config, w: World, a: Action)
    requires Reachable(cfg, w) && Enabled(w, a)
    ensures Reachable(cfg, Step(cfg, w, a))
  {
    var log, cursor, actions :| Increasing(log) && IsRun(cfg, Opened(log, cursor), actions, w);
    RunExtends(cfg, Opened(log, cursor), actions, w, a);
  }

  const NARROW := Config(1, 1)

  function OneEventWorld(work: Work): World {
    World(Stream(0, 1, Some(0), [Task(Plain(1), 1)], work, false, false, false, map[]), [1], 1, 0, None, {}, 0, {}, {}, 0)
  }

  lemma OneEventDelivered()
    ensures Reachable(NARROW, OneEventWorld(NotStarted))
  {
    var w0 := Opened([1], 0);
    assert IsRun(NARROW, w0, [], w0) && Increasing([1]);
    assert StartAfter([1], 0) == 0 by { assert [1][..0] == []; }
    ReachableStep(NARROW, w0, Deliver);
    assert OneEventWorld(NotStarted) == Step(NARROW, w0, Deliver);
  }

  lemma OneEventRendered()
    ensures Reachable(NARROW, OneEventWorld(Saving(1, AfterRender)).(rendered := {1}))
  {
    OneEventDelivered();
    ReachableStep(NARROW, OneEventWorld(NotStarted), Start);
    assert OneEventWorld(Rendering) == Step(NARROW, OneEventWorld(NotStarted), Start);
    ReachableStep(NARROW, OneEventWorld(Rendering), RenderOk);
    assert OneEventWorld(Saving(1, AfterRender)).(rendered := {1}) == Step(NARROW, OneEventWorld(Rendering), RenderOk);
  }

  /** A second writer can make it decrease: its report overtakes the answer of a write in flight. */
  lemma SecondWriterCanLowerCursor() returns (cfg: Config, before: World, a: Action)
    ensures Reachable(cfg, before) && Enabled(before, a) && !a.OtherWriter?
    ensures Step(cfg, before, a).stream.last < before.stream.last
  {
    cfg := NARROW;
    var w3 := OneEventWorld(Saving(1, AfterRender)).(rendered := {1});
    OneEventRendered();
    ReachableStep(cfg, w3, SaveApplied);
    var w4 := w3.(stored := 1, reply := Some(1));
    assert w4 == Step(cfg, w3, SaveApplied);
    ReachableStep(cfg, w4, OtherWriter(5));
    var w5 := w4.(stored := 5, base := 5);
    assert w5 == Step(cfg, w4, OtherWriter(5));
    ReachableStep(cfg, w5, EnsureReported(5));
    before := w5.(stream := w5.stream.(last := 5));
    assert before == Step(cfg, w5, EnsureReported(5));
    a := SaveAnswered;
  }
}
