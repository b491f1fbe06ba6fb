/**
 * The mutable state of one stream; its methods are the callbacks, in place. Between callbacks the
 * stream is never wedged: it has exactly one of a live subscription and a pending retry, its queue
 * is within its bound, and an overflow will be lifted.
 */
module SessionStreamState {
  import opened Wrappers
  import S = SessionStream

  class StreamState {
    const cfg: S.Config
    var lastEventSequence: nat
    var generation: nat
    var subscription: Option<nat>
    var queue: seq<S.Task>
    var queueDepth: nat
    var work: S.Work
    var overflowing: bool
    var closed: bool
    var retryTimer: bool
    var renderFailures: map<nat, nat>

    ghost predicate DepthIsExact()
      reads this
    {
      queueDepth == |queue|
    }

    ghost predicate Valid()
      reads this
    {
      DepthIsExact() && cfg.maxQueueDepth >= 1 && S.NotWedged(cfg, View())
    }

    ghost function View(): S.Stream
      reads this
    {
      S.Stream(lastEventSequence, generation, subscription, queue, work, overflowing, closed, retryTimer, renderFailures)
    }

    constructor (maxQueueDepth: int, maxRenderAttempts: int, last: nat)
      ensures Valid() && View() == S.InitialStream(last)
      ensures cfg == S.Config(S.Max(1, maxQueueDepth), maxRenderAttempts)
    {
      cfg := S.Config(S.Max(1, maxQueueDepth), maxRenderAttempts);
      lastEventSequence, generation, subscription, queue, queueDepth := last, 0, None, [], 0;
      work, overflowing, closed, retryTimer, renderFailures := S.NotStarted, false, false, false, map[];
      new;
      Subscribe();
    }

    method Subscribe()
      requires DepthIsExact()
      modifies this
      ensures DepthIsExact() && View() == S.Subscribe(old(View()))
    {
      if closed {
        return;
      }
      overflowing := false;
      generation := generation + 1;
      subscription := Some(lastEventSequence);
    }

    method ScheduleRetry()
      requires DepthIsExact()
      modifies this
      ensures DepthIsExact() && View() == old(View()).(retryPending := old(retryTimer) || !closed)
    {
      if closed || retryTimer {
        return;
      }
      retryTimer := true;
    }

    method Reconnect()
      requires DepthIsExact()
      modifies this
      ensures DepthIsExact() && View() == S.Reconnect(old(View()))
      ensures S.NotWedged(cfg, old(View())) ==> S.NotWedged(cfg, View())
    {
      generation := generation + 1;
      subscription := None;
      ScheduleRetry();
    }

    /** The subscription failed. */
    method OnSseError()
      requires Valid()
      modifies this
      ensures Valid() && View() == S.Reconnect(old(View()))
    {
      Reconnect();
    }

    method OnEvent(event: S.Event, eventGeneration: nat)
      requires Valid()
      modifies this
      ensures Valid() && View() == S.OnEvent(cfg, old(View()), event, eventGeneration)
    {
      if overflowing {
        return;
      }
      if queueDepth >= cfg.maxQueueDepth {
        overflowing := true;
        return;
      }
      queueDepth := queueDepth + 1;
      queue := queue + [S.Task(event, eventGeneration)];
    }

    method OnTimer()
      requires Valid()
      modifies this
      ensures Valid() && View() == S.TimerFired(old(View()))
    {
      retryTimer := false;
      Subscribe();
    }

    method Finish()
      requires DepthIsExact() && queue != []
      modifies this
      ensures DepthIsExact() && View() == S.Finish(old(View()))
      ensures S.NotWedged(cfg, old(View())) ==> S.NotWedged(cfg, View())
    {
      queue := queue[1..];
      work := S.NotStarted;
      queueDepth := queueDepth - 1;
      if overflowing && queueDepth == 0 && !closed && !retryTimer {
        Subscribe();
      }
    }

    method Begin()
      requires Valid() && queue != []
      modifies this
      ensures Valid() && View() == S.Begin(old(View()))
    {
      var task := queue[0];
      if closed {
        Finish();
      } else if task.generation != generation {
        Finish();
      } else if task.event.SnapshotRequired? {
        work := S.Fetching;
      } else if task.event.sequence <= lastEventSequence {
        Finish();
      } else {
        work := S.Rendering;
      }
    }

    method OnRendered()
      requires Valid() && queue != []
      modifies this
      ensures Valid() && View() == S.RenderSucceeded(old(View()))
    {
      work := S.Saving(queue[0].event.sequence, S.AfterRender);
    }

    method OnRenderFailed(transient: bool)
      requires Valid() && queue != []
      modifies this
      ensures Valid() && View() == S.RenderFailed(cfg, old(View()), transient)
    {
      var e := queue[0].event.sequence;
      var attempts := (if e in renderFailures then renderFailures[e] else 0) + 1;
      renderFailures := renderFailures[e := attempts];
      if transient && attempts < cfg.maxRenderAttempts {
        Reconnect();
        Finish();
      } else {
        work := S.Saving(e, S.AfterFailure);
      }
    }

    method OnSnapshotFetched(projection: nat)
      requires Valid() && queue != [] && queue[0].event.SnapshotRequired?
      modifies this
      ensures Valid() && View() == S.SnapshotFetched(old(View()), projection)
    {
      var latest := lastEventSequence;
      if queue[0].event.latest > latest { latest := queue[0].event.latest; }
      if projection > latest { latest := projection; }
      if queue[0].event.sequence > latest { latest := queue[0].event.sequence; }
      if latest <= lastEventSequence {
        Finish();
      } else {
        work := S.Saving(latest, S.AfterSnapshot);
      }
    }

    method OnSnapshotFailed()
      requires Valid() && queue != []
      modifies this
      ensures Valid() && View() == S.Finish(S.Reconnect(old(View())))
    {
      Reconnect();
      Finish();
    }

    method OnSaved(stored: nat)
      requires Valid() && queue != [] && work.Saving?
      modifies this
      ensures Valid() && View() == S.Saved(old(View()), stored)
    {
      lastEventSequence := stored;
      if work.purpose != S.AfterSnapshot {
        renderFailures := renderFailures - {queue[0].event.sequence};
      }
      Finish();
    }

    method OnSaveFailed(transient: bool)
      requires Valid() && queue != [] && work.Saving?
      modifies this
      ensures Valid() && View() == S.SaveFailed(cfg, old(View()), transient)
    {
      if work.purpose == S.AfterRender {
        OnRenderFailed(transient);
      } else {
        Reconnect();
        Finish();
      }
    }

    method Ensure(reported: nat)
      requires Valid()
      modifies this
      ensures Valid() && View() == S.Ensure(old(View()), reported)
    {
      if reported > lastEventSequence {
        lastEventSequence := reported;
      }
    }

    method Close()
      requires Valid()
      modifies this
      ensures Valid() && View() == S.Close(old(View()))
    {
      closed := true;
    }
  }
}
