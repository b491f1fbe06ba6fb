/** The dispatcher as a mutable object: its maps, counters and ready line, updated in place. */
module DispatcherState {
  import P = DeliveryDispatcher

  class Dispatcher<D(!new), K(==,!new), I(==,!new)> {
    const maxConcurrency: nat
    const maxQueueDepth: nat
    const laneKey: D -> K
    const identityKey: D -> I
    var lanes: map<K, P.Lane<D>>
    var readyLanes: seq<K>
    var pendingDeliveryKeys: set<I>
    var inFlight: map<K, D>
    var active: nat
    var queued: nat
    ghost var accepted: seq<D>
    ghost var dispatched: seq<D>
    ghost var marked: seq<K>

    ghost function Settings(): P.Config<D, K, I> {
      P.Config(maxConcurrency, maxQueueDepth, laneKey, identityKey)
    }

    ghost function View(): P.Pool<D, K, I>
      reads this
    {
      P.Pool(lanes, readyLanes, pendingDeliveryKeys, inFlight, active, queued, accepted, dispatched, marked)
    }

    ghost predicate Valid()
      reads this
    {
      P.Valid(Settings(), View())
    }

    constructor (concurrency: int, depth: int, laneKey: D -> K, identityKey: D -> I)
      ensures Valid() && View() == P.Empty<D, K, I>()
      ensures this.laneKey == laneKey && this.identityKey == identityKey
      ensures maxConcurrency == (if concurrency < 1 then 1 else concurrency)
      ensures maxQueueDepth == if depth < maxConcurrency then maxConcurrency else depth
    {
      var c := if concurrency < 1 then 1 else concurrency;
      maxConcurrency := c;
      maxQueueDepth := if depth < c then c else depth;
      this.laneKey, this.identityKey := laneKey, identityKey;
      lanes, readyLanes, pendingDeliveryKeys, inFlight, active, queued := map[], [], {}, map[], 0, 0;
      accepted, dispatched, marked := [], [], [];
      new;
      P.EmptyIsValid(Settings());
    }

    method MarkReady(key: K)
      requires key in lanes
      modifies this
      ensures View() == P.MarkReady(old(View()), key)
    {
      if lanes[key].ready {
        return;
      }
      lanes := lanes[key := lanes[key].(ready := true)];
      readyLanes := readyLanes + [key];
      marked := marked + [key];
    }

    /** The loop body: the front lane leaves the line and starts its oldest delivery. */
    method DispatchFront()
      requires readyLanes != [] && readyLanes[0] in lanes && !lanes[readyLanes[0]].running
      requires lanes[readyLanes[0]].queue != [] && queued > 0
      modifies this
      ensures View() == P.Dispatch(old(View()))
    {
      var key := readyLanes[0];
      readyLanes := readyLanes[1..];
      var lane := lanes[key];
      var delivery := lane.queue[0];
      queued := queued - 1;
      lanes := lanes[key := P.Lane(lane.queue[1..], true, false)];
      active := active + 1;
      inFlight := inFlight[key := delivery];
      dispatched := dispatched + [delivery];
    }

    /** The source's two guards are preconditions of the body here: neither can skip a lane. */
    method Pump()
      requires Valid()
      modifies this
      ensures Valid() && View() == P.Pump(Settings(), old(View()))
    {
      while active < maxConcurrency && readyLanes != []
        invariant Valid()
        invariant P.Pump(Settings(), View()) == P.Pump(Settings(), old(View()))
        decreases |readyLanes|
      {
        P.DispatchKeeps(Settings(), View());
        DispatchFront();
      }
    }

    method AdmitDelivery(delivery: D)
      modifies this
      ensures View() == P.Admit(Settings(), old(View()), delivery)
    {
      var key := laneKey(delivery);
      var lane := if key in lanes then lanes[key] else P.Lane([], false, false);
      lanes := lanes[key := lane.(queue := lane.queue + [delivery])];
      queued := queued + 1;
      pendingDeliveryKeys := pendingDeliveryKeys + {identityKey(delivery)};
      accepted := accepted + [delivery];
      if !lane.running {
        MarkReady(key);
      }
    }

    method Enqueue(delivery: D) returns (outcome: P.Outcome)
      requires Valid()
      modifies this
      ensures Valid() && View() == P.Enqueue(Settings(), old(View()), delivery)
      ensures outcome.Duplicate? <==> identityKey(delivery) in old(pendingDeliveryKeys)
      ensures outcome.Shed? <==> identityKey(delivery) !in old(pendingDeliveryKeys) && old(queued) >= maxQueueDepth
      ensures accepted == if outcome.Accepted? then old(accepted) + [delivery] else old(accepted)
      ensures pendingDeliveryKeys == old(pendingDeliveryKeys) + if outcome.Accepted? then {identityKey(delivery)} else {}
    {
      if identityKey(delivery) in pendingDeliveryKeys {
        return P.Duplicate;
      }
      if queued >= maxQueueDepth {
        return P.Shed;
      }
      P.AdmitKeeps(Settings(), View(), delivery);
      AdmitDelivery(delivery);
      P.PumpExtends(Settings(), View());
      Pump();
      outcome := P.Accepted;
    }

    method ReleaseLane(key: K)
      requires key in inFlight && key in lanes && active > 0
      modifies this
      ensures View() == P.Release(Settings(), old(View()), key)
    {
      var delivery := inFlight[key];
      active := active - 1;
      var lane := lanes[key].(running := false);
      lanes := lanes[key := lane];
      pendingDeliveryKeys := pendingDeliveryKeys - {identityKey(delivery)};
      inFlight := inFlight - {key};
      if lane.queue == [] {
        lanes := lanes - {key};
        assert lanes == old(lanes) - {key};
      } else {
        MarkReady(key);
      }
    }

    /** The handler of the delivery in flight on `key` settled, well or badly. */
    method OnSettled(key: K)
      requires Valid() && key in inFlight
      modifies this
      ensures Valid() && View() == P.Complete(Settings(), old(View()), key)
    {
      P.ReleaseKeeps(Settings(), View(), key);
      ReleaseLane(key);
      Pump();
    }
  }
}
