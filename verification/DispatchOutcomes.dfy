/**
 * What one call and one completion do to the worker pool: which deliveries are accepted, which one
 * starts, which wait where, and who gets a slot that falls free.
 */
module DispatchOutcomes {
  import opened Sequences
  import opened DeliveryDispatcher

  /** Pumping a pool whose line is empty or whose slots are taken does nothing. */
  lemma NothingToPump<D(!new), K(!new), I(!new)>(cfg: Config<D, K, I>, p: Pool<D, K, I>)
    requires Valid(cfg, p) && Settled(cfg, p)
    ensures Pump(cfg, p) == p
  {
  }

  /** Pumping gives one slot away when no further slot or no further lane is left. */
  lemma PumpsOne<D(!new), K(!new), I(!new)>(cfg: Config<D, K, I>, p: Pool<D, K, I>)
    requires Valid(cfg, p) && p.readyLanes != [] && p.active < cfg.maxConcurrency
    requires p.active + 1 == cfg.maxConcurrency || |p.readyLanes| == 1
    ensures p.readyLanes[0] in p.lanes && p.lanes[p.readyLanes[0]].queue != [] && p.queued > 0
    ensures Pump(cfg, p) == Dispatch(p)
  {
    DispatchKeeps(cfg, p);
    NothingToPump(cfg, Dispatch(p));
  }

  ghost predicate IsNew<D(!new), K(!new), I(!new)>(cfg: Config<D, K, I>, p: Pool<D, K, I>, d: D) {
    !IsHeld(cfg, p, cfg.identityKey(d)) && TotalQueued(p.lanes) < cfg.maxQueueDepth
  }

  lemma NewIsAdmissible<D(!new), K(!new), I(!new)>(cfg: Config<D, K, I>, p: Pool<D, K, I>, d: D)
    requires Valid(cfg, p)
    ensures IsNew(cfg, p, d) <==> cfg.identityKey(d) !in p.pending && p.queued < cfg.maxQueueDepth
  {
    if IsHeld(cfg, p, cfg.identityKey(d)) {
      var k, i :| 0 <= i < |Items(p, k)| && cfg.identityKey(Items(p, k)[i]) == cfg.identityKey(d);
    }
  }

  /** What accepting a delivery does: it starts at once, or it is the last to wait in its lane. */
  ghost predicate IsTakenIn<D(!new), K(!new), I(!new)>(cfg: Config<D, K, I>, p: Pool<D, K, I>, d: D, p': Pool<D, K, I>) {
    var lane := cfg.laneKey(d);
    && p'.accepted == p.accepted + [d]
    && p'.pending == p.pending + {cfg.identityKey(d)}
    && (forall k :: k != lane ==> QueueOf(p', k) == QueueOf(p, k))
    && if |p.inFlight| < cfg.maxConcurrency && lane !in p.inFlight then
         p'.inFlight == p.inFlight[lane := d] && p'.dispatched == p.dispatched + [d] && QueueOf(p', lane) == []
       else
         p'.inFlight == p.inFlight && p'.dispatched == p.dispatched && QueueOf(p', lane) == QueueOf(p, lane) + [d]
  }

  /** A lane that does not run while a slot is free does not exist. */
  lemma IdleLaneIsAbsent<D(!new), K(!new), I(!new)>(cfg: Config<D, K, I>, p: Pool<D, K, I>, lane: K)
    requires Valid(cfg, p) && Settled(cfg, p) && p.active < cfg.maxConcurrency && lane !in p.inFlight
    ensures lane !in p.lanes && p.readyLanes == []
  {
    FreeSlotMeansAllRunning(cfg, p);
  }

  lemma AdmitAppends<D(!new), K(!new), I(!new)>(cfg: Config<D, K, I>, p: Pool<D, K, I>, d: D)
    requires |p.inFlight| >= cfg.maxConcurrency || cfg.laneKey(d) in p.inFlight
    ensures IsTakenIn(cfg, p, d, Admit(cfg, p, d))
  {
    forall k ensures QueueOf(Admit(cfg, p, d), k) == QueueOf(p, k) + if k == cfg.laneKey(d) then [d] else [] {
      AdmitExtendsItems(cfg, p, d, k);
    }
  }

  lemma AdmittingStartsNothing<D(!new), K(!new), I(!new)>(cfg: Config<D, K, I>, p: Pool<D, K, I>, d: D)
    requires Valid(cfg, p) && Settled(cfg, p) && cfg.identityKey(d) !in p.pending && p.queued < cfg.maxQueueDepth
    requires p.active >= cfg.maxConcurrency || cfg.laneKey(d) in p.inFlight
    ensures Enqueue(cfg, p, d) == Admit(cfg, p, d)
  {
    AdmitKeeps(cfg, p, d);
    NothingToPump(cfg, Admit(cfg, p, d));
  }

  /** A delivery that no slot or no free lane can take waits. */
  lemma AdmittedWaits<D(!new), K(!new), I(!new)>(cfg: Config<D, K, I>, p: Pool<D, K, I>, d: D)
    requires Valid(cfg, p) && Settled(cfg, p) && cfg.identityKey(d) !in p.pending && p.queued < cfg.maxQueueDepth
    requires p.active >= cfg.maxConcurrency || cfg.laneKey(d) in p.inFlight
    ensures IsTakenIn(cfg, p, d, Enqueue(cfg, p, d))
  {
    AdmitAppends(cfg, p, d);
    AdmittingStartsNothing(cfg, p, d);
  }

  /** A lane that did not exist gets the only slot given away. */
  lemma FreshLaneStarts<D(!new), K(!new), I(!new)>(cfg: Config<D, K, I>, p: Pool<D, K, I>, d: D)
    requires |p.inFlight| < cfg.maxConcurrency && p.readyLanes == []
    requires cfg.laneKey(d) !in p.lanes && cfg.laneKey(d) !in p.inFlight
    ensures var p1, lane := Admit(cfg, p, d), cfg.laneKey(d);
            && p1.readyLanes == [lane] && lane in p1.lanes && p1.lanes[lane].queue == [d] && p1.queued > 0 && p1.active == p.active
            && IsTakenIn(cfg, p, d, Dispatch(p1))
  {
  }

  lemma AdmittedStarts<D(!new), K(!new), I(!new)>(cfg: Config<D, K, I>, p: Pool<D, K, I>, d: D)
    requires Valid(cfg, p) && Settled(cfg, p) && cfg.identityKey(d) !in p.pending && p.queued < cfg.maxQueueDepth
    requires p.active < cfg.maxConcurrency && cfg.laneKey(d) !in p.inFlight
    ensures IsTakenIn(cfg, p, d, Enqueue(cfg, p, d))
  {
    IdleLaneIsAbsent(cfg, p, cfg.laneKey(d));
    FreshLaneStarts(cfg, p, d);
    AdmitKeeps(cfg, p, d);
    PumpsOne(cfg, Admit(cfg, p, d));
  }

  /**
   * A delivery is accepted exactly when no copy of it is held and fewer than the queue bound wait;
   * with a free slot and an idle lane it is in flight at once, otherwise it is the last in its lane.
   * A copy and a delivery over the bound leave the pool as it was.
   */
  lemma OfferTakesInTheNew<D(!new), K(!new), I(!new)>(cfg: Config<D, K, I>, p: Pool<D, K, I>, d: D)
    requires Valid(cfg, p) && Settled(cfg, p)
    ensures if IsNew(cfg, p, d) then IsTakenIn(cfg, p, d, Step(cfg, p, Offer(d))) else Step(cfg, p, Offer(d)) == p
  {
    NewIsAdmissible(cfg, p, d);
    if IsNew(cfg, p, d) {
      if p.active < cfg.maxConcurrency && cfg.laneKey(d) !in p.inFlight {
        AdmittedStarts(cfg, p, d);
      } else {
        AdmittedWaits(cfg, p, d);
      }
    }
  }

  // ----- Completion ------------------------------------------------------------------------------

  /** The line once the delivery on `lane` has settled: a lane with more to do goes to its end. */
  function LineAfter<D, K(==), I>(p: Pool<D, K, I>, lane: K): seq<K> {
    p.readyLanes + if QueueOf(p, lane) != [] then [lane] else []
  }

  lemma ReleasedPool<D(!new), K(!new), I(!new)>(cfg: Config<D, K, I>, p: Pool<D, K, I>, lane: K)
    requires Valid(cfg, p) && lane in p.inFlight
    ensures lane in p.lanes && p.active > 0
    ensures var q := Release(cfg, p, lane);
            && q.readyLanes == LineAfter(p, lane) && q.active == p.active - 1 && q.inFlight == p.inFlight - {lane}
            && q.accepted == p.accepted && q.dispatched == p.dispatched && q.pending == p.pending - {cfg.identityKey(p.inFlight[lane])}
  {
    RunningLaneIsKnown(cfg, p, lane);
  }

  /** One slot is free, or one lane at most is in line. */
  lemma ReleasedLine<D(!new), K(!new), I(!new)>(cfg: Config<D, K, I>, p: Pool<D, K, I>, lane: K)
    requires Valid(cfg, p) && Settled(cfg, p) && lane in p.inFlight
    ensures lane in p.lanes && p.active > 0
    ensures var q := Release(cfg, p, lane);
            Valid(cfg, q) && q.active < cfg.maxConcurrency && (q.active + 1 == cfg.maxConcurrency || |q.readyLanes| <= 1)
  {
    ReleasedPool(cfg, p, lane);
    ReleaseKeeps(cfg, p, lane);
  }

  /** Slot and key of the delivery on `lane` are free, and the first lane of `line` has got the slot. */
  ghost predicate IsHandedOver<D, K(!new), I>(cfg: Config<D, K, I>, p: Pool<D, K, I>, lane: K, line: seq<K>, p': Pool<D, K, I>) {
    && lane in p.inFlight
    && p'.accepted == p.accepted && p'.pending == p.pending - {cfg.identityKey(p.inFlight[lane])}
    && if line == [] then
         p'.inFlight == p.inFlight - {lane} && p'.dispatched == p.dispatched && p'.readyLanes == []
       else
         && QueueOf(p, line[0]) != []
         && p'.inFlight == (p.inFlight - {lane})[line[0] := QueueOf(p, line[0])[0]]
         && p'.dispatched == p.dispatched + [QueueOf(p, line[0])[0]]
         && p'.readyLanes == line[1..]
  }

  /** Dispatching from the pool `q` that a release left. */
  lemma DispatchHandsOver<D, K(!new), I>(cfg: Config<D, K, I>, p: Pool<D, K, I>, lane: K, q: Pool<D, K, I>)
    requires lane in p.inFlight && q.readyLanes != [] && q.queued > 0
    requires q.readyLanes[0] in q.lanes && q.lanes[q.readyLanes[0]].queue != [] && QueueOf(q, q.readyLanes[0]) == QueueOf(p, q.readyLanes[0])
    requires q.inFlight == p.inFlight - {lane} && q.accepted == p.accepted && q.dispatched == p.dispatched
    requires q.pending == p.pending - {cfg.identityKey(p.inFlight[lane])}
    ensures IsHandedOver(cfg, p, lane, q.readyLanes, Dispatch(q))
  {
  }

  lemma ReleasedPumpsOne<D(!new), K(!new), I(!new)>(cfg: Config<D, K, I>, p: Pool<D, K, I>, lane: K, q: Pool<D, K, I>)
    requires Valid(cfg, q) && q.active < cfg.maxConcurrency && (q.active + 1 == cfg.maxConcurrency || |q.readyLanes| <= 1)
    requires lane in p.inFlight && (q.readyLanes != [] ==> QueueOf(q, q.readyLanes[0]) == QueueOf(p, q.readyLanes[0]))
    requires q.inFlight == p.inFlight - {lane} && q.accepted == p.accepted && q.dispatched == p.dispatched
    requires q.pending == p.pending - {cfg.identityKey(p.inFlight[lane])}
    ensures IsHandedOver(cfg, p, lane, q.readyLanes, Pump(cfg, q))
  {
    if q.readyLanes == [] {
      NothingToPump(cfg, q);
    } else {
      PumpsOne(cfg, q);
      DispatchHandsOver(cfg, p, lane, q);
    }
  }

  /**
   * A completion frees its slot and its key, and the slot goes to the first lane in line, which
   * starts its oldest delivery; the lane that settled is the last in that line if it has more to do,
   * and gone if not.
   */
  lemma SettleHandsOver<D(!new), K(!new), I(!new)>(cfg: Config<D, K, I>, p: Pool<D, K, I>, lane: K)
    requires Valid(cfg, p) && Settled(cfg, p) && lane in p.inFlight
    ensures IsHandedOver(cfg, p, lane, LineAfter(p, lane), Step(cfg, p, Settle(lane)))
  {
    ReleasedLine(cfg, p, lane);
    ReleasedPool(cfg, p, lane);
    var q := Release(cfg, p, lane);
    if q.readyLanes != [] {
      ReleaseShortensItems(cfg, p, lane, q.readyLanes[0]);
    }
    ReleasedPumpsOne(cfg, p, lane, q);
  }
}
