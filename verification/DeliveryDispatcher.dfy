/**
 * The bounded delivery worker pool: per-destination lanes that run one delivery at a time, a FIFO
 * of lanes that wait for a slot, suppression of copies that are still pending, and load shedding.
 * Deliveries `D`, lane keys `K` and identity keys `I` are arbitrary types; the two key functions
 * are parameters of the pool.
 */
module DeliveryDispatcher {
  import opened Sequences

  datatype Lane<D> = Lane(queue: seq<D>, running: bool, ready: bool)

  /**
   * The pool. `inFlight` holds the delivery each running lane is handling. The last three fields
   * record history: what was accepted, what was dispatched, and every lane that got in line.
   */
  datatype Pool<D, !K, !I> = Pool(
    lanes: map<K, Lane<D>>,
    readyLanes: seq<K>,
    pending: set<I>,
    inFlight: map<K, D>,
    active: nat,
    queued: nat,
    accepted: seq<D>,
    dispatched: seq<D>,
    marked: seq<K>)

  datatype Config<!D, !K, !I> = Config(maxConcurrency: nat, maxQueueDepth: nat, laneKey: D -> K, identityKey: D -> I)

  datatype Outcome = Accepted | Duplicate | Shed

  predicate ValidConfig<D, K, I>(cfg: Config<D, K, I>) {
    1 <= cfg.maxConcurrency <= cfg.maxQueueDepth
  }

  // ----- Operations ----------------------------------------------------------------------------

  function Empty<D, K, I>(): Pool<D, K, I> {
    Pool(map[], [], {}, map[], 0, 0, [], [], [])
  }

  function MarkReady<D, K(==), I>(p: Pool<D, K, I>, key: K): Pool<D, K, I>
    requires key in p.lanes
  {
    if p.lanes[key].ready then p
    else p.(lanes := p.lanes[key := p.lanes[key].(ready := true)],
            readyLanes := p.readyLanes + [key],
            marked := p.marked + [key])
  }

  /** The lane at the front of the line gets a slot and starts its oldest delivery. */
  function Dispatch<D, K(==), I>(p: Pool<D, K, I>): Pool<D, K, I>
    requires p.readyLanes != [] && p.readyLanes[0] in p.lanes
    requires p.lanes[p.readyLanes[0]].queue != [] && p.queued > 0
  {
    var key := p.readyLanes[0];
    var lane := p.lanes[key];
    p.(readyLanes := p.readyLanes[1..],
       lanes := p.lanes[key := Lane(lane.queue[1..], true, false)],
       inFlight := p.inFlight[key := lane.queue[0]],
       queued := p.queued - 1,
       active := p.active + 1,
       dispatched := p.dispatched + [lane.queue[0]])
  }

  /** A new delivery joins its lane, and the lane gets in line unless it runs or already waits. */
  function Admit<D, K(==), I(==)>(cfg: Config<D, K, I>, p: Pool<D, K, I>, d: D): Pool<D, K, I> {
    var key := cfg.laneKey(d);
    var lane := if key in p.lanes then p.lanes[key] else Lane([], false, false);
    var p1 := p.(lanes := p.lanes[key := lane.(queue := lane.queue + [d])],
                 queued := p.queued + 1,
                 pending := p.pending + {cfg.identityKey(d)},
                 accepted := p.accepted + [d]);
    if lane.running then p1 else MarkReady(p1, key)
  }

  /** The delivery of a running lane settles; the lane leaves or goes to the back of the line. */
  function Release<D, K(==), I(==)>(cfg: Config<D, K, I>, p: Pool<D, K, I>, key: K): Pool<D, K, I>
    requires key in p.inFlight && key in p.lanes && p.active > 0
  {
    var lane := p.lanes[key].(running := false);
    var p1 := p.(active := p.active - 1,
                 pending := p.pending - {cfg.identityKey(p.inFlight[key])},
                 inFlight := p.inFlight - {key},
                 lanes := if lane.queue == [] then p.lanes - {key} else p.lanes[key := lane]);
    if lane.queue == [] then p1 else MarkReady(p1, key)
  }

  // ----- Invariant -----------------------------------------------------------------------------

  ghost function TotalQueued<D, K(!new)>(lanes: map<K, Lane<D>>): nat {
    if lanes == map[] then 0
    else
      var k :| k in lanes;
      |lanes[k].queue| + TotalQueued(lanes - {k})
  }

  /** The deliveries of one lane of a log, in order. */
  function InLane<D, K(==), I>(cfg: Config<D, K, I>, log: seq<D>, key: K): seq<D> {
    if log == [] then []
    else
      var d := log[|log| - 1];
      InLane(cfg, log[..|log| - 1], key) + if cfg.laneKey(d) == key then [d] else []
  }

  function QueueOf<D, K(==), I>(p: Pool<D, K, I>, key: K): seq<D> {
    if key in p.lanes then p.lanes[key].queue else []
  }

  function LaneKeys<D, K, I>(cfg: Config<D, K, I>, log: seq<D>): seq<K> {
    seq(|log|, i requires 0 <= i < |log| => cfg.laneKey(log[i]))
  }

  /** What a lane holds: the delivery in flight, then the queued ones. */
  function Items<D, K(==), I>(p: Pool<D, K, I>, key: K): seq<D> {
    (if key in p.inFlight then [p.inFlight[key]] else []) + QueueOf(p, key)
  }

  /** A lane is in line exactly once if it is ready, never while it runs, and never without work. */
  ghost predicate LineIsExact<D, K(!new), I>(p: Pool<D, K, I>) {
    && Distinct(p.readyLanes)
    && (forall k :: k in p.readyLanes <==> k in p.lanes && p.lanes[k].ready)
    && (forall k :: k in p.lanes ==> (p.lanes[k].ready <==> !p.lanes[k].running))
    && (forall k :: k in p.lanes && p.lanes[k].ready ==> p.lanes[k].queue != [])
    && (forall k :: k in p.inFlight <==> k in p.lanes && p.lanes[k].running)
  }

  ghost predicate CountsAreExact<D, K(!new), I>(cfg: Config<D, K, I>, p: Pool<D, K, I>) {
    && p.queued == TotalQueued(p.lanes)
    && p.active == |p.inFlight|
    && p.active <= cfg.maxConcurrency
    && p.queued <= cfg.maxQueueDepth
  }

  ghost predicate IsHeld<D(!new), K(!new), I(!new)>(cfg: Config<D, K, I>, p: Pool<D, K, I>, key: I) {
    exists k, i :: 0 <= i < |Items(p, k)| && cfg.identityKey(Items(p, k)[i]) == key
  }

  /** The pending keys are exactly those of the deliveries held, each held once. */
  ghost predicate PendingIsExact<D(!new), K(!new), I(!new)>(cfg: Config<D, K, I>, p: Pool<D, K, I>) {
    && (forall k, i :: 0 <= i < |Items(p, k)| ==> cfg.identityKey(Items(p, k)[i]) in p.pending)
    && (forall key :: key in p.pending ==> IsHeld(cfg, p, key))
    && (forall k, i, k', i' ::
          (0 <= i < |Items(p, k)| && 0 <= i' < |Items(p, k')|
           && cfg.identityKey(Items(p, k)[i]) == cfg.identityKey(Items(p, k')[i']))
          ==> k == k' && i == i')
  }

  /** Each lane's accepted deliveries are its dispatched ones followed by its queue. */
  ghost predicate OrderIsKept<D, K(!new), I>(cfg: Config<D, K, I>, p: Pool<D, K, I>) {
    && (forall k :: InLane(cfg, p.accepted, k) == InLane(cfg, p.dispatched, k) + QueueOf(p, k))
    && (forall k :: k in p.inFlight ==>
          InLane(cfg, p.dispatched, k) != [] && InLane(cfg, p.dispatched, k)[|InLane(cfg, p.dispatched, k)| - 1] == p.inFlight[k])
    && p.marked == LaneKeys(cfg, p.dispatched) + p.readyLanes
  }

  ghost predicate Valid<D(!new), K(!new), I(!new)>(cfg: Config<D, K, I>, p: Pool<D, K, I>) {
    && ValidConfig(cfg)
    && LineIsExact(p)
    && CountsAreExact(cfg, p)
    && PendingIsExact(cfg, p)
    && OrderIsKept(cfg, p)
  }

  /** Between operations a slot is free only if no lane waits, so every lane left is running. */
  ghost predicate Settled<D, K(!new), I>(cfg: Config<D, K, I>, p: Pool<D, K, I>) {
    p.active < cfg.maxConcurrency ==> p.readyLanes == []
  }

  // ----- Sums over lanes -----------------------------------------------------------------------

  lemma {:induction false} TotalWithout<D, K(!new)>(lanes: map<K, Lane<D>>, key: K)
    requires key in lanes
    ensures TotalQueued(lanes) == |lanes[key].queue| + TotalQueued(lanes - {key})
    decreases |lanes|
  {
    var k :| k in lanes && TotalQueued(lanes) == |lanes[k].queue| + TotalQueued(lanes - {k});
    if k != key {
      assert lanes - {k} - {key} == lanes - {key} - {k};
      TotalWithout(lanes - {k}, key);
      TotalWithout(lanes - {key}, k);
    }
  }

  lemma TotalAfterUpdate<D, K(!new)>(lanes: map<K, Lane<D>>, key: K, lane: Lane<D>)
    ensures TotalQueued(lanes[key := lane]) == TotalQueued(lanes) + |lane.queue| - (if key in lanes then |lanes[key].queue| else 0)
  {
    TotalWithout(lanes[key := lane], key);
    assert lanes[key := lane] - {key} == lanes - {key};
    if key in lanes {
      TotalWithout(lanes, key);
    } else {
      assert lanes - {key} == lanes;
    }
  }

  lemma InLaneAppend<D, K, I>(cfg: Config<D, K, I>, log: seq<D>, d: D, key: K)
    ensures InLane(cfg, log + [d], key) == InLane(cfg, log, key) + if cfg.laneKey(d) == key then [d] else []
  {
    assert (log + [d])[..|log|] == log;
  }

  lemma LaneKeysAppend<D, K, I>(cfg: Config<D, K, I>, log: seq<D>, d: D)
    ensures LaneKeys(cfg, log + [d]) == LaneKeys(cfg, log) + [cfg.laneKey(d)]
  {
  }

  // ----- Dispatching ---------------------------------------------------------------------------

  lemma FrontIsDispatchable<D, K(!new), I>(p: Pool<D, K, I>)
    requires LineIsExact(p) && p.queued == TotalQueued(p.lanes) && p.readyLanes != []
    ensures var key := p.readyLanes[0];
            key in p.lanes && !p.lanes[key].running && p.lanes[key].queue != [] && p.queued > 0 && key !in p.inFlight
  {
    var key := p.readyLanes[0];
    assert key in p.readyLanes;
    TotalWithout(p.lanes, key);
  }

  lemma DispatchKeepsLine<D, K(!new), I>(p: Pool<D, K, I>)
    requires LineIsExact(p) && p.queued == TotalQueued(p.lanes) && p.readyLanes != []
    ensures p.readyLanes[0] in p.lanes && p.lanes[p.readyLanes[0]].queue != [] && p.queued > 0
    ensures LineIsExact(Dispatch(p))
  {
    FrontIsDispatchable(p);
    HeadAndTail(p.readyLanes);
    var rest := p.readyLanes[1..];
    assert forall k :: k in rest <==> k in p.readyLanes && k != p.readyLanes[0];
  }

  lemma DispatchKeepsCounts<D, K(!new), I>(cfg: Config<D, K, I>, p: Pool<D, K, I>)
    requires LineIsExact(p) && CountsAreExact(cfg, p) && p.readyLanes != [] && p.active < cfg.maxConcurrency
    ensures p.readyLanes[0] in p.lanes && p.lanes[p.readyLanes[0]].queue != [] && p.queued > 0
    ensures CountsAreExact(cfg, Dispatch(p))
  {
    FrontIsDispatchable(p);
    var key := p.readyLanes[0];
    TotalAfterUpdate(p.lanes, key, Lane(p.lanes[key].queue[1..], true, false));
  }

  /** Same items everywhere, same pending keys. */
  lemma PendingFrame<D(!new), K(!new), I(!new)>(cfg: Config<D, K, I>, p: Pool<D, K, I>, p': Pool<D, K, I>)
    requires PendingIsExact(cfg, p) && p'.pending == p.pending
    requires forall k :: Items(p', k) == Items(p, k)
    ensures PendingIsExact(cfg, p')
  {
    forall key | key in p'.pending ensures IsHeld(cfg, p', key) {
      assert IsHeld(cfg, p, key);
      var k, i :| 0 <= i < |Items(p, k)| && cfg.identityKey(Items(p, k)[i]) == key;
      assert Items(p', k)[i] == Items(p, k)[i];
    }
  }

  lemma DispatchKeepsItems<D, K, I>(p: Pool<D, K, I>, k: K)
    requires p.readyLanes != [] && p.readyLanes[0] in p.lanes && p.lanes[p.readyLanes[0]].queue != [] && p.queued > 0
    requires p.readyLanes[0] !in p.inFlight
    ensures Items(Dispatch(p), k) == Items(p, k)
  {
    if k == p.readyLanes[0] {
      HeadAndTail(p.lanes[k].queue);
    }
  }

  lemma DispatchKeepsOrderOf<D, K(!new), I>(cfg: Config<D, K, I>, p: Pool<D, K, I>, k: K)
    requires OrderIsKept(cfg, p)
    requires p.readyLanes != [] && p.readyLanes[0] in p.lanes && p.lanes[p.readyLanes[0]].queue != [] && p.queued > 0
    requires cfg.laneKey(p.lanes[p.readyLanes[0]].queue[0]) == p.readyLanes[0]
    ensures var p' := Dispatch(p);
            InLane(cfg, p'.accepted, k) == InLane(cfg, p'.dispatched, k) + QueueOf(p', k)
    ensures var p' := Dispatch(p);
            k in p'.inFlight ==>
              InLane(cfg, p'.dispatched, k) != []
              && InLane(cfg, p'.dispatched, k)[|InLane(cfg, p'.dispatched, k)| - 1] == p'.inFlight[k]
  {
    var key := p.readyLanes[0];
    var d := p.lanes[key].queue[0];
    InLaneAppend(cfg, p.dispatched, d, k);
    if k == key {
      HeadAndTail(p.lanes[key].queue);
      AppendIsAssociative(InLane(cfg, p.dispatched, key), [d], p.lanes[key].queue[1..]);
    }
  }

  lemma {:induction false} InLaneHasLane<D, K, I>(cfg: Config<D, K, I>, log: seq<D>, key: K)
    ensures forall i :: 0 <= i < |InLane(cfg, log, key)| ==> cfg.laneKey(InLane(cfg, log, key)[i]) == key
  {
    if log != [] {
      InLaneHasLane(cfg, log[..|log| - 1], key);
    }
  }

  lemma QueueHeadIsInItsLane<D, K(!new), I>(cfg: Config<D, K, I>, p: Pool<D, K, I>, key: K)
    requires OrderIsKept(cfg, p) && key in p.lanes && p.lanes[key].queue != []
    ensures cfg.laneKey(p.lanes[key].queue[0]) == key
  {
    var sent := InLane(cfg, p.dispatched, key);
    InLaneHasLane(cfg, p.accepted, key);
    assert InLane(cfg, p.accepted, key)[|sent|] == p.lanes[key].queue[0];
  }

  lemma DispatchKeepsOrder<D, K(!new), I>(cfg: Config<D, K, I>, p: Pool<D, K, I>)
    requires LineIsExact(p) && p.queued == TotalQueued(p.lanes) && p.readyLanes != [] && OrderIsKept(cfg, p)
    ensures p.readyLanes[0] in p.lanes && p.lanes[p.readyLanes[0]].queue != [] && p.queued > 0
    ensures OrderIsKept(cfg, Dispatch(p))
  {
    FrontIsDispatchable(p);
    var key := p.readyLanes[0];
    var d := p.lanes[key].queue[0];
    QueueHeadIsInItsLane(cfg, p, key);
    var p' := Dispatch(p);
    forall k ensures InLane(cfg, p'.accepted, k) == InLane(cfg, p'.dispatched, k) + QueueOf(p', k) {
      DispatchKeepsOrderOf(cfg, p, k);
    }
    forall k | k in p'.inFlight
      ensures InLane(cfg, p'.dispatched, k) != []
      ensures InLane(cfg, p'.dispatched, k)[|InLane(cfg, p'.dispatched, k)| - 1] == p'.inFlight[k]
    {
      DispatchKeepsOrderOf(cfg, p, k);
    }
    LaneKeysAppend(cfg, p.dispatched, d);
    HeadAndTail(p.readyLanes);
    AppendIsAssociative(LaneKeys(cfg, p.dispatched), [key], p.readyLanes[1..]);
  }

  /** Giving a slot to the front lane keeps every invariant; neither guard of the loop can skip. */
  lemma DispatchKeeps<D(!new), K(!new), I(!new)>(cfg: Config<D, K, I>, p: Pool<D, K, I>)
    requires Valid(cfg, p) && p.readyLanes != [] && p.active < cfg.maxConcurrency
    ensures var key := p.readyLanes[0]; key in p.lanes && !p.lanes[key].running && p.lanes[key].queue != [] && p.queued > 0
    ensures Valid(cfg, Dispatch(p))
  {
    FrontIsDispatchable(p);
    DispatchKeepsLine(p);
    DispatchKeepsCounts(cfg, p);
    DispatchKeepsOrder(cfg, p);
    forall k ensures Items(Dispatch(p), k) == Items(p, k) {
      DispatchKeepsItems(p, k);
    }
    PendingFrame(cfg, p, Dispatch(p));
  }

  /** Free slots go to waiting lanes until either runs out. */
  ghost function Pump<D(!new), K(!new), I(!new)>(cfg: Config<D, K, I>, p: Pool<D, K, I>): Pool<D, K, I>
    requires Valid(cfg, p)
    decreases |p.readyLanes|
  {
    if p.active < cfg.maxConcurrency && p.readyLanes != [] then
      DispatchKeeps(cfg, p);
      Pump(cfg, Dispatch(p))
    else p
  }

  /** Pumping keeps the invariant and leaves no slot idle while a lane waits. */
  lemma {:induction false} PumpKeeps<D(!new), K(!new), I(!new)>(cfg: Config<D, K, I>, p: Pool<D, K, I>)
    requires Valid(cfg, p)
    ensures Valid(cfg, Pump(cfg, p)) && Settled(cfg, Pump(cfg, p))
    decreases |p.readyLanes|
  {
    if p.active < cfg.maxConcurrency && p.readyLanes != [] {
      DispatchKeeps(cfg, p);
      PumpKeeps(cfg, Dispatch(p));
    }
  }

  // ----- Admitting -----------------------------------------------------------------------------

  lemma AdmitKeepsLine<D, K(!new), I>(cfg: Config<D, K, I>, p: Pool<D, K, I>, d: D)
    requires LineIsExact(p)
    ensures LineIsExact(Admit(cfg, p, d))
  {
    var key := cfg.laneKey(d);
    var p' := Admit(cfg, p, d);
    if key in p.lanes {
      assert p'.readyLanes == p.readyLanes;
    } else {
      assert p'.readyLanes == p.readyLanes + [key];
      DistinctAppend(p.readyLanes, key);
    }
  }

  lemma AdmitKeepsCounts<D, K(!new), I>(cfg: Config<D, K, I>, p: Pool<D, K, I>, d: D)
    requires CountsAreExact(cfg, p) && p.queued < cfg.maxQueueDepth
    ensures CountsAreExact(cfg, Admit(cfg, p, d))
  {
    var key := cfg.laneKey(d);
    var lane := if key in p.lanes then p.lanes[key] else Lane([], false, false);
    var longer := lane.(queue := lane.queue + [d]);
    TotalAfterUpdate(p.lanes, key, longer);
    TotalAfterUpdate(p.lanes[key := longer], key, longer.(ready := true));
  }

  lemma AdmitExtendsItems<D, K, I>(cfg: Config<D, K, I>, p: Pool<D, K, I>, d: D, k: K)
    ensures Items(Admit(cfg, p, d), k) == Items(p, k) + if k == cfg.laneKey(d) then [d] else []
    ensures Admit(cfg, p, d).pending == p.pending + {cfg.identityKey(d)}
    ensures QueueOf(Admit(cfg, p, d), k) == QueueOf(p, k) + if k == cfg.laneKey(d) then [d] else []
  {
  }

  lemma AdmitKeepsPending<D(!new), K(!new), I(!new)>(cfg: Config<D, K, I>, p: Pool<D, K, I>, d: D)
    requires PendingIsExact(cfg, p) && cfg.identityKey(d) !in p.pending
    ensures PendingIsExact(cfg, Admit(cfg, p, d))
  {
    var p' := Admit(cfg, p, d);
    var key, id := cfg.laneKey(d), cfg.identityKey(d);
    forall k ensures Items(p', k) == Items(p, k) + if k == key then [d] else [] {
      AdmitExtendsItems(cfg, p, d, k);
    }
    AdmitExtendsItems(cfg, p, d, key);
    forall x | x in p'.pending ensures IsHeld(cfg, p', x) {
      if x == id {
        assert Items(p', key)[|Items(p, key)|] == d;
      } else {
        assert IsHeld(cfg, p, x);
        var k, i :| 0 <= i < |Items(p, k)| && cfg.identityKey(Items(p, k)[i]) == x;
        assert Items(p', k)[i] == Items(p, k)[i];
      }
    }
    forall k, i | 0 <= i < |Items(p', k)|
      ensures i < |Items(p, k)| ==> Items(p', k)[i] == Items(p, k)[i] && cfg.identityKey(Items(p, k)[i]) in p.pending
      ensures i >= |Items(p, k)| ==> k == key && i == |Items(p, key)| && Items(p', k)[i] == d
    {
    }
  }

  lemma AdmitKeepsOrder<D, K(!new), I>(cfg: Config<D, K, I>, p: Pool<D, K, I>, d: D)
    requires OrderIsKept(cfg, p) && LineIsExact(p)
    ensures OrderIsKept(cfg, Admit(cfg, p, d))
  {
    var key := cfg.laneKey(d);
    var p' := Admit(cfg, p, d);
    forall k ensures InLane(cfg, p'.accepted, k) == InLane(cfg, p'.dispatched, k) + QueueOf(p', k) {
      InLaneAppend(cfg, p.accepted, d, k);
      AdmitExtendsItems(cfg, p, d, k);
      AppendIsAssociative(InLane(cfg, p.dispatched, k), QueueOf(p, k), [d]);
    }
    AppendIsAssociative(LaneKeys(cfg, p.dispatched), p.readyLanes, [key]);
  }

  lemma AdmitKeeps<D(!new), K(!new), I(!new)>(cfg: Config<D, K, I>, p: Pool<D, K, I>, d: D)
    requires Valid(cfg, p) && p.queued < cfg.maxQueueDepth && cfg.identityKey(d) !in p.pending
    ensures Valid(cfg, Admit(cfg, p, d))
  {
    AdmitKeepsLine(cfg, p, d);
    AdmitKeepsCounts(cfg, p, d);
    AdmitKeepsPending(cfg, p, d);
    AdmitKeepsOrder(cfg, p, d);
  }

  // ----- Releasing -----------------------------------------------------------------------------

  lemma RunningLaneIsKnown<D, K(!new), I>(cfg: Config<D, K, I>, p: Pool<D, K, I>, key: K)
    requires LineIsExact(p) && CountsAreExact(cfg, p) && key in p.inFlight
    ensures key in p.lanes && p.lanes[key].running && !p.lanes[key].ready && p.active > 0
  {
  }

  lemma ReleaseKeepsLine<D, K(!new), I>(cfg: Config<D, K, I>, p: Pool<D, K, I>, key: K)
    requires LineIsExact(p) && key in p.inFlight && key in p.lanes && p.active > 0
    ensures LineIsExact(Release(cfg, p, key))
  {
    assert key !in p.readyLanes;
    assert forall k :: k in p.readyLanes + [key] <==> k in p.readyLanes || k == key;
  }

  lemma ReleaseKeepsCounts<D, K(!new), I>(cfg: Config<D, K, I>, p: Pool<D, K, I>, key: K)
    requires CountsAreExact(cfg, p) && key in p.inFlight && key in p.lanes && p.active > 0
    ensures CountsAreExact(cfg, Release(cfg, p, key))
  {
    var lane := p.lanes[key].(running := false);
    TotalWithout(p.lanes, key);
    TotalAfterUpdate(p.lanes, key, lane);
    TotalAfterUpdate(p.lanes[key := lane], key, lane.(ready := true));
    assert |p.inFlight - {key}| == |p.inFlight| - 1 by {
      assert (p.inFlight - {key}).Keys == p.inFlight.Keys - {key};
    }
  }

  lemma ReleaseShortensItems<D, K, I>(cfg: Config<D, K, I>, p: Pool<D, K, I>, key: K, k: K)
    requires key in p.inFlight && key in p.lanes && p.active > 0
    ensures Items(p, key) != [] && Items(p, key)[0] == p.inFlight[key]
    ensures Items(Release(cfg, p, key), k) == if k == key then Items(p, key)[1..] else Items(p, k)
    ensures QueueOf(Release(cfg, p, key), k) == QueueOf(p, k)
    ensures Release(cfg, p, key).pending == p.pending - {cfg.identityKey(p.inFlight[key])}
  {
  }

  lemma HeldOnce<D(!new), K(!new), I(!new)>(cfg: Config<D, K, I>, p: Pool<D, K, I>, k: K, i: nat, k': K, i': nat)
    requires PendingIsExact(cfg, p) && i < |Items(p, k)| && i' < |Items(p, k')|
    ensures cfg.identityKey(Items(p, k)[i]) in p.pending
    ensures cfg.identityKey(Items(p, k)[i]) == cfg.identityKey(Items(p, k')[i']) ==> k == k' && i == i'
  {
  }

  lemma IsHeldAt<D(!new), K(!new), I(!new)>(cfg: Config<D, K, I>, p: Pool<D, K, I>, k: K, i: nat)
    requires i < |Items(p, k)|
    ensures IsHeld(cfg, p, cfg.identityKey(Items(p, k)[i]))
  {
  }

  /** Where an item of the pool after a release was before it; it is not the released one. */
  lemma ItemBeforeRelease<D(!new), K(!new), I(!new)>(cfg: Config<D, K, I>, p: Pool<D, K, I>, key: K, k: K, i: nat) returns (j: nat)
    requires PendingIsExact(cfg, p) && key in p.inFlight && key in p.lanes && p.active > 0
    requires i < |Items(Release(cfg, p, key), k)|
    ensures j == (if k == key then i + 1 else i) && j < |Items(p, k)|
    ensures Items(Release(cfg, p, key), k)[i] == Items(p, k)[j]
    ensures cfg.identityKey(Items(p, k)[j]) in p.pending - {cfg.identityKey(p.inFlight[key])}
  {
    ReleaseShortensItems(cfg, p, key, k);
    j := if k == key then i + 1 else i;
    HeldOnce(cfg, p, k, j, key, 0);
  }

  lemma StillHeldAfterRelease<D(!new), K(!new), I(!new)>(cfg: Config<D, K, I>, p: Pool<D, K, I>, key: K, x: I)
    requires PendingIsExact(cfg, p) && key in p.inFlight && key in p.lanes && p.active > 0
    requires x in p.pending && x != cfg.identityKey(p.inFlight[key])
    ensures IsHeld(cfg, Release(cfg, p, key), x)
  {
    assert IsHeld(cfg, p, x);
    var k, i :| 0 <= i < |Items(p, k)| && cfg.identityKey(Items(p, k)[i]) == x;
    ReleaseShortensItems(cfg, p, key, k);
    assert k == key ==> i > 0;
    IsHeldAt(cfg, Release(cfg, p, key), k, if k == key then i - 1 else i);
  }

  lemma ReleaseKeepsPending<D(!new), K(!new), I(!new)>(cfg: Config<D, K, I>, p: Pool<D, K, I>, key: K)
    requires PendingIsExact(cfg, p) && key in p.inFlight && key in p.lanes && p.active > 0
    ensures PendingIsExact(cfg, Release(cfg, p, key))
  {
    var p' := Release(cfg, p, key);
    ReleaseShortensItems(cfg, p, key, key);
    forall k, i | 0 <= i < |Items(p', k)| ensures cfg.identityKey(Items(p', k)[i]) in p'.pending {
      var j := ItemBeforeRelease(cfg, p, key, k, i);
    }
    forall x | x in p'.pending ensures IsHeld(cfg, p', x) {
      StillHeldAfterRelease(cfg, p, key, x);
    }
    forall k, i, k', i' | 0 <= i < |Items(p', k)| && 0 <= i' < |Items(p', k')|
                          && cfg.identityKey(Items(p', k)[i]) == cfg.identityKey(Items(p', k')[i'])
      ensures k == k' && i == i'
    {
      var j := ItemBeforeRelease(cfg, p, key, k, i);
      var j' := ItemBeforeRelease(cfg, p, key, k', i');
    }
  }

  lemma ReleaseFrame<D, K(!new), I>(cfg: Config<D, K, I>, p: Pool<D, K, I>, key: K)
    requires key in p.inFlight && key in p.lanes && !p.lanes[key].ready && p.active > 0
    ensures var p' := Release(cfg, p, key);
            && p'.accepted == p.accepted && p'.dispatched == p.dispatched && p'.inFlight == p.inFlight - {key}
            && (|| (p'.marked == p.marked && p'.readyLanes == p.readyLanes)
                || (p'.marked == p.marked + [key] && p'.readyLanes == p.readyLanes + [key]))
  {
  }

  lemma ReleaseKeepsOrder<D, K(!new), I>(cfg: Config<D, K, I>, p: Pool<D, K, I>, key: K)
    requires OrderIsKept(cfg, p) && key in p.inFlight && key in p.lanes && !p.lanes[key].ready && p.active > 0
    ensures OrderIsKept(cfg, Release(cfg, p, key))
  {
    var p' := Release(cfg, p, key);
    ReleaseFrame(cfg, p, key);
    forall k ensures InLane(cfg, p'.accepted, k) == InLane(cfg, p'.dispatched, k) + QueueOf(p', k) {
      ReleaseShortensItems(cfg, p, key, k);
    }
    AppendIsAssociative(LaneKeys(cfg, p.dispatched), p.readyLanes, [key]);
  }

  lemma ReleaseKeeps<D(!new), K(!new), I(!new)>(cfg: Config<D, K, I>, p: Pool<D, K, I>, key: K)
    requires Valid(cfg, p) && key in p.inFlight
    ensures key in p.lanes && p.active > 0
    ensures Valid(cfg, Release(cfg, p, key))
  {
    RunningLaneIsKnown(cfg, p, key);
    ReleaseKeepsLine(cfg, p, key);
    ReleaseKeepsCounts(cfg, p, key);
    ReleaseKeepsPending(cfg, p, key);
    ReleaseKeepsOrder(cfg, p, key);
  }

  // ----- Runs ----------------------------------------------------------------------------------

  datatype Event<D, K> = Offer(delivery: D) | Settle(lane: K)

  ghost function Enqueue<D(!new), K(!new), I(!new)>(cfg: Config<D, K, I>, p: Pool<D, K, I>, d: D): Pool<D, K, I>
    requires Valid(cfg, p)
  {
    if cfg.identityKey(d) in p.pending || p.queued >= cfg.maxQueueDepth then p
    else
      AdmitKeeps(cfg, p, d);
      Pump(cfg, Admit(cfg, p, d))
  }

  ghost function Complete<D(!new), K(!new), I(!new)>(cfg: Config<D, K, I>, p: Pool<D, K, I>, key: K): Pool<D, K, I>
    requires Valid(cfg, p) && key in p.inFlight
  {
    ReleaseKeeps(cfg, p, key);
    Pump(cfg, Release(cfg, p, key))
  }

  ghost predicate CanHappen<D, K(!new), I>(p: Pool<D, K, I>, e: Event<D, K>) {
    e.Settle? ==> e.lane in p.inFlight
  }

  ghost function Step<D(!new), K(!new), I(!new)>(cfg: Config<D, K, I>, p: Pool<D, K, I>, e: Event<D, K>): Pool<D, K, I>
    requires Valid(cfg, p) && CanHappen(p, e)
  {
    match e
    case Offer(d) => Enqueue(cfg, p, d)
    case Settle(lane) => Complete(cfg, p, lane)
  }

  /** Every call and every completion keeps the invariant and leaves no slot idle over work. */
  lemma StepKeeps<D(!new), K(!new), I(!new)>(cfg: Config<D, K, I>, p: Pool<D, K, I>, e: Event<D, K>)
    requires Valid(cfg, p) && Settled(cfg, p) && CanHappen(p, e)
    ensures Valid(cfg, Step(cfg, p, e)) && Settled(cfg, Step(cfg, p, e))
  {
    match e
    case Offer(d) =>
      if cfg.identityKey(d) !in p.pending && p.queued < cfg.maxQueueDepth {
        AdmitKeeps(cfg, p, d);
        PumpKeeps(cfg, Admit(cfg, p, d));
      }
    case Settle(lane) =>
      ReleaseKeeps(cfg, p, lane);
      PumpKeeps(cfg, Release(cfg, p, lane));
  }

  ghost predicate IsRun<D(!new), K(!new), I(!new)>(cfg: Config<D, K, I>, p: Pool<D, K, I>, events: seq<Event<D, K>>, p': Pool<D, K, I>)
    decreases |events|
  {
    if events == [] then p == p'
    else Valid(cfg, p) && CanHappen(p, events[0]) && IsRun(cfg, Step(cfg, p, events[0]), events[1..], p')
  }

  /** Histories only grow. */
  ghost predicate Extends<D, K, I>(p: Pool<D, K, I>, p': Pool<D, K, I>) {
    p.accepted <= p'.accepted && p.dispatched <= p'.dispatched && p.marked <= p'.marked
  }

  lemma {:induction false} PumpExtends<D(!new), K(!new), I(!new)>(cfg: Config<D, K, I>, p: Pool<D, K, I>)
    requires Valid(cfg, p)
    ensures Extends(p, Pump(cfg, p)) && Pump(cfg, p).accepted == p.accepted && Pump(cfg, p).marked == p.marked
    ensures Pump(cfg, p).pending == p.pending
    decreases |p.readyLanes|
  {
    if p.active < cfg.maxConcurrency && p.readyLanes != [] {
      DispatchKeeps(cfg, p);
      PumpExtends(cfg, Dispatch(p));
    }
  }

  lemma ExtendsThrough<D, K, I>(p: Pool<D, K, I>, p1: Pool<D, K, I>, p': Pool<D, K, I>)
    requires Extends(p, p1) && Extends(p1, p')
    ensures Extends(p, p')
  {
  }

  lemma AdmitExtends<D, K, I>(cfg: Config<D, K, I>, p: Pool<D, K, I>, d: D)
    ensures Extends(p, Admit(cfg, p, d))
  {
  }

  lemma StepExtends<D(!new), K(!new), I(!new)>(cfg: Config<D, K, I>, p: Pool<D, K, I>, e: Event<D, K>)
    requires Valid(cfg, p) && CanHappen(p, e)
    ensures Extends(p, Step(cfg, p, e))
  {
    match e
    case Offer(d) =>
      if cfg.identityKey(d) !in p.pending && p.queued < cfg.maxQueueDepth {
        AdmitKeeps(cfg, p, d);
        PumpExtends(cfg, Admit(cfg, p, d));
        AdmitExtends(cfg, p, d);
        ExtendsThrough(p, Admit(cfg, p, d), Pump(cfg, Admit(cfg, p, d)));
      }
    case Settle(lane) =>
      ReleaseKeeps(cfg, p, lane);
      PumpExtends(cfg, Release(cfg, p, lane));
      ExtendsThrough(p, Release(cfg, p, lane), Pump(cfg, Release(cfg, p, lane)));
  }

  lemma {:induction false} RunKeeps<D(!new), K(!new), I(!new)>(cfg: Config<D, K, I>, p: Pool<D, K, I>, events: seq<Event<D, K>>, p': Pool<D, K, I>)
    requires Valid(cfg, p) && Settled(cfg, p) && IsRun(cfg, p, events, p')
    ensures Valid(cfg, p') && Settled(cfg, p') && Extends(p, p')
    decreases |events|
  {
    if events != [] {
      StepKeeps(cfg, p, events[0]);
      StepExtends(cfg, p, events[0]);
      RunKeeps(cfg, Step(cfg, p, events[0]), events[1..], p');
      ExtendsThrough(p, Step(cfg, p, events[0]), p');
    }
  }

  lemma EmptyIsValid<D(!new), K(!new), I(!new)>(cfg: Config<D, K, I>)
    requires ValidConfig(cfg)
    ensures Valid(cfg, Empty<D, K, I>()) && Settled(cfg, Empty<D, K, I>())
  {
    var p := Empty<D, K, I>();
    assert LaneKeys(cfg, p.dispatched) + p.readyLanes == [];
  }

  /** In every run each lane dispatches its accepted deliveries in order, the running one last. */
  lemma LanesStayInOrder<D(!new), K(!new), I(!new)>(cfg: Config<D, K, I>, events: seq<Event<D, K>>, p: Pool<D, K, I>, key: K)
    requires ValidConfig(cfg) && IsRun(cfg, Empty(), events, p)
    ensures InLane(cfg, p.accepted, key) == InLane(cfg, p.dispatched, key) + QueueOf(p, key)
    ensures key in p.inFlight ==>
              var sent := InLane(cfg, p.dispatched, key); sent != [] && p.inFlight[key] == sent[|sent| - 1]
  {
    EmptyIsValid(cfg);
    RunKeeps(cfg, Empty(), events, p);
  }

  /**
   * Fairness: a lane at position `i` of the line gets its slot after exactly `i` other
   * dispatches, all of them to other lanes, whatever arrives or settles in between.
   */
  lemma LineIsFair<D(!new), K(!new), I(!new)>(cfg: Config<D, K, I>, p: Pool<D, K, I>, events: seq<Event<D, K>>, p': Pool<D, K, I>, i: nat)
    requires Valid(cfg, p) && Settled(cfg, p) && IsRun(cfg, p, events, p') && i < |p.readyLanes|
    ensures |p'.dispatched| > |p.dispatched| + i ==> cfg.laneKey(p'.dispatched[|p.dispatched| + i]) == p.readyLanes[i]
    ensures forall j :: |p.dispatched| <= j < |p.dispatched| + i && j < |p'.dispatched| ==>
              cfg.laneKey(p'.dispatched[j]) != p.readyLanes[i]
    ensures |p'.dispatched| <= |p.dispatched| + i ==>
              var j := |p.dispatched| + i - |p'.dispatched|; j < |p'.readyLanes| && p'.readyLanes[j] == p.readyLanes[i]
  {
    RunKeeps(cfg, p, events, p');
    FairFromHistory(cfg, p, p', i);
  }

  lemma FairFromHistory<D, K(!new), I>(cfg: Config<D, K, I>, p: Pool<D, K, I>, p': Pool<D, K, I>, i: nat)
    requires OrderIsKept(cfg, p) && OrderIsKept(cfg, p') && Extends(p, p') && i < |p.readyLanes| && Distinct(p.readyLanes)
    ensures |p'.dispatched| > |p.dispatched| + i ==> cfg.laneKey(p'.dispatched[|p.dispatched| + i]) == p.readyLanes[i]
    ensures forall j :: |p.dispatched| <= j < |p.dispatched| + i && j < |p'.dispatched| ==>
              cfg.laneKey(p'.dispatched[j]) != p.readyLanes[i]
    ensures |p'.dispatched| <= |p.dispatched| + i ==>
              var j := |p.dispatched| + i - |p'.dispatched|; j < |p'.readyLanes| && p'.readyLanes[j] == p.readyLanes[i]
  {
    LineIsAQueue(cfg, p, p', i);
    forall j | |p.dispatched| <= j < |p.dispatched| + i && j < |p'.dispatched|
      ensures cfg.laneKey(p'.dispatched[j]) != p.readyLanes[i]
    {
      LineIsAQueue(cfg, p, p', j - |p.dispatched|);
    }
  }

  lemma MarkedAt<D, K(!new), I>(cfg: Config<D, K, I>, p: Pool<D, K, I>, j: nat)
    requires OrderIsKept(cfg, p) && j < |p.marked|
    ensures |p.marked| == |p.dispatched| + |p.readyLanes|
    ensures p.marked[j] == if j < |p.dispatched| then cfg.laneKey(p.dispatched[j]) else p.readyLanes[j - |p.dispatched|]
  {
  }

  lemma LineIsAQueue<D, K(!new), I>(cfg: Config<D, K, I>, p: Pool<D, K, I>, p': Pool<D, K, I>, i: nat)
    requires OrderIsKept(cfg, p) && OrderIsKept(cfg, p') && Extends(p, p') && i < |p.readyLanes|
    ensures |p'.marked| == |p'.dispatched| + |p'.readyLanes| && |p.dispatched| + i < |p'.marked|
    ensures var j := |p.dispatched| + i;
            p.readyLanes[i] == if j < |p'.dispatched| then cfg.laneKey(p'.dispatched[j]) else p'.readyLanes[j - |p'.dispatched|]
  {
    var j := |p.dispatched| + i;
    assert |p.marked| == |p.dispatched| + |p.readyLanes|;
    MarkedAt(cfg, p, j);
    assert p'.marked[j] == p.marked[j];
    MarkedAt(cfg, p', j);
  }

  /** A free slot means that every lane left is already running. */
  lemma FreeSlotMeansAllRunning<D(!new), K(!new), I(!new)>(cfg: Config<D, K, I>, p: Pool<D, K, I>)
    requires Valid(cfg, p) && Settled(cfg, p) && p.active < cfg.maxConcurrency
    ensures forall k :: k in p.lanes ==> p.lanes[k].running
    ensures p.lanes.Keys == p.inFlight.Keys
  {
    assert forall k :: k in p.lanes ==> k !in p.readyLanes;
  }
}
