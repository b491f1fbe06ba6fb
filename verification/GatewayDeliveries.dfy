/**
 * The gateway's delivery path: a served delivery is re-acked if it was sent recently, dropped if a
 * copy is pending, and otherwise dispatched; a successful provider send is remembered before its
 * ack. Between two successful sends of one delivery at least a cache's worth of others succeeded.
 */
module GatewayDeliveries {
  import opened Sequences
  import opened SentDeliveries
  import P = DeliveryDispatcher
  import O = DispatchOutcomes
  import DispatcherState

  /** `served` are the running lanes whose delivery already reached its provider; `sends` is the log. */
  datatype Gateway<D, !K, !I> = Gateway(pool: P.Pool<D, K, I>, sent: seq<I>, served: set<K>, sends: seq<I>)

  /** The cloud serves a delivery; a provider send succeeds; a handler settles, acked or not. */
  datatype Action<D, K> = Serve(delivery: D) | SendSucceeded(lane: K) | HandlerSettled(lane: K)

  ghost predicate CanHappen<D, K(!new), I>(g: Gateway<D, K, I>, a: Action<D, K>) {
    match a
    case Serve(_) => true
    case SendSucceeded(lane) => lane in g.pool.inFlight && lane !in g.served
    case HandlerSettled(lane) => lane in g.pool.inFlight
  }

  ghost function Step<D(!new), K(!new), I(!new)>(cfg: P.Config<D, K, I>, cap: nat, g: Gateway<D, K, I>, a: Action<D, K>): Gateway<D, K, I>
    requires P.Valid(cfg, g.pool) && CanHappen(g, a)
  {
    match a
    case Serve(d) =>
      if cfg.identityKey(d) in g.sent then g else g.(pool := P.Enqueue(cfg, g.pool, d))
    case SendSucceeded(lane) =>
      var x := cfg.identityKey(g.pool.inFlight[lane]);
      g.(sent := Remember(g.sent, x, cap), served := g.served + {lane}, sends := g.sends + [x])
    case HandlerSettled(lane) =>
      g.(pool := P.Complete(cfg, g.pool, lane), served := g.served - {lane})
  }

  /** A pending delivery that was sent before is either the one in flight or far from its last send. */
  ghost predicate IsFarOrServed<D, K(!new), I(!new)>(cfg: P.Config<D, K, I>, cap: nat, g: Gateway<D, K, I>, x: I) {
    || x !in g.sends
    || |SentAfter(g.sends, x)| >= cap
    || exists k :: k in g.served && k in g.pool.inFlight && cfg.identityKey(g.pool.inFlight[k]) == x
  }

  ghost predicate Valid<D(!new), K(!new), I(!new)>(cfg: P.Config<D, K, I>, cap: nat, g: Gateway<D, K, I>) {
    && cap > 0
    && P.Valid(cfg, g.pool) && P.Settled(cfg, g.pool)
    && CacheIsRecent(g.sent, g.sends, cap)
    && Spaced(g.sends, cap)
    && g.served <= g.pool.inFlight.Keys
    && (forall x :: x in g.pool.pending ==> IsFarOrServed(cfg, cap, g, x))
  }

  // ----- What the pool's operations leave alone ------------------------------------------------

  ghost predicate KeepsInFlight<D, K(!new), I>(p: P.Pool<D, K, I>, p': P.Pool<D, K, I>, except: set<K>) {
    forall k :: k in p.inFlight && k !in except ==> k in p'.inFlight && p'.inFlight[k] == p.inFlight[k]
  }

  lemma {:induction false} PumpKeepsInFlight<D(!new), K(!new), I(!new)>(cfg: P.Config<D, K, I>, p: P.Pool<D, K, I>)
    requires P.Valid(cfg, p)
    ensures KeepsInFlight(p, P.Pump(cfg, p), {}) && P.Pump(cfg, p).pending == p.pending
    decreases |p.readyLanes|
  {
    if p.active < cfg.maxConcurrency && p.readyLanes != [] {
      P.DispatchKeeps(cfg, p);
      P.FrontIsDispatchable(p);
      PumpKeepsInFlight(cfg, P.Dispatch(p));
    }
  }

  lemma EnqueueFrame<D(!new), K(!new), I(!new)>(cfg: P.Config<D, K, I>, p: P.Pool<D, K, I>, d: D)
    requires P.Valid(cfg, p)
    ensures KeepsInFlight(p, P.Enqueue(cfg, p, d), {})
    ensures P.Enqueue(cfg, p, d).pending <= p.pending + {cfg.identityKey(d)}
  {
    if cfg.identityKey(d) !in p.pending && p.queued < cfg.maxQueueDepth {
      P.AdmitKeeps(cfg, p, d);
      PumpKeepsInFlight(cfg, P.Admit(cfg, p, d));
    }
  }

  lemma CompleteFrame<D(!new), K(!new), I(!new)>(cfg: P.Config<D, K, I>, p: P.Pool<D, K, I>, key: K)
    requires P.Valid(cfg, p) && key in p.inFlight
    ensures KeepsInFlight(p, P.Complete(cfg, p, key), {key})
    ensures P.Complete(cfg, p, key).pending == p.pending - {cfg.identityKey(p.inFlight[key])}
  {
    P.ReleaseKeeps(cfg, p, key);
    PumpKeepsInFlight(cfg, P.Release(cfg, p, key));
  }

  /** Two lanes never hold deliveries with the same identity. */
  lemma InFlightIsUnique<D(!new), K(!new), I(!new)>(cfg: P.Config<D, K, I>, p: P.Pool<D, K, I>, k: K, k': K)
    requires P.Valid(cfg, p) && k in p.inFlight && k' in p.inFlight
    requires cfg.identityKey(p.inFlight[k]) == cfg.identityKey(p.inFlight[k'])
    ensures k == k' && cfg.identityKey(p.inFlight[k]) in p.pending
  {
    assert P.Items(p, k)[0] == p.inFlight[k];
    assert P.Items(p, k')[0] == p.inFlight[k'];
  }

  // ----- Every step keeps the invariant ----------------------------------------------------------

  /** Lanes that keep their delivery keep what is known about pending keys. */
  lemma FarStaysFar<D, K(!new), I(!new)>(cfg: P.Config<D, K, I>, cap: nat, g: Gateway<D, K, I>, g': Gateway<D, K, I>, gone: set<K>, x: I)
    requires IsFarOrServed(cfg, cap, g, x) && g'.sends == g.sends && g.served - gone <= g'.served
    requires KeepsInFlight(g.pool, g'.pool, gone)
    requires forall k :: k in gone && k in g.pool.inFlight ==> cfg.identityKey(g.pool.inFlight[k]) != x
    ensures IsFarOrServed(cfg, cap, g', x)
  {
    if k :| k in g.served && k in g.pool.inFlight && cfg.identityKey(g.pool.inFlight[k]) == x {
      assert k in g'.served && k in g'.pool.inFlight && g'.pool.inFlight[k] == g.pool.inFlight[k];
    }
  }

  lemma ServeKeeps<D(!new), K(!new), I(!new)>(cfg: P.Config<D, K, I>, cap: nat, g: Gateway<D, K, I>, d: D)
    requires Valid(cfg, cap, g)
    ensures Valid(cfg, cap, Step(cfg, cap, g, Serve(d)))
  {
    if cfg.identityKey(d) !in g.sent {
      var g' := Step(cfg, cap, g, Serve(d));
      P.StepKeeps(cfg, g.pool, P.Offer(d));
      EnqueueFrame(cfg, g.pool, d);
      forall x | x in g'.pool.pending ensures IsFarOrServed(cfg, cap, g', x) {
        if x in g.pool.pending {
          FarStaysFar(cfg, cap, g, g', {}, x);
        }
      }
    }
  }

  /** A delivery about to be sent again is far from its last send. */
  lemma SendIsFar<D(!new), K(!new), I(!new)>(cfg: P.Config<D, K, I>, cap: nat, g: Gateway<D, K, I>, lane: K)
    requires P.Valid(cfg, g.pool) && lane in g.pool.inFlight && lane !in g.served
    requires forall x :: x in g.pool.pending ==> IsFarOrServed(cfg, cap, g, x)
    ensures var x := cfg.identityKey(g.pool.inFlight[lane]); x in g.sends ==> |SentAfter(g.sends, x)| >= cap
  {
    var x := cfg.identityKey(g.pool.inFlight[lane]);
    InFlightIsUnique(cfg, g.pool, lane, lane);
    assert IsFarOrServed(cfg, cap, g, x);
    if k :| k in g.served && k in g.pool.inFlight && cfg.identityKey(g.pool.inFlight[k]) == x {
      InFlightIsUnique(cfg, g.pool, lane, k);
    }
  }

  lemma FarAfterSend<D, K(!new), I(!new)>(cfg: P.Config<D, K, I>, cap: nat, g: Gateway<D, K, I>, g': Gateway<D, K, I>, lane: K, y: I)
    requires IsFarOrServed(cfg, cap, g, y) && lane in g.pool.inFlight
    requires g'.pool == g.pool && g'.served == g.served + {lane}
    requires g'.sends == g.sends + [cfg.identityKey(g.pool.inFlight[lane])]
    ensures IsFarOrServed(cfg, cap, g', y)
  {
    var x := cfg.identityKey(g.pool.inFlight[lane]);
    SentAfterAppend(g.sends, x, y);
    if y != x && |SentAfter(g.sends, y)| >= cap {
      SubsetCardinality(SentAfter(g.sends, y), SentAfter(g'.sends, y));
    } else if y == x {
      assert lane in g'.served;
    }
  }

  lemma SendKeeps<D(!new), K(!new), I(!new)>(cfg: P.Config<D, K, I>, cap: nat, g: Gateway<D, K, I>, lane: K)
    requires Valid(cfg, cap, g) && CanHappen(g, SendSucceeded(lane))
    ensures Valid(cfg, cap, Step(cfg, cap, g, SendSucceeded(lane)))
  {
    var g' := Step(cfg, cap, g, SendSucceeded(lane));
    var x := cfg.identityKey(g.pool.inFlight[lane]);
    SendIsFar(cfg, cap, g, lane);
    SpacedAppend(g.sends, cap, x);
    RememberKeeps(g.sent, g.sends, cap, x);
    forall y | y in g'.pool.pending ensures IsFarOrServed(cfg, cap, g', y) {
      FarAfterSend(cfg, cap, g, g', lane, y);
    }
  }

  lemma ServedStayInFlight<D, K(!new), I>(g: Gateway<D, K, I>, g': Gateway<D, K, I>, lane: K)
    requires g.served <= g.pool.inFlight.Keys && g'.served == g.served - {lane}
    requires KeepsInFlight(g.pool, g'.pool, {lane})
    ensures g'.served <= g'.pool.inFlight.Keys
  {
  }

  lemma FarAfterSettle<D, K(!new), I(!new)>(cfg: P.Config<D, K, I>, cap: nat, g: Gateway<D, K, I>, g': Gateway<D, K, I>, lane: K)
    requires forall x :: x in g.pool.pending ==> IsFarOrServed(cfg, cap, g, x)
    requires g'.sends == g.sends && g'.served == g.served - {lane} && KeepsInFlight(g.pool, g'.pool, {lane})
    requires lane in g.pool.inFlight && g'.pool.pending == g.pool.pending - {cfg.identityKey(g.pool.inFlight[lane])}
    ensures forall x :: x in g'.pool.pending ==> IsFarOrServed(cfg, cap, g', x)
  {
    forall x | x in g'.pool.pending ensures IsFarOrServed(cfg, cap, g', x) {
      FarStaysFar(cfg, cap, g, g', {lane}, x);
    }
  }

  lemma SettleKeeps<D(!new), K(!new), I(!new)>(cfg: P.Config<D, K, I>, cap: nat, g: Gateway<D, K, I>, lane: K)
    requires Valid(cfg, cap, g) && CanHappen(g, HandlerSettled(lane))
    ensures Valid(cfg, cap, Step(cfg, cap, g, HandlerSettled(lane)))
  {
    var g' := Step(cfg, cap, g, HandlerSettled(lane));
    P.StepKeeps(cfg, g.pool, P.Settle(lane));
    CompleteFrame(cfg, g.pool, lane);
    ServedStayInFlight(g, g', lane);
    FarAfterSettle(cfg, cap, g, g', lane);
  }

  ghost predicate IsRun<D(!new), K(!new), I(!new)>(cfg: P.Config<D, K, I>, cap: nat, g: Gateway<D, K, I>, actions: seq<Action<D, K>>, g': Gateway<D, K, I>)
    decreases |actions|
  {
    if actions == [] then g == g'
    else P.Valid(cfg, g.pool) && CanHappen(g, actions[0]) && IsRun(cfg, cap, Step(cfg, cap, g, actions[0]), actions[1..], g')
  }

  lemma StepKeeps<D(!new), K(!new), I(!new)>(cfg: P.Config<D, K, I>, cap: nat, g: Gateway<D, K, I>, a: Action<D, K>)
    requires Valid(cfg, cap, g) && CanHappen(g, a)
    ensures Valid(cfg, cap, Step(cfg, cap, g, a))
  {
    match a
    case Serve(d) => ServeKeeps(cfg, cap, g, d);
    case SendSucceeded(lane) => SendKeeps(cfg, cap, g, lane);
    case HandlerSettled(lane) => SettleKeeps(cfg, cap, g, lane);
  }

  lemma {:induction false} RunKeeps<D(!new), K(!new), I(!new)>(cfg: P.Config<D, K, I>, cap: nat, g: Gateway<D, K, I>, actions: seq<Action<D, K>>, g': Gateway<D, K, I>)
    requires Valid(cfg, cap, g) && IsRun(cfg, cap, g, actions, g')
    ensures Valid(cfg, cap, g')
    decreases |actions|
  {
    if actions != [] {
      StepKeeps(cfg, cap, g, actions[0]);
      RunKeeps(cfg, cap, Step(cfg, cap, g, actions[0]), actions[1..], g');
    }
  }

  function Fresh<D, K, I>(): Gateway<D, K, I> {
    Gateway(P.Empty(), [], {}, [])
  }

  /**
   * Duplicate-send bound: in every run, for every order of re-serves, failed acks and evictions,
   * at least 2048 distinct other deliveries were sent successfully between two
   * successful sends of the same delivery.
   */
  lemma DuplicateSendsAreFarApart<D(!new), K(!new), I(!new)>(cfg: P.Config<D, K, I>, actions: seq<Action<D, K>>, g: Gateway<D, K, I>, i: nat, j: nat)
    requires P.ValidConfig(cfg) && IsRun(cfg, SENT_DELIVERY_CACHE_SIZE, Fresh(), actions, g)
    requires i < j < |g.sends| && g.sends[i] == g.sends[j]
    ensures |ToSet(g.sends[i + 1..j]) - {g.sends[i]}| >= 2048
  {
    P.EmptyIsValid(cfg);
    RunKeeps(cfg, SENT_DELIVERY_CACHE_SIZE, Fresh(), actions, g);
    SpacedByPosition(g.sends, SENT_DELIVERY_CACHE_SIZE, i, j);
  }

  // ----- What becomes of a served delivery ---------------------------------------------------------

  /** The key was sent, and fewer than `cap` distinct others since. */
  ghost predicate WasSentLately<I(!new)>(sends: seq<I>, cap: nat, x: I) {
    x in sends && |SentAfter(sends, x)| < cap
  }

  /** The cache remembers exactly the keys that were sent lately. */
  lemma RememberedIffSentLately<I(!new)>(sent: seq<I>, sends: seq<I>, cap: nat, x: I)
    requires CacheIsRecent(sent, sends, cap)
    ensures x in sent <==> WasSentLately(sends, cap, x)
  {
    if x in sent {
      var i :| 0 <= i < |sent| && sent[i] == x;
      assert Distinct(sent[i + 1..]);
      DistinctCardinality(sent[i + 1..]);
    }
  }

  /** Not sent lately, no copy held, and room in the queue. */
  ghost predicate IsNew<D(!new), K(!new), I(!new)>(cfg: P.Config<D, K, I>, cap: nat, g: Gateway<D, K, I>, d: D) {
    !WasSentLately(g.sends, cap, cfg.identityKey(d)) && O.IsNew(cfg, g.pool, d)
  }

  /** A served delivery that is new is taken in, at once in flight if slot and lane are free; any other changes nothing. */
  lemma ServeTakesInTheNew<D(!new), K(!new), I(!new)>(cfg: P.Config<D, K, I>, cap: nat, g: Gateway<D, K, I>, d: D)
    requires Valid(cfg, cap, g)
    ensures var g' := Step(cfg, cap, g, Serve(d));
            if IsNew(cfg, cap, g, d) then g' == g.(pool := g'.pool) && O.IsTakenIn(cfg, g.pool, d, g'.pool) else g' == g
  {
    RememberedIffSentLately(g.sent, g.sends, cap, cfg.identityKey(d));
    O.OfferTakesInTheNew(cfg, g.pool, d);
  }

  /** What one action adds to the accepted deliveries and to the log of sends. */
  ghost predicate IsOnRecord<D(!new), K(!new), I(!new)>(cfg: P.Config<D, K, I>, cap: nat, g: Gateway<D, K, I>, a: Action<D, K>, g': Gateway<D, K, I>) {
    && g'.pool.accepted == g.pool.accepted + Taken(cfg, cap, g, a)
    && g'.sends == g.sends + Sent(cfg, g, a)
  }

  ghost function Taken<D(!new), K(!new), I(!new)>(cfg: P.Config<D, K, I>, cap: nat, g: Gateway<D, K, I>, a: Action<D, K>): seq<D> {
    if a.Serve? && IsNew(cfg, cap, g, a.delivery) then [a.delivery] else []
  }

  ghost function Sent<D, K(!new), I>(cfg: P.Config<D, K, I>, g: Gateway<D, K, I>, a: Action<D, K>): seq<I> {
    if a.SendSucceeded? && a.lane in g.pool.inFlight then [cfg.identityKey(g.pool.inFlight[a.lane])] else []
  }

  lemma StepIsOnRecord<D(!new), K(!new), I(!new)>(cfg: P.Config<D, K, I>, cap: nat, g: Gateway<D, K, I>, a: Action<D, K>)
    requires Valid(cfg, cap, g) && CanHappen(g, a)
    ensures IsOnRecord(cfg, cap, g, a, Step(cfg, cap, g, a))
  {
    match a
    case Serve(d) => ServeTakesInTheNew(cfg, cap, g, d);
    case SendSucceeded(_) =>
    case HandlerSettled(lane) => SettlingAcceptsNothing(cfg, cap, g, lane);
  }

  lemma SettlingAcceptsNothing<D(!new), K(!new), I(!new)>(cfg: P.Config<D, K, I>, cap: nat, g: Gateway<D, K, I>, lane: K)
    requires Valid(cfg, cap, g) && CanHappen(g, HandlerSettled(lane))
    ensures var g' := Step(cfg, cap, g, HandlerSettled(lane)); g'.pool.accepted == g.pool.accepted && g'.sends == g.sends
  {
    O.SettleHandsOver(cfg, g.pool, lane);
  }

  /** The deliveries of a run that were new when they were served, in order. */
  ghost function NewlyServed<D(!new), K(!new), I(!new)>(cfg: P.Config<D, K, I>, cap: nat, g: Gateway<D, K, I>, actions: seq<Action<D, K>>): seq<D>
    decreases |actions|
  {
    if actions == [] || !P.Valid(cfg, g.pool) || !CanHappen(g, actions[0]) then []
    else Taken(cfg, cap, g, actions[0]) + NewlyServed(cfg, cap, Step(cfg, cap, g, actions[0]), actions[1..])
  }

  /** The deliveries that the run's successful sends were about, in order. */
  ghost function SuccessfulSends<D(!new), K(!new), I(!new)>(cfg: P.Config<D, K, I>, cap: nat, g: Gateway<D, K, I>, actions: seq<Action<D, K>>): seq<I>
    decreases |actions|
  {
    if actions == [] || !P.Valid(cfg, g.pool) || !CanHappen(g, actions[0]) then []
    else Sent(cfg, g, actions[0]) + SuccessfulSends(cfg, cap, Step(cfg, cap, g, actions[0]), actions[1..])
  }

  /**
   * In every run the accepted deliveries are exactly the served ones that were not sent lately, not
   * pending and not over the bound when they were served, and the log of sends holds exactly the
   * deliveries in flight at the successful sends.
   */
  lemma {:induction false} RunTakesInTheNew<D(!new), K(!new), I(!new)>(cfg: P.Config<D, K, I>, cap: nat, g: Gateway<D, K, I>, actions: seq<Action<D, K>>, g': Gateway<D, K, I>)
    requires Valid(cfg, cap, g) && IsRun(cfg, cap, g, actions, g')
    ensures g'.pool.accepted == g.pool.accepted + NewlyServed(cfg, cap, g, actions)
    ensures g'.sends == g.sends + SuccessfulSends(cfg, cap, g, actions)
    decreases |actions|
  {
    if actions != [] {
      var a, g1 := actions[0], Step(cfg, cap, g, actions[0]);
      StepKeeps(cfg, cap, g, a);
      StepIsOnRecord(cfg, cap, g, a);
      RunTakesInTheNew(cfg, cap, g1, actions[1..], g');
      AppendIsAssociative(g.pool.accepted, Taken(cfg, cap, g, a), NewlyServed(cfg, cap, g1, actions[1..]));
      AppendIsAssociative(g.sends, Sent(cfg, g, a), SuccessfulSends(cfg, cap, g1, actions[1..]));
    }
  }

  // ----- The runtime object ----------------------------------------------------------------------

  class GatewayRuntime<D(!new), K(==,!new), I(==,!new)> {
    const dispatcher: DispatcherState.Dispatcher<D, K, I>
    const sentKeys: SentCache<I>
    ghost var served: set<K>
    ghost var sends: seq<I>

    ghost function View(): Gateway<D, K, I>
      reads this, dispatcher, sentKeys
    {
      Gateway(dispatcher.View(), sentKeys.keys, served, sends)
    }

    constructor (concurrency: int, depth: int, laneKey: D -> K, identityKey: D -> I)
      ensures fresh(dispatcher) && fresh(sentKeys)
      ensures dispatcher.Valid() && View() == Fresh<D, K, I>() && sentKeys.cap == 2048
    {
      dispatcher := new DispatcherState.Dispatcher(concurrency, depth, laneKey, identityKey);
      sentKeys := new SentCache(SENT_DELIVERY_CACHE_SIZE);
      served, sends := {}, [];
    }

    /** Re-acks a delivery that was sent recently instead of dispatching it again. */
    method OnDelivery(delivery: D) returns (reacked: bool)
      requires dispatcher.Valid()
      modifies dispatcher
      ensures dispatcher.Valid()
      ensures View() == Step(dispatcher.Settings(), sentKeys.cap, old(View()), Serve(delivery))
      ensures reacked <==> dispatcher.identityKey(delivery) in sentKeys.keys
      ensures dispatcher.accepted ==
                if !reacked && dispatcher.identityKey(delivery) !in old(dispatcher.pendingDeliveryKeys)
                   && old(dispatcher.queued) < dispatcher.maxQueueDepth
                then old(dispatcher.accepted) + [delivery] else old(dispatcher.accepted)
      ensures !reacked && old(dispatcher.queued) < dispatcher.maxQueueDepth ==>
                dispatcher.identityKey(delivery) in dispatcher.pendingDeliveryKeys
    {
      if dispatcher.identityKey(delivery) in sentKeys.keys {
        return true;
      }
      var outcome := dispatcher.Enqueue(delivery);
      reacked := false;
    }

    /** The provider accepted the delivery in flight on `lane`; recorded before the ack. */
    method OnSent(lane: K)
      requires dispatcher.Valid() && lane in dispatcher.inFlight && lane !in served
      modifies this, sentKeys
      ensures dispatcher.Valid()
      ensures View() == Step(dispatcher.Settings(), sentKeys.cap, old(View()), SendSucceeded(lane))
    {
      var key := dispatcher.identityKey(dispatcher.inFlight[lane]);
      sentKeys.RememberSent(key);
      served := served + {lane};
      sends := sends + [key];
    }

    method OnSettled(lane: K)
      requires dispatcher.Valid() && lane in dispatcher.inFlight
      modifies this, dispatcher
      ensures dispatcher.Valid()
      ensures View() == Step(dispatcher.Settings(), sentKeys.cap, old(View()), HandlerSettled(lane))
    {
      dispatcher.OnSettled(lane);
      served := served - {lane};
    }
  }
}
