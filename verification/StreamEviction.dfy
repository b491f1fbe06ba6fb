/**
 * Keeping the live streams under their cap: the streams active longest ago are evicted first, the
 * earlier in map order among equals. The source's test for "found one" also fails for the empty
 * id, so a stream with that id is never evicted and stops the loop when its turn comes.
 */
module StreamEviction {
  import opened Wrappers
  import opened Sequences
  import M = OrderedMaps

  type Streams<!I> = M.OrderedMap<I, int>

  // ----- The order of eviction -------------------------------------------------------------------

  ghost predicate IsBefore<I>(keys: seq<I>, a: I, b: I) {
    exists i, j :: 0 <= i < j < |keys| && keys[i] == a && keys[j] == b
  }

  /** `a` is evicted before `b`: active longer ago, or as long ago and earlier in the map. */
  ghost predicate IsAhead<I>(streams: Streams<I>, a: I, b: I) {
    && a in streams.at && b in streams.at
    && (streams.at[a] < streams.at[b] || (streams.at[a] == streams.at[b] && IsBefore(streams.keys, a, b)))
  }

  /** The streams whose turn comes before that of `id`. */
  ghost function Ahead<I(!new)>(streams: Streams<I>, id: I): set<I> {
    set a | a in streams.at && IsAhead(streams, a, id)
  }

  /** Nothing is ahead of `id`: it is the first in map order among those active longest ago. */
  ghost predicate IsNext<I(!new)>(streams: Streams<I>, id: I) {
    id in streams.at && forall a :: !IsAhead(streams, a, id)
  }

  lemma NextIsFirstOldest<I(!new)>(streams: Streams<I>, i: nat)
    requires M.Valid(streams) && i < |streams.keys|
    requires forall j :: 0 <= j < |streams.keys| ==> streams.keys[j] in streams.at && streams.keys[i] in streams.at
    requires forall j :: 0 <= j < |streams.keys| ==> streams.at[streams.keys[i]] <= streams.at[streams.keys[j]]
    requires forall j :: 0 <= j < i ==> streams.at[streams.keys[i]] < streams.at[streams.keys[j]]
    ensures IsNext(streams, streams.keys[i])
  {
    var id := streams.keys[i];
    forall a | a in streams.at ensures !IsAhead(streams, a, id) {
      assert a in streams.keys;
      var j :| 0 <= j < |streams.keys| && streams.keys[j] == a;
      assert streams.at[id] <= streams.at[streams.keys[j]];
    }
  }

  /** Any other stream comes after the next one. */
  lemma NextIsAheadOfOthers<I(!new)>(streams: Streams<I>, id: I, other: I)
    requires M.Valid(streams) && IsNext(streams, id) && other in streams.at && other != id
    ensures IsAhead(streams, id, other)
  {
    assert !IsAhead(streams, other, id);
    var i :| 0 <= i < |streams.keys| && streams.keys[i] == id;
    var j :| 0 <= j < |streams.keys| && streams.keys[j] == other;
    assert j < i ==> IsBefore(streams.keys, other, id);
    assert i < j ==> IsBefore(streams.keys, id, other);
  }

  // ----- Deleting one ----------------------------------------------------------------------------

  lemma {:induction false} WithoutIsOneShorter<I(!new)>(s: seq<I>, x: I)
    requires Distinct(s)
    ensures |Without(s, x)| == |s| - if x in s then 1 else 0
  {
    if s != [] {
      var init, last := s[..|s| - 1], s[|s| - 1];
      LastApart(s);
      assert last !in init;
      WithoutIsOneShorter(init, x);
    }
  }

  lemma DeleteKeepsValid<I(!new)>(streams: Streams<I>, id: I)
    requires M.Valid(streams) && id in streams.at
    ensures M.Valid(M.Delete(streams, id)) && |M.Delete(streams, id).keys| == |streams.keys| - 1
  {
    WithoutIsExact(streams.keys, id);
    WithoutIsOneShorter(streams.keys, id);
  }

  lemma BeforeInLonger<I>(init: seq<I>, last: I, a: I, b: I)
    ensures IsBefore(init + [last], a, b) <==> IsBefore(init, a, b) || (a in init && b == last)
  {
    var s := init + [last];
    if IsBefore(s, a, b) {
      var i, j :| 0 <= i < j < |s| && s[i] == a && s[j] == b;
      if j < |init| {
        assert init[i] == a && init[j] == b;
      } else {
        assert init[i] == a;
      }
    }
    if IsBefore(init, a, b) {
      var i, j :| 0 <= i < j < |init| && init[i] == a && init[j] == b;
      assert s[i] == a && s[j] == b;
    }
    if a in init && b == last {
      var i :| 0 <= i < |init| && init[i] == a;
      assert s[i] == a && s[|init|] == b;
    }
  }

  /** Deleting a key leaves the others in order. */
  lemma {:induction false} WithoutKeepsOrder<I(!new)>(s: seq<I>, x: I, a: I, b: I)
    requires Distinct(s) && a != x && b != x
    ensures IsBefore(Without(s, x), a, b) <==> IsBefore(s, a, b)
  {
    if s != [] {
      var init, last := s[..|s| - 1], s[|s| - 1];
      LastApart(s);
      WithoutKeepsOrder(init, x, a, b);
      WithoutIsExact(init, x);
      BeforeInLonger(init, last, a, b);
      if last == x {
        WithoutLast(s);
      } else {
        BeforeInLonger(Without(init, x), last, a, b);
      }
    }
  }

  /** Evicting the next stream takes just it off those ahead of any other. */
  lemma EvictionShortensTheLine<I(!new)>(streams: Streams<I>, id: I, other: I)
    requires M.Valid(streams) && IsNext(streams, id) && other in streams.at && other != id
    ensures Ahead(M.Delete(streams, id), other) == Ahead(streams, other) - {id} && id in Ahead(streams, other)
  {
    var rest := M.Delete(streams, id);
    NextIsAheadOfOthers(streams, id, other);
    forall a | a != id ensures IsAhead(rest, a, other) <==> IsAhead(streams, a, other) {
      WithoutKeepsOrder(streams.keys, id, a, other);
    }
    assert !IsAhead(rest, id, other);
  }

  // ----- What is evicted -------------------------------------------------------------------------

  /** Streams unchanged, and each of the gone ones ahead of each kept one. */
  ghost predicate EvictsInOrder<I(!new)>(before: Streams<I>, streams: Streams<I>) {
    && (forall k :: k in streams.at ==> k in before.at && streams.at[k] == before.at[k])
    && (forall a, b :: a in before.at && a !in streams.at && b in streams.at ==> IsAhead(before, a, b))
    && (forall a, b :: a in streams.at && b in streams.at ==> (IsBefore(streams.keys, a, b) <==> IsBefore(before.keys, a, b)))
  }

  lemma EvictOneMore<I(!new)>(before: Streams<I>, streams: Streams<I>, id: I)
    requires M.Valid(streams) && EvictsInOrder(before, streams) && IsNext(streams, id)
    ensures EvictsInOrder(before, M.Delete(streams, id))
  {
    var rest := M.Delete(streams, id);
    forall a, b | a in rest.at && b in rest.at ensures IsBefore(rest.keys, a, b) <==> IsBefore(before.keys, a, b) {
      WithoutKeepsOrder(streams.keys, id, a, b);
    }
    forall a, b | a in before.at && a !in rest.at && b in rest.at ensures IsAhead(before, a, b) {
      if a == id {
        NextIsAheadOfOthers(streams, id, b);
      }
    }
  }

  /** The loop will stop at the empty id: too few streams are ahead of it. */
  ghost predicate IsBlocked<I(!new)>(streams: Streams<I>, cap: nat, emptyId: I) {
    emptyId in streams.at && |Ahead(streams, emptyId)| <= |streams.keys| - cap
  }

  class LiveStreams<I(==,!new)> {
    const maxStreams: nat
    const emptyId: I
    var streams: Streams<I>
    var evictions: nat

    constructor (cap: int, emptyId: I)
      ensures maxStreams == (if cap < 1 then 1 else cap) && this.emptyId == emptyId
      ensures streams == M.Empty() && evictions == 0
    {
      maxStreams := if cap < 1 then 1 else cap;
      this.emptyId := emptyId;
      streams := M.Empty();
      evictions := 0;
    }

    method Touch(id: I, now: int)
      requires M.Valid(streams)
      modifies this`streams
      ensures streams == M.Put(old(streams), id, now) && M.Valid(streams)
    {
      M.PutKeepsValid(streams, id, now);
      streams := M.Put(streams, id, now);
    }

    /** The first stream in map order among those active longest ago. */
    method OldestStream() returns (oldest: Option<I>)
      requires M.Valid(streams)
      ensures oldest.None? <==> streams.keys == []
      ensures oldest.Some? ==> IsNext(streams, oldest.value)
    {
      oldest := None;
      var found := 0;
      for i := 0 to |streams.keys|
        invariant i > 0 ==> oldest.Some?
        invariant oldest.Some? ==> found < i && streams.keys[found] == oldest.value && oldest.value in streams.at
        invariant forall j :: 0 <= j < i ==> streams.keys[j] in streams.at
        invariant oldest.Some? ==> forall j :: 0 <= j < i ==> streams.at[oldest.value] <= streams.at[streams.keys[j]]
        invariant oldest.Some? ==> forall j :: 0 <= j < found ==> streams.at[oldest.value] < streams.at[streams.keys[j]]
      {
        var id := streams.keys[i];
        assert id in streams.keys;
        if oldest.None? || streams.at[id] < streams.at[oldest.value] {
          oldest := Some(id);
          found := i;
        }
      }
      if oldest.Some? {
        NextIsFirstOldest(streams, found);
      }
    }

    /**
     * Makes room for one more stream. It ends at or over the cap exactly when a stream with the
     * empty id is there and evicting everything ahead of it would not get under the cap.
     */
    method EvictUntilUnderCap()
      requires maxStreams > 0 && M.Valid(streams)
      modifies this
      ensures M.Valid(streams) && EvictsInOrder(old(streams), streams)
      ensures evictions - old(evictions) == |old(streams).keys| - |streams.keys|
      ensures |streams.keys| >= maxStreams <==> IsBlocked(old(streams), maxStreams, emptyId)
      ensures emptyId in old(streams).at ==> emptyId in streams.at
      ensures |old(streams).keys| < maxStreams ==> streams == old(streams)
      ensures |streams.keys| < |old(streams).keys| ==> |streams.keys| >= maxStreams - 1
    {
      while |streams.keys| >= maxStreams
        invariant M.Valid(streams) && EvictsInOrder(old(streams), streams)
        invariant evictions - old(evictions) == |old(streams).keys| - |streams.keys|
        invariant emptyId in old(streams).at <==> emptyId in streams.at
        invariant emptyId in old(streams).at ==>
            |Ahead(old(streams), emptyId)| == |Ahead(streams, emptyId)| + (|old(streams).keys| - |streams.keys|)
        invariant |old(streams).keys| < maxStreams ==> streams == old(streams)
        invariant |streams.keys| < |old(streams).keys| ==> |streams.keys| >= maxStreams - 1
        decreases |streams.keys|
      {
        var oldest := OldestStream();
        if oldest.None? || oldest.value == emptyId {
          assert Ahead(streams, emptyId) == {};
          break;
        }
        evictions := evictions + 1;
        EvictOneMore(old(streams), streams, oldest.value);
        DeleteKeepsValid(streams, oldest.value);
        if emptyId in streams.at {
          EvictionShortensTheLine(streams, oldest.value, emptyId);
        }
        streams := M.Delete(streams, oldest.value);
      }
    }
  }

  /** A single stream with the empty id, at a cap of one: eviction leaves it there. */
  method EmptyIdStaysOverCap() returns (size: nat, cap: nat)
    ensures cap == 1 && size >= cap
  {
    var live := new LiveStreams(1, "");
    live.Touch("", 7);
    assert live.streams.keys == [""] && live.streams.at == map["" := 7];
    assert Ahead(live.streams, "") == {};
    live.EvictUntilUnderCap();
    size, cap := |live.streams.keys|, live.maxStreams;
  }
}
