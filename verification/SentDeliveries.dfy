/**
 * Duplicate suppression across the dispatcher and the bounded cache of sent deliveries: how far
 * apart two successful sends of the same delivery must be.
 */
module SentDeliveries {
  import opened Sequences

  const SENT_DELIVERY_CACHE_SIZE := 2048

  // ----- The cache: distinct keys, the most recently sent last ---------------------------------

  function KeepLast<I>(s: seq<I>, cap: nat): seq<I> {
    if |s| <= cap then s else s[|s| - cap..]
  }

  function Remember<I(==)>(sent: seq<I>, x: I, cap: nat): seq<I> {
    KeepLast(Without(sent, x) + [x], cap)
  }

  class SentCache<I(==)> {
    const cap: nat
    var keys: seq<I>

    constructor (cap: nat)
      ensures keys == [] && this.cap == cap
    {
      this.cap := cap;
      keys := [];
    }

    method Delete(x: I)
      modifies this
      ensures keys == Without(old(keys), x)
    {
      var kept: seq<I> := [];
      for i := 0 to |keys|
        invariant keys == old(keys)
        invariant kept == Without(keys[..i], x)
      {
        TakeOneMore(keys, i);
        if keys[i] != x {
          kept := kept + [keys[i]];
        }
      }
      assert keys[..|keys|] == keys;
      keys := kept;
    }

    /** Re-inserts the key as the newest and evicts the oldest while over the cap. */
    method RememberSent(x: I)
      modifies this
      ensures keys == Remember(old(keys), x, cap)
    {
      Delete(x);
      keys := keys + [x];
      while |keys| > cap
        invariant KeepLast(keys, cap) == KeepLast(Without(old(keys), x) + [x], cap)
      {
        keys := keys[1..];
      }
    }
  }

  // ----- The send log --------------------------------------------------------------------------

  /** The distinct keys sent after the last send of `x`. */
  function SentAfter<I(==)>(sends: seq<I>, x: I): set<I> {
    if sends == [] || sends[|sends| - 1] == x then {}
    else SentAfter(sends[..|sends| - 1], x) + {sends[|sends| - 1]}
  }

  /** Each repeated send comes after at least `gap` other keys were sent. */
  ghost predicate Spaced<I>(sends: seq<I>, gap: nat) {
    forall j :: 0 <= j < |sends| && sends[j] in sends[..j] ==> |SentAfter(sends[..j], sends[j])| >= gap
  }

  /** The cache holds the latest keys, each in front of exactly what was sent after it. */
  ghost predicate CacheIsRecent<I(!new)>(sent: seq<I>, sends: seq<I>, cap: nat) {
    && Distinct(sent)
    && |sent| <= cap
    && (forall i :: 0 <= i < |sent| ==> sent[i] in sends && SentAfter(sends, sent[i]) == ToSet(sent[i + 1..]))
    && (forall x :: x in sends && x !in sent ==> |SentAfter(sends, x)| >= cap)
  }

  lemma SentAfterAppend<I>(sends: seq<I>, y: I, x: I)
    ensures SentAfter(sends + [y], x) == if x == y then {} else SentAfter(sends, x) + {y}
  {
    assert (sends + [y])[..|sends|] == sends;
  }

  /** What follows an element of the shortened sequence is what followed it before, less `x`. */
  lemma {:induction false} WithoutKeepsSuffixes<I(!new)>(s: seq<I>, x: I, j: nat) returns (i: nat)
    requires Distinct(s) && j < |Without(s, x)|
    ensures i < |s| && s[i] == Without(s, x)[j] && s[i] != x
    ensures ToSet(Without(s, x)[j + 1..]) == ToSet(s[i + 1..]) - {x}
  {
    var init, last := s[..|s| - 1], s[|s| - 1];
    var shorter := Without(init, x);
    var all := Without(s, x);
    if j < |shorter| {
      i := WithoutKeepsSuffixes(init, x, j);
      LastApart(s);
      assert s[i] == init[i] && all[j] == shorter[j];
      SuffixAppend(init, last, i + 1);
      ToSetAppend(init[i + 1..], last);
      if last != x {
        SuffixAppend(shorter, last, j + 1);
        ToSetAppend(shorter[j + 1..], last);
      } else {
        WithoutLast(s);
      }
    } else {
      i := |s| - 1;
      assert all[j + 1..] == [];
      assert s[i + 1..] == [];
    }
  }

  lemma SuffixAppend<I>(s: seq<I>, x: I, j: nat)
    requires j <= |s|
    ensures (s + [x])[j..] == s[j..] + [x]
  {
  }

  /** A refreshed key moves to the end; the others then also have it after them. */
  lemma SuffixAfterRefresh<I(!new)>(kept: seq<I>, sends: seq<I>, x: I, j: nat, later: set<I>)
    requires j < |kept| && kept[j] != x
    requires SentAfter(sends, kept[j]) == later && ToSet(kept[j + 1..]) == later - {x}
    ensures SentAfter(sends + [x], (kept + [x])[j]) == ToSet((kept + [x])[j + 1..])
  {
    SentAfterAppend(sends, x, kept[j]);
    SuffixAppend(kept, x, j + 1);
    ToSetAppend(kept[j + 1..], x);
  }

  /** Before eviction: the refreshed cache is still in front of exactly what was sent later. */
  lemma RefreshedSuffix<I(!new)>(sent: seq<I>, sends: seq<I>, cap: nat, x: I, j: nat)
    requires CacheIsRecent(sent, sends, cap) && j <= |Without(sent, x)|
    ensures var updated := Without(sent, x) + [x];
            updated[j] in sends + [x] && SentAfter(sends + [x], updated[j]) == ToSet(updated[j + 1..])
  {
    var kept := Without(sent, x);
    if j < |kept| {
      var i := WithoutKeepsSuffixes(sent, x, j);
      assert sent[i] in sends && SentAfter(sends, sent[i]) == ToSet(sent[i + 1..]);
      SuffixAfterRefresh(kept, sends, x, j, ToSet(sent[i + 1..]));
    } else {
      SentAfterAppend(sends, x, x);
    }
  }

  lemma FreshIsDistinct<I(!new)>(sent: seq<I>, x: I)
    requires Distinct(sent)
    ensures Distinct(Without(sent, x) + [x])
    ensures forall y :: y in Without(sent, x) + [x] <==> y in sent || y == x
  {
    WithoutIsExact(sent, x);
    DistinctAppend(Without(sent, x), x);
  }

  lemma {:induction false} WithoutIsShorter<I>(s: seq<I>, x: I)
    ensures |Without(s, x)| <= |s|
  {
    if s != [] {
      WithoutIsShorter(s[..|s| - 1], x);
    }
  }

  /** A key pushed out of the cache has at least `cap` distinct keys sent after it. */
  lemma EvictedIsFar<I(!new)>(sent: seq<I>, sends: seq<I>, cap: nat, x: I, y: I)
    requires CacheIsRecent(sent, sends, cap) && cap > 0
    requires y in sends + [x] && y !in Remember(sent, x, cap)
    ensures |SentAfter(sends + [x], y)| >= cap
  {
    var updated := Without(sent, x) + [x];
    FreshIsDistinct(sent, x);
    WithoutIsShorter(sent, x);
    if y in updated {
      var j :| 0 <= j < |updated| && updated[j] == y;
      var kept := KeepLast(updated, cap);
      assert forall i :: 0 <= i < |kept| ==> kept[i] == updated[i + (|updated| - |kept|)];
      assert j < |updated| - cap;
      RefreshedSuffix(sent, sends, cap, x, j);
      var rest := updated[j + 1..];
      assert Distinct(rest);
      DistinctCardinality(rest);
    } else {
      assert y != x && y in sends && y !in sent;
      SentAfterAppend(sends, x, y);
      assert SentAfter(sends, y) <= SentAfter(sends + [x], y);
      SubsetCardinality(SentAfter(sends, y), SentAfter(sends + [x], y));
    }
  }

  lemma KeptSuffix<I(!new)>(sent: seq<I>, sends: seq<I>, cap: nat, x: I, i: nat)
    requires CacheIsRecent(sent, sends, cap) && i < |Remember(sent, x, cap)|
    ensures var kept := Remember(sent, x, cap);
            kept[i] in sends + [x] && SentAfter(sends + [x], kept[i]) == ToSet(kept[i + 1..])
  {
    var updated := Without(sent, x) + [x];
    var j := |updated| - |KeepLast(updated, cap)| + i;
    RefreshedSuffix(sent, sends, cap, x, j);
    KeepLastSuffix(updated, cap, i);
  }

  lemma KeepLastSuffix<I>(s: seq<I>, cap: nat, i: nat)
    requires i < |KeepLast(s, cap)|
    ensures var j := |s| - |KeepLast(s, cap)| + i;
            j < |s| && KeepLast(s, cap)[i] == s[j] && KeepLast(s, cap)[i + 1..] == s[j + 1..]
  {
  }

  lemma RememberKeeps<I(!new)>(sent: seq<I>, sends: seq<I>, cap: nat, x: I)
    requires CacheIsRecent(sent, sends, cap) && cap > 0
    ensures CacheIsRecent(Remember(sent, x, cap), sends + [x], cap)
  {
    var kept := Remember(sent, x, cap);
    FreshIsDistinct(sent, x);
    forall i | 0 <= i < |kept|
      ensures kept[i] in sends + [x] && SentAfter(sends + [x], kept[i]) == ToSet(kept[i + 1..])
    {
      KeptSuffix(sent, sends, cap, x, i);
    }
    forall y | y in sends + [x] && y !in kept ensures |SentAfter(sends + [x], y)| >= cap {
      EvictedIsFar(sent, sends, cap, x, y);
    }
  }

  // ----- Reading the spacing by positions --------------------------------------------------------

  lemma {:induction false} SentAfterIsBetween<I(!new)>(sends: seq<I>, i: nat, x: I)
    requires i < |sends| && sends[i] == x
    ensures SentAfter(sends, x) <= ToSet(sends[i + 1..]) - {x}
  {
    var init, last := sends[..|sends| - 1], sends[|sends| - 1];
    if last != x {
      SentAfterIsBetween(init, i, x);
      assert sends[i + 1..] == init[i + 1..] + [last];
    }
  }

  /** Between two sends of the same key at least `gap` distinct other keys were sent. */
  lemma SpacedByPosition<I(!new)>(sends: seq<I>, gap: nat, i: nat, j: nat)
    requires Spaced(sends, gap) && i < j < |sends| && sends[i] == sends[j]
    ensures |ToSet(sends[i + 1..j]) - {sends[i]}| >= gap
  {
    var before := sends[..j];
    assert before[i] == sends[i];
    SentAfterIsBetween(before, i, sends[i]);
    assert before[i + 1..] == sends[i + 1..j];
    SubsetCardinality(SentAfter(before, sends[i]), ToSet(sends[i + 1..j]) - {sends[i]});
  }

  lemma SpacedAppend<I>(sends: seq<I>, gap: nat, x: I)
    requires Spaced(sends, gap) && (x in sends ==> |SentAfter(sends, x)| >= gap)
    ensures Spaced(sends + [x], gap)
  {
    var sends' := sends + [x];
    forall j | 0 <= j < |sends'| && sends'[j] in sends'[..j] ensures |SentAfter(sends'[..j], sends'[j])| >= gap {
      if j < |sends| {
        assert sends'[..j] == sends[..j] && sends'[j] == sends[j];
      } else {
        assert sends'[..j] == sends;
      }
    }
  }
}
