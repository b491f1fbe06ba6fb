/**
 * When paging is exact although the sort and the cursor test compare keys differently: for one
 * store, exactly when they agree on the keys of its matching events.
 */
module AuditPagingOrders {
  import opened Wrappers
  import opened Sequences
  import opened AuditPaging

  /** Following the cursor shows exactly the sorted list of matching events. */
  ghost predicate ShowsListing<E, K>(sort: Less<K>, after: Less<K>, key: E -> K, es: seq<E>, p: E -> bool, limit: nat) {
    Follow(Pager(sort, after, key, es, p, limit), None, |es| + 1) == Listing(sort, key, es, p)
  }

  lemma {:induction false} FilterIsShorter<E>(es: seq<E>, p: E -> bool)
    ensures |Filter(es, p)| <= |es|
  {
    if es != [] {
      FilterIsShorter(es[1..], p);
    }
  }

  lemma AgreementShowsListing<E(!new), K(!new)>(sort: Less<K>, after: Less<K>, key: E -> K, es: seq<E>, p: E -> bool, limit: nat)
    requires IsStrictTotal(sort) && DistinctKeys(key, es) && limit > 0 && AgreeBetween(sort, after, key, p, es, es)
    ensures ShowsListing(sort, after, key, es, p, limit)
  {
    ListingIsExact(sort, key, es, p);
    FollowingShowsListing(sort, after, key, es, p, limit, |es| + 1);
  }

  // ----- Pages of one ----------------------------------------------------------------------------

  lemma {:induction false} SortMembers<E(!new), K>(less: Less<K>, key: E -> K, es: seq<E>, x: E)
    ensures x in SortDescending(less, key, es) <==> x in es
  {
    if es != [] {
      HeadAndTail(es);
      SortMembers(less, key, es[1..], x);
      InsertMembers(less, key, es[0], SortDescending(less, key, es[1..]), x);
    }
  }

  lemma {:induction false} InsertMembers<E(!new), K>(less: Less<K>, key: E -> K, e: E, es: seq<E>, x: E)
    ensures x in Insert(less, key, e, es) <==> x == e || x in es
  {
    if es != [] && less(key(e), key(es[0])) {
      HeadAndTail(es);
      InsertMembers(less, key, e, es[1..], x);
    }
  }

  lemma {:induction false} BehindMembers<E(!new), K>(less: Less<K>, key: E -> K, es: seq<E>, cursor: Option<K>, x: E)
    requires x in Behind(less, key, es, cursor)
    ensures x in es && IsAfterCursor(less, key, x, cursor)
  {
    HeadAndTail(es);
    if x != es[0] || !IsAfterCursor(less, key, es[0], cursor) {
      BehindMembers(less, key, es[1..], cursor, x);
    }
  }

  /** A page of one: nothing, the only event left, or the first of several with its key as cursor. */
  ghost predicate IsSingle<E, K>(pager: Option<K> -> Page<E, K>, after: Less<K>, key: E -> K, cursor: Option<K>) {
    var page := pager(cursor);
    && |page.events| <= 1
    && (page.nextCursor.Some? ==> |page.events| == 1 && page.nextCursor == Some(key(page.events[0])))
    && (page.events != [] ==> IsAfterCursor(after, key, page.events[0], cursor))
  }

  lemma SinglePage<E(!new), K>(sort: Less<K>, after: Less<K>, key: E -> K, es: seq<E>, p: E -> bool, cursor: Option<K>)
    ensures IsSingle(Pager(sort, after, key, es, p, 1), after, key, cursor)
  {
    var behind := Behind(after, key, Filter(es, p), cursor);
    var sorted := SortDescending(sort, key, behind);
    if sorted != [] {
      SortMembers(sort, key, behind, sorted[0]);
      BehindMembers(after, key, Filter(es, p), cursor, sorted[0]);
    }
  }

  /** If the rest of the list is shown from `n` on, so it is from `n + 1` on, and its first event is after the cursor. */
  lemma OneByOne<E, K>(pager: Option<K> -> Page<E, K>, after: Less<K>, key: E -> K, list: seq<E>, n: nat, count: nat)
    requires n < |list| && count > 0 && Follow(pager, CursorAt(key, list, n), count) == list[n..]
    requires IsSingle(pager, after, key, CursorAt(key, list, n))
    ensures IsAfterCursor(after, key, list[n], CursorAt(key, list, n))
    ensures n + 1 < |list| ==> Follow(pager, CursorAt(key, list, n + 1), count - 1) == list[n + 1..]
  {
    var page := pager(CursorAt(key, list, n));
    assert list[n..][0] == list[n] && list[n..][1..] == list[n + 1..];
    if page.nextCursor.Some? {
      var rest := Follow(pager, page.nextCursor, count - 1);
      assert list[n..] == page.events + rest;
      assert page.events == [page.events[0]];
      assert list[n..][0] == page.events[0] && list[n..][1..] == rest;
    } else {
      assert page.events + [] == page.events;
    }
  }

  lemma {:induction false} RestIsShown<E, K(!new)>(pager: Option<K> -> Page<E, K>, after: Less<K>, key: E -> K, list: seq<E>, n: nat, count: nat)
    requires n < |list| < count && Follow(pager, None, count) == list && forall c :: IsSingle(pager, after, key, c)
    ensures Follow(pager, CursorAt(key, list, n), count - n) == list[n..]
  {
    if n == 0 {
      assert list[0..] == list;
    } else {
      RestIsShown(pager, after, key, list, n - 1, count);
      OneByOne(pager, after, key, list, n - 1, count - (n - 1));
    }
  }

  lemma EachIsAfter<E, K(!new)>(pager: Option<K> -> Page<E, K>, after: Less<K>, key: E -> K, list: seq<E>, n: nat, count: nat)
    requires 0 < n < |list| < count && Follow(pager, None, count) == list && forall c :: IsSingle(pager, after, key, c)
    ensures after(key(list[n]), key(list[n - 1]))
  {
    RestIsShown(pager, after, key, list, n, count);
    OneByOne(pager, after, key, list, n, count - n);
  }

  lemma {:induction false} LaterIsAfter<E, K(!new)>(pager: Option<K> -> Page<E, K>, after: Less<K>, key: E -> K, list: seq<E>, i: nat, j: nat, count: nat)
    requires i < j < |list| < count && Follow(pager, None, count) == list && forall c :: IsSingle(pager, after, key, c)
    requires IsStrictTotal(after)
    ensures after(key(list[j]), key(list[i]))
    decreases j
  {
    EachIsAfter(pager, after, key, list, j, count);
    if i < j - 1 {
      LaterIsAfter(pager, after, key, list, i, j - 1, count);
      Chain(after, key(list[j]), key(list[j - 1]), key(list[i]));
    }
  }

  /** Two lists that are strictly ordered both ways agree on all their pairs. */
  lemma PositionsAgree<E(!new), K(!new)>(sort: Less<K>, after: Less<K>, key: E -> K, list: seq<E>, i: nat, j: nat)
    requires IsStrictTotal(sort) && IsStrictTotal(after) && IsDescending(sort, key, list) && IsDescending(after, key, list)
    requires i < |list| && j < |list|
    ensures AgreeAt(sort, after, key(list[i]), key(list[j]))
  {
    OneWay(sort, key(list[i]), key(list[j]));
    OneWay(after, key(list[i]), key(list[j]));
    assert i < j ==> IsNewer(sort, key, list, i, j) && IsNewer(after, key, list, i, j);
    assert j < i ==> IsNewer(sort, key, list, j, i) && IsNewer(after, key, list, j, i);
  }

  lemma ShownIsDescending<E(!new), K(!new)>(sort: Less<K>, after: Less<K>, key: E -> K, es: seq<E>, p: E -> bool, list: seq<E>)
    requires IsStrictTotal(after) && |list| <= |es| && Follow(Pager(sort, after, key, es, p, 1), None, |es| + 1) == list
    ensures IsDescending(after, key, list)
  {
    var pager := Pager(sort, after, key, es, p, 1);
    forall c ensures IsSingle(pager, after, key, c) {
      SinglePage(sort, after, key, es, p, c);
    }
    forall i, j | 0 <= i < j < |list| ensures IsNewer(after, key, list, i, j) {
      LaterIsAfter(pager, after, key, list, i, j, |es| + 1);
    }
  }

  lemma ListingIsExact<E(!new), K(!new)>(sort: Less<K>, key: E -> K, es: seq<E>, p: E -> bool)
    requires IsStrictTotal(sort) && DistinctKeys(key, es)
    ensures var list := Listing(sort, key, es, p);
            IsDescending(sort, key, list) && |list| <= |es| && forall e :: e in list <==> e in es && p(e)
  {
    FilterKeepsDistinct(key, es, p);
    FilterIsExact(es, p);
    FilterIsShorter(es, p);
    SortIsExact(sort, key, Filter(es, p));
  }

  lemma ShownOneByOneAgrees<E(!new), K(!new)>(sort: Less<K>, after: Less<K>, key: E -> K, es: seq<E>, p: E -> bool)
    requires IsStrictTotal(sort) && IsStrictTotal(after) && DistinctKeys(key, es) && ShowsListing(sort, after, key, es, p, 1)
    ensures AgreeBetween(sort, after, key, p, es, es)
  {
    var list := Listing(sort, key, es, p);
    ListingIsExact(sort, key, es, p);
    ShownIsDescending(sort, after, key, es, p, list);
    forall x, y | x in es && p(x) && y in es && p(y) ensures AgreeAt(sort, after, key(x), key(y)) {
      var i := IndexOf(list, x);
      var j := IndexOf(list, y);
      PositionsAgree(sort, after, key, list, i, j);
    }
  }

  /**
   * For every store and filter: with every limit the pages together are the sorted list, if and
   * only if the two comparisons agree on the keys of the matching events.
   */
  lemma PagingExactIffKeysAgree<E(!new), K(!new)>(sort: Less<K>, after: Less<K>, key: E -> K, es: seq<E>, p: E -> bool)
    requires IsStrictTotal(sort) && IsStrictTotal(after) && DistinctKeys(key, es)
    ensures (forall limit: nat :: limit > 0 ==> ShowsListing(sort, after, key, es, p, limit)) <==> AgreeBetween(sort, after, key, p, es, es)
  {
    if AgreeBetween(sort, after, key, p, es, es) {
      forall limit: nat | limit > 0 ensures ShowsListing(sort, after, key, es, p, limit) {
        AgreementShowsListing(sort, after, key, es, p, limit);
      }
    } else if ShowsListing(sort, after, key, es, p, 1) {
      ShownOneByOneAgrees(sort, after, key, es, p);
    }
  }

  // ----- All stores ------------------------------------------------------------------------------

  ghost predicate Agree<K(!new)>(sort: Less<K>, after: Less<K>) {
    forall a, b :: AgreeAt(sort, after, a, b)
  }

  function Self<K>(k: K): K { k }

  predicate Any<K>(k: K) { true }

  /** Following the cursor over any store of distinct keys, with any limit, shows exactly the sorted list. */
  ghost predicate IsPagingExact<K(!new)>(sort: Less<K>, after: Less<K>) {
    forall es: seq<K>, limit: nat :: limit > 0 && DistinctKeys(Self, es) ==> ShowsListing(sort, after, Self, es, Any, limit)
  }

  /** So paging is exact for all stores exactly when the comparisons agree on all keys. */
  lemma PagingExactIffOrdersAgree<K(!new)>(sort: Less<K>, after: Less<K>)
    requires IsStrictTotal(sort) && IsStrictTotal(after)
    ensures IsPagingExact(sort, after) <==> Agree(sort, after)
  {
    if Agree(sort, after) {
      forall es: seq<K>, limit: nat | limit > 0 && DistinctKeys(Self, es) ensures ShowsListing(sort, after, Self, es, Any, limit) {
        AgreementShowsListing(sort, after, Self, es, Any, limit);
      }
    }
    if IsPagingExact(sort, after) {
      forall a, b ensures AgreeAt(sort, after, a, b) {
        var es := if a == b then [a] else [a, b];
        assert DistinctKeys(Self, es) by {
          forall i, j | 0 <= i < j < |es| ensures KeysDiffer(Self, es, i, j) {
          }
        }
        assert ShowsListing(sort, after, Self, es, Any, 1);
        ShownOneByOneAgrees(sort, after, Self, es, Any);
        assert a in es && b in es && Any(a) && Any(b);
        assert AgreeAt(sort, after, Self(a), Self(b));
      }
    }
  }

  lemma {:induction false} FilterAny<K>(es: seq<K>)
    ensures Filter(es, Any) == es
  {
    if es != [] {
      FilterAny(es[1..]);
      HeadAndTail(es);
    }
  }

  lemma SortPair<K(!new)>(sort: Less<K>, a: K, b: K)
    requires IsStrictTotal(sort) && sort(b, a)
    ensures SortDescending(sort, Self, [a, b]) == [a, b]
  {
    OneWay(sort, a, b);
    assert [a, b][1..] == [b] && [b][1..] == [];
    assert SortDescending(sort, Self, [b]) == [b];
  }

  lemma BehindPair<K(!new)>(after: Less<K>, a: K, b: K)
    requires IsStrictTotal(after) && !after(b, a)
    ensures Behind(after, Self, [a, b], Some(a)) == [] && Behind(after, Self, [a, b], None) == [a, b]
  {
    OneWay(after, a, a);
    assert [a, b][1..] == [b] && [b][1..] == [];
    assert Behind(after, Self, [b][1..], Some(a)) == [] && Behind(after, Self, [b][1..], None) == [];
    assert [b][0] == b && [b] + [] == [b] && [a] + [b] == [a, b];
    assert Behind(after, Self, [b], Some(a)) == [] && Behind(after, Self, [b], None) == [b];
  }

  /** Two keys that the comparisons order differently: with pages of one, the second is never shown. */
  lemma DisagreementSkips<K(!new)>(sort: Less<K>, after: Less<K>, a: K, b: K)
    requires IsStrictTotal(sort) && IsStrictTotal(after) && sort(b, a) && !after(b, a)
    ensures Follow(Pager(sort, after, Self, [a, b], Any, 1), None, 3) == [a]
    ensures !ShowsListing(sort, after, Self, [a, b], Any, 1)
  {
    var es := [a, b];
    FilterAny(es);
    SortPair(sort, a, b);
    BehindPair(after, a, b);
    assert Take(es, 2) == es && es[..1] == [a] && Self(a) == a;
    assert Query(sort, after, Self, es, Any, None, 1) == Page([a], Some(a));
    assert SortDescending(sort, Self, Behind(after, Self, es, Some(a))) == [];
    assert Query(sort, after, Self, es, Any, Some(a), 1) == Page([], None);
    assert Follow(Pager(sort, after, Self, es, Any, 1), Some(a), 2) == [];
  }

  // ----- Audit keys ------------------------------------------------------------------------------

  /** The key of an audit event: its creation time, and its id among equal times. */
  datatype AuditKey = AuditKey(createdAt: string, eventId: string)

  /** The key order that a comparison of strings induces. */
  function ByTimeThenId(less: Less<string>): Less<AuditKey> {
    (a: AuditKey, b: AuditKey) =>
      if a.createdAt != b.createdAt then less(a.createdAt, b.createdAt) else less(a.eventId, b.eventId)
  }

  lemma AuditOrderIsStrictTotal(less: Less<string>)
    requires IsStrictTotal(less)
    ensures IsStrictTotal(ByTimeThenId(less))
  {
    var order := ByTimeThenId(less);
    forall a, b, c ensures IsTransitiveAt(order, a, b, c) {
      assert IsTransitiveAt(less, a.createdAt, b.createdAt, c.createdAt) && IsTransitiveAt(less, a.eventId, b.eventId, c.eventId);
      OneWay(less, a.createdAt, b.createdAt);
    }
    forall a, b ensures IsTotalAt(order, a, b) {
      assert IsTotalAt(less, a.createdAt, b.createdAt) && IsTotalAt(less, a.eventId, b.eventId);
    }
  }

  /** The string comparisons agree on the times of the matching events, and on the ids among equal times. */
  ghost predicate StringsAgree<E(!new)>(locale: Less<string>, codeUnit: Less<string>, key: E -> AuditKey, es: seq<E>, p: E -> bool) {
    forall x, y :: x in es && p(x) && y in es && p(y) ==>
      (if key(x).createdAt != key(y).createdAt then AgreeAt(locale, codeUnit, key(x).createdAt, key(y).createdAt)
       else AgreeAt(locale, codeUnit, key(x).eventId, key(y).eventId))
  }

  /**
   * The audit query sorts with one comparison of strings and tests the cursor with another. A store
   * pages exactly, with every limit, if and only if the two agree on its matching events' times
   * and, among equal times, on their ids.
   */
  lemma AuditPagingExactIffStringsAgree<E(!new)>(locale: Less<string>, codeUnit: Less<string>, key: E -> AuditKey, es: seq<E>, p: E -> bool)
    requires IsStrictTotal(locale) && IsStrictTotal(codeUnit) && DistinctKeys(key, es)
    ensures (forall limit: nat :: limit > 0 ==> ShowsListing(ByTimeThenId(locale), ByTimeThenId(codeUnit), key, es, p, limit))
       <==> StringsAgree(locale, codeUnit, key, es, p)
  {
    var sort, after := ByTimeThenId(locale), ByTimeThenId(codeUnit);
    AuditOrderIsStrictTotal(locale);
    AuditOrderIsStrictTotal(codeUnit);
    PagingExactIffKeysAgree(sort, after, key, es, p);
    if StringsAgree(locale, codeUnit, key, es, p) {
      forall x, y | x in es && p(x) && y in es && p(y) ensures AgreeAt(sort, after, key(x), key(y)) {
      }
    }
    if AgreeBetween(sort, after, key, p, es, es) {
      forall x, y | x in es && p(x) && y in es && p(y)
        ensures if key(x).createdAt != key(y).createdAt then AgreeAt(locale, codeUnit, key(x).createdAt, key(y).createdAt)
                else AgreeAt(locale, codeUnit, key(x).eventId, key(y).eventId)
      {
        assert AgreeAt(sort, after, key(x), key(y));
      }
    }
  }

  /** All stores page exactly if and only if the two order all strings alike. */
  lemma AuditPagingExactIffComparisonsAgree(locale: Less<string>, codeUnit: Less<string>)
    requires IsStrictTotal(locale) && IsStrictTotal(codeUnit)
    ensures IsPagingExact(ByTimeThenId(locale), ByTimeThenId(codeUnit)) <==> Agree(locale, codeUnit)
  {
    var sort, after := ByTimeThenId(locale), ByTimeThenId(codeUnit);
    AuditOrderIsStrictTotal(locale);
    AuditOrderIsStrictTotal(codeUnit);
    PagingExactIffOrdersAgree(sort, after);
    if Agree(sort, after) {
      forall a, b ensures AgreeAt(locale, codeUnit, a, b) {
        assert AgreeAt(sort, after, AuditKey("", a), AuditKey("", b));
      }
    }
    if Agree(locale, codeUnit) {
      forall a, b ensures AgreeAt(sort, after, a, b) {
        assert AgreeAt(locale, codeUnit, a.createdAt, b.createdAt) && AgreeAt(locale, codeUnit, a.eventId, b.eventId);
      }
    }
  }

  /** Two events of one time whose ids the comparisons order differently: with pages of one, one of them is never shown. */
  lemma MixedCaseIdsSkip(locale: Less<string>, codeUnit: Less<string>, time: string)
    requires IsStrictTotal(locale) && IsStrictTotal(codeUnit) && locale("a", "B") && codeUnit("B", "a")
    ensures var es := [AuditKey(time, "a"), AuditKey(time, "B")];
            DistinctKeys(Self, es) && !ShowsListing(ByTimeThenId(locale), ByTimeThenId(codeUnit), Self, es, Any, 1)
  {
    var es := [AuditKey(time, "a"), AuditKey(time, "B")];
    var sort, after := ByTimeThenId(locale), ByTimeThenId(codeUnit);
    forall i, j | 0 <= i < j < |es| ensures KeysDiffer(Self, es, i, j) {
    }
    AuditOrderIsStrictTotal(locale);
    AuditOrderIsStrictTotal(codeUnit);
    OneWay(codeUnit, "a", "B");
    assert es[0] in es && es[1] in es && Any(es[0]) && Any(es[1]) && !AgreeAt(sort, after, Self(es[0]), Self(es[1]));
    if ShowsListing(sort, after, Self, es, Any, 1) {
      ShownOneByOneAgrees(sort, after, Self, es, Any);
    }
  }
}
