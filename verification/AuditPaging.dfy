/**
 * Keyset pagination of audit events: filter, drop what the cursor has passed, sort newest first,
 * take one more than the limit, and hand out the key of the last event as the next cursor. The
 * sort and the cursor test use two different comparisons of keys.
 */
module AuditPaging {
  import opened Wrappers
  import opened Sequences

  const DEFAULT_AUDIT_QUERY_LIMIT := 100
  const MAX_AUDIT_QUERY_LIMIT := 500

  type Less<!K> = (K, K) -> bool

  predicate IsTransitiveAt<K>(less: Less<K>, a: K, b: K, c: K) {
    less(a, b) && less(b, c) ==> less(a, c)
  }

  predicate IsTotalAt<K(==)>(less: Less<K>, a: K, b: K) {
    !less(a, a) && (a == b || less(a, b) || less(b, a))
  }

  ghost predicate IsStrictTotal<K(!new)>(less: Less<K>) {
    && (forall a, b, c :: IsTransitiveAt(less, a, b, c))
    && (forall a, b :: IsTotalAt(less, a, b))
  }

  lemma Chain<K(!new)>(less: Less<K>, a: K, b: K, c: K)
    requires IsStrictTotal(less) && less(a, b) && less(b, c)
    ensures less(a, c)
  {
    assert IsTransitiveAt(less, a, b, c);
  }

  lemma OneWay<K(!new)>(less: Less<K>, a: K, b: K)
    requires IsStrictTotal(less)
    ensures a == b ==> !less(a, b)
    ensures a != b ==> less(a, b) == !less(b, a)
  {
    assert IsTotalAt(less, a, b) && IsTransitiveAt(less, a, b, a);
  }

  /** A limit that is not a finite number is None. */
  function NormalizeLimit(limit: Option<real>): (n: nat)
    ensures 1 <= n <= 500
    ensures limit.Some? && 1.0 <= limit.value <= 500.0 ==> n as real <= limit.value < n as real + 1.0
    ensures limit.Some? && limit.value < 1.0 ==> n == 1
    ensures limit.Some? && limit.value > 500.0 ==> n == 500
    ensures limit.None? ==> n == 100
  {
    var value := if limit.Some? then limit.value.Floor else DEFAULT_AUDIT_QUERY_LIMIT;
    var capped := if value < MAX_AUDIT_QUERY_LIMIT then value else MAX_AUDIT_QUERY_LIMIT;
    if capped < 1 then 1 else capped
  }

  datatype Page<E, K> = Page(events: seq<E>, nextCursor: Option<K>)

  function Filter<E>(es: seq<E>, p: E -> bool): seq<E> {
    if es == [] then [] else (if p(es[0]) then [es[0]] else []) + Filter(es[1..], p)
  }

  function Insert<E, K>(less: Less<K>, key: E -> K, e: E, es: seq<E>): seq<E> {
    if es == [] || !less(key(e), key(es[0])) then [e] + es else [es[0]] + Insert(less, key, e, es[1..])
  }

  /** Newest first, stable. */
  function SortDescending<E, K>(less: Less<K>, key: E -> K, es: seq<E>): seq<E> {
    if es == [] then [] else Insert(less, key, es[0], SortDescending(less, key, es[1..]))
  }

  predicate IsAfterCursor<E, K>(less: Less<K>, key: E -> K, e: E, cursor: Option<K>) {
    cursor.None? || less(key(e), cursor.value)
  }

  /** The events that the cursor has not passed yet. */
  function Behind<E, K>(less: Less<K>, key: E -> K, es: seq<E>, cursor: Option<K>): seq<E> {
    if es == [] then []
    else (if IsAfterCursor(less, key, es[0], cursor) then [es[0]] else []) + Behind(less, key, es[1..], cursor)
  }

  function Paginate<E, K>(key: E -> K, ordered: seq<E>, limit: nat): Page<E, K> {
    if |ordered| <= limit then Page(ordered, None)
    else
      var events := ordered[..limit];
      Page(events, if events == [] then None else Some(key(events[|events| - 1])))
  }

  function Take<E>(es: seq<E>, n: nat): seq<E> {
    if |es| <= n then es else es[..n]
  }

  function Query<E, K>(sort: Less<K>, after: Less<K>, key: E -> K, es: seq<E>, p: E -> bool, cursor: Option<K>, limit: nat): Page<E, K> {
    Paginate(key, Take(SortDescending(sort, key, Behind(after, key, Filter(es, p), cursor)), limit + 1), limit)
  }

  // ----- Sorted lists ----------------------------------------------------------------------------

  predicate IsNewer<E, K>(less: Less<K>, key: E -> K, es: seq<E>, i: nat, j: nat)
    requires i < |es| && j < |es|
  {
    less(key(es[j]), key(es[i]))
  }

  ghost predicate IsDescending<E, K>(less: Less<K>, key: E -> K, es: seq<E>) {
    forall i, j :: 0 <= i < j < |es| ==> IsNewer(less, key, es, i, j)
  }

  predicate KeysDiffer<E, K(==)>(key: E -> K, es: seq<E>, i: nat, j: nat)
    requires i < |es| && j < |es|
  {
    key(es[i]) != key(es[j])
  }

  predicate DistinctKeys<E, K(==)>(key: E -> K, es: seq<E>) {
    forall i, j :: 0 <= i < j < |es| ==> KeysDiffer(key, es, i, j)
  }

  lemma DistinctTail<E, K>(key: E -> K, es: seq<E>)
    requires DistinctKeys(key, es) && es != []
    ensures DistinctKeys(key, es[1..]) && forall e :: e in es[1..] ==> key(e) != key(es[0])
  {
    forall i, j | 0 <= i < j < |es[1..]| ensures KeysDiffer(key, es[1..], i, j) {
      assert KeysDiffer(key, es, i + 1, j + 1);
    }
    forall i | 1 <= i < |es| ensures key(es[i]) != key(es[0]) {
      assert KeysDiffer(key, es, 0, i);
    }
  }

  lemma DistinctPrepend<E, K>(key: E -> K, e: E, es: seq<E>)
    requires DistinctKeys(key, es) && forall x :: x in es ==> key(x) != key(e)
    ensures DistinctKeys(key, [e] + es)
  {
    var all := [e] + es;
    forall i, j | 0 <= i < j < |all| ensures KeysDiffer(key, all, i, j) {
      if i > 0 {
        assert KeysDiffer(key, es, i - 1, j - 1);
      }
    }
  }

  lemma {:induction false} FilterIsExact<E(!new)>(es: seq<E>, p: E -> bool)
    ensures forall e :: e in Filter(es, p) <==> e in es && p(e)
  {
    if es != [] {
      FilterIsExact(es[1..], p);
      HeadAndTail(es);
    }
  }

  lemma {:induction false} FilterKeepsDistinct<E(!new), K>(key: E -> K, es: seq<E>, p: E -> bool)
    requires DistinctKeys(key, es)
    ensures DistinctKeys(key, Filter(es, p))
  {
    if es != [] {
      DistinctTail(key, es);
      FilterKeepsDistinct(key, es[1..], p);
      FilterIsExact(es[1..], p);
      if p(es[0]) {
        DistinctPrepend(key, es[0], Filter(es[1..], p));
      } else {
        assert Filter(es, p) == Filter(es[1..], p);
      }
    }
  }

  lemma {:induction false} BehindIsExact<E(!new), K>(less: Less<K>, key: E -> K, es: seq<E>, cursor: Option<K>)
    requires DistinctKeys(key, es)
    ensures DistinctKeys(key, Behind(less, key, es, cursor))
    ensures forall e :: e in Behind(less, key, es, cursor) <==> e in es && IsAfterCursor(less, key, e, cursor)
  {
    if es != [] {
      DistinctTail(key, es);
      BehindIsExact(less, key, es[1..], cursor);
      HeadAndTail(es);
      if IsAfterCursor(less, key, es[0], cursor) {
        DistinctPrepend(key, es[0], Behind(less, key, es[1..], cursor));
      } else {
        assert Behind(less, key, es, cursor) == Behind(less, key, es[1..], cursor);
      }
    }
  }

  lemma PrependNewest<E, K>(less: Less<K>, key: E -> K, e: E, es: seq<E>)
    requires IsDescending(less, key, es) && forall j :: 0 <= j < |es| ==> less(key(es[j]), key(e))
    ensures IsDescending(less, key, [e] + es)
  {
    var all := [e] + es;
    forall i, j | 0 <= i < j < |all| ensures IsNewer(less, key, all, i, j) {
      if i > 0 {
        assert IsNewer(less, key, es, i - 1, j - 1);
      }
    }
  }

  lemma DescendingTail<E(!new), K(!new)>(less: Less<K>, key: E -> K, a: seq<E>)
    requires IsStrictTotal(less) && IsDescending(less, key, a) && a != []
    ensures IsDescending(less, key, a[1..]) && forall x :: x in a[1..] <==> x in a && x != a[0]
  {
    HeadAndTail(a);
    SuffixIsDescending(less, key, a, 1);
    forall j | 1 <= j < |a| ensures a[j] != a[0] {
      assert IsNewer(less, key, a, 0, j);
      OneWay(less, key(a[j]), key(a[0]));
    }
  }

  lemma SuffixIsDescending<E, K>(less: Less<K>, key: E -> K, list: seq<E>, n: nat)
    requires n <= |list| && IsDescending(less, key, list)
    ensures IsDescending(less, key, list[n..])
  {
    forall i, j | 0 <= i < j < |list[n..]| ensures IsNewer(less, key, list[n..], i, j) {
      assert IsNewer(less, key, list, n + i, n + j);
    }
  }

  lemma IndexOf<E>(list: seq<E>, e: E) returns (i: nat)
    requires e in list
    ensures i < |list| && list[i] == e
  {
    i :| 0 <= i < |list| && list[i] == e;
  }

  lemma {:induction false} InsertIsExact<E(!new), K(!new)>(less: Less<K>, key: E -> K, e: E, es: seq<E>)
    requires IsStrictTotal(less) && IsDescending(less, key, es) && forall i :: 0 <= i < |es| ==> key(es[i]) != key(e)
    ensures IsDescending(less, key, Insert(less, key, e, es))
    ensures forall x :: x in Insert(less, key, e, es) <==> x == e || x in es
    ensures |Insert(less, key, e, es)| == |es| + 1
  {
    if es == [] {
    } else if less(key(e), key(es[0])) {
      DescendingTail(less, key, es);
      InsertIsExact(less, key, e, es[1..]);
      var rest := Insert(less, key, e, es[1..]);
      forall j | 0 <= j < |rest| ensures less(key(rest[j]), key(es[0])) {
        assert rest[j] in rest;
        if rest[j] != e {
          var i := IndexOf(es[1..], rest[j]);
          assert IsNewer(less, key, es, 0, i + 1);
        }
      }
      PrependNewest(less, key, es[0], rest);
      HeadAndTail(es);
    } else {
      OneWay(less, key(e), key(es[0]));
      forall j | 0 <= j < |es| ensures less(key(es[j]), key(e)) {
        if j > 0 {
          assert IsNewer(less, key, es, 0, j);
          Chain(less, key(es[j]), key(es[0]), key(e));
        }
      }
      PrependNewest(less, key, e, es);
    }
  }

  /** The sorted list holds the same events, strictly descending. */
  lemma {:induction false} SortIsExact<E(!new), K(!new)>(less: Less<K>, key: E -> K, es: seq<E>)
    requires IsStrictTotal(less) && DistinctKeys(key, es)
    ensures IsDescending(less, key, SortDescending(less, key, es))
    ensures forall x :: x in SortDescending(less, key, es) <==> x in es
    ensures |SortDescending(less, key, es)| == |es|
  {
    if es != [] {
      DistinctTail(key, es);
      SortIsExact(less, key, es[1..]);
      var rest := SortDescending(less, key, es[1..]);
      forall i | 0 <= i < |rest| ensures key(rest[i]) != key(es[0]) {
        assert rest[i] in es[1..];
      }
      InsertIsExact(less, key, es[0], rest);
      HeadAndTail(es);
    }
  }

  lemma HeadIsNewest<E, K(!new)>(less: Less<K>, key: E -> K, a: seq<E>, i: nat)
    requires IsDescending(less, key, a) && i < |a|
    ensures a[i] == a[0] || less(key(a[i]), key(a[0]))
  {
    assert i > 0 ==> IsNewer(less, key, a, 0, i);
  }

  lemma DescendingHead<E(!new), K(!new)>(less: Less<K>, key: E -> K, a: seq<E>, b: seq<E>)
    requires IsStrictTotal(less) && IsDescending(less, key, a) && IsDescending(less, key, b)
    requires a != [] && b != [] && a[0] in b && b[0] in a
    ensures a[0] == b[0]
  {
    var i :| 0 <= i < |b| && b[i] == a[0];
    var j :| 0 <= j < |a| && a[j] == b[0];
    HeadIsNewest(less, key, b, i);
    HeadIsNewest(less, key, a, j);
    OneWay(less, key(a[0]), key(b[0]));
  }

  /** A strictly descending list is determined by its elements. */
  lemma {:induction false} DescendingIsUnique<E(!new), K(!new)>(less: Less<K>, key: E -> K, a: seq<E>, b: seq<E>)
    requires IsStrictTotal(less) && IsDescending(less, key, a) && IsDescending(less, key, b)
    requires forall x :: x in a <==> x in b
    ensures a == b
  {
    assert a != [] ==> a[0] in a;
    assert b != [] ==> b[0] in b;
    if a != [] {
      DescendingHead(less, key, a, b);
      DescendingTail(less, key, a);
      DescendingTail(less, key, b);
      DescendingIsUnique(less, key, a[1..], b[1..]);
      HeadAndTail(a);
      HeadAndTail(b);
    }
  }

  // ----- One page --------------------------------------------------------------------------------

  /** The whole list a client wants to see. */
  function Listing<E, K>(sort: Less<K>, key: E -> K, es: seq<E>, p: E -> bool): seq<E> {
    SortDescending(sort, key, Filter(es, p))
  }

  function CursorAt<E, K>(key: E -> K, list: seq<E>, n: nat): Option<K>
    requires n <= |list|
  {
    if n == 0 then None else Some(key(list[n - 1]))
  }

  ghost predicate IsRestOrGone<E, K>(less: Less<K>, key: E -> K, es: seq<E>, p: E -> bool, list: seq<E>, n: nat, e: E)
    requires n <= |list|
  {
    e in list[n..] <==> e in es && p(e) && IsAfterCursor(less, key, e, CursorAt(key, list, n))
  }

  /** What a store still has behind the cursor is exactly the rest of the list. */
  ghost predicate HasRest<E(!new), K>(less: Less<K>, key: E -> K, es: seq<E>, p: E -> bool, list: seq<E>, n: nat)
    requires n <= |list|
  {
    forall e :: IsRestOrGone(less, key, es, p, list, n, e)
  }

  /** The sorted remainder behind the cursor is the rest of the list. */
  lemma RemainderIsRest<E(!new), K(!new)>(less: Less<K>, key: E -> K, es: seq<E>, p: E -> bool, list: seq<E>, n: nat)
    requires IsStrictTotal(less) && DistinctKeys(key, es) && n <= |list| && IsDescending(less, key, list)
    requires HasRest(less, key, es, p, list, n)
    ensures SortDescending(less, key, Behind(less, key, Filter(es, p), CursorAt(key, list, n))) == list[n..]
  {
    var matching, cursor := Filter(es, p), CursorAt(key, list, n);
    var behind := Behind(less, key, matching, cursor);
    FilterKeepsDistinct(key, es, p);
    FilterIsExact(es, p);
    BehindIsExact(less, key, matching, cursor);
    SortIsExact(less, key, behind);
    SuffixIsDescending(less, key, list, n);
    forall e ensures e in list[n..] <==> e in behind {
      assert IsRestOrGone(less, key, es, p, list, n, e);
    }
    DescendingIsUnique(less, key, SortDescending(less, key, behind), list[n..]);
  }

  function Min(a: nat, b: nat): nat {
    if a < b then a else b
  }

  /** The page shows the list from `n` on, and has a cursor exactly when something is left. */
  ghost predicate ShowsSlice<E, K>(key: E -> K, page: Page<E, K>, list: seq<E>, n: nat, limit: nat)
    requires n <= |list|
  {
    var end := Min(n + limit, |list|);
    page.events == list[n..end] && page.nextCursor == if end < |list| then CursorAt(key, list, end) else None
  }

  lemma PaginateRest<E, K>(key: E -> K, list: seq<E>, n: nat, limit: nat)
    requires n <= |list| && limit > 0
    ensures ShowsSlice(key, Paginate(key, Take(list[n..], limit + 1), limit), list, n, limit)
  {
    var rest := list[n..];
    if |rest| > limit {
      assert Take(rest, limit + 1)[..limit] == list[n..n + limit];
    } else {
      assert rest == list[n..|list|];
    }
  }

  // ----- Two comparisons -------------------------------------------------------------------------

  predicate AgreeAt<K>(sort: Less<K>, after: Less<K>, a: K, b: K) {
    sort(a, b) <==> after(a, b)
  }

  /** The two comparisons agree on which matching events the cursor has passed. */
  ghost predicate AgreeAtCursor<E(!new), K>(sort: Less<K>, after: Less<K>, key: E -> K, es: seq<E>, p: E -> bool, cursor: Option<K>) {
    forall e :: e in es && p(e) ==> IsAfterCursor(sort, key, e, cursor) == IsAfterCursor(after, key, e, cursor)
  }

  /** The two comparisons agree on the keys of the matching events of two stores. */
  ghost predicate AgreeBetween<E(!new), K>(sort: Less<K>, after: Less<K>, key: E -> K, p: E -> bool, es: seq<E>, fs: seq<E>) {
    forall x, y :: x in es && p(x) && y in fs && p(y) ==> AgreeAt(sort, after, key(x), key(y))
  }

  ghost predicate IsListed<E(!new)>(list: seq<E>, es: seq<E>, p: E -> bool) {
    forall e :: e in list ==> e in es && p(e)
  }

  lemma CursorAgrees<E(!new), K>(sort: Less<K>, after: Less<K>, key: E -> K, es: seq<E>, p: E -> bool, fs: seq<E>, list: seq<E>, n: nat)
    requires AgreeBetween(sort, after, key, p, es, fs) && IsListed(list, fs, p) && n <= |list|
    ensures AgreeAtCursor(sort, after, key, es, p, CursorAt(key, list, n))
  {
    if n > 0 {
      assert list[n - 1] in list;
      forall e | e in es && p(e) ensures AgreeAt(sort, after, key(e), key(list[n - 1])) {
      }
    }
  }

  lemma {:induction false} BehindAgrees<E(!new), K>(sort: Less<K>, after: Less<K>, key: E -> K, es: seq<E>, cursor: Option<K>)
    requires forall e :: e in es ==> IsAfterCursor(sort, key, e, cursor) == IsAfterCursor(after, key, e, cursor)
    ensures Behind(after, key, es, cursor) == Behind(sort, key, es, cursor)
  {
    if es != [] {
      HeadAndTail(es);
      BehindAgrees(sort, after, key, es[1..], cursor);
    }
  }

  lemma QueryAgrees<E(!new), K>(sort: Less<K>, after: Less<K>, key: E -> K, es: seq<E>, p: E -> bool, cursor: Option<K>, limit: nat)
    requires AgreeAtCursor(sort, after, key, es, p, cursor)
    ensures Query(sort, after, key, es, p, cursor, limit) == Query(sort, sort, key, es, p, cursor, limit)
  {
    FilterIsExact(es, p);
    BehindAgrees(sort, after, key, Filter(es, p), cursor);
  }

  /** One page is the next slice of the list, when the comparisons agree at its cursor. */
  lemma PageIsSlice<E(!new), K(!new)>(sort: Less<K>, after: Less<K>, key: E -> K, es: seq<E>, p: E -> bool, list: seq<E>, n: nat, limit: nat)
    requires IsStrictTotal(sort) && DistinctKeys(key, es) && n <= |list| && IsDescending(sort, key, list) && limit > 0
    requires HasRest(sort, key, es, p, list, n) && AgreeAtCursor(sort, after, key, es, p, CursorAt(key, list, n))
    ensures ShowsSlice(key, Query(sort, after, key, es, p, CursorAt(key, list, n), limit), list, n, limit)
  {
    QueryAgrees(sort, after, key, es, p, CursorAt(key, list, n), limit);
    RemainderIsRest(sort, key, es, p, list, n);
    PaginateRest(key, list, n, limit);
  }

  lemma ListingHasRest<E(!new), K(!new)>(less: Less<K>, key: E -> K, es: seq<E>, p: E -> bool)
    requires IsStrictTotal(less) && DistinctKeys(key, es)
    ensures var list := Listing(less, key, es, p);
            IsDescending(less, key, list) && HasRest(less, key, es, p, list, 0) && IsListed(list, es, p)
  {
    var list := Listing(less, key, es, p);
    FilterIsExact(es, p);
    FilterKeepsDistinct(key, es, p);
    SortIsExact(less, key, Filter(es, p));
    assert list[0..] == list;
    forall e ensures IsRestOrGone(less, key, es, p, list, 0, e) {
    }
  }

  lemma OlderIsLater<E, K(!new)>(less: Less<K>, key: E -> K, list: seq<E>, i: nat, j: nat)
    requires IsStrictTotal(less) && IsDescending(less, key, list) && i < |list| && j < |list|
    requires less(key(list[i]), key(list[j]))
    ensures i > j
  {
    assert i < j ==> IsNewer(less, key, list, i, j);
    OneWay(less, key(list[i]), key(list[j]));
  }

  /** Behind a later position of the list lies exactly what is older than the event before it. */
  lemma RestIsOlder<E(!new), K(!new)>(less: Less<K>, key: E -> K, list: seq<E>, n: nat, m: nat, e: E)
    requires IsStrictTotal(less) && IsDescending(less, key, list) && n < m <= |list|
    ensures e in list[m..] <==> e in list[n..] && less(key(e), key(list[m - 1]))
  {
    if e in list[m..] {
      var i := IndexOf(list[m..], e);
      assert list[n..][m - n + i] == e && list[m + i] == e;
      assert IsNewer(less, key, list, m - 1, m + i);
    }
    if e in list[n..] && less(key(e), key(list[m - 1])) {
      var i := IndexOf(list[n..], e);
      assert list[n + i] == e;
      OlderIsLater(less, key, list, n + i, m - 1);
      assert list[m..][n + i - m] == e;
    }
  }

  /** Between two pages the store may change in any way except for matching events that are still to come. */
  ghost predicate ChangesOnlyNewer<E(!new), K>(less: Less<K>, key: E -> K, p: E -> bool, es: seq<E>, es': seq<E>, cursor: Option<K>) {
    forall e :: p(e) && IsAfterCursor(less, key, e, cursor) ==> (e in es) == (e in es')
  }

  lemma ChangesAgree<E(!new), K>(sort: Less<K>, after: Less<K>, key: E -> K, p: E -> bool, es: seq<E>, es': seq<E>, cursor: Option<K>)
    requires AgreeAtCursor(sort, after, key, es, p, cursor) && AgreeAtCursor(sort, after, key, es', p, cursor)
    requires ChangesOnlyNewer(after, key, p, es, es', cursor)
    ensures ChangesOnlyNewer(sort, key, p, es, es', cursor)
  {
  }

  lemma RestMovesOn<E(!new), K(!new)>(less: Less<K>, key: E -> K, es: seq<E>, es': seq<E>, p: E -> bool, list: seq<E>, n: nat, m: nat)
    requires IsStrictTotal(less) && IsDescending(less, key, list) && n < m <= |list|
    requires HasRest(less, key, es, p, list, n) && ChangesOnlyNewer(less, key, p, es, es', CursorAt(key, list, m))
    ensures HasRest(less, key, es', p, list, m)
  {
    forall e ensures IsRestOrGone(less, key, es', p, list, m, e) {
      assert IsRestOrGone(less, key, es, p, list, n, e);
      RestIsOlder(less, key, list, n, m, e);
      if n > 0 && less(key(e), key(list[m - 1])) {
        assert IsNewer(less, key, list, n - 1, m - 1);
        Chain(less, key(e), key(list[m - 1]), key(list[n - 1]));
      }
    }
  }

  // ----- Following the cursor --------------------------------------------------------------------

  /** Pages read one after the other, page `i` from `stores[i]` with the cursor of the page before. */
  ghost predicate IsFollowing<E(!new), K>(sort: Less<K>, after: Less<K>, key: E -> K, stores: seq<seq<E>>, p: E -> bool, limit: nat, pages: seq<Page<E, K>>) {
    && |pages| == |stores| > 0
    && DistinctKeys(key, stores[0])
    && pages[0] == Query(sort, after, key, stores[0], p, None, limit)
    && (forall i :: 0 < i < |pages| ==> FollowsOn(sort, after, key, stores, p, limit, pages, i))
  }

  ghost predicate FollowsOn<E(!new), K>(sort: Less<K>, after: Less<K>, key: E -> K, stores: seq<seq<E>>, p: E -> bool, limit: nat, pages: seq<Page<E, K>>, i: nat)
    requires 0 < i < |pages| == |stores|
  {
    && pages[i - 1].nextCursor.Some?
    && DistinctKeys(key, stores[i])
    && ChangesOnlyNewer(after, key, p, stores[i - 1], stores[i], pages[i - 1].nextCursor)
    && pages[i] == Query(sort, after, key, stores[i], p, pages[i - 1].nextCursor, limit)
  }

  /** The page is the slice of the list that starts at `n`, and the store still has the rest. */
  ghost predicate IsSlice<E(!new), K>(less: Less<K>, key: E -> K, es: seq<E>, p: E -> bool, limit: nat, page: Page<E, K>, list: seq<E>, n: nat) {
    n <= |list| && HasRest(less, key, es, p, list, n) && ShowsSlice(key, page, list, n, limit)
  }

  lemma CursorMeansMore<E, K>(key: E -> K, page: Page<E, K>, list: seq<E>, n: nat, limit: nat)
    requires n <= |list| && ShowsSlice(key, page, list, n, limit) && page.nextCursor.Some?
    ensures n + limit < |list| && page.nextCursor == CursorAt(key, list, n + limit)
  {
  }

  lemma SliceAfter<E(!new), K(!new)>(sort: Less<K>, after: Less<K>, key: E -> K, es: seq<E>, es': seq<E>, p: E -> bool, limit: nat, list: seq<E>, n: nat)
    requires IsStrictTotal(sort) && limit > 0 && IsDescending(sort, key, list) && DistinctKeys(key, es')
    requires n + limit < |list| && HasRest(sort, key, es, p, list, n) && ChangesOnlyNewer(after, key, p, es, es', CursorAt(key, list, n + limit))
    requires AgreeAtCursor(sort, after, key, es, p, CursorAt(key, list, n + limit))
    requires AgreeAtCursor(sort, after, key, es', p, CursorAt(key, list, n + limit))
    ensures IsSlice(sort, key, es', p, limit, Query(sort, after, key, es', p, CursorAt(key, list, n + limit), limit), list, n + limit)
  {
    ChangesAgree(sort, after, key, p, es, es', CursorAt(key, list, n + limit));
    RestMovesOn(sort, key, es, es', p, list, n, n + limit);
    PageIsSlice(sort, after, key, es', p, list, n + limit, limit);
  }

  lemma NextSlice<E(!new), K(!new)>(sort: Less<K>, after: Less<K>, key: E -> K, stores: seq<seq<E>>, p: E -> bool, limit: nat, pages: seq<Page<E, K>>, list: seq<E>, n: nat, i: nat)
    requires IsStrictTotal(sort) && limit > 0 && IsDescending(sort, key, list)
    requires 0 < i < |pages| == |stores| && FollowsOn(sort, after, key, stores, p, limit, pages, i) && IsListed(list, stores[0], p)
    requires AgreeBetween(sort, after, key, p, stores[i - 1], stores[0]) && AgreeBetween(sort, after, key, p, stores[i], stores[0])
    requires IsSlice(sort, key, stores[i - 1], p, limit, pages[i - 1], list, n)
    ensures IsSlice(sort, key, stores[i], p, limit, pages[i], list, n + limit)
  {
    CursorMeansMore(key, pages[i - 1], list, n, limit);
    CursorAgrees(sort, after, key, stores[i - 1], p, stores[0], list, n + limit);
    CursorAgrees(sort, after, key, stores[i], p, stores[0], list, n + limit);
    SliceAfter(sort, after, key, stores[i - 1], stores[i], p, limit, list, n);
  }

  /** Where page `i` starts in the list: after `i` full pages. */
  function PageStart(i: nat, limit: nat): nat {
    if i == 0 then 0 else PageStart(i - 1, limit) + limit
  }

  lemma FirstSlice<E(!new), K(!new)>(sort: Less<K>, after: Less<K>, key: E -> K, es: seq<E>, p: E -> bool, limit: nat)
    requires IsStrictTotal(sort) && limit > 0 && DistinctKeys(key, es)
    ensures var list := Listing(sort, key, es, p);
            IsSlice(sort, key, es, p, limit, Query(sort, after, key, es, p, None, limit), list, 0)
  {
    ListingHasRest(sort, key, es, p);
    PageIsSlice(sort, after, key, es, p, Listing(sort, key, es, p), 0, limit);
  }

  /**
   * Paging equals the list, when the two comparisons agree on the keys that the stores and the
   * first store have: page `i` is slice `i` of the list that matched when the first page was read,
   * and there is a next cursor exactly when the list goes on, whatever else comes and goes between
   * the pages. So nothing is skipped, nothing repeated, and following the cursor ends.
   */
  lemma PagesAreSlices<E(!new), K(!new)>(sort: Less<K>, after: Less<K>, key: E -> K, stores: seq<seq<E>>, p: E -> bool, limit: nat, pages: seq<Page<E, K>>, i: nat)
    requires IsStrictTotal(sort) && limit > 0 && i < |pages| && IsFollowing(sort, after, key, stores, p, limit, pages)
    requires forall j :: 0 <= j < |stores| ==> AgreeBetween(sort, after, key, p, stores[j], stores[0])
    ensures IsSlice(sort, key, stores[i], p, limit, pages[i], Listing(sort, key, stores[0], p), PageStart(i, limit))
  {
    FirstSlice(sort, after, key, stores[0], p, limit);
    ListingHasRest(sort, key, stores[0], p);
    PagesContinue(sort, after, key, stores, p, limit, pages, Listing(sort, key, stores[0], p), i);
  }

  lemma {:induction false} PagesContinue<E(!new), K(!new)>(sort: Less<K>, after: Less<K>, key: E -> K, stores: seq<seq<E>>, p: E -> bool, limit: nat, pages: seq<Page<E, K>>, list: seq<E>, i: nat)
    requires IsStrictTotal(sort) && limit > 0 && i < |pages| == |stores| && IsDescending(sort, key, list) && IsListed(list, stores[0], p)
    requires forall j :: 0 < j < |pages| ==> FollowsOn(sort, after, key, stores, p, limit, pages, j)
    requires forall j :: 0 <= j < |stores| ==> AgreeBetween(sort, after, key, p, stores[j], stores[0])
    requires IsSlice(sort, key, stores[0], p, limit, pages[0], list, 0)
    ensures IsSlice(sort, key, stores[i], p, limit, pages[i], list, PageStart(i, limit))
  {
    if i > 0 {
      PagesContinue(sort, after, key, stores, p, limit, pages, list, i - 1);
      NextSlice(sort, after, key, stores, p, limit, pages, list, PageStart(i - 1, limit), i);
    }
  }

  // ----- All pages of one store ------------------------------------------------------------------

  function Pager<E, K>(sort: Less<K>, after: Less<K>, key: E -> K, es: seq<E>, p: E -> bool, limit: nat): Option<K> -> Page<E, K> {
    cursor => Query(sort, after, key, es, p, cursor, limit)
  }

  /** All events that at most `count` pages show. */
  function Follow<E, K>(pager: Option<K> -> Page<E, K>, cursor: Option<K>, count: nat): seq<E>
    decreases count
  {
    if count == 0 then []
    else
      var page := pager(cursor);
      page.events + if page.nextCursor.None? then [] else Follow(pager, page.nextCursor, count - 1)
  }

  lemma SliceJoin<E>(list: seq<E>, n: nat, m: nat)
    requires n <= m <= |list|
    ensures list[n..m] + list[m..] == list[n..]
  {
  }

  ghost predicate ShowsSlices<E, K>(pager: Option<K> -> Page<E, K>, key: E -> K, list: seq<E>, limit: nat) {
    forall n: nat :: n <= |list| ==> ShowsSliceAt(pager, key, list, limit, n)
  }

  ghost predicate ShowsSliceAt<E, K>(pager: Option<K> -> Page<E, K>, key: E -> K, list: seq<E>, limit: nat, n: nat)
    requires n <= |list|
  {
    ShowsSlice(key, pager(CursorAt(key, list, n)), list, n, limit)
  }

  lemma {:induction false} FollowIsRest<E, K>(pager: Option<K> -> Page<E, K>, key: E -> K, list: seq<E>, n: nat, limit: nat, count: nat)
    requires limit > 0 && ShowsSlices(pager, key, list, limit) && n <= |list| && count > 0 && count >= |list| - n
    ensures Follow(pager, CursorAt(key, list, n), count) == list[n..]
    decreases |list| - n
  {
    assert ShowsSliceAt(pager, key, list, limit, n);
    SliceJoin(list, n, Min(n + limit, |list|));
    if n + limit < |list| {
      FollowIsRest(pager, key, list, n + limit, limit, count - 1);
    }
  }

  lemma PagerShowsSlices<E(!new), K(!new)>(sort: Less<K>, after: Less<K>, key: E -> K, es: seq<E>, p: E -> bool, limit: nat)
    requires IsStrictTotal(sort) && DistinctKeys(key, es) && limit > 0 && AgreeBetween(sort, after, key, p, es, es)
    ensures ShowsSlices(Pager(sort, after, key, es, p, limit), key, Listing(sort, key, es, p), limit)
  {
    var list, pager := Listing(sort, key, es, p), Pager(sort, after, key, es, p, limit);
    ListingHasRest(sort, key, es, p);
    forall n: nat | n <= |list| ensures ShowsSliceAt(pager, key, list, limit, n) {
      if n > 0 {
        RestMovesOn(sort, key, es, es, p, list, 0, n);
      }
      CursorAgrees(sort, after, key, es, p, es, list, n);
      PageIsSlice(sort, after, key, es, p, list, n, limit);
    }
  }

  /** When the comparisons agree on the keys of the matching events, following the cursor shows their sorted list. */
  lemma FollowingShowsListing<E(!new), K(!new)>(sort: Less<K>, after: Less<K>, key: E -> K, es: seq<E>, p: E -> bool, limit: nat, count: nat)
    requires IsStrictTotal(sort) && DistinctKeys(key, es) && limit > 0 && count > |Listing(sort, key, es, p)|
    requires AgreeBetween(sort, after, key, p, es, es)
    ensures Follow(Pager(sort, after, key, es, p, limit), None, count) == Listing(sort, key, es, p)
  {
    var list := Listing(sort, key, es, p);
    PagerShowsSlices(sort, after, key, es, p, limit);
    FollowIsRest(Pager(sort, after, key, es, p, limit), key, list, 0, limit, count);
    assert list[0..] == list;
  }
}
