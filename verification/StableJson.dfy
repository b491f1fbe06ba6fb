/**
 * The canonical printer used to compare command payloads: entries of an object are sorted by key
 * (a stable sort with the comparison `le`) before they are printed, at every depth.
 */
module StableJson {
  import opened Sequences
  import opened Json

  type Comparison = (string, string) -> bool

  ghost predicate IsTotalPreorder(le: Comparison) {
    && (forall a, b :: le(a, b) || le(b, a))
    && (forall a, b, c :: le(a, b) && le(b, c) ==> le(a, c))
  }

  ghost predicate IsAntisymmetric(le: Comparison) {
    forall a, b :: le(a, b) && le(b, a) ==> a == b
  }

  // ----- The printer ---------------------------------------------------------------------------

  function Insert(le: Comparison, e: Entry, es: seq<Entry>): seq<Entry> {
    if es == [] then [e]
    else if le(e.key, es[0].key) then [e] + es
    else [es[0]] + Insert(le, e, es[1..])
  }

  /** Stable: an entry stays before later entries with an equal key. */
  function Sort(le: Comparison, es: seq<Entry>): seq<Entry> {
    if es == [] then [] else Insert(le, es[0], Sort(le, es[1..]))
  }

  ghost function Size(v: Json): nat {
    match v
    case Arr(items) => 1 + ItemsSize(items)
    case Obj(entries) => 1 + EntriesSize(entries)
    case _ => 0
  }

  ghost function ItemsSize(items: seq<Json>): nat {
    if items == [] then 0 else 1 + Size(items[0]) + ItemsSize(items[1..])
  }

  ghost function EntriesSize(es: seq<Entry>): nat {
    if es == [] then 0 else 1 + Size(es[0].value) + EntriesSize(es[1..])
  }

  lemma {:induction false} ItemIsSmaller(items: seq<Json>, i: nat)
    requires i < |items|
    ensures Size(items[i]) < ItemsSize(items)
  {
    if i > 0 {
      ItemIsSmaller(items[1..], i - 1);
    }
  }

  lemma {:induction false} EntryIsSmaller(es: seq<Entry>, i: nat)
    requires i < |es|
    ensures Size(es[i].value) < EntriesSize(es)
  {
    if i > 0 {
      EntryIsSmaller(es[1..], i - 1);
    }
  }

  lemma {:induction false} InsertMembers(le: Comparison, e: Entry, es: seq<Entry>, x: Entry)
    ensures |Insert(le, e, es)| == |es| + 1
    ensures x in Insert(le, e, es) <==> x == e || x in es
  {
    if es != [] && !le(e.key, es[0].key) {
      InsertMembers(le, e, es[1..], x);
      HeadAndTail(es);
    }
  }

  lemma {:induction false} SortMembers(le: Comparison, es: seq<Entry>, x: Entry)
    ensures |Sort(le, es)| == |es|
    ensures x in Sort(le, es) <==> x in es
  {
    if es != [] {
      SortMembers(le, es[1..], x);
      InsertMembers(le, es[0], Sort(le, es[1..]), x);
      HeadAndTail(es);
    }
  }

  /** Every value of the sorted entries is smaller than the object. */
  lemma SortedValuesAreSmaller(le: Comparison, es: seq<Entry>)
    ensures forall i :: 0 <= i < |Sort(le, es)| ==> Size(Sort(le, es)[i].value) < EntriesSize(es)
  {
    forall i | 0 <= i < |Sort(le, es)| ensures Size(Sort(le, es)[i].value) < EntriesSize(es) {
      var x := Sort(le, es)[i];
      SortMembers(le, es, x);
      var j :| 0 <= j < |es| && es[j] == x;
      EntryIsSmaller(es, j);
    }
  }

  function StableJson(le: Comparison, v: Json): string
    decreases Size(v), 1, 0
  {
    match v
    case Arr(items) =>
      "[" + (if items == [] then "" else
               ItemIsSmaller(items, 0);
               StableJson(le, items[0]) + MoreStableItems(le, items[1..])) + "]"
    case Obj(entries) =>
      SortedValuesAreSmaller(le, entries);
      var sorted := Sort(le, entries);
      "{" + (if sorted == [] then "" else
               Quote(sorted[0].key) + ":" + StableJson(le, sorted[0].value)
               + MoreStableEntries(le, sorted[1..], EntriesSize(entries))) + "}"
    case _ => Print(v)
  }

  function MoreStableItems(le: Comparison, items: seq<Json>): string
    decreases ItemsSize(items), 0, 0
  {
    if items == [] then ""
    else
      ItemIsSmaller(items, 0);
      "," + StableJson(le, items[0]) + MoreStableItems(le, items[1..])
  }

  function MoreStableEntries(le: Comparison, es: seq<Entry>, ghost bound: nat): string
    requires forall i :: 0 <= i < |es| ==> Size(es[i].value) < bound
    decreases bound, 0, |es|
  {
    if es == [] then ""
    else "," + Quote(es[0].key) + ":" + StableJson(le, es[0].value) + MoreStableEntries(le, es[1..], bound)
  }

  // ----- The sorted value behind it --------------------------------------------------------------

  ghost function Canon(le: Comparison, v: Json): Json
    decreases Size(v), 1, 0
  {
    match v
    case Arr(items) => Arr(CanonItems(le, items))
    case Obj(entries) =>
      SortedValuesAreSmaller(le, entries);
      Obj(CanonEntries(le, Sort(le, entries), EntriesSize(entries)))
    case _ => v
  }

  ghost function CanonItems(le: Comparison, items: seq<Json>): seq<Json>
    decreases ItemsSize(items), 0, 0
  {
    if items == [] then []
    else
      ItemIsSmaller(items, 0);
      [Canon(le, items[0])] + CanonItems(le, items[1..])
  }

  ghost function CanonEntries(le: Comparison, es: seq<Entry>, bound: nat): seq<Entry>
    requires forall i :: 0 <= i < |es| ==> Size(es[i].value) < bound
    decreases bound, 0, |es|
  {
    if es == [] then []
    else [Entry(es[0].key, Canon(le, es[0].value))] + CanonEntries(le, es[1..], bound)
  }

  /** The printer prints the value with all its objects sorted. */
  lemma {:induction false} StablePrintsCanon(le: Comparison, v: Json)
    ensures StableJson(le, v) == Print(Canon(le, v))
    decreases Size(v), 1, 0
  {
    match v
    case Arr(items) =>
      if items != [] {
        ItemIsSmaller(items, 0);
        StablePrintsCanon(le, items[0]);
        MoreItemsPrintCanon(le, items[1..]);
        assert CanonItems(le, items)[1..] == CanonItems(le, items[1..]);
      }
    case Obj(entries) =>
      SortedValuesAreSmaller(le, entries);
      var sorted, bound := Sort(le, entries), EntriesSize(entries);
      if sorted != [] {
        StablePrintsCanon(le, sorted[0].value);
        MoreEntriesPrintCanon(le, sorted[1..], bound);
        assert CanonEntries(le, sorted, bound)[1..] == CanonEntries(le, sorted[1..], bound);
      }
    case _ =>
  }

  lemma {:induction false} MoreItemsPrintCanon(le: Comparison, items: seq<Json>)
    ensures MoreStableItems(le, items) == PrintMoreItems(CanonItems(le, items))
    decreases ItemsSize(items), 0, 0
  {
    if items != [] {
      ItemIsSmaller(items, 0);
      StablePrintsCanon(le, items[0]);
      MoreItemsPrintCanon(le, items[1..]);
      assert CanonItems(le, items)[1..] == CanonItems(le, items[1..]);
    }
  }

  lemma {:induction false} MoreEntriesPrintCanon(le: Comparison, es: seq<Entry>, bound: nat)
    requires forall i :: 0 <= i < |es| ==> Size(es[i].value) < bound
    ensures MoreStableEntries(le, es, bound) == PrintMoreEntries(CanonEntries(le, es, bound))
    decreases bound, 0, |es|
  {
    if es != [] {
      StablePrintsCanon(le, es[0].value);
      MoreEntriesPrintCanon(le, es[1..], bound);
      assert CanonEntries(le, es, bound)[1..] == CanonEntries(le, es[1..], bound);
    }
  }

  // ----- Sorting keeps the meaning ---------------------------------------------------------------

  /** The fields of an object without repeated keys are exactly its entries. */
  lemma {:induction false} EntriesMeaningIsExact(es: seq<Entry>)
    requires DistinctKeys(es)
    ensures forall k :: k in EntriesMeaning(es) <==> HasKey(es, k)
    ensures forall i :: 0 <= i < |es| ==> es[i].key in EntriesMeaning(es) && EntriesMeaning(es)[es[i].key] == MeaningOf(es[i].value)
  {
    if es != [] {
      var rest := es[1..];
      assert forall i :: 0 <= i < |rest| ==> rest[i] == es[i + 1];
      EntriesMeaningIsExact(rest);
      forall k ensures k in EntriesMeaning(es) <==> HasKey(es, k) {
        HasKeyStep(es, k);
      }
      forall i | 0 <= i < |es|
        ensures es[i].key in EntriesMeaning(es) && EntriesMeaning(es)[es[i].key] == MeaningOf(es[i].value)
      {
        if i > 0 {
          assert rest[i - 1] == es[i];
        }
      }
    }
  }

  lemma HasKeyStep(es: seq<Entry>, k: string)
    requires es != []
    ensures HasKey(es, k) <==> es[0].key == k || HasKey(es[1..], k)
  {
    if i :| 0 <= i < |es| && es[i].key == k {
      assert i > 0 ==> es[1..][i - 1].key == k;
    }
    if i :| 0 <= i < |es[1..]| && es[1..][i].key == k {
      assert es[i + 1].key == k;
    }
  }

  /** Same keys, and per key the same meaning: the same fields. */
  lemma SameFields(es: seq<Entry>, fs: seq<Entry>)
    requires DistinctKeys(es) && DistinctKeys(fs)
    requires forall k :: HasKey(es, k) <==> HasKey(fs, k)
    requires forall i, j :: 0 <= i < |es| && 0 <= j < |fs| && es[i].key == fs[j].key ==> MeaningOf(es[i].value) == MeaningOf(fs[j].value)
    ensures EntriesMeaning(es) == EntriesMeaning(fs)
  {
    EntriesMeaningIsExact(es);
    EntriesMeaningIsExact(fs);
    forall k | k in EntriesMeaning(es) ensures EntriesMeaning(es)[k] == EntriesMeaning(fs)[k] {
      var i :| 0 <= i < |es| && es[i].key == k;
      var j :| 0 <= j < |fs| && fs[j].key == k;
    }
  }

  lemma {:induction false} InsertKeepsDistinct(le: Comparison, e: Entry, es: seq<Entry>)
    requires DistinctKeys(es) && !HasKey(es, e.key)
    ensures DistinctKeys(Insert(le, e, es))
  {
    if es != [] && !le(e.key, es[0].key) {
      var rest := es[1..];
      assert forall i :: 0 <= i < |rest| ==> rest[i] == es[i + 1];
      HasKeyStep(es, e.key);
      InsertKeepsDistinct(le, e, rest);
      var longer := Insert(le, e, rest);
      forall i | 0 <= i < |longer| ensures longer[i].key != es[0].key {
        InsertMembers(le, e, rest, longer[i]);
      }
    }
  }

  lemma {:induction false} SortKeepsDistinct(le: Comparison, es: seq<Entry>)
    requires DistinctKeys(es)
    ensures DistinctKeys(Sort(le, es))
  {
    if es != [] {
      SortKeepsDistinct(le, es[1..]);
      var sorted := Sort(le, es[1..]);
      forall i | 0 <= i < |sorted| ensures sorted[i].key != es[0].key {
        SortMembers(le, es[1..], sorted[i]);
      }
      InsertKeepsDistinct(le, es[0], sorted);
    }
  }

  lemma {:induction false} CanonEntriesShape(le: Comparison, es: seq<Entry>, bound: nat)
    requires forall i :: 0 <= i < |es| ==> Size(es[i].value) < bound
    ensures |CanonEntries(le, es, bound)| == |es|
    ensures forall i :: 0 <= i < |es| ==> CanonEntries(le, es, bound)[i] == Entry(es[i].key, Canon(le, es[i].value))
  {
    if es != [] {
      CanonEntriesShape(le, es[1..], bound);
    }
  }

  lemma {:induction false} CanonItemsShape(le: Comparison, items: seq<Json>)
    ensures |CanonItems(le, items)| == |items|
    ensures forall i :: 0 <= i < |items| ==> CanonItems(le, items)[i] == Canon(le, items[i])
  {
    if items != [] {
      CanonItemsShape(le, items[1..]);
    }
  }

  lemma {:induction false} ItemsMeaningShape(items: seq<Json>)
    ensures |ItemsMeaning(items)| == |items|
    ensures forall i :: 0 <= i < |items| ==> ItemsMeaning(items)[i] == MeaningOf(items[i])
  {
    if items != [] {
      ItemsMeaningShape(items[1..]);
    }
  }

  /** The entries of the sorted object: same keys, sorted values underneath. */
  lemma CanonObject(le: Comparison, es: seq<Entry>) returns (sorted: seq<Entry>)
    requires DistinctKeys(es)
    ensures sorted == Sort(le, es) && DistinctKeys(sorted) && |sorted| == |es|
    ensures forall x :: x in sorted <==> x in es
    ensures Canon(le, Obj(es)).Obj? && |Canon(le, Obj(es)).entries| == |sorted|
    ensures forall i :: 0 <= i < |sorted| ==> Canon(le, Obj(es)).entries[i] == Entry(sorted[i].key, Canon(le, sorted[i].value))
  {
    sorted := Sort(le, es);
    SortKeepsDistinct(le, es);
    forall x ensures x in sorted <==> x in es {
      SortMembers(le, es, x);
    }
    SortMembers(le, es, Entry("", Null));
    SortedValuesAreSmaller(le, es);
    CanonEntriesShape(le, sorted, EntriesSize(es));
  }

  lemma {:induction false} CanonKeepsMeaning(le: Comparison, v: Json)
    requires WellFormed(v)
    ensures WellFormed(Canon(le, v)) && MeaningOf(Canon(le, v)) == MeaningOf(v)
    decreases Size(v)
  {
    match v
    case Arr(items) =>
      CanonItemsShape(le, items);
      forall i | 0 <= i < |items|
        ensures WellFormed(CanonItems(le, items)[i]) && MeaningOf(CanonItems(le, items)[i]) == MeaningOf(items[i])
      {
        ItemIsSmaller(items, i);
        CanonKeepsMeaning(le, items[i]);
      }
      ItemsMeaningShape(items);
      ItemsMeaningShape(CanonItems(le, items));
      assert ItemsMeaning(CanonItems(le, items)) == ItemsMeaning(items);
    case Obj(es) =>
      CanonKeepsObjectMeaning(le, es);
    case _ =>
  }

  lemma {:induction false} CanonKeepsObjectMeaning(le: Comparison, es: seq<Entry>)
    requires WellFormed(Obj(es))
    ensures WellFormed(Canon(le, Obj(es))) && MeaningOf(Canon(le, Obj(es))) == MeaningOf(Obj(es))
    decreases Size(Obj(es)), 0
  {
    var sorted := CanonObject(le, es);
    var cs := Canon(le, Obj(es)).entries;
    forall i | 0 <= i < |cs|
      ensures WellFormed(cs[i].value) && MeaningOf(cs[i].value) == MeaningOf(sorted[i].value) && cs[i].key == sorted[i].key
    {
      assert sorted[i] in es;
      var j :| 0 <= j < |es| && es[j] == sorted[i];
      EntryIsSmaller(es, j);
      CanonKeepsMeaning(le, sorted[i].value);
    }
    forall k ensures HasKey(cs, k) <==> HasKey(es, k) {
      SameKeysAsSorted(es, sorted, cs, k);
    }
    forall i, j | 0 <= i < |cs| && 0 <= j < |es| && cs[i].key == es[j].key ensures MeaningOf(cs[i].value) == MeaningOf(es[j].value) {
      assert sorted[i] in es;
    }
    SameFields(cs, es);
  }

  lemma SameKeysAsSorted(es: seq<Entry>, sorted: seq<Entry>, cs: seq<Entry>, k: string)
    requires |cs| == |sorted| && (forall i :: 0 <= i < |cs| ==> cs[i].key == sorted[i].key)
    requires forall x :: x in sorted <==> x in es
    ensures HasKey(cs, k) <==> HasKey(es, k)
  {
    if i :| 0 <= i < |cs| && cs[i].key == k {
      assert sorted[i] in es;
    }
    if j :| 0 <= j < |es| && es[j].key == k {
      assert es[j] in sorted;
      var i :| 0 <= i < |sorted| && sorted[i] == es[j];
      assert cs[i].key == k;
    }
  }

  // ----- Equal meaning gives one sorted value ------------------------------------------------------

  predicate IsTie(le: Comparison, a: string, b: string) {
    a != b && le(a, b) && le(b, a)
  }

  /** No object inside the value has two different keys that compare equal. */
  ghost predicate TieFree(le: Comparison, v: Json) {
    match v
    case Arr(items) => forall i :: 0 <= i < |items| ==> TieFree(le, items[i])
    case Obj(es) =>
      && (forall i, j :: 0 <= i < |es| && 0 <= j < |es| ==> !IsTie(le, es[i].key, es[j].key))
      && (forall i :: 0 <= i < |es| ==> TieFree(le, es[i].value))
    case _ => true
  }

  ghost predicate IsSorted(le: Comparison, es: seq<Entry>) {
    forall i, j :: 0 <= i < j < |es| ==> le(es[i].key, es[j].key)
  }

  lemma {:induction false} InsertSorts(le: Comparison, e: Entry, es: seq<Entry>)
    requires IsTotalPreorder(le) && IsSorted(le, es)
    ensures IsSorted(le, Insert(le, e, es))
  {
    if es != [] && !le(e.key, es[0].key) {
      var rest := es[1..];
      assert forall i :: 0 <= i < |rest| ==> rest[i] == es[i + 1];
      InsertSorts(le, e, rest);
      var longer := Insert(le, e, rest);
      forall i | 0 <= i < |longer| ensures le(es[0].key, longer[i].key) {
        InsertMembers(le, e, rest, longer[i]);
        if longer[i] in rest {
          var j :| 0 <= j < |rest| && rest[j] == longer[i];
          assert es[j + 1] == longer[i];
        }
      }
    }
  }

  lemma {:induction false} SortSorts(le: Comparison, es: seq<Entry>)
    requires IsTotalPreorder(le)
    ensures IsSorted(le, Sort(le, es))
  {
    if es != [] {
      SortSorts(le, es[1..]);
      InsertSorts(le, es[0], Sort(le, es[1..]));
    }
  }

  /** Sorted lists without ties and with the same keys list them in the same order. */
  lemma {:induction false} SortedKeysAgree(le: Comparison, es: seq<Entry>, fs: seq<Entry>)
    requires IsSorted(le, es) && IsSorted(le, fs) && DistinctKeys(es) && DistinctKeys(fs)
    requires forall i, j :: 0 <= i < |es| && 0 <= j < |es| ==> !IsTie(le, es[i].key, es[j].key)
    requires forall k :: HasKey(es, k) <==> HasKey(fs, k)
    ensures |es| == |fs| && forall i :: 0 <= i < |es| ==> es[i].key == fs[i].key
  {
    if es == [] || fs == [] {
      assert es != [] ==> HasKey(es, es[0].key);
      assert fs != [] ==> HasKey(fs, fs[0].key);
    } else {
      SortedHeadsAgree(le, es, fs);
      var es', fs' := es[1..], fs[1..];
      assert forall i :: 0 <= i < |es'| ==> es'[i] == es[i + 1];
      assert forall i :: 0 <= i < |fs'| ==> fs'[i] == fs[i + 1];
      forall k ensures HasKey(es', k) <==> HasKey(fs', k) {
        HasKeyStep(es, k);
        HasKeyStep(fs, k);
        assert !HasKey(es', es[0].key) && !HasKey(fs', fs[0].key);
      }
      SortedKeysAgree(le, es', fs');
    }
  }

  lemma SortedHeadsAgree(le: Comparison, es: seq<Entry>, fs: seq<Entry>)
    requires es != [] && fs != [] && IsSorted(le, es) && IsSorted(le, fs)
    requires forall i, j :: 0 <= i < |es| && 0 <= j < |es| ==> !IsTie(le, es[i].key, es[j].key)
    requires forall k :: HasKey(es, k) <==> HasKey(fs, k)
    ensures es[0].key == fs[0].key
  {
    assert HasKey(fs, fs[0].key) && HasKey(es, es[0].key);
    var i :| 0 <= i < |es| && es[i].key == fs[0].key;
    var j :| 0 <= j < |fs| && fs[j].key == es[0].key;
    assert i > 0 ==> le(es[0].key, es[i].key);
    assert j > 0 ==> le(fs[0].key, fs[j].key);
    assert !IsTie(le, es[0].key, es[i].key);
  }

  lemma {:induction false} SameMeaningSameCanon(le: Comparison, a: Json, b: Json)
    requires IsTotalPreorder(le) && WellFormed(a) && WellFormed(b) && TieFree(le, a)
    requires MeaningOf(a) == MeaningOf(b)
    ensures Canon(le, a) == Canon(le, b)
    decreases Size(a), 1
  {
    match a
    case Arr(xs) =>
      var ys := b.items;
      ItemsMeaningShape(xs);
      ItemsMeaningShape(ys);
      CanonItemsShape(le, xs);
      CanonItemsShape(le, ys);
      forall i | 0 <= i < |xs| ensures CanonItems(le, xs)[i] == CanonItems(le, ys)[i] {
        ItemIsSmaller(xs, i);
        assert ItemsMeaning(xs)[i] == ItemsMeaning(ys)[i];
        SameMeaningSameCanon(le, xs[i], ys[i]);
      }
      assert CanonItems(le, xs) == CanonItems(le, ys);
    case Obj(es) =>
      SameMeaningSameCanonObject(le, es, b.entries);
    case _ =>
  }

  lemma {:induction false} SameMeaningSameCanonObject(le: Comparison, es: seq<Entry>, fs: seq<Entry>)
    requires IsTotalPreorder(le) && WellFormed(Obj(es)) && WellFormed(Obj(fs)) && TieFree(le, Obj(es))
    requires EntriesMeaning(es) == EntriesMeaning(fs)
    ensures Canon(le, Obj(es)) == Canon(le, Obj(fs))
    decreases Size(Obj(es)), 0
  {
    var ss := CanonObject(le, es);
    var ts := CanonObject(le, fs);
    SortSorts(le, es);
    SortSorts(le, fs);
    SortedFieldsAgree(le, es, fs, ss, ts);
    var cs, ds := Canon(le, Obj(es)).entries, Canon(le, Obj(fs)).entries;
    forall i | 0 <= i < |ss| ensures cs[i] == ds[i] {
      assert ss[i] in es && ts[i] in fs;
      var p :| 0 <= p < |es| && es[p] == ss[i];
      var q :| 0 <= q < |fs| && fs[q] == ts[i];
      EntryIsSmaller(es, p);
      SameMeaningSameCanon(le, ss[i].value, ts[i].value);
    }
    assert cs == ds;
  }

  lemma SortedFieldsAgree(le: Comparison, es: seq<Entry>, fs: seq<Entry>, ss: seq<Entry>, ts: seq<Entry>)
    requires DistinctKeys(es) && DistinctKeys(fs) && DistinctKeys(ss) && DistinctKeys(ts)
    requires (forall x :: x in ss <==> x in es) && (forall x :: x in ts <==> x in fs)
    requires IsSorted(le, ss) && IsSorted(le, ts)
    requires forall i, j :: 0 <= i < |es| && 0 <= j < |es| ==> !IsTie(le, es[i].key, es[j].key)
    requires EntriesMeaning(es) == EntriesMeaning(fs)
    ensures |ss| == |ts|
    ensures forall i :: 0 <= i < |ss| ==> ss[i].key == ts[i].key && MeaningOf(ss[i].value) == MeaningOf(ts[i].value)
  {
    EntriesMeaningIsExact(es);
    EntriesMeaningIsExact(fs);
    forall k ensures HasKey(ss, k) <==> HasKey(ts, k) {
      SameKeysAsSorted(es, ss, ss, k);
      SameKeysAsSorted(fs, ts, ts, k);
    }
    forall i, j | 0 <= i < |ss| && 0 <= j < |ss| ensures !IsTie(le, ss[i].key, ss[j].key) {
      assert ss[i] in es && ss[j] in es;
    }
    SortedKeysAgree(le, ss, ts);
    forall i | 0 <= i < |ss| ensures MeaningOf(ss[i].value) == MeaningOf(ts[i].value) {
      assert ss[i] in es && ts[i] in fs;
    }
  }

  // ----- Main results --------------------------------------------------------------------------

  /** Equal texts always mean equal values, whatever the comparison. */
  lemma StableTextDeterminesMeaning(le: Comparison, a: Json, b: Json)
    requires WellFormed(a) && WellFormed(b) && StableJson(le, a) == StableJson(le, b)
    ensures MeaningOf(a) == MeaningOf(b)
  {
    StablePrintsCanon(le, a);
    StablePrintsCanon(le, b);
    CanonKeepsMeaning(le, a);
    CanonKeepsMeaning(le, b);
    PrintIsInjective(Canon(le, a), Canon(le, b));
  }

  /** Without ties, two texts are equal exactly when the values are equal up to key order. */
  lemma StableJsonIsCanonical(le: Comparison, a: Json, b: Json)
    requires IsTotalPreorder(le) && WellFormed(a) && WellFormed(b) && TieFree(le, a)
    ensures StableJson(le, a) == StableJson(le, b) <==> MeaningOf(a) == MeaningOf(b)
  {
    if StableJson(le, a) == StableJson(le, b) {
      StableTextDeterminesMeaning(le, a, b);
    }
    if MeaningOf(a) == MeaningOf(b) {
      SameMeaningSameCanon(le, a, b);
      StablePrintsCanon(le, a);
      StablePrintsCanon(le, b);
    }
  }

  /** Equal values get equal texts, for all values. */
  ghost predicate IsCanonical(le: Comparison) {
    forall a, b :: WellFormed(a) && WellFormed(b) && MeaningOf(a) == MeaningOf(b) ==> StableJson(le, a) == StableJson(le, b)
  }

  lemma {:induction false} AntisymmetryFreesOfTies(le: Comparison, v: Json)
    requires IsAntisymmetric(le)
    ensures TieFree(le, v)
  {
    match v
    case Arr(items) =>
      forall i | 0 <= i < |items| ensures TieFree(le, items[i]) { AntisymmetryFreesOfTies(le, items[i]); }
    case Obj(es) =>
      forall i | 0 <= i < |es| ensures TieFree(le, es[i].value) { AntisymmetryFreesOfTies(le, es[i].value); }
    case _ =>
  }

  /** A tie shows: the two orders of its keys mean the same and print differently. */
  lemma TieBreaksCanonicity(le: Comparison, k: string, l: string)
    requires IsTotalPreorder(le) && IsTie(le, k, l)
    ensures var a, b := Obj([Entry(k, Null), Entry(l, Null)]), Obj([Entry(l, Null), Entry(k, Null)]);
            WellFormed(a) && WellFormed(b) && MeaningOf(a) == MeaningOf(b) && StableJson(le, a) != StableJson(le, b)
  {
    var es, fs := [Entry(k, Null), Entry(l, Null)], [Entry(l, Null), Entry(k, Null)];
    TiedPairStays(le, k, l);
    TiedPairStays(le, l, k);
    var ss := CanonObject(le, es);
    var ts := CanonObject(le, fs);
    StablePrintsCanon(le, Obj(es));
    StablePrintsCanon(le, Obj(fs));
    CanonKeepsMeaning(le, Obj(es));
    CanonKeepsMeaning(le, Obj(fs));
    assert Canon(le, Obj(es)).entries[0].key == k && Canon(le, Obj(fs)).entries[0].key == l;
    if StableJson(le, Obj(es)) == StableJson(le, Obj(fs)) {
      PrintIsInjective(Canon(le, Obj(es)), Canon(le, Obj(fs)));
    }
    SwappedPairMeansSame(k, l);
  }

  lemma SwappedPairMeansSame(k: string, l: string)
    requires k != l
    ensures EntriesMeaning([Entry(k, Null), Entry(l, Null)]) == EntriesMeaning([Entry(l, Null), Entry(k, Null)])
  {
    var es, fs := [Entry(k, Null), Entry(l, Null)], [Entry(l, Null), Entry(k, Null)];
    forall x ensures HasKey(es, x) <==> HasKey(fs, x) {
      assert es[0] == fs[1] && es[1] == fs[0];
    }
    SameFields(es, fs);
  }

  lemma TiedPairStays(le: Comparison, k: string, l: string)
    requires IsTie(le, k, l)
    ensures Sort(le, [Entry(k, Null), Entry(l, Null)]) == [Entry(k, Null), Entry(l, Null)]
  {
    var es := [Entry(k, Null), Entry(l, Null)];
    assert es[1..] == [Entry(l, Null)] && es[1..][1..] == [];
    assert Sort(le, es[1..]) == [Entry(l, Null)];
  }

  /** The printer is canonical on all values exactly when different keys never compare equal. */
  lemma CanonicalIffNoTies(le: Comparison)
    requires IsTotalPreorder(le)
    ensures IsCanonical(le) <==> IsAntisymmetric(le)
  {
    if IsAntisymmetric(le) {
      forall a, b | WellFormed(a) && WellFormed(b) && MeaningOf(a) == MeaningOf(b)
        ensures StableJson(le, a) == StableJson(le, b)
      {
        AntisymmetryFreesOfTies(le, a);
        StableJsonIsCanonical(le, a, b);
      }
    }
    if IsCanonical(le) {
      forall k, l | le(k, l) && le(l, k) ensures k == l {
        if k != l {
          TieBreaksCanonicity(le, k, l);
        }
      }
    }
  }
}
