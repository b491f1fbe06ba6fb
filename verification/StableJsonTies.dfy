/** Which single values have one canonical text: exactly those without compare-equal keys at any depth. */
module StableJsonTies {
  import opened Sequences
  import opened Json
  import opened StableJson

  // ----- The sort is stable ----------------------------------------------------------------------

  ghost predicate Precedes(es: seq<Entry>, x: Entry, y: Entry) {
    exists p, q :: 0 <= p < q < |es| && es[p] == x && es[q] == y
  }

  lemma PrecedesInLonger(e: Entry, es: seq<Entry>, x: Entry, y: Entry)
    requires Precedes(es, x, y) || (e == x && y in es)
    ensures Precedes([e] + es, x, y)
  {
    var all := [e] + es;
    if e == x && y in es {
      var q :| 0 <= q < |es| && es[q] == y;
      assert all[0] == x && all[q + 1] == y;
    } else {
      var p, q :| 0 <= p < q < |es| && es[p] == x && es[q] == y;
      assert all[p + 1] == x && all[q + 1] == y;
    }
  }

  lemma PrecedesInTail(es: seq<Entry>, x: Entry, y: Entry)
    requires es != [] && Precedes(es, x, y)
    ensures Precedes(es[1..], x, y) || (es[0] == x && y in es[1..])
  {
    var p, q :| 0 <= p < q < |es| && es[p] == x && es[q] == y;
    assert es[1..][q - 1] == y;
    if p > 0 {
      assert es[1..][p - 1] == x;
    }
  }

  lemma {:induction false} InsertGoesBefore(le: Comparison, e: Entry, es: seq<Entry>, y: Entry)
    requires y in es && le(e.key, y.key)
    ensures Precedes(Insert(le, e, es), e, y)
  {
    if le(e.key, es[0].key) {
      PrecedesInLonger(e, es, e, y);
    } else {
      HeadAndTail(es);
      InsertGoesBefore(le, e, es[1..], y);
      PrecedesInLonger(es[0], Insert(le, e, es[1..]), e, y);
    }
  }

  lemma {:induction false} InsertKeepsOrder(le: Comparison, e: Entry, es: seq<Entry>, x: Entry, y: Entry)
    requires Precedes(es, x, y)
    ensures Precedes(Insert(le, e, es), x, y)
  {
    if le(e.key, es[0].key) {
      PrecedesInLonger(e, es, x, y);
    } else {
      PrecedesInTail(es, x, y);
      if Precedes(es[1..], x, y) {
        InsertKeepsOrder(le, e, es[1..], x, y);
      }
      InsertMembers(le, e, es[1..], y);
      PrecedesInLonger(es[0], Insert(le, e, es[1..]), x, y);
    }
  }

  /** Entries whose keys compare equal stay in the order in which they were set. */
  lemma {:induction false} SortIsStable(le: Comparison, es: seq<Entry>, i: nat, j: nat)
    requires i < j < |es| && le(es[i].key, es[j].key)
    ensures Precedes(Sort(le, es), es[i], es[j])
  {
    var rest := es[1..];
    assert rest[j - 1] == es[j];
    if i == 0 {
      SortMembers(le, rest, es[j]);
      InsertGoesBefore(le, es[0], Sort(le, rest), es[j]);
    } else {
      assert rest[i - 1] == es[i];
      SortIsStable(le, rest, i - 1, j - 1);
      InsertKeepsOrder(le, es[0], Sort(le, rest), es[i], es[j]);
    }
  }

  // ----- A tie has a twin ------------------------------------------------------------------------

  /** The same value that prints differently. */
  ghost predicate IsTwin(le: Comparison, a: Json, b: Json) {
    WellFormed(b) && MeaningOf(b) == MeaningOf(a) && Canon(le, b) != Canon(le, a)
  }

  lemma HasKeyAt(es: seq<Entry>, i: nat)
    requires i < |es|
    ensures HasKey(es, es[i].key)
  {
  }

  lemma SwapKeepsFields(es: seq<Entry>, i: nat, j: nat, fs: seq<Entry>)
    requires WellFormed(Obj(es)) && i < j < |es| && fs == es[i := es[j]][j := es[i]]
    ensures WellFormed(Obj(fs)) && MeaningOf(Obj(fs)) == MeaningOf(Obj(es))
  {
    assert forall k :: 0 <= k < |es| ==> fs[k] == (if k == i then es[j] else if k == j then es[i] else es[k]);
    assert forall k :: 0 <= k < |es| ==> es[k] == (if k == i then fs[j] else if k == j then fs[i] else fs[k]);
    forall k ensures HasKey(es, k) <==> HasKey(fs, k) {
      if HasKey(es, k) {
        var p :| 0 <= p < |es| && es[p].key == k;
        HasKeyAt(fs, if p == i then j else if p == j then i else p);
      }
      if HasKey(fs, k) {
        var p :| 0 <= p < |fs| && fs[p].key == k;
        HasKeyAt(es, if p == i then j else if p == j then i else p);
      }
    }
    SameFields(es, fs);
  }

  /** Two sorted texts cannot have the same two distinct keys in both orders. */
  lemma OppositeOrdersDiffer(cs: seq<Entry>, p: nat, q: nat, p': nat, q': nat)
    requires DistinctKeys(cs) && p < q < |cs| && p' < q' < |cs|
    ensures !(cs[p].key == cs[q'].key && cs[q].key == cs[p'].key)
  {
  }

  lemma CanonKeysInOrder(le: Comparison, es: seq<Entry>, i: nat, j: nat) returns (p: nat, q: nat)
    requires DistinctKeys(es) && i < j < |es| && le(es[i].key, es[j].key)
    ensures Canon(le, Obj(es)).Obj? && p < q < |Canon(le, Obj(es)).entries| && DistinctKeys(Canon(le, Obj(es)).entries)
    ensures Canon(le, Obj(es)).entries[p].key == es[i].key && Canon(le, Obj(es)).entries[q].key == es[j].key
  {
    var sorted := CanonObject(le, es);
    SortIsStable(le, es, i, j);
    p, q :| 0 <= p < q < |sorted| && sorted[p] == es[i] && sorted[q] == es[j];
  }

  lemma SwappedIsTwin(le: Comparison, es: seq<Entry>, i: nat, j: nat)
    requires WellFormed(Obj(es)) && i < j < |es| && IsTie(le, es[i].key, es[j].key)
    ensures IsTwin(le, Obj(es), Obj(es[i := es[j]][j := es[i]]))
  {
    var fs := es[i := es[j]][j := es[i]];
    SwapKeepsFields(es, i, j, fs);
    var p, q := CanonKeysInOrder(le, es, i, j);
    var p', q' := CanonKeysInOrder(le, fs, i, j);
    if Canon(le, Obj(fs)) == Canon(le, Obj(es)) {
      OppositeOrdersDiffer(Canon(le, Obj(es)).entries, p, q, p', q');
    }
  }

  lemma ReplaceKeepsFields(es: seq<Entry>, k: nat, v: Json, fs: seq<Entry>)
    requires WellFormed(Obj(es)) && k < |es| && WellFormed(v) && MeaningOf(v) == MeaningOf(es[k].value)
    requires fs == es[k := Entry(es[k].key, v)]
    ensures WellFormed(Obj(fs)) && MeaningOf(Obj(fs)) == MeaningOf(Obj(es))
  {
    assert forall i :: 0 <= i < |es| ==> fs[i].key == es[i].key;
    forall x ensures HasKey(es, x) <==> HasKey(fs, x) {
      if HasKey(es, x) {
        var p :| 0 <= p < |es| && es[p].key == x;
        HasKeyAt(fs, p);
      }
      if HasKey(fs, x) {
        var p :| 0 <= p < |fs| && fs[p].key == x;
        HasKeyAt(es, p);
      }
    }
    SameFields(es, fs);
  }

  lemma CanonHasEntry(le: Comparison, es: seq<Entry>, k: nat) returns (p: nat)
    requires DistinctKeys(es) && k < |es|
    ensures Canon(le, Obj(es)).Obj? && p < |Canon(le, Obj(es)).entries| && DistinctKeys(Canon(le, Obj(es)).entries)
    ensures Canon(le, Obj(es)).entries[p] == Entry(es[k].key, Canon(le, es[k].value))
  {
    var sorted := CanonObject(le, es);
    assert es[k] in sorted;
    p :| 0 <= p < |sorted| && sorted[p] == es[k];
  }

  lemma ReplacedIsTwin(le: Comparison, es: seq<Entry>, k: nat, v: Json)
    requires WellFormed(Obj(es)) && k < |es| && IsTwin(le, es[k].value, v)
    ensures IsTwin(le, Obj(es), Obj(es[k := Entry(es[k].key, v)]))
  {
    var fs := es[k := Entry(es[k].key, v)];
    ReplaceKeepsFields(es, k, v, fs);
    var p := CanonHasEntry(le, es, k);
    var q := CanonHasEntry(le, fs, k);
    if Canon(le, Obj(fs)) == Canon(le, Obj(es)) {
      OneEntryPerKey(Canon(le, Obj(es)).entries, p, q);
    }
  }

  lemma OneEntryPerKey(cs: seq<Entry>, p: nat, q: nat)
    requires DistinctKeys(cs) && p < |cs| && q < |cs| && cs[p].key == cs[q].key
    ensures cs[p] == cs[q]
  {
  }

  lemma ReplacedItemIsTwin(le: Comparison, items: seq<Json>, k: nat, v: Json)
    requires WellFormed(Arr(items)) && k < |items| && IsTwin(le, items[k], v)
    ensures IsTwin(le, Arr(items), Arr(items[k := v]))
  {
    var others := items[k := v];
    ItemsMeaningShape(items);
    ItemsMeaningShape(others);
    assert ItemsMeaning(others) == ItemsMeaning(items);
    CanonItemsShape(le, items);
    CanonItemsShape(le, others);
    assert Canon(le, Arr(items)) == Arr(CanonItems(le, items)) && Canon(le, Arr(others)) == Arr(CanonItems(le, others));
    assert CanonItems(le, items)[k] != CanonItems(le, others)[k];
  }

  /** A value with a tie anywhere inside has a twin. */
  lemma {:induction false} TieHasTwin(le: Comparison, a: Json) returns (b: Json)
    requires WellFormed(a) && !TieFree(le, a)
    ensures IsTwin(le, a, b)
    decreases a
  {
    match a
    case Arr(items) =>
      var k :| 0 <= k < |items| && !TieFree(le, items[k]);
      var v := TieHasTwin(le, items[k]);
      ReplacedItemIsTwin(le, items, k, v);
      b := Arr(items[k := v]);
    case Obj(es) =>
      if i, j :| 0 <= i < j < |es| && IsTie(le, es[i].key, es[j].key) {
        SwappedIsTwin(le, es, i, j);
        b := Obj(es[i := es[j]][j := es[i]]);
      } else {
        assert forall i, j :: 0 <= i < |es| && 0 <= j < |es| && IsTie(le, es[i].key, es[j].key) ==> i != j && IsTie(le, es[j].key, es[i].key);
        var k :| 0 <= k < |es| && !TieFree(le, es[k].value);
        var v := TieHasTwin(le, es[k].value);
        ReplacedIsTwin(le, es, k, v);
        b := Obj(es[k := Entry(es[k].key, v)]);
      }
  }

  /** The text of this value is shared by every value equal to it. */
  ghost predicate HasOneText(le: Comparison, a: Json) {
    forall b :: WellFormed(b) && MeaningOf(b) == MeaningOf(a) ==> StableJson.StableJson(le, b) == StableJson.StableJson(le, a)
  }

  /** A value has one text, whatever the order of its keys, exactly when it is free of ties. */
  lemma OneTextIffTieFree(le: Comparison, a: Json)
    requires IsTotalPreorder(le) && WellFormed(a)
    ensures HasOneText(le, a) <==> TieFree(le, a)
  {
    if TieFree(le, a) {
      forall b | WellFormed(b) && MeaningOf(b) == MeaningOf(a) ensures StableJson.StableJson(le, b) == StableJson.StableJson(le, a) {
        StableJsonIsCanonical(le, a, b);
      }
    } else {
      var b := TieHasTwin(le, a);
      StablePrintsCanon(le, a);
      StablePrintsCanon(le, b);
      CanonKeepsMeaning(le, a);
      CanonKeepsMeaning(le, b);
      if StableJson.StableJson(le, b) == StableJson.StableJson(le, a) {
        PrintIsInjective(Canon(le, b), Canon(le, a));
      }
    }
  }
}
