/**
 * Layering of the sankey chart: rows are aggregated into links, links give a graph, and a queue
 * of nodes without unprocessed incoming links assigns every node its column.
 */
module SankeyLayering {
  import opened Wrappers
  import opened Graphs
  import opened Sequences

  const MAX_SANKEY_NODES := 1000

  /** A chart row after label trimming and number parsing; `None` is a value that did not parse. */
  datatype Row = Row(source: string, target: string, value: Option<real>)

  datatype Link<+N> = Link(source: N, target: N, value: real)

  datatype Layering =
    | Columns(columns: map<string, nat>)
    | NoLinks
    | TooManyNodes(count: nat)
    | Cyclic

  // ----- Aggregation of rows into links -------------------------------------------------------

  predicate Accepted(row: Row) {
    row.source != "" && row.target != "" && row.value.Some? && row.value.value > 0.0
  }

  function LinkKey(source: string, target: string): string {
    source + "\0" + target
  }

  /** Sum of the values of the accepted rows that share a key. */
  function KeySum(rows: seq<Row>, key: string): real {
    if rows == [] then 0.0
    else
      var row := rows[|rows| - 1];
      KeySum(rows[..|rows| - 1], key) +
      if Accepted(row) && LinkKey(row.source, row.target) == key then row.value.value else 0.0
  }

  ghost predicate HasRow(rows: seq<Row>, source: string, target: string) {
    exists i :: 0 <= i < |rows| && Accepted(rows[i]) && rows[i].source == source && rows[i].target == target
  }

  /** The links aggregate the rows: one link per key, carrying a row's labels and the key's sum. */
  ghost predicate Aggregates(rows: seq<Row>, links: seq<Link<string>>) {
    && (forall i, j :: 0 <= i < j < |links| ==>
          LinkKey(links[i].source, links[i].target) != LinkKey(links[j].source, links[j].target))
    && (forall i :: 0 <= i < |links| ==> HasRow(rows, links[i].source, links[i].target))
    && (forall i :: 0 <= i < |links| ==> links[i].value == KeySum(rows, LinkKey(links[i].source, links[i].target)))
    && (forall i :: 0 <= i < |rows| && Accepted(rows[i]) ==> HasKey(links, LinkKey(rows[i].source, rows[i].target)))
  }

  ghost predicate HasKey(links: seq<Link<string>>, key: string) {
    exists i :: 0 <= i < |links| && LinkKey(links[i].source, links[i].target) == key
  }

  method FindKey(links: seq<Link<string>>, key: string) returns (found: Option<nat>)
    ensures found.Some? ==> found.value < |links| && LinkKey(links[found.value].source, links[found.value].target) == key
    ensures found.None? ==> !HasKey(links, key)
  {
    for i := 0 to |links|
      invariant forall j :: 0 <= j < i ==> LinkKey(links[j].source, links[j].target) != key
    {
      if LinkKey(links[i].source, links[i].target) == key {
        return Some(i);
      }
    }
    return None;
  }

  method AggregateLinks(rows: seq<Row>) returns (links: seq<Link<string>>)
    ensures Aggregates(rows, links)
  {
    links := [];
    for i := 0 to |rows|
      invariant Aggregates(rows[..i], links)
    {
      var row := rows[i];
      ghost var before := links;
      assert rows[..i + 1][..i] == rows[..i];
      if Accepted(row) {
        var key := LinkKey(row.source, row.target);
        var found := FindKey(links, key);
        if found.Some? {
          links := links[found.value := links[found.value].(value := links[found.value].value + row.value.value)];
        } else {
          KeySumOfAbsentKey(rows[..i], links, key);
          links := links + [Link(row.source, row.target, row.value.value)];
        }
      }
      AggregateStep(rows[..i], row, before, links);
      assert rows[..i + 1] == rows[..i] + [row];
    }
    assert rows[..|rows|] == rows;
  }

  lemma {:induction false} KeySumOfAbsentKey(rows: seq<Row>, links: seq<Link<string>>, key: string)
    requires forall i :: 0 <= i < |rows| && Accepted(rows[i]) ==> HasKey(links, LinkKey(rows[i].source, rows[i].target))
    requires !HasKey(links, key)
    ensures KeySum(rows, key) == 0.0
  {
    if rows != [] {
      KeySumOfAbsentKey(rows[..|rows| - 1], links, key);
    }
  }

  /** `after` is what the loop body makes of `before` for one more row. */
  ghost predicate IsAggregateStep(rows: seq<Row>, row: Row, before: seq<Link<string>>, after: seq<Link<string>>) {
    var key := LinkKey(row.source, row.target);
    if !Accepted(row) then after == before
    else if HasKey(before, key) then
      exists k :: 0 <= k < |before| && LinkKey(before[k].source, before[k].target) == key
                  && after == before[k := before[k].(value := before[k].value + row.value.value)]
    else
      KeySum(rows, key) == 0.0 && after == before + [Link(row.source, row.target, row.value.value)]
  }

  lemma AggregateStep(rows: seq<Row>, row: Row, before: seq<Link<string>>, after: seq<Link<string>>)
    requires Aggregates(rows, before)
    requires IsAggregateStep(rows, row, before, after)
    ensures Aggregates(rows + [row], after)
  {
    var rows' := rows + [row];
    assert rows'[..|rows|] == rows;
    forall i | 0 <= i < |after| ensures HasRow(rows', after[i].source, after[i].target) {
      if i < |before| {
        assert HasRow(rows, before[i].source, before[i].target);
        RowsOnlyGrow(rows, row, before[i].source, before[i].target);
      } else {
        assert rows'[|rows|] == row;
      }
    }
    SumsStep(rows, row, before, after);
    forall i | 0 <= i < |rows'| && Accepted(rows'[i])
      ensures HasKey(after, LinkKey(rows'[i].source, rows'[i].target))
    {
      var key := LinkKey(rows'[i].source, rows'[i].target);
      assert i < |rows| ==> rows'[i] == rows[i];
      if HasKey(before, key) {
        KeysOnlyGrow(rows, row, before, after, key);
      } else {
        assert after[|before|] == Link(row.source, row.target, row.value.value);
      }
    }
  }

  lemma SumsStep(rows: seq<Row>, row: Row, before: seq<Link<string>>, after: seq<Link<string>>)
    requires Aggregates(rows, before)
    requires IsAggregateStep(rows, row, before, after)
    ensures forall i :: 0 <= i < |after| ==> after[i].value == KeySum(rows + [row], LinkKey(after[i].source, after[i].target))
    ensures forall i, j :: 0 <= i < j < |after| ==>
              LinkKey(after[i].source, after[i].target) != LinkKey(after[j].source, after[j].target)
  {
    assert (rows + [row])[..|rows|] == rows;
  }

  lemma RowsOnlyGrow(rows: seq<Row>, row: Row, source: string, target: string)
    requires HasRow(rows, source, target)
    ensures HasRow(rows + [row], source, target)
  {
    var r :| 0 <= r < |rows| && Accepted(rows[r]) && rows[r].source == source && rows[r].target == target;
    assert (rows + [row])[r] == rows[r];
  }

  lemma KeysOnlyGrow(rows: seq<Row>, row: Row, before: seq<Link<string>>, after: seq<Link<string>>, key: string)
    requires IsAggregateStep(rows, row, before, after) && HasKey(before, key)
    ensures HasKey(after, key)
  {
    var k :| 0 <= k < |before| && LinkKey(before[k].source, before[k].target) == key;
    assert after[k].source == before[k].source && after[k].target == before[k].target;
  }

  // ----- The graph of the links against the graph of the rows ----------------------------------

  function Edges<N(==)>(links: seq<Link<N>>): set<Edge<N>> {
    set i | 0 <= i < |links| :: (links[i].source, links[i].target)
  }

  function RowEdges(rows: seq<Row>): set<Edge<string>> {
    set i | 0 <= i < |rows| && Accepted(rows[i]) :: (rows[i].source, rows[i].target)
  }

  /** No two accepted rows with different ends are joined to the same key. */
  ghost predicate CollisionFree(rows: seq<Row>) {
    forall i, j :: 0 <= i < |rows| && 0 <= j < |rows| && Accepted(rows[i]) && Accepted(rows[j])
      && LinkKey(rows[i].source, rows[i].target) == LinkKey(rows[j].source, rows[j].target)
      ==> rows[i].source == rows[j].source && rows[i].target == rows[j].target
  }

  /** Aggregation keeps the rows' graph exactly when no two rows collide on their key. */
  lemma AggregationKeepsGraph(rows: seq<Row>, links: seq<Link<string>>)
    requires Aggregates(rows, links)
    ensures Edges(links) <= RowEdges(rows)
    ensures Edges(links) == RowEdges(rows) <==> CollisionFree(rows)
  {
    forall e | e in Edges(links) ensures e in RowEdges(rows) {
      var i :| 0 <= i < |links| && e == (links[i].source, links[i].target);
      assert HasRow(rows, links[i].source, links[i].target);
    }
    if CollisionFree(rows) {
      forall e | e in RowEdges(rows) ensures e in Edges(links) {
        var i :| 0 <= i < |rows| && Accepted(rows[i]) && e == (rows[i].source, rows[i].target);
        var k :| 0 <= k < |links| && LinkKey(links[k].source, links[k].target) == LinkKey(e.0, e.1);
        assert HasRow(rows, links[k].source, links[k].target);
        assert (links[k].source, links[k].target) in Edges(links);
      }
    }
    if Edges(links) == RowEdges(rows) {
      forall i, j | 0 <= i < |rows| && 0 <= j < |rows| && Accepted(rows[i]) && Accepted(rows[j])
                    && LinkKey(rows[i].source, rows[i].target) == LinkKey(rows[j].source, rows[j].target)
        ensures rows[i].source == rows[j].source && rows[i].target == rows[j].target
      {
        assert (rows[i].source, rows[i].target) in RowEdges(rows);
        assert (rows[j].source, rows[j].target) in RowEdges(rows);
        var a :| 0 <= a < |links| && (rows[i].source, rows[i].target) == (links[a].source, links[a].target);
        var b :| 0 <= b < |links| && (rows[j].source, rows[j].target) == (links[b].source, links[b].target);
        assert a == b;
      }
    }
  }

  lemma {:induction false} KeyIsInjectiveWithoutNul(s1: string, t1: string, s2: string, t2: string)
    requires '\0' !in s1 && '\0' !in s2
    requires LinkKey(s1, t1) == LinkKey(s2, t2)
    ensures s1 == s2 && t1 == t2
  {
    var k1, k2 := LinkKey(s1, t1), LinkKey(s2, t2);
    assert k1[|s1|] == '\0' && k2[|s2|] == '\0';
    assert forall i :: 0 <= i < |s1| ==> k1[i] == s1[i];
    assert forall i :: 0 <= i < |s2| ==> k2[i] == s2[i];
    assert |s1| == |s2|;
    assert s1 == k1[..|s1|] && s2 == k2[..|s2|];
    assert t1 == k1[|s1| + 1..] && t2 == k2[|s2| + 1..];
  }

  /** Labels without the separator never collide. */
  lemma NulFreeRowsDoNotCollide(rows: seq<Row>)
    requires forall i :: 0 <= i < |rows| ==> '\0' !in rows[i].source
    ensures CollisionFree(rows)
  {
    forall i, j | 0 <= i < |rows| && 0 <= j < |rows| && Accepted(rows[i]) && Accepted(rows[j])
                  && LinkKey(rows[i].source, rows[i].target) == LinkKey(rows[j].source, rows[j].target)
      ensures rows[i].source == rows[j].source && rows[i].target == rows[j].target
    {
      KeyIsInjectiveWithoutNul(rows[i].source, rows[i].target, rows[j].source, rows[j].target);
    }
  }

  /** With the separator inside a label, a cycle of the rows can disappear from the links. */
  lemma CollisionCanHideCycle() returns (rows: seq<Row>, links: seq<Link<string>>)
    ensures Aggregates(rows, links) && HasCycle(RowEdges(rows)) && !HasCycle(Edges(links))
  {
    var a, b, bc, ab, c := "a", "b", "b\0c", "a\0b", "c";
    rows := [Row(ab, c, Some(1.0)), Row(a, bc, Some(1.0)), Row(bc, a, Some(1.0))];
    links := [Link(ab, c, 2.0), Link(bc, a, 1.0)];
    assert LinkKey(ab, c) == LinkKey(a, bc) == "a\0b\0c";
    assert LinkKey(bc, a) == "b\0c\0a";
    assert "a\0b\0c"[0] != "b\0c\0a"[0];
    assert rows[..2] == [rows[0], rows[1]] && rows[..2][..1] == [rows[0]];
    assert KeySum(rows[..1], "a\0b\0c") == 1.0;
    assert KeySum(rows[..2], "a\0b\0c") == 2.0;
    assert KeySum(rows, "a\0b\0c") == 2.0;
    assert KeySum(rows[..1], "b\0c\0a") == 0.0;
    assert KeySum(rows[..2], "b\0c\0a") == 0.0;
    assert KeySum(rows, "b\0c\0a") == 1.0;
    assert HasRow(rows, ab, c) by { assert Accepted(rows[0]); }
    assert HasRow(rows, bc, a) by { assert Accepted(rows[2]); }
    assert LinkKey(links[0].source, links[0].target) == "a\0b\0c";
    assert LinkKey(links[1].source, links[1].target) == "b\0c\0a";
    var loop := [a, bc, a];
    assert (rows[1].source, rows[1].target) == (a, bc) && (rows[2].source, rows[2].target) == (bc, a);
    assert (a, bc) in RowEdges(rows) && (bc, a) in RowEdges(rows);
    assert IsCycle(RowEdges(rows), loop);
    assert Edges(links) == {(ab, c), (bc, a)} by {
      assert (links[0].source, links[0].target) == (ab, c) && (links[1].source, links[1].target) == (bc, a);
    }
    var order := [ab, c, bc, a];
    assert |ab| == 3 && |bc| == 3 && ab[0] == 'a' && bc[0] == 'b';
    assert IsTopological(Edges(links), order) by {
      assert order[0] == ab && order[1] == c && order[2] == bc && order[3] == a;
    }
    TopologicalOrderExcludesCycles(Edges(links), order);
  }

  // ----- Indexes over the links ----------------------------------------------------------------

  /** Number of links into `v` whose source is not yet done. */
  function PendingInto<N(==)>(links: seq<Link<N>>, done: set<N>, v: N): nat {
    if links == [] then 0
    else
      var link := links[|links| - 1];
      PendingInto(links[..|links| - 1], done, v) + if link.target == v && link.source !in done then 1 else 0
  }

  /** Number of links of a list into `v`. */
  function CountInto<N(==)>(links: seq<Link<N>>, v: N): nat {
    if links == [] then 0
    else CountInto(links[..|links| - 1], v) + if links[|links| - 1].target == v then 1 else 0
  }

  /** The links that leave `source`, in their order. */
  function Outgoing<N(==)>(links: seq<Link<N>>, source: N): seq<Link<N>> {
    if links == [] then []
    else
      var link := links[|links| - 1];
      Outgoing(links[..|links| - 1], source) + if link.source == source then [link] else []
  }

  /** Finishing a node takes exactly its outgoing links off the pending ones. */
  lemma {:induction false} FinishingSourceReleasesItsLinks<N>(links: seq<Link<N>>, done: set<N>, source: N, v: N)
    requires source !in done
    ensures PendingInto(links, done, v) == PendingInto(links, done + {source}, v) + CountInto(Outgoing(links, source), v)
  {
    if links != [] {
      var init, link := links[..|links| - 1], links[|links| - 1];
      FinishingSourceReleasesItsLinks(init, done, source, v);
      var out := Outgoing(links, source);
      if link.source == source {
        assert out == Outgoing(init, source) + [link];
        assert out[..|out| - 1] == Outgoing(init, source);
      } else {
        assert out == Outgoing(init, source);
      }
    }
  }

  lemma PendingStep<N>(links: seq<Link<N>>, i: nat, v: N)
    requires i < |links|
    ensures PendingInto(links[..i + 1], {}, v) == PendingInto(links[..i], {}, v) + if links[i].target == v then 1 else 0
  {
    assert links[..i + 1][..i] == links[..i];
  }

  lemma OutgoingStep<N>(links: seq<Link<N>>, i: nat, v: N)
    requires i < |links|
    ensures Outgoing(links[..i + 1], v) == Outgoing(links[..i], v) + if links[i].source == v then [links[i]] else []
  {
    assert links[..i + 1][..i] == links[..i];
  }

  lemma CountStep<N>(links: seq<Link<N>>, i: nat, v: N)
    requires i < |links|
    ensures CountInto(links[..i + 1], v) == CountInto(links[..i], v) + if links[i].target == v then 1 else 0
  {
    assert links[..i + 1][..i] == links[..i];
  }

  lemma {:induction false} CountIntoPrefix<N>(links: seq<Link<N>>, n: nat, v: N)
    requires n <= |links|
    ensures CountInto(links[..n], v) <= CountInto(links, v)
  {
    if n < |links| {
      CountIntoPrefix(links[..|links| - 1], n, v);
      assert links[..|links| - 1][..n] == links[..n];
    } else {
      assert links[..n] == links;
    }
  }

  /** Links are pending into a node exactly when an edge from an unfinished node enters it. */
  lemma {:induction false} PendingIntoIsExact<N(!new)>(links: seq<Link<N>>, done: set<N>, v: N)
    ensures PendingInto(links, done, v) > 0 <==> exists u :: u !in done && (u, v) in Edges(links)
  {
    if links != [] {
      PendingIntoIsExact(links[..|links| - 1], done, v);
      EdgesStep(links);
    }
  }

  /** The outgoing links of a node hit exactly its successors in the graph. */
  lemma {:induction false} OutgoingIsExact<N>(links: seq<Link<N>>, source: N, v: N)
    ensures CountInto(Outgoing(links, source), v) > 0 <==> (source, v) in Edges(links)
  {
    if links != [] {
      var init, link := links[..|links| - 1], links[|links| - 1];
      OutgoingIsExact(init, source, v);
      EdgesStep(links);
      var out := Outgoing(links, source);
      if link.source == source {
        assert out[..|out| - 1] == Outgoing(init, source);
      } else {
        assert out == Outgoing(init, source);
      }
    }
  }

  lemma {:induction false} OutgoingEndsInNodes<N(!new)>(links: seq<Link<N>>, source: N)
    ensures forall i :: 0 <= i < |Outgoing(links, source)| ==> Outgoing(links, source)[i].target in EndPoints(links)
  {
    if links != [] {
      OutgoingEndsInNodes(links[..|links| - 1], source);
      EndPointsStep(links, |links| - 1);
      assert links[..|links|] == links;
    }
  }

  lemma EdgesStep<N>(links: seq<Link<N>>)
    requires links != []
    ensures Edges(links) == Edges(links[..|links| - 1]) + {(links[|links| - 1].source, links[|links| - 1].target)}
  {
    var init, link := links[..|links| - 1], links[|links| - 1];
    forall e | e in Edges(links) ensures e in Edges(init) + {(link.source, link.target)} {
      var i :| 0 <= i < |links| && e == (links[i].source, links[i].target);
      assert i < |init| ==> init[i] == links[i];
    }
    forall e | e in Edges(init) ensures e in Edges(links) {
      var i :| 0 <= i < |init| && e == (init[i].source, init[i].target);
      assert init[i] == links[i];
    }
  }

  ghost function EndPoints<N(!new)>(links: seq<Link<N>>): set<N> {
    set i, x | 0 <= i < |links| && x in [links[i].source, links[i].target] :: x
  }

  lemma EdgeEndPoints<N(!new)>(links: seq<Link<N>>, e: Edge<N>)
    requires e in Edges(links)
    ensures e.0 in EndPoints(links) && e.1 in EndPoints(links)
  {
    var i :| 0 <= i < |links| && e == (links[i].source, links[i].target);
    assert links[i].source in [links[i].source, links[i].target];
    assert links[i].target in [links[i].source, links[i].target];
  }

  /** The distinct end points of the links. */
  method CollectNodes<N(==,!new)>(links: seq<Link<N>>) returns (nodeIds: seq<N>)
    ensures Distinct(nodeIds) && ToSet(nodeIds) == EndPoints(links)
  {
    nodeIds := [];
    for i := 0 to |links|
      invariant Distinct(nodeIds)
      invariant forall x :: x in nodeIds <==> x in EndPoints(links[..i])
    {
      ghost var prior := nodeIds;
      if links[i].source !in nodeIds {
        nodeIds := nodeIds + [links[i].source];
      }
      if links[i].target !in nodeIds {
        nodeIds := nodeIds + [links[i].target];
      }
      EndPointsStep(links, i);
    }
    assert links[..|links|] == links;
  }

  lemma EndPointsStep<N(!new)>(links: seq<Link<N>>, i: nat)
    requires i < |links|
    ensures EndPoints(links[..i + 1]) == EndPoints(links[..i]) + {links[i].source, links[i].target}
  {
    forall x | x in EndPoints(links[..i + 1]) ensures x in EndPoints(links[..i]) + {links[i].source, links[i].target} {
      var k :| 0 <= k < i + 1 && x in [links[..i + 1][k].source, links[..i + 1][k].target];
      assert k < i ==> links[..i][k] == links[..i + 1][k];
    }
    forall x | x in EndPoints(links[..i]) + {links[i].source, links[i].target} ensures x in EndPoints(links[..i + 1]) {
      if x in EndPoints(links[..i]) {
        var k :| 0 <= k < i && x in [links[..i][k].source, links[..i][k].target];
        assert links[..i + 1][k] == links[..i][k];
      } else {
        assert x in [links[..i + 1][i].source, links[..i + 1][i].target];
      }
    }
  }

  /** Counts of incoming links and lists of outgoing links, built in one pass. */
  method IndexLinks<N(==,!new)>(links: seq<Link<N>>, nodeIds: seq<N>)
    returns (incoming: map<N, nat>, outgoing: map<N, seq<Link<N>>>)
    requires ToSet(nodeIds) == EndPoints(links)
    ensures incoming.Keys == EndPoints(links)
    ensures forall v :: v in incoming ==> incoming[v] == PendingInto(links, {}, v)
    ensures forall v :: Get(outgoing, v) == Outgoing(links, v)
  {
    incoming := map x | x in nodeIds :: 0;
    outgoing := map[];
    for i := 0 to |links|
      invariant incoming.Keys == EndPoints(links)
      invariant forall v :: v in incoming ==> incoming[v] == PendingInto(links[..i], {}, v)
      invariant forall v :: Get(outgoing, v) == Outgoing(links[..i], v)
    {
      var link := links[i];
      assert (link.source, link.target) in Edges(links);
      EdgeEndPoints(links, (link.source, link.target));
      ghost var incoming0, outgoing0 := incoming, outgoing;
      incoming := incoming[link.target := incoming[link.target] + 1];
      outgoing := outgoing[link.source := Get(outgoing, link.source) + [link]];
      forall v | v in incoming ensures incoming[v] == PendingInto(links[..i + 1], {}, v) {
        assert incoming0[v] == PendingInto(links[..i], {}, v);
        PendingStep(links, i, v);
      }
      forall v ensures Get(outgoing, v) == Outgoing(links[..i + 1], v) {
        assert Get(outgoing0, v) == Outgoing(links[..i], v);
        OutgoingStep(links, i, v);
      }
    }
    assert links[..|links|] == links;
  }

  function Get<N(==,!new)>(outgoing: map<N, seq<Link<N>>>, v: N): seq<Link<N>> {
    if v in outgoing then outgoing[v] else []
  }

  // ----- The queue -----------------------------------------------------------------------------

  function Max(a: nat, b: nat): nat {
    if a < b then b else a
  }

  /** The effect of a list of outgoing links on the columns, the open counts and the queue. */
  ghost predicate Relaxed<N(!new)>(out: seq<Link<N>>, sourceColumn: nat, columns: map<N, nat>, indegree: map<N, nat>,
                                   columns': map<N, nat>, indegree': map<N, nat>, released: seq<N>) {
    && columns'.Keys == indegree'.Keys == columns.Keys == indegree.Keys
    && (forall v :: v in indegree ==> indegree'[v] == indegree[v] - CountInto(out, v))
    && (forall v :: v in columns ==>
          columns'[v] == if CountInto(out, v) > 0 then Max(columns[v], sourceColumn + 1) else columns[v])
    && Distinct(released)
    && (forall v :: v in released <==> v in indegree && indegree[v] > 0 && indegree'[v] == 0)
  }

  lemma RelaxedStep<N(!new)>(out: seq<Link<N>>, link: Link<N>, sourceColumn: nat, columns: map<N, nat>, indegree: map<N, nat>,
                             columns': map<N, nat>, indegree': map<N, nat>, released: seq<N>)
    requires Relaxed(out, sourceColumn, columns, indegree, columns', indegree', released)
    requires link.target in indegree && indegree'[link.target] > 0
    ensures Relaxed(out + [link], sourceColumn, columns, indegree,
                    columns'[link.target := Max(columns'[link.target], sourceColumn + 1)],
                    indegree'[link.target := indegree'[link.target] - 1],
                    if indegree'[link.target] == 1 then released + [link.target] else released)
  {
    assert (out + [link])[..|out|] == out;
    forall v ensures CountInto(out + [link], v) == CountInto(out, v) + if link.target == v then 1 else 0 {
    }
  }

  /** Processes one node: raises the columns of its targets and queues those with no link left. */
  method RelaxTargets<N(==,!new)>(out: seq<Link<N>>, sourceColumn: nat, columns: map<N, nat>, indegree: map<N, nat>, queue: seq<N>)
    returns (columns': map<N, nat>, indegree': map<N, nat>, queue': seq<N>, ghost released: seq<N>)
    requires columns.Keys == indegree.Keys
    requires forall i :: 0 <= i < |out| ==> out[i].target in columns
    requires forall v :: v in indegree ==> CountInto(out, v) <= indegree[v]
    ensures Relaxed(out, sourceColumn, columns, indegree, columns', indegree', released)
    ensures queue' == queue + released
  {
    columns', indegree', queue' := columns, indegree, queue;
    released := [];
    for j := 0 to |out|
      invariant Relaxed(out[..j], sourceColumn, columns, indegree, columns', indegree', released)
      invariant queue' == queue + released
    {
      var target := out[j].target;
      CountIntoPrefix(out, j + 1, target);
      CountStep(out, j, target);
      RelaxedStep(out[..j], out[j], sourceColumn, columns, indegree, columns', indegree', released);
      TakeOneMore(out, j);
      columns' := columns'[target := Max(columns'[target], sourceColumn + 1)];
      var remaining := indegree'[target] - 1;
      indegree' := indegree'[target := remaining];
      if remaining == 0 {
        AppendIsAssociative(queue, released, [target]);
        queue' := queue' + [target];
        released := released + [target];
      }
    }
    assert out[..|out|] == out;
  }

  /** The nodes queued so far are distinct and are exactly those without a pending link. */
  ghost predicate QueueInvariant<N(!new)>(links: seq<Link<N>>, order: seq<N>, queue: seq<N>, indegree: map<N, nat>) {
    && indegree.Keys == EndPoints(links)
    && Distinct(order + queue)
    && (forall v :: v in indegree ==> indegree[v] == PendingInto(links, ToSet(order), v))
    && (forall v :: v in order + queue <==> v in indegree && indegree[v] == 0)
  }

  /** Processed nodes come after their predecessors. */
  ghost predicate OrderInvariant<N(!new)>(links: seq<Link<N>>, order: seq<N>) {
    forall i, u :: 0 <= i < |order| && (u, order[i]) in Edges(links) ==> u in order[..i]
  }

  /** Columns grow along the links of processed nodes, and every positive column has its reason. */
  ghost predicate ColumnInvariant<N(!new)>(links: seq<Link<N>>, order: seq<N>, columns: map<N, nat>) {
    && columns.Keys == EndPoints(links)
    && (forall e :: e in Edges(links) && e.0 in order && e.0 in columns && e.1 in columns ==> columns[e.0] + 1 <= columns[e.1])
    && (forall v :: v in columns && columns[v] > 0 ==> JustifiedBy(links, order, columns, v))
  }

  ghost predicate JustifiedBy<N(!new)>(links: seq<Link<N>>, order: seq<N>, columns: map<N, nat>, v: N)
    requires v in columns
  {
    exists u :: u in order && u in columns && (u, v) in Edges(links) && columns[u] + 1 == columns[v]
  }

  lemma QueueHeadIsReady<N(!new)>(links: seq<Link<N>>, order: seq<N>, node: N, queue: seq<N>, indegree: map<N, nat>)
    requires QueueInvariant(links, order, [node] + queue, indegree)
    ensures node in indegree && indegree[node] == 0 && node !in order && node !in queue
    ensures forall u :: (u, node) in Edges(links) ==> u in order
    ensures forall v :: v in indegree ==> CountInto(Outgoing(links, node), v) <= indegree[v]
  {
    var all := order + ([node] + queue);
    assert all[|order|] == node;
    assert node in all;
    assert forall i :: 0 <= i < |order| ==> all[i] == order[i];
    assert forall i :: 0 <= i < |queue| ==> all[|order| + 1 + i] == queue[i];
    PendingIntoIsExact(links, ToSet(order), node);
    forall v | v in indegree ensures CountInto(Outgoing(links, node), v) <= indegree[v] {
      FinishingSourceReleasesItsLinks(links, ToSet(order), node, v);
    }
  }

  lemma QueueStep<N(!new)>(links: seq<Link<N>>, order: seq<N>, node: N, queue: seq<N>, sourceColumn: nat,
                           columns: map<N, nat>, indegree: map<N, nat>,
                           columns': map<N, nat>, indegree': map<N, nat>, released: seq<N>)
    requires QueueInvariant(links, order, [node] + queue, indegree)
    requires Relaxed(Outgoing(links, node), sourceColumn, columns, indegree, columns', indegree', released)
    ensures QueueInvariant(links, order + [node], queue + released, indegree')
  {
    var old_, new_ := order + ([node] + queue), (order + [node]) + (queue + released);
    QueueHeadIsReady(links, order, node, queue, indegree);
    assert new_ == old_ + released;
    forall v | v in indegree' ensures indegree'[v] == PendingInto(links, ToSet(order + [node]), v) {
      ToSetAppend(order, node);
      FinishingSourceReleasesItsLinks(links, ToSet(order), node, v);
    }
    assert forall v :: v in new_ <==> v in old_ || v in released;
    assert forall v :: v in old_ ==> v !in released;
    DistinctConcat(old_, released);
    forall v | v in indegree && indegree[v] == 0 ensures indegree'[v] == 0 {
    }
  }

  lemma DistinctConcat<N>(a: seq<N>, b: seq<N>)
    requires Distinct(a) && Distinct(b) && forall x :: x in a ==> x !in b
    ensures Distinct(a + b)
  {
    forall i, j | 0 <= i < j < |a + b| ensures (a + b)[i] != (a + b)[j] {
      if i < |a| <= j {
        assert a[i] in a && b[j - |a|] in b;
      }
    }
  }

  lemma OrderStep<N(!new)>(links: seq<Link<N>>, order: seq<N>, node: N)
    requires OrderInvariant(links, order)
    requires forall u :: (u, node) in Edges(links) ==> u in order
    ensures OrderInvariant(links, order + [node])
  {
    var order' := order + [node];
    forall i, u | 0 <= i < |order'| && (u, order'[i]) in Edges(links) ensures u in order'[..i] {
      if i < |order| {
        assert order'[..i] == order[..i] && order'[i] == order[i];
      } else {
        assert order'[..i] == order;
      }
    }
  }

  /** Processing a node raises exactly its successors. */
  ghost predicate RaisesSuccessors<N(!new)>(links: seq<Link<N>>, node: N, columns: map<N, nat>, columns': map<N, nat>)
    requires node in columns
  {
    && columns'.Keys == columns.Keys
    && forall v :: v in columns ==>
         columns'[v] == if (node, v) in Edges(links) then Max(columns[v], columns[node] + 1) else columns[v]
  }

  lemma RelaxingRaisesSuccessors<N(!new)>(links: seq<Link<N>>, node: N, columns: map<N, nat>, indegree: map<N, nat>,
                                          columns': map<N, nat>, indegree': map<N, nat>, released: seq<N>)
    requires node in columns
    requires Relaxed(Outgoing(links, node), columns[node], columns, indegree, columns', indegree', released)
    ensures RaisesSuccessors(links, node, columns, columns')
  {
    forall v | v in columns
      ensures columns'[v] == if (node, v) in Edges(links) then Max(columns[v], columns[node] + 1) else columns[v]
    {
      OutgoingIsExact(links, node, v);
    }
  }

  /** No successor of a node that was not processed has been processed. */
  lemma ProcessedAreNotSuccessors<N(!new)>(links: seq<Link<N>>, order: seq<N>, node: N, v: N)
    requires OrderInvariant(links, order) && node !in order && v in order
    ensures (node, v) !in Edges(links)
  {
    var i :| 0 <= i < |order| && order[i] == v;
    assert node !in order[..i];
  }

  lemma ProcessedColumnsAreFinal<N(!new)>(links: seq<Link<N>>, order: seq<N>, node: N, v: N, columns: map<N, nat>, columns': map<N, nat>)
    requires OrderInvariant(links, order)
    requires node in columns && node !in order && (node, node) !in Edges(links)
    requires RaisesSuccessors(links, node, columns, columns')
    requires v in columns && v in order + [node]
    ensures columns'[v] == columns[v]
  {
    if v in order {
      ProcessedAreNotSuccessors(links, order, node, v);
    }
  }

  lemma GrowthStep<N(!new)>(links: seq<Link<N>>, order: seq<N>, node: N, e: Edge<N>, columns: map<N, nat>, columns': map<N, nat>)
    requires ColumnInvariant(links, order, columns) && OrderInvariant(links, order)
    requires node in columns && node !in order && (node, node) !in Edges(links)
    requires RaisesSuccessors(links, node, columns, columns')
    requires e in Edges(links) && e.0 in order + [node] && e.0 in columns && e.1 in columns
    ensures columns'[e.0] + 1 <= columns'[e.1]
  {
    ProcessedColumnsAreFinal(links, order, node, e.0, columns, columns');
    assert e == (e.0, e.1);
  }

  lemma JustificationStep<N(!new)>(links: seq<Link<N>>, order: seq<N>, node: N, v: N, columns: map<N, nat>, columns': map<N, nat>)
    requires ColumnInvariant(links, order, columns) && OrderInvariant(links, order)
    requires node in columns && node !in order && (node, node) !in Edges(links)
    requires RaisesSuccessors(links, node, columns, columns')
    requires v in columns && columns'[v] > 0
    ensures JustifiedBy(links, order + [node], columns', v)
  {
    if columns'[v] == columns[v] {
      var u :| u in order && u in columns && (u, v) in Edges(links) && columns[u] + 1 == columns[v];
      ProcessedColumnsAreFinal(links, order, node, u, columns, columns');
      assert u in order + [node];
    } else {
      ProcessedColumnsAreFinal(links, order, node, node, columns, columns');
      assert node in order + [node];
    }
  }

  lemma ColumnStep<N(!new)>(links: seq<Link<N>>, order: seq<N>, node: N, columns: map<N, nat>, columns': map<N, nat>)
    requires ColumnInvariant(links, order, columns) && OrderInvariant(links, order)
    requires node in columns && node !in order && (node, node) !in Edges(links)
    requires RaisesSuccessors(links, node, columns, columns')
    ensures ColumnInvariant(links, order + [node], columns')
  {
    forall e | e in Edges(links) && e.0 in order + [node] && e.0 in columns' && e.1 in columns'
      ensures columns'[e.0] + 1 <= columns'[e.1]
    {
      GrowthStep(links, order, node, e, columns, columns');
    }
    forall v | v in columns' && columns'[v] > 0 ensures JustifiedBy(links, order + [node], columns', v) {
      JustificationStep(links, order, node, v, columns, columns');
    }
  }

  /** One turn of the loop keeps all three invariants. */
  lemma LayeringStep<N(!new)>(links: seq<Link<N>>, order: seq<N>, node: N, queue: seq<N>,
                              columns: map<N, nat>, indegree: map<N, nat>,
                              columns': map<N, nat>, indegree': map<N, nat>, released: seq<N>)
    requires QueueInvariant(links, order, [node] + queue, indegree)
    requires OrderInvariant(links, order) && ColumnInvariant(links, order, columns) && node in columns
    requires Relaxed(Outgoing(links, node), columns[node], columns, indegree, columns', indegree', released)
    ensures QueueInvariant(links, order + [node], queue + released, indegree')
    ensures OrderInvariant(links, order + [node]) && ColumnInvariant(links, order + [node], columns')
  {
    QueueHeadIsReady(links, order, node, queue, indegree);
    QueueStep(links, order, node, queue, columns[node], columns, indegree, columns', indegree', released);
    OrderStep(links, order, node);
    RelaxingRaisesSuccessors(links, node, columns, indegree, columns', indegree', released);
    ColumnStep(links, order, node, columns, columns');
  }

  lemma ProcessedAreNodes<N(!new)>(links: seq<Link<N>>, order: seq<N>, indegree: map<N, nat>)
    requires QueueInvariant(links, order, [], indegree)
    ensures ToSet(order) <= EndPoints(links) && Distinct(order)
  {
    assert order + [] == order;
  }

  /** All nodes were processed: the order is topological and the columns are the longest paths. */
  lemma CompleteLayering<N(!new)>(links: seq<Link<N>>, order: seq<N>, columns: map<N, nat>, indegree: map<N, nat>)
    requires QueueInvariant(links, order, [], indegree) && OrderInvariant(links, order) && ColumnInvariant(links, order, columns)
    requires ToSet(order) == EndPoints(links)
    ensures IsTopological(Edges(links), order) && !HasCycle(Edges(links))
    ensures forall e :: e in Edges(links) ==> e.0 in columns && e.1 in columns && columns[e.0] < columns[e.1]
    ensures forall v :: v in columns ==> IsLongestTo(Edges(links), v, columns[v])
  {
    assert order + [] == order;
    forall e | e in Edges(links)
      ensures e.0 in columns && e.1 in columns && columns[e.0] < columns[e.1]
      ensures exists i, j :: 0 <= i < j < |order| && order[i] == e.0 && order[j] == e.1
    {
      EdgeEndPoints(links, e);
      assert e.0 in ToSet(order) && e.1 in ToSet(order);
      var j :| 0 <= j < |order| && order[j] == e.1;
      assert (e.0, order[j]) in Edges(links);
      var i :| 0 <= i < j && order[..j][i] == e.0;
    }
    TopologicalOrderExcludesCycles(Edges(links), order);
    forall v | v in columns && columns[v] > 0 ensures IsJustified(Edges(links), columns, v) {
      assert JustifiedBy(links, order, columns, v);
    }
    forall v | v in columns ensures IsLongestTo(Edges(links), v, columns[v]) {
      NumberingIsLongest(Edges(links), columns, v);
    }
  }

  /** The queue ran dry early: the nodes left over contain a cycle. */
  lemma StuckLayering<N(!new)>(links: seq<Link<N>>, order: seq<N>, indegree: map<N, nat>)
    requires QueueInvariant(links, order, [], indegree)
    requires ToSet(order) != EndPoints(links)
    ensures HasCycle(Edges(links))
  {
    assert order + [] == order;
    var rest := EndPoints(links) - ToSet(order);
    assert ToSet(order) <= EndPoints(links);
    var left :| left in EndPoints(links) && left !in ToSet(order);
    assert left in rest;
    forall v | v in rest ensures HasPredecessorIn(Edges(links), rest, v) {
      assert v !in order;
      PendingIntoIsExact(links, ToSet(order), v);
      var u :| u !in ToSet(order) && (u, v) in Edges(links);
      EdgeEndPoints(links, (u, v));
    }
    NoSourceForcesCycle(Edges(links), rest);
  }

  /**
   * The layering loop. Fails exactly on graphs with a cycle; otherwise every node is processed
   * once and gets the length of the longest walk that ends at it.
   */
  method AssignColumns<N(==,!new)>(links: seq<Link<N>>, nodeIds: seq<N>)
    returns (columns: Option<map<N, nat>>, ghost order: seq<N>)
    requires Distinct(nodeIds) && ToSet(nodeIds) == EndPoints(links)
    ensures columns.None? <==> HasCycle(Edges(links))
    ensures columns.Some? ==> columns.value.Keys == EndPoints(links)
    ensures columns.Some? ==> forall v :: v in columns.value ==> IsLongestTo(Edges(links), v, columns.value[v])
    ensures columns.Some? ==> forall e :: e in Edges(links) ==>
              e.0 in columns.value && e.1 in columns.value && columns.value[e.0] < columns.value[e.1]
    ensures Distinct(order)
    ensures columns.Some? ==> ToSet(order) == EndPoints(links) && IsTopological(Edges(links), order)
  {
    var incoming, outgoing := IndexLinks(links, nodeIds);
    var column: map<N, nat> := map v | v in nodeIds :: 0;
    var indegree := incoming;
    var queue := ReadyNodes(nodeIds, incoming);
    var processed: set<N> := {};
    order := [];
    assert order + queue == queue && ToSet(order) == {};
    while queue != []
      invariant QueueInvariant(links, order, queue, indegree)
      invariant OrderInvariant(links, order) && ColumnInvariant(links, order, column)
      invariant processed == ToSet(order)
      decreases EndPoints(links) - processed
    {
      var node, rest := queue[0], queue[1..];
      HeadAndTail(queue);
      QueueHeadIsReady(links, order, node, rest, indegree);
      var sourceColumn := column[node];
      var out := Get(outgoing, node);
      OutgoingEndsInNodes(links, node);
      var column', indegree', queue', released := RelaxTargets(out, sourceColumn, column, indegree, rest);
      LayeringStep(links, order, node, rest, column, indegree, column', indegree', released);
      ToSetAppend(order, node);
      processed := processed + {node};
      order := order + [node];
      column, indegree, queue := column', indegree', queue';
    }
    ProcessedAreNodes(links, order, indegree);
    if processed < ToSet(nodeIds) {
      StuckLayering(links, order, indegree);
      columns := None;
    } else {
      CompleteLayering(links, order, column, indegree);
      columns := Some(column);
    }
  }

  method ReadyNodes<N(==)>(nodeIds: seq<N>, incoming: map<N, nat>) returns (queue: seq<N>)
    requires Distinct(nodeIds) && forall v :: v in nodeIds ==> v in incoming
    ensures Distinct(queue)
    ensures forall v :: v in queue <==> v in nodeIds && incoming[v] == 0
  {
    queue := [];
    for i := 0 to |nodeIds|
      invariant Distinct(queue)
      invariant forall v :: v in queue <==> v in nodeIds[..i] && incoming[v] == 0
    {
      TakeOneMore(nodeIds, i);
      if incoming[nodeIds[i]] == 0 {
        queue := queue + [nodeIds[i]];
      }
    }
    assert nodeIds[..|nodeIds|] == nodeIds;
  }

  /** The whole pipeline, with its error cases in the order in which they are raised. */
  method LayerRows(rows: seq<Row>) returns (layering: Layering, ghost links: seq<Link<string>>)
    ensures Aggregates(rows, links)
    ensures layering.NoLinks? <==>
              forall i :: 0 <= i < |rows| ==>
                rows[i].source == "" || rows[i].target == "" || rows[i].value.None? || rows[i].value.value <= 0.0
    ensures layering.TooManyNodes? <==> |EndPoints(links)| > 1000
    ensures layering.TooManyNodes? ==> layering.count == |EndPoints(links)|
    ensures layering.Cyclic? <==> |EndPoints(links)| <= 1000 && HasCycle(Edges(links))
    ensures layering.Columns? ==> layering.columns.Keys == EndPoints(links)
    ensures layering.Columns? ==> forall v :: v in layering.columns ==> IsLongestTo(Edges(links), v, layering.columns[v])
    ensures layering.Columns? ==> forall e :: e in Edges(links) ==>
              e.0 in layering.columns && e.1 in layering.columns && layering.columns[e.0] < layering.columns[e.1]
    ensures CollisionFree(rows) ==> Edges(links) == RowEdges(rows)
  {
    var rawLinks := AggregateLinks(rows);
    links := rawLinks;
    AggregationKeepsGraph(rows, links);
    if |rawLinks| == 0 {
      assert EndPoints(links) == {};
      assert Edges(links) == {};
      EmptyGraphHasNoCycle<string>();
      return NoLinks, links;
    }
    assert HasRow(rows, rawLinks[0].source, rawLinks[0].target);
    var nodeIds := CollectNodes(rawLinks);
    DistinctCardinality(nodeIds);
    if |nodeIds| > MAX_SANKEY_NODES {
      return TooManyNodes(|nodeIds|), links;
    }
    var columns, order := AssignColumns(rawLinks, nodeIds);
    layering := if columns.None? then Cyclic else Columns(columns.value);
  }
}
