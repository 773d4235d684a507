/**
 * The value-level specification of the CSR bulk load: what `row_index_`,
 * `col_index_` and the two value stores must hold after `load_edges` and
 * `load_vertices`, stated as functions of the input records, together with
 * the lemmas that give those functions their meaning (row offsets count the
 * edges of smaller source ids, each row slices out exactly its source's
 * edges in input order, later vertex records overwrite earlier ones).
 *
 * One configuration is modelled: edge values, vertex values and the graph
 * value are all `int`.
 */
module CsrSpec {
  import opened Util

  /** A value that may be absent. */
  datatype Option<T> = None | Some(value: T)

  /** copyable_edge_t<VId, EV>: {source_id, target_id, value}. */
  datatype EdgeRecord = EdgeRecord(sourceId: nat, targetId: nat, value: int)

  /** copyable_vertex_t<VId, VV>: {id, value}. */
  datatype VertexRecord = VertexRecord(id: nat, value: int)

  /** One past the largest value of the default vertex id and edge index type, uint32_t. */
  const VertexIdLimit: nat := 0x1_0000_0000

  /**
   * VId must hold every id plus one (the loader computes `id + 1` in VId)
   * and every edge offset (offsets are cast to VId when rows are added).
   */
  predicate FitsVertexId(edges: seq<EdgeRecord>)
  {
    && |edges| < VertexIdLimit
    && forall k :: 0 <= k < |edges| ==>
         edges[k].sourceId + 1 < VertexIdLimit && edges[k].targetId + 1 < VertexIdLimit
  }

  /** The loader's ordering requirement: source ids never decrease. */
  predicate SourceSorted(edges: seq<EdgeRecord>)
  {
    forall i, j :: 0 <= i <= j < |edges| ==> edges[i].sourceId <= edges[j].sourceId
  }

  /** What `col_index_` holds: one target id per edge, in input order. */
  function TargetIds(edges: seq<EdgeRecord>): (r: seq<nat>)
  {
    seq(|edges|, k requires 0 <= k < |edges| => edges[k].targetId)
  }

  /** What the edge-value store holds: one value per edge, in input order. */
  function EdgeValues(edges: seq<EdgeRecord>): (r: seq<int>)
  {
    seq(|edges|, k requires 0 <= k < |edges| => edges[k].value)
  }

  /** The largest target id of the input, 0 for no edges. */
  function MaxTarget(edges: seq<EdgeRecord>): (m: nat)
    ensures forall k :: 0 <= k < |edges| ==> edges[k].targetId <= m
    ensures edges == [] ==> m == 0
    ensures edges != [] ==> exists k :: 0 <= k < |edges| && edges[k].targetId == m
  {
    if edges == [] then 0
    else
      var m0 := MaxTarget(Init(edges));
      var m := Max(m0, Last(edges).targetId);
      if m == Last(edges).targetId then
        assert edges[|edges| - 1].targetId == m;
        m
      else
        var k :| 0 <= k < |Init(edges)| && Init(edges)[k].targetId == m0;
        assert edges[k].targetId == m;
        m
  }

  /** The largest source or target id of the input, 0 for no edges. */
  function MaxId(edges: seq<EdgeRecord>): (m: nat)
    ensures forall k :: 0 <= k < |edges| ==> edges[k].sourceId <= m && edges[k].targetId <= m
    ensures edges == [] ==> m == 0
    ensures edges != [] ==>
      exists k :: 0 <= k < |edges| && (m == edges[k].sourceId || m == edges[k].targetId)
  {
    if edges == [] then 0
    else
      var m0 := MaxId(Init(edges));
      var e := Last(edges);
      var m := Max(m0, Max(e.sourceId, e.targetId));
      assert m != m0 ==> m == e.sourceId || m == e.targetId;
      assert Init(edges) != [] ==>
        exists k :: 0 <= k < |Init(edges)| && (m0 == Init(edges)[k].sourceId || m0 == Init(edges)[k].targetId);
      m
  }

  /**
   * The vertex count a non-empty load establishes: the hint, one past the
   * last (hence largest) source id, and one past the largest target id. An
   * empty load establishes nothing, whatever the hint.
   */
  function VertexCountFor(edges: seq<EdgeRecord>, hint: nat): (n: nat)
    ensures edges == [] <==> n == 0
    ensures edges != [] ==> hint <= n
    ensures forall k :: 0 <= k < |edges| ==> edges[k].targetId < n
    ensures SourceSorted(edges) ==> forall k :: 0 <= k < |edges| ==> edges[k].sourceId < n
  {
    if edges == [] then 0
    else Max(hint, Max(Last(edges).sourceId + 1, MaxTarget(edges) + 1))
  }

  /** The number of edges whose source id is smaller than u. */
  function CountBelow(edges: seq<EdgeRecord>, u: nat): (n: nat)
    ensures n <= |edges|
  {
    if edges == [] then 0
    else CountBelow(Init(edges), u) + (if Last(edges).sourceId < u then 1 else 0)
  }

  /** The edges given for source u, in input order. */
  function Outgoing(edges: seq<EdgeRecord>, u: nat): (r: seq<EdgeRecord>)
    ensures |r| <= |edges|
    ensures forall k :: 0 <= k < |r| ==> r[k].sourceId == u
  {
    if edges == [] then []
    else Outgoing(Init(edges), u) + (if Last(edges).sourceId == u then [Last(edges)] else [])
  }

  /**
   * What `row_index_` holds after a load: for each vertex u, and for the
   * sentinel row u == vertex count, the offset of u's first edge, that is
   * the number of edges of smaller source id. Nothing for an empty load.
   */
  function RowIndexFor(edges: seq<EdgeRecord>, hint: nat): (r: seq<nat>)
  {
    if edges == [] then []
    else seq(VertexCountFor(edges, hint) + 1, u requires u >= 0 => CountBelow(edges, u))
  }

  /** When every source id is below u, every edge is counted. */
  lemma {:induction false} CountBelowAll(edges: seq<EdgeRecord>, u: nat)
    requires forall k :: 0 <= k < |edges| ==> edges[k].sourceId < u
    ensures CountBelow(edges, u) == |edges|
  {
    if edges != [] {
      CountBelowAll(Init(edges), u);
    }
  }

  /** No edge has a source id below 0. */
  lemma {:induction false} CountBelowZero(edges: seq<EdgeRecord>)
    ensures CountBelow(edges, 0) == 0
  {
    if edges != [] {
      CountBelowZero(Init(edges));
    }
  }

  /** Row offsets never decrease. */
  lemma {:induction false} CountBelowMonotone(edges: seq<EdgeRecord>, u: nat, w: nat)
    requires u <= w
    ensures CountBelow(edges, u) <= CountBelow(edges, w)
  {
    if edges != [] {
      CountBelowMonotone(Init(edges), u, w);
    }
  }

  /** Appending one edge counts it exactly when its source id is below u. */
  lemma CountBelowAppend(edges: seq<EdgeRecord>, e: EdgeRecord, u: nat)
    ensures CountBelow(edges + [e], u) == CountBelow(edges, u) + (if e.sourceId < u then 1 else 0)
  {
    assert Init(edges + [e]) == edges;
  }

  /** Dropping the last edge keeps the input sorted, and the last edge has the largest source id. */
  lemma SortedInit(edges: seq<EdgeRecord>)
    requires SourceSorted(edges) && edges != []
    ensures SourceSorted(Init(edges))
    ensures forall k :: 0 <= k < |edges| - 1 ==> Init(edges)[k].sourceId <= Last(edges).sourceId
  {
  }

  /**
   * The central fact of the CSR layout: on source-sorted input, the edges
   * between the offsets of rows u and u + 1 are exactly the edges given for
   * source u, in input order.
   */
  lemma {:induction false} OutgoingIsRowSlice(edges: seq<EdgeRecord>, u: nat)
    requires SourceSorted(edges)
    ensures CountBelow(edges, u) <= CountBelow(edges, u + 1)
    ensures edges[CountBelow(edges, u)..CountBelow(edges, u + 1)] == Outgoing(edges, u)
  {
    if edges != [] {
      var p, e := Init(edges), Last(edges);
      SortedInit(edges);
      OutgoingIsRowSlice(p, u);
      assert edges == p + [e];
      if e.sourceId < u {
        SliceStepBelow(p, e, u);
      } else if e.sourceId == u {
        SliceStepAt(p, e, u);
      } else {
        SliceStepAbove(p, e, u);
      }
    }
  }

  /** Induction step of OutgoingIsRowSlice when the appended edge lies before row u. */
  lemma SliceStepBelow(p: seq<EdgeRecord>, e: EdgeRecord, u: nat)
    requires forall k :: 0 <= k < |p| ==> p[k].sourceId <= e.sourceId
    requires e.sourceId < u
    ensures CountBelow(p + [e], u) == CountBelow(p + [e], u + 1)
    ensures Outgoing(p + [e], u) == []
  {
    var edges := p + [e];
    assert Init(edges) == p && Last(edges) == e;
    CountBelowAll(p, u);
    CountBelowAll(p, u + 1);
    assert Outgoing(p, u) == [] by {
      OutgoingNone(p, u);
    }
  }

  /** Induction step of OutgoingIsRowSlice when the appended edge belongs to row u. */
  lemma SliceStepAt(p: seq<EdgeRecord>, e: EdgeRecord, u: nat)
    requires forall k :: 0 <= k < |p| ==> p[k].sourceId <= e.sourceId
    requires e.sourceId == u
    requires CountBelow(p, u) <= CountBelow(p, u + 1)
    requires p[CountBelow(p, u)..CountBelow(p, u + 1)] == Outgoing(p, u)
    ensures CountBelow(p + [e], u) <= CountBelow(p + [e], u + 1) == |p| + 1
    ensures (p + [e])[CountBelow(p + [e], u)..|p| + 1] == Outgoing(p + [e], u)
  {
    var edges := p + [e];
    assert Init(edges) == p && Last(edges) == e;
    CountBelowAll(p, u + 1);
    var lo := CountBelow(p, u);
    assert CountBelow(edges, u) == lo;
    assert CountBelow(edges, u + 1) == |p| + 1;
    assert Outgoing(edges, u) == Outgoing(p, u) + [e];
    assert edges[lo..|p| + 1] == p[lo..|p|] + [e];
  }

  /** Induction step of OutgoingIsRowSlice when the appended edge lies after row u. */
  lemma SliceStepAbove(p: seq<EdgeRecord>, e: EdgeRecord, u: nat)
    requires e.sourceId > u
    requires CountBelow(p, u) <= CountBelow(p, u + 1)
    requires p[CountBelow(p, u)..CountBelow(p, u + 1)] == Outgoing(p, u)
    ensures CountBelow(p + [e], u) <= CountBelow(p + [e], u + 1)
    ensures (p + [e])[CountBelow(p + [e], u)..CountBelow(p + [e], u + 1)] == Outgoing(p + [e], u)
  {
    var edges := p + [e];
    assert Init(edges) == p && Last(edges) == e;
    var lo, hi := CountBelow(p, u), CountBelow(p, u + 1);
    assert CountBelow(edges, u) == lo && CountBelow(edges, u + 1) == hi;
    assert Outgoing(edges, u) == Outgoing(p, u);
    assert edges[lo..hi] == p[lo..hi];
  }

  /** Without an edge of source u, no edge is given for u. */
  lemma {:induction false} OutgoingNone(edges: seq<EdgeRecord>, u: nat)
    requires forall k :: 0 <= k < |edges| ==> edges[k].sourceId != u
    ensures Outgoing(edges, u) == []
  {
    if edges != [] {
      OutgoingNone(Init(edges), u);
    }
  }

  /** A row is empty exactly when no edge was given for its source id. */
  lemma RowEmptyIffNoEdges(edges: seq<EdgeRecord>, u: nat)
    requires SourceSorted(edges)
    ensures CountBelow(edges, u) == CountBelow(edges, u + 1) <==> Outgoing(edges, u) == []
  {
    OutgoingIsRowSlice(edges, u);
  }

  /** The rows 0 .. n-1 laid end to end: what reading every vertex's edges in id order yields. */
  function AllRows(edges: seq<EdgeRecord>, n: nat): (r: seq<EdgeRecord>)
  {
    if n == 0 then [] else AllRows(edges, n - 1) + Outgoing(edges, n - 1)
  }

  /** The first n rows together are the input prefix of the edges with source id below n. */
  lemma {:induction false} AllRowsPrefix(edges: seq<EdgeRecord>, n: nat)
    requires SourceSorted(edges)
    ensures AllRows(edges, n) == edges[..CountBelow(edges, n)]
  {
    if n == 0 {
      CountBelowZero(edges);
    } else {
      var m := n - 1;
      AllRowsPrefix(edges, m);
      OutgoingIsRowSlice(edges, m);
      var a, b := CountBelow(edges, m), CountBelow(edges, m + 1);
      assert AllRows(edges, m) == edges[..a];
      assert Outgoing(edges, m) == edges[a..b];
      PrefixSplit(edges, a, b);
      assert AllRows(edges, n) == AllRows(edges, m) + Outgoing(edges, m);
    }
  }

  lemma PrefixSplit<T>(s: seq<T>, a: nat, b: nat)
    requires a <= b <= |s|
    ensures s[..b] == s[..a] + s[a..b]
  {
  }

  /**
   * No edge is lost, duplicated or reordered: reading the rows of every
   * vertex in id order gives back the whole (source-sorted) input.
   */
  lemma AllRowsRoundTrip(edges: seq<EdgeRecord>, hint: nat)
    requires SourceSorted(edges)
    ensures AllRows(edges, VertexCountFor(edges, hint)) == edges
  {
    var n := VertexCountFor(edges, hint);
    AllRowsPrefix(edges, n);
    CountBelowAll(edges, n);
  }

  /**
   * The shape of the row index built by a non-empty load: one row per
   * vertex plus the sentinel, starting at 0, non-decreasing, with the
   * sentinel equal to the edge count.
   */
  lemma RowIndexShape(edges: seq<EdgeRecord>, hint: nat)
    requires SourceSorted(edges) && edges != []
    ensures |RowIndexFor(edges, hint)| == VertexCountFor(edges, hint) + 1
    ensures RowIndexFor(edges, hint)[0] == 0
    ensures RowIndexFor(edges, hint)[VertexCountFor(edges, hint)] == |edges|
    ensures forall i, j :: 0 <= i <= j < |RowIndexFor(edges, hint)| ==>
      RowIndexFor(edges, hint)[i] <= RowIndexFor(edges, hint)[j]
  {
    var r, n := RowIndexFor(edges, hint), VertexCountFor(edges, hint);
    CountBelowZero(edges);
    CountBelowAll(edges, n);
    forall i, j | 0 <= i <= j < |r| ensures r[i] <= r[j] {
      CountBelowMonotone(edges, i, j);
    }
  }

  /**
   * `load_edges`' final step on the vertex-value store (const& overload):
   * a store that is non-empty but shorter than the vertex count is resized
   * to the vertex count, padding with VV() == 0. It never shrinks, keeps
   * every existing value, and a non-empty result covers every vertex.
   */
  function ExtendRowValues(v: seq<int>, vertexCount: nat): (r: seq<int>)
    ensures |v| <= |r| && r[..|v|] == v
    ensures forall k :: |v| <= k < |r| ==> r[k] == 0
    ensures v != [] ==> vertexCount <= |r|
    ensures v == [] ==> r == []
    ensures |r| == if v == [] then 0 else Max(|v|, vertexCount)
  {
    if |v| > 0 && |v| < vertexCount then Resized(v, vertexCount, 0) else v
  }

  /**
   * The same step as written in the forwarding-reference (`ERng&&`)
   * overload of `load_edges`, whose test is `size() > 1`. That overload is
   * the one chosen for rvalue ranges and for non-const lvalue ranges.
   */
  function ExtendRowValuesForwarding(v: seq<int>, vertexCount: nat): (r: seq<int>)
    ensures |v| <= |r| && r[..|v|] == v
    ensures forall k :: |v| <= k < |r| ==> r[k] == 0
    ensures |v| > 1 ==> vertexCount <= |r|
    ensures |r| == if |v| <= 1 then |v| else Max(|v|, vertexCount)
  {
    if |v| > 1 && |v| < vertexCount then Resized(v, vertexCount, 0) else v
  }

  /**
   * The forwarding overload leaves a one-element vertex-value store short of
   * the vertex count, so vertex_value of vertex 1 or 2 would read past it.
   */
  lemma ForwardingOverloadLeavesStoreShort(x: int)
    ensures |ExtendRowValuesForwarding([x], 3)| == 1 < 3
    ensures |ExtendRowValues([x], 3)| == 3
  {
  }

  /**
   * The two overloads' steps differ only on a store holding exactly one
   * value: for any other size they give the same store.
   */
  lemma ForwardingAgreesExceptSizeOne(v: seq<int>, vertexCount: nat)
    requires |v| != 1
    ensures ExtendRowValuesForwarding(v, vertexCount) == ExtendRowValues(v, vertexCount)
  {
  }

  /** The value `load_row_values` leaves at id i: the value of the last record for i, if any. */
  function LastValueFor(records: seq<VertexRecord>, i: nat): (r: Option<int>)
    ensures r == None <==> forall k :: 0 <= k < |records| ==> records[k].id != i
  {
    if records == [] then None
    else if Last(records).id == i then Some(Last(records).value)
    else LastValueFor(Init(records), i)
  }

  /** Writing each record's value at its id, in input order, over `base`. */
  function Scatter(base: seq<int>, records: seq<VertexRecord>): (r: seq<int>)
    requires forall k :: 0 <= k < |records| ==> records[k].id < |base|
    ensures |r| == |base|
  {
    if records == [] then base
    else Scatter(base, Init(records))[Last(records).id := Last(records).value]
  }

  /**
   * After scattering, the value at id i is the one given by the LAST
   * record for i (later records overwrite earlier ones); ids without a
   * record keep the value of `base`.
   */
  lemma {:induction false} ScatterAt(base: seq<int>, records: seq<VertexRecord>, i: nat)
    requires forall k :: 0 <= k < |records| ==> records[k].id < |base|
    requires i < |base|
    ensures Scatter(base, records)[i] ==
      match LastValueFor(records, i)
      case Some(x) => x
      case None => base[i]
  {
    if records != [] {
      ScatterAt(base, Init(records), i);
    }
  }

  /** A later record for an id wins over every earlier one. */
  lemma LastRecordWins(base: seq<int>, records: seq<VertexRecord>, k: nat)
    requires forall j :: 0 <= j < |records| ==> records[j].id < |base|
    requires k < |records|
    requires forall j :: k < j < |records| ==> records[j].id != records[k].id
    ensures Scatter(base, records)[records[k].id] == records[k].value
  {
    LastValueIsLastRecord(records, k);
    ScatterAt(base, records, records[k].id);
  }

  lemma {:induction false} LastValueIsLastRecord(records: seq<VertexRecord>, k: nat)
    requires k < |records|
    requires forall j :: k < j < |records| ==> records[j].id != records[k].id
    ensures LastValueFor(records, records[k].id) == Some(records[k].value)
  {
    if k < |records| - 1 {
      LastValueIsLastRecord(Init(records), k);
    }
  }

  /**
   * The vertex-value store after `load_row_values` as written: resized to
   * the number of records, whatever the vertex count, then each record's
   * value written at its id.
   */
  function RowValuesAfterLoad(v: seq<int>, records: seq<VertexRecord>): (r: seq<int>)
    requires forall k :: 0 <= k < |records| ==> records[k].id < |records|
    ensures |r| == |records|
    ensures forall i :: 0 <= i < |r| ==>
      r[i] == match LastValueFor(records, i)
              case Some(x) => x
              case None => if i < |v| then v[i] else 0
  {
    var base := Resized(v, |records|, 0);
    var r := Scatter(base, records);
    forall i | 0 <= i < |r|
      ensures r[i] == match LastValueFor(records, i)
                     case Some(x) => x
                     case None => if i < |v| then v[i] else 0
    {
      ScatterAt(base, records, i);
    }
    r
  }

  /**
   * The vertex-value store as `load_vertices` documents it: resized to
   * cover both the records and every vertex, then each record's value
   * written at its id. Every id holds its last record's value, or else the
   * value it held before, or 0 for a new slot.
   */
  function RowValuesCovering(v: seq<int>, records: seq<VertexRecord>, vertexCount: nat): (r: seq<int>)
    requires forall k :: 0 <= k < |records| ==> records[k].id < Max(vertexCount, |records|)
    ensures |r| == Max(vertexCount, |records|)
    ensures vertexCount <= |r| && |records| <= |r|
    ensures forall i :: 0 <= i < |r| ==>
      r[i] == match LastValueFor(records, i)
              case Some(x) => x
              case None => if i < |v| then v[i] else 0
  {
    var base := Resized(v, Max(vertexCount, |records|), 0);
    var r := Scatter(base, records);
    forall i | 0 <= i < |r|
      ensures r[i] == match LastValueFor(records, i)
                     case Some(x) => x
                     case None => if i < |v| then v[i] else 0
    {
      ScatterAt(base, records, i);
    }
    r
  }

  /**
   * Loading two vertex records after edges that make three vertices leaves
   * the store at two values, short of vertex 2; loading one record into a
   * store already extended to three vertices shrinks it back to one. The
   * covering load keeps three values in both cases.
   */
  lemma LoadVerticesLeavesStoreShort()
    ensures VertexCountFor([EdgeRecord(0, 1, 10), EdgeRecord(1, 2, 20)], 0) == 3
    ensures |RowValuesAfterLoad(ExtendRowValues([], 3), [VertexRecord(0, 7), VertexRecord(1, 8)])| == 2
    ensures |ExtendRowValues([5], 3)| == 3
    ensures |RowValuesAfterLoad(ExtendRowValues([5], 3), [VertexRecord(0, 9)])| == 1
    ensures |RowValuesCovering(ExtendRowValues([], 3), [VertexRecord(0, 7), VertexRecord(1, 8)], 3)| == 3
    ensures |RowValuesCovering(ExtendRowValues([5], 3), [VertexRecord(0, 9)], 3)| == 3
  {
    var edges := [EdgeRecord(0, 1, 10), EdgeRecord(1, 2, 20)];
    assert Init(edges) == [EdgeRecord(0, 1, 10)];
    assert Init(Init(edges)) == [];
  }
}
