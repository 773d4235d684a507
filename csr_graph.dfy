/**
 * The compressed-sparse-row graph container: `row_index_` (one edge offset
 * per vertex plus a terminating sentinel row), `col_index_` (one target id
 * per edge), the vertex-value store `csr_row_values`, the edge-value store
 * `csr_col_values`, and the graph value of `csr_graph`.
 *
 * A vertex reference (a `csr_row&` or an iterator into `row_index_`) is
 * modelled as its position in `rowIndex`; an edge reference (a `csr_col&`)
 * as its position in `colIndex`. Vectors the source resizes and appends to
 * are `seq` fields that the methods reassign.
 */
module CsrGraph {
  import opened Util
  import opened CsrSpec

  /**
   * `max_vertex_id(erng, eprojection)`: one scan of the edge input
   * returning the largest source or target id and the number of edges.
   */
  method MaxVertexId(edges: seq<EdgeRecord>) returns (maxId: nat, edgeCount: nat)
    ensures maxId == MaxId(edges) && edgeCount == |edges|
    ensures forall k :: 0 <= k < |edges| ==> edges[k].sourceId <= maxId && edges[k].targetId <= maxId
  {
    edgeCount, maxId := 0, 0;
    for i := 0 to |edges|
      invariant edgeCount == i
      invariant maxId == MaxId(edges[..i])
    {
      var uv := edges[i];
      maxId := Max(maxId, Max(uv.sourceId, uv.targetId));
      edgeCount := edgeCount + 1;
      assert Init(edges[..i + 1]) == edges[..i];
    }
    assert edges[..|edges|] == edges;
  }

  /**
   * `last_erng_id(erng, eprojection)`: for a bidirectional input, the
   * larger of the last edge's source and target ids; otherwise 0. It only
   * seeds the vertex count, never exceeding the largest id of the input.
   */
  function LastErngId(edges: seq<EdgeRecord>, bidirectional: bool): (r: nat)
    ensures r <= MaxId(edges)
    ensures bidirectional && edges != [] ==> Last(edges).sourceId <= r && Last(edges).targetId <= r
    ensures bidirectional && edges != [] ==> r == Last(edges).sourceId || r == Last(edges).targetId
    ensures !bidirectional || edges == [] ==> r == 0
  {
    if bidirectional && edges != [] then Max(Last(edges).sourceId, Last(edges).targetId) else 0
  }

  /** `csr_row_values<EV, int, ...>`: the vertex values, indexed by vertex id. */
  class RowValues {
    var v: seq<int>

    constructor ()
      ensures v == []
    {
      v := [];
    }

    function Size(): (n: nat)
      reads this
      ensures n == |v|
    {
      |v|
    }

    /** `resize(n)`: truncates or pads with VV() == 0. */
    method Resize(n: nat)
      modifies this
      ensures v == Resized(old(v), n, 0)
    {
      v := Resized(v, n, 0);
    }

    /** `operator[](pos)`, read side. */
    function At(pos: nat): (x: int)
      reads this
      requires pos < |v|
      ensures x == v[pos]
    {
      v[pos]
    }

    /**
     * `load_row_values(vrng, projection, vertex_count)`: resizes the store
     * to the number of records (the vertex count passed in, and the larger
     * one it computes, take no part in the resize), then writes each
     * record's value at its id. Every id must be below the number of
     * records (asserted by the source).
     */
    method LoadRowValues(records: seq<VertexRecord>, vertexCount: nat)
      requires forall k :: 0 <= k < |records| ==> records[k].id < |records|
      modifies this
      ensures v == RowValuesAfterLoad(old(v), records)
    {
      Resize(|records|);
      WriteRecords(records);
    }

    /**
     * `load_row_values` resizing as `load_vertices` documents: to the larger
     * of the vertex count and the number of records, so that every vertex
     * has a value.
     */
    method LoadRowValuesCovering(records: seq<VertexRecord>, vertexCount: nat)
      requires forall k :: 0 <= k < |records| ==> records[k].id < Max(vertexCount, |records|)
      modifies this
      ensures v == RowValuesCovering(old(v), records, vertexCount)
    {
      Resize(Max(vertexCount, |records|));
      WriteRecords(records);
    }

    /**
     * The write loop of `load_row_values`: each record's value at its id,
     * in input order, so a later record for an id overwrites an earlier one.
     */
    method WriteRecords(records: seq<VertexRecord>)
      requires forall k :: 0 <= k < |records| ==> records[k].id < |v|
      modifies this
      ensures v == Scatter(old(v), records)
    {
      ghost var base := v;
      for i := 0 to |records|
        invariant |v| == |base|
        invariant v == Scatter(base, records[..i])
      {
        var r := records[i];
        assert r.id < Size();
        v := v[r.id := r.value];
        assert Init(records[..i + 1]) == records[..i];
      }
      assert records[..|records|] == records;
    }
  }

  /** `csr_col_values<int, VV, ...>`: the edge values, parallel to `col_index_`. */
  class ColValues {
    var v: seq<int>

    constructor ()
      ensures v == []
    {
      v := [];
    }

    function Size(): (n: nat)
      reads this
      ensures n == |v|
    {
      |v|
    }

    function Empty(): (b: bool)
      reads this
      ensures b <==> Size() == 0
    {
      v == []
    }

    /** `push_back(value)`. */
    method PushBack(x: int)
      modifies this
      ensures v == old(v) + [x]
    {
      v := v + [x];
    }

    /** `operator[](pos)`, read side. */
    function At(pos: nat): (x: int)
      reads this
      requires pos < |v|
      ensures x == v[pos]
    {
      v[pos]
    }
  }

  /** `csr_graph<int, int, int>` together with its base `csr_graph_base`. */
  class CsrGraph {
    var rowIndex: seq<nat>
    var colIndex: seq<nat>
    const rowValues: RowValues
    const colValues: ColValues
    var graphValue: int

    /**
     * The container invariant: one edge value per edge; no rows means no
     * edges; otherwise the offsets start at 0, never decrease and end, at
     * the sentinel row, at the edge count; and every target id names a
     * vertex row (not the sentinel).
     */
    ghost predicate Valid()
      reads this, colValues
    {
      && |colValues.v| == |colIndex|
      && (rowIndex == [] ==> colIndex == [])
      && (rowIndex != [] ==>
            && rowIndex[0] == 0
            && rowIndex[|rowIndex| - 1] == |colIndex|
            && (forall i, j :: 0 <= i <= j < |rowIndex| ==> rowIndex[i] <= rowIndex[j])
            && (forall k :: 0 <= k < |colIndex| ==> colIndex[k] + 1 < |rowIndex|))
    }

    /** `csr_graph(gv)`: an empty graph holding a graph value. */
    constructor (value: int)
      ensures Valid()
      ensures rowIndex == [] && colIndex == [] && rowValues.v == [] && colValues.v == []
      ensures graphValue == value
      ensures fresh(rowValues) && fresh(colValues)
    {
      rowIndex, colIndex := [], [];
      rowValues := new RowValues();
      colValues := new ColValues();
      graphValue := value;
    }

    /** `csr_graph(gv, erng, eprojection)`: `load_edges(erng, eprojection)` into an empty graph. */
    constructor FromEdges(value: int, edges: seq<EdgeRecord>, bidirectional: bool)
      requires SourceSorted(edges) && FitsVertexId(edges)
      ensures Valid()
      ensures rowIndex == RowIndexFor(edges, 0)
      ensures colIndex == TargetIds(edges) && colValues.v == EdgeValues(edges)
      ensures rowValues.v == []
      ensures graphValue == value
      ensures fresh(rowValues) && fresh(colValues)
    {
      rowIndex, colIndex := [], [];
      rowValues := new RowValues();
      colValues := new ColValues();
      graphValue := value;
      new;
      LoadEdges(edges, 0, bidirectional);
    }

    /** `csr_graph(gv, erng, vrng, eprojection, vprojection)`: `load(erng, vrng, ...)` into an empty graph. */
    constructor FromEdgesAndVertices(value: int, edges: seq<EdgeRecord>, vertices: seq<VertexRecord>, bidirectional: bool)
      requires SourceSorted(edges) && FitsVertexId(edges)
      requires forall k :: 0 <= k < |vertices| ==> vertices[k].id < |vertices|
      ensures Valid()
      ensures rowIndex == RowIndexFor(edges, 0)
      ensures colIndex == TargetIds(edges) && colValues.v == EdgeValues(edges)
      ensures rowValues.v == RowValuesAfterLoad([], vertices)
      ensures graphValue == value
      ensures fresh(rowValues) && fresh(colValues)
    {
      rowIndex, colIndex := [], [];
      rowValues := new RowValues();
      colValues := new ColValues();
      graphValue := value;
      new;
      Load(edges, vertices, bidirectional);
    }

    /** size(vertices(g)): the number of rows without the sentinel. */
    function VertexCount(): (n: nat)
      reads this
      ensures rowIndex != [] ==> n + 1 == |rowIndex|
    {
      if rowIndex == [] then 0 else |rowIndex| - 1
    }

    /**
     * `vertices(g)`: the row entries without the terminating sentinel row;
     * empty when nothing was loaded.
     */
    function Vertices(): (r: seq<nat>)
      reads this
      ensures |r| == VertexCount()
      ensures rowIndex != [] ==> |r| + 1 == |rowIndex|
      ensures forall u :: 0 <= u < |r| ==> r[u] == rowIndex[u]
    {
      if rowIndex == [] then [] else rowIndex[..|rowIndex| - 1]
    }

    /**
     * The vertex references that iterating `vertices(g)` hands out: the
     * positions of its rows, in order. Each one is a row that `vertex_id`,
     * `index_of` and `vertex_value` accept, and its row is the vertex's
     * entry of `vertices(g)`.
     */
    function VertexRefs(): (r: seq<nat>)
      reads this
      ensures |r| == VertexCount()
      ensures forall u :: 0 <= u < |r| ==> r[u] == FindVertex(u) && VertexId(r[u]) == u
      ensures forall u :: 0 <= u < |r| ==> r[u] < |rowIndex| && rowIndex[r[u]] == Vertices()[u]
    {
      seq(VertexCount(), u requires 0 <= u => u)
    }

    /**
     * `vertex_id(g, ui)`: the distance of a row position from the first
     * row. For a position inside `vertices(g)` it is the number of vertices
     * before it, and the vertex with that id is the row at the position.
     */
    function VertexId(ui: nat): (id: nat)
      reads this
      ensures ui <= VertexCount() ==> id == |Vertices()[..ui]|
      ensures ui < VertexCount() ==> id < VertexCount() && Vertices()[id] == rowIndex[ui]
    {
      ui
    }

    /** `find_vertex(id)`: the row position `row_index_.begin() + id`. */
    function FindVertex(id: nat): (ui: nat)
      reads this
      ensures VertexId(ui) == id
    {
      id
    }

    /** `index_of(const row_type& u)`: a row's offset from `row_index_.data()`, the same as its vertex id. */
    function IndexOfRow(ui: nat): (idx: nat)
      reads this
      ensures idx == VertexId(ui) && FindVertex(idx) == ui
    {
      ui
    }

    /** `index_of(const col_type& uv)`: an edge's offset from `col_index_.data()`, which indexes its value. */
    function IndexOfEdge(uv: nat): (idx: nat)
      reads this, colValues
      requires Valid() && uv < |colIndex|
      ensures idx < |colIndex| && idx < colValues.Size()
    {
      uv
    }

    /**
     * `edges(g, uid)`: the edge positions `[row_index_[uid], row_index_[uid+1])`.
     * The source asserts that uid + 1 is a row.
     */
    function Edges(uid: nat): (r: seq<nat>)
      reads this, colValues
      requires Valid() && uid + 1 < |rowIndex|
      ensures |r| == rowIndex[uid + 1] - rowIndex[uid]
      ensures forall k :: 0 <= k < |r| ==> r[k] < |colIndex|
      ensures forall k :: 0 <= k < |r| ==> r[k] == rowIndex[uid] + k
    {
      var lo, hi := rowIndex[uid], rowIndex[uid + 1];
      assert lo <= hi <= |colIndex|;
      seq(hi - lo, k requires 0 <= k < hi - lo => lo + k)
    }

    /** `target_id(g, uv)`: the target id stored for the edge; always a vertex of the graph. */
    function TargetId(uv: nat): (vid: nat)
      reads this, colValues
      requires Valid() && uv < |colIndex|
      ensures vid < VertexCount()
    {
      colIndex[uv]
    }

    /** `target(g, uv)`: the row of the target, `row_index_[target_id]`; a vertex row, not the sentinel. */
    function Target(uv: nat): (vi: nat)
      reads this, colValues
      requires Valid() && uv < |colIndex|
      ensures vi < VertexCount() && VertexId(vi) == TargetId(uv)
    {
      FindVertex(colIndex[uv])
    }

    /** `edge_value(g, uv)`: the value stored at the edge's own position. */
    function EdgeValue(uv: nat): (x: int)
      reads this, colValues
      requires Valid() && uv < |colIndex|
      ensures x == colValues.v[uv]
    {
      colValues.At(IndexOfEdge(uv))
    }

    /** `vertex_value(g, u)`: the value stored at the row's index; the store must cover it. */
    function VertexValue(ui: nat): (x: int)
      reads this, rowValues
      requires IndexOfRow(ui) < rowValues.Size()
      ensures x == rowValues.v[ui]
    {
      rowValues.At(IndexOfRow(ui))
    }

    /**
     * What a caller reads back for vertex uid by walking `edges(g, uid)`
     * with `target_id` and `edge_value`: one record per edge of the row.
     */
    function OutEdges(uid: nat): (r: seq<EdgeRecord>)
      reads this, colValues
      requires Valid() && uid + 1 < |rowIndex|
      ensures |r| == |Edges(uid)|
      ensures forall k :: 0 <= k < |r| ==> r[k].sourceId == uid && r[k].targetId < VertexCount()
    {
      var es := Edges(uid);
      seq(|es|, k requires 0 <= k < |es| && Valid() && es[k] < |colIndex| reads this, colValues =>
        EdgeRecord(uid, TargetId(es[k]), EdgeValue(es[k])))
    }

    /**
     * `load_edges(erng, eprojection, vertex_count)` (the const& overload)
     * into an empty graph. The input must be sorted by source id (asserted
     * per edge by the source). Each edge appends its target to `col_index_`
     * and its value to the edge-value store; rows are added up to each
     * source id with the current edge count as offset; at the end rows are
     * added up to the vertex count, plus the sentinel. A non-empty but
     * short vertex-value store is extended to the vertex count. An empty
     * input changes nothing.
     */
    method LoadEdges(edges: seq<EdgeRecord>, hint: nat, bidirectional: bool)
      requires Valid()
      requires rowIndex == [] && colIndex == [] && colValues.Empty()
      requires SourceSorted(edges) && FitsVertexId(edges)
      modifies this`rowIndex, this`colIndex, rowValues, colValues
      ensures Valid()
      ensures edges == [] ==>
        rowIndex == [] && colIndex == [] && colValues.v == [] && rowValues.v == old(rowValues.v)
      ensures rowIndex == RowIndexFor(edges, hint)
      ensures colIndex == TargetIds(edges) && colValues.v == EdgeValues(edges)
      ensures VertexCount() == VertexCountFor(edges, hint)
      ensures rowValues.v == ExtendRowValues(old(rowValues.v), VertexCountFor(edges, hint))
      ensures forall uid: nat :: uid < VertexCount() ==> OutEdges(uid) == Outgoing(edges, uid)
    {
      if edges == [] {
        return;
      }
      var vertexCount := Max(hint, LastErngId(edges, bidirectional) + 1);

      var lastUid, maxVid := AddEdges(edges);

      vertexCount := Max(vertexCount, Max(|rowIndex|, maxVid + 1));
      ghost var loopRows := rowIndex;
      rowIndex := Resized(rowIndex, vertexCount + 1, colValues.Size());
      LoadTail(edges, hint, bidirectional, loopRows, maxVid, vertexCount, rowIndex);

      if rowValues.Size() > 0 && rowValues.Size() < vertexCount {
        rowValues.Resize(vertexCount);
      }

      LoadedGraphRoundTrip(this, edges, hint);
    }

    /**
     * The edge loop of `load_edges`: for each edge in order, rows are added
     * up to its source id with the current edge count as offset, its target
     * is appended to `col_index_` and its value to the edge-value store.
     * Returns the last source id and the largest target id seen.
     */
    method AddEdges(edges: seq<EdgeRecord>) returns (lastUid: nat, maxVid: nat)
      requires rowIndex == [] && colIndex == [] && colValues.v == []
      requires SourceSorted(edges) && edges != []
      modifies this`rowIndex, this`colIndex, colValues
      ensures rowIndex == RowsAfter(edges, |edges|)
      ensures colIndex == TargetIds(edges) && colValues.v == EdgeValues(edges)
      ensures lastUid == Last(edges).sourceId && maxVid == MaxTarget(edges)
    {
      lastUid, maxVid := 0, 0;
      for i := 0 to |edges|
        invariant rowIndex == RowsAfter(edges, i)
        invariant colIndex == TargetIds(edges[..i]) && colValues.v == EdgeValues(edges[..i])
        invariant lastUid == if i == 0 then 0 else edges[i - 1].sourceId
        invariant maxVid == MaxTarget(edges[..i])
      {
        var edge := edges[i];
        assert edge.sourceId >= lastUid;
        LoadStep(edges, i);
        rowIndex := Resized(rowIndex, edge.sourceId + 1, colValues.Size());
        colIndex := colIndex + [edge.targetId];
        colValues.PushBack(edge.value);
        lastUid := edge.sourceId;
        maxVid := Max(maxVid, edge.targetId);
      }
      assert edges[..|edges|] == edges;
    }

    /**
     * `load_vertices(vrng, vprojection, vertex_count)`: `load_row_values`
     * with the larger of the hint and the number of records. The store ends
     * with exactly one value per record, whatever the vertex count.
     */
    method LoadVertices(records: seq<VertexRecord>, hint: nat)
      requires forall k :: 0 <= k < |records| ==> records[k].id < |records|
      modifies rowValues
      ensures rowValues.v == RowValuesAfterLoad(old(rowValues.v), records)
    {
      rowValues.LoadRowValues(records, Max(hint, |records|));
    }

    /**
     * `load_vertices` as its documentation describes it: after `load_edges`
     * the store is extended to cover every vertex, and it is never cut
     * below the vertex count.
     */
    method LoadVerticesCovering(records: seq<VertexRecord>, hint: nat)
      requires forall k :: 0 <= k < |records| ==> records[k].id < Max(Max(hint, VertexCount()), |records|)
      modifies rowValues
      ensures rowValues.v == RowValuesCovering(old(rowValues.v), records, Max(hint, VertexCount()))
      ensures VertexCount() <= |rowValues.v|
    {
      rowValues.LoadRowValuesCovering(records, Max(hint, VertexCount()));
    }

    /** `load(erng, vrng, eprojection, vprojection)`: `load_edges` then `load_vertices`. */
    method Load(edges: seq<EdgeRecord>, records: seq<VertexRecord>, bidirectional: bool)
      requires Valid()
      requires rowIndex == [] && colIndex == [] && colValues.Empty()
      requires SourceSorted(edges) && FitsVertexId(edges)
      requires forall k :: 0 <= k < |records| ==> records[k].id < |records|
      modifies this`rowIndex, this`colIndex, rowValues, colValues
      ensures Valid()
      ensures rowIndex == RowIndexFor(edges, 0)
      ensures colIndex == TargetIds(edges) && colValues.v == EdgeValues(edges)
      ensures rowValues.v == RowValuesAfterLoad(ExtendRowValues(old(rowValues.v), VertexCountFor(edges, 0)), records)
      ensures forall uid: nat :: uid < VertexCount() ==> OutEdges(uid) == Outgoing(edges, uid)
    {
      LoadEdges(edges, 0, bidirectional);
      LoadVertices(records, 0);
    }

    /**
     * `load` with the covering `load_vertices`: the same edges, and a
     * vertex value for every vertex, so `vertex_value` is defined on every
     * row of `vertices(g)`.
     */
    method LoadCovering(edges: seq<EdgeRecord>, records: seq<VertexRecord>, bidirectional: bool)
      requires Valid()
      requires rowIndex == [] && colIndex == [] && colValues.Empty()
      requires SourceSorted(edges) && FitsVertexId(edges)
      requires forall k :: 0 <= k < |records| ==> records[k].id < Max(VertexCountFor(edges, 0), |records|)
      modifies this`rowIndex, this`colIndex, rowValues, colValues
      ensures Valid()
      ensures rowIndex == RowIndexFor(edges, 0)
      ensures colIndex == TargetIds(edges) && colValues.v == EdgeValues(edges)
      ensures rowValues.v ==
        RowValuesCovering(ExtendRowValues(old(rowValues.v), VertexCountFor(edges, 0)), records, VertexCountFor(edges, 0))
      ensures forall ui :: 0 <= ui < VertexCount() ==> IndexOfRow(ui) < rowValues.Size()
      ensures forall uid: nat :: uid < VertexCount() ==> OutEdges(uid) == Outgoing(edges, uid)
    {
      LoadEdges(edges, 0, bidirectional);
      LoadVerticesCovering(records, 0);
    }
  }

  /**
   * The rows `load_edges` has added after its first i edges: one per id up
   * to the last source id seen, each holding the count of earlier-source
   * edges among those i.
   */
  ghost function RowsAfter(edges: seq<EdgeRecord>, i: nat): (r: seq<nat>)
    requires i <= |edges|
  {
    if i == 0 then [] else seq(edges[i - 1].sourceId + 1, u requires u >= 0 => CountBelow(edges[..i], u))
  }

  /** One iteration of `load_edges`' loop moves every piece of state from edge prefix i to prefix i + 1. */
  lemma LoadStep(edges: seq<EdgeRecord>, i: nat)
    requires SourceSorted(edges) && i < |edges|
    ensures Resized(RowsAfter(edges, i), edges[i].sourceId + 1, i) == RowsAfter(edges, i + 1)
    ensures TargetIds(edges[..i + 1]) == TargetIds(edges[..i]) + [edges[i].targetId]
    ensures EdgeValues(edges[..i + 1]) == EdgeValues(edges[..i]) + [edges[i].value]
    ensures MaxTarget(edges[..i + 1]) == Max(MaxTarget(edges[..i]), edges[i].targetId)
  {
    var e := edges[i];
    var before, after := RowsAfter(edges, i), RowsAfter(edges, i + 1);
    var grown := Resized(before, e.sourceId + 1, i);
    assert edges[..i + 1] == edges[..i] + [e];
    assert Init(edges[..i + 1]) == edges[..i];
    forall u | 0 <= u < |grown| ensures grown[u] == after[u] {
      CountBelowAppend(edges[..i], e, u);
      if u >= |before| {
        forall k | 0 <= k < i ensures edges[..i][k].sourceId < u {
          assert edges[k].sourceId <= edges[i - 1].sourceId;
        }
        CountBelowAll(edges[..i], u);
      }
    }
  }

  /**
   * After `load_edges`' loop: the vertex count it computes is the one the
   * load establishes, and padding the rows up to it plus the sentinel with
   * the edge count yields the full row index.
   */
  lemma LoadTail(edges: seq<EdgeRecord>, hint: nat, bidirectional: bool, loopRows: seq<nat>,
                 maxVid: nat, vertexCount: nat, rows: seq<nat>)
    requires SourceSorted(edges) && edges != []
    requires loopRows == RowsAfter(edges, |edges|)
    requires maxVid == MaxTarget(edges)
    requires vertexCount == Max(Max(hint, LastErngId(edges, bidirectional) + 1), Max(|loopRows|, maxVid + 1))
    requires rows == Resized(loopRows, vertexCount + 1, |edges|)
    ensures vertexCount == VertexCountFor(edges, hint)
    ensures rows == RowIndexFor(edges, hint)
  {
    assert Last(edges).targetId <= maxVid;
    assert edges[..|edges|] == edges;
    forall u | |loopRows| <= u <= vertexCount
      ensures rows[u] == CountBelow(edges, u)
    {
      forall k | 0 <= k < |edges| ensures edges[k].sourceId < u {
        assert edges[k].sourceId <= Last(edges).sourceId;
      }
      CountBelowAll(edges, u);
    }
  }

  /**
   * A graph holding what a load of sorted, non-empty `edges` builds is
   * valid, and every vertex reads back exactly its own edges.
   */
  lemma LoadedGraphRoundTrip(g: CsrGraph, edges: seq<EdgeRecord>, hint: nat)
    requires SourceSorted(edges) && edges != []
    requires g.rowIndex == RowIndexFor(edges, hint)
    requires g.colIndex == TargetIds(edges) && g.colValues.v == EdgeValues(edges)
    ensures g.Valid()
    ensures g.VertexCount() == VertexCountFor(edges, hint)
    ensures forall uid: nat :: uid < g.VertexCount() ==> g.OutEdges(uid) == Outgoing(edges, uid)
  {
    RowIndexShape(edges, hint);
    forall uid: nat | uid < g.VertexCount()
      ensures g.OutEdges(uid) == Outgoing(edges, uid)
    {
      LoadedRowRoundTrip(g, edges, hint, uid);
    }
  }

  /**
   * For a graph holding what a load of sorted `edges` builds, the edges
   * read back for vertex uid are exactly the records given for source uid,
   * in input order.
   */
  lemma LoadedRowRoundTrip(g: CsrGraph, edges: seq<EdgeRecord>, hint: nat, uid: nat)
    requires SourceSorted(edges) && g.Valid()
    requires g.rowIndex == RowIndexFor(edges, hint)
    requires g.colIndex == TargetIds(edges) && g.colValues.v == EdgeValues(edges)
    requires uid < g.VertexCount()
    ensures g.OutEdges(uid) == Outgoing(edges, uid)
  {
    OutgoingIsRowSlice(edges, uid);
    var lo, hi := CountBelow(edges, uid), CountBelow(edges, uid + 1);
    var out := g.OutEdges(uid);
    var want := Outgoing(edges, uid);
    assert want == edges[lo..hi];
    assert |out| == hi - lo;
    assert g.rowIndex[uid] == lo && g.rowIndex[uid + 1] == hi;
    forall k | 0 <= k < |out| ensures out[k] == want[k] {
      assert g.Edges(uid)[k] == lo + k;
      assert want[k] == edges[lo + k] && want[k].sourceId == uid;
    }
  }
}
