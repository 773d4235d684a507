# CSR graph container and vertex-list view, modelled in Dafny

This project models two parts of the graph-v2 library.

The first is the compressed-sparse-row container `csr_graph`. It holds:

- `row_index_`: one edge offset per vertex, plus a terminating sentinel row;
- `col_index_`: one target id per edge;
- `csr_row_values`: the vertex values;
- `csr_col_values`: the edge values;
- the graph value of `csr_graph`.

The model covers the bulk loaders `load_edges`, `load_vertices`/`load_row_values` and `load`, the scan `max_vertex_id`, and the index-arithmetic accessors (`vertices`, `vertex_id`, `find_vertex`, `index_of`, `edges`, `target_id`, `target`, `edge_value`, `vertex_value`).

The second is `vertexlist_view`. Its iterator walks the vertex range of a graph. It yields the running vertex id paired with the vertex at the current position.

One configuration is modelled: edge values, vertex values and the graph value are all `int`. Ids are `nat`. Inputs must fit the default 32-bit id type (`CsrSpec.FitsVertexId`).

Files:

- `util.dfy` (module `Util`): `Max`, `Init`/`Last`, and `Resized`, which is `std::vector::resize`.
- `csr_spec.dfy` (module `CsrSpec`): the edge and vertex records, and the value-level specification of a load as functions of the input.
  - `RowIndexFor`, `TargetIds`, `EdgeValues`, `VertexCountFor`, `ExtendRowValues` and `Scatter` give the stores' contents.
  - `Outgoing` gives the records given for a source.
  - The lemmas give these functions their meaning.
- `csr_graph.dfy` (module `CsrGraph`): the classes `RowValues`, `ColValues` and `CsrGraph`, and the free function `max_vertex_id`.
  - The loaders are loop-based methods proved against `CsrSpec`.
  - `Valid()` is the container invariant.
- `vertexlist_view.dfy` (module `VertexListView`): the iterator class, the three view builders, a range-for loop over a view (`Walk`), and its specification `Enumerate`.

Vertex and edge references (`csr_row&`, `csr_col&`, iterators into `row_index_`) are modelled as positions in `rowIndex` / `colIndex`. The vertex-list views over a CSR graph walk `VertexRefs()`, the positions of the rows of `vertices(g)`. So the vertex in each yielded pair is such a position, which `vertex_id`, `index_of` and `vertex_value` accept, and the row's offset is `rowIndex` at that position. The view's underlying vertex iterator is a position in that range.

Two behaviours of the code are easy to misread; the model follows the code:

- An empty edge input returns before the vertex-count hint is used, so the graph stays empty whatever the hint (`include/graph/container/csr_graph.hpp:531-533`).
- `load_row_values` resizes the store to the number of records. The larger vertex count it computes first is never used (`include/graph/container/csr_graph.hpp:145-148`). This breaks the promise of the `load_vertices` documentation; see "## Findings".

## Model

| member | source | states |
|---|---|---|
| CsrGraph.MaxVertexId | include/graph/container/csr_graph.hpp:39-50 | returns the largest source or target id of the input (`MaxId`, bounding every id and attained by one) and the number of edges scanned |
| CsrGraph.LastErngId | include/graph/container/csr_graph.hpp:647-659 | for a bidirectional non-empty input, exactly the larger of the last edge's source and target ids (it is one of them and at least both); 0 otherwise; never more than the largest id of the input |
| CsrSpec.MaxId | include/graph/container/csr_graph.hpp:46 | bounds every source and target id, is attained by some edge, and is 0 for no edges |
| CsrSpec.MaxTarget | include/graph/container/csr_graph.hpp:558 | bounds every target id, is the target id of some edge when there are edges, and is 0 for no edges |
| CsrSpec.VertexCountFor | include/graph/container/csr_graph.hpp:538-539 | the vertex count of a load is 0 exactly when there are no edges; otherwise at least the hint, above every target id, and on sorted input above every source id |
| CsrSpec.CountBelow | include/graph/container/csr_graph.hpp:552-553 | a row offset, the number of edges of smaller source id, never exceeds the edge count |
| CsrSpec.CountBelowAll | include/graph/container/csr_graph.hpp:565-566 | the offset of a row past every source id is the edge count, so the trailing rows and the sentinel hold it |
| CsrSpec.CountBelowZero | include/graph/container/csr_graph.hpp:552-553 | row 0 starts at offset 0 |
| CsrSpec.CountBelowMonotone | include/graph/container/csr_graph.hpp:552-553 | row offsets never decrease |
| CsrSpec.Outgoing | include/graph/container/csr_graph.hpp:549-559 | the edges given for one source: no more than the input, each with that source id |
| CsrSpec.OutgoingIsRowSlice | include/graph/container/csr_graph.hpp:724-729 | on source-sorted input the edges between row u's offset and row u+1's offset are exactly the edges given for u, in input order |
| CsrSpec.RowEmptyIffNoEdges | include/graph/container/csr_graph.hpp:552-553 | a row (skipped or target-only) has an empty range exactly when no edge was given for its source |
| CsrSpec.AllRowsPrefix | include/graph/container/csr_graph.hpp:549-559 | the first n rows laid end to end are the input prefix of edges with source below n |
| CsrSpec.AllRowsRoundTrip | include/graph/container/csr_graph.hpp:549-566 | reading every vertex's row in id order gives back the whole input: no edge lost, duplicated or reordered |
| CsrSpec.RowIndexShape | include/graph/container/csr_graph.hpp:562-566 | after a non-empty load the row index has vertex count + 1 entries, starts at 0, never decreases, and its sentinel equals the edge count |
| CsrSpec.ExtendRowValues | include/graph/container/csr_graph.hpp:624-625 | the vertex-value store never shrinks, keeps every existing value, pads with 0; its new size is 0 when it was empty and otherwise the larger of its old size and the vertex count |
| CsrSpec.ExtendRowValuesForwarding | include/graph/container/csr_graph.hpp:571-572 | the forwarding (`ERng&&`) overload's step as written, the one taken for rvalue and non-const lvalue ranges: never shrinks, keeps every existing value, pads with 0; a store of at most one value keeps its size for every vertex count, any other grows to the larger of its size and the vertex count |
| CsrSpec.ForwardingAgreesExceptSizeOne | include/graph/container/csr_graph.hpp:571-572 | for every store size other than 1 the forwarding overload's step gives the same store as the const& overload's step at lines 624-625 |
| CsrSpec.ForwardingOverloadLeavesStoreShort | include/graph/container/csr_graph.hpp:571-572 | a one-value store with vertex count 3 stays at size 1 under the forwarding overload but grows to 3 under the const& one |
| CsrSpec.Scatter | include/graph/container/csr_graph.hpp:150-158 | writing the records' values at their ids keeps the store's size |
| CsrSpec.ScatterAt | include/graph/container/csr_graph.hpp:150-158 | after the writes, the value at id i is that of the last record for i, or the old value when no record names i |
| CsrSpec.LastValueFor | include/graph/container/csr_graph.hpp:150-158 | the value the writes leave at id i is absent exactly when no record names i |
| CsrSpec.LastRecordWins | include/graph/container/csr_graph.hpp:157 | a record not followed by another for the same id leaves its value at that id |
| CsrSpec.RowValuesAfterLoad | include/graph/container/csr_graph.hpp:145-158 | the store after `load_row_values` as written has exactly one value per record, whatever the vertex count; each id holds its last record's value, else its old value, else 0 |
| CsrSpec.RowValuesCovering | include/graph/container/csr_graph.hpp:461-467 | the store as documented covers every vertex and every record, and each id holds its last record's value, else its old value, else 0 |
| CsrSpec.LoadVerticesLeavesStoreShort | include/graph/container/csr_graph.hpp:474 | edges making 3 vertices then 2 vertex records leave 2 values; 1 record after a store extended to 3 shrinks it to 1; the covering load keeps 3 in both |
| CsrSpec.LastValueIsLastRecord | include/graph/container/csr_graph.hpp:150-158 | the last record for an id is the one whose value is kept |
| CsrGraph.RowValues.Size | include/graph/container/csr_graph.hpp:129 | the number of stored vertex values |
| CsrGraph.RowValues.Resize | include/graph/container/csr_graph.hpp:135 | the store becomes `vector::resize` of the old store, padding with 0 |
| CsrGraph.RowValues.At | include/graph/container/csr_graph.hpp:180-181 | the value at a position inside the store |
| CsrGraph.RowValues.LoadRowValues | include/graph/container/csr_graph.hpp:145-158 | as written: requires every id below the number of records; the store ends with exactly that many values, each record's value written at its id in input order over the resized old store |
| CsrGraph.RowValues.LoadRowValuesCovering | include/graph/container/csr_graph.hpp:461-467 | as documented: the store is resized to the larger of the vertex count and the record count, then the records are written, so every vertex keeps a value |
| CsrGraph.RowValues.WriteRecords | include/graph/container/csr_graph.hpp:150-158 | the write loop leaves the store `Scatter` of the old store and the records: each record's value at its id, in input order |
| CsrGraph.ColValues.Size | include/graph/container/csr_graph.hpp:272 | the number of stored edge values |
| CsrGraph.ColValues.Empty | include/graph/container/csr_graph.hpp:273 | empty exactly when the size is 0 |
| CsrGraph.ColValues.PushBack | include/graph/container/csr_graph.hpp:281 | appends one value at the end |
| CsrGraph.ColValues.At | include/graph/container/csr_graph.hpp:287-288 | the value at a position inside the store |
| CsrGraph.CsrGraph.constructor | include/graph/container/csr_graph.hpp:796-797 | an empty, valid graph holding the given graph value |
| CsrGraph.CsrGraph.FromEdges | include/graph/container/csr_graph.hpp:397-403 | a valid graph holding exactly what `load_edges` builds from the input |
| CsrGraph.CsrGraph.FromEdgesAndVertices | include/graph/container/csr_graph.hpp:417-428 | a valid graph holding what `load` builds from the edge and vertex inputs |
| CsrGraph.CsrGraph.Vertices | include/graph/container/csr_graph.hpp:687-698 | the rows without the sentinel; empty when nothing was loaded |
| CsrGraph.CsrGraph.VertexRefs | include/graph/container/csr_graph.hpp:687-698 | the references to the rows of `vertices(g)`, one per vertex in order: the u-th is `find_vertex(u)`, its `vertex_id` is u, and its row is the u-th entry of `vertices(g)` |
| CsrGraph.CsrGraph.VertexId | include/graph/container/csr_graph.hpp:700-703 | for a row inside `vertices(g)`, the number of vertices before it, and the vertex with that id is that row |
| CsrGraph.CsrGraph.FindVertex | include/graph/container/csr_graph.hpp:662-667 | the row found for an id has that id as its vertex id |
| CsrGraph.CsrGraph.IndexOfRow | include/graph/container/csr_graph.hpp:669-671 | a row's index equals its vertex id, and finding that id gives the row back |
| CsrGraph.CsrGraph.IndexOfEdge | include/graph/container/csr_graph.hpp:672-674 | an edge's index addresses both its target and its value |
| CsrGraph.CsrGraph.Edges | include/graph/container/csr_graph.hpp:723-736 | the edge positions from row uid's offset up to row uid+1's offset, each a valid edge |
| CsrGraph.CsrGraph.TargetId | include/graph/container/csr_graph.hpp:740-743 | the stored target id, always a vertex of the graph |
| CsrGraph.CsrGraph.Target | include/graph/container/csr_graph.hpp:744-751 | the target's row, a vertex row and not the sentinel, whose id is the target id |
| CsrGraph.CsrGraph.EdgeValue | include/graph/container/csr_graph.hpp:292-303 | the value stored at the edge's own index |
| CsrGraph.CsrGraph.VertexValue | include/graph/container/csr_graph.hpp:184-197 | the value stored at the row's index |
| CsrGraph.CsrGraph.OutEdges | include/graph/container/csr_graph.hpp:723-751 | walking `edges(g, uid)` with `target_id` and `edge_value` gives one record per edge, each with source uid and a target that is a vertex |
| CsrGraph.CsrGraph.LoadEdges | include/graph/container/csr_graph.hpp:579-626 | requires an empty graph, sorted input and ids that fit; an empty input changes nothing; otherwise the graph stays valid, rows, targets and edge values are those of the specification, the vertex count is `max(hint, last_erng_id+1, last source+1, max target+1)`, the vertex-value store is extended, and each vertex reads back exactly its input edges in order |
| CsrGraph.CsrGraph.AddEdges | include/graph/container/csr_graph.hpp:600-612 | the edge loop leaves the rows up to the last source, every target and value in input order, the last source id and the largest target id |
| CsrGraph.CsrGraph.LoadVertices | include/graph/container/csr_graph.hpp:473-475 | as written: the vertex values become the records' values scattered over the store resized to the record count |
| CsrGraph.CsrGraph.LoadVerticesCovering | include/graph/container/csr_graph.hpp:461-475 | as documented: passes the larger of the hint and `row_index_.size() - 1`, so the store covers every vertex of the graph, with the records' values scattered over it |
| CsrGraph.CsrGraph.Load | include/graph/container/csr_graph.hpp:641-644 | `load_edges` then `load_vertices`: the rows, targets and edge values of the specification, and the vertex values scattered over the extended, then resized, store |
| CsrGraph.CsrGraph.LoadCovering | include/graph/container/csr_graph.hpp:641-644 | `load_edges` then the covering `load_vertices`: the same rows, targets and edge values, and every vertex of the graph has a vertex value |
| CsrGraph.LoadStep | include/graph/container/csr_graph.hpp:602-612 | one loop iteration moves the rows, targets, values and largest target from input prefix i to prefix i+1 |
| CsrGraph.LoadTail | include/graph/container/csr_graph.hpp:614-619 | the vertex count computed after the loop is the one the load establishes, and padding the rows with the edge count yields the whole row index |
| CsrGraph.LoadedGraphRoundTrip | include/graph/container/csr_graph.hpp:579-626 | a graph holding a load's result is valid, and every vertex reads back exactly its own input edges |
| CsrGraph.LoadedRowRoundTrip | include/graph/container/csr_graph.hpp:723-751 | the edges read back for vertex uid are the records given for source uid, in input order |
| VertexListView.VertexListIterator.constructor | include/graph/views/vertexlist_view.hpp:110-111 | an iterator at the given position whose first id is `start_at` |
| VertexListView.VertexListIterator.Deref | include/graph/views/vertexlist_view.hpp:122-125 | yields the current id with the vertex at the current position, changing neither |
| VertexListView.VertexListIterator.Increment | include/graph/views/vertexlist_view.hpp:127-132 | advances the position by one and the id by one |
| VertexListView.VertexListIterator.Equals | include/graph/views/vertexlist_view.hpp:139 | two iterators are equal exactly when their positions are, whatever their ids |
| VertexListView.VertexListIterator.AtSentinel | include/graph/views/vertexlist_view.hpp:146-148 | an iterator equals the sentinel exactly when its position is the sentinel's |
| VertexListView.Enumerate | include/graph/views/vertexlist_view.hpp:122-132 | the view `[first, last)` yields one pair per position |
| VertexListView.EnumerateAt | include/graph/views/vertexlist_view.hpp:122-132 | the k-th pair of a view is `(s + k, V[first + k])` |
| VertexListView.SubrangeIdsAgree | include/graph/views/vertexlist_view.hpp:44-60 | a sub-range view with its default start id gives each vertex the same id as the whole-graph view |
| VertexListView.StartAtShiftsIds | include/graph/views/vertexlist_view.hpp:65-82 | changing `start_at` shifts every id by the same amount and leaves the vertices unchanged |
| VertexListView.GraphView | include/graph/views/vertexlist_view.hpp:19-39 | the whole-graph view starts at the first vertex with id 0 and ends at the end of `vertices(g)` |
| VertexListView.SubrangeView | include/graph/views/vertexlist_view.hpp:42-60 | a sub-range view's first id is `first - begin(vertices(g))` |
| VertexListView.SubrangeViewFrom | include/graph/views/vertexlist_view.hpp:63-82 | a sub-range view with `start_at` starts at that id whatever its position |
| VertexListView.Walk | include/graph/views/vertexlist_view.hpp:122-148 | a range-for over a view yields exactly `Enumerate` of its range and start id, and stops at the sentinel |
| VertexListView.EnumerateGraphVertices | include/graph/views/vertexlist_view.hpp:19-39 | a fresh whole-graph view yields `(u, find_vertex(u))` for every vertex u, one pair per vertex, the same on every call; `vertex_id` of each yielded vertex is its id, and its row is the u-th entry of `vertices(g)` |
| VertexListView.EnumerateGraphSubrange | include/graph/views/vertexlist_view.hpp:42-60 | a fresh sub-range view yields `(first + k, find_vertex(first + k))` for each k below `last - first`, so each yielded id is the `vertex_id` of its vertex |
| VertexListView.EnumerateGraphSubrangeFrom | include/graph/views/vertexlist_view.hpp:63-82 | a fresh sub-range view with `start_at` yields `(start_at + k, find_vertex(first + k))` for each k below `last - first`, so each id differs from its vertex's `vertex_id` by `start_at - first` |

## Left out

- Allocators, `reserve_vertices`, `reserve_edges`, `resize_edges` (which only reserves) and `capacity`: these only tune storage and change no contents.
- The `edge_count` hint of `load_edges`: it only sizes a reservation.
- `resize_vertices`: it calls `row_values_resize`, which is declared nowhere, so it cannot be instantiated.
- The `tag_invoke` dispatch and the projection functions: projections are taken to be the identity on `EdgeRecord` / `VertexRecord`.
- The `void` value-type specialisations of `csr_row_values` and `csr_col_values`. With a `void` edge value the fill offset would be the always-0 size of the value store, which is why the model fixes `int` values.
- The `csr_graph` specialisation without a graph value, and `graph_value(g)`, which returns the `graphValue` field as it is.
- The initializer-list constructor: it is `FromEdges` on a list.
- The forwarding (`ERng&&`) overload of `load_edges` is not modelled as a separate method. Overload resolution picks it for rvalue ranges and for non-const lvalue ranges. It differs from the const& overload only by moving values and by its `size() > 1` test, which is modelled by `CsrSpec.ExtendRowValuesForwarding`.
- The `edges(g, u)` overload taking a vertex reference: with references as positions it is `Edges` of that position. Its bounds assertion (`u2 - &u` is always 1) is not modelled.
- `operator[](id)` of the graph: it is the row `rowIndex[id]`, read directly.
- `LoadEdges`: does not model 32-bit wrap-around of ids and offsets, because `FitsVertexId` requires every id plus one and the edge count to fit `uint32_t`.
- `last_erng_id` tells bidirectional inputs from forward-only ones through the range's type. Here that is a boolean parameter.
- The iterators' `reinterpret_cast` of the shadow pair and the write through the `mutable` pointer in `operator*`: the yielded element is a plain `(id, vertex)` value, so writing through the non-const iterator's reference is not modelled.
- The post-increment `operator++(int) const`: it calls the non-const prefix increment on a const object, so it is ill-formed once instantiated.
- `const_vertexlist_iterator` and `vertexlist_iterator` share one class, because they behave the same on position and id.
- The default constructor and the constructor from a graph: the latter is the whole-graph view's first iterator, with id 0 at position 0.
- The depth-first-search tests over `dynamic_graph`: they do not touch the CSR container.

## Findings

| source | as written | input that shows it | evidently intended | confidence | as-written member | corrected member |
|---|---|---|---|---|---|---|
| include/graph/container/csr_graph.hpp:571 | the forwarding (`ERng&&`) `load_edges`, taken for rvalue and non-const lvalue ranges, extends the vertex-value store only when `size() > 1` | a store with one vertex value, then edges giving vertex count 3: the store stays at size 1, so `vertex_value` of vertex 1 or 2 reads past it | `size() > 0`, as in the const& overload at line 624 | not executed | CsrSpec.ForwardingOverloadLeavesStoreShort | CsrSpec.ExtendRowValues |
| include/graph/container/csr_graph.hpp:474 | `load_vertices` (line 474) passes `max(vertex_count, size(vrng))`, and `load` calls it with vertex count 0; `load_row_values` then resizes the store to the number of vertex records (line 148). The `load_vertices` documentation (lines 461-467, 477-483) promises to extend it to the vertex count after `load_edges` | edges (0,1), (1,2) give 3 vertices; vertex records (0,7), (1,8) then leave 2 values, so `vertex_value` of vertex 2 reads past the store; and a store already extended to 3 shrinks to 1 when one record is loaded | line 474 passes the larger of the hint, `row_index_.size() - 1` and the record count, and line 148 resizes to that value; changing line 148 alone would still size the store to the record count, because `load` passes 0 | not executed | CsrSpec.LoadVerticesLeavesStoreShort | CsrGraph.CsrGraph.LoadCovering |
