/**
 * The vertex-enumeration view: an iterator that walks the vertex range of a
 * graph and yields, at each step, the running vertex id paired with the
 * vertex at the current position. The underlying vertex iterator is
 * modelled as a position into the vertex range, and the yielded pair as a
 * plain `(id, vertex)` value.
 */
module VertexListView {
  import opened CsrGraph

  /**
   * `const_vertexlist_iterator` / `vertexlist_iterator`: the position `pos`
   * plays `iter_` and `id` plays `value_.first`. `storage` is the vertex
   * range the position walks over.
   */
  class VertexListIterator<T> {
    const storage: seq<T>
    var pos: nat
    var id: nat

    /** `iterator(iter, start_at)`: positioned at `pos`, yielding ids from `startAt`. */
    constructor (storage: seq<T>, pos: nat, startAt: nat)
      requires pos <= |storage|
      ensures this.storage == storage && this.pos == pos && id == startAt
    {
      this.storage := storage;
      this.pos := pos;
      id := startAt;
    }

    /** `operator*`: the current id with the vertex at the current position; nothing moves. */
    method Deref() returns (r: (nat, T))
      requires pos < |storage|
      ensures r.0 == id && r.1 == storage[pos]
    {
      r := (id, storage[pos]);
    }

    /** Prefix `operator++`: one step further in the range, and the next id. */
    method Increment()
      requires pos < |storage|
      modifies this
      ensures pos == old(pos) + 1 && id == old(id) + 1
    {
      pos := pos + 1;
      id := id + 1;
    }

    /**
     * `operator==` between two view iterators: the positions alone decide,
     * so iterators at one position with different ids are equal.
     */
    function Equals(rhs: VertexListIterator<T>): (b: bool)
      reads this, rhs
      ensures b <==> pos == rhs.pos
    {
      pos == rhs.pos
    }

    /** `operator==(vertex_iterator, iterator)`: whether the view has reached its sentinel `last`. */
    function AtSentinel(last: nat): (b: bool)
      reads this
      ensures b <==> pos == last
    {
      last == pos
    }
  }

  /**
   * What the view `[first, last)` starting at id `s` yields: the pair
   * `(s + k, vs[first + k])` for each k below `last - first`.
   */
  function Enumerate<T>(vs: seq<T>, first: nat, last: nat, s: nat): (r: seq<(nat, T)>)
    requires first <= last <= |vs|
    ensures |r| == last - first
    decreases last - first
  {
    if first == last then []
    else Enumerate(vs, first, last - 1, s) + [(s + (last - 1 - first), vs[last - 1])]
  }

  /** The k-th element of a view is the k-th vertex of the range paired with id s + k. */
  lemma {:induction false} EnumerateAt<T>(vs: seq<T>, first: nat, last: nat, s: nat)
    requires first <= last <= |vs|
    ensures forall k :: 0 <= k < last - first ==> Enumerate(vs, first, last, s)[k] == (s + k, vs[first + k])
    decreases last - first
  {
    if first < last {
      EnumerateAt(vs, first, last - 1, s);
    }
  }

  /**
   * A sub-range view with its default start id reports the same ids as the
   * whole-range view does for those vertices.
   */
  lemma SubrangeIdsAgree<T>(vs: seq<T>, first: nat, last: nat)
    requires first <= last <= |vs|
    ensures Enumerate(vs, first, last, first) == Enumerate(vs, 0, |vs|, 0)[first..last]
  {
    EnumerateAt(vs, first, last, first);
    EnumerateAt(vs, 0, |vs|, 0);
  }

  /**
   * An explicit start id shifts every id of the view by the same amount and
   * leaves the vertices alone.
   */
  lemma StartAtShiftsIds<T>(vs: seq<T>, first: nat, last: nat, s: nat, t: nat)
    requires first <= last <= |vs|
    ensures forall k :: 0 <= k < last - first ==>
      Enumerate(vs, first, last, s)[k].1 == Enumerate(vs, first, last, t)[k].1
      && Enumerate(vs, first, last, s)[k].0 + t == Enumerate(vs, first, last, t)[k].0 + s
  {
    EnumerateAt(vs, first, last, s);
    EnumerateAt(vs, first, last, t);
  }

  /** `vertexlist_view(g)`: from the first vertex, with id 0, to the end of `vertices(g)`. */
  method GraphView(g: CsrGraph) returns (first: VertexListIterator<nat>, last: nat)
    ensures fresh(first)
    ensures first.storage == g.VertexRefs() && first.pos == 0 && first.id == 0
    ensures last == g.VertexCount()
  {
    first := new VertexListIterator(g.VertexRefs(), 0, 0);
    last := g.VertexCount();
  }

  /**
   * `vertexlist_view(g, first, last)`: the ids start at the distance of
   * `first` from the beginning of `vertices(g)`.
   */
  method SubrangeView(g: CsrGraph, firstPos: nat, lastPos: nat) returns (first: VertexListIterator<nat>, last: nat)
    requires firstPos <= lastPos <= g.VertexCount()
    ensures fresh(first)
    ensures first.storage == g.VertexRefs() && first.pos == firstPos && first.id == firstPos
    ensures last == lastPos
  {
    first := new VertexListIterator(g.VertexRefs(), firstPos, firstPos);
    last := lastPos;
  }

  /** `vertexlist_view(g, first, last, start_at)`: the ids start at `startAt` wherever `first` is. */
  method SubrangeViewFrom(g: CsrGraph, firstPos: nat, lastPos: nat, startAt: nat)
    returns (first: VertexListIterator<nat>, last: nat)
    requires firstPos <= lastPos <= g.VertexCount()
    ensures fresh(first)
    ensures first.storage == g.VertexRefs() && first.pos == firstPos && first.id == startAt
    ensures last == lastPos
  {
    first := new VertexListIterator(g.VertexRefs(), firstPos, startAt);
    last := lastPos;
  }

  /**
   * A range-for over the view: dereference and increment until the iterator
   * equals the sentinel. Collects what the view yields.
   */
  method Walk<T>(it: VertexListIterator<T>, last: nat) returns (r: seq<(nat, T)>)
    requires it.pos <= last <= |it.storage|
    modifies it
    ensures r == Enumerate(it.storage, old(it.pos), last, old(it.id))
    ensures it.pos == last && it.id == old(it.id) + (last - old(it.pos))
  {
    ghost var first, s := it.pos, it.id;
    r := [];
    while !it.AtSentinel(last)
      invariant first <= it.pos <= last
      invariant it.id == s + (it.pos - first)
      invariant r == Enumerate(it.storage, first, it.pos, s)
      decreases last - it.pos
    {
      var x := it.Deref();
      r := r + [x];
      it.Increment();
    }
  }

  /**
   * Enumerating a whole graph through a freshly built view: the u-th pair
   * is vertex id u with a reference to row u, one pair per vertex, and
   * `vertex_id` of that reference gives u back. Every call builds new
   * iterators, so every call yields this same sequence.
   */
  method EnumerateGraphVertices(g: CsrGraph) returns (r: seq<(nat, nat)>)
    ensures |r| == g.VertexCount()
    ensures forall u :: 0 <= u < |r| ==> r[u] == (u, g.FindVertex(u)) && g.VertexId(r[u].1) == r[u].0
    ensures forall u :: 0 <= u < |r| ==> r[u].1 < |g.rowIndex| && g.rowIndex[r[u].1] == g.Vertices()[u]
  {
    var first, last := GraphView(g);
    r := Walk(first, last);
    EnumerateAt(g.VertexRefs(), 0, last, 0);
  }

  /**
   * Enumerating `vertexlist_view(g, first, last)`: the k-th pair is a
   * reference to row first + k with id first + k, the id `vertex_id` gives
   * that row.
   */
  method EnumerateGraphSubrange(g: CsrGraph, firstPos: nat, lastPos: nat) returns (r: seq<(nat, nat)>)
    requires firstPos <= lastPos <= g.VertexCount()
    ensures |r| == lastPos - firstPos
    ensures forall k :: 0 <= k < |r| ==> r[k] == (firstPos + k, g.FindVertex(firstPos + k))
    ensures forall k :: 0 <= k < |r| ==> g.VertexId(r[k].1) == r[k].0
  {
    var first, last := SubrangeView(g, firstPos, lastPos);
    r := Walk(first, last);
    EnumerateAt(g.VertexRefs(), firstPos, lastPos, firstPos);
  }

  /**
   * Enumerating `vertexlist_view(g, first, last, start_at)`: the k-th pair
   * is a reference to row first + k with id start_at + k, wherever first
   * is; the id differs from the row's `vertex_id` by start_at - first.
   */
  method EnumerateGraphSubrangeFrom(g: CsrGraph, firstPos: nat, lastPos: nat, startAt: nat)
    returns (r: seq<(nat, nat)>)
    requires firstPos <= lastPos <= g.VertexCount()
    ensures |r| == lastPos - firstPos
    ensures forall k :: 0 <= k < |r| ==> r[k] == (startAt + k, g.FindVertex(firstPos + k))
    ensures forall k :: 0 <= k < |r| ==> g.VertexId(r[k].1) + startAt == r[k].0 + firstPos
  {
    var first, last := SubrangeViewFrom(g, firstPos, lastPos, startAt);
    r := Walk(first, last);
    EnumerateAt(g.VertexRefs(), firstPos, lastPos, startAt);
  }
}
