/** The VM's compressed-sparse-row graph queries (src/graph.c): binary
    search for an edge and its weight within a row's slice of `col_index`,
    degree and neighbour-slice arithmetic, and the neighbour iterator.
    `graph_t`'s arrays are fixed-size `int32_t[MAX]`; the queries convert
    them to `uint32_t` (and the iterator to `size_t`) as the C code does. */
module CsrGraph {
  import opened CTypes

  const MAX: nat := 65536

  /** `graph_t`. */
  class Graph {
    var n: I32
    const colIndex: array<I32>
    const rowIndex: array<I32>
    const values: array<I32>

    /** The three arrays have the size the struct declares. */
    ghost predicate Allocated() {
      colIndex.Length == MAX && rowIndex.Length == MAX && values.Length == MAX
    }

    constructor (n0: I32, cols: seq<I32>, rows: seq<I32>, vals: seq<I32>)
      requires |cols| == MAX && |rows| == MAX && |vals| == MAX
      ensures Allocated() && n == n0 && colIndex[..] == cols && rowIndex[..] == rows && values[..] == vals
      ensures fresh(colIndex) && fresh(rowIndex) && fresh(values)
    {
      n := n0;
      colIndex := new I32[MAX](i requires 0 <= i < MAX => cols[i]);
      rowIndex := new I32[MAX](i requires 0 <= i < MAX => rows[i]);
      values := new I32[MAX](i requires 0 <= i < MAX => vals[i]);
    }
  }

  /** `start = graph->row_index[u]`, as `uint32_t`. */
  function RowStart(g: Graph, u: nat): U32
    requires g.Allocated() && u + 1 < MAX
    reads g.rowIndex
  {
    ToU32(g.rowIndex[u])
  }

  /** `end = graph->row_index[u+1]`, as `uint32_t`. */
  function RowEnd(g: Graph, u: nat): U32
    requires g.Allocated() && u + 1 < MAX
    reads g.rowIndex
  {
    ToU32(g.rowIndex[u + 1])
  }

  /** Row `u` names an in-bounds slice `[start, end)` of `col_index`. */
  ghost predicate RowInBounds(g: Graph, u: nat)
    reads g.rowIndex
  {
    g.Allocated() && u + 1 < MAX && RowStart(g, u) <= RowEnd(g, u) <= MAX
  }

  /** Both bounds of row `u` lie within the arrays, in either order; a
      decreasing pair names no entry at all. */
  ghost predicate RowFits(g: Graph, u: nat)
    reads g.rowIndex
  {
    g.Allocated() && u + 1 < MAX && RowStart(g, u) <= MAX && RowEnd(g, u) <= MAX
  }

  /** Row `u`'s slice of `col_index` is ascending (as `uint32_t`). */
  ghost predicate RowSorted(g: Graph, u: nat)
    reads g.rowIndex, g.colIndex
    requires RowFits(g, u)
  {
    forall i, j :: RowStart(g, u) <= i < j < RowEnd(g, u) ==> ToU32(g.colIndex[i]) <= ToU32(g.colIndex[j])
  }

  /** `v` occurs in row `u`'s slice of `col_index`. */
  ghost predicate InRow(g: Graph, u: nat, v: U32)
    reads g.rowIndex, g.colIndex
    requires RowFits(g, u)
  {
    exists k :: RowStart(g, u) <= k < RowEnd(g, u) && ToU32(g.colIndex[k]) == v
  }

  /** `int h = end - 1`: the `uint32_t` difference converted to `int`, which
      is -1 for an empty row starting at 0. */
  function LastProbe(end: U32): (h: int)
    requires end <= MAX
    ensures h == end - 1
  {
    ToI32(SubU32(end, 1))
  }

  /** `graph_has_edge`: binary search for `v` in row `u`. */
  method HasEdge(g: Graph, u: U32, v: U32) returns (r: int)
    requires RowFits(g, u) && RowSorted(g, u)
    ensures r == 0 || r == 1
    ensures r == 1 <==> InRow(g, u, v)
    ensures RowEnd(g, u) < RowStart(g, u) ==> r == 0
  {
    var start, end := RowStart(g, u), RowEnd(g, u);
    var l: int, h: int := start, LastProbe(end);
    while l <= h
      invariant start <= l && -1 <= h < end && (l <= h + 1 || l == start)
      invariant forall k :: start <= k < l ==> ToU32(g.colIndex[k]) < v
      invariant forall k :: h < k < end ==> ToU32(g.colIndex[k]) > v
      decreases h - l
    {
      var m := (l + h) / 2;
      var val := ToU32(g.colIndex[m]);
      if val == v {
        return 1;
      } else if val < v {
        l := m + 1;
      } else {
        h := m - 1;
      }
    }
    return 0;
  }

  /** `graph_get_weight`: the weight stored beside `v` in row `u`, or 0
      when `v` is not there. */
  method GetWeight(g: Graph, u: U32, v: U32) returns (w: U32)
    requires RowFits(g, u) && RowSorted(g, u)
    ensures InRow(g, u, v) ==>
      exists k :: RowStart(g, u) <= k < RowEnd(g, u) && ToU32(g.colIndex[k]) == v && w == ToU32(g.values[k])
    ensures !InRow(g, u, v) ==> w == 0
    ensures RowEnd(g, u) < RowStart(g, u) ==> w == 0
  {
    var start, end := RowStart(g, u), RowEnd(g, u);
    var l: int, h: int := start, LastProbe(end);
    while l <= h
      invariant start <= l && -1 <= h < end && (l <= h + 1 || l == start)
      invariant forall k :: start <= k < l ==> ToU32(g.colIndex[k]) < v
      invariant forall k :: h < k < end ==> ToU32(g.colIndex[k]) > v
      decreases h - l
    {
      var m := (l + h) / 2;
      var val := ToU32(g.colIndex[m]);
      if val == v {
        return ToU32(g.values[m]);
      } else if val < v {
        l := m + 1;
      } else {
        h := m - 1;
      }
    }
    return 0;
  }

  /** `graph_degree`: `end - start` in `uint32_t`, widened to `size_t`. */
  function Degree(g: Graph, node: U32): (d: nat)
    requires g.Allocated() && node + 1 < MAX
    reads g.rowIndex
    ensures d < U32_LIMIT
    ensures RowStart(g, node) <= RowEnd(g, node) ==> d == RowEnd(g, node) - RowStart(g, node)
    ensures RowEnd(g, node) < RowStart(g, node) ==> d == U32_LIMIT - (RowStart(g, node) - RowEnd(g, node))
  {
    SubU32(RowEnd(g, node), RowStart(g, node))
  }

  /** What `graph_get_neighbors` hands back: the offset in `col_index` its
      pointer addresses and the `int` it stores through `size`. */
  datatype Neighbors = Neighbors(offset: nat, size: I32)

  /** `graph_get_neighbors`. */
  function GetNeighbors(g: Graph, u: U32): (r: Neighbors)
    requires g.Allocated() && u + 1 < MAX
    reads g.rowIndex
    ensures r.offset == RowStart(g, u)
    ensures Degree(g, u) < 0x8000_0000 ==> r.size == Degree(g, u)
    ensures r.size % U32_LIMIT == Degree(g, u)
  {
    Neighbors(RowStart(g, u), ToI32(SubU32(RowEnd(g, u), RowStart(g, u))))
  }

  /** The slice `graph_get_neighbors` describes is row `u`'s slice, so
      `graph_has_edge` finds exactly its entries. */
  lemma NeighborsAreRow(g: Graph, u: U32, v: U32)
    requires RowInBounds(g, u)
    ensures var r := GetNeighbors(g, u);
      && r.offset + r.size == RowEnd(g, u)
      && (InRow(g, u, v) <==> exists k :: r.offset <= k < r.offset + r.size && ToU32(g.colIndex[k]) == v)
  {
  }

  /** A `uint32_t` the caller passes by pointer to receive a neighbour or a
      weight. */
  class U32Cell {
    var value: U32

    constructor (v: U32)
      ensures value == v
    {
      value := v;
    }
  }

  /** `graph_iterator_t`. */
  class GraphIterator {
    var graph: Graph?
    var itNode: I32
    var node: I32
    var weight: I32
    var start: nat
    var end: nat
    var currentIndex: nat

    /** The `size_t` fields hold `size_t` values. */
    ghost predicate SizeFields()
      reads this
    {
      start < U64_LIMIT && end < U64_LIMIT && currentIndex < U64_LIMIT
    }

    /** An iterator as memory holds it before `graph_init_iterator`. */
    constructor ()
      ensures graph == null && currentIndex == 0 && start == 0 && end == 0
    {
      graph := null;
      start, end, currentIndex := 0, 0, 0;
    }

    /** The number of calls `graph_next_neighbor` still succeeds. */
    ghost function Remaining(): nat
      reads this
      requires SizeFields()
    {
      var span := SubSize(end, start);
      if currentIndex < span then span - currentIndex else 0
    }
  }

  function CellFrame(c: U32Cell?): set<object> {
    if c == null then {} else {c}
  }

  /** `graph_init_iterator`: point `it` at row `node` of `graph`, with no
      neighbour read yet. */
  method InitIterator(it: GraphIterator?, graph: Graph?, node: U32) returns (rc: int)
    requires it != null && graph != null ==> graph.Allocated() && node + 1 < MAX
    modifies if it == null then {} else {it}
    ensures it == null || graph == null ==> rc == -1
    ensures it != null && graph == null ==> unchanged(it)
    ensures it != null && graph != null ==>
      && rc == 0 && it.graph == graph && it.itNode == node && it.node == node
      && it.start == ToSize(graph.rowIndex[node]) && it.end == ToSize(graph.rowIndex[node + 1])
      && it.currentIndex == 0 && it.weight == old(it.weight) && it.SizeFields()
  {
    if it == null || graph == null {
      return -1;
    }
    it.graph := graph;
    it.itNode := ToI32(node);
    it.node := ToI32(node);
    it.start := ToSize(graph.rowIndex[node]);
    it.end := ToSize(graph.rowIndex[node + 1]);
    it.currentIndex := 0;
    return 0;
  }

  /** The iterator has a neighbour left to hand out. */
  ghost predicate HasNext(it: GraphIterator)
    reads it
    requires it.SizeFields()
  {
    it.graph != null && it.currentIndex < SubSize(it.end, it.start)
  }

  /** `graph_next_neighbor` as written: it reads `col_index` and `values`
      at `current_index`, not at `start + current_index`. */
  method NextNeighbor(it: GraphIterator?, neighbor: U32Cell?, weight: U32Cell?) returns (rc: int)
    requires it != null ==> it.SizeFields()
    requires it != null && HasNext(it) ==> it.graph.Allocated() && it.currentIndex < MAX
    modifies (if it == null then {} else {it}) + CellFrame(neighbor) + CellFrame(weight)
    ensures it == null ==> rc == -1 && (neighbor != null ==> unchanged(neighbor)) && (weight != null ==> unchanged(weight))
    ensures it != null ==> it.SizeFields() && it.graph == old(it.graph) && it.start == old(it.start) && it.end == old(it.end)
    ensures it != null && !old(HasNext(it)) ==>
      && rc == -1 && unchanged(it)
      && (neighbor != null ==> unchanged(neighbor)) && (weight != null ==> unchanged(weight))
    ensures it != null && old(HasNext(it)) ==>
      && rc == 0 && it.currentIndex == old(it.currentIndex) + 1
      && it.Remaining() == old(it.Remaining()) - 1
      && it.node == it.graph.colIndex[old(it.currentIndex)]
      && it.weight == it.graph.values[old(it.currentIndex)]
      && it.itNode == old(it.itNode)
      && (weight != null ==> weight.value == ToU32(it.weight))
      && (neighbor != null && neighbor != weight ==> neighbor.value == ToU32(it.node))
  {
    if it == null || it.graph == null {
      return -1;
    }
    if it.currentIndex >= SubSize(it.end, it.start) {
      return -1;
    }
    it.node := it.graph.colIndex[it.currentIndex];
    it.weight := it.graph.values[it.currentIndex];
    if neighbor != null {
      neighbor.value := ToU32(it.graph.colIndex[it.currentIndex]);
    }
    if weight != null {
      weight.value := ToU32(it.graph.values[it.currentIndex]);
    }
    it.currentIndex := it.currentIndex + 1;
    return 0;
  }

  /** The neighbours `graph_next_neighbor` hands out, in order, for an
      iterator over `[start, end)`: the first `end - start` entries of
      `col_index`, whichever row the iterator was set up for. */
  function UnoffsetNeighbors(col: seq<I32>, start: nat, end: nat): (r: seq<I32>)
    requires start <= end && end - start <= |col|
    ensures |r| == end - start && forall i :: 0 <= i < |r| ==> r[i] == col[i]
  {
    col[..end - start]
  }

  /** The neighbours of the row `[start, end)` of `col_index`, in order. */
  function RowNeighbors(col: seq<I32>, start: nat, end: nat): (r: seq<I32>)
    requires start <= end <= |col|
    ensures |r| == end - start && forall i :: 0 <= i < |r| ==> r[i] == col[start + i]
  {
    col[start..end]
  }

  /** A caller's walk over node `u`: `graph_init_iterator`, then
      `graph_next_neighbor` until it gives -1, collecting `it->node`. The
      iterator as written succeeds exactly `end - start` times and hands out
      the first `end - start` entries of `col_index`, whichever row `u` is. */
  method VisitNeighbors(g: Graph, u: U32) returns (ns: seq<I32>)
    requires RowInBounds(g, u)
    ensures ns == UnoffsetNeighbors(g.colIndex[..], RowStart(g, u), RowEnd(g, u))
  {
    var it := new GraphIterator();
    var rc := InitIterator(it, g, u);
    ns := [];
    while true
      invariant it.graph == g && it.SizeFields()
      invariant it.start == RowStart(g, u) && it.end == RowEnd(g, u)
      invariant it.currentIndex <= it.end - it.start
      invariant ns == g.colIndex[..it.currentIndex]
      decreases it.Remaining()
    {
      rc := NextNeighbor(it, null, null);
      if rc == -1 {
        break;
      }
      ns := ns + [it.node];
    }
  }

  /** The same walk with the corrected iterator visits row `u` itself, in
      order. */
  method VisitRow(g: Graph, u: U32) returns (ns: seq<I32>)
    requires RowInBounds(g, u)
    ensures ns == RowNeighbors(g.colIndex[..], RowStart(g, u), RowEnd(g, u))
  {
    var it := new GraphIterator();
    var rc := InitIterator(it, g, u);
    ns := [];
    while true
      invariant it.graph == g && it.SizeFields()
      invariant it.start == RowStart(g, u) && it.end == RowEnd(g, u)
      invariant it.currentIndex <= it.end - it.start
      invariant ns == g.colIndex[it.start..it.start + it.currentIndex]
      decreases it.Remaining()
    {
      rc := NextNeighborInRow(it, null, null);
      if rc == -1 {
        break;
      }
      ns := ns + [it.node];
    }
  }

  /** On the graph with `row_index = [0, 1, 3, 3, ...]` and
      `col_index = [1, 0, 2, 0, ...]`, node 1's neighbours are 0 and 2. The
      iterator as written hands out 1 and 0, the entry of row 0 and the
      first of row 1; the corrected one hands out 0 and 2. */
  method IterationExample() returns (asWritten: seq<I32>, inRow: seq<I32>)
    ensures asWritten == [1, 0] && inRow == [0, 2]
  {
    var rows := seq(MAX, i => if i == 0 then 0 else if i == 1 then 1 else 3);
    var cols := seq(MAX, i => if i == 0 then 1 else if i == 2 then 2 else 0);
    var g := new Graph(3, cols, rows, seq(MAX, _ => 1));
    asWritten := VisitNeighbors(g, 1);
    inRow := VisitRow(g, 1);
    assert asWritten == [cols[0], cols[1]];
    assert inRow == [cols[1], cols[2]];
  }

  /** `graph_next_neighbor` as intended: it reads the row's own entries at
      `start + current_index`. */
  method NextNeighborInRow(it: GraphIterator?, neighbor: U32Cell?, weight: U32Cell?) returns (rc: int)
    requires it != null ==> it.SizeFields()
    requires it != null && HasNext(it) ==> it.graph.Allocated() && it.start + it.currentIndex < MAX
    modifies (if it == null then {} else {it}) + CellFrame(neighbor) + CellFrame(weight)
    ensures it == null ==> rc == -1 && (neighbor != null ==> unchanged(neighbor)) && (weight != null ==> unchanged(weight))
    ensures it != null ==> it.SizeFields() && it.graph == old(it.graph) && it.start == old(it.start) && it.end == old(it.end)
    ensures it != null && !old(HasNext(it)) ==>
      && rc == -1 && unchanged(it)
      && (neighbor != null ==> unchanged(neighbor)) && (weight != null ==> unchanged(weight))
    ensures it != null && old(HasNext(it)) ==>
      && rc == 0 && it.currentIndex == old(it.currentIndex) + 1
      && it.Remaining() == old(it.Remaining()) - 1
      && (it.start <= it.end ==> it.start <= it.start + old(it.currentIndex) < it.end)
      && it.node == it.graph.colIndex[it.start + old(it.currentIndex)]
      && it.weight == it.graph.values[it.start + old(it.currentIndex)]
      && it.itNode == old(it.itNode)
      && (weight != null ==> weight.value == ToU32(it.weight))
      && (neighbor != null && neighbor != weight ==> neighbor.value == ToU32(it.node))
  {
    if it == null || it.graph == null {
      return -1;
    }
    if it.currentIndex >= SubSize(it.end, it.start) {
      return -1;
    }
    var k := it.start + it.currentIndex;
    it.node := it.graph.colIndex[k];
    it.weight := it.graph.values[k];
    if neighbor != null {
      neighbor.value := ToU32(it.graph.colIndex[k]);
    }
    if weight != null {
      weight.value := ToU32(it.graph.values[k]);
    }
    it.currentIndex := it.currentIndex + 1;
    return 0;
  }
}
