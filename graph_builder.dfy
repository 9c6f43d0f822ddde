/** The graph side of the editor (helpers/graph.py): the `Graph` class that
    converts a square adjacency matrix into compressed sparse row form and
    prints it as the three data sections of a GraphX assembly file, and the
    editor's `to_adjacency_matrix`, taken out of `main()` as a method of the
    node count and the edge list. Matrix cells are integers, so the
    `int(...)` of the conversion is the identity. */
module GraphBuilder {
  import opened Wrappers
  import PyText
  import Assembler

  // ------------------------------------------------- the CSR of a matrix

  /** Every row has a cell for each column index `j < len(matrix)` the
      conversion visits; a shorter row makes it raise `IndexError`. */
  predicate RowsCover(matrix: seq<seq<int>>) {
    forall i :: 0 <= i < |matrix| ==> |matrix[i]| >= |matrix|
  }

  /** The columns `j < n` whose cell of `row` is non-zero, left to right. */
  function NonZeroCols(row: seq<int>, n: nat): (cols: seq<int>)
    requires n <= |row|
    ensures |cols| <= n
  {
    if n == 0 then []
    else NonZeroCols(row, n - 1) + (if row[n - 1] != 0 then [n - 1] else [])
  }

  /** The non-zero cells among the first `n` of `row`, left to right. */
  function NonZeroVals(row: seq<int>, n: nat): (vals: seq<int>)
    requires n <= |row|
  {
    if n == 0 then []
    else NonZeroVals(row, n - 1) + (if row[n - 1] != 0 then [row[n - 1]] else [])
  }

  /** `col_index` once rows `0 .. i-1` are converted. */
  function Cols(matrix: seq<seq<int>>, i: nat): seq<int>
    requires RowsCover(matrix) && i <= |matrix|
  {
    if i == 0 then [] else Cols(matrix, i - 1) + NonZeroCols(matrix[i - 1], |matrix|)
  }

  /** `values` once rows `0 .. i-1` are converted. */
  function Vals(matrix: seq<seq<int>>, i: nat): seq<int>
    requires RowsCover(matrix) && i <= |matrix|
  {
    if i == 0 then [] else Vals(matrix, i - 1) + NonZeroVals(matrix[i - 1], |matrix|)
  }

  /** The first `i` entries of `row_index`: entry `r` counts the non-zero
      cells of the rows above row `r`. */
  function Starts(matrix: seq<seq<int>>, i: nat): (s: seq<int>)
    requires RowsCover(matrix) && i <= |matrix| + 1
    ensures |s| == i
  {
    if i == 0 then [] else Starts(matrix, i - 1) + [|Cols(matrix, i - 1)|]
  }

  /** The whole `row_index`: one start per row and the total at the end. */
  function RowIndex(matrix: seq<seq<int>>): seq<int>
    requires RowsCover(matrix)
  {
    Starts(matrix, |matrix| + 1)
  }

  lemma {:induction false} StartsAt(matrix: seq<seq<int>>, i: nat, r: nat)
    requires RowsCover(matrix) && r < i <= |matrix| + 1
    ensures Starts(matrix, i)[r] == |Cols(matrix, r)|
  {
    var s, c := Starts(matrix, i - 1), |Cols(matrix, i - 1)|;
    assert Starts(matrix, i) == s + [c];
    if r < i - 1 {
      StartsAt(matrix, i - 1, r);
      assert (s + [c])[r] == s[r];
    }
  }

  /** Entry `r` of `row_index` is the length of `col_index` once the rows
      above row `r` are converted. */
  lemma RowIndexAt(matrix: seq<seq<int>>, r: nat)
    requires RowsCover(matrix) && r <= |matrix|
    ensures RowIndex(matrix)[r] == |Cols(matrix, r)|
  {
    StartsAt(matrix, |matrix| + 1, r);
  }

  /** A row keeps as many values as columns. */
  lemma {:induction false} NonZeroLength(row: seq<int>, n: nat)
    requires n <= |row|
    ensures |NonZeroVals(row, n)| == |NonZeroCols(row, n)|
  {
    if n > 0 {
      NonZeroLength(row, n - 1);
    }
  }

  /** Every column a row keeps is one of its first `n`, holds a non-zero
      cell, and is kept with that cell's value. */
  lemma {:induction false} NonZeroEntries(row: seq<int>, n: nat)
    requires n <= |row|
    ensures var cols, vals := NonZeroCols(row, n), NonZeroVals(row, n);
      && |vals| == |cols|
      && forall k :: 0 <= k < |cols| ==> 0 <= cols[k] < n && row[cols[k]] != 0 && vals[k] == row[cols[k]]
  {
    if n > 0 {
      NonZeroEntries(row, n - 1);
    }
  }

  /** The columns a row keeps strictly increase. */
  lemma {:induction false} NonZeroSorted(row: seq<int>, n: nat)
    requires n <= |row|
    ensures var cols := NonZeroCols(row, n);
      forall k, l :: 0 <= k < l < |cols| ==> cols[k] < cols[l]
  {
    if n > 0 {
      NonZeroSorted(row, n - 1);
      NonZeroEntries(row, n - 1);
    }
  }

  /** Every non-zero cell among the first `n` has its column kept. */
  lemma {:induction false} NonZeroComplete(row: seq<int>, n: nat)
    requires n <= |row|
    ensures forall j :: 0 <= j < n && row[j] != 0 ==> j in NonZeroCols(row, n)
  {
    if n > 0 {
      NonZeroComplete(row, n - 1);
    }
  }

  lemma {:induction false} ColsValsLength(matrix: seq<seq<int>>, i: nat)
    requires RowsCover(matrix) && i <= |matrix|
    ensures |Cols(matrix, i)| == |Vals(matrix, i)|
  {
    if i > 0 {
      ColsValsLength(matrix, i - 1);
      NonZeroLength(matrix[i - 1], |matrix|);
    }
  }

  /** Converting more rows only appends to `col_index`. */
  lemma {:induction false} ColsPrefix(matrix: seq<seq<int>>, i: nat, k: nat)
    requires RowsCover(matrix) && i <= k <= |matrix|
    ensures |Cols(matrix, i)| <= |Cols(matrix, k)| && Cols(matrix, k)[..|Cols(matrix, i)|] == Cols(matrix, i)
  {
    if i < k {
      ColsPrefix(matrix, i, k - 1);
      var c := Cols(matrix, k - 1);
      assert (c + NonZeroCols(matrix[k - 1], |matrix|))[..|c|] == c;
    }
  }

  /** Converting more rows only appends to `values`. */
  lemma {:induction false} ValsPrefix(matrix: seq<seq<int>>, i: nat, k: nat)
    requires RowsCover(matrix) && i <= k <= |matrix|
    ensures |Vals(matrix, i)| <= |Vals(matrix, k)| && Vals(matrix, k)[..|Vals(matrix, i)|] == Vals(matrix, i)
  {
    if i < k {
      ValsPrefix(matrix, i, k - 1);
      var v := Vals(matrix, k - 1);
      assert (v + NonZeroVals(matrix[k - 1], |matrix|))[..|v|] == v;
    }
  }

  /** `len(row_index) == len(matrix) + 1`, it starts at 0, never decreases,
      and ends at `len(col_index) == len(values)`. */
  lemma RowIndexShape(matrix: seq<seq<int>>)
    requires RowsCover(matrix)
    ensures var r, m := RowIndex(matrix), |matrix|;
      && |r| == m + 1 && r[0] == 0
      && (forall a, b :: 0 <= a <= b <= m ==> r[a] <= r[b])
      && r[m] == |Cols(matrix, m)| == |Vals(matrix, m)|
  {
    var m := |matrix|;
    RowIndexAt(matrix, 0);
    RowIndexAt(matrix, m);
    forall a, b | 0 <= a <= b <= m
      ensures RowIndex(matrix)[a] <= RowIndex(matrix)[b]
    {
      RowIndexAt(matrix, a);
      RowIndexAt(matrix, b);
      ColsPrefix(matrix, a, b);
    }
    ColsValsLength(matrix, m);
  }

  /** Row `i`'s slice `col_index[row_index[i]:row_index[i+1]]` holds the
      columns of its non-zero cells and the same slice of `values` their
      values. */
  lemma RowSlice(matrix: seq<seq<int>>, i: nat)
    requires RowsCover(matrix) && i < |matrix|
    ensures var r, m := RowIndex(matrix), |matrix|;
      && 0 <= r[i] <= r[i + 1] <= |Cols(matrix, m)| == |Vals(matrix, m)|
      && Cols(matrix, m)[r[i]..r[i + 1]] == NonZeroCols(matrix[i], m)
      && Vals(matrix, m)[r[i]..r[i + 1]] == NonZeroVals(matrix[i], m)
  {
    var m := |matrix|;
    var a, b := |Cols(matrix, i)|, |Cols(matrix, i + 1)|;
    var cols, vals := Cols(matrix, m), Vals(matrix, m);
    assert RowIndex(matrix)[i] == a && RowIndex(matrix)[i + 1] == b by {
      RowIndexAt(matrix, i);
      RowIndexAt(matrix, i + 1);
    }
    assert a <= b <= |cols| && cols[a..b] == NonZeroCols(matrix[i], m) by {
      ColsSlice(matrix, i);
    }
    assert |vals| == |cols| && vals[a..b] == NonZeroVals(matrix[i], m) by {
      ColsValsLength(matrix, i);
      ColsValsLength(matrix, i + 1);
      ColsValsLength(matrix, m);
      ValsSlice(matrix, i);
    }
  }

  lemma ColsSlice(matrix: seq<seq<int>>, i: nat)
    requires RowsCover(matrix) && i < |matrix|
    ensures var c0, c1, c := Cols(matrix, i), Cols(matrix, i + 1), Cols(matrix, |matrix|);
      && |c0| <= |c1| <= |c|
      && c[|c0|..|c1|] == NonZeroCols(matrix[i], |matrix|)
  {
    ColsPrefix(matrix, i + 1, |matrix|);
    InnerSlice(Cols(matrix, |matrix|), Cols(matrix, i), NonZeroCols(matrix[i], |matrix|));
  }

  lemma ValsSlice(matrix: seq<seq<int>>, i: nat)
    requires RowsCover(matrix) && i < |matrix|
    ensures var v0, v1, v := Vals(matrix, i), Vals(matrix, i + 1), Vals(matrix, |matrix|);
      && |v0| <= |v1| <= |v|
      && v[|v0|..|v1|] == NonZeroVals(matrix[i], |matrix|)
  {
    ValsPrefix(matrix, i + 1, |matrix|);
    InnerSlice(Vals(matrix, |matrix|), Vals(matrix, i), NonZeroVals(matrix[i], |matrix|));
  }

  /** A block that follows a prefix of `whole` is the slice between them. */
  lemma InnerSlice(whole: seq<int>, front: seq<int>, block: seq<int>)
    requires |front + block| <= |whole| && whole[..|front + block|] == front + block
    ensures whole[|front|..|front| + |block|] == block
  {
    assert whole[|front|..|front| + |block|] == (front + block)[|front|..];
  }

  /** Within row `i`'s slice the columns strictly increase, lie in
      `[0, n)` and carry their cell's value; a column is in the slice
      exactly when its cell is non-zero. This is the sorted-row layout the
      binary search of `graph_has_edge` (src/graph.c) relies on. */
  lemma RowEntries(matrix: seq<seq<int>>, i: nat)
    requires RowsCover(matrix) && i < |matrix|
    ensures var r, m := RowIndex(matrix), |matrix|;
      var cols, vals := Cols(matrix, m), Vals(matrix, m);
      && 0 <= r[i] <= r[i + 1] <= |cols| == |vals|
      && (forall k :: r[i] <= k < r[i + 1] ==>
            0 <= cols[k] < m && matrix[i][cols[k]] != 0 && vals[k] == matrix[i][cols[k]])
      && (forall k, l :: r[i] <= k < l < r[i + 1] ==> cols[k] < cols[l])
      && (forall j :: 0 <= j < m ==> (matrix[i][j] != 0 <==> j in cols[r[i]..r[i + 1]]))
  {
    var r, m := RowIndex(matrix), |matrix|;
    RowSlice(matrix, i);
    SliceEntries(matrix[i], m, Cols(matrix, m), Vals(matrix, m), r[i], r[i + 1]);
  }

  /** What `NonZeroEntries`, `NonZeroSorted` and `NonZeroComplete` say of a
      row, read off the slice of `cols` and `vals` that holds it. */
  lemma SliceEntries(row: seq<int>, m: nat, cols: seq<int>, vals: seq<int>, a: nat, b: nat)
    requires m <= |row| && a <= b <= |cols| == |vals|
    requires cols[a..b] == NonZeroCols(row, m) && vals[a..b] == NonZeroVals(row, m)
    ensures forall k :: a <= k < b ==> 0 <= cols[k] < m && row[cols[k]] != 0 && vals[k] == row[cols[k]]
    ensures forall k, l :: a <= k < l < b ==> cols[k] < cols[l]
    ensures forall j :: 0 <= j < m ==> (row[j] != 0 <==> j in cols[a..b])
  {
    var nz, nv := cols[a..b], vals[a..b];
    NonZeroEntries(row, m);
    NonZeroSorted(row, m);
    NonZeroComplete(row, m);
    assert forall k :: a <= k < b ==> cols[k] == nz[k - a] && vals[k] == nv[k - a];
  }

  /** Every `col_index` entry is a column of the matrix. */
  lemma {:induction false} ColumnsInRange(matrix: seq<seq<int>>, i: nat)
    requires RowsCover(matrix) && i <= |matrix|
    ensures forall k :: 0 <= k < |Cols(matrix, i)| ==> 0 <= Cols(matrix, i)[k] < |matrix|
  {
    if i > 0 {
      ColumnsInRange(matrix, i - 1);
      NonZeroEntries(matrix[i - 1], |matrix|);
    }
  }

  // ------------------------------------------------- printing the graph

  /** `map(str, xs)`. */
  function Texts(xs: seq<int>): (ts: seq<string>)
    ensures |ts| == |xs| && forall k :: 0 <= k < |xs| ==> ts[k] == PyText.IntToString(xs[k])
  {
    seq(|xs|, k requires 0 <= k < |xs| => PyText.IntToString(xs[k]))
  }

  /** `", ".join(map(str, xs))`. */
  function ListText(xs: seq<int>): string {
    PyText.Join(Texts(xs), ", ")
  }

  /** A character of a printed integer. */
  predicate Numeral(c: char) {
    ('0' <= c <= '9') || c == '-'
  }

  /** A character of a printed list. */
  predicate ListChar(c: char) {
    Numeral(c) || c == ',' || c == ' '
  }

  /** The shape of `str(x)` for an integer `x`. */
  predicate Printed(p: string) {
    p != [] && ('0' <= p[|p| - 1] <= '9') && forall k :: 0 <= k < |p| ==> Numeral(p[k])
  }

  lemma IntToStringChars(x: int)
    ensures Printed(PyText.IntToString(x))
  {
  }

  /** A `', '`-joined list of printed integers is made of digits, signs,
      commas and spaces, and starts and ends with a numeral. */
  lemma {:induction false} JoinedChars(parts: seq<string>)
    requires forall k :: 0 <= k < |parts| ==> Printed(parts[k])
    ensures var s := PyText.Join(parts, ", ");
      && (forall k :: 0 <= k < |s| ==> ListChar(s[k]))
      && (parts != [] ==> s != [] && Numeral(s[0]) && '0' <= s[|s| - 1] <= '9')
  {
    if |parts| > 1 {
      assert forall k :: 0 <= k < |parts| - 1 ==> parts[1..][k] == parts[k + 1];
      JoinedChars(parts[1..]);
      var rest := PyText.Join(parts[1..], ", ");
      assert PyText.Join(parts, ", ") == parts[0] + ", " + rest;
      assert Printed(parts[0]);
    } else if |parts| == 1 {
      assert Printed(parts[0]);
    }
  }

  lemma ListTextChars(xs: seq<int>)
    ensures var s := ListText(xs);
      && (forall k :: 0 <= k < |s| ==> ListChar(s[k]))
      && (s == [] <==> xs == [])
      && (s != [] ==> Numeral(s[0]) && '0' <= s[|s| - 1] <= '9')
  {
    var ts := Texts(xs);
    assert forall k :: 0 <= k < |ts| ==> Printed(ts[k]) by {
      forall k | 0 <= k < |ts|
        ensures Printed(ts[k])
      {
        IntToStringChars(xs[k]);
      }
    }
    JoinedChars(ts);
  }

  /** Reading back a printed list with `re.split(r'[,\s]+')` and
      `int(token, 0)` gives the list. */
  lemma ListTextReadsBack(xs: seq<int>)
    requires xs != []
    ensures Assembler.ParseLiterals(PyText.Split(ListText(xs))) == Ok(xs)
  {
    var ts := Texts(xs);
    forall k | 0 <= k < |ts|
      ensures ts[k] != [] && PyText.NoSeparator(ts[k])
    {
      PyText.IntToStringToken(xs[k]);
    }
    PyText.SplitJoin(ts);
    TextsReadBack(xs);
  }

  lemma TextsReadBack(xs: seq<int>)
    ensures Assembler.ParseLiterals(Texts(xs)) == Ok(xs)
  {
    var ts := Texts(xs);
    forall k | 0 <= k < |ts|
      ensures PyText.ParseIntBase0(ts[k]) == Some(xs[k])
    {
      PyText.IntRoundTrip(xs[k]);
    }
    LiteralsOf(ts, xs);
  }

  /** Tokens that each read as the matching value read as the values. */
  lemma LiteralsOf(tokens: seq<string>, vs: seq<int>)
    requires |tokens| == |vs| && forall k :: 0 <= k < |tokens| ==> PyText.ParseIntBase0(tokens[k]) == Some(vs[k])
    ensures Assembler.ParseLiterals(tokens) == Ok(vs)
  {
    Assembler.LiteralsSucceed(tokens);
    var r := Assembler.ParseLiterals(tokens).value;
    assert |r| == |vs|;
    forall k | 0 <= k < |tokens|
      ensures r[k] == vs[k]
    {
      Assembler.LiteralAt(tokens, k);
      assert Some(r[k]) == Some(vs[k]);
    }
    assert r == vs;
  }

  /** Where the first `\n` at or after `from` is, `|s|` when there is none. */
  function FirstNewline(s: string, from: nat): (i: nat)
    requires from <= |s|
    decreases |s| - from
    ensures from <= i <= |s| && (i < |s| ==> s[i] == '\n')
    ensures forall k :: from <= k < i ==> s[k] != '\n'
  {
    if from == |s| || s[from] == '\n' then from else FirstNewline(s, from + 1)
  }

  /** `f.readlines()` on a file holding `s`: every line keeps its `\n`, and
      text after the last `\n` is a last line of its own. */
  function ReadLines(s: string): (ls: seq<string>)
    decreases |s|
  {
    if s == [] then []
    else
      var i := FirstNewline(s, 0);
      var e := if i < |s| then i + 1 else |s|;
      [s[..e]] + ReadLines(s[e..])
  }

  /** A line ending in its only `\n` is read off the front of the text. */
  lemma ReadLinesCons(t: string, rest: string)
    requires forall k :: 0 <= k < |t| ==> t[k] != '\n'
    ensures ReadLines(t + "\n" + rest) == [t + "\n"] + ReadLines(rest)
  {
    var s := t + "\n" + rest;
    var i := FirstNewline(s, 0);
    assert s[|t|] == '\n';
    assert i == |t|;
    assert s[..i + 1] == t + "\n";
    assert s[i + 1..] == rest;
  }

  // ------------------------------------------------ editor's edge list

  /** An edge `(a, b, w)` of the editor: two node indices and a weight. */
  datatype Edge = Edge(a: int, b: int, w: int)

  /** Python's reading of a list index `i` in `[-n, n)`. */
  function PyIndex(i: int, n: nat): (k: nat)
    requires -(n as int) <= i < n
    ensures k < n && (0 <= i ==> k == i) && (i < 0 ==> k == i + n)
  {
    if i < 0 then i + n else i
  }

  /** Every edge names nodes `matrix[a][b]` can index; any other raises
      `IndexError`. */
  predicate EdgesIn(edges: seq<Edge>, n: nat) {
    forall k :: 0 <= k < |edges| ==> -(n as int) <= edges[k].a < n && -(n as int) <= edges[k].b < n
  }

  /** Edge `e` writes cell `(i, j)`: as `matrix[a][b]` or as `matrix[b][a]`. */
  predicate Writes(e: Edge, n: nat, i: nat, j: nat)
    requires -(n as int) <= e.a < n && -(n as int) <= e.b < n
  {
    (PyIndex(e.a, n) == i && PyIndex(e.b, n) == j) || (PyIndex(e.a, n) == j && PyIndex(e.b, n) == i)
  }

  /** Cell `(i, j)` after the edges are applied in order: the weight of the
      last edge that writes it, 0 when none does. */
  function LastWeight(edges: seq<Edge>, n: nat, i: nat, j: nat): int
    requires EdgesIn(edges, n)
  {
    if |edges| == 0 then 0
    else if Writes(edges[|edges| - 1], n, i, j) then edges[|edges| - 1].w
    else LastWeight(edges[..|edges| - 1], n, i, j)
  }

  /** A cell no edge writes stays 0. */
  lemma {:induction false} UnwrittenCell(edges: seq<Edge>, n: nat, i: nat, j: nat)
    requires EdgesIn(edges, n)
    requires forall k :: 0 <= k < |edges| ==> !Writes(edges[k], n, i, j)
    ensures LastWeight(edges, n, i, j) == 0
  {
    if |edges| > 0 {
      var front := edges[..|edges| - 1];
      assert forall k :: 0 <= k < |front| ==> front[k] == edges[k];
      UnwrittenCell(front, n, i, j);
    }
  }

  /** A cell holds the weight of edge `k` when edge `k` writes it and no
      later edge does. */
  lemma {:induction false} LastWriteWins(edges: seq<Edge>, n: nat, i: nat, j: nat, k: nat)
    requires EdgesIn(edges, n) && k < |edges| && Writes(edges[k], n, i, j)
    requires forall l :: k < l < |edges| ==> !Writes(edges[l], n, i, j)
    ensures LastWeight(edges, n, i, j) == edges[k].w
  {
    if k < |edges| - 1 {
      var front := edges[..|edges| - 1];
      assert forall l :: 0 <= l < |front| ==> front[l] == edges[l];
      LastWriteWins(front, n, i, j, k);
    }
  }

  /** The edges write both cells of a pair alike. */
  lemma {:induction false} LastWeightSymmetric(edges: seq<Edge>, n: nat, i: nat, j: nat)
    requires EdgesIn(edges, n)
    ensures LastWeight(edges, n, i, j) == LastWeight(edges, n, j, i)
  {
    if |edges| > 0 {
      LastWeightSymmetric(edges[..|edges| - 1], n, i, j);
    }
  }

  /** `to_adjacency_matrix()` with `n = len(nodes)`: an `n`-by-`n` zero
      matrix, then `matrix[a][b] = w` and `matrix[b][a] = w` for each edge
      in order. */
  method ToAdjacencyMatrix(n: nat, edges: seq<Edge>) returns (matrix: seq<seq<int>>)
    requires EdgesIn(edges, n)
    ensures |matrix| == n && forall i :: 0 <= i < n ==> |matrix[i]| == n
    ensures forall i, j :: 0 <= i < n && 0 <= j < n ==> matrix[i][j] == LastWeight(edges, n, i, j)
    ensures forall i, j :: 0 <= i < n && 0 <= j < n ==> matrix[i][j] == matrix[j][i]
  {
    matrix := seq(n, _ => seq(n, _ => 0));
    var k := 0;
    while k < |edges|
      invariant 0 <= k <= |edges|
      invariant |matrix| == n && forall i :: 0 <= i < n ==> |matrix[i]| == n
      invariant forall i, j :: 0 <= i < n && 0 <= j < n ==> matrix[i][j] == LastWeight(edges[..k], n, i, j)
    {
      var e := edges[k];
      var a, b := PyIndex(e.a, n), PyIndex(e.b, n);
      matrix := matrix[a := matrix[a][b := e.w]];
      matrix := matrix[b := matrix[b][a := e.w]];
      assert edges[..k + 1][..k] == edges[..k];
      k := k + 1;
    }
    assert edges[..k] == edges;
    forall i, j | 0 <= i < n && 0 <= j < n
      ensures matrix[i][j] == matrix[j][i]
    {
      LastWeightSymmetric(edges, n, i, j);
    }
  }

  // ------------------------------------------------------ the CSR graph

  /** `Graph`: the matrix size and the three CSR lists. */
  class Graph {
    var m: nat
    var n: nat
    var colIndex: seq<int>
    var rowIndex: seq<int>
    var values: seq<int>

    /** `Graph(graph_matrix)`: one pass over the rows appends each row's
        start to `row_index` and its non-zero cells to `col_index` and
        `values`; the total is appended last. */
    constructor (matrix: seq<seq<int>>)
      requires RowsCover(matrix)
      ensures m == |matrix| && n == |matrix|
      ensures rowIndex == RowIndex(matrix)
      ensures colIndex == Cols(matrix, |matrix|) && values == Vals(matrix, |matrix|)
    {
      m := |matrix|;
      n := |matrix|;
      colIndex := [];
      rowIndex := [];
      values := [];
      new;
      var colLength := 0;
      var i := 0;
      ConvertedStart(matrix);
      while i < m
        invariant 0 <= i <= m && m == |matrix| && n == |matrix|
        invariant Converted(matrix, i, rowIndex, colIndex, values, colLength)
        decreases m - i
      {
        var cols, vals, count := ConvertRow(matrix, i, colIndex, values, colLength);
        ConvertedStep(matrix, i, rowIndex, colIndex, values, colLength, cols, vals);
        rowIndex, colIndex, values, colLength := rowIndex + [colLength], cols, vals, count;
        i := i + 1;
      }
      ConvertedDone(matrix, rowIndex, colIndex, values, colLength);
      rowIndex := rowIndex + [colLength];
    }

    /** `str(graph)`: the three lists as `.row_index`, `.col_index` and
        `.values` sections. */
    function Str(): string
      reads this
    {
      Section(".row_index", rowIndex) + Section(".col_index", colIndex) + Section(".values", values)
    }
  }

  /** The state of `Graph.__init__` once rows `0 .. i-1` are converted. */
  predicate Converted(matrix: seq<seq<int>>, i: nat, rows: seq<int>, cols: seq<int>, vals: seq<int>, colLength: int) {
    && RowsCover(matrix) && i <= |matrix|
    && rows == Starts(matrix, i) && cols == Cols(matrix, i) && vals == Vals(matrix, i)
    && colLength == |cols|
  }

  lemma ConvertedStart(matrix: seq<seq<int>>)
    requires RowsCover(matrix)
    ensures Converted(matrix, 0, [], [], [], 0)
  {
  }

  lemma ConvertedDone(matrix: seq<seq<int>>, rows: seq<int>, cols: seq<int>, vals: seq<int>, colLength: int)
    requires Converted(matrix, |matrix|, rows, cols, vals, colLength)
    ensures rows + [colLength] == RowIndex(matrix)
    ensures cols == Cols(matrix, |matrix|) && vals == Vals(matrix, |matrix|)
  {
    assert Starts(matrix, |matrix| + 1) == rows + [colLength];
  }

  lemma ConvertedStep(matrix: seq<seq<int>>, i: nat, rows: seq<int>, cols: seq<int>, vals: seq<int>, colLength: int,
                      cols1: seq<int>, vals1: seq<int>)
    requires Converted(matrix, i, rows, cols, vals, colLength) && i < |matrix|
    requires cols1 == cols + NonZeroCols(matrix[i], |matrix|) && vals1 == vals + NonZeroVals(matrix[i], |matrix|)
    ensures Converted(matrix, i + 1, rows + [colLength], cols1, vals1, |cols1|)
  {
    assert Starts(matrix, i + 1) == rows + [colLength];
    assert Cols(matrix, i + 1) == cols1;
    assert Vals(matrix, i + 1) == vals1;
  }

  /** The inner loop of `Graph.__init__`: row `i`'s non-zero cells, left to
      right, appended to `col_index` and `values` and counted in
      `col_length`. */
  method ConvertRow(matrix: seq<seq<int>>, i: nat, colIndex0: seq<int>, values0: seq<int>, colLength0: nat)
    returns (colIndex: seq<int>, values: seq<int>, colLength: nat)
    requires RowsCover(matrix) && i < |matrix| && colLength0 == |colIndex0|
    ensures colIndex == colIndex0 + NonZeroCols(matrix[i], |matrix|)
    ensures values == values0 + NonZeroVals(matrix[i], |matrix|)
    ensures colLength == |colIndex|
  {
    var n := |matrix|;
    colIndex, values, colLength := colIndex0, values0, colLength0;
    var j := 0;
    while j < n
      invariant 0 <= j <= n
      invariant colIndex == colIndex0 + NonZeroCols(matrix[i], j)
      invariant values == values0 + NonZeroVals(matrix[i], j)
      invariant colLength == |colIndex|
      decreases n - j
    {
      if matrix[i][j] != 0 {
        colIndex := colIndex + [j];
        values := values + [matrix[i][j]];
        colLength := colLength + 1;
      }
      j := j + 1;
    }
  }

  /** One section of the printed graph: its heading, the comma-joined list
      on one line, then a blank line. */
  function Section(heading: string, xs: seq<int>): string {
    heading + "\n" + ListText(xs) + "\n\n"
  }

  /** The three lines printed for one section. */
  function Block(h: string, xs: seq<int>): seq<string> {
    [h + "\n", ListText(xs) + "\n", "\n"]
  }

  /** The same three lines once cleaned. */
  function Cleaned(h: string, xs: seq<int>): seq<string> {
    [h, ListText(xs), ""]
  }

  /** A printed section is read back as its three lines. */
  lemma SectionLines(heading: string, xs: seq<int>, rest: string)
    requires forall k :: 0 <= k < |heading| ==> heading[k] != '\n'
    ensures ReadLines(Section(heading, xs) + rest) == Block(heading, xs) + ReadLines(rest)
  {
    var l := ListText(xs);
    assert forall k :: 0 <= k < |l| ==> l[k] != '\n' by {
      ListTextChars(xs);
    }
    Regroup(heading, l, rest);
    ThreeLines(heading, l, rest);
  }

  lemma Regroup(heading: string, l: string, rest: string)
    ensures heading + "\n" + l + "\n\n" + rest == heading + "\n" + (l + "\n" + ("\n" + rest))
  {
  }

  /** Two lines and a blank line are read off the front of the text. */
  lemma ThreeLines(a: string, b: string, rest: string)
    requires forall k :: 0 <= k < |a| ==> a[k] != '\n'
    requires forall k :: 0 <= k < |b| ==> b[k] != '\n'
    ensures ReadLines(a + "\n" + (b + "\n" + ("\n" + rest))) == [a + "\n", b + "\n", "\n"] + ReadLines(rest)
  {
    var t2 := "\n" + rest;
    var t1 := b + "\n" + t2;
    var r := ReadLines(rest);
    assert ReadLines(t2) == ["\n"] + r by {
      BlankLineCons(rest);
    }
    assert ReadLines(t1) == [b + "\n"] + (["\n"] + r) by {
      ReadLinesCons(b, t2);
    }
    assert ReadLines(a + "\n" + t1) == [a + "\n"] + ([b + "\n"] + (["\n"] + r)) by {
      ReadLinesCons(a, t1);
    }
    ConsThree(a + "\n", b + "\n", "\n", r);
  }

  lemma ConsThree<T>(x: T, y: T, z: T, r: seq<T>)
    ensures [x] + ([y] + ([z] + r)) == [x, y, z] + r
  {
  }

  lemma BlankLineCons(rest: string)
    ensures ReadLines("\n" + rest) == ["\n"] + ReadLines(rest)
  {
    ReadLinesCons("", rest);
    assert "" + "\n" + rest == "\n" + rest;
  }

  /** The lines of the printed graph: each heading, its list, a blank line. */
  function PrintedLines(g: Graph): seq<string>
    reads g
  {
    Block(".row_index", g.rowIndex) + Block(".col_index", g.colIndex) + Block(".values", g.values)
  }

  /** Read back line by line, the printed graph is its three headings in
      order, each followed by its comma-joined list and a blank line. */
  lemma StrLines(g: Graph)
    ensures ReadLines(g.Str()) == PrintedLines(g)
  {
    SectionsLines(".row_index", ".col_index", ".values", g.rowIndex, g.colIndex, g.values);
  }

  /** Three printed sections are read back as nine lines. */
  lemma SectionsLines(h1: string, h2: string, h3: string, rows: seq<int>, cols: seq<int>, vals: seq<int>)
    requires forall k :: 0 <= k < |h1| ==> h1[k] != '\n'
    requires forall k :: 0 <= k < |h2| ==> h2[k] != '\n'
    requires forall k :: 0 <= k < |h3| ==> h3[k] != '\n'
    ensures ReadLines(Section(h1, rows) + Section(h2, cols) + Section(h3, vals)) ==
      Block(h1, rows) + Block(h2, cols) + Block(h3, vals)
  {
    var a, b, c := Section(h1, rows), Section(h2, cols), Section(h3, vals);
    var la, lb, lc := Block(h1, rows), Block(h2, cols), Block(h3, vals);
    assert ReadLines(c) == lc by {
      SectionLines(h3, vals, []);
      assert c + [] == c;
      assert lc + [] == lc;
    }
    assert ReadLines(b + c) == lb + lc by {
      SectionLines(h2, cols, c);
    }
    assert ReadLines(a + (b + c)) == la + (lb + lc) by {
      SectionLines(h1, rows, b + c);
    }
    assert a + b + c == a + (b + c);
    assert la + lb + lc == la + (lb + lc);
  }

  /** A printed list line cleans to the list's text. */
  lemma CleanListLine(xs: seq<int>)
    ensures Assembler.Clean(ListText(xs) + "\n") == ListText(xs)
  {
    var s := ListText(xs);
    ListTextChars(xs);
    assert forall k :: 0 <= k < |s + "\n"| ==> (s + "\n")[k] != ';';
    PyText.StripLineEnd(s);
  }

  /** Pass 2 reads a printed list line back as its list. */
  lemma ListLineReads(labels: map<string, nat>, xs: seq<int>)
    requires xs != []
    ensures Assembler.SourceReaders(labels).list(ListText(xs)) == Ok(xs)
  {
    ListTextReadsBack(xs);
  }

  /** `a` with data list `d` replaced by `xs`. */
  function WithList(a: Assembler.Assembly, d: Assembler.DataList, xs: seq<int>): Assembler.Assembly {
    match d
    case RowIndex => a.(rowIndex := xs)
    case ColIndex => a.(colIndex := xs)
    case Values => a.(values := xs)
    case Mem => a.(mem := xs)
  }

  /** A non-blank line of a data section appends what the list reader
      makes of it. */
  lemma DataLineStep(rd: Assembler.Readers, st: Assembler.Pass2, d: Assembler.DataList, l: string)
    requires d != Assembler.Mem && st.section == Some(Assembler.Heading(d))
    requires l != [] && !Assembler.IsDirective(l) && rd.list(l).Ok?
    ensures Assembler.Pass2Step(rd, st, l) ==
      Ok(st.(out := WithList(st.out, d, Assembler.ListOf(st.out, d) + rd.list(l).value)))
  {
    match d
    case RowIndex =>
      assert st.section != Some(".code");
    case ColIndex =>
      assert st.section != Some(".code") && st.section != Some(".row_index");
    case Values =>
      assert st.section != Some(".code") && st.section != Some(".row_index") && st.section != Some(".col_index");
  }

  /** Line `l` of a data section contributes `xs`: a blank line nothing, a
      list line what `rd` reads from it. */
  predicate LineGives(rd: Assembler.Readers, l: string, xs: seq<int>) {
    if l == [] then xs == [] else !Assembler.IsDirective(l) && rd.list(l) == Ok(xs)
  }

  /** A line of a data section appends what it contributes. */
  lemma ListLineStep(rd: Assembler.Readers, st: Assembler.Pass2, d: Assembler.DataList, l: string, xs: seq<int>)
    requires d != Assembler.Mem && st.section == Some(Assembler.Heading(d)) && LineGives(rd, l, xs)
    ensures Assembler.Pass2Step(rd, st, l) ==
      Ok(st.(out := WithList(st.out, d, Assembler.ListOf(st.out, d) + xs)))
  {
    if l == [] {
      Assembler.BlankStep(rd, st, l);
      assert Assembler.ListOf(st.out, d) + xs == Assembler.ListOf(st.out, d);
      assert WithList(st.out, d, Assembler.ListOf(st.out, d)) == st.out by {
        match d
        case RowIndex =>
        case ColIndex =>
        case Values =>
      }
    } else {
      DataLineStep(rd, st, d, l);
    }
  }

  /** The printed line of a list gives the list back; an empty list prints
      as a blank line. */
  lemma PrintedLineGives(labels: map<string, nat>, xs: seq<int>)
    ensures LineGives(Assembler.SourceReaders(labels), ListText(xs), xs)
  {
    ListTextChars(xs);
    if xs != [] {
      ListLineReads(labels, xs);
    }
  }

  /** A heading line the cleaning leaves as it is. */
  predicate PlainHeading(h: string) {
    && h != [] && !PyText.IsSpace(h[0]) && !PyText.IsSpace(h[|h| - 1])
    && forall k :: 0 <= k < |h| ==> h[k] != ';' && h[k] != '\n'
  }

  lemma CleanHeading(h: string)
    requires PlainHeading(h)
    ensures Assembler.Clean(h + "\n") == h
  {
    assert forall k :: 0 <= k < |h + "\n"| ==> (h + "\n")[k] != ';';
    PyText.StripLineEnd(h);
  }

  /** The printed lines as both passes see them. */
  lemma CleanedLines(h1: string, h2: string, h3: string, rows: seq<int>, cols: seq<int>, vals: seq<int>)
    requires PlainHeading(h1) && PlainHeading(h2) && PlainHeading(h3)
    ensures Assembler.CleanAll(Block(h1, rows) + Block(h2, cols) + Block(h3, vals)) ==
      Cleaned(h1, rows) + Cleaned(h2, cols) + Cleaned(h3, vals)
  {
    var b1, b2, b3 := Block(h1, rows), Block(h2, cols), Block(h3, vals);
    CleanAllAppend(b1, b2);
    CleanAllAppend(b1 + b2, b3);
    CleanBlock(h1, rows);
    CleanBlock(h2, cols);
    CleanBlock(h3, vals);
  }

  lemma CleanBlock(h: string, xs: seq<int>)
    requires PlainHeading(h)
    ensures Assembler.CleanAll(Block(h, xs)) == Cleaned(h, xs)
  {
    CleanThree(h + "\n", ListText(xs) + "\n", "\n");
    CleanHeading(h);
    CleanListLine(xs);
    CleanBlank();
  }

  lemma CleanThree(a: string, b: string, c: string)
    ensures Assembler.CleanAll([a, b, c]) == [Assembler.Clean(a), Assembler.Clean(b), Assembler.Clean(c)]
  {
  }

  lemma CleanAllAppend(a: seq<string>, b: seq<string>)
    ensures Assembler.CleanAll(a + b) == Assembler.CleanAll(a) + Assembler.CleanAll(b)
  {
  }

  lemma CleanBlank()
    ensures Assembler.Clean("\n") == ""
  {
    PyText.StripLineEnd("");
  }

  /** A printed section, cleaned: heading, list line, blank line. Pass 2
      moves to the section and appends the list. */
  lemma BlockStep(rd: Assembler.Readers, ls: seq<string>, k: nat, d: Assembler.DataList, xs: seq<int>,
                  st: Assembler.Pass2)
    requires d != Assembler.Mem && k + 3 <= |ls|
    requires ls[k] == Assembler.Heading(d) && LineGives(rd, ls[k + 1], xs) && ls[k + 2] == []
    requires Assembler.SecondPass(rd, None, ls[..k]) == Ok(st)
    ensures Assembler.SecondPass(rd, None, ls[..k + 3]) ==
      Ok(Assembler.Pass2(Some(Assembler.Heading(d)), WithList(st.out, d, Assembler.ListOf(st.out, d) + xs)))
  {
    var s1 := st.(section := Some(Assembler.Heading(d)));
    var s2 := s1.(out := WithList(st.out, d, Assembler.ListOf(st.out, d) + xs));
    Assembler.SecondPassExtend(rd, None, ls, k);
    Assembler.DirectiveStep(rd, st, ls[k]);
    Assembler.SecondPassExtend(rd, None, ls, k + 1);
    ListLineStep(rd, s1, d, ls[k + 1], xs);
    Assembler.SecondPassExtend(rd, None, ls, k + 2);
    Assembler.BlankStep(rd, s2, ls[k + 2]);
  }

  /** The cleaned lines of a printed graph, given its three list lines. */
  function Listing(lr: string, lc: string, lv: string): seq<string> {
    [".row_index", lr, ""] + [".col_index", lc, ""] + [".values", lv, ""]
  }

  /** Pass 2, entered outside any section, collects the three lists of a
      printed graph whose list lines give them. */
  lemma ListingPass(rd: Assembler.Readers, lr: string, lc: string, lv: string,
                    rows: seq<int>, cols: seq<int>, vals: seq<int>)
    requires LineGives(rd, lr, rows) && LineGives(rd, lc, cols) && LineGives(rd, lv, vals)
    ensures Assembler.SecondPass(rd, None, Listing(lr, lc, lv)) ==
      Ok(Assembler.Pass2(Some(".values"), Assembler.Assembly([], rows, cols, vals, [])))
  {
    var ls := Listing(lr, lc, lv);
    var e := Assembler.Assembly([], [], [], [], []);
    var p1 := Assembler.Pass2(Some(".row_index"), e.(rowIndex := rows));
    var p2 := Assembler.Pass2(Some(".col_index"), e.(rowIndex := rows, colIndex := cols));
    assert Assembler.SecondPass(rd, None, ls[..3]) == Ok(p1) by {
      assert Assembler.SecondPass(rd, None, ls[..0]) == Ok(Assembler.Pass2(None, e));
      BlockStep(rd, ls, 0, Assembler.RowIndex, rows, Assembler.Pass2(None, e));
      assert [] + rows == rows;
    }
    assert Assembler.SecondPass(rd, None, ls[..6]) == Ok(p2) by {
      BlockStep(rd, ls, 3, Assembler.ColIndex, cols, p1);
      assert [] + cols == cols;
    }
    BlockStep(rd, ls, 6, Assembler.Values, vals, p2);
    assert [] + vals == vals;
    assert ls[..9] == ls;
  }

  /** Both passes over the cleaned lines of a printed graph collect the
      three lists, with no code and no `.mem` words. */
  lemma AssembleListing(rows: seq<int>, cols: seq<int>, vals: seq<int>)
    ensures Assembler.AssembleLines(Listing(ListText(rows), ListText(cols), ListText(vals))) ==
      Ok(Assembler.Assembly([], rows, cols, vals, []))
  {
    var ls := Listing(ListText(rows), ListText(cols), ListText(vals));
    var labels := Assembler.FirstPassFrom(None, ls).labels;
    assert Assembler.AssembleLines(ls) == Assembler.AssembleFresh(ls) by {
      assert Assembler.FirstSignificant(ls) == 0;
      Assembler.AsWrittenAgrees(ls);
    }
    PrintedLineGives(labels, rows);
    PrintedLineGives(labels, cols);
    PrintedLineGives(labels, vals);
    ListingPass(Assembler.SourceReaders(labels), ListText(rows), ListText(cols), ListText(vals), rows, cols, vals);
  }

  /** What `__str__` prints, written to a file and assembled, gives back the
      graph's three lists, with no code and no `.mem` words. */
  lemma StrReadsBack(g: Graph)
    ensures Assembler.Assemble(ReadLines(g.Str())) ==
      Ok(Assembler.Assembly([], g.rowIndex, g.colIndex, g.values, []))
  {
    var h1, h2, h3 := ".row_index", ".col_index", ".values";
    var rows, cols, vals := g.rowIndex, g.colIndex, g.values;
    var cleaned := Cleaned(h1, rows) + Cleaned(h2, cols) + Cleaned(h3, vals);
    assert ReadLines(g.Str()) == PrintedLines(g) by {
      StrLines(g);
    }
    assert Assembler.CleanAll(PrintedLines(g)) == cleaned by {
      HeadingsPlain();
      CleanedLines(h1, h2, h3, rows, cols, vals);
    }
    assert Assembler.Assemble(ReadLines(g.Str())) == Assembler.AssembleLines(cleaned);
    assert cleaned == Listing(ListText(rows), ListText(cols), ListText(vals));
    AssembleListing(rows, cols, vals);
  }

  lemma HeadingsPlain()
    ensures PlainHeading(".row_index") && PlainHeading(".col_index") && PlainHeading(".values")
  {
  }
}
