/**
 * The graph of `GreatestCycle`: an adjacency-matrix graph turned into an edge list, and the
 * depth-first search from vertex 0 that records a cycle whenever it meets a vertex already on
 * its path.
 */
module GreatestCycle {
  import opened Wrappers
  import opened Bits

  // ---------------------------------------------------------------- Tuple and Pair

  /** `Tuple(n, elems...)`: the first `n` elements, copied into an array of length `n`. */
  function NewTuple(n: Int32, elems: seq<Int32>): (r: Result<seq<Int32>>)
    ensures r.Failure? <==> n < 0 || n > |elems|
    ensures n < 0 ==> r == Failure(NegativeArraySize)
    ensures 0 <= n && n > |elems| ==> r == Failure(IndexOutOfBounds)
    ensures r.Success? ==> |r.value| == n && r.value == elems[..n]
  {
    if n < 0 then Failure(NegativeArraySize)
    else if n > |elems| then Failure(IndexOutOfBounds)
    else Success(elems[..n])
  }

  /** A directed edge: `fst` is the source vertex and `snd` the target. */
  datatype Pair = Pair(fst: int, snd: int)

  /** `Pair(elems...)`: a tuple of two taken from the arguments; fewer than two throw. */
  function NewPair(elems: seq<Int32>): (r: Result<Pair>)
    ensures r.Failure? <==> |elems| < 2
    ensures r.Success? ==> r.value == Pair(elems[0], elems[1])
  {
    match NewTuple(2, elems)
    case Failure(e) => Failure(e)
    case Success(tuple) => Success(Pair(tuple[0], tuple[1]))
  }

  /** `Pair.hashCode`: `31 * 1 + fst + snd` in `int` arithmetic. */
  function Hash(p: Pair): Int32 {
    Wrap(31 + p.fst + p.snd)
  }

  /**
   * `Pair.equals` as written: its second test compares `fst` with `other.snd` twice, so it
   * accepts any pair whose `snd` is this pair's `fst`.
   */
  predicate EqualsAsWritten(p: Pair, other: Pair) {
    (p.fst == other.fst && p.snd == other.snd) || (p.fst == other.snd && p.fst == other.snd)
  }

  /** The as-written test is neither symmetric nor consistent with `hashCode`. */
  lemma EqualsAsWrittenAsymmetric()
    ensures EqualsAsWritten(Pair(1, 2), Pair(3, 1))
    ensures !EqualsAsWritten(Pair(3, 1), Pair(1, 2))
    ensures Hash(Pair(1, 2)) != Hash(Pair(3, 1))
  {
  }

  /** `Pair.equals` as evidently intended: the same components, in the same order or swapped. */
  predicate Equals(p: Pair, other: Pair) {
    (p.fst == other.fst && p.snd == other.snd) || (p.fst == other.snd && p.snd == other.fst)
  }

  /**
   * The intended test is an equivalence, namely equality of the unordered pairs, and equal pairs
   * have equal hash codes.
   */
  lemma EqualsMeaning(p: Pair, q: Pair, s: Pair)
    ensures Equals(p, q) <==> multiset{p.fst, p.snd} == multiset{q.fst, q.snd}
    ensures Equals(p, p)
    ensures Equals(p, q) ==> Equals(q, p)
    ensures Equals(p, q) && Equals(q, s) ==> Equals(p, s)
    ensures Equals(p, q) ==> Hash(p) == Hash(q)
  {
    var a, b := multiset{p.fst, p.snd}, multiset{q.fst, q.snd};
    if a == b {
      assert a[p.fst] == b[p.fst] && a[p.snd] == b[p.snd];
    }
  }

  // ---------------------------------------------------------------- The edge list

  /** The edges `(i, j)` for `j < m` with `row[j] == 1`, in increasing `j`. */
  function RowEdges(row: seq<Int32>, i: int, m: nat): seq<Pair>
    requires m <= |row|
  {
    if m == 0 then [] else RowEdges(row, i, m - 1) + (if row[m - 1] == 1 then [Pair(i, m - 1)] else [])
  }

  /** Every row of the first `m` has at least `n` entries. */
  predicate RowsLongEnough(data: seq<seq<Int32>>, n: nat, m: nat)
    requires m <= |data|
  {
    forall r :: 0 <= r < m ==> |data[r]| >= n
  }

  /** The edges of the first `m` rows of the matrix, row by row. */
  function MatrixEdges(data: seq<seq<Int32>>, n: nat, m: nat): seq<Pair>
    requires m <= |data| && RowsLongEnough(data, n, m)
  {
    if m == 0 then [] else MatrixEdges(data, n, m - 1) + RowEdges(data[m - 1], m - 1, n)
  }

  /** `p` comes before `q` in row-major order. */
  predicate Before(p: Pair, q: Pair) {
    p.fst < q.fst || (p.fst == q.fst && p.snd < q.snd)
  }

  predicate RowMajor(edges: seq<Pair>) {
    forall a, b :: 0 <= a < b < |edges| ==> Before(edges[a], edges[b])
  }

  lemma {:induction false} RowEdgesMeaning(row: seq<Int32>, i: int, m: nat)
    requires m <= |row|
    ensures forall e :: e in RowEdges(row, i, m) <==> e.fst == i && 0 <= e.snd < m && row[e.snd] == 1
    ensures RowMajor(RowEdges(row, i, m))
  {
    if m > 0 {
      RowEdgesMeaning(row, i, m - 1);
      var init := RowEdges(row, i, m - 1);
      var edges := RowEdges(row, i, m);
      forall a, b | 0 <= a < b < |edges|
        ensures Before(edges[a], edges[b])
      {
        if b >= |init| {
          assert edges[a] == init[a] && init[a] in init;
        } else {
          assert edges[a] == init[a] && edges[b] == init[b];
        }
      }
    }
  }

  /**
   * The edge list holds an edge `(i, j)` exactly when `data[i][j] == 1`, once, and in row-major
   * order.
   */
  lemma {:induction false} MatrixEdgesMeaning(data: seq<seq<Int32>>, n: nat, m: nat)
    requires m <= |data| && RowsLongEnough(data, n, m)
    ensures forall e :: e in MatrixEdges(data, n, m) <==>
      0 <= e.fst < m && 0 <= e.snd < n && data[e.fst][e.snd] == 1
    ensures RowMajor(MatrixEdges(data, n, m))
  {
    if m > 0 {
      MatrixEdgesMeaning(data, n, m - 1);
      RowEdgesMeaning(data[m - 1], m - 1, n);
      var init := MatrixEdges(data, n, m - 1);
      var row := RowEdges(data[m - 1], m - 1, n);
      var edges := MatrixEdges(data, n, m);
      assert edges == init + row;
      forall a, b | 0 <= a < b < |edges|
        ensures Before(edges[a], edges[b])
      {
        if b < |init| {
          assert edges[a] == init[a] && edges[b] == init[b];
        } else if a < |init| {
          assert edges[a] == init[a] && init[a] in init;
          assert edges[b] == row[b - |init|] && row[b - |init|] in row;
        } else {
          assert edges[a] == row[a - |init|] && edges[b] == row[b - |init|];
        }
      }
    }
  }

  /** The positions `0..n-1`. */
  function Range(n: nat): (r: seq<int>)
    ensures |r| == n && forall i :: 0 <= i < n ==> r[i] == i
  {
    seq(n, i requires 0 <= i < n => i)
  }

  /** `adjacentEdges(v)`: the stored edges leaving `v`, in stored order. */
  function Adjacent(edges: seq<Pair>, v: int): seq<Pair> {
    if edges == [] then []
    else Adjacent(edges[..|edges| - 1], v) + (if edges[|edges| - 1].fst == v then [edges[|edges| - 1]] else [])
  }

  /** The adjacent edges are the stored edges leaving `v`. */
  lemma {:induction false} AdjacentMembers(edges: seq<Pair>, v: int)
    ensures forall e :: e in Adjacent(edges, v) <==> e in edges && e.fst == v
  {
    if edges != [] {
      var init := edges[..|edges| - 1];
      AdjacentMembers(init, v);
      assert edges == init + [edges[|edges| - 1]];
    }
  }

  /** From a row-major list, the edges leaving `v` come in increasing target order. */
  lemma {:induction false} AdjacentOrdered(edges: seq<Pair>, v: int)
    requires RowMajor(edges)
    ensures forall a, b :: 0 <= a < b < |Adjacent(edges, v)| ==> Adjacent(edges, v)[a].snd < Adjacent(edges, v)[b].snd
  {
    if edges != [] {
      var init := edges[..|edges| - 1];
      assert RowMajor(init) by {
        forall a, b | 0 <= a < b < |init| ensures Before(init[a], init[b]) {
          assert init[a] == edges[a] && init[b] == edges[b];
        }
      }
      AdjacentOrdered(init, v);
      AdjacentMembers(init, v);
      var adj := Adjacent(edges, v);
      var before := Adjacent(init, v);
      forall a, b | 0 <= a < b < |adj|
        ensures adj[a].snd < adj[b].snd
      {
        if b >= |before| {
          assert adj[a] == before[a] && before[a] in before;
          var ia :| 0 <= ia < |init| && init[ia] == before[a];
          assert Before(edges[ia], edges[|edges| - 1]);
        } else {
          assert adj[a] == before[a] && adj[b] == before[b];
        }
      }
    }
  }

  // ---------------------------------------------------------------- The cycle search

  predicate Distinct(s: seq<int>) {
    forall i, j :: 0 <= i < j < |s| ==> s[i] != s[j]
  }

  /** All values are vertices of a graph with `n` vertices. */
  predicate Within(s: seq<int>, n: nat) {
    forall i :: 0 <= i < |s| ==> 0 <= s[i] < n
  }

  predicate EdgesWithin(edges: seq<Pair>, n: nat) {
    forall e :: e in edges ==> 0 <= e.fst < n && 0 <= e.snd < n
  }

  /** A path without repeated vertices is at most as long as there are vertices. */
  lemma {:induction false} DistinctBound(s: seq<int>, n: nat)
    requires Distinct(s) && Within(s, n)
    ensures |s| <= n
    decreases n
  {
    if n == 0 {
    } else if n - 1 in s {
      var k :| 0 <= k < |s| && s[k] == n - 1;
      var rest := s[..k] + s[k + 1..];
      forall i | 0 <= i < |rest| ensures 0 <= rest[i] < n - 1 {
        var j := if i < k then i else i + 1;
        assert rest[i] == s[j] && j != k;
      }
      forall i, j | 0 <= i < j < |rest| ensures rest[i] != rest[j] {
        var i' := if i < k then i else i + 1;
        var j' := if j < k then j else j + 1;
        assert rest[i] == s[i'] && rest[j] == s[j'] && i' < j';
      }
      DistinctBound(rest, n - 1);
    } else {
      forall i | 0 <= i < |s| ensures 0 <= s[i] < n - 1 {
        assert s[i] in s;
      }
      DistinctBound(s, n - 1);
    }
  }

  /** `indexOf`: the first position holding `x`. */
  function IndexOf(s: seq<int>, x: int): (r: nat)
    requires x in s
    ensures r < |s| && s[r] == x && x !in s[..r]
  {
    if s[0] == x then 0 else assert s[1..][IndexOf(s[1..], x)] == x; 1 + IndexOf(s[1..], x)
  }

  /** What a search reports: the cycles it records, in order, and the exception it ends with. */
  datatype Outcome = Outcome(recorded: seq<seq<int>>, error: Option<Error>)

  /** What every call of `findCycles` is given: a path without repetition that `current` would extend. */
  predicate SearchPre(n: nat, path: seq<int>, current: int) {
    Distinct(path) && Within(path, n) && 0 <= current < n && current !in path
  }

  /** The search from `current`: it extends the path by `current` and walks the edges leaving it. */
  function SearchFrom(edges: seq<Pair>, n: nat, path: seq<int>, current: int): Outcome
    requires EdgesWithin(edges, n) && SearchPre(n, path, current)
    decreases n - |path|, 1, 0
  {
    var p := path + [current];
    assert Distinct(p) && Within(p, n);
    DistinctBound(p, n);
    AdjacentMembers(edges, current);
    SearchEdges(edges, n, p, Adjacent(edges, current), 0)
  }

  /** The edges of the path's last vertex from position `k`. */
  predicate EdgesFromLast(edges: seq<Pair>, p: seq<int>, adj: seq<Pair>)
    requires p != []
  {
    forall e :: e in adj ==> e in edges && e.fst == p[|p| - 1]
  }

  /** What the loop over the edges of the path's last vertex relies on. */
  predicate LoopPre(edges: seq<Pair>, n: nat, p: seq<int>, adj: seq<Pair>) {
    EdgesWithin(edges, n) && Distinct(p) && Within(p, n) && p != [] && |p| <= n && EdgesFromLast(edges, p, adj)
  }

  /**
   * The cycle an edge from the last vertex of the path to `snd` closes: the path from `snd` on,
   * unless `snd` is the vertex just before the last one.
   */
  function Closed(p: seq<int>, snd: int): seq<seq<int>>
    requires p != [] && !(snd in p && |p| < 2)
  {
    if snd in p && p[|p| - 2] != snd then [p[IndexOf(p, snd)..]] else []
  }

  /** The search along an edge to `snd`: none when `snd` is on the path, the search from it otherwise. */
  function Deeper(edges: seq<Pair>, n: nat, p: seq<int>, snd: int): Outcome
    requires EdgesWithin(edges, n) && Distinct(p) && Within(p, n) && |p| <= n && 0 <= snd < n
    decreases n - |p| + 1, 0, 0
  {
    if snd in p then Outcome([], None) else SearchFrom(edges, n, p, snd)
  }

  /**
   * The loop over the edges from position `k`: a target on the path closes a cycle (when the path
   * has no vertex before the last, reading it throws); a target off the path is searched from.
   * An exception ends everything.
   */
  function SearchEdges(edges: seq<Pair>, n: nat, p: seq<int>, adj: seq<Pair>, k: nat): Outcome
    requires LoopPre(edges, n, p, adj) && k <= |adj|
    decreases n - |p| + 1, 0, |adj| - k
  {
    if k == |adj| then Outcome([], None)
    else
      var snd := adj[k].snd;
      assert adj[k] in adj;
      if snd in p && |p| < 2 then Outcome([], Some(IndexOutOfBounds))
      else
        var deeper := Deeper(edges, n, p, snd);
        if deeper.error.Some? then Outcome(Closed(p, snd) + deeper.recorded, deeper.error)
        else
          var rest := SearchEdges(edges, n, p, adj, k + 1);
          Outcome(Closed(p, snd) + deeper.recorded + rest.recorded, rest.error)
  }

  /** Consecutive vertices are joined by edges. */
  predicate IsPath(edges: seq<Pair>, s: seq<int>) {
    forall i :: 0 <= i < |s| - 1 ==> Pair(s[i], s[i + 1]) in edges
  }

  /**
   * A cycle as the search records it: a path without repetition whose last vertex has an edge
   * back to its first, of one vertex (a loop) or of three or more, never two.
   */
  predicate IsCycle(edges: seq<Pair>, c: seq<int>) {
    c != [] && Distinct(c) && IsPath(edges, c) && Pair(c[|c| - 1], c[0]) in edges && |c| != 2
  }

  /** Every cycle the search records from a path is a cycle of the graph. */
  lemma {:induction false} SearchFromCycles(edges: seq<Pair>, n: nat, path: seq<int>, current: int)
    requires EdgesWithin(edges, n) && SearchPre(n, path, current) && IsPath(edges, path)
    requires path != [] ==> Pair(path[|path| - 1], current) in edges
    ensures forall c :: c in SearchFrom(edges, n, path, current).recorded ==> IsCycle(edges, c)
    decreases n - |path|, 1, 0
  {
    var p := path + [current];
    assert Distinct(p) && Within(p, n);
    DistinctBound(p, n);
    AdjacentMembers(edges, current);
    assert IsPath(edges, p) by {
      forall i | 0 <= i < |p| - 1 ensures Pair(p[i], p[i + 1]) in edges {
        if i < |path| - 1 {
          assert p[i] == path[i] && p[i + 1] == path[i + 1];
        }
      }
    }
    SearchEdgesCycles(edges, n, p, Adjacent(edges, current), 0);
  }

  lemma {:induction false} SearchEdgesCycles(edges: seq<Pair>, n: nat, p: seq<int>, adj: seq<Pair>, k: nat)
    requires LoopPre(edges, n, p, adj) && k <= |adj| && IsPath(edges, p)
    ensures forall c :: c in SearchEdges(edges, n, p, adj, k).recorded ==> IsCycle(edges, c)
    decreases n - |p| + 1, 0, |adj| - k
  {
    if k < |adj| {
      var snd := adj[k].snd;
      assert adj[k] in adj;
      if !(snd in p && |p| < 2) {
        if snd in p && p[|p| - 2] != snd {
          var i := IndexOf(p, snd);
          var c := p[i..];
          assert c[|c| - 1] == p[|p| - 1] && c[0] == snd;
          assert Pair(c[|c| - 1], c[0]) == adj[k];
          assert IsPath(edges, c) by {
            forall q | 0 <= q < |c| - 1 ensures Pair(c[q], c[q + 1]) in edges {
              assert c[q] == p[i + q] && c[q + 1] == p[i + q + 1];
            }
          }
          assert Distinct(c) by {
            forall a, b | 0 <= a < b < |c| ensures c[a] != c[b] {
              assert c[a] == p[i + a] && c[b] == p[i + b];
            }
          }
        }
        if snd !in p {
          SearchFromCycles(edges, n, p, snd);
        }
        var deeper := Deeper(edges, n, p, snd);
        if deeper.error.None? {
          SearchEdgesCycles(edges, n, p, adj, k + 1);
        }
      }
    }
  }

  /** Once the path has a vertex before the current one, reading it never fails. */
  lemma {:induction false} DeepSearchSucceeds(edges: seq<Pair>, n: nat, path: seq<int>, current: int)
    requires EdgesWithin(edges, n) && SearchPre(n, path, current) && path != []
    ensures SearchFrom(edges, n, path, current).error == None
    decreases n - |path|, 1, 0
  {
    var p := path + [current];
    assert Distinct(p) && Within(p, n);
    DistinctBound(p, n);
    AdjacentMembers(edges, current);
    DeepEdgesSucceed(edges, n, p, Adjacent(edges, current), 0);
  }

  lemma {:induction false} DeepEdgesSucceed(edges: seq<Pair>, n: nat, p: seq<int>, adj: seq<Pair>, k: nat)
    requires LoopPre(edges, n, p, adj) && k <= |adj| && |p| >= 2
    ensures SearchEdges(edges, n, p, adj, k).error == None
    decreases n - |p| + 1, 0, |adj| - k
  {
    if k < |adj| {
      var snd := adj[k].snd;
      assert adj[k] in adj;
      if snd !in p {
        DeepSearchSucceeds(edges, n, p, snd);
      }
      DeepEdgesSucceed(edges, n, p, adj, k + 1);
    }
  }

  /** From a path of one vertex, the edges from `k` on fail exactly when one of them is a loop. */
  lemma {:induction false} TopEdgesFail(edges: seq<Pair>, n: nat, v: int, adj: seq<Pair>, k: nat)
    requires EdgesWithin(edges, n) && 0 <= v < n
    requires LoopPre(edges, n, [v], adj) && k <= |adj|
    ensures SearchEdges(edges, n, [v], adj, k).error.Some? <==> exists j :: k <= j < |adj| && adj[j].snd == v
    ensures SearchEdges(edges, n, [v], adj, k).error.Some? ==>
      SearchEdges(edges, n, [v], adj, k).error == Some(IndexOutOfBounds)
    decreases |adj| - k
  {
    if k < |adj| {
      var snd := adj[k].snd;
      assert adj[k] in adj;
      if snd != v {
        DeepSearchSucceeds(edges, n, [v], snd);
        TopEdgesFail(edges, n, v, adj, k + 1);
        if exists j :: k <= j < |adj| && adj[j].snd == v {
          var j :| k <= j < |adj| && adj[j].snd == v;
          assert j != k;
        }
      }
    }
  }

  /** The search from a vertex fails exactly when the vertex has a loop, and then with IndexOutOfBounds. */
  lemma SearchFailsOnLoop(edges: seq<Pair>, n: nat, v: int)
    requires EdgesWithin(edges, n) && 0 <= v < n
    ensures SearchFrom(edges, n, [], v).error.Some? <==> Pair(v, v) in edges
    ensures SearchFrom(edges, n, [], v).error.Some? ==> SearchFrom(edges, n, [], v).error == Some(IndexOutOfBounds)
  {
    AdjacentMembers(edges, v);
    var adj := Adjacent(edges, v);
    assert [] + [v] == [v];
    TopEdgesFail(edges, n, v, adj, 0);
    if Pair(v, v) in edges {
      assert Pair(v, v) in adj;
      var j :| 0 <= j < |adj| && adj[j] == Pair(v, v);
    }
    if exists j :: 0 <= j < |adj| && adj[j].snd == v {
      var j :| 0 <= j < |adj| && adj[j].snd == v;
      assert adj[j] in adj;
    }
  }

  /** The vertices of a recorded cycle, as the set `findAllCycles` returns for it. */
  function Elements(c: seq<int>): set<int> {
    set x | x in c
  }

  // ---------------------------------------------------------------- AdjacencyListGraph

  class AdjacencyListGraph {
    const edges: seq<Pair>
    const vertices: seq<int>
    /** The cycles recorded by all searches so far. */
    var cycles: seq<seq<int>>

    /** The vertices are `0..n-1` and every edge joins two of them. */
    predicate Valid() {
      vertices == Range(|vertices|) && EdgesWithin(edges, |vertices|)
    }

    constructor Init(vertices: seq<int>, edges: seq<Pair>)
      ensures this.vertices == vertices && this.edges == edges && cycles == []
    {
      this.vertices := vertices;
      this.edges := edges;
      cycles := [];
    }

    /**
     * The constructor over an `n`-by-`n` matrix: vertices `0..n-1` and an edge `(i, j)` for each
     * entry equal to one, row by row. The edge list's initial capacity `n * n` is `int` arithmetic:
     * when it wraps to a negative number the list throws IllegalArgumentException before any row
     * is read. A row shorter than `n` throws ArrayIndexOutOfBoundsException.
     */
    static method Create(data: seq<seq<Int32>>) returns (r: Result<AdjacencyListGraph>)
      ensures r.Failure? <==> Wrap(|data| * |data|) < 0 || !RowsLongEnough(data, |data|, |data|)
      ensures r.Failure? ==>
        r.error == if Wrap(|data| * |data|) < 0 then IllegalArgument else IndexOutOfBounds
      ensures r.Success? ==>
        fresh(r.value) && r.value.Valid() && r.value.cycles == [] &&
        r.value.vertices == Range(|data|) && r.value.edges == MatrixEdges(data, |data|, |data|)
    {
      var n := |data|;
      if Wrap(n * n) < 0 {
        return Failure(IllegalArgument);
      }
      var vertices: seq<int> := [];
      var edges: seq<Pair> := [];
      for i := 0 to n
        invariant vertices == Range(i)
        invariant RowsLongEnough(data, n, i) && edges == MatrixEdges(data, n, i)
      {
        vertices := vertices + [i];
        if |data[i]| < n {
          return Failure(IndexOutOfBounds);
        }
        for j := 0 to n
          invariant edges == MatrixEdges(data, n, i) + RowEdges(data[i], i, j)
        {
          if data[i][j] == 1 {
            edges := edges + [Pair(i, j)];
          }
        }
        assert RowsLongEnough(data, n, i + 1);
      }
      MatrixEdgesMeaning(data, n, n);
      var g := new AdjacencyListGraph.Init(vertices, edges);
      r := Success(g);
    }

    /** `adjacentEdges`: the loop over the stored edges keeping those leaving `v`. */
    method AdjacentEdges(v: int) returns (adjacents: seq<Pair>)
      ensures adjacents == Adjacent(edges, v)
    {
      adjacents := [];
      for k := 0 to |edges|
        invariant adjacents == Adjacent(edges[..k], v)
      {
        var edge := edges[k];
        if edge.fst == v {
          adjacents := adjacents + [edge];
        }
        assert edges[..k + 1][..k] == edges[..k];
      }
      assert edges[..|edges|] == edges;
    }

    /**
     * `findCycles`: extends the path (a copy of the caller's) by `current`, records a cycle for
     * each edge back onto the path, and searches on along each edge off the path. The set of
     * visited vertices is always the set of vertices on the path.
     */
    method FindCycles(start: int, current: int, path: seq<int>, visited: set<int>) returns (e: Option<Error>)
      requires Valid() && SearchPre(|vertices|, path, current) && visited == Elements(path)
      modifies this`cycles
      ensures cycles == old(cycles) + SearchFrom(edges, |vertices|, path, current).recorded
      ensures e == SearchFrom(edges, |vertices|, path, current).error
      decreases |vertices| - |path|, 2
    {
      var p := path + [current];
      var seen := visited + {current};
      assert Distinct(p) && Within(p, |vertices|);
      DistinctBound(p, |vertices|);
      AdjacentMembers(edges, current);
      var adj := AdjacentEdges(current);
      assert seen == Elements(p);
      e := VisitEdges(start, p, seen, adj);
    }

    /** The loop of `findCycles` over the edges leaving the last vertex of the path. */
    method VisitEdges(start: int, p: seq<int>, seen: set<int>, adj: seq<Pair>) returns (e: Option<Error>)
      requires Valid() && LoopPre(edges, |vertices|, p, adj) && seen == Elements(p)
      modifies this`cycles
      ensures cycles == old(cycles) + SearchEdges(edges, |vertices|, p, adj, 0).recorded
      ensures e == SearchEdges(edges, |vertices|, p, adj, 0).error
      decreases |vertices| - |p| + 1, 1
    {
      ghost var n := |vertices|;
      ghost var total := SearchEdges(edges, n, p, adj, 0);
      ghost var acc: seq<seq<int>> := [];
      for k := 0 to |adj|
        invariant cycles == old(cycles) + acc
        invariant total.recorded == acc + SearchEdges(edges, n, p, adj, k).recorded
        invariant total.error == SearchEdges(edges, n, p, adj, k).error
      {
        var edge := adj[k];
        assert edge in adj;
        if edge.snd in seen && |p| < 2 {
          return Some(IndexOutOfBounds);
        }
        ghost var step := Closed(p, edge.snd) + Deeper(edges, n, p, edge.snd).recorded;
        var err := VisitEdge(start, p, seen, edge.snd);
        assert old(cycles) + (acc + step) == (old(cycles) + acc) + step;
        if err.Some? {
          return err;
        }
        ghost var rest := SearchEdges(edges, n, p, adj, k + 1);
        assert acc + (step + rest.recorded) == (acc + step) + rest.recorded;
        acc := acc + step;
      }
      e := None;
    }

    /**
     * The body of the loop in `findCycles` for one edge to `snd` that can be checked: records the
     * cycle it closes, then searches on from `snd` when it is off the path.
     */
    method VisitEdge(start: int, p: seq<int>, seen: set<int>, snd: int) returns (err: Option<Error>)
      requires Valid() && Distinct(p) && Within(p, |vertices|) && p != [] && |p| <= |vertices|
      requires 0 <= snd < |vertices| && seen == Elements(p) && !(snd in p && |p| < 2)
      modifies this`cycles
      ensures cycles == old(cycles) + (Closed(p, snd) + Deeper(edges, |vertices|, p, snd).recorded)
      ensures err == Deeper(edges, |vertices|, p, snd).error
      decreases |vertices| - |p| + 1, 0
    {
      var isCycle := snd in seen && p[|p| - 2] != snd;
      if isCycle {
        cycles := cycles + [p[IndexOf(p, snd)..]];
      }
      ghost var mid := cycles;
      assert mid == old(cycles) + Closed(p, snd);
      err := None;
      if snd !in seen {
        err := FindCycles(start, snd, p, seen);
      } else {
        assert mid + [] == mid;
      }
      assert old(cycles) + (Closed(p, snd) + Deeper(edges, |vertices|, p, snd).recorded) ==
        (old(cycles) + Closed(p, snd)) + Deeper(edges, |vertices|, p, snd).recorded;
    }

    /**
     * `findAllCycles`: searches from vertex 0 only, then returns the vertex sets of all cycles
     * recorded so far. An empty graph has no vertex 0 and throws IndexOutOfBoundsException.
     */
    method FindAllCycles() returns (r: Result<set<set<int>>>)
      requires Valid()
      modifies this`cycles
      ensures |vertices| == 0 ==> r == Failure(IndexOutOfBounds) && cycles == old(cycles)
      ensures |vertices| > 0 ==> cycles == old(cycles) + SearchFrom(edges, |vertices|, [], 0).recorded
      ensures |vertices| > 0 && SearchFrom(edges, |vertices|, [], 0).error.Some? ==>
        r == Failure(SearchFrom(edges, |vertices|, [], 0).error.value)
      ensures r.Success? ==>
        SearchFrom(edges, |vertices|, [], 0).error.None? && r.value == set c | c in cycles :: Elements(c)
    {
      if |vertices| == 0 {
        return Failure(IndexOutOfBounds);
      }
      var v := vertices[0];
      var e := FindCycles(v, v, [], {});
      if e.Some? {
        return Failure(e.value);
      }
      var cs: set<set<int>> := {};
      for k := 0 to |cycles|
        invariant cs == set c | c in cycles[..k] :: Elements(c)
      {
        cs := cs + {Elements(cycles[k])};
        assert cycles[..k + 1] == cycles[..k] + [cycles[k]];
      }
      assert cycles[..|cycles|] == cycles;
      r := Success(cs);
    }
  }

  /**
   * What `findAllCycles` records on a graph built from a matrix: cycles of the graph only, and it
   * throws exactly when vertex 0 has a loop.
   */
  lemma AllCyclesMeaning(edges: seq<Pair>, n: nat)
    requires EdgesWithin(edges, n) && n > 0
    ensures forall c :: c in SearchFrom(edges, n, [], 0).recorded ==> IsCycle(edges, c)
    ensures SearchFrom(edges, n, [], 0).error.Some? <==> Pair(0, 0) in edges
  {
    SearchFromCycles(edges, n, [], 0);
    SearchFailsOnLoop(edges, n, 0);
  }
}
