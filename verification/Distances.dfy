/** `matrix_distances`: the in-place Floyd-Warshall oracle returns exact shortest walk lengths. */
module Distances {
  import opened Orders

  datatype Distance = Infinite | Finite(steps: nat)

  /** Parallel pairs and loops are allowed; an undirected graph reads each pair both ways. */
  datatype Graph = Graph(pairs: seq<(string, string)>, directed: bool)

  predicate Edge(g: Graph, u: string, v: string) {
    (u, v) in g.pairs || (!g.directed && (v, u) in g.pairs)
  }

  function Plus(a: Distance, b: Distance): Distance {
    if a.Finite? && b.Finite? then Finite(a.steps + b.steps) else Infinite
  }

  function Min(a: Distance, b: Distance): Distance {
    if a.Infinite? then b else if b.Infinite? then a else if b.steps < a.steps then b else a
  }

  predicate AtMost(a: Distance, k: nat) {
    a.Finite? && a.steps <= k
  }

  // ----- walks -----

  /** A walk; all its vertices but the ends lie in `inner`. */
  ghost predicate WalkVia(g: Graph, inner: set<string>, p: seq<string>, u: string, v: string) {
    && p != [] && p[0] == u && p[|p| - 1] == v
    && (forall i | 0 <= i < |p| - 1 :: Edge(g, p[i], p[i + 1]))
    && (forall i | 0 < i < |p| - 1 :: p[i] in inner)
  }

  ghost predicate WalkTo(g: Graph, p: seq<string>, u: string, v: string) {
    && p != [] && p[0] == u && p[|p| - 1] == v
    && (forall i | 0 <= i < |p| - 1 :: Edge(g, p[i], p[i + 1]))
  }

  ghost predicate Reaches(g: Graph, u: string, v: string) {
    exists p :: WalkTo(g, p, u, v)
  }

  /** `d` is the exact length of a shortest walk, or infinite when there is none. */
  ghost predicate IsDistance(g: Graph, u: string, v: string, d: Distance) {
    match d
    case Infinite => !Reaches(g, u, v)
    case Finite(k) => (exists p :: WalkTo(g, p, u, v) && |p| == k + 1)
                      && (forall p | WalkTo(g, p, u, v) :: |p| >= k + 1)
  }

  lemma JoinWalks(g: Graph, p: seq<string>, q: seq<string>, u: string, w: string, v: string)
    requires WalkTo(g, p, u, w) && WalkTo(g, q, w, v)
    ensures WalkTo(g, p + q[1..], u, v)
  {
    var r := p + q[1..];
    forall i | 0 <= i < |r| - 1 ensures Edge(g, r[i], r[i + 1]) {
      if i < |p| - 1 {
        assert r[i] == p[i] && r[i + 1] == p[i + 1];
      } else {
        assert r[i] == q[i - |p| + 1] && r[i + 1] == q[i - |p| + 2];
      }
    }
  }

  // ----- the recurrence -----

  function Base(g: Graph, u: string, v: string): Distance {
    if u == v then Finite(0) else if Edge(g, u, v) then Finite(1) else Infinite
  }

  /** Shortest length using the first `k` identifiers as intermediate vertices. */
  function Best(g: Graph, ids: seq<string>, k: nat, u: string, v: string): Distance
    requires k <= |ids|
    decreases k
  {
    if k == 0 then Base(g, u, v)
    else
      var w := ids[k - 1];
      Min(Best(g, ids, k - 1, u, v), Plus(Best(g, ids, k - 1, u, w), Best(g, ids, k - 1, w, v)))
  }

  lemma {:induction false} BestSelf(g: Graph, ids: seq<string>, k: nat, u: string)
    requires k <= |ids|
    ensures Best(g, ids, k, u, u) == Finite(0)
  {
    if k > 0 { BestSelf(g, ids, k - 1, u); }
  }

  /** Stage `k` does not change its own row and column, so updating in place is safe. */
  lemma PivotUnchanged(g: Graph, ids: seq<string>, k: nat, u: string)
    requires k < |ids|
    ensures Best(g, ids, k + 1, u, ids[k]) == Best(g, ids, k, u, ids[k])
    ensures Best(g, ids, k + 1, ids[k], u) == Best(g, ids, k, ids[k], u)
  {
    BestSelf(g, ids, k, ids[k]);
  }

  /** Every finite entry is the length of some walk. */
  lemma {:induction false} BestIsWalk(g: Graph, ids: seq<string>, k: nat, u: string, v: string) returns (p: seq<string>)
    requires k <= |ids| && Best(g, ids, k, u, v).Finite?
    ensures WalkTo(g, p, u, v) && |p| == Best(g, ids, k, u, v).steps + 1
  {
    if k == 0 {
      p := if u == v then [u] else [u, v];
    } else if Best(g, ids, k, u, v) == Best(g, ids, k - 1, u, v) {
      p := BestIsWalk(g, ids, k - 1, u, v);
    } else {
      var w := ids[k - 1];
      var a := BestIsWalk(g, ids, k - 1, u, w);
      var b := BestIsWalk(g, ids, k - 1, w, v);
      JoinWalks(g, a, b, u, w, v);
      p := a + b[1..];
    }
  }

  /** No walk through the first `k` identifiers is shorter than the entry. */
  lemma {:induction false} BestIsLeast(g: Graph, ids: seq<string>, k: nat, p: seq<string>, u: string, v: string)
    requires k <= |ids| && WalkVia(g, Elements(ids[..k]), p, u, v)
    ensures AtMost(Best(g, ids, k, u, v), |p| - 1)
    decreases k
  {
    if k == 0 {
      assert ids[..0] == [];
      if |p| > 1 { assert Edge(g, p[0], p[0 + 1]); }
    } else {
      var w := ids[k - 1];
      assert ids[..k] == ids[..k - 1] + [w];
      if exists i :: 0 < i < |p| - 1 && p[i] == w {
        var i := FirstInner(p, w);
        var j := LastInner(p, w);
        WalkParts(g, ids, k, p, u, v, i, j);
        BestIsLeast(g, ids, k - 1, p[..i + 1], u, w);
        BestIsLeast(g, ids, k - 1, p[j..], w, v);
      } else {
        BestIsLeast(g, ids, k - 1, p, u, v);
      }
    }
  }

  lemma FirstInner(p: seq<string>, w: string) returns (i: nat)
    requires exists i :: 0 < i < |p| - 1 && p[i] == w
    ensures 0 < i < |p| - 1 && p[i] == w && forall h | 0 < h < i :: p[h] != w
  {
    var z :| 0 < z < |p| - 1 && p[z] == w;
    i := 1;
    while p[i] != w
      invariant 0 < i <= z && forall h | 0 < h < i :: p[h] != w
      decreases z - i
    {
      i := i + 1;
    }
  }

  lemma LastInner(p: seq<string>, w: string) returns (j: nat)
    requires exists i :: 0 < i < |p| - 1 && p[i] == w
    ensures 0 < j < |p| - 1 && p[j] == w && forall h | j < h < |p| - 1 :: p[h] != w
  {
    var z :| 0 < z < |p| - 1 && p[z] == w;
    j := |p| - 2;
    while p[j] != w
      invariant z <= j < |p| - 1 && forall h | j < h < |p| - 1 :: p[h] != w
      decreases j
    {
      j := j - 1;
    }
  }

  /** Cutting a walk at the first and last visit of `w` leaves two walks that avoid it inside. */
  lemma WalkParts(g: Graph, ids: seq<string>, k: nat, p: seq<string>, u: string, v: string, i: nat, j: nat)
    requires 0 < k <= |ids| && WalkVia(g, Elements(ids[..k]), p, u, v)
    requires 0 < i < |p| - 1 && p[i] == ids[k - 1] && forall h | 0 < h < i :: p[h] != ids[k - 1]
    requires i <= j < |p| - 1 && p[j] == ids[k - 1] && forall h | j < h < |p| - 1 :: p[h] != ids[k - 1]
    ensures WalkVia(g, Elements(ids[..k - 1]), p[..i + 1], u, ids[k - 1])
    ensures WalkVia(g, Elements(ids[..k - 1]), p[j..], ids[k - 1], v)
  {
    assert ids[..k] == ids[..k - 1] + [ids[k - 1]];
    var a, b := p[..i + 1], p[j..];
    forall h | 0 <= h < |b| - 1 ensures Edge(g, b[h], b[h + 1]) {
      assert Edge(g, p[j + h], p[j + h + 1]);
    }
  }

  /** The final matrix holds the exact distances. */
  lemma BestIsDistance(g: Graph, ids: seq<string>, u: string, v: string)
    requires forall w :: (exists x :: Edge(g, w, x) || Edge(g, x, w)) ==> w in ids
    ensures IsDistance(g, u, v, Best(g, ids, |ids|, u, v))
  {
    var d := Best(g, ids, |ids|, u, v);
    if d.Finite? {
      var p := BestIsWalk(g, ids, |ids|, u, v);
    }
    forall p | WalkTo(g, p, u, v) ensures AtMost(d, |p| - 1) {
      assert ids[..|ids|] == ids;
      forall i | 0 < i < |p| - 1 ensures p[i] in Elements(ids) {
        assert Edge(g, p[i], p[i + 1]);
      }
      BestIsLeast(g, ids, |ids|, p, u, v);
    }
  }

  // ----- the loops -----

  ghost predicate Known(g: Graph, identifiers: set<string>) {
    forall e | e in g.pairs :: e.0 in identifiers && e.1 in identifiers
  }

  lemma KnownEnds(g: Graph, ids: seq<string>)
    requires Known(g, Elements(ids))
    ensures forall w :: (exists x :: Edge(g, w, x) || Edge(g, x, w)) ==> w in ids
  {
    forall w | exists x :: Edge(g, w, x) || Edge(g, x, w) ensures w in ids {
      var x :| Edge(g, w, x) || Edge(g, x, w);
      assert w in Elements(ids);
    }
  }

  /** The matrix holds stage `k` of the recurrence. */
  ghost predicate Stage(g: Graph, ids: seq<string>, m: array2<Distance>, k: nat)
    reads m
    requires k <= |ids| && m.Length0 == |ids| == m.Length1
  {
    forall i, j | 0 <= i < |ids| && 0 <= j < |ids| :: m[i, j] == Best(g, ids, k, ids[i], ids[j])
  }

  lemma NoPairs(g: Graph, ids: seq<string>, a: nat, b: nat)
    requires Ascending(StringLess, ids) && a < |ids| && b < |ids|
    ensures Base(g.(pairs := []), ids[a], ids[b]) == if a == b then Finite(0) else Infinite
  {
    StringOrder();
    AscendingDistinct(StringLess, ids);
  }

  /** Infinity everywhere but the diagonal. */
  method Diagonal(n: nat) returns (m: array2<Distance>)
    ensures fresh(m) && m.Length0 == n == m.Length1
    ensures forall a, b | 0 <= a < n && 0 <= b < n :: m[a, b] == if a == b then Finite(0) else Infinite
  {
    m := new Distance[n, n]((_, _) => Infinite);
    for i := 0 to n
      invariant forall a, b | 0 <= a < n && 0 <= b < n :: m[a, b] == if a == b && a < i then Finite(0) else Infinite
    {
      m[i, i] := Finite(0);
    }
  }

  /** The diagonal, then one step for every pair read. */
  method Initialise(g: Graph, ids: seq<string>) returns (m: array2<Distance>)
    requires Ascending(StringLess, ids) && Known(g, Elements(ids))
    ensures fresh(m) && m.Length0 == |ids| == m.Length1 && Stage(g, ids, m, 0)
  {
    hide Base, Ascending, StringLess;
    var n := |ids|;
    var offsets := Offsets(ids);
    m := Diagonal(n);
    assert g.pairs[..0] == [];
    forall a, b | 0 <= a < n && 0 <= b < n ensures m[a, b] == Base(g.(pairs := g.pairs[..0]), ids[a], ids[b]) {
      NoPairs(g, ids, a, b);
    }
    for t := 0 to |g.pairs|
      invariant forall a, b | 0 <= a < n && 0 <= b < n ::
                  m[a, b] == Base(g.(pairs := g.pairs[..t]), ids[a], ids[b])
    {
      assert g.pairs[t] in g.pairs;
      var x, y := offsets[g.pairs[t].0], offsets[g.pairs[t].1];
      PairAdded(g, ids, t, x, y);
      m[x, y] := Min(m[x, y], Finite(1));
      if !g.directed {
        m[y, x] := Min(m[y, x], Finite(1));
      }
    }
    assert g.pairs[..|g.pairs|] == g.pairs;
  }

  method Offsets(ids: seq<string>) returns (offsets: map<string, nat>)
    requires Ascending(StringLess, ids)
    ensures offsets.Keys == Elements(ids)
    ensures forall s | s in offsets :: offsets[s] < |ids| && ids[offsets[s]] == s
  {
    offsets := map[];
    for i := 0 to |ids|
      invariant offsets.Keys == Elements(ids[..i])
      invariant forall s | s in offsets :: offsets[s] < i && ids[offsets[s]] == s
    {
      assert ids[..i + 1] == ids[..i] + [ids[i]];
      offsets := offsets[ids[i] := i];
    }
    assert ids[..|ids|] == ids;
  }

  lemma PairAdded(g: Graph, ids: seq<string>, t: nat, x: nat, y: nat)
    requires Ascending(StringLess, ids) && t < |g.pairs| && x < |ids| && y < |ids|
    requires g.pairs[t] == (ids[x], ids[y])
    ensures forall a, b | 0 <= a < |ids| && 0 <= b < |ids| ::
              Base(g.(pairs := g.pairs[..t + 1]), ids[a], ids[b])
              == if (a == x && b == y) || (!g.directed && a == y && b == x)
                 then Min(Base(g.(pairs := g.pairs[..t]), ids[a], ids[b]), Finite(1))
                 else Base(g.(pairs := g.pairs[..t]), ids[a], ids[b])
  {
    StringOrder();
    AscendingDistinct(StringLess, ids);
    assert g.pairs[..t + 1] == g.pairs[..t] + [g.pairs[t]];
  }

  /** Entries before (i, j) in row order are at stage k + 1, the others at stage k. */
  ghost predicate Partly(g: Graph, ids: seq<string>, m: array2<Distance>, k: nat, i: nat, j: nat)
    reads m
    requires k < |ids| && m.Length0 == |ids| == m.Length1
  {
    forall a, b | 0 <= a < |ids| && 0 <= b < |ids| ::
      m[a, b] == Best(g, ids, if a < i || (a == i && b < j) then k + 1 else k, ids[a], ids[b])
  }

  lemma BestStep(g: Graph, ids: seq<string>, k: nat, u: string, v: string)
    requires k < |ids|
    ensures Best(g, ids, k + 1, u, v)
         == Min(Best(g, ids, k, u, v), Plus(Best(g, ids, k, u, ids[k]), Best(g, ids, k, ids[k], v)))
  {
  }

  /** One row of one stage, overwriting the matrix it reads. */
  method RelaxRow(g: Graph, ids: seq<string>, m: array2<Distance>, k: nat, i: nat)
    requires k < |ids| && i < |ids| && m.Length0 == |ids| == m.Length1
    requires Partly(g, ids, m, k, i, 0)
    modifies m
    ensures Partly(g, ids, m, k, i + 1, 0)
  {
    hide Best, Min, Plus;
    for j := 0 to |ids|
      invariant Partly(g, ids, m, k, i, j)
    {
      BestStep(g, ids, k, ids[i], ids[j]);
      PivotUnchanged(g, ids, k, ids[i]);
      PivotUnchanged(g, ids, k, ids[j]);
      m[i, j] := Min(m[i, j], Plus(m[i, k], m[k, j]));
    }
  }

  /** Floyd-Warshall, overwriting one matrix. */
  method MatrixDistances(identifiers: set<string>, g: Graph) returns (ids: seq<string>, m: array2<Distance>)
    requires Known(g, identifiers)
    ensures ids == SortStrings(identifiers) && fresh(m) && m.Length0 == |ids| == m.Length1
    ensures forall i, j | 0 <= i < |ids| && 0 <= j < |ids| :: IsDistance(g, ids[i], ids[j], m[i, j])
  {
    hide Best, IsDistance;
    ids := SortStrings(identifiers);
    m := Initialise(g, ids);
    for k := 0 to |ids|
      invariant Stage(g, ids, m, k)
    {
      for i := 0 to |ids|
        invariant Partly(g, ids, m, k, i, 0)
      {
        RelaxRow(g, ids, m, k, i);
      }
    }
    KnownEnds(g, ids);
    forall i, j | 0 <= i < |ids| && 0 <= j < |ids| ensures IsDistance(g, ids[i], ids[j], m[i, j]) {
      BestIsDistance(g, ids, ids[i], ids[j]);
    }
  }
}
