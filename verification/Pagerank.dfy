/** `pagerank_oracle`: the linear system it builds, and what every solution of it satisfies. */
module Pagerank {
  import opened Orders
  import opened Distances
  import opened LinearSystems

  // ----- arithmetic -----

  lemma Distribute(c: real, x: real, y: real)
    ensures Times(c, x + y) == Times(c, x) + Times(c, y)
    ensures Times(c, x - y) == Times(c, x) - Times(c, y)
    ensures Times(x + y, c) == Times(x, c) + Times(y, c)
    ensures Times(x - y, c) == Times(x, c) - Times(y, c)
  {
  }

  lemma Units(x: real)
    ensures Times(x, 0.0) == 0.0 == Times(0.0, x)
    ensures Times(x, 1.0) == x == Times(1.0, x)
    ensures Times(-1.0, x) == -x
  {
  }

  lemma Scales(c: real, a: real, b: real)
    requires 0.0 <= c && a <= b
    ensures Times(c, a) <= Times(c, b)
  {
  }

  lemma Positive(a: real, b: real)
    requires a != 0.0
    ensures Times(a, b) == 0.0 ==> b == 0.0
    ensures a > 0.0 && b > 0.0 ==> Times(a, b) > 0.0
  {
  }

  lemma AbsoluteProduct(a: real, b: real)
    requires b >= 0.0
    ensures Magnitude(Times(a, b)) == Times(Magnitude(a), b)
  {
  }

  lemma Damped(damping: real, x: real, bound: real)
    requires 0.0 <= damping && Magnitude(x) <= bound
    ensures Magnitude(Times(damping, x)) <= Times(damping, bound)
  {
    hide Times;
    Scales(damping, x, bound);
    Scales(damping, -x, bound);
    Distribute(damping, 0.0, x);
    Units(damping);
  }

  lemma OneEquation(s: real, d: real)
    requires s == (1.0 - d) + Times(d, s) && d != 1.0
    ensures s == 1.0
  {
    hide Times;
    Collect(s, d);
    Positive(1.0 - d, s - 1.0);
  }

  lemma Collect(s: real, d: real)
    ensures Times(1.0 - d, s - 1.0) == s - Times(d, s) - (1.0 - d)
    ensures Times(1.0 - d, s) == s - Times(d, s)
  {
  }

  lemma AtMostOne(s: real, d: real)
    requires s <= (1.0 - d) + Times(d, s) && d < 1.0
    ensures s <= 1.0
  {
    hide Times;
    Collect(s, d);
    Positive(1.0 - d, s - 1.0);
  }

  lemma AtMostZero(s: real, d: real)
    requires s <= Times(d, s) && d < 1.0
    ensures s <= 0.0
  {
    hide Times;
    Collect(s, d);
    Positive(1.0 - d, s);
  }

  /** A quotient the solver looks into only in the lemma below. */
  function Over(a: real, n: nat): real
    requires n > 0
  {
    a / n as real
  }

  lemma OverTimes(a: real, n: nat)
    requires n > 0
    ensures Times(n as real, Over(a, n)) == a
    ensures Over(a, n) == Times(Over(1.0, n), a)
    ensures Times(Over(1.0, n), n as real) == 1.0
    ensures a >= 0.0 ==> Over(a, n) >= 0.0
  {
  }

  // ----- vectors -----

  function Total(a: Row): real {
    if a == [] then 0.0 else Total(a[..|a| - 1]) + a[|a| - 1]
  }

  function Constant(n: nat, c: real): (r: Row)
    ensures |r| == n && forall i | 0 <= i < n :: r[i] == c
  {
    seq(n, _ => c)
  }

  /** a + c b. */
  function AddScaled(a: Row, c: real, b: Row): (r: Row)
    requires |a| == |b|
    ensures |r| == |a|
  {
    seq(|a|, k requires 0 <= k < |a| => a[k] + Times(c, b[k]))
  }

  lemma AddScaledAt(a: Row, c: real, b: Row, i: nat)
    requires |a| == |b| && i < |a|
    ensures AddScaled(a, c, b)[i] == a[i] + Times(c, b[i])
  {
  }

  function Magnitudes(x: Row): Row {
    seq(|x|, i requires 0 <= i < |x| => Magnitude(x[i]))
  }

  lemma {:induction false} ConstantTotal(n: nat, c: real)
    ensures Total(Constant(n, c)) == Times(n as real, c)
  {
    hide Times;
    Units(c);
    if n > 0 {
      ConstantTotal(n - 1, c);
      assert Constant(n, c)[..n - 1] == Constant(n - 1, c);
      Distribute(c, (n - 1) as real, 1.0);
    }
  }

  lemma {:induction false} TotalAddScaled(a: Row, c: real, b: Row)
    requires |a| == |b|
    ensures Total(AddScaled(a, c, b)) == Total(a) + Times(c, Total(b))
  {
    hide Times;
    Units(c);
    if a != [] {
      var k := |a| - 1;
      TotalAddScaled(a[..k], c, b[..k]);
      AddScaledPrefix(a, c, b, k);
      Distribute(c, Total(b[..k]), b[k]);
    }
  }

  lemma AddScaledPrefix(a: Row, c: real, b: Row, k: nat)
    requires |a| == |b| && k <= |a|
    ensures AddScaled(a, c, b)[..k] == AddScaled(a[..k], c, b[..k])
  {
    hide Times;
    forall i | 0 <= i < k ensures AddScaled(a, c, b)[i] == AddScaled(a[..k], c, b[..k])[i] {}
  }

  lemma {:induction false} TotalAtMost(a: Row, b: Row)
    requires |a| == |b| && forall i | 0 <= i < |a| :: a[i] <= b[i]
    ensures Total(a) <= Total(b)
  {
    if a != [] { TotalAtMost(a[..|a| - 1], b[..|b| - 1]); }
  }

  /** When a vector is below another but their totals are not, they are equal. */
  lemma {:induction false} TotalSqueeze(a: Row, b: Row, i: nat)
    requires |a| == |b| && i < |a| && (forall k | 0 <= k < |a| :: a[k] <= b[k]) && Total(b) <= Total(a)
    ensures a[i] == b[i]
  {
    var k := |a| - 1;
    TotalAtMost(a[..k], b[..k]);
    if i < k { TotalSqueeze(a[..k], b[..k], i); }
  }

  // ----- one step of the walk: every row sends its rank along its probabilities -----

  ghost predicate Rows(p: seq<Row>, n: nat) {
    forall j | 0 <= j < |p| :: |p[j]| == n
  }

  /** The sum of x[j] times row j. */
  ghost function Combine(p: seq<Row>, x: Row, n: nat): (r: Row)
    requires |p| == |x| && Rows(p, n)
    ensures |r| == n
  {
    if p == [] then Constant(n, 0.0)
    else AddScaled(Combine(p[..|p| - 1], x[..|p| - 1], n), x[|p| - 1], p[|p| - 1])
  }

  /** Rows that are probability distributions. */
  ghost predicate Stochastic(p: seq<Row>, n: nat) {
    && Rows(p, n)
    && (forall j | 0 <= j < |p| :: Total(p[j]) == 1.0)
    && (forall j, i | 0 <= j < |p| && 0 <= i < n :: p[j][i] >= 0.0)
  }

  lemma StochasticPrefix(p: seq<Row>, n: nat)
    requires Stochastic(p, n) && p != []
    ensures Stochastic(p[..|p| - 1], n) && Total(p[|p| - 1]) == 1.0
  {
  }

  /** What flows in anywhere flowed out somewhere: a step keeps the total. */
  lemma {:induction false} CombineTotal(p: seq<Row>, x: Row, n: nat)
    requires |p| == |x| && Stochastic(p, n)
    ensures Total(Combine(p, x, n)) == Total(x)
  {
    if p == [] {
      ConstantTotal(n, 0.0);
    } else {
      var k := |p| - 1;
      StochasticPrefix(p, n);
      CombineTotal(p[..k], x[..k], n);
      TotalAddScaled(Combine(p[..k], x[..k], n), x[k], p[k]);
    }
  }

  lemma CombineAt(p: seq<Row>, x: Row, n: nat, i: nat)
    requires |p| == |x| && Rows(p, n) && i < n && p != []
    ensures
      var k := |p| - 1;
      Combine(p, x, n)[i] == Combine(p[..k], x[..k], n)[i] + Times(x[k], p[k][i])
  {
  }

  lemma EntryNonnegative(p: seq<Row>, n: nat, j: nat, i: nat)
    requires Stochastic(p, n) && j < |p| && i < n
    ensures p[j][i] >= 0.0
  {
  }

  /** A step of magnitudes bounds the magnitude of a step. */
  lemma {:induction false} CombineTriangle(p: seq<Row>, x: Row, n: nat, i: nat)
    requires |p| == |x| && Stochastic(p, n) && i < n
    ensures Magnitude(Combine(p, x, n)[i]) <= Combine(p, Magnitudes(x), n)[i]
  {
    if p != [] {
      hide Times, Over, Combine, Total, Magnitude;
      var k := |p| - 1;
      StochasticPrefix(p, n);
      EntryNonnegative(p, n, k, i);
      hide Times, Over, Stochastic;
      CombineTriangle(p[..k], x[..k], n, i);
      assert Magnitudes(x)[..k] == Magnitudes(x[..k]);
      CombineAt(p, x, n, i);
      CombineAt(p, Magnitudes(x), n, i);
      StepTriangle(Combine(p[..k], x[..k], n)[i], Combine(p[..k], Magnitudes(x[..k]), n)[i], x[k], p[k][i]);
    }
  }

  lemma StepTriangle(sum: real, bound: real, x: real, q: real)
    requires Magnitude(sum) <= bound && q >= 0.0
    ensures Magnitude(sum + Times(x, q)) <= bound + Times(Magnitude(x), q)
  {
    hide Times;
    AbsoluteProduct(x, q);
  }

  lemma {:induction false} CombineMinus(p: seq<Row>, x: Row, y: Row, n: nat, i: nat)
    requires |p| == |x| == |y| && Rows(p, n) && i < n
    ensures Combine(p, AddScaled(x, -1.0, y), n)[i] == Combine(p, x, n)[i] - Combine(p, y, n)[i]
  {
    if p != [] {
      hide Times, Over, Combine;
      var k, z := |p| - 1, AddScaled(x, -1.0, y);
      CombineMinus(p[..k], x[..k], y[..k], n, i);
      AddScaledPrefix(x, -1.0, y, k);
      CombineAt(p, x, n, i);
      CombineAt(p, y, n, i);
      CombineAt(p, z, n, i);
      MinusProduct(x[k], y[k], p[k][i]);
    } else {
      var zero := 0.0;
      assert Combine(p, AddScaled(x, -1.0, y), n)[i] == zero;
    }
  }

  lemma MinusProduct(x: real, y: real, q: real)
    ensures Times(x + Times(-1.0, y), q) == Times(x, q) - Times(y, q)
  {
  }

  // ----- the PageRank equations -----

  /** Every rank is the teleport share plus the damped inflow. */
  ghost predicate IsRank(p: seq<Row>, damping: real, x: Row)
    requires Rows(p, |p|) && p != []
  {
    && |x| == |p|
    && x == AddScaled(Constant(|p|, Over(1.0 - damping, |p|)), damping, Combine(p, x, |p|))
  }

  lemma ShareTotal(n: nat, damping: real)
    requires n > 0
    ensures Total(Constant(n, Over(1.0 - damping, n))) == 1.0 - damping
  {
    ConstantTotal(n, Over(1.0 - damping, n));
    OverTimes(1.0 - damping, n);
  }

  /** Every solution sums to one unless the damping is exactly one. */
  lemma RankSumsToOne(p: seq<Row>, damping: real, x: Row)
    requires p != [] && Stochastic(p, |p|) && IsRank(p, damping, x) && damping != 1.0
    ensures Total(x) == 1.0
  {
    var n := |p|;
    ShareTotal(n, damping);
    CombineTotal(p, x, n);
    TotalAddScaled(Constant(n, Over(1.0 - damping, n)), damping, Combine(p, x, n));
    OneEquation(Total(x), damping);
  }

  /** Magnitudes below a share plus the damped step of magnitudes total at most the shares
      plus the damped total. */
  lemma MagnitudeTotal(p: seq<Row>, damping: real, a: Row, shares: Row)
    requires p != [] && Stochastic(p, |p|) && |a| == |p| == |shares|
    requires forall i | 0 <= i < |p| :: a[i] <= AddScaled(shares, damping, Combine(p, a, |p|))[i]
    ensures Total(a) <= Total(shares) + Times(damping, Total(a))
  {
    assert Rows(p, |p|);
    hide Times, Over, Combine, Total, AddScaled, Stochastic;
    CombineTotal(p, a, |p|);
    InflowTotal(damping, a, shares, Combine(p, a, |p|));
  }

  lemma InflowTotal(damping: real, a: Row, shares: Row, inflow: Row)
    requires |a| == |shares| == |inflow| && Total(inflow) == Total(a)
    requires forall i | 0 <= i < |a| :: a[i] <= AddScaled(shares, damping, inflow)[i]
    ensures Total(a) <= Total(shares) + Times(damping, Total(a))
  {
    hide Times, Total, AddScaled;
    TotalAddScaled(shares, damping, inflow);
    TotalAtMost(a, AddScaled(shares, damping, inflow));
  }

  /** A magnitude is at most the share plus the damped inflow of magnitudes. */
  lemma RankMagnitude(p: seq<Row>, damping: real, x: Row, shares: Row, k: nat)
    requires Stochastic(p, |p|) && 0.0 <= damping && |x| == |p| == |shares| && k < |p| && shares[k] >= 0.0
    requires x[k] == AddScaled(shares, damping, Combine(p, x, |p|))[k]
    ensures Magnitudes(x)[k] <= AddScaled(shares, damping, Combine(p, Magnitudes(x), |p|))[k]
  {
    assert Rows(p, |p|);
    hide Times, Over, Stochastic, Combine, Magnitude, AddScaled, Rows;
    var n, a := |p|, Magnitudes(x);
    CombineTriangle(p, x, n, k);
    Damped(damping, Combine(p, x, n)[k], Combine(p, a, n)[k]);
    AddScaledAt(shares, damping, Combine(p, x, n), k);
    AddScaledAt(shares, damping, Combine(p, a, n), k);
    MagnitudeSum(shares[k], Times(damping, Combine(p, x, n)[k]), Times(damping, Combine(p, a, n)[k]));
  }

  lemma MagnitudeSum(share: real, flow: real, bound: real)
    requires share >= 0.0 && Magnitude(flow) <= bound
    ensures Magnitude(share + flow) <= share + bound
  {
  }

  /** With damping in [0, 1) every solution is a probability distribution: no rank is negative. */
  lemma RankNonnegative(p: seq<Row>, damping: real, x: Row, i: nat)
    requires p != [] && Stochastic(p, |p|) && IsRank(p, damping, x) && 0.0 <= damping < 1.0 && i < |p|
    ensures x[i] >= 0.0
  {
    assert Rows(p, |p|);
    hide Times, Over, Stochastic, Combine, AddScaled, Total;
    var n, a := |p|, Magnitudes(x);
    var shares := Constant(n, Over(1.0 - damping, n));
    forall k | 0 <= k < n ensures a[k] <= AddScaled(shares, damping, Combine(p, a, n))[k] {
      RankMagnitude(p, damping, x, shares, k);
    }
    RankSumsToOne(p, damping, x);
    ShareTotal(n, damping);
    hide Times, Over, IsRank;
    MagnitudeTotal(p, damping, a, shares);
    AtMostOne(Total(a), damping);
    TotalSqueeze(x, a, i);
  }

  lemma RankAt(p: seq<Row>, damping: real, x: Row, k: nat)
    requires p != [] && Rows(p, |p|) && IsRank(p, damping, x) && k < |p|
    ensures |x| == |p| && x[k] == Over(1.0 - damping, |p|) + Times(damping, Combine(p, x, |p|)[k])
  {
    hide Times, Over, Combine;
    AddScaledAt(Constant(|p|, Over(1.0 - damping, |p|)), damping, Combine(p, x, |p|), k);
  }

  /** The difference of two solutions solves the equations without the teleport share. */
  lemma RankDifference(p: seq<Row>, damping: real, x: Row, y: Row, k: nat)
    requires p != [] && Rows(p, |p|) && IsRank(p, damping, x) && IsRank(p, damping, y) && k < |p|
    ensures
      var z := AddScaled(x, -1.0, y);
      |z| == |p| && z[k] == AddScaled(Constant(|p|, 0.0), damping, Combine(p, z, |p|))[k]
  {
    hide *;
    RankAt(p, damping, x, k);
    RankAt(p, damping, y, k);
    var n, z := |p|, AddScaled(x, -1.0, y);
    CombineMinus(p, x, y, n, k);
    AddScaledAt(x, -1.0, y, k);
    AddScaledAt(Constant(n, 0.0), damping, Combine(p, z, n), k);
    DampedDifference(z[k], x[k], y[k], Combine(p, z, n)[k], Combine(p, x, n)[k], Combine(p, y, n)[k],
                     Over(1.0 - damping, n), damping);
  }

  lemma DampedDifference(z: real, x: real, y: real, c: real, a: real, b: real, share: real, damping: real)
    requires z == x + Times(-1.0, y) && x == share + Times(damping, a) && y == share + Times(damping, b) && c == a - b
    ensures z == 0.0 + Times(damping, c)
  {
    hide Times;
    Units(y);
    Distribute(damping, a, b);
  }

  /** With damping in [0, 1) there is at most one solution. */
  lemma RankUnique(p: seq<Row>, damping: real, x: Row, y: Row)
    requires p != [] && Stochastic(p, |p|) && 0.0 <= damping < 1.0
    requires IsRank(p, damping, x) && IsRank(p, damping, y)
    ensures x == y
  {
    assert Rows(p, |p|);
    hide Times, Over, Stochastic, Combine, IsRank, Total;
    var n, z := |p|, AddScaled(x, -1.0, y);
    var a, none := Magnitudes(z), Constant(n, 0.0);
    SameLength(p, damping, x);
    SameLength(p, damping, y);
    forall k | 0 <= k < n ensures a[k] <= AddScaled(none, damping, Combine(p, a, n))[k] {
      RankDifference(p, damping, x, y, k);
      RankMagnitude(p, damping, z, none, k);
    }
    MagnitudeTotal(p, damping, a, none);
    ConstantTotal(n, 0.0);
    AtMostZero(Total(a), damping);
    forall k | 0 <= k < n ensures x[k] == y[k] {
      TotalSqueeze(none, a, k);
    }
  }

  lemma SameLength(p: seq<Row>, damping: real, x: Row)
    requires p != [] && Rows(p, |p|) && IsRank(p, damping, x)
    ensures |x| == |p|
  {
  }

  // ----- the transition probabilities -----

  /** How often a pair occurs; parallel pairs count separately. */
  function Count(pairs: seq<(string, string)>, u: string, v: string): nat {
    if pairs == [] then 0
    else Count(pairs[..|pairs| - 1], u, v) + if pairs[|pairs| - 1] == (u, v) then 1 else 0
  }

  function OutCount(pairs: seq<(string, string)>, u: string): nat {
    if pairs == [] then 0
    else OutCount(pairs[..|pairs| - 1], u) + if pairs[|pairs| - 1].0 == u then 1 else 0
  }

  /** Follow one of the outgoing pairs, or jump anywhere from a dangling vertex. */
  function Transition(ids: seq<string>, pairs: seq<(string, string)>, u: string, v: string): real
    requires ids != []
  {
    if OutCount(pairs, u) > 0 then Over(Count(pairs, u, v) as real, OutCount(pairs, u))
    else Over(1.0, |ids|)
  }

  function TransitionRow(ids: seq<string>, pairs: seq<(string, string)>, u: string): Row
    requires ids != []
  {
    seq(|ids|, j requires 0 <= j < |ids| => Transition(ids, pairs, u, ids[j]))
  }

  function Transitions(ids: seq<string>, pairs: seq<(string, string)>): seq<Row>
    requires ids != []
  {
    seq(|ids|, i requires 0 <= i < |ids| => TransitionRow(ids, pairs, ids[i]))
  }

  function CountRow(ids: seq<string>, pairs: seq<(string, string)>, u: string): Row {
    seq(|ids|, j requires 0 <= j < |ids| => Count(pairs, u, ids[j]) as real)
  }

  function Indicator(n: nat, k: nat): Row {
    seq(n, j => if j == k then 1.0 else 0.0)
  }

  lemma {:induction false} IndicatorTotal(n: nat, k: nat)
    ensures Total(Indicator(n, k)) == if k < n then 1.0 else 0.0
  {
    if n > 0 {
      IndicatorTotal(n - 1, k);
      assert Indicator(n, k)[..n - 1] == Indicator(n - 1, k);
    }
  }

  /** Every outgoing pair ends at some identifier, so a row of counts adds up. */
  lemma {:induction false} CountsTotal(ids: seq<string>, pairs: seq<(string, string)>, u: string)
    requires Ascending(StringLess, ids) && forall e | e in pairs :: e.1 in ids
    ensures Total(CountRow(ids, pairs, u)) == OutCount(pairs, u) as real
  {
    hide Times, Over, StringLess, Ascending, Total;
    var n := |ids|;
    if pairs == [] {
      assert CountRow(ids, pairs, u) == Constant(n, 0.0);
      ConstantTotal(n, 0.0);
      Units(n as real);
    } else {
      var rest, e := pairs[..|pairs| - 1], pairs[|pairs| - 1];
      CountsTotal(ids, rest, u);
      if e.0 == u {
        var k :| 0 <= k < n && ids[k] == e.1;
        StringOrder();
        AscendingDistinct(StringLess, ids);
        IndicatorTotal(n, k);
        forall j | 0 <= j < n
          ensures CountRow(ids, pairs, u)[j] == AddScaled(CountRow(ids, rest, u), 1.0, Indicator(n, k))[j]
        {
          AddScaledAt(CountRow(ids, rest, u), 1.0, Indicator(n, k), j);
          Units(Indicator(n, k)[j]);
          assert ids[j] == e.1 <==> j == k;
        }
        Units(Total(Indicator(n, k)));
        assert CountRow(ids, pairs, u) == AddScaled(CountRow(ids, rest, u), 1.0, Indicator(n, k));
        TotalAddScaled(CountRow(ids, rest, u), 1.0, Indicator(n, k));
      } else {
        assert CountRow(ids, pairs, u) == CountRow(ids, rest, u);
      }
    }
  }

  /** The probabilities out of a vertex sum to one, dangling or not. */
  lemma RowTotal(ids: seq<string>, pairs: seq<(string, string)>, u: string)
    requires Ascending(StringLess, ids) && ids != [] && forall e | e in pairs :: e.1 in ids
    ensures Total(TransitionRow(ids, pairs, u)) == 1.0
  {
    hide Times, Over, Total, Count, OutCount;
    var n, out := |ids|, OutCount(pairs, u);
    OverTimes(1.0, n);
    if out > 0 {
      OverTimes(1.0, out);
      CountsTotal(ids, pairs, u);
      forall j | 0 <= j < n
        ensures TransitionRow(ids, pairs, u)[j]
             == AddScaled(Constant(n, 0.0), Over(1.0, out), CountRow(ids, pairs, u))[j]
      {
        OverTimes(Count(pairs, u, ids[j]) as real, out);
        AddScaledAt(Constant(n, 0.0), Over(1.0, out), CountRow(ids, pairs, u), j);
      }
      assert TransitionRow(ids, pairs, u) == AddScaled(Constant(n, 0.0), Over(1.0, out), CountRow(ids, pairs, u));
      TotalAddScaled(Constant(n, 0.0), Over(1.0, out), CountRow(ids, pairs, u));
      ConstantTotal(n, 0.0);
      Units(n as real);
    } else {
      assert TransitionRow(ids, pairs, u) == Constant(n, Over(1.0, n));
      ConstantTotal(n, Over(1.0, n));
    }
  }

  /** The transition rows are probability distributions, with dangling vertices and parallel pairs. */
  lemma TransitionsStochastic(ids: seq<string>, pairs: seq<(string, string)>)
    requires Ascending(StringLess, ids) && ids != [] && forall e | e in pairs :: e.1 in ids
    ensures Stochastic(Transitions(ids, pairs), |ids|)
  {
    hide Times, Over, Total, Count, OutCount, StringLess;
    forall i | 0 <= i < |ids| ensures Total(Transitions(ids, pairs)[i]) == 1.0 {
      RowTotal(ids, pairs, ids[i]);
    }
    forall i, j | 0 <= i < |ids| && 0 <= j < |ids| ensures Transitions(ids, pairs)[i][j] >= 0.0 {
      TransitionNonnegative(ids, pairs, ids[i], ids[j]);
    }
  }

  lemma TransitionNonnegative(ids: seq<string>, pairs: seq<(string, string)>, u: string, v: string)
    requires ids != []
    ensures Transition(ids, pairs, u, v) >= 0.0
  {
    hide Count, OutCount, Over;
    OverTimes(1.0, |ids|);
    if OutCount(pairs, u) > 0 { OverTimes(Count(pairs, u, v) as real, OutCount(pairs, u)); }
  }

  // ----- the linear system -----

  function Identity(i: nat, j: nat): real {
    if i == j then 1.0 else 0.0
  }

  function Coefficient(ids: seq<string>, pairs: seq<(string, string)>, damping: real, i: nat, j: nat): real
    requires i < |ids| && j < |ids|
  {
    Identity(i, j) - Times(damping, Transition(ids, pairs, ids[j], ids[i]))
  }

  /** Row i holds the coefficients of the equation for the rank of vertex i. */
  ghost predicate IsSystem(ids: seq<string>, pairs: seq<(string, string)>, damping: real, rows: seq<Row>) {
    && |rows| == |ids|
    && (forall i | 0 <= i < |ids| :: |rows[i]| == |ids|)
    && (forall i, j | 0 <= i < |ids| && 0 <= j < |ids| :: rows[i][j] == Coefficient(ids, pairs, damping, i, j))
  }

  lemma DotAt(a: Row, b: Row)
    requires |a| == |b| && a != []
    ensures var k := |a| - 1; Dot(a, b) == Dot(a[..k], b[..k]) + Times(a[k], b[k])
  {
    hide Times;
  }

  lemma CoefficientProduct(one: real, d: real, q: real, x: real)
    ensures Times(one - Times(d, q), x) == Times(one, x) - Times(d, Times(x, q))
  {
  }

  /** A row of the system times the ranks is the rank minus its damped inflow. */
  lemma {:induction false} SystemDot(row: Row, p: seq<Row>, damping: real, x: Row, n: nat, i: nat)
    requires |row| == |p| == |x| && Rows(p, n) && i < n
    requires forall j | 0 <= j < |row| :: row[j] == Identity(i, j) - Times(damping, p[j][i])
    ensures Dot(row, x) == (if i < |x| then x[i] else 0.0) - Times(damping, Combine(p, x, n)[i])
  {
    if row == [] {
      Units(damping);
    } else {
      var k := |row| - 1;
      CombineAt(p, x, n, i);
      hide Times, Combine, Dot;
      SystemDot(row[..k], p[..k], damping, x[..k], n, i);
      DotAt(row, x);
      CoefficientProduct(Identity(i, k), damping, p[k][i], x[k]);
      Units(x[k]);
      Distribute(damping, Combine(p[..k], x[..k], n)[i], Times(x[k], p[k][i]));
    }
  }

  /** The solutions of the system are exactly the solutions of the PageRank equations. */
  lemma SystemIsRank(ids: seq<string>, pairs: seq<(string, string)>, damping: real, rows: seq<Row>, x: Row)
    requires ids != [] && IsSystem(ids, pairs, damping, rows) && |x| == |ids|
    ensures Solves(rows, Constant(|ids|, Over(1.0 - damping, |ids|)), x)
       <==> IsRank(Transitions(ids, pairs), damping, x)
  {
    hide Times, Over, Combine, Dot, Count, OutCount, Transition;
    var n, p := |ids|, Transitions(ids, pairs);
    var share := Constant(n, Over(1.0 - damping, n));
    var inflow := AddScaled(share, damping, Combine(p, x, n));
    forall i | 0 <= i < n ensures Dot(rows[i], x) == share[i] <==> x[i] == inflow[i] {
      SystemDot(rows[i], p, damping, x, n, i);
      AddScaledAt(share, damping, Combine(p, x, n), i);
    }
    assert Solves(rows, share, x) <==> forall i | 0 <= i < n :: x[i] == inflow[i];
  }

  // ----- when the system can be solved -----

  lemma {:induction false} TotalFront(a: Row)
    requires a != []
    ensures Total(a) == a[0] + Total(a[1..])
  {
    if |a| > 1 {
      var k := |a| - 1;
      TotalFront(a[..k]);
      assert a[..k][1..] == a[1..][..k - 1];
    }
  }

  lemma {:induction false} EntryAtMostTotal(a: Row, i: nat)
    requires i < |a| && forall k | 0 <= k < |a| :: a[k] >= 0.0
    ensures 0.0 <= a[i] <= Total(a)
  {
    var k := |a| - 1;
    assert 0.0 <= Total(a[..k]) by {
      TotalAtMost(Constant(k, 0.0), a[..k]);
      ConstantTotal(k, 0.0);
    }
    if i < k { EntryAtMostTotal(a[..k], i); }
  }

  /** A damped probability is below one and not negative. */
  lemma DampedEntry(damping: real, q: real)
    requires 0.0 <= damping <= 1.0 && 0.0 <= q <= 1.0
    ensures 0.0 <= Times(damping, q) <= 1.0
  {
    hide Times;
    Scales(damping, 0.0, q);
    Scales(damping, q, 1.0);
    Units(damping);
  }

  /** Column `j` holds the damped probabilities out of vertex `j`, negated, and a one. */
  lemma {:induction false} SystemExcess(ids: seq<string>, pairs: seq<(string, string)>, damping: real, rows: seq<Row>,
                                        lo: nat, j: nat)
    requires Ascending(StringLess, ids) && forall e | e in pairs :: e.1 in ids
    requires ids != [] && IsSystem(ids, pairs, damping, rows) && 0.0 <= damping <= 1.0 && lo <= |ids| && j < |ids|
    ensures Excess(rows, lo, j)
         == Times(damping, Total(TransitionRow(ids, pairs, ids[j])[lo..])) - if lo <= j then 1.0 else 0.0
    decreases |ids| - lo
  {
    hide Times, Transition, StringLess, Ascending;
    var p := TransitionRow(ids, pairs, ids[j]);
    if lo == |ids| {
      assert p[lo..] == [];
      Units(damping);
    } else {
      SystemExcess(ids, pairs, damping, rows, lo + 1, j);
      TotalFront(p[lo..]);
      assert p[lo..][1..] == p[lo + 1..];
      Distribute(damping, p[lo], Total(p[lo + 1..]));
      RowTotal(ids, pairs, ids[j]);
      forall k | 0 <= k < |p| ensures p[k] >= 0.0 { TransitionNonnegative(ids, pairs, ids[j], ids[k]); }
      EntryAtMostTotal(p, lo);
      DampedEntry(damping, p[lo]);
      assert rows[lo][j] == Identity(lo, j) - Times(damping, p[lo]);
    }
  }

  /** Every column of the system is dominant, by one minus the damping. */
  lemma SystemDominant(ids: seq<string>, pairs: seq<(string, string)>, damping: real, rows: seq<Row>)
    requires Ascending(StringLess, ids) && forall e | e in pairs :: e.1 in ids
    requires ids != [] && IsSystem(ids, pairs, damping, rows) && 0.0 <= damping && 1.0 - damping > PIVOT_LIMIT
    ensures (forall j | 0 <= j < |ids| :: Excess(rows, 0, j) == damping - 1.0) && Dominant(rows, 0)
  {
    hide Times, Transition, StringLess, Ascending, Excess, Total;
    forall j | 0 <= j < |rows| ensures Excess(rows, 0, j) == damping - 1.0 {
      var p := TransitionRow(ids, pairs, ids[j]);
      SystemExcess(ids, pairs, damping, rows, 0, j);
      assert p[0..] == p;
      RowTotal(ids, pairs, ids[j]);
      Units(damping);
    }
  }

  // ----- the equations over the pairs -----

  function RankVector(ids: seq<string>, ranks: map<string, real>): Row
    requires Elements(ids) == ranks.Keys
  {
    seq(|ids|, i requires 0 <= i < |ids| => ranks[ids[i]])
  }

  /** How many pairs start at a vertex. */
  function Leaving(pairs: seq<(string, string)>, u: string): nat {
    |set i | 0 <= i < |pairs| && pairs[i].0 == u|
  }

  lemma StartLeaves(pairs: seq<(string, string)>, k: nat)
    requires k < |pairs|
    ensures Leaving(pairs, pairs[k].0) > 0
  {
    var starts := set i | 0 <= i < |pairs| && pairs[i].0 == pairs[k].0;
    assert k in starts;
  }

  lemma {:induction false} OutCountExactly(pairs: seq<(string, string)>, u: string)
    ensures OutCount(pairs, u) == Leaving(pairs, u)
  {
    var starts := set i | 0 <= i < |pairs| && pairs[i].0 == u;
    if pairs == [] {
      assert starts == {};
    } else {
      var k := |pairs| - 1;
      var rest := pairs[..k];
      OutCountExactly(rest, u);
      var before := set i | 0 <= i < |rest| && rest[i].0 == u;
      assert starts == before + if pairs[k].0 == u then {k} else {};
    }
  }

  /** What the first `k` pairs carry to a vertex: each its start's rank, shared out evenly among all
      pairs with that start. */
  ghost function Inflow(pairs: seq<(string, string)>, rank: map<string, real>, v: string, k: nat): real
    requires k <= |pairs| && forall e | e in pairs :: e.0 in rank
  {
    if k == 0 then 0.0 else
      StartLeaves(pairs, k - 1);
      Inflow(pairs, rank, v, k - 1) +
      if pairs[k - 1].1 == v then rank[pairs[k - 1].0] / Leaving(pairs, pairs[k - 1].0) as real else 0.0
  }

  /** What the dangling ones among the first `k` vertices send to each vertex. */
  ghost function Jumps(ids: seq<string>, pairs: seq<(string, string)>, rank: map<string, real>, k: nat): real
    requires k <= |ids| && forall v | v in ids :: v in rank
  {
    if k == 0 then 0.0 else
      Jumps(ids, pairs, rank, k - 1) +
      if Leaving(pairs, ids[k - 1]) == 0 then rank[ids[k - 1]] / |ids| as real else 0.0
  }

  /** The rank of a vertex is its teleport share, and damping times what its incoming pairs carry and
      what dangling vertices send. */
  ghost predicate Balanced(ids: seq<string>, pairs: seq<(string, string)>, damping: real, rank: map<string, real>, v: string)
  {
    && v in ids && (forall u | u in ids :: u in rank) && (forall e | e in pairs :: e.0 in rank)
    && rank[v] == (1.0 - damping) / |ids| as real
               + damping * (Inflow(pairs, rank, v, |pairs|) + Jumps(ids, pairs, rank, |ids|))
  }

  /** What a vertex gives along each of its pairs. */
  function Shares(ids: seq<string>, pairs: seq<(string, string)>, x: Row): Row
    requires |x| == |ids|
  {
    seq(|ids|, j requires 0 <= j < |ids| =>
      if OutCount(pairs, ids[j]) > 0 then Over(x[j], OutCount(pairs, ids[j])) else 0.0)
  }

  function CountColumn(ids: seq<string>, pairs: seq<(string, string)>, v: string): Row {
    seq(|ids|, j requires 0 <= j < |ids| => Count(pairs, ids[j], v) as real)
  }

  lemma {:induction false} DotAddScaled(w: Row, a: Row, c: real, b: Row)
    requires |w| == |a| == |b|
    ensures Dot(w, AddScaled(a, c, b)) == Dot(w, a) + Times(c, Dot(w, b))
  {
    hide Times, AddScaled;
    Units(c);
    if w != [] {
      var k := |w| - 1;
      DotAddScaled(w[..k], a[..k], c, b[..k]);
      AddScaledPrefix(a, c, b, k);
      AddScaledAt(a, c, b, k);
      MoveFactor(w[k], a[k], c, b[k]);
      Distribute(c, Dot(w[..k], b[..k]), Times(w[k], b[k]));
    }
  }

  lemma MoveFactor(w: real, a: real, c: real, b: real)
    ensures Times(w, a + Times(c, b)) == Times(w, a) + Times(c, Times(w, b))
  {
  }

  lemma {:induction false} DotIndicator(w: Row, k: nat)
    ensures Dot(w, Indicator(|w|, k)) == if k < |w| then w[k] else 0.0
  {
    hide Times;
    if w != [] {
      var n := |w| - 1;
      DotIndicator(w[..n], k);
      assert Indicator(|w|, k)[..n] == Indicator(n, k);
      Units(w[n]);
    }
  }

  lemma {:induction false} DotNone(w: Row, n: nat)
    requires |w| == n
    ensures Dot(w, Constant(n, 0.0)) == 0.0
  {
    hide Times;
    if w != [] {
      DotNone(w[..n - 1], n - 1);
      assert Constant(n, 0.0)[..n - 1] == Constant(n - 1, 0.0);
      Units(w[n - 1]);
    }
  }

  /** The shares along the first `k` pairs that end at a vertex are what those pairs carry there. */
  lemma {:induction false} SharesFlow(ids: seq<string>, pairs: seq<(string, string)>, rank: map<string, real>, v: string, k: nat)
    requires Ascending(StringLess, ids) && Elements(ids) == rank.Keys && k <= |pairs| && v in ids
    requires forall e | e in pairs :: e.0 in ids && e.1 in ids && e.0 in rank
    ensures Dot(Shares(ids, pairs, RankVector(ids, rank)), CountColumn(ids, pairs[..k], v)) == Inflow(pairs, rank, v, k)
  {
    hide *;
    RankLength(ids, rank);
    var w, n := Shares(ids, pairs, RankVector(ids, rank)), |ids|;
    SharesLength(ids, pairs, RankVector(ids, rank));
    if k == 0 {
      NoPairs(ids, v);
      assert pairs[..0] == [];
      DotNone(w, n);
      InflowNone(pairs, rank, v);
    } else {
      SharesFlow(ids, pairs, rank, v, k - 1);
      assert pairs[..k] == pairs[..k - 1] + [pairs[k - 1]];
      ColumnLength(ids, pairs[..k - 1], v);
      InflowOne(pairs, rank, v, k);
      if pairs[k - 1].1 == v {
        var j := PositionOf(ids, pairs[k - 1].0);
        DotOneMore(ids, pairs[..k - 1], pairs[k - 1], w, j);
        ShareAt(ids, pairs, rank, k - 1, j);
      } else {
        OtherPairMore(ids, pairs[..k - 1], pairs[k - 1], v);
      }
    }
  }

  lemma RankLength(ids: seq<string>, rank: map<string, real>)
    requires Elements(ids) == rank.Keys
    ensures |RankVector(ids, rank)| == |ids|
  {
  }

  lemma DotOneMore(ids: seq<string>, pairs: seq<(string, string)>, e: (string, string), w: Row, j: nat)
    requires Ascending(StringLess, ids) && j < |ids| == |w| && ids[j] == e.0
    ensures |CountColumn(ids, pairs, e.1)| == |w| == |CountColumn(ids, pairs + [e], e.1)|
    ensures Dot(w, CountColumn(ids, pairs + [e], e.1)) == Dot(w, CountColumn(ids, pairs, e.1)) + w[j]
  {
    hide *;
    ColumnLength(ids, pairs, e.1);
    ColumnLength(ids, pairs + [e], e.1);
    OnePairMore(ids, pairs, e, j);
    DotAddScaled(w, CountColumn(ids, pairs, e.1), 1.0, Indicator(|ids|, j));
    DotIndicator(w, j);
    Units(w[j]);
  }

  lemma PositionOf(ids: seq<string>, u: string) returns (j: nat)
    requires u in ids
    ensures j < |ids| && ids[j] == u
  {
    j :| 0 <= j < |ids| && ids[j] == u;
  }

  lemma NoPairs(ids: seq<string>, v: string)
    ensures CountColumn(ids, [], v) == Constant(|ids|, 0.0)
  {
  }

  lemma ColumnLength(ids: seq<string>, pairs: seq<(string, string)>, v: string)
    ensures |CountColumn(ids, pairs, v)| == |ids|
    ensures forall k :: |Indicator(|ids|, k)| == |ids|
  {
  }

  lemma InflowNone(pairs: seq<(string, string)>, rank: map<string, real>, v: string)
    requires forall e | e in pairs :: e.0 in rank
    ensures Inflow(pairs, rank, v, 0) == 0.0
  {
  }

  lemma InflowOne(pairs: seq<(string, string)>, rank: map<string, real>, v: string, k: nat)
    requires 0 < k <= |pairs| && forall e | e in pairs :: e.0 in rank
    ensures Leaving(pairs, pairs[k - 1].0) > 0 && pairs[k - 1].0 in rank
    ensures Inflow(pairs, rank, v, k)
         == Inflow(pairs, rank, v, k - 1)
          + if pairs[k - 1].1 == v then rank[pairs[k - 1].0] / Leaving(pairs, pairs[k - 1].0) as real else 0.0
  {
    StartLeaves(pairs, k - 1);
    hide Leaving;
  }

  lemma OtherPairMore(ids: seq<string>, pairs: seq<(string, string)>, e: (string, string), v: string)
    requires e.1 != v
    ensures CountColumn(ids, pairs + [e], v) == CountColumn(ids, pairs, v)
  {
    assert (pairs + [e])[..|pairs|] == pairs;
  }

  lemma OnePairMore(ids: seq<string>, pairs: seq<(string, string)>, e: (string, string), j: nat)
    requires Ascending(StringLess, ids) && j < |ids| && ids[j] == e.0
    ensures CountColumn(ids, pairs + [e], e.1) == AddScaled(CountColumn(ids, pairs, e.1), 1.0, Indicator(|ids|, j))
  {
    StringOrder();
    AscendingDistinct(StringLess, ids);
    hide Times, StringLess, Ascending;
    var before, after := CountColumn(ids, pairs, e.1), CountColumn(ids, pairs + [e], e.1);
    assert (pairs + [e])[..|pairs|] == pairs;
    forall i | 0 <= i < |ids| ensures after[i] == AddScaled(before, 1.0, Indicator(|ids|, j))[i] {
      AddScaledAt(before, 1.0, Indicator(|ids|, j), i);
      Units(Indicator(|ids|, j)[i]);
      assert ids[i] == e.0 <==> i == j;
    }
  }

  lemma ShareAt(ids: seq<string>, pairs: seq<(string, string)>, rank: map<string, real>, k: nat, j: nat)
    requires Elements(ids) == rank.Keys && k < |pairs| && j < |ids| && ids[j] == pairs[k].0
    ensures Leaving(pairs, pairs[k].0) > 0 && pairs[k].0 in rank
    ensures Shares(ids, pairs, RankVector(ids, rank))[j] == rank[pairs[k].0] / Leaving(pairs, pairs[k].0) as real
  {
    StartLeaves(pairs, k);
    OutCountExactly(pairs, ids[j]);
    assert ids[j] in Elements(ids);
  }

  /** One vertex's rank along its probability to another: its share along every pair between them, or
      its jump. */
  lemma TransitionFlow(ids: seq<string>, pairs: seq<(string, string)>, u: string, v: string, x: real)
    requires ids != []
    ensures
      var out := OutCount(pairs, u);
      Times(x, Transition(ids, pairs, u, v))
      == Times(if out > 0 then Over(x, out) else 0.0, Count(pairs, u, v) as real)
       + if out == 0 then Over(x, |ids|) else 0.0
  {
    hide Count, OutCount;
    var out := OutCount(pairs, u);
    Units(Count(pairs, u, v) as real);
    if out > 0 { MoveQuotient(x, Count(pairs, u, v) as real, out); } else { MoveQuotient(x, 1.0, |ids|); }
    Units(Over(x, |ids|));
  }

  lemma MoveQuotient(x: real, c: real, n: nat)
    requires n > 0
    ensures Times(x, Over(c, n)) == Times(Over(x, n), c)
  {
  }

  lemma {:induction false} CombineFlow(ids: seq<string>, pairs: seq<(string, string)>, rank: map<string, real>, i: nat, m: nat)
    requires Elements(ids) == rank.Keys && (forall v | v in ids :: v in rank) && i < |ids| && m <= |ids|
    ensures
      var (x, p) := (RankVector(ids, rank), Transitions(ids, pairs));
      var (w, c) := (Shares(ids, pairs, x), CountColumn(ids, pairs, ids[i]));
      Combine(p[..m], x[..m], |ids|)[i] == Dot(w[..m], c[..m]) + Jumps(ids, pairs, rank, m)
  {
    var x, p := RankVector(ids, rank), Transitions(ids, pairs);
    var w, c := Shares(ids, pairs, x), CountColumn(ids, pairs, ids[i]);
    hide Times, Transition, Combine, Dot, Count, OutCount, Leaving, Jumps, Over, Shares;
    SharesLength(ids, pairs, x);
    if m == 0 {
      CombineNone(p, x, |ids|, i);
      JumpsNone(ids, pairs, rank);
      assert w[..0] == [] && c[..0] == [];
      DotEmpty();
    } else {
      CombineFlow(ids, pairs, rank, i, m - 1);
      FlowOne(ids, pairs, rank, i, m);
      FlowStep(p, x, w, c, |ids|, i, m, Jumps(ids, pairs, rank, m - 1), Jumps(ids, pairs, rank, m));
    }
  }

  lemma FlowStep(p: seq<Row>, x: Row, w: Row, c: Row, n: nat, i: nat, m: nat, before: real, after: real)
    requires Rows(p, n) && i < n && 0 < m <= |p| == |x| == |w| == |c|
    requires Combine(p[..m - 1], x[..m - 1], n)[i] == Dot(w[..m - 1], c[..m - 1]) + before
    requires Times(x[m - 1], p[m - 1][i]) == Times(w[m - 1], c[m - 1]) + after - before
    ensures Combine(p[..m], x[..m], n)[i] == Dot(w[..m], c[..m]) + after
  {
    hide Times, Combine, Dot;
    assert p[..m][..m - 1] == p[..m - 1] && x[..m][..m - 1] == x[..m - 1];
    assert w[..m][..m - 1] == w[..m - 1] && c[..m][..m - 1] == c[..m - 1];
    CombineAt(p[..m], x[..m], n, i);
    DotAt(w[..m], c[..m]);
  }

  lemma DotEmpty()
    ensures Dot([], []) == 0.0
  {
  }

  lemma CombineNone(p: seq<Row>, x: Row, n: nat, i: nat)
    requires i < n
    ensures Combine(p[..0], x[..0], n)[i] == 0.0
  {
  }

  lemma JumpsNone(ids: seq<string>, pairs: seq<(string, string)>, rank: map<string, real>)
    requires forall v | v in ids :: v in rank
    ensures Jumps(ids, pairs, rank, 0) == 0.0
  {
  }

  lemma FlowOne(ids: seq<string>, pairs: seq<(string, string)>, rank: map<string, real>, i: nat, m: nat)
    requires Elements(ids) == rank.Keys && (forall v | v in ids :: v in rank) && i < |ids| && 0 < m <= |ids|
    ensures
      var (x, p) := (RankVector(ids, rank), Transitions(ids, pairs));
      var (w, c) := (Shares(ids, pairs, x), CountColumn(ids, pairs, ids[i]));
      && |w| == |ids|
      && Times(x[m - 1], p[m - 1][i])
         == Times(w[m - 1], c[m - 1]) + Jumps(ids, pairs, rank, m) - Jumps(ids, pairs, rank, m - 1)
  {
    hide Times, Transition, Combine, Dot, Count, OutCount, Leaving;
    var x := RankVector(ids, rank);
    TransitionFlow(ids, pairs, ids[m - 1], ids[i], x[m - 1]);
    OutCountExactly(pairs, ids[m - 1]);
    SharesLength(ids, pairs, x);
  }

  /** Every solution of the rank equations satisfies them over the pairs, vertex by vertex. */
  lemma RankOverPairs(ids: seq<string>, pairs: seq<(string, string)>, damping: real, rank: map<string, real>, v: string)
    requires Ascending(StringLess, ids) && Elements(ids) == rank.Keys && v in ids
    requires forall e | e in pairs :: e.0 in ids && e.1 in ids && e.0 in rank
    requires IsRank(Transitions(ids, pairs), damping, RankVector(ids, rank))
    ensures Balanced(ids, pairs, damping, rank, v)
  {
    hide StringLess, Ascending, IsRank, Combine, Dot, Inflow, Jumps, Transition, Shares;
    forall u | u in ids ensures u in rank { assert u in Elements(ids); }
    var i :| 0 <= i < |ids| && ids[i] == v;
    var n, x, p := |ids|, RankVector(ids, rank), Transitions(ids, pairs);
    RankAt(p, damping, x, i);
    CombineFlow(ids, pairs, rank, i, n);
    var w, c := Shares(ids, pairs, x), CountColumn(ids, pairs, v);
    assert |w| == n by { SharesLength(ids, pairs, x); }
    assert p[..n] == p && x[..n] == x && w[..n] == w && c[..n] == c;
    SharesFlow(ids, pairs, rank, v, |pairs|);
    assert pairs[..|pairs|] == pairs;
  }

  lemma SharesLength(ids: seq<string>, pairs: seq<(string, string)>, x: Row)
    requires |x| == |ids|
    ensures |Shares(ids, pairs, x)| == |ids|
  {
  }

  // ----- the loops -----

  method Tally(ids: seq<string>, pairs: seq<(string, string)>) returns (counts: array2<nat>)
    requires Ascending(StringLess, ids) && forall e | e in pairs :: e.0 in ids && e.1 in ids
    ensures fresh(counts) && counts.Length0 == |ids| == counts.Length1
    ensures forall a, b | 0 <= a < |ids| && 0 <= b < |ids| :: counts[a, b] == Count(pairs, ids[a], ids[b])
  {
    hide Ascending, StringLess;
    var n := |ids|;
    var index := Offsets(ids);
    counts := new nat[n, n]((_, _) => 0);
    for t := 0 to |pairs|
      invariant forall a, b | 0 <= a < n && 0 <= b < n :: counts[a, b] == Count(pairs[..t], ids[a], ids[b])
    {
      assert pairs[t] in pairs && pairs[..t + 1][..t] == pairs[..t];
      var x, y := index[pairs[t].0], index[pairs[t].1];
      StringOrder();
      AscendingDistinct(StringLess, ids);
      counts[x, y] := counts[x, y] + 1;
    }
    assert pairs[..|pairs|] == pairs;
  }

  method SumRow(ids: seq<string>, pairs: seq<(string, string)>, counts: array2<nat>, start: nat) returns (total: nat)
    requires Ascending(StringLess, ids) && forall e | e in pairs :: e.1 in ids
    requires counts.Length0 == |ids| == counts.Length1 && start < |ids|
    requires forall a, b | 0 <= a < |ids| && 0 <= b < |ids| :: counts[a, b] == Count(pairs, ids[a], ids[b])
    ensures total == OutCount(pairs, ids[start])
  {
    hide Ascending, StringLess, Count, OutCount;
    ghost var row := CountRow(ids, pairs, ids[start]);
    total := 0;
    for j := 0 to |ids|
      invariant total as real == Total(row[..j])
    {
      assert row[..j + 1][..j] == row[..j];
      total := total + counts[start, j];
    }
    assert row[..|ids|] == row;
    CountsTotal(ids, pairs, ids[start]);
  }

  /** One column of the system, subtracted from the identity. */
  method FillColumn(ids: seq<string>, pairs: seq<(string, string)>, damping: real, counts: array2<nat>,
                    matrix: array2<real>, start: nat)
    requires Ascending(StringLess, ids) && forall e | e in pairs :: e.1 in ids
    requires counts.Length0 == |ids| == counts.Length1 && start < |ids|
    requires forall a, b | 0 <= a < |ids| && 0 <= b < |ids| :: counts[a, b] == Count(pairs, ids[a], ids[b])
    requires matrix.Length0 == |ids| == matrix.Length1 && Filled(ids, pairs, damping, matrix, start)
    modifies matrix
    ensures Filled(ids, pairs, damping, matrix, start + 1)
  {
    hide Ascending, StringLess, Count, OutCount, Times, Over;
    var total := SumRow(ids, pairs, counts, start);
    for end := 0 to |ids|
      invariant forall a, b | 0 <= a < |ids| && 0 <= b < |ids| ::
                  matrix[a, b] == if b < start || (b == start && a < end) then Coefficient(ids, pairs, damping, a, b)
                                  else Identity(a, b)
    {
      var transition := if total > 0 then Over(counts[start, end] as real, total) else Over(1.0, |ids|);
      matrix[end, start] := matrix[end, start] - Times(damping, transition);
    }
  }

  ghost predicate Filled(ids: seq<string>, pairs: seq<(string, string)>, damping: real, matrix: array2<real>, k: nat)
    reads matrix
    requires matrix.Length0 == |ids| == matrix.Length1
  {
    forall a, b | 0 <= a < |ids| && 0 <= b < |ids| ::
      matrix[a, b] == if b < k then Coefficient(ids, pairs, damping, a, b) else Identity(a, b)
  }

  method BuildSystem(ids: seq<string>, pairs: seq<(string, string)>, damping: real) returns (rows: seq<Row>)
    requires Ascending(StringLess, ids) && forall e | e in pairs :: e.0 in ids && e.1 in ids
    ensures IsSystem(ids, pairs, damping, rows)
  {
    hide Coefficient, Ascending, Count, OutCount, StringLess;
    var n := |ids|;
    var counts := Tally(ids, pairs);
    var matrix := new real[n, n]((i, j) => if i == j then 1.0 else 0.0);
    for start := 0 to n
      modifies matrix
      invariant Filled(ids, pairs, damping, matrix, start)
    {
      FillColumn(ids, pairs, damping, counts, matrix, start);
    }
    rows := seq(n, i requires 0 <= i < n reads matrix => MatrixRow(matrix, i));
  }

  function MatrixRow(matrix: array2<real>, i: nat): (r: Row)
    requires i < matrix.Length0
    reads matrix
    ensures |r| == matrix.Length1 && forall j | 0 <= j < |r| :: r[j] == matrix[i, j]
  {
    seq(matrix.Length1, j requires 0 <= j < matrix.Length1 reads matrix => matrix[i, j])
  }

  datatype Ranking = Ranked(ranks: map<string, real>) | Refused

  method Zip(ids: seq<string>, x: Row) returns (ranks: map<string, real>)
    requires |ids| == |x| && Ascending(StringLess, ids)
    ensures ranks.Keys == Elements(ids) && RankVector(ids, ranks) == x
  {
    StringOrder();
    AscendingDistinct(StringLess, ids);
    hide Ascending, StringLess;
    ranks := map[];
    for i := 0 to |ids|
      invariant ranks.Keys == Elements(ids[..i])
      invariant forall j | 0 <= j < i :: ids[j] in ranks && ranks[ids[j]] == x[j]
    {
      assert ids[..i + 1] == ids[..i] + [ids[i]];
      ranks := ranks[ids[i] := x[i]];
    }
    assert ids[..|ids|] == ids;
  }

  /** What the one solution of the built system is. */
  lemma RanksAre(identifiers: set<string>, pairs: seq<(string, string)>, damping: real, rows: seq<Row>, x: Row,
                 ranks: map<string, real>)
    requires Known(Graph(pairs, true), identifiers) && identifiers != {} && ranks.Keys == identifiers
    requires
      var ids := SortStrings(identifiers);
      && ids != [] && RankVector(ids, ranks) == x && IsSystem(ids, pairs, damping, rows)
      && forall y: Row | |y| == |ids| :: Solves(rows, Constant(|ids|, Over(1.0 - damping, |ids|)), y) <==> y == x
    ensures
      var ids := SortStrings(identifiers);
      && ids != []
      && (forall y: Row :: IsRank(Transitions(ids, pairs), damping, y) <==> y == x)
      && (forall v | v in identifiers :: Balanced(ids, pairs, damping, ranks, v))
      && (damping != 1.0 ==> Total(x) == 1.0)
      && (0.0 <= damping < 1.0 ==> forall v | v in identifiers :: ranks[v] >= 0.0)
  {
    hide StringLess, Count, OutCount, Times, Over, IsRank, Transition, Solves, Balanced, Total, IsSystem;
    var ids := SortStrings(identifiers);
    hide Ascending;
    var n, p := |ids|, Transitions(ids, pairs);
    forall y: Row ensures IsRank(p, damping, y) <==> y == x {
      if |y| == n { SystemIsRank(ids, pairs, damping, rows, y); }
      else if IsRank(p, damping, y) { SameLength(p, damping, y); }
    }
    forall v | v in identifiers ensures Balanced(ids, pairs, damping, ranks, v) {
      assert v in Elements(ids);
      RankOverPairs(ids, pairs, damping, ranks, v);
    }
    TransitionsStochastic(ids, pairs);
    if damping != 1.0 { RankSumsToOne(p, damping, x); }
    if 0.0 <= damping < 1.0 {
      forall v | v in identifiers ensures ranks[v] >= 0.0 {
        assert v in Elements(ids);
        var i := PositionOf(ids, v);
        RankNonnegative(p, damping, x, i);
      }
    }
  }

  /** Either the system has a pivot that is too small, or the answer is the one solution of the
      PageRank equations; it sums to one and, with damping in [0, 1), has no negative rank. With
      damping from zero to below one by more than the pivot limit there is always an answer. */
  method PagerankOracle(identifiers: set<string>, pairs: seq<(string, string)>, damping: real)
      returns (r: Ranking)
    requires Known(Graph(pairs, true), identifiers)
    ensures identifiers == {} ==> r == Ranked(map[])
    ensures r.Ranked? ==> r.ranks.Keys == identifiers
    ensures 0.0 <= damping && 1.0 - damping > PIVOT_LIMIT ==> r.Ranked?
    ensures
      var ids := SortStrings(identifiers);
      ids != [] && r.Ranked? ==>
        var x := RankVector(ids, r.ranks);
        && (forall y: Row :: IsRank(Transitions(ids, pairs), damping, y) <==> y == x)
        && (forall v | v in identifiers :: Balanced(ids, pairs, damping, r.ranks, v))
        && (damping != 1.0 ==> Total(x) == 1.0)
        && (0.0 <= damping < 1.0 ==> forall v | v in identifiers :: r.ranks[v] >= 0.0)
  {
    hide Ascending, StringLess, Count, OutCount, Times, Over, IsRank, Transition, Solves, Dominant, Balanced;
    var ids := SortStrings(identifiers);
    if ids == [] {
      assert Elements(ids) == {};
      return Ranked(map[]);
    }
    var n := |ids|;
    assert ids[0] in Elements(ids);
    var rows := BuildSystem(ids, pairs, damping);
    if 0.0 <= damping && 1.0 - damping > PIVOT_LIMIT { SystemDominant(ids, pairs, damping, rows); }
    var solution := LinearSolve(rows, Constant(n, Over(1.0 - damping, n)));
    if solution.Singular? { return Refused; }
    var ranks := Zip(ids, solution.x);
    RanksAre(identifiers, pairs, damping, rows, solution.x, ranks);
    r := Ranked(ranks);
  }
}
