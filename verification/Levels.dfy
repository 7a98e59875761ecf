/** `Hierarchy::advance` as a step function on states, and what holds over every run. */
module Levels {
  import opened Orders
  import opened Forests

  const MAX_OUTPUT: nat := 32 * 1024 * 1024

  datatype Setup = Setup(world: World, size: Record -> nat, workLimit: nat)

  datatype State = State(forest: Forest, level: nat, boundary: bool, work: nat, bytes: nat)

  /** What construction guarantees: dangling links were rejected, link ids ascend. */
  ghost predicate ValidWorld(w: World) {
    && Injective(w.digest)
    && (forall l | l in w.links :: l.from in w.nodes && l.to in w.nodes)
    && (forall i, j | 0 <= i < j < |w.links| :: StringLess(w.links[i].id, w.links[j].id))
  }

  // ----- owners and candidate pairs -----

  ghost function OwnerOf(f: Forest, n: string): (m: Member)
    requires Covered(f, n)
    ensures Covers(f, m, n)
  {
    var m :| Covers(f, m, n);
    m
  }

  lemma OwnerUnique(w: World, f: Forest, m: Member, n: string)
    requires Partitions(w, f) && Covers(f, m, n)
    ensures Covered(f, n) && OwnerOf(f, n) == m
  {
    var o := OwnerOf(f, n);
    assert m == o || Apart(f, m, o);
  }

  lemma AllCovered(w: World, f: Forest, n: string)
    requires Partitions(w, f) && n in w.nodes
    ensures Covered(f, n)
  {
  }

  function Ordered(a: Member, b: Member): Pair {
    if MemberLess(a, b) then (a, b) else (b, a)
  }

  ghost predicate Joins(f: Forest, l: Link, p: Pair) {
    && Covered(f, l.from) && Covered(f, l.to)
    && OwnerOf(f, l.from) != OwnerOf(f, l.to)
    && p == Ordered(OwnerOf(f, l.from), OwnerOf(f, l.to))
  }

  /** The unordered pairs of distinct frontier members some source link joins. */
  ghost function Pairs(w: World, f: Forest): set<Pair> {
    set l, p | l in w.links && p in AllPairs(f.frontier) && Joins(f, l, p) :: p
  }

  function AllPairs(s: set<Member>): set<Pair> {
    set a, b | a in s && b in s :: (a, b)
  }

  lemma PairsExactly(w: World, f: Forest, p: Pair)
    ensures p in Pairs(w, f) <==> exists l :: l in w.links && Joins(f, l, p)
  {
    if l :| l in w.links && Joins(f, l, p) {
      assert p in AllPairs(f.frontier);
    }
  }

  function PairSet(q: seq<Pair>): set<Member> {
    (set p | p in q :: p.0) + (set p | p in q :: p.1)
  }

  /** Greedy matching: take the candidate pairs in order, skip any that touches a used member. */
  function Greedy(pairs: set<Pair>, used: set<Member>): seq<Pair>
    decreases |pairs|
  {
    if pairs == {} then [] else
      MemberOrder();
      PairsOrdered(MemberLess);
      var p := Least(PairOrder(MemberLess), pairs);
      if p.0 in used || p.1 in used then Greedy(pairs - {p}, used)
      else [p] + Greedy(pairs - {p}, used + {p.0, p.1})
  }

  ghost predicate Disjoint(q: seq<Pair>) {
    forall i, j | 0 <= i < j < |q| :: {q[i].0, q[i].1} !! {q[j].0, q[j].1}
  }

  /** The greedy choice is a matching among the candidates, and a maximal one. */
  lemma {:induction false} GreedyMaximal(pairs: set<Pair>, used: set<Member>)
    ensures
      var q := Greedy(pairs, used);
      && (forall i | 0 <= i < |q| :: q[i] in pairs && {q[i].0, q[i].1} !! used)
      && Disjoint(q)
      && (forall p | p in pairs :: p.0 in used + PairSet(q) || p.1 in used + PairSet(q))
    decreases |pairs|
  {
    if pairs != {} {
      MemberOrder();
      PairsOrdered(MemberLess);
      var p := Least(PairOrder(MemberLess), pairs);
      if p.0 in used || p.1 in used {
        GreedyMaximal(pairs - {p}, used);
      } else {
        GreedyMaximal(pairs - {p}, used + {p.0, p.1});
        var rest := Greedy(pairs - {p}, used + {p.0, p.1});
        assert PairSet([p] + rest) == {p.0, p.1} + PairSet(rest);
      }
    }
  }

  lemma GreedyEmpty(pairs: set<Pair>)
    ensures Greedy(pairs, {}) == [] <==> pairs == {}
  {
    GreedyMaximal(pairs, {});
  }

  // ----- contracting a whole matching -----

  ghost function ContractAll(w: World, f: Forest, q: seq<Pair>, level: nat): Forest {
    if q == [] then f
    else Contract(w, ContractAll(w, f, q[..|q| - 1], level), q[|q| - 1], level)
  }

  ghost predicate Matching(w: World, f: Forest, q: seq<Pair>, level: nat) {
    Disjoint(q) && forall i | 0 <= i < |q| :: Contractible(w, f, q[i], level)
  }

  function Made(w: World, f: Forest, q: seq<Pair>, level: nat): set<Member> {
    set p | p in q :: Cluster(MakeRecord(w, f.clusters, p, level).id)
  }

  ghost predicate Keeps(f: Forest, g: Forest, m: Member) {
    && Known(g.clusters, m) && Leaves(g.clusters, m) == Leaves(f.clusters, m)
    && Height(g.clusters, m) == Height(f.clusters, m)
  }

  ghost predicate AllKept(f: Forest, g: Forest) {
    forall m {:trigger Keeps(f, g, m)} | Known(f.clusters, m) :: Keeps(f, g, m)
  }

  ghost predicate NewAt(f: Forest, g: Forest, m: Member, level: nat) {
    !Known(f.clusters, m) && Known(g.clusters, m) && Height(g.clusters, m) == level
  }

  ghost predicate AllNew(f: Forest, g: Forest, made: set<Member>, level: nat) {
    forall m {:trigger NewAt(f, g, m, level)} | m in made :: NewAt(f, g, m, level)
  }

  ghost predicate Outcome(w: World, f: Forest, g: Forest, q: seq<Pair>, level: nat) {
    && AllKept(f, g)
    && g.frontier == f.frontier - PairSet(q) + Made(w, f, q, level)
    && |g.frontier| == |f.frontier| - |q|
    && AllNew(f, g, Made(w, f, q, level), level)
  }

  /** Everything contracting a matching does: the parts leave the frontier, the made
      clusters enter it, all earlier members keep their leaves, the invariant stays. */
  lemma {:induction false} ContractAllKeeps(w: World, f: Forest, q: seq<Pair>, level: nat)
    requires Injective(w.digest) && Invariant(w, f) && Matching(w, f, q, level)
    ensures Invariant(w, ContractAll(w, f, q, level))
    ensures Outcome(w, f, ContractAll(w, f, q, level), q, level)
  {
    if q == [] {
      NothingDone(w, f, level);
    } else {
      var r, p := q[..|q| - 1], q[|q| - 1];
      assert q == r + [p];
      MatchingSplits(w, f, r, p, level);
      ContractAllKeeps(w, f, r, level);
      OneMore(w, f, ContractAll(w, f, r, level), r, p, level);
    }
  }

  lemma NothingDone(w: World, f: Forest, level: nat)
    ensures Outcome(w, f, f, [], level)
  {
    assert PairSet([]) == {} && Made(w, f, [], level) == {};
  }

  lemma MatchingSplits(w: World, f: Forest, r: seq<Pair>, p: Pair, level: nat)
    requires Matching(w, f, r + [p], level)
    ensures Matching(w, f, r, level) && Contractible(w, f, p, level)
  {
    var q := r + [p];
    assert forall i | 0 <= i < |r| :: r[i] == q[i];
    assert q[|r|] == p;
  }

  lemma OneMore(w: World, f: Forest, g: Forest, r: seq<Pair>, p: Pair, level: nat)
    requires Injective(w.digest) && Invariant(w, f) && Invariant(w, g) && Outcome(w, f, g, r, level)
    requires Contractible(w, f, p, level) && Disjoint(r + [p])
    ensures Invariant(w, Contract(w, g, p, level))
    ensures Outcome(w, f, Contract(w, g, p, level), r + [p], level)
  {
    Untouched(w, f, g, r, p, level);
    LaterContractible(w, f, g, p, level);
    ContractKeeps(w, g, p, level);
    ContractCounts(w, g, p, level);
    ContractStep(w, f, g, p, level, Made(w, f, r, level));
    FrontierStep(w, f, g, r, p, level);
  }

  lemma FrontierStep(w: World, f: Forest, g: Forest, r: seq<Pair>, p: Pair, level: nat)
    requires Partitions(w, f) && p.0 in f.frontier && p.1 in f.frontier
    requires g.frontier == f.frontier - PairSet(r) + Made(w, f, r, level)
    requires AllNew(f, g, Made(w, f, r, level), level)
    requires MakeRecord(w, g.clusters, p, level) == MakeRecord(w, f.clusters, p, level)
    ensures Made(w, f, r + [p], level) == Made(w, f, r, level) + {Cluster(MakeRecord(w, f.clusters, p, level).id)}
    ensures Contract(w, g, p, level).frontier == f.frontier - PairSet(r + [p]) + Made(w, f, r + [p], level)
  {
    hide Made, PairSet;
    PairSetGrows(r, p);
    MadeGrows(w, f, r, p, level);
    assert Placed(w, f, p.0) && Placed(w, f, p.1);
    var made := Made(w, f, r, level);
    assert p.0 in made ==> NewAt(f, g, p.0, level);
    assert p.1 in made ==> NewAt(f, g, p.1, level);
  }

  lemma PairSetGrows(r: seq<Pair>, p: Pair)
    ensures PairSet(r + [p]) == PairSet(r) + {p.0, p.1}
  {
    assert forall o :: o in r + [p] <==> o in r || o == p;
  }

  lemma MadeGrows(w: World, f: Forest, r: seq<Pair>, p: Pair, level: nat)
    ensures Made(w, f, r + [p], level) == Made(w, f, r, level) + {Cluster(MakeRecord(w, f.clusters, p, level).id)}
  {
    assert forall o :: o in r + [p] <==> o in r || o == p;
  }

  lemma Untouched(w: World, f: Forest, g: Forest, r: seq<Pair>, p: Pair, level: nat)
    requires Contractible(w, f, p, level) && Disjoint(r + [p])
    requires g.frontier == f.frontier - PairSet(r) + Made(w, f, r, level)
    ensures p.0 in g.frontier && p.1 in g.frontier
  {
    forall o | o in r ensures {o.0, o.1} !! {p.0, p.1} {
      var i :| 0 <= i < |r| && r[i] == o;
      assert (r + [p])[i] == o && (r + [p])[|r|] == p;
    }
    assert p.0 !in PairSet(r) && p.1 !in PairSet(r);
  }

  /** A pair untouched by earlier contractions can still be contracted, into the same record. */
  lemma LaterContractible(w: World, f: Forest, g: Forest, p: Pair, level: nat)
    requires Partitions(w, f) && Contractible(w, f, p, level) && AllKept(f, g)
    requires p.0 in g.frontier && p.1 in g.frontier
    ensures Contractible(w, g, p, level)
    ensures MakeRecord(w, g.clusters, p, level) == MakeRecord(w, f.clusters, p, level)
  {
    assert Placed(w, f, p.0) && Placed(w, f, p.1);
    assert Keeps(f, g, p.0) && Keeps(f, g, p.1);
    var x, y :| x in LeafSet(f.clusters, p.0) && y in LeafSet(f.clusters, p.1) && Adjacent(w.links, x, y);
    assert Crossing(w, g.clusters, p);
  }

  lemma FreshMade(w: World, f: Forest, g: Forest, p: Pair, level: nat)
    requires Injective(w.digest) && Invariant(w, g) && AllKept(f, g) && Contractible(w, g, p, level)
    requires MakeRecord(w, g.clusters, p, level) == MakeRecord(w, f.clusters, p, level)
    ensures !Known(f.clusters, Cluster(MakeRecord(w, f.clusters, p, level).id))
  {
    FreshId(w, g, p, level);
    var c := Cluster(MakeRecord(w, f.clusters, p, level).id);
    assert Known(f.clusters, c) ==> Keeps(f, g, c);
  }

  lemma ContractStep(w: World, f: Forest, g: Forest, p: Pair, level: nat, made: set<Member>)
    requires Injective(w.digest) && Invariant(w, g) && AllKept(f, g) && AllNew(f, g, made, level)
    requires Contractible(w, g, p, level)
    requires MakeRecord(w, g.clusters, p, level) == MakeRecord(w, f.clusters, p, level)
    ensures
      var h := Contract(w, g, p, level);
      var c := Cluster(MakeRecord(w, f.clusters, p, level).id);
      AllKept(f, h) && AllNew(f, h, made + {c}, level)
  {
    var r := MakeRecord(w, g.clusters, p, level);
    var h := Contract(w, g, p, level);
    FreshId(w, g, p, level);
    FreshMade(w, f, g, p, level);
    forall m | Known(f.clusters, m) ensures Keeps(f, h, m) {
      assert Keeps(f, g, m);
      LeavesKept(g.clusters, r, m);
    }
    forall m | m in made + {Cluster(r.id)} ensures NewAt(f, h, m, level) {
      if m in made {
        assert NewAt(f, g, m, level);
        LeavesKept(g.clusters, r, m);
      }
    }
  }
}
