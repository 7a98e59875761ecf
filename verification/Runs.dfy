/** The step function of `advance` and the theorems about every run of it. */
module Runs {
  import opened Orders
  import opened Forests
  import opened Levels

  function Charge(c: Setup, s: State): nat {
    |c.world.nodes| + |c.world.links| + |s.forest.frontier|
  }

  function Records(w: World, f: Forest, q: seq<Pair>, level: nat): seq<Record> {
    seq(|q|, i requires 0 <= i < |q| => MakeRecord(w, f.clusters, q[i], level))
  }

  function SizeSum(size: Record -> nat, rs: seq<Record>): nat {
    if rs == [] then 0 else SizeSum(size, rs[..|rs| - 1]) + size(rs[|rs| - 1])
  }

  ghost function Matched(c: Setup, s: State): seq<Pair> {
    Greedy(Pairs(c.world, s.forest), {})
  }

  ghost function NextForest(c: Setup, s: State): Forest {
    ContractAll(c.world, s.forest, Matched(c, s), s.level + 1)
  }

  ghost function NextBytes(c: Setup, s: State): nat {
    s.bytes + SizeSum(c.size, Records(c.world, s.forest, Matched(c, s), s.level + 1))
  }

  /** One call of `advance`; the flag is false when it returned the budget error. */
  ghost function Step(c: Setup, s: State): (State, bool) {
    if s.boundary then (s, true)
    else if s.work + Charge(c, s) > c.workLimit then (s, false)
    else
      var charged := s.(work := s.work + Charge(c, s));
      var pairs := Pairs(c.world, s.forest);
      if charged.work + |pairs| > c.workLimit then (charged, false)
      else
        var paid := charged.(work := charged.work + |pairs|);
        if Matched(c, s) == [] then (paid.(boundary := true), true)
        else if NextBytes(c, s) > MAX_OUTPUT then (paid, false)
        else (paid.(forest := NextForest(c, s), level := s.level + 1, bytes := NextBytes(c, s)), true)
  }

  function Initial(c: Setup): State {
    State(Forest(map[], set n | n in c.world.nodes :: Leaf(n)), 0, false, 0, 0)
  }

  /** The state after `n` calls. */
  ghost function Run(c: Setup, n: nat): State {
    if n == 0 then Initial(c) else Step(c, Run(c, n - 1)).0
  }

  ghost predicate Low(f: Forest, top: nat) {
    forall m | m in f.frontier :: Height(f.clusters, m) <= top
  }

  /** No source link joins two frontier members. */
  ghost predicate Closed(c: Setup, s: State) {
    forall l | l in c.world.links ::
      Covered(s.forest, l.from) && Covered(s.forest, l.to)
      && OwnerOf(s.forest, l.from) == OwnerOf(s.forest, l.to)
  }

  ghost predicate Good(c: Setup, s: State) {
    && Invariant(c.world, s.forest)
    && Low(s.forest, s.level)
    && s.work <= c.workLimit
    && s.bytes <= MAX_OUTPUT
    && (s.boundary ==> Closed(c, s))
  }

  // ----- one step -----

  lemma PairContractible(w: World, f: Forest, top: nat, p: Pair)
    requires ValidWorld(w) && Partitions(w, f) && Low(f, top) && p in Pairs(w, f)
    ensures Contractible(w, f, p, top + 1)
  {
    hide Pairs, Injective;
    PairsExactly(w, f, p);
    var l :| l in w.links && Joins(f, l, p);
    JoinCrosses(w, f, l, p);
  }

  lemma JoinCrosses(w: World, f: Forest, l: Link, p: Pair)
    requires l in w.links && Joins(f, l, p)
    ensures p.0 in f.frontier && p.1 in f.frontier && p.0 != p.1 && Crossing(w, f.clusters, p)
  {
    assert Covers(f, OwnerOf(f, l.from), l.from) && Covers(f, OwnerOf(f, l.to), l.to);
    assert Adjacent(w.links, l.from, l.to) && Adjacent(w.links, l.to, l.from);
  }

  lemma MatchedIsMatching(c: Setup, s: State)
    requires ValidWorld(c.world) && Partitions(c.world, s.forest) && Low(s.forest, s.level)
    ensures Matching(c.world, s.forest, Matched(c, s), s.level + 1)
  {
    var pairs := Pairs(c.world, s.forest);
    GreedyMaximal(pairs, {});
    var q := Matched(c, s);
    forall i | 0 <= i < |q| ensures Contractible(c.world, s.forest, q[i], s.level + 1) {
      PairContractible(c.world, s.forest, s.level, q[i]);
    }
  }

  lemma ClosedIffNoPairs(c: Setup, s: State)
    requires ValidWorld(c.world) && Partitions(c.world, s.forest)
    ensures Closed(c, s) <==> Pairs(c.world, s.forest) == {}
  {
    if Pairs(c.world, s.forest) == {} {
      forall l | l in c.world.links
        ensures Covered(s.forest, l.from) && Covered(s.forest, l.to)
                && OwnerOf(s.forest, l.from) == OwnerOf(s.forest, l.to)
      {
        AllCovered(c.world, s.forest, l.from);
        AllCovered(c.world, s.forest, l.to);
        var p := Ordered(OwnerOf(s.forest, l.from), OwnerOf(s.forest, l.to));
        PairsExactly(c.world, s.forest, p);
        assert Joins(s.forest, l, p) <==> OwnerOf(s.forest, l.from) != OwnerOf(s.forest, l.to);
      }
    } else {
      var p :| p in Pairs(c.world, s.forest);
      PairsExactly(c.world, s.forest, p);
    }
  }

  lemma MatchingContracts(w: World, f: Forest, q: seq<Pair>, top: nat)
    requires ValidWorld(w) && Invariant(w, f) && Low(f, top) && Matching(w, f, q, top + 1)
    ensures
      var g := ContractAll(w, f, q, top + 1);
      Invariant(w, g) && Outcome(w, f, g, q, top + 1) && Low(g, top + 1)
  {
    hide ContractAll;
    ContractAllKeeps(w, f, q, top + 1);
    var g := ContractAll(w, f, q, top + 1);
    forall m | m in g.frontier ensures Height(g.clusters, m) <= top + 1 {
      if m in Made(w, f, q, top + 1) {
        assert NewAt(f, g, m, top + 1);
      } else {
        assert Placed(w, f, m);
        assert Keeps(f, g, m);
      }
    }
  }

  /** What a successful, non-final call does to the forest. */
  lemma StepContracts(c: Setup, s: State)
    requires ValidWorld(c.world) && Invariant(c.world, s.forest) && Low(s.forest, s.level)
    ensures
      var g := NextForest(c, s);
      Invariant(c.world, g) && Outcome(c.world, s.forest, g, Matched(c, s), s.level + 1) && Low(g, s.level + 1)
  {
    hide ContractAll, Matched, Matching, Outcome;
    MatchedIsMatching(c, s);
    MatchingContracts(c.world, s.forest, Matched(c, s), s.level);
  }

  ghost predicate Unmoved(c: Setup, s: State, t: State) {
    && t.forest == s.forest && t.level == s.level && t.bytes == s.bytes
    && (t.boundary ==> s.boundary || Matched(c, s) == [])
  }

  ghost predicate Moved(c: Setup, s: State, t: State) {
    && t.forest == NextForest(c, s)
    && t.level == s.level + 1 && t.bytes <= MAX_OUTPUT && !t.boundary
  }

  lemma StepShape(c: Setup, s: State)
    requires s.work <= c.workLimit
    ensures s.work <= Step(c, s).0.work <= c.workLimit
    ensures Unmoved(c, s, Step(c, s).0) || Moved(c, s, Step(c, s).0)
  {
  }

  lemma MovedGood(c: Setup, s: State, t: State)
    requires ValidWorld(c.world) && Invariant(c.world, s.forest) && Low(s.forest, s.level)
    requires Moved(c, s, t) && t.work <= c.workLimit
    ensures Good(c, t)
  {
    StepContracts(c, s);
  }

  lemma StepGood(c: Setup, s: State)
    requires ValidWorld(c.world) && Good(c, s)
    ensures Good(c, Step(c, s).0)
  {
    var t := Step(c, s).0;
    StepShape(c, s);
    if Moved(c, s, t) {
      MovedGood(c, s, t);
    } else {
      if t.boundary && !s.boundary {
        BoundaryCloses(c, s);
      }
      SameForestGood(c, s, t);
    }
  }

  lemma SameForestGood(c: Setup, s: State, t: State)
    requires Good(c, s) && t.forest == s.forest && t.level == s.level && t.bytes == s.bytes
    requires t.work <= c.workLimit && (t.boundary ==> Closed(c, s))
    ensures Good(c, t)
  {
  }

  lemma BoundaryCloses(c: Setup, s: State)
    requires ValidWorld(c.world) && Partitions(c.world, s.forest)
    requires Matched(c, s) == []
    ensures Closed(c, s)
  {
    ClosedIffNoPairs(c, s);
    GreedyEmpty(Pairs(c.world, s.forest));
  }

  lemma InitialGood(c: Setup)
    ensures Good(c, Initial(c))
  {
    var s := Initial(c);
    forall m | m in s.forest.frontier ensures Placed(c.world, s.forest, m) {}
    forall m, o | m in s.forest.frontier && o in s.forest.frontier && m != o ensures Apart(s.forest, m, o) {}
    forall n | n in c.world.nodes ensures Covered(s.forest, n) {
      assert Covers(s.forest, Leaf(n), n);
    }
    LeafCount(c.world.nodes);
  }

  lemma {:induction false} LeafCount(nodes: set<string>)
    ensures |set n | n in nodes :: Leaf(n)| == |nodes|
  {
    if nodes != {} {
      var x :| x in nodes;
      LeafCount(nodes - {x});
      assert (set n | n in nodes :: Leaf(n)) == (set n | n in nodes - {x} :: Leaf(n)) + {Leaf(x)};
    }
  }

  /** Every reachable state satisfies the invariant. */
  lemma {:induction false} RunGood(c: Setup, n: nat)
    requires ValidWorld(c.world)
    ensures Good(c, Run(c, n))
  {
    if n == 0 {
      InitialGood(c);
    } else {
      RunGood(c, n - 1);
      StepGood(c, Run(c, n - 1));
    }
  }

  // ----- the main results -----

  ghost predicate SoleOwner(f: Forest, m: Member, x: string) {
    Covers(f, m, x) && forall o | Covers(f, o, x) :: o == m
  }

  ghost predicate OwnedOnce(f: Forest, x: string) {
    exists m :: SoleOwner(f, m, x)
  }

  /** In every reachable state the frontier partitions the nodes, the clusters form a laminar
      family whose ids are digests of their leaves, and contractions are counted exactly. */
  lemma ReachableForest(c: Setup, n: nat)
    requires ValidWorld(c.world)
    ensures
      var f := Run(c, n).forest;
      && (forall x | x in c.world.nodes :: OwnedOnce(f, x))
      && (forall m, x | Covers(f, m, x) :: x in c.world.nodes)
      && (forall i, j | i in f.clusters && j in f.clusters :: Nested(f.clusters, i, j))
      && (forall i | i in f.clusters :: i == ClusterId(c.world, f.clusters[i].leaves))
      && |f.frontier| + |f.clusters| == |c.world.nodes|
  {
    RunGood(c, n);
    var f := Run(c, n).forest;
    forall x | x in c.world.nodes ensures OwnedOnce(f, x) {
      AllCovered(c.world, f, x);
      forall o | Covers(f, o, x) ensures o == OwnerOf(f, x) {
        OwnerUnique(c.world, f, o, x);
      }
      assert SoleOwner(f, OwnerOf(f, x), x);
    }
    forall m, x | Covers(f, m, x) ensures x in c.world.nodes {
      assert Placed(c.world, f, m);
    }
    forall i | i in f.clusters ensures i == ClusterId(c.world, f.clusters[i].leaves) {
      assert SoundRecord(c.world, f.clusters, i);
    }
  }

  /** In every reachable state, two nodes with one owner are joined by source links without
      leaving that owner's leaves. */
  lemma SameOwnerJoined(c: Setup, n: nat, u: string, v: string)
    requires ValidWorld(c.world)
    requires Covered(Run(c, n).forest, u) && Covered(Run(c, n).forest, v)
    requires OwnerOf(Run(c, n).forest, u) == OwnerOf(Run(c, n).forest, v)
    ensures Joined(c.world.links, LeafSet(Run(c, n).forest.clusters, OwnerOf(Run(c, n).forest, u)), u, v)
  {
    RunGood(c, n);
    var f := Run(c, n).forest;
    assert Covers(f, OwnerOf(f, u), u) && Covers(f, OwnerOf(f, v), v);
    assert Placed(c.world, f, OwnerOf(f, u));
    MemberConnected(c.world, f.clusters, OwnerOf(f, u));
  }

  lemma {:induction false} WalkSameOwner(c: Setup, s: State, p: seq<string>, u: string, v: string)
    requires ValidWorld(c.world) && Partitions(c.world, s.forest) && Closed(c, s)
    requires Walk(c.world.links, c.world.nodes, p, u, v)
    ensures Covered(s.forest, u) && Covered(s.forest, v) && OwnerOf(s.forest, u) == OwnerOf(s.forest, v)
    decreases |p|
  {
    AllCovered(c.world, s.forest, p[0]);
    if |p| > 1 {
      var q := p[1..];
      forall i | 0 <= i < |q| - 1 ensures Adjacent(c.world.links, q[i], q[i + 1]) {
        assert Adjacent(c.world.links, p[i + 1], p[i + 2]);
      }
      assert Walk(c.world.links, c.world.nodes, q, p[1], v);
      WalkSameOwner(c, s, q, p[1], v);
      assert Adjacent(c.world.links, p[0], p[0 + 1]);
    }
  }

  /** Once the evidence boundary is declared, the frontier is the set of connected
      components: two nodes share an owner exactly when source links join them. */
  lemma BoundaryIsComponents(c: Setup, n: nat, u: string, v: string)
    requires ValidWorld(c.world) && Run(c, n).boundary
    requires u in c.world.nodes && v in c.world.nodes
    ensures Covered(Run(c, n).forest, u) && Covered(Run(c, n).forest, v)
    ensures OwnerOf(Run(c, n).forest, u) == OwnerOf(Run(c, n).forest, v)
            <==> Joined(c.world.links, c.world.nodes, u, v)
  {
    RunGood(c, n);
    var s := Run(c, n);
    AllCovered(c.world, s.forest, u);
    AllCovered(c.world, s.forest, v);
    if OwnerOf(s.forest, u) == OwnerOf(s.forest, v) {
      SameOwnerJoined(c, n, u, v);
      assert Placed(c.world, s.forest, OwnerOf(s.forest, u));
      WalkWidens(c.world.links, LeafSet(s.forest.clusters, OwnerOf(s.forest, u)), c.world.nodes, u, v);
    }
    if Joined(c.world.links, c.world.nodes, u, v) {
      var p :| Walk(c.world.links, c.world.nodes, p, u, v);
      WalkSameOwner(c, s, p, u, v);
    }
  }

  /** A failed call changes nothing but `work`, which never decreases or passes the limit. */
  lemma FailureOnlyCharges(c: Setup, n: nat)
    requires ValidWorld(c.world)
    ensures
      var (s, t) := (Run(c, n), Step(c, Run(c, n)));
      && s.work <= t.0.work <= c.workLimit
      && (!t.1 ==> t.0 == s.(work := t.0.work) && !t.0.boundary)
  {
    RunGood(c, n);
    RunGood(c, n + 1);
  }

  /** No source link joins two different members of `s` that are both still in `t`. */
  ghost predicate NoLinkLeft(c: Setup, s: State, t: State) {
    forall l {:trigger l in c.world.links} | l in c.world.links
      && Covered(s.forest, l.from) && Covered(s.forest, l.to)
      && OwnerOf(s.forest, l.from) in t.forest.frontier && OwnerOf(s.forest, l.to) in t.forest.frontier ::
      OwnerOf(s.forest, l.from) == OwnerOf(s.forest, l.to)
  }

  /** A successful call before the boundary either declares it, exactly when no link crosses
      the frontier, or contracts a maximal matching: the frontier shrinks by one per cluster
      made, and no link joins two members that both persist. */
  lemma LevelIsMaximalMatching(c: Setup, n: nat)
    requires ValidWorld(c.world) && !Run(c, n).boundary && Step(c, Run(c, n)).1
    ensures
      var (s, t) := (Run(c, n), Run(c, n + 1));
      && (t.boundary <==> Closed(c, s))
      && (t.boundary ==> t.forest == s.forest && t.level == s.level)
      && (!t.boundary ==>
            && t.level == s.level + 1 && |t.forest.frontier| < |s.forest.frontier|
            && |t.forest.clusters| - |s.forest.clusters| == |s.forest.frontier| - |t.forest.frontier|
            && NoLinkLeft(c, s, t))
  {
    RunGood(c, n);
    var s, t := Run(c, n), Run(c, n + 1);
    BoundaryExact(c, s);
    if !t.boundary {
      MovedLevel(c, s, t);
    }
  }

  lemma BoundaryExact(c: Setup, s: State)
    requires ValidWorld(c.world) && Partitions(c.world, s.forest) && !s.boundary && Step(c, s).1
    ensures
      var t := Step(c, s).0;
      && (t.boundary <==> Closed(c, s))
      && (t.boundary ==> t.forest == s.forest && t.level == s.level)
      && (!t.boundary ==> Matched(c, s) != [] && Moved(c, s, t))
  {
    hide *;
    WorldParts(c.world);
    ClosedIffNoPairs(c, s);
    GreedyEmpty(Pairs(c.world, s.forest));
    MatchedIs(c, s);
    StepOutcome(c, s);
  }

  lemma WorldParts(w: World)
    requires ValidWorld(w)
    ensures Injective(w.digest)
  {
  }

  lemma MatchedIs(c: Setup, s: State)
    ensures Matched(c, s) == Greedy(Pairs(c.world, s.forest), {})
  {
  }

  /** A successful call before the boundary declares it or moves on. */
  lemma StepOutcome(c: Setup, s: State)
    requires !s.boundary && Step(c, s).1
    ensures
      var t := Step(c, s).0;
      && (t.boundary <==> Matched(c, s) == [])
      && (t.boundary ==> t.forest == s.forest && t.level == s.level)
      && (!t.boundary ==> Moved(c, s, t))
  {
    hide Matched, NextForest, NextBytes, Pairs, Charge;
  }

  lemma MovedLevel(c: Setup, s: State, t: State)
    requires ValidWorld(c.world) && Good(c, s) && Moved(c, s, t) && Matched(c, s) != []
    ensures |t.forest.frontier| < |s.forest.frontier|
    ensures |t.forest.clusters| - |s.forest.clusters| == |s.forest.frontier| - |t.forest.frontier|
    ensures NoLinkLeft(c, s, t)
  {
    StepContracts(c, s);
    forall l | l in c.world.links && Covered(s.forest, l.from) && Covered(s.forest, l.to)
               && OwnerOf(s.forest, l.from) in t.forest.frontier
               && OwnerOf(s.forest, l.to) in t.forest.frontier
      ensures OwnerOf(s.forest, l.from) == OwnerOf(s.forest, l.to)
    {
      NoCrossingPersists(c, s, l);
    }
  }

  /** A member used by the matching is gone from the next frontier. */
  lemma UsedLeaves(w: World, f: Forest, g: Forest, q: seq<Pair>, m: Member, level: nat)
    requires Partitions(w, f) && Outcome(w, f, g, q, level)
    requires m in f.frontier && m in PairSet(q)
    ensures m !in g.frontier
  {
    assert Placed(w, f, m);
    var _ := NewAt(f, g, m, level);
  }

  lemma NoCrossingPersists(c: Setup, s: State, l: Link)
    requires ValidWorld(c.world) && Good(c, s) && l in c.world.links
    requires Covered(s.forest, l.from) && Covered(s.forest, l.to)
    requires
      var g := NextForest(c, s);
      OwnerOf(s.forest, l.from) in g.frontier && OwnerOf(s.forest, l.to) in g.frontier
    ensures OwnerOf(s.forest, l.from) == OwnerOf(s.forest, l.to)
  {
    StepContracts(c, s);
    var q := Matched(c, s);
    var g := NextForest(c, s);
    var a, b := OwnerOf(s.forest, l.from), OwnerOf(s.forest, l.to);
    if a != b {
      CandidateUsed(c, s, l);
      UsedLeaves(c.world, s.forest, g, q, if a in PairSet(q) then a else b, s.level + 1);
    }
  }

  lemma CandidateUsed(c: Setup, s: State, l: Link)
    requires l in c.world.links && Covered(s.forest, l.from) && Covered(s.forest, l.to)
    requires OwnerOf(s.forest, l.from) != OwnerOf(s.forest, l.to)
    ensures OwnerOf(s.forest, l.from) in PairSet(Matched(c, s)) || OwnerOf(s.forest, l.to) in PairSet(Matched(c, s))
  {
    var p := Ordered(OwnerOf(s.forest, l.from), OwnerOf(s.forest, l.to));
    assert Joins(s.forest, l, p);
    PairsExactly(c.world, s.forest, p);
    GreedyMaximal(Pairs(c.world, s.forest), {});
  }
}
