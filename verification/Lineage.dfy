/** Sparse overlap of two frontiers: what `lineage_to_in_domain` reports and conserves. */
module Lineages {
  import opened Orders
  import opened Forests
  import opened Levels
  import opened Runs
  import opened Hierarchies
  import opened LevelOrder

  datatype Overlap = Overlap(before: Member, after: Member, shared: nat)

  datatype Lineage = Lineage(overlaps: seq<Overlap>, splits: seq<Member>, merges: seq<Member>,
                             retired: seq<Member>, created: seq<Member>,
                             removed: seq<string>, added: seq<string>)

  /** One retained output item, charged by its size before it is kept. */
  datatype Item = SourceItem(source: GraphRef) | LeafItem(leaf: string)
                | OverlapItem(overlap: Overlap) | MemberItem(member: Member)

  // ----- the reference definition -----

  function Shared(f: Forest, g: Forest, p: Pair): set<string> {
    LeafSet(f.clusters, p.0) * LeafSet(g.clusters, p.1)
  }

  /** The pairs of an old and a new frontier member that have a leaf in common. */
  function Overlapping(f: Forest, g: Forest): set<Pair> {
    set a, b | a in f.frontier && b in g.frontier && Shared(f, g, (a, b)) != {} :: (a, b)
  }

  function OutDegree(pairs: set<Pair>, m: Member): nat {
    |set p | p in pairs && p.0 == m|
  }

  function InDegree(pairs: set<Pair>, m: Member): nat {
    |set p | p in pairs && p.1 == m|
  }

  function Split(pairs: set<Pair>): Member -> bool { m => OutDegree(pairs, m) > 1 }

  function Retired(pairs: set<Pair>): Member -> bool { m => OutDegree(pairs, m) == 0 }

  function Merged(pairs: set<Pair>): Member -> bool { m => InDegree(pairs, m) > 1 }

  function Created(pairs: set<Pair>): Member -> bool { m => InDegree(pairs, m) == 0 }

  function Any(): Pair -> bool { _ => true }

  function From(m: Member): Pair -> bool { (p: Pair) => p.0 == m }

  function Into(m: Member): Pair -> bool { (p: Pair) => p.1 == m }

  function Where(listing: seq<Member>, keep: Member -> bool): seq<Member> {
    if listing == [] then []
    else
      var rest := Where(listing[..|listing| - 1], keep);
      var m := listing[|listing| - 1];
      if keep(m) then rest + [m] else rest
  }

  function OverlapList(f: Forest, g: Forest, pairs: seq<Pair>): seq<Overlap> {
    seq(|pairs|, i requires 0 <= i < |pairs| => Overlap(pairs[i].0, pairs[i].1, |Shared(f, g, pairs[i])|))
  }

  function LineageOf(f: Forest, g: Forest, before: seq<Member>, after: seq<Member>,
                     earlier: set<string>, later: set<string>): Lineage {
    var pairs := Overlapping(f, g);
    Lineage(OverlapList(f, g, SortPairs(pairs)),
            Where(before, Split(pairs)), Where(after, Merged(pairs)),
            Where(before, Retired(pairs)), Where(after, Created(pairs)),
            SortStrings(earlier - later), SortStrings(later - earlier))
  }

  // ----- conservation -----

  function SharedTotal(os: seq<Overlap>): nat {
    if os == [] then 0 else SharedTotal(os[..|os| - 1]) + os[|os| - 1].shared
  }

  function SharedBefore(os: seq<Overlap>, m: Member): nat {
    if os == [] then 0
    else SharedBefore(os[..|os| - 1], m) + if os[|os| - 1].before == m then os[|os| - 1].shared else 0
  }

  function SharedAfter(os: seq<Overlap>, m: Member): nat {
    if os == [] then 0
    else SharedAfter(os[..|os| - 1], m) + if os[|os| - 1].after == m then os[|os| - 1].shared else 0
  }

  /** The leaves the listed pairs share, restricted to the pairs `pick` selects. */
  function Gather(f: Forest, g: Forest, pairs: seq<Pair>, pick: Pair -> bool): set<string> {
    set i, n | 0 <= i < |pairs| && pick(pairs[i]) && n in Shared(f, g, pairs[i]) :: n
  }

  ghost predicate SharedApart(f: Forest, g: Forest, p: Pair, q: Pair) {
    Shared(f, g, p) !! Shared(f, g, q)
  }

  lemma PairsShareApart(w: World, f: Forest, v: World, g: Forest, p: Pair, q: Pair)
    requires Partitions(w, f) && Partitions(v, g)
    requires p in Overlapping(f, g) && q in Overlapping(f, g) && p != q
    ensures SharedApart(f, g, p, q)
  {
    assert p.0 == q.0 || Apart(f, p.0, q.0);
    assert p.1 == q.1 || Apart(g, p.1, q.1);
  }

  /** Shared counts of pairwise disjoint overlaps add up to the size of what they gather. */
  lemma {:induction false} SharedSum(f: Forest, g: Forest, pairs: seq<Pair>, pick: Pair -> bool)
    requires forall i, j | 0 <= i < j < |pairs| :: SharedApart(f, g, pairs[i], pairs[j])
    ensures PickedTotal(f, g, pairs, pick) == |Gather(f, g, pairs, pick)|
  {
    hide Shared, Gather, SharedApart;
    if pairs == [] {
      NothingGathered(f, g, pick);
    } else {
      var rest, p := pairs[..|pairs| - 1], pairs[|pairs| - 1];
      SharedSum(f, g, rest, pick);
      GatherStep(f, g, rest, p, pick);
      assert pairs == rest + [p];
      if pick(p) {
        GatherApart(f, g, rest, p, pick);
      }
    }
  }

  lemma NothingGathered(f: Forest, g: Forest, pick: Pair -> bool)
    ensures Gather(f, g, [], pick) == {}
  {
  }

  lemma GatherApart(f: Forest, g: Forest, rest: seq<Pair>, p: Pair, pick: Pair -> bool)
    requires forall i, j | 0 <= i < j < |rest + [p]| :: SharedApart(f, g, (rest + [p])[i], (rest + [p])[j])
    ensures |Gather(f, g, rest, pick) + Shared(f, g, p)| == |Gather(f, g, rest, pick)| + |Shared(f, g, p)|
  {
    forall n | n in Gather(f, g, rest, pick) ensures n !in Shared(f, g, p) {
      var i :| 0 <= i < |rest| && pick(rest[i]) && n in Shared(f, g, rest[i]);
      assert (rest + [p])[i] == rest[i] && (rest + [p])[|rest|] == p;
      assert SharedApart(f, g, rest[i], p);
    }
  }

  function PickedTotal(f: Forest, g: Forest, pairs: seq<Pair>, pick: Pair -> bool): nat {
    if pairs == [] then 0
    else PickedTotal(f, g, pairs[..|pairs| - 1], pick)
         + if pick(pairs[|pairs| - 1]) then |Shared(f, g, pairs[|pairs| - 1])| else 0
  }

  lemma GatherStep(f: Forest, g: Forest, rest: seq<Pair>, p: Pair, pick: Pair -> bool)
    ensures Gather(f, g, rest + [p], pick)
         == Gather(f, g, rest, pick) + if pick(p) then Shared(f, g, p) else {}
  {
    var all := rest + [p];
    forall n | n in Gather(f, g, rest, pick) ensures n in Gather(f, g, all, pick) {
      var i :| 0 <= i < |rest| && pick(rest[i]) && n in Shared(f, g, rest[i]);
      assert all[i] == rest[i];
    }
    if pick(p) { assert all[|rest|] == p; }
  }

  lemma {:induction false} TotalsPick(f: Forest, g: Forest, pairs: seq<Pair>, m: Member)
    ensures SharedTotal(OverlapList(f, g, pairs)) == PickedTotal(f, g, pairs, Any())
    ensures SharedBefore(OverlapList(f, g, pairs), m) == PickedTotal(f, g, pairs, From(m))
    ensures SharedAfter(OverlapList(f, g, pairs), m) == PickedTotal(f, g, pairs, Into(m))
  {
    if pairs != [] {
      TotalsPick(f, g, pairs[..|pairs| - 1], m);
      var os := OverlapList(f, g, pairs);
      assert os[..|os| - 1] == OverlapList(f, g, pairs[..|pairs| - 1]);
    }
  }

  lemma OverlapsApart(w: World, f: Forest, v: World, g: Forest)
    requires Partitions(w, f) && Partitions(v, g)
    ensures
      var pairs := SortPairs(Overlapping(f, g));
      forall i, j | 0 <= i < j < |pairs| :: SharedApart(f, g, pairs[i], pairs[j])
  {
    var pairs := SortPairs(Overlapping(f, g));
    MemberOrder();
    PairsOrdered(MemberLess);
    AscendingDistinct(PairOrder(MemberLess), pairs);
    forall i, j | 0 <= i < j < |pairs| ensures SharedApart(f, g, pairs[i], pairs[j]) {
      assert pairs[i] in Elements(pairs) && pairs[j] in Elements(pairs);
      PairsShareApart(w, f, v, g, pairs[i], pairs[j]);
    }
  }

  lemma GatherAll(w: World, f: Forest, v: World, g: Forest, pick: Pair -> bool, n: string)
    requires Partitions(w, f) && Partitions(v, g)
    ensures n in Gather(f, g, SortPairs(Overlapping(f, g)), pick)
            <==> n in w.nodes && n in v.nodes && Covered(f, n) && Covered(g, n) && pick((OwnerOf(f, n), OwnerOf(g, n)))
  {
    var pairs := SortPairs(Overlapping(f, g));
    if n in Gather(f, g, pairs, pick) {
      var i :| 0 <= i < |pairs| && pick(pairs[i]) && n in Shared(f, g, pairs[i]);
      assert pairs[i] in Elements(pairs);
      assert Placed(w, f, pairs[i].0) && Placed(v, g, pairs[i].1);
      OwnerUnique(w, f, pairs[i].0, n);
      OwnerUnique(v, g, pairs[i].1, n);
    }
    if n in w.nodes && n in v.nodes && Covered(f, n) && Covered(g, n) && pick((OwnerOf(f, n), OwnerOf(g, n))) {
      var p := (OwnerOf(f, n), OwnerOf(g, n));
      assert Covers(f, p.0, n) && Covers(g, p.1, n);
      assert n in Shared(f, g, p);
      assert p in Elements(pairs);
    }
  }

  /** Shared counts conserve leaves: they total the common leaves, and per member they total
      the leaves of that member that are in the other snapshot. */
  lemma LineageConserves(w: World, f: Forest, v: World, g: Forest, before: seq<Member>, after: seq<Member>, m: Member)
    requires Partitions(w, f) && Partitions(v, g)
    ensures
      var os := LineageOf(f, g, before, after, w.nodes, v.nodes).overlaps;
      && SharedTotal(os) == |w.nodes * v.nodes|
      && (m in f.frontier ==> SharedBefore(os, m) == |LeafSet(f.clusters, m) * v.nodes|)
      && (m in g.frontier ==> SharedAfter(os, m) == |LeafSet(g.clusters, m) * w.nodes|)
  {
    var pairs := SortPairs(Overlapping(f, g));
    TotalsPick(f, g, pairs, m);
    OverlapsApart(w, f, v, g);
    SharedSum(f, g, pairs, Any());
    SharedSum(f, g, pairs, From(m));
    SharedSum(f, g, pairs, Into(m));
    GatheredTotal(w, f, v, g);
    if m in f.frontier { GatheredBefore(w, f, v, g, m); }
    if m in g.frontier { GatheredAfter(w, f, v, g, m); }
  }

  lemma GatheredTotal(w: World, f: Forest, v: World, g: Forest)
    requires Partitions(w, f) && Partitions(v, g)
    ensures Gather(f, g, SortPairs(Overlapping(f, g)), Any()) == w.nodes * v.nodes
  {
    var pairs := SortPairs(Overlapping(f, g));
    forall n ensures n in Gather(f, g, pairs, Any()) <==> n in w.nodes * v.nodes {
      GatherAll(w, f, v, g, Any(), n);
      if n in w.nodes && n in v.nodes {
        AllCovered(w, f, n);
        AllCovered(v, g, n);
      }
    }
  }

  lemma GatheredBefore(w: World, f: Forest, v: World, g: Forest, m: Member)
    requires Partitions(w, f) && Partitions(v, g) && m in f.frontier
    ensures Gather(f, g, SortPairs(Overlapping(f, g)), From(m)) == LeafSet(f.clusters, m) * v.nodes
  {
    var pairs := SortPairs(Overlapping(f, g));
    assert Placed(w, f, m);
    forall n ensures n in Gather(f, g, pairs, From(m)) <==> n in LeafSet(f.clusters, m) * v.nodes {
      GatherAll(w, f, v, g, From(m), n);
      if n in LeafSet(f.clusters, m) && n in v.nodes {
        assert Covers(f, m, n);
        OwnerUnique(w, f, m, n);
        AllCovered(v, g, n);
      } else if Covered(f, n) && OwnerOf(f, n) == m {
        assert Covers(f, m, n);
      }
    }
  }

  lemma GatheredAfter(w: World, f: Forest, v: World, g: Forest, m: Member)
    requires Partitions(w, f) && Partitions(v, g) && m in g.frontier
    ensures Gather(f, g, SortPairs(Overlapping(f, g)), Into(m)) == LeafSet(g.clusters, m) * w.nodes
  {
    var pairs := SortPairs(Overlapping(f, g));
    assert Placed(v, g, m);
    forall n ensures n in Gather(f, g, pairs, Into(m)) <==> n in LeafSet(g.clusters, m) * w.nodes {
      GatherAll(w, f, v, g, Into(m), n);
      if n in LeafSet(g.clusters, m) && n in w.nodes {
        assert Covers(g, m, n);
        OwnerUnique(v, g, m, n);
        AllCovered(w, f, n);
      } else if Covered(g, n) && OwnerOf(g, n) == m {
        assert Covers(g, m, n);
      }
    }
  }

  // ----- a hierarchy against the same snapshot advanced further -----

  lemma KeptTrans(f: Forest, g: Forest, h: Forest)
    requires AllKept(f, g) && AllKept(g, h)
    ensures AllKept(f, h)
  {
    forall m | Known(f.clusters, m) ensures Keeps(f, h, m) {
      assert Keeps(f, g, m) && Keeps(g, h, m);
    }
  }

  lemma KeptRefl(f: Forest)
    ensures AllKept(f, f)
  {
  }

  lemma StepKept(c: Setup, s: State)
    requires ValidWorld(c.world) && Good(c, s)
    ensures AllKept(s.forest, Step(c, s).0.forest)
  {
    hide NextForest, Matched, Outcome;
    StepShape(c, s);
    if Moved(c, s, Step(c, s).0) {
      StepContracts(c, s);
      OutcomeKept(c, s);
    } else {
      KeptRefl(s.forest);
    }
  }

  lemma OutcomeKept(c: Setup, s: State)
    requires Outcome(c.world, s.forest, NextForest(c, s), Matched(c, s), s.level + 1)
    ensures AllKept(s.forest, NextForest(c, s))
  {
    hide NextForest, Matched;
  }

  lemma {:induction false} RunKept(c: Setup, k: nat, n: nat)
    requires ValidWorld(c.world) && k <= n
    ensures AllKept(Run(c, k).forest, Run(c, n).forest)
    decreases n - k
  {
    hide Step, Good, AllKept;
    if k == n {
      KeptRefl(Run(c, k).forest);
    } else {
      RunKept(c, k, n - 1);
      RunGood(c, n - 1);
      StepKept(c, Run(c, n - 1));
      KeptTrans(Run(c, k).forest, Run(c, n - 1).forest, Run(c, n).forest);
    }
  }

  /** Every known member has a leaf. */
  lemma {:induction false} HasLeaf(w: World, clusters: map<string, Record>, m: Member)
    requires Sound(w, clusters) && Known(clusters, m)
    ensures LeafSet(clusters, m) != {}
    decreases Height(clusters, m)
  {
    match m
    case Leaf(id) => assert id in LeafSet(clusters, m);
    case Cluster(id) =>
      assert SoundRecord(w, clusters, id);
      HasLeaf(w, clusters, clusters[id].children.0);
  }

  /** In one forest, members with the same leaves are the same member. */
  lemma LeavesIdentify(w: World, clusters: map<string, Record>, m: Member, o: Member)
    requires Sound(w, clusters) && Known(clusters, m) && Known(clusters, o)
    requires LeafSet(clusters, m) == LeafSet(clusters, o)
    ensures m == o
  {
    if m.Leaf? && o.Leaf? {
      assert m.id in LeafSet(clusters, m);
    } else if m.Cluster? && o.Cluster? {
      assert SoundRecord(w, clusters, m.id) && SoundRecord(w, clusters, o.id);
      StringOrder();
      AscendingUnique(StringLess, Leaves(clusters, m), Leaves(clusters, o));
    } else {
      TwoLeaves(w, clusters, if m.Cluster? then m else o, if m.Cluster? then o else m);
    }
  }

  lemma TwoLeaves(w: World, clusters: map<string, Record>, m: Member, o: Member)
    requires Sound(w, clusters) && Known(clusters, m) && m.Cluster? && o.Leaf?
    ensures LeafSet(clusters, m) != LeafSet(clusters, o)
  {
    assert SoundRecord(w, clusters, m.id);
    var (a, b) := clusters[m.id].children;
    HasLeaf(w, clusters, a);
    HasLeaf(w, clusters, b);
    var x :| x in LeafSet(clusters, a);
    var y :| y in LeafSet(clusters, b);
    assert x != y && x in LeafSet(clusters, m) && y in LeafSet(clusters, m);
  }

  /** A member of the earlier frontier lies inside exactly one later frontier member. */
  lemma InsideLater(w: World, f: Forest, g: Forest, m: Member) returns (o: Member)
    requires Partitions(w, f) && Invariant(w, g) && AllKept(f, g) && m in f.frontier
    ensures o in g.frontier && LeafSet(f.clusters, m) <= LeafSet(g.clusters, o)
    ensures forall b | b in g.frontier && Shared(f, g, (m, b)) != {} :: b == o
    ensures (m, o) in Overlapping(f, g)
  {
    assert Placed(w, f, m);
    assert Keeps(f, g, m);
    if m.Leaf? {
      assert m.id in LeafSet(f.clusters, m);
      AllCovered(w, g, m.id);
      o := OwnerOf(g, m.id);
      assert Covers(g, o, m.id);
    } else {
      assert Under(g, m.id);
      o :| Inside(g, m.id, o);
    }
    assert Leaves(f.clusters, m)[0] in LeafSet(f.clusters, m);
    assert Leaves(f.clusters, m)[0] in Shared(f, g, (m, o));
    forall b | b in g.frontier && Shared(f, g, (m, b)) != {} ensures b == o {
      assert b == o || Apart(g, b, o);
    }
  }

  lemma OutDegreeOne(w: World, f: Forest, g: Forest, m: Member)
    requires Partitions(w, f) && Invariant(w, g) && AllKept(f, g) && m in f.frontier
    ensures OutDegree(Overlapping(f, g), m) == 1
  {
    var o := InsideLater(w, f, g, m);
    assert (set p | p in Overlapping(f, g) && p.0 == m) == {(m, o)};
  }

  /** A later frontier member overlaps one earlier member exactly when it is that member. */
  lemma InDegreeLater(w: World, f: Forest, g: Forest, o: Member)
    requires Invariant(w, f) && Invariant(w, g) && AllKept(f, g) && o in g.frontier
    ensures InDegree(Overlapping(f, g), o) > 0
    ensures InDegree(Overlapping(f, g), o) == 1 <==> o in f.frontier
  {
    assert Placed(w, g, o);
    var n := Leaves(g.clusters, o)[0];
    assert n in LeafSet(g.clusters, o);
    AllCovered(w, f, n);
    var m := OwnerOf(f, n);
    assert Covers(f, m, n);
    var ins := set p | p in Overlapping(f, g) && p.1 == o;
    assert (m, o) in ins by { assert n in Shared(f, g, (m, o)); }
    if |ins| == 1 {
      SoleOverlap(w, f, g, o, m);
    }
    if o in f.frontier {
      assert Placed(w, f, o);
      assert Keeps(f, g, o);
      forall p | p in ins ensures p == (o, o) {
        assert p.0 == o || Apart(f, p.0, o);
      }
      assert ins == {(o, o)} by { assert n in Shared(f, g, (o, o)); }
    }
  }

  lemma SoleOverlap(w: World, f: Forest, g: Forest, o: Member, m: Member)
    requires Invariant(w, f) && Invariant(w, g) && AllKept(f, g) && o in g.frontier && m in f.frontier
    requires (m, o) in Overlapping(f, g)
    requires InDegree(Overlapping(f, g), o) == 1
    ensures o == m
  {
    var ins := set p | p in Overlapping(f, g) && p.1 == o;
    OneElement(ins, (m, o));
    assert Placed(w, f, m) && Placed(w, g, o);
    assert Keeps(f, g, m);
    var later := InsideLater(w, f, g, m);
    forall n | n in LeafSet(g.clusters, o) ensures n in LeafSet(g.clusters, m) {
      AllCovered(w, f, n);
      var a := OwnerOf(f, n);
      assert Covers(f, a, n);
      assert n in Shared(f, g, (a, o));
      assert (a, o) in ins;
    }
    LeavesIdentify(w, g.clusters, m, o);
  }

  lemma OneElement<T>(s: set<T>, x: T)
    requires |s| == 1 && x in s
    ensures s == {x}
  {
    assert |s - {x}| == 0;
  }

  lemma {:induction false} WhereNone(listing: seq<Member>, keep: Member -> bool)
    requires forall m | m in listing :: !keep(m)
    ensures Where(listing, keep) == []
  {
    if listing != [] {
      WhereNone(listing[..|listing| - 1], keep);
    }
  }

  lemma {:induction false} WhereExactly(listing: seq<Member>, keep: Member -> bool, m: Member)
    ensures m in Where(listing, keep) <==> m in listing && keep(m)
  {
    if listing != [] {
      WhereExactly(listing[..|listing| - 1], keep, m);
      assert listing == listing[..|listing| - 1] + [listing[|listing| - 1]];
    }
  }

  /** Between two states of one run nothing is split, retired, created, removed or added, and
      the merges are exactly the later frontier members the earlier frontier did not have. */
  lemma LaterLineage(c: Setup, k: nat, n: nat, before: seq<Member>, after: seq<Member>)
    requires ValidWorld(c.world) && k <= n
    requires Elements(before) == Run(c, k).forest.frontier && Elements(after) == Run(c, n).forest.frontier
    ensures
      var l := LineageOf(Run(c, k).forest, Run(c, n).forest, before, after, c.world.nodes, c.world.nodes);
      && l.splits == [] && l.retired == [] && l.created == [] && l.removed == [] && l.added == []
      && forall m :: m in l.merges <==> m in Run(c, n).forest.frontier && m !in Run(c, k).forest.frontier
  {
    hide Step, Run, SortStrings;
    RunGood(c, k);
    RunGood(c, n);
    RunKept(c, k, n);
    LaterLists(c.world, Run(c, k).forest, Run(c, n).forest, before, after);
  }

  lemma LaterLists(w: World, f: Forest, g: Forest, before: seq<Member>, after: seq<Member>)
    requires Invariant(w, f) && Invariant(w, g) && AllKept(f, g)
    requires Elements(before) == f.frontier && Elements(after) == g.frontier
    ensures
      var l := LineageOf(f, g, before, after, w.nodes, w.nodes);
      && l.splits == [] && l.retired == [] && l.created == [] && l.removed == [] && l.added == []
      && forall m :: m in l.merges <==> m in g.frontier && m !in f.frontier
  {
    hide Invariant, AllKept, OutDegree, InDegree, Overlapping;
    var pairs := Overlapping(f, g);
    forall m | m in before ensures OutDegree(pairs, m) == 1 {
      assert m in Elements(before);
      InvariantPartitions(w, f);
      OutDegreeOne(w, f, g, m);
    }
    forall m | m in after ensures InDegree(pairs, m) > 0 && (InDegree(pairs, m) == 1 <==> m in f.frontier) {
      assert m in Elements(after);
      InDegreeLater(w, f, g, m);
    }
    WhereNone(before, Split(pairs));
    WhereNone(before, Retired(pairs));
    WhereNone(after, Created(pairs));
    forall m ensures m in Where(after, Merged(pairs)) <==> m in g.frontier && m !in f.frontier {
      WhereExactly(after, Merged(pairs), m);
      assert m in after <==> m in Elements(after);
    }
    assert w.nodes - w.nodes == {};
    assert SortStrings({}) == [];
  }

  lemma InvariantPartitions(w: World, f: Forest)
    requires Invariant(w, f)
    ensures Partitions(w, f)
  {
  }

  // ----- the report over the fields -----

  /** An old and a new member have a leaf in common. */
  ghost predicate Meet(f: Forest, a: Member, g: Forest, b: Member) {
    exists n :: n in LeafSet(f.clusters, a) && n in LeafSet(g.clusters, b)
  }

  /** Leaves of an old member went to two new ones. */
  ghost predicate SplitUp(f: Forest, a: Member, g: Forest) {
    exists b, c | b in g.frontier && c in g.frontier && b != c :: Meet(f, a, g, b) && Meet(f, a, g, c)
  }

  /** Leaves of two old members came to a new one. */
  ghost predicate PutTogether(f: Forest, g: Forest, b: Member) {
    exists a, c | a in f.frontier && c in f.frontier && a != c :: Meet(f, a, g, b) && Meet(f, c, g, b)
  }

  lemma OverlappingExactly(f: Forest, g: Forest, p: Pair)
    ensures p in Overlapping(f, g) <==> p.0 in f.frontier && p.1 in g.frontier && Meet(f, p.0, g, p.1)
  {
    hide LeafSet;
    assert p == (p.0, p.1);
    if Meet(f, p.0, g, p.1) {
      var n :| n in LeafSet(f.clusters, p.0) && n in LeafSet(g.clusters, p.1);
      assert n in Shared(f, g, p);
    }
  }

  lemma OutDegreeExactly(f: Forest, g: Forest, m: Member)
    requires m in f.frontier
    ensures OutDegree(Overlapping(f, g), m) > 1 <==> SplitUp(f, m, g)
    ensures OutDegree(Overlapping(f, g), m) == 0 <==> forall b | b in g.frontier :: !Meet(f, m, g, b)
  {
    hide Meet, Overlapping;
    var pairs := Overlapping(f, g);
    var out := set p | p in pairs && p.0 == m;
    forall b | b in g.frontier ensures (m, b) in out <==> Meet(f, m, g, b) { OverlappingExactly(f, g, (m, b)); }
    forall p | p in out ensures p.1 in g.frontier && p == (m, p.1) { OverlappingExactly(f, g, p); }
    Degrees(out);
    if out != {} { var p :| p in out; assert Meet(f, m, g, p.1); }
    if p, q :| p in out && q in out && p != q { assert p.1 != q.1; }
    if b, c :| b in g.frontier && c in g.frontier && b != c && Meet(f, m, g, b) && Meet(f, m, g, c) {
      assert (m, b) in out && (m, c) in out;
    }
  }

  lemma InDegreeExactly(f: Forest, g: Forest, m: Member)
    requires m in g.frontier
    ensures InDegree(Overlapping(f, g), m) > 1 <==> PutTogether(f, g, m)
    ensures InDegree(Overlapping(f, g), m) == 0 <==> forall a | a in f.frontier :: !Meet(f, a, g, m)
  {
    hide Meet, Overlapping;
    var pairs := Overlapping(f, g);
    var ins := set p | p in pairs && p.1 == m;
    forall a | a in f.frontier ensures (a, m) in ins <==> Meet(f, a, g, m) { OverlappingExactly(f, g, (a, m)); }
    forall p | p in ins ensures p.0 in f.frontier && p == (p.0, m) { OverlappingExactly(f, g, p); }
    Degrees(ins);
    if ins != {} { var p :| p in ins; assert Meet(f, p.0, g, m); }
    if p, q :| p in ins && q in ins && p != q { assert p.0 != q.0; }
    if a, c :| a in f.frontier && c in f.frontier && a != c && Meet(f, a, g, m) && Meet(f, c, g, m) {
      assert (a, m) in ins && (c, m) in ins;
    }
  }

  lemma Degrees<T>(s: set<T>)
    ensures |s| > 1 <==> exists x, y :: x in s && y in s && x != y
    ensures |s| == 0 <==> s == {}
  {
    if s != {} {
      var x :| x in s;
      assert |s - {x}| == |s| - 1;
      if s - {x} != {} { var y :| y in s - {x}; }
      if y, z :| y in s && z in s && y != z { assert (if y == x then z else y) in s - {x}; }
    }
  }

  lemma {:induction false} WhereAscends(listing: seq<Member>, keep: Member -> bool)
    requires Ascending(MemberLess, listing)
    ensures Ascending(MemberLess, Where(listing, keep))
  {
    hide MemberLess;
    if listing != [] {
      var rest, m := listing[..|listing| - 1], listing[|listing| - 1];
      WhereAscends(rest, keep);
      var w := Where(rest, keep);
      forall i | 0 <= i < |w| ensures MemberLess(w[i], m) {
        WhereExactly(rest, keep, w[i]);
        var j :| 0 <= j < |rest| && rest[j] == w[i];
        assert MemberLess(listing[j], m);
      }
    }
  }

  /** The overlaps are exactly the meetings of an old and a new member, each once with the number of
      leaves they share, by kind and id of the old one and then of the new one. */
  lemma OverlapsExactly(f: Forest, g: Forest, before: seq<Member>, after: seq<Member>, earlier: set<string>, later: set<string>)
    ensures
      var os := LineageOf(f, g, before, after, earlier, later).overlaps;
      && (forall o | o in os :: o.before in f.frontier && o.after in g.frontier && Meet(f, o.before, g, o.after)
            && o.shared == |LeafSet(f.clusters, o.before) * LeafSet(g.clusters, o.after)|)
      && (forall a, b | a in f.frontier && b in g.frontier && Meet(f, a, g, b) ::
            exists o :: o in os && o.before == a && o.after == b)
      && (forall i, j | 0 <= i < j < |os| :: PairBefore((os[i].before, os[i].after), (os[j].before, os[j].after)))
  {
    var pairs := SortPairs(Overlapping(f, g));
    var os := OverlapList(f, g, pairs);
    hide LeafSet, Overlapping, Meet, PairBefore;
    forall p ensures p in pairs <==> p.0 in f.frontier && p.1 in g.frontier && Meet(f, p.0, g, p.1) {
      OverlappingExactly(f, g, p);
      assert p in pairs <==> p in Elements(pairs);
    }
    forall o | o in os
      ensures o.before in f.frontier && o.after in g.frontier && Meet(f, o.before, g, o.after)
           && o.shared == |LeafSet(f.clusters, o.before) * LeafSet(g.clusters, o.after)|
    {
      var i :| 0 <= i < |os| && os[i] == o;
      assert pairs[i] in pairs && pairs[i] == (o.before, o.after);
    }
    forall a, b | a in f.frontier && b in g.frontier && Meet(f, a, g, b)
      ensures exists o :: o in os && o.before == a && o.after == b
    {
      assert (a, b) in pairs;
      var i :| 0 <= i < |pairs| && pairs[i] == (a, b);
      assert os[i] in os;
    }
    forall i, j | 0 <= i < j < |os| ensures PairBefore((os[i].before, os[i].after), (os[j].before, os[j].after)) {
      assert PairOrder(MemberLess)(pairs[i], pairs[j]);
      PairBeforeExactly(pairs[i], pairs[j]);
      assert pairs[i] == (os[i].before, os[i].after) && pairs[j] == (os[j].before, os[j].after);
    }
  }

  /** The other lists: split are the old members whose leaves went to two new ones, retired those none of
      whose leaves is left; merged are the new members with leaves of two old ones, created those none of
      whose leaves was there; and the leaves only one side has. Each in listing order. */
  lemma ChangesExactly(w: World, f: Forest, v: World, g: Forest, before: seq<Member>, after: seq<Member>)
    requires Partitions(w, f) && Partitions(v, g)
    requires Elements(before) == f.frontier && Ascending(MemberLess, before)
    requires Elements(after) == g.frontier && Ascending(MemberLess, after)
    ensures
      var l := LineageOf(f, g, before, after, w.nodes, v.nodes);
      && (forall m :: m in l.splits <==> m in f.frontier && SplitUp(f, m, g))
      && (forall m :: m in l.retired <==> m in f.frontier && LeafSet(f.clusters, m) !! v.nodes)
      && (forall m :: m in l.merges <==> m in g.frontier && PutTogether(f, g, m))
      && (forall m :: m in l.created <==> m in g.frontier && LeafSet(g.clusters, m) !! w.nodes)
      && (forall n :: n in l.removed <==> n in w.nodes && n !in v.nodes)
      && (forall n :: n in l.added <==> n in v.nodes && n !in w.nodes)
      && Listed(l.splits) && Listed(l.retired) && Listed(l.merges) && Listed(l.created)
      && InByteOrder(l.removed) && InByteOrder(l.added)
  {
    hide LeafSet, SplitUp, PutTogether, Meet, MemberLess, Listed, Partitions, InByteOrder, StringLess, OutDegree, InDegree;
    var l, pairs := LineageOf(f, g, before, after, w.nodes, v.nodes), Overlapping(f, g);
    forall m ensures m in l.splits <==> m in f.frontier && SplitUp(f, m, g) {
      WhereExactly(before, Split(pairs), m);
      assert m in before <==> m in Elements(before);
      if m in f.frontier { OutDegreeExactly(f, g, m); }
    }
    forall m ensures m in l.retired <==> m in f.frontier && LeafSet(f.clusters, m) !! v.nodes {
      WhereExactly(before, Retired(pairs), m);
      assert m in before <==> m in Elements(before);
      if m in f.frontier {
        OutDegreeExactly(f, g, m);
        MeetsNone(v, g, f, m);
      }
    }
    forall m ensures m in l.merges <==> m in g.frontier && PutTogether(f, g, m) {
      WhereExactly(after, Merged(pairs), m);
      assert m in after <==> m in Elements(after);
      if m in g.frontier { InDegreeExactly(f, g, m); }
    }
    forall m ensures m in l.created <==> m in g.frontier && LeafSet(g.clusters, m) !! w.nodes {
      WhereExactly(after, Created(pairs), m);
      assert m in after <==> m in Elements(after);
      if m in g.frontier {
        InDegreeExactly(f, g, m);
        MeetsNone(w, f, g, m);
        MeetSwaps(f, g, m);
      }
    }
    ListsListed(before, Split(pairs), Retired(pairs));
    ListsListed(after, Merged(pairs), Created(pairs));
    SortedLeaves(w.nodes - v.nodes);
    SortedLeaves(v.nodes - w.nodes);
  }

  ghost predicate InByteOrder(ids: seq<string>) {
    forall i, j | 0 <= i < j < |ids| :: Precedes(ids[i], ids[j])
  }

  lemma SortedLeaves(s: set<string>)
    ensures InByteOrder(SortStrings(s)) && forall n :: n in SortStrings(s) <==> n in s
  {
    hide StringLess, Precedes;
    var q := SortStrings(s);
    forall i, j | 0 <= i < j < |q| ensures Precedes(q[i], q[j]) { StringLessExactly(q[i], q[j]); }
    assert forall n :: n in q <==> n in Elements(q);
  }

  lemma ListsListed(listing: seq<Member>, one: Member -> bool, other: Member -> bool)
    requires Ascending(MemberLess, listing)
    ensures Listed(Where(listing, one)) && Listed(Where(listing, other))
  {
    hide MemberLess, Listed;
    WhereAscends(listing, one);
    WhereAscends(listing, other);
    AscendingListed(Where(listing, one));
    AscendingListed(Where(listing, other));
  }

  lemma MeetSwaps(f: Forest, g: Forest, m: Member)
    ensures forall a :: Meet(f, a, g, m) <==> Meet(g, m, f, a)
  {
    hide LeafSet;
  }

  /** A member meets no member of a frontier exactly when it has no leaf of that side. */
  lemma MeetsNone(v: World, g: Forest, f: Forest, m: Member)
    requires Partitions(v, g)
    ensures (forall b | b in g.frontier :: !Meet(f, m, g, b)) <==> LeafSet(f.clusters, m) !! v.nodes
  {
    hide LeafSet;
    if n :| n in LeafSet(f.clusters, m) && n in v.nodes {
      AllCovered(v, g, n);
      var b := OwnerOf(g, n);
      assert Covers(g, b, n);
      assert Meet(f, m, g, b);
    }
    forall b | b in g.frontier && Meet(f, m, g, b) ensures LeafSet(f.clusters, m) * v.nodes != {} {
      var n :| n in LeafSet(f.clusters, m) && n in LeafSet(g.clusters, b);
      assert Placed(v, g, b);
      assert n in LeafSet(f.clusters, m) * v.nodes;
    }
  }
}
