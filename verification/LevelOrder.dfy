/** The order behind a level, written out over kinds and ids: how a frontier is listed, and which
    of the linked pairs are merged. The functions that the loops share are not mentioned in what
    is proved here. */
module LevelOrder {
  import opened Orders
  import opened Forests
  import opened Levels
  import opened Runs

  /** A leaf comes before any cluster; within one kind the ids are in byte order. */
  ghost predicate Before(a: Member, b: Member) {
    || (a.Leaf? && b.Cluster?)
    || (a.Leaf? && b.Leaf? && Precedes(a.id, b.id))
    || (a.Cluster? && b.Cluster? && Precedes(a.id, b.id))
  }

  /** Kind and id of the first member decide, then kind and id of the second. */
  ghost predicate PairBefore(p: Pair, q: Pair) {
    Before(p.0, q.0) || (p.0 == q.0 && Before(p.1, q.1))
  }

  lemma BeforeExactly(a: Member, b: Member)
    ensures MemberLess(a, b) <==> Before(a, b)
  {
    StringLessExactly(a.id, b.id);
  }

  lemma PairBeforeExactly(p: Pair, q: Pair)
    ensures PairOrder(MemberLess)(p, q) <==> PairBefore(p, q)
  {
    BeforeExactly(p.0, q.0);
    BeforeExactly(p.1, q.1);
    MemberOrder();
    assert MemberLess(p.0, q.0) || p.0 == q.0 || MemberLess(q.0, p.0);
    assert !MemberLess(q.0, q.0);
  }

  /** No cluster precedes a leaf, and the ids of one kind are in byte order. */
  ghost predicate Listed(frontier: seq<Member>) {
    forall i, j | 0 <= i < j < |frontier| :: Before(frontier[i], frontier[j])
  }

  lemma AscendingListed(frontier: seq<Member>)
    requires Ascending(MemberLess, frontier)
    ensures Listed(frontier)
  {
    forall i, j | 0 <= i < j < |frontier| ensures Before(frontier[i], frontier[j]) {
      BeforeExactly(frontier[i], frontier[j]);
    }
  }

  // ----- the greedy choice -----

  predicate Touch(p: Pair, q: Pair) {
    p.0 == q.0 || p.0 == q.1 || p.1 == q.0 || p.1 == q.1
  }

  /** A chosen pair that is this one, or comes earlier and shares a member with it. */
  ghost predicate Settled(chosen: set<Pair>, p: Pair) {
    exists q | q in chosen :: Touch(q, p) && (q == p || PairBefore(q, p))
  }

  lemma {:induction false} GreedySettles(pairs: set<Pair>, used: set<Member>, p: Pair)
    requires p in pairs && p.0 !in used && p.1 !in used
    ensures Settled(Elements(Greedy(pairs, used)), p)
    decreases |pairs|
  {
    hide Before;
    MemberOrder();
    PairsOrdered(MemberLess);
    var first := Least(PairOrder(MemberLess), pairs);
    PairBeforeExactly(first, p);
    if first.0 in used || first.1 in used {
      GreedySettles(pairs - {first}, used, p);
    } else {
      var rest := Greedy(pairs - {first}, used + {first.0, first.1});
      assert Elements([first] + rest) == {first} + Elements(rest);
      if !Touch(first, p) {
        GreedySettles(pairs - {first}, used + {first.0, first.1}, p);
      }
    }
  }

  /** A choice among candidates that is a matching and settles every candidate. */
  ghost predicate FirstChoice(candidates: set<Pair>, chosen: set<Pair>) {
    && chosen <= candidates
    && (forall p, q | p in chosen && q in chosen && p != q :: !Touch(p, q))
    && (forall p | p in candidates :: Settled(chosen, p))
  }

  lemma ChoiceParts(candidates: set<Pair>, chosen: set<Pair>, p: Pair)
    requires FirstChoice(candidates, chosen)
    ensures p in chosen ==> p in candidates
    ensures p in candidates ==> Settled(chosen, p)
  {
    hide Settled, Touch;
  }

  lemma ChoiceApart(candidates: set<Pair>, chosen: set<Pair>, p: Pair, q: Pair)
    requires FirstChoice(candidates, chosen) && p in chosen && q in chosen && p != q
    ensures !Touch(p, q)
  {
    hide Settled, Touch;
  }

  /** A pair only one choice takes is kept out of the other by an earlier pair, which the first
      choice does not take. */
  lemma EarlierSettled(candidates: set<Pair>, same: set<Pair>, other: set<Pair>, p: Pair) returns (q: Pair)
    requires FirstChoice(candidates, same) && FirstChoice(candidates, other) && p in same - other
    ensures q in other - same && PairOrder(MemberLess)(q, p)
  {
    hide FirstChoice, PairBefore, Touch;
    ChoiceParts(candidates, same, p);
    ChoiceParts(candidates, other, p);
    q :| q in other && Touch(q, p) && (q == p || PairBefore(q, p));
    PairBeforeExactly(q, p);
    if q in same { ChoiceApart(candidates, same, q, p); }
  }

  lemma LeastFirst(odd: set<Pair>, p: Pair, q: Pair)
    requires StrictTotal(PairOrder(MemberLess)) && IsLeast(PairOrder(MemberLess), odd, p) && q in odd
    ensures !PairOrder(MemberLess)(q, p)
  {
    var less := PairOrder(MemberLess);
    assert less(p, q) && less(q, p) ==> less(p, p);
  }

  /** There is only one such choice. */
  lemma FirstChoiceUnique(candidates: set<Pair>, s: set<Pair>, t: set<Pair>)
    requires FirstChoice(candidates, s) && FirstChoice(candidates, t)
    ensures s == t
  {
    hide FirstChoice;
    var odd := (s - t) + (t - s);
    if odd != {} {
      MemberOrder();
      PairsOrdered(MemberLess);
      var p := Least(PairOrder(MemberLess), odd);
      var q := EarlierSettled(candidates, if p in s then s else t, if p in s then t else s, p);
      LeastFirst(odd, p, q);
    }
  }

  // ----- what a level does, in every run -----

  /** Some source link has one end among the leaves of each. */
  ghost predicate Touching(w: World, f: Forest, a: Member, b: Member) {
    exists l | l in w.links ::
      || (l.from in LeafSet(f.clusters, a) && l.to in LeafSet(f.clusters, b))
      || (l.from in LeafSet(f.clusters, b) && l.to in LeafSet(f.clusters, a))
  }

  /** The linked pairs of frontier members, the earlier member first. */
  ghost function Linked(w: World, f: Forest): set<Pair> {
    set a, b | a in f.frontier && b in f.frontier && Before(a, b) && Touching(w, f, a, b) :: (a, b)
  }

  lemma LinkedExactly(w: World, f: Forest, p: Pair)
    ensures p in Linked(w, f) <==>
            p.0 in f.frontier && p.1 in f.frontier && Before(p.0, p.1) && Touching(w, f, p.0, p.1)
  {
    hide Before, Touching;
    assert p == (p.0, p.1);
  }

  lemma OrderedExactly(a: Member, b: Member, p: Pair)
    requires a != b
    ensures p == Ordered(a, b) <==> Before(p.0, p.1) && ((p.0 == a && p.1 == b) || (p.0 == b && p.1 == a))
  {
    hide Before;
    MemberOrder();
    BeforeExactly(a, b);
    BeforeExactly(b, a);
    assert MemberLess(a, b) || MemberLess(b, a);
    assert MemberLess(a, b) && MemberLess(b, a) ==> MemberLess(a, a);
  }

  lemma JoinTouches(w: World, f: Forest, l: Link, p: Pair)
    requires Partitions(w, f) && l in w.links && Joins(f, l, p)
    ensures p in Linked(w, f)
  {
    hide Before, Ordered;
    var a, b := OwnerOf(f, l.from), OwnerOf(f, l.to);
    assert Covers(f, a, l.from) && Covers(f, b, l.to);
    OrderedExactly(a, b, p);
    LinkedExactly(w, f, p);
  }

  lemma TouchJoins(w: World, f: Forest, p: Pair)
    requires Partitions(w, f) && p in Linked(w, f)
    ensures p in Pairs(w, f)
  {
    LinkedExactly(w, f, p);
    BeforeApart(p.0, p.1);
    hide Before, Ordered, Pairs, Partitions;
    var l :| l in w.links &&
      ((l.from in LeafSet(f.clusters, p.0) && l.to in LeafSet(f.clusters, p.1))
       || (l.from in LeafSet(f.clusters, p.1) && l.to in LeafSet(f.clusters, p.0)));
    var (a, b) := if l.from in LeafSet(f.clusters, p.0) && l.to in LeafSet(f.clusters, p.1) then p else (p.1, p.0);
    OwnerUnique(w, f, a, l.from);
    OwnerUnique(w, f, b, l.to);
    OrderedExactly(a, b, p);
    assert Joins(f, l, p);
    PairsExactly(w, f, p);
  }

  lemma BeforeApart(a: Member, b: Member)
    requires Before(a, b)
    ensures a != b
  {
    BeforeExactly(a, b);
    MemberOrder();
    assert !MemberLess(a, a);
  }

  lemma LinkedAre(w: World, f: Forest)
    requires Partitions(w, f)
    ensures Linked(w, f) == Pairs(w, f)
  {
    hide Linked, Pairs, Partitions, Joins;
    forall p ensures p in Linked(w, f) <==> p in Pairs(w, f) {
      if p in Linked(w, f) { TouchJoins(w, f, p); }
      PairsExactly(w, f, p);
      if l :| l in w.links && Joins(f, l, p) { JoinTouches(w, f, l, p); }
    }
  }

  /** The pairs merged from one state to a later one: the children of the new clusters. */
  ghost function Merged(s: State, t: State): set<Pair> {
    set id | id in t.forest.clusters && id !in s.forest.clusters :: t.forest.clusters[id].children
  }

  /** Every record a matching makes is stored, and nothing else is new. */
  ghost predicate Stores(w: World, f: Forest, g: Forest, q: seq<Pair>, level: nat) {
    && (forall p | p in q ::
          var r := MakeRecord(w, f.clusters, p, level);
          r.id !in f.clusters && r.id in g.clusters && g.clusters[r.id] == r)
    && (forall id | id in g.clusters && id !in f.clusters ::
          exists p | p in q :: id == MakeRecord(w, f.clusters, p, level).id && g.clusters[id] == MakeRecord(w, f.clusters, p, level))
  }

  lemma {:induction false} ContractStores(w: World, f: Forest, q: seq<Pair>, level: nat)
    requires Injective(w.digest) && Invariant(w, f) && Matching(w, f, q, level)
    ensures Stores(w, f, ContractAll(w, f, q, level), q, level)
  {
    hide MakeRecord, Invariant, Injective, Matching, Outcome;
    if q != [] {
      var r, p := q[..|q| - 1], q[|q| - 1];
      assert q == r + [p];
      MatchingSplits(w, f, r, p, level);
      ContractStores(w, f, r, level);
      ContractAllKeeps(w, f, r, level);
      StoreOneMore(w, f, ContractAll(w, f, r, level), r, p, level);
    }
  }

  lemma StoreOneMore(w: World, f: Forest, g: Forest, r: seq<Pair>, p: Pair, level: nat)
    requires Injective(w.digest) && Invariant(w, f) && Invariant(w, g) && Outcome(w, f, g, r, level)
    requires Matching(w, f, r + [p], level) && Stores(w, f, g, r, level)
    ensures Stores(w, f, Contract(w, g, p, level), r + [p], level)
  {
    MatchingSplits(w, f, r, p, level);
    Untouched(w, f, g, r, p, level);
    LaterContractible(w, f, g, p, level);
    FreshId(w, g, p, level);
    FreshMade(w, f, g, p, level);
    hide MakeRecord, Invariant, Injective, Matching, Contractible, PairSet, Made, Stores, Outcome;
    StoreStep(w, f, g, Contract(w, g, p, level), r, p, level);
  }

  lemma StoreStep(w: World, f: Forest, g: Forest, h: Forest, r: seq<Pair>, p: Pair, level: nat)
    requires Stores(w, f, g, r, level)
    requires
      var made := MakeRecord(w, f.clusters, p, level);
      made.id !in f.clusters && made.id !in g.clusters && h.clusters == g.clusters[made.id := made]
    ensures Stores(w, f, h, r + [p], level)
  {
    hide MakeRecord;
    assert forall o :: o in r + [p] <==> o in r || o == p;
    forall id | id in h.clusters && id !in f.clusters
      ensures exists o | o in r + [p] ::
                id == MakeRecord(w, f.clusters, o, level).id && h.clusters[id] == MakeRecord(w, f.clusters, o, level)
    {
      if id == MakeRecord(w, f.clusters, p, level).id { assert p in r + [p]; }
      else {
        var o :| o in r && id == MakeRecord(w, f.clusters, o, level).id
                 && g.clusters[id] == MakeRecord(w, f.clusters, o, level);
        assert o in r + [p];
      }
    }
  }

  /** A new cluster: named by the digest of perspective, context and its leaves in byte order, one
      level up, with the links inside it in link order. */
  ghost predicate Named(w: World, r: Record, level: nat) {
    && r.id == w.digest(Membership(w.perspective, w.context, r.leaves))
    && (forall i, j | 0 <= i < j < |r.leaves| :: Precedes(r.leaves[i], r.leaves[j]))
    && r.level == level
  }

  lemma MadeNamed(w: World, clusters: map<string, Record>, p: Pair, level: nat)
    ensures Named(w, MakeRecord(w, clusters, p, level), level)
    ensures MakeRecord(w, clusters, p, level).children == p
  {
    hide StringLess;
    var leaves := MakeRecord(w, clusters, p, level).leaves;
    forall i, j | 0 <= i < j < |leaves| ensures Precedes(leaves[i], leaves[j]) {
      assert StringLess(leaves[i], leaves[j]);
      StringLessExactly(leaves[i], leaves[j]);
    }
  }

  /** What a matching stores are the clusters of its pairs. */
  lemma StoredChildren(w: World, s: State, t: State, q: seq<Pair>, level: nat)
    requires Stores(w, s.forest, t.forest, q, level)
    ensures Merged(s, t) == Elements(q)
    ensures forall id | id in t.forest.clusters && id !in s.forest.clusters ::
              t.forest.clusters[id].id == id && Named(w, t.forest.clusters[id], level)
  {
    hide MakeRecord, Named;
    var f, g := s.forest, t.forest;
    forall p | p in Elements(q) ensures p in Merged(s, t) {
      MadeNamed(w, f.clusters, p, level);
      assert g.clusters[MakeRecord(w, f.clusters, p, level).id].children == p;
    }
    forall id | id in g.clusters && id !in f.clusters
      ensures g.clusters[id].id == id && Named(w, g.clusters[id], level) && g.clusters[id].children in Elements(q)
    {
      var p :| p in q && id == MakeRecord(w, f.clusters, p, level).id && g.clusters[id] == MakeRecord(w, f.clusters, p, level);
      MadeNamed(w, f.clusters, p, level);
    }
  }

  lemma GreedyFirstChoice(pairs: set<Pair>)
    ensures FirstChoice(pairs, Elements(Greedy(pairs, {})))
  {
    var q := Greedy(pairs, {});
    GreedyMaximal(pairs, {});
    forall x, y | x in Elements(q) && y in Elements(q) && x != y ensures !Touch(x, y) {
      var i :| 0 <= i < |q| && q[i] == x;
      var j :| 0 <= j < |q| && q[j] == y;
      assert i < j ==> {q[i].0, q[i].1} !! {q[j].0, q[j].1};
      assert j < i ==> {q[j].0, q[j].1} !! {q[i].0, q[i].1};
      assert x.0 in {x.0, x.1} && x.1 in {x.0, x.1} && y.0 in {y.0, y.1} && y.1 in {y.0, y.1};
    }
    forall p | p in pairs ensures Settled(Elements(q), p) {
      GreedySettles(pairs, {}, p);
    }
  }

  /** In every run, a call that makes a level merges exactly the first choice among the linked pairs
      of the frontier: no two merged pairs share a member, and a linked pair that is left out shares
      a member with a merged pair that comes earlier by kind, id, kind, id. The new clusters are the
      merged pairs, each under its digest and one level up. */
  lemma LevelMergesFirst(c: Setup, n: nat)
    requires ValidWorld(c.world) && !Run(c, n).boundary && Step(c, Run(c, n)).1 && !Run(c, n + 1).boundary
    ensures
      var (s, t) := (Run(c, n), Run(c, n + 1));
      && FirstChoice(Linked(c.world, s.forest), Merged(s, t))
      && (forall id | id in t.forest.clusters && id !in s.forest.clusters ::
            t.forest.clusters[id].id == id && Named(c.world, t.forest.clusters[id], s.level + 1))
  {
    hide Step, Good, ValidWorld, Moved, Linked, Merged, FirstChoice, Named, Initial;
    RunGood(c, n);
    var s, t := Run(c, n), Run(c, n + 1);
    GoodParts(c, s);
    BoundaryExact(c, s);
    MovedMergesFirst(c, s, t);
  }

  lemma GoodParts(c: Setup, s: State)
    requires Good(c, s)
    ensures Invariant(c.world, s.forest) && Partitions(c.world, s.forest) && Low(s.forest, s.level)
  {
  }

  lemma MovedMergesFirst(c: Setup, s: State, t: State)
    requires ValidWorld(c.world) && Invariant(c.world, s.forest) && Partitions(c.world, s.forest)
    requires Low(s.forest, s.level) && Moved(c, s, t)
    ensures FirstChoice(Linked(c.world, s.forest), Merged(s, t))
    ensures forall id | id in t.forest.clusters && id !in s.forest.clusters ::
              t.forest.clusters[id].id == id && Named(c.world, t.forest.clusters[id], s.level + 1)
  {
    hide *;
    WorldParts(c.world);
    MatchedIsMatching(c, s);
    ContractStores(c.world, s.forest, Matched(c, s), s.level + 1);
    MovedForest(c, s, t);
    StoredChildren(c.world, s, t, Matched(c, s), s.level + 1);
    LinkedAre(c.world, s.forest);
    GreedyFirstChoice(Pairs(c.world, s.forest));
    MatchedIs(c, s);
  }

  lemma MovedForest(c: Setup, s: State, t: State)
    requires Moved(c, s, t)
    ensures t.forest == ContractAll(c.world, s.forest, Matched(c, s), s.level + 1)
  {
    hide ContractAll, Matched;
  }
}
