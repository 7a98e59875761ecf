/** When `advance` finishes, and what it can cost. */
module Progress {
  // The boundary is reached after at most one call per node, and an explicit budget makes every
  // one of those calls succeed.

  import opened Orders
  import opened Forests
  import opened Levels
  import opened Runs

  ghost predicate Succeeds(c: Setup, k: nat) {
    Step(c, Run(c, k)).1
  }

  lemma FrontierNonempty(c: Setup, s: State)
    requires Partitions(c.world, s.forest) && c.world.nodes != {}
    ensures s.forest.frontier != {}
  {
    var x :| x in c.world.nodes;
    AllCovered(c.world, s.forest, x);
    assert Covers(s.forest, OwnerOf(s.forest, x), x);
  }

  lemma CallShrinks(c: Setup, n: nat)
    requires ValidWorld(c.world) && Succeeds(c, n) && !Run(c, n).boundary
    ensures Run(c, n + 1).boundary || |Run(c, n + 1).forest.frontier| < |Run(c, n).forest.frontier|
  {
    LevelIsMaximalMatching(c, n);
  }

  lemma {:induction false} FrontierShrinks(c: Setup, n: nat)
    requires ValidWorld(c.world) && forall k | 0 <= k < n :: Succeeds(c, k)
    ensures Run(c, n).boundary || |Run(c, n).forest.frontier| <= |c.world.nodes| - n
  {
    hide Step;
    if n == 0 {
      LeafCount(c.world.nodes);
    } else {
      FrontierShrinks(c, n - 1);
      assert Succeeds(c, n - 1);
      if Run(c, n - 1).boundary {
        BoundaryStays(c, n - 1, n);
      } else {
        CallShrinks(c, n - 1);
      }
    }
  }

  /** If every call succeeds, the evidence boundary is reached within one call per node
      (one call when there is no node). */
  lemma BoundaryWithin(c: Setup, n: nat)
    requires ValidWorld(c.world) && forall k | 0 <= k < n :: Succeeds(c, k)
    requires n >= |c.world.nodes| && n >= 1
    ensures Run(c, n).boundary
  {
    hide Step;
    FrontierShrinks(c, n);
    RunGood(c, n);
    if c.world.nodes != {} {
      FrontierNonempty(c, Run(c, n));
    } else {
      RunGood(c, 0);
      assert Succeeds(c, 0);
      assert Closed(c, Run(c, 0));
      LevelIsMaximalMatching(c, 0);
      BoundaryStays(c, 1, n);
    }
  }

  lemma {:induction false} BoundaryStays(c: Setup, m: nat, n: nat)
    requires m <= n && Run(c, m).boundary
    ensures Run(c, n) == Run(c, m)
    decreases n - m
  {
    if m < n {
      BoundaryStays(c, m, n - 1);
    }
  }

  /** A finite set whose every element is the image of some key is no larger than the keys. */
  lemma {:induction false} FewImages<K(!new), V(!new)>(keys: seq<K>, values: set<V>, rel: (K, V) -> bool)
    requires forall v | v in values :: exists i :: 0 <= i < |keys| && rel(keys[i], v)
    requires forall k, u, v :: rel(k, u) && rel(k, v) ==> u == v
    ensures |values| <= |keys|
  {
    if keys == [] {
      if v :| v in values {}
      assert values == {};
    } else {
      var k, rest := keys[|keys| - 1], keys[..|keys| - 1];
      var others := set v | v in values && !rel(k, v);
      forall v | v in others ensures exists i :: 0 <= i < |rest| && rel(rest[i], v) {
        var i :| 0 <= i < |keys| && rel(keys[i], v);
        assert rel(rest[i], v);
      }
      FewImages(rest, others, rel);
      if v :| v in values && rel(k, v) {
        SubsetSize(values, others + {v});
      } else {
        assert values == others;
      }
    }
  }

  lemma {:induction false} SubsetSize<T>(a: set<T>, b: set<T>)
    requires a <= b
    ensures |a| <= |b|
  {
    assert b == a + (b - a);
  }

  lemma JoinsOnePair(f: Forest, l: Link, p: Pair, q: Pair)
    requires Joins(f, l, p) && Joins(f, l, q)
    ensures p == q
  {
  }

  lemma PairsAtMostLinks(w: World, f: Forest)
    ensures |Pairs(w, f)| <= |w.links|
  {
    hide Joins;
    var rel := (l, p) => Joins(f, l, p);
    forall l, p, q | rel(l, p) && rel(l, q) ensures p == q {
      JoinsOnePair(f, l, p, q);
    }
    forall p | p in Pairs(w, f) ensures exists i :: 0 <= i < |w.links| && rel(w.links[i], p) {
      PairsExactly(w, f, p);
      var l :| l in w.links && Joins(f, l, p);
      var i :| 0 <= i < |w.links| && w.links[i] == l;
      assert rel(w.links[i], p);
    }
    FewImages(w.links, Pairs(w, f), rel);
  }

  lemma {:induction false} SizeSumBound(size: Record -> nat, rs: seq<Record>, bound: nat)
    requires forall i | 0 <= i < |rs| :: size(rs[i]) <= bound
    ensures SizeSum(size, rs) <= bound * |rs|
  {
    if rs != [] {
      SizeSumBound(size, rs[..|rs| - 1], bound);
    }
  }

  lemma {:induction false} SizeSumConcat(size: Record -> nat, p: seq<Record>, q: seq<Record>)
    ensures SizeSum(size, p + q) == SizeSum(size, p) + SizeSum(size, q)
  {
    if q == [] {
      assert p + q == p;
    } else {
      SizeSumConcat(size, p, q[..|q| - 1]);
      assert (p + q)[..|p + q| - 1] == p + q[..|q| - 1];
    }
  }

  // ----- the run that nothing stops -----

  /** The state after `n` calls when neither work nor bytes are limited. */
  ghost function Free(c: Setup, n: nat): State {
    if n == 0 then Initial(c) else
      var s := Free(c, n - 1);
      s.(forest := NextForest(c, s), level := if Matched(c, s) == [] then s.level else s.level + 1,
         bytes := NextBytes(c, s))
  }

  /** The records of the clusters that run makes, level by level. */
  ghost function Recorded(c: Setup, n: nat): seq<Record> {
    if n == 0 then [] else
      var s := Free(c, n - 1);
      Recorded(c, n - 1) + Records(c.world, s.forest, Matched(c, s), s.level + 1)
  }

  ghost predicate Sane(c: Setup, s: State) {
    && Invariant(c.world, s.forest) && Low(s.forest, s.level)
    && s.level + |s.forest.frontier| <= |c.world.nodes|
  }

  /** Each record is the one stored under its id. */
  predicate Stored(f: Forest, rs: seq<Record>) {
    forall i | 0 <= i < |rs| :: rs[i].id in f.clusters && f.clusters[rs[i].id] == rs[i]
  }

  lemma {:induction false} FreeSane(c: Setup, n: nat)
    requires ValidWorld(c.world)
    ensures Sane(c, Free(c, n))
  {
    hide Matched, NextForest, NextBytes;
    if n == 0 {
      InitialGood(c);
      LeafCount(c.world.nodes);
    } else {
      FreeSane(c, n - 1);
      FreeStep(c, Free(c, n - 1));
    }
  }

  lemma FreeStep(c: Setup, s: State)
    requires ValidWorld(c.world) && Sane(c, s)
    ensures Matched(c, s) == [] ==> NextForest(c, s) == s.forest && NextBytes(c, s) == s.bytes
    ensures Matched(c, s) != [] ==> Sane(c, s.(forest := NextForest(c, s), level := s.level + 1))
  {
    if Matched(c, s) != [] {
      hide Matched, NextForest, Invariant, Low;
      StepContracts(c, s);
    }
  }

  /** Contracting a matching stores the records of its pairs and keeps those already there. */
  lemma {:induction false} ContractStores(w: World, f: Forest, q: seq<Pair>, level: nat, rs: seq<Record>)
    requires Injective(w.digest) && Invariant(w, f) && Matching(w, f, q, level) && Stored(f, rs)
    ensures Stored(ContractAll(w, f, q, level), rs + Records(w, f, q, level))
  {
    hide *;
    if q == [] {
      NothingContracted(w, f, level);
      assert rs + [] == rs;
    } else {
      var r, p := q[..|q| - 1], q[|q| - 1];
      assert q == r + [p];
      MatchingDisjoint(w, f, q, level);
      MatchingSplits(w, f, r, p, level);
      ContractStores(w, f, r, level, rs);
      ContractAllKeeps(w, f, r, level);
      var g := ContractAll(w, f, r, level);
      ContractUnfolds(w, f, r, p, level);
      RecordsUnfold(w, f, r, p, level);
      StoresOneMore(w, f, g, r, p, level, rs + Records(w, f, r, level));
      assert (rs + Records(w, f, r, level)) + [MakeRecord(w, f.clusters, p, level)] == rs + Records(w, f, q, level);
    }
  }

  lemma NothingContracted(w: World, f: Forest, level: nat)
    ensures ContractAll(w, f, [], level) == f && Records(w, f, [], level) == []
  {
  }

  lemma MatchingDisjoint(w: World, f: Forest, q: seq<Pair>, level: nat)
    requires Matching(w, f, q, level)
    ensures Disjoint(q)
  {
  }

  lemma ContractUnfolds(w: World, f: Forest, r: seq<Pair>, p: Pair, level: nat)
    ensures ContractAll(w, f, r + [p], level) == Contract(w, ContractAll(w, f, r, level), p, level)
  {
    hide Contract;
    assert (r + [p])[..|r|] == r;
  }

  lemma RecordsUnfold(w: World, f: Forest, r: seq<Pair>, p: Pair, level: nat)
    ensures Records(w, f, r + [p], level) == Records(w, f, r, level) + [MakeRecord(w, f.clusters, p, level)]
  {
    hide MakeRecord;
  }

  lemma StoresOneMore(w: World, f: Forest, g: Forest, r: seq<Pair>, p: Pair, level: nat, rs: seq<Record>)
    requires Injective(w.digest) && Invariant(w, f) && Invariant(w, g) && Outcome(w, f, g, r, level)
    requires Contractible(w, f, p, level) && Disjoint(r + [p]) && Stored(g, rs)
    ensures Stored(Contract(w, g, p, level), rs + [MakeRecord(w, f.clusters, p, level)])
  {
    hide *;
    MatchingParts(w, f, g, r, p, level);
    Untouched(w, f, g, r, p, level);
    LaterContractible(w, f, g, p, level);
    ContractibleParts(w, g, p, level);
    FreshId(w, g, p, level);
    StoredFresh(w, g, p, level, rs);
  }

  lemma MatchingParts(w: World, f: Forest, g: Forest, r: seq<Pair>, p: Pair, level: nat)
    requires Invariant(w, f) && Invariant(w, g) && Outcome(w, f, g, r, level)
    ensures Partitions(w, f) && Sound(w, g.clusters) && Partitions(w, g) && UnderFrontier(g)
    ensures AllKept(f, g) && g.frontier == f.frontier - PairSet(r) + Made(w, f, r, level)
  {
    hide Sound, Partitions, Laminar, UnderFrontier, PairSet, Made;
  }

  lemma ContractibleParts(w: World, g: Forest, p: Pair, level: nat)
    requires Contractible(w, g, p, level)
    ensures p.0 in g.frontier && p.1 in g.frontier && p.0 != p.1
  {
  }

  lemma StoredFresh(w: World, g: Forest, p: Pair, level: nat, rs: seq<Record>)
    requires Stored(g, rs) && MakeRecord(w, g.clusters, p, level).id !in g.clusters
    ensures Stored(Contract(w, g, p, level), rs + [MakeRecord(w, g.clusters, p, level)])
  {
    hide MakeRecord;
  }

  /** The bytes of the free run are the sizes of its records, and its records are exactly the
      stored ones: as many as there are clusters, each under its own id. */
  lemma {:induction false} RecordedExactly(c: Setup, n: nat)
    requires ValidWorld(c.world)
    ensures Free(c, n).bytes == SizeSum(c.size, Recorded(c, n))
    ensures Stored(Free(c, n).forest, Recorded(c, n)) && |Recorded(c, n)| == |Free(c, n).forest.clusters|
  {
    hide Matched, Records, NextForest, Stored, Recorded;
    NothingRecorded(c);
    if n == 0 {
      NothingStored(c);
    } else {
      var s := Free(c, n - 1);
      RecordedStep(c, n - 1);
      RecordedExactly(c, n - 1);
      FreeSane(c, n - 1);
      SizeSumConcat(c.size, Recorded(c, n - 1), Records(c.world, s.forest, Matched(c, s), s.level + 1));
      StepStores(c, s, Recorded(c, n - 1));
      RecordCount(c, s);
      hide SizeSum, Sane, Injective;
    }
  }

  lemma NothingStored(c: Setup)
    ensures Stored(Initial(c).forest, [])
  {
  }

  lemma StepStores(c: Setup, s: State, rs: seq<Record>)
    requires ValidWorld(c.world) && Sane(c, s) && Stored(s.forest, rs)
    ensures Stored(NextForest(c, s), rs + Records(c.world, s.forest, Matched(c, s), s.level + 1))
  {
    hide Matched, Invariant, Low, Stored, Matching, Records, ContractAll;
    SaneParts(c, s);
    MatchedIsMatching(c, s);
    ContractStores(c.world, s.forest, Matched(c, s), s.level + 1, rs);
  }

  lemma SaneParts(c: Setup, s: State)
    requires ValidWorld(c.world) && Sane(c, s)
    ensures Injective(c.world.digest) && Invariant(c.world, s.forest) && Partitions(c.world, s.forest)
    ensures Low(s.forest, s.level) && s.level + |s.forest.frontier| <= |c.world.nodes|
  {
  }

  lemma RecordCount(c: Setup, s: State)
    requires ValidWorld(c.world) && Sane(c, s)
    ensures |Records(c.world, s.forest, Matched(c, s), s.level + 1)| == |Matched(c, s)|
    ensures |s.forest.clusters| + |Matched(c, s)| == |NextForest(c, s).clusters| <= |c.world.nodes|
  {
    hide NextForest, Matched;
    StepContracts(c, s);
  }

  lemma {:induction false} BytesGrow(c: Setup, m: nat, n: nat)
    requires m <= n
    ensures Free(c, m).bytes <= Free(c, n).bytes
  {
    hide Matched, NextForest, SizeSum, Records;
    if m < n { BytesGrow(c, m, n - 1); }
  }

  // ----- when the budget lets the boundary be reached -----

  function PerCall(c: Setup): nat {
    2 * |c.world.nodes| + 2 * |c.world.links|
  }

  lemma ChargesBound(c: Setup, s: State)
    requires Sane(c, s)
    ensures Charge(c, s) + |Pairs(c.world, s.forest)| <= PerCall(c)
  {
    PairsAtMostLinks(c.world, s.forest);
  }

  /** With enough work left, one call does what the free run does, or the records do not fit. */
  lemma StepPaid(c: Setup, s: State)
    requires s.work + Charge(c, s) + |Pairs(c.world, s.forest)| <= c.workLimit && !s.boundary
    ensures
      var (t, ok) := Step(c, s);
      && t.work == s.work + Charge(c, s) + |Pairs(c.world, s.forest)|
      && (ok <==> Matched(c, s) == [] || NextBytes(c, s) <= MAX_OUTPUT)
      && (t.boundary <==> Matched(c, s) == [])
      && (t.boundary || !ok ==> t == s.(work := t.work, boundary := t.boundary))
      && (!t.boundary && ok ==>
            t == s.(work := t.work, forest := NextForest(c, s), level := s.level + 1, bytes := NextBytes(c, s)))
  {
    hide ContractAll, Greedy;
  }

  /** The run goes with the free run and has paid for every call in full. */
  ghost predicate Following(c: Setup, s: State, n: nat) {
    && s.work <= n * PerCall(c)
    && s.forest == Free(c, n).forest && s.level == Free(c, n).level && s.bytes == Free(c, n).bytes
    && (s.boundary ==> Matched(c, s) == [])
  }

  /** The next level does not fit, now or ever. */
  ghost predicate Stuck(c: Setup, s: State, n: nat) {
    && s.work <= n * PerCall(c)
    && !s.boundary && Sane(c, s) && Matched(c, s) != [] && NextBytes(c, s) > MAX_OUTPUT
    && Free(c, n).bytes > MAX_OUTPUT
  }

  lemma SameMatched(c: Setup, s: State, t: State)
    requires s.forest == t.forest && s.level == t.level && s.bytes == t.bytes
    ensures Matched(c, s) == Matched(c, t) && NextForest(c, s) == NextForest(c, t)
    ensures NextBytes(c, s) == NextBytes(c, t) && (Sane(c, s) <==> Sane(c, t))
  {
    hide Pairs, Greedy, ContractAll, SizeSum, Records, Invariant, Low;
  }

  lemma {:induction false} FollowsOrStuck(c: Setup, n: nat)
    requires ValidWorld(c.world) && n * PerCall(c) <= c.workLimit
    ensures Following(c, Run(c, n), n) || Stuck(c, Run(c, n), n)
    ensures Free(c, n).bytes <= MAX_OUTPUT ==> forall k | 0 <= k < n :: Succeeds(c, k)
    ensures Free(c, n).bytes <= MAX_OUTPUT ==> Following(c, Run(c, n), n)
  {
    hide Step, Matched, NextForest, NextBytes, Sane;
    if n > 0 {
      assert n * PerCall(c) == (n - 1) * PerCall(c) + PerCall(c);
      FollowsOrStuck(c, n - 1);
      BytesGrow(c, n - 1, n);
      FollowsStep(c, n - 1);
    }
  }

  lemma FollowsStep(c: Setup, n: nat)
    requires ValidWorld(c.world) && (n + 1) * PerCall(c) <= c.workLimit
    requires Following(c, Run(c, n), n) || Stuck(c, Run(c, n), n)
    ensures Following(c, Run(c, n + 1), n + 1) || Stuck(c, Run(c, n + 1), n + 1)
    ensures Free(c, n + 1).bytes <= MAX_OUTPUT ==> Succeeds(c, n) && Following(c, Run(c, n + 1), n + 1)
  {
    hide *;
    var s := Run(c, n);
    BytesGrow(c, n, n + 1);
    FreeSane(c, n);
    RunUnfolds(c, n);
    if Following(c, s, n) {
      FollowingSame(c, s, n);
      FollowsNext(c, s, n);
    } else {
      StuckStays(c, s, n);
    }
  }

  lemma RunUnfolds(c: Setup, n: nat)
    ensures Run(c, n + 1) == Step(c, Run(c, n)).0 && (Succeeds(c, n) <==> Step(c, Run(c, n)).1)
  {
    hide Step;
  }

  lemma FollowingSame(c: Setup, s: State, n: nat)
    requires Following(c, s, n) && Sane(c, Free(c, n))
    ensures Sane(c, s)
    ensures Matched(c, s) == Matched(c, Free(c, n)) && NextForest(c, s) == NextForest(c, Free(c, n))
    ensures NextBytes(c, s) == NextBytes(c, Free(c, n))
  {
    SameMatched(c, s, Free(c, n));
  }

  lemma PaysFor(c: Setup, s: State, n: nat)
    requires Sane(c, s) && s.work <= n * PerCall(c)
    ensures s.work + Charge(c, s) + |Pairs(c.world, s.forest)| <= (n + 1) * PerCall(c)
  {
    hide Sane;
    ChargesBound(c, s);
    hide *;
    assert (n + 1) * PerCall(c) == n * PerCall(c) + PerCall(c);
  }

  lemma FollowsNext(c: Setup, s: State, n: nat)
    requires ValidWorld(c.world) && (n + 1) * PerCall(c) <= c.workLimit
    requires Following(c, s, n) && Sane(c, s)
    requires Matched(c, s) == Matched(c, Free(c, n)) && NextForest(c, s) == NextForest(c, Free(c, n))
    requires NextBytes(c, s) == NextBytes(c, Free(c, n))
    ensures
      var (t, ok) := Step(c, s);
      && (Following(c, t, n + 1) || Stuck(c, t, n + 1))
      && (Free(c, n + 1).bytes <= MAX_OUTPUT ==> ok && Following(c, t, n + 1))
  {
    hide Step, Matched, NextForest, NextBytes, Sane, Pairs, Charge, Injective, PerCall;
    PaysFor(c, s, n);
    FreeStep(c, s);
    var t := Step(c, s).0;
    if s.boundary {
      BoundaryKeeps(c, s);
    } else {
      StepPaid(c, s);
      SameMatched(c, s, s.(work := t.work, boundary := t.boundary));
    }
    assert n * PerCall(c) <= (n + 1) * PerCall(c) by { BoundMonotone(PerCall(c), n, n + 1); }
  }

  lemma BoundaryKeeps(c: Setup, s: State)
    requires s.boundary
    ensures Step(c, s) == (s, true)
  {
  }

  lemma StuckStays(c: Setup, s: State, n: nat)
    requires (n + 1) * PerCall(c) <= c.workLimit
    requires Stuck(c, s, n) && Free(c, n).bytes <= Free(c, n + 1).bytes
    ensures Stuck(c, Step(c, s).0, n + 1) && Free(c, n + 1).bytes > MAX_OUTPUT
  {
    hide Step, Matched, NextForest, NextBytes, Sane, Pairs, Charge, Free, PerCall;
    PaysFor(c, s, n);
    StepPaid(c, s);
    SameMatched(c, s, s.(work := Step(c, s).0.work));
  }

  /** With work for twice nodes plus links on every call, one call per node reaches the boundary
      exactly when all the records the run makes fit the output limit together. */
  lemma BoundaryExactlyWhenRecordsFit(c: Setup, n: nat)
    requires ValidWorld(c.world) && n * PerCall(c) <= c.workLimit
    requires n >= |c.world.nodes| && n >= 1
    ensures Run(c, n).boundary <==> SizeSum(c.size, Recorded(c, n)) <= MAX_OUTPUT
  {
    hide *;
    FollowsOrStuck(c, n);
    RecordedExactly(c, n);
    if Free(c, n).bytes <= MAX_OUTPUT {
      BoundaryWithin(c, n);
    } else {
      RunGood(c, n);
      OverfullIsStuck(c, n);
    }
  }

  lemma OverfullIsStuck(c: Setup, n: nat)
    requires Good(c, Run(c, n)) && Free(c, n).bytes > MAX_OUTPUT
    requires Following(c, Run(c, n), n) || Stuck(c, Run(c, n), n)
    ensures !Run(c, n).boundary
  {
  }

  // ----- records a run can store -----

  ghost predicate SomeId(w: World, id: string) {
    exists leaves :: id == ClusterId(w, leaves) && Ascending(StringLess, leaves) && Elements(leaves) <= w.nodes
  }

  ghost predicate Child(w: World, m: Member) {
    if m.Leaf? then m.id in w.nodes else SomeId(w, m.id)
  }

  /** What every stored record is made of, whatever the size function says about others. */
  ghost predicate Storable(w: World, r: Record) {
    && r.id == ClusterId(w, r.leaves) && Ascending(StringLess, r.leaves) && Elements(r.leaves) <= w.nodes
    && r.contributing == Within(w.links, Elements(r.leaves))
    && r.level <= |w.nodes| && Child(w, r.children.0) && Child(w, r.children.1)
  }

  lemma FrontierChild(w: World, f: Forest, m: Member)
    requires Invariant(w, f) && m in f.frontier
    ensures Child(w, m) && LeafSet(f.clusters, m) <= w.nodes
  {
    assert Placed(w, f, m);
    if m.Cluster? {
      assert SoundRecord(w, f.clusters, m.id);
      assert m.id == ClusterId(w, f.clusters[m.id].leaves);
    }
  }

  lemma MadeStorable(c: Setup, s: State, i: nat)
    requires ValidWorld(c.world) && Sane(c, s) && i < |Matched(c, s)|
    ensures Storable(c.world, MakeRecord(c.world, s.forest.clusters, Matched(c, s)[i], s.level + 1))
  {
    MatchedIsMatching(c, s);
    var p := Matched(c, s)[i];
    hide Matched, Sound, Laminar, UnderFrontier, Partitions, Injective;
    FrontierChild(c.world, s.forest, p.0);
    FrontierChild(c.world, s.forest, p.1);
    assert s.forest.frontier != {};
  }

  lemma LevelStorable(c: Setup, s: State)
    requires ValidWorld(c.world) && Sane(c, s)
    ensures
      var rs := Records(c.world, s.forest, Matched(c, s), s.level + 1);
      forall i | 0 <= i < |rs| :: Storable(c.world, rs[i])
  {
    hide Sane, Storable, Matched, MakeRecord, Injective;
    var rs := Records(c.world, s.forest, Matched(c, s), s.level + 1);
    forall i | 0 <= i < |rs| ensures Storable(c.world, rs[i]) { MadeStorable(c, s, i); }
  }

  lemma {:induction false} RecordedStorable(c: Setup, n: nat)
    requires ValidWorld(c.world)
    ensures forall i | 0 <= i < |Recorded(c, n)| :: Storable(c.world, Recorded(c, n)[i])
  {
    hide *;
    if n == 0 {
      NothingRecorded(c);
    } else {
      RecordedStorable(c, n - 1);
      FreeSane(c, n - 1);
      LevelStorable(c, Free(c, n - 1));
      RecordedStep(c, n - 1);
    }
  }

  lemma NothingRecorded(c: Setup)
    ensures Recorded(c, 0) == []
  {
  }

  lemma RecordedStep(c: Setup, n: nat)
    ensures
      var s := Free(c, n);
      Recorded(c, n + 1) == Recorded(c, n) + Records(c.world, s.forest, Matched(c, s), s.level + 1)
  {
    hide Records, Matched, Free;
  }

  /** A work limit of twice nodes plus links per call, and a bound on the records a run can store
      under which one per node fits the output limit, are enough to reach the boundary. */
  lemma BudgetSuffices(c: Setup, n: nat, bound: nat)
    requires ValidWorld(c.world)
    requires forall r | Storable(c.world, r) :: c.size(r) <= bound
    requires bound * |c.world.nodes| <= MAX_OUTPUT && n * PerCall(c) <= c.workLimit
    requires n >= |c.world.nodes| && n >= 1
    ensures Run(c, n).boundary
  {
    hide *;
    BoundaryExactlyWhenRecordsFit(c, n);
    RecordedExactly(c, n);
    RecordedStorable(c, n);
    FreeSane(c, n);
    FewClusters(c, n);
    SizeSumBound(c.size, Recorded(c, n), bound);
    BoundMonotone(bound, |Recorded(c, n)|, |c.world.nodes|);
  }

  // ----- such a bound exists for a size that grows with the record -----

  function Chars(q: seq<string>): nat {
    if q == [] then 0 else Chars(q[..|q| - 1]) + |q[|q| - 1]|
  }

  /** The characters of all texts in a record. */
  function TextSize(r: Record): nat {
    |r.id| + |r.children.0.id| + |r.children.1.id| + Chars(r.leaves) + Chars(r.contributing)
  }

  lemma {:induction false} CharsBound(q: seq<string>, longest: nat)
    requires forall i | 0 <= i < |q| :: |q[i]| <= longest
    ensures Chars(q) <= longest * |q|
  {
    if q != [] { CharsBound(q[..|q| - 1], longest); }
  }

  lemma {:induction false} WithinBound(links: seq<Link>, s: set<string>, longest: nat)
    requires forall l | l in links :: |l.id| <= longest
    ensures |Within(links, s)| <= |links|
    ensures forall i | 0 <= i < |Within(links, s)| :: |Within(links, s)[i]| <= longest
  {
    if links != [] { WithinBound(links[..|links| - 1], s, longest); }
  }

  /** The ids of clusters over this world's nodes are short. */
  ghost predicate ShortIds(w: World, longest: nat) {
    forall leaves | Ascending(StringLess, leaves) && Elements(leaves) <= w.nodes :: |ClusterId(w, leaves)| <= longest
  }

  /** When no cluster id, node id or link id is longer than `longest`, a record that a run can store has
      at most that many characters for each node, each link and three ids more. */
  lemma TextSizeBound(w: World, r: Record, longest: nat)
    requires Storable(w, r) && ShortIds(w, longest)
    requires (forall n | n in w.nodes :: |n| <= longest) && forall l | l in w.links :: |l.id| <= longest
    ensures TextSize(r) <= longest * (|w.nodes| + |w.links| + 3)
  {
    hide StringLess;
    StringOrder();
    AscendingDistinct(StringLess, r.leaves);
    SubsetSize(Elements(r.leaves), w.nodes);
    WithinBound(w.links, Elements(r.leaves), longest);
    forall i | 0 <= i < |r.leaves| ensures |r.leaves[i]| <= longest { assert r.leaves[i] in Elements(r.leaves); }
    CharsBound(r.leaves, longest);
    CharsBound(r.contributing, longest);
    BoundMonotone(longest, |r.leaves|, |w.nodes|);
    BoundMonotone(longest, |r.contributing|, |w.links|);
    ChildBound(w, r.children.0, longest);
    ChildBound(w, r.children.1, longest);
    assert longest * (|w.nodes| + |w.links| + 3) == longest * |w.nodes| + longest * |w.links| + 3 * longest;
  }

  lemma ChildBound(w: World, m: Member, longest: nat)
    requires Child(w, m) && ShortIds(w, longest) && forall n | n in w.nodes :: |n| <= longest
    ensures |m.id| <= longest
  {
  }

  lemma FewClusters(c: Setup, n: nat)
    requires Sane(c, Free(c, n))
    ensures |Free(c, n).forest.clusters| <= |c.world.nodes|
  {
  }

  lemma BoundMonotone(bound: nat, a: nat, b: nat)
    requires a <= b
    ensures bound * a <= bound * b
  {
  }
}
