/** The forest of clusters built by `Hierarchy::advance`, and what one contraction of
    two linked frontier members keeps. */
module Forests {
  import opened Orders

  /** Frontier objects. Leaves order before clusters, then by id. */
  datatype Member = Leaf(id: string) | Cluster(id: string)

  type Pair = (Member, Member)

  /** A source link; its evidence plays no part in aggregation. */
  datatype Link = Link(id: string, from: string, to: string)

  datatype Record = Record(id: string, children: Pair, leaves: seq<string>, contributing: seq<string>, level: nat)

  /** What a cluster id is the digest of: perspective, context and sorted leaves. */
  datatype Membership = Membership(perspective: string, context: string, leaves: seq<string>)

  /** What `advance` reads and never writes. `digest` stands for SHA-256. */
  datatype World = World(perspective: string, context: string, digest: Membership -> string,
                         nodes: set<string>, links: seq<Link>)

  datatype Forest = Forest(clusters: map<string, Record>, frontier: set<Member>)

  predicate MemberLess(a: Member, b: Member) {
    if a.Leaf? == b.Leaf? then StringLess(a.id, b.id) else a.Leaf?
  }

  lemma MemberOrder()
    ensures StrictTotal(MemberLess)
  {
    StringOrder();
    forall x: Member, y: Member ensures MemberLess(x, y) || x == y || MemberLess(y, x) {
      assert StringLess(x.id, y.id) || x.id == y.id || StringLess(y.id, x.id);
    }
    forall x: Member ensures !MemberLess(x, x) {
      assert !StringLess(x.id, x.id);
    }
    forall x: Member, y: Member, z: Member | MemberLess(x, y) && MemberLess(y, z)
      ensures MemberLess(x, z)
    {
    }
  }

  ghost predicate Injective(digest: Membership -> string) {
    forall x, y :: digest(x) == digest(y) ==> x == y
  }

  function ClusterId(w: World, leaves: seq<string>): string {
    w.digest(Membership(w.perspective, w.context, leaves))
  }

  function Leaves(clusters: map<string, Record>, m: Member): seq<string> {
    match m
    case Leaf(id) => [id]
    case Cluster(id) => if id in clusters then clusters[id].leaves else []
  }

  function LeafSet(clusters: map<string, Record>, m: Member): set<string> {
    Elements(Leaves(clusters, m))
  }

  function Height(clusters: map<string, Record>, m: Member): nat {
    match m
    case Leaf(_) => 0
    case Cluster(id) => if id in clusters then clusters[id].level else 0
  }

  predicate Known(clusters: map<string, Record>, m: Member) {
    m.Leaf? || m.id in clusters
  }

  /** The ids of the links with both ends in `s`, in link order. */
  function Within(links: seq<Link>, s: set<string>): seq<string> {
    if links == [] then []
    else
      var rest := Within(links[..|links| - 1], s);
      var l := links[|links| - 1];
      if l.from in s && l.to in s then rest + [l.id] else rest
  }

  // ----- connectivity by source links -----

  predicate Adjacent(links: seq<Link>, u: string, v: string) {
    exists l | l in links :: (l.from == u && l.to == v) || (l.from == v && l.to == u)
  }

  /** An undirected walk along source links that stays inside `s`. */
  ghost predicate Walk(links: seq<Link>, s: set<string>, p: seq<string>, u: string, v: string) {
    && p != [] && p[0] == u && p[|p| - 1] == v
    && (forall i | 0 <= i < |p| :: p[i] in s)
    && (forall i | 0 <= i < |p| - 1 :: Adjacent(links, p[i], p[i + 1]))
  }

  ghost predicate Joined(links: seq<Link>, s: set<string>, u: string, v: string) {
    exists p :: Walk(links, s, p, u, v)
  }

  ghost predicate Connected(links: seq<Link>, s: set<string>) {
    forall u, v | u in s && v in s :: Joined(links, s, u, v)
  }

  lemma WalkWidens(links: seq<Link>, s: set<string>, t: set<string>, u: string, v: string)
    requires s <= t && Joined(links, s, u, v)
    ensures Joined(links, t, u, v)
  {
    var p :| Walk(links, s, p, u, v);
    assert Walk(links, t, p, u, v);
  }

  lemma WalkBridge(links: seq<Link>, s: set<string>, u: string, x: string, y: string, v: string)
    requires Joined(links, s, u, x) && Adjacent(links, x, y) && Joined(links, s, y, v)
    ensures Joined(links, s, u, v)
  {
    var p :| Walk(links, s, p, u, x);
    var q :| Walk(links, s, q, y, v);
    var r := p + q;
    forall i | 0 <= i < |r| - 1 ensures Adjacent(links, r[i], r[i + 1]) {
      if i == |p| - 1 { assert r[i] == x && r[i + 1] == y; }
    }
    assert Walk(links, s, r, u, v);
  }

  // ----- the invariant of a forest -----

  ghost predicate SoundRecord(w: World, clusters: map<string, Record>, id: string)
    requires id in clusters
  {
    var r := clusters[id];
    && r.id == id == ClusterId(w, r.leaves)
    && Ascending(StringLess, r.leaves)
    && Known(clusters, r.children.0) && Known(clusters, r.children.1)
    && LeafSet(clusters, r.children.0) !! LeafSet(clusters, r.children.1)
    && Elements(r.leaves) == LeafSet(clusters, r.children.0) + LeafSet(clusters, r.children.1)
    && Height(clusters, r.children.0) < r.level
    && Height(clusters, r.children.1) < r.level
    && r.contributing == Within(w.links, Elements(r.leaves))
    && Connected(w.links, Elements(r.leaves))
  }

  ghost predicate Sound(w: World, clusters: map<string, Record>) {
    forall id {:trigger SoundRecord(w, clusters, id)} | id in clusters :: SoundRecord(w, clusters, id)
  }

  predicate Covers(f: Forest, m: Member, n: string) {
    m in f.frontier && n in LeafSet(f.clusters, m)
  }

  ghost predicate Covered(f: Forest, n: string) {
    exists m :: Covers(f, m, n)
  }

  predicate Placed(w: World, f: Forest, m: Member) {
    Known(f.clusters, m) && Leaves(f.clusters, m) != [] && LeafSet(f.clusters, m) <= w.nodes
  }

  predicate Apart(f: Forest, m: Member, o: Member) {
    LeafSet(f.clusters, m) !! LeafSet(f.clusters, o)
  }

  /** The frontier's leaf sets partition the nodes. */
  ghost predicate Partitions(w: World, f: Forest) {
    && (forall m {:trigger Placed(w, f, m)} | m in f.frontier :: Placed(w, f, m))
    && (forall m, o {:trigger Apart(f, m, o)} | m in f.frontier && o in f.frontier && m != o :: Apart(f, m, o))
    && (forall n {:trigger Covered(f, n)} | n in w.nodes :: Covered(f, n))
  }

  predicate Nested(clusters: map<string, Record>, i: string, j: string)
    requires i in clusters && j in clusters
  {
    var (s, t) := (Elements(clusters[i].leaves), Elements(clusters[j].leaves));
    s <= t || t <= s || s !! t
  }

  /** Any two clusters are nested or disjoint. */
  ghost predicate Laminar(clusters: map<string, Record>) {
    forall i, j {:trigger Nested(clusters, i, j)} | i in clusters && j in clusters :: Nested(clusters, i, j)
  }

  predicate Inside(f: Forest, id: string, m: Member) {
    m in f.frontier && LeafSet(f.clusters, Cluster(id)) <= LeafSet(f.clusters, m)
  }

  ghost predicate Under(f: Forest, id: string) {
    exists m :: Inside(f, id, m)
  }

  ghost predicate UnderFrontier(f: Forest) {
    forall id {:trigger Under(f, id)} | id in f.clusters :: Under(f, id)
  }

  ghost predicate Invariant(w: World, f: Forest) {
    && Sound(w, f.clusters)
    && Partitions(w, f)
    && Laminar(f.clusters)
    && UnderFrontier(f)
    && |f.frontier| + |f.clusters| == |w.nodes|
  }

  // ----- one contraction -----

  function MakeRecord(w: World, clusters: map<string, Record>, p: Pair, level: nat): Record {
    var leaves := SortStrings(LeafSet(clusters, p.0) + LeafSet(clusters, p.1));
    Record(ClusterId(w, leaves), p, leaves, Within(w.links, Elements(leaves)), level)
  }

  function Contract(w: World, f: Forest, p: Pair, level: nat): Forest {
    var r := MakeRecord(w, f.clusters, p, level);
    Forest(f.clusters[r.id := r], f.frontier - {p.0, p.1} + {Cluster(r.id)})
  }

  /** Some source link crosses from one member's leaves to the other's. */
  ghost predicate Crossing(w: World, clusters: map<string, Record>, p: Pair) {
    exists x, y :: x in LeafSet(clusters, p.0) && y in LeafSet(clusters, p.1) && Adjacent(w.links, x, y)
  }

  ghost predicate Contractible(w: World, f: Forest, p: Pair, level: nat) {
    && p.0 in f.frontier && p.1 in f.frontier && p.0 != p.1
    && Crossing(w, f.clusters, p)
    && Height(f.clusters, p.0) < level && Height(f.clusters, p.1) < level
  }

  lemma SameIdSameLeaves(w: World, r: seq<string>, s: seq<string>)
    requires Injective(w.digest) && ClusterId(w, r) == ClusterId(w, s)
    ensures r == s
  {
    assert Membership(w.perspective, w.context, r) == Membership(w.perspective, w.context, s);
  }

  /** A cluster made by a contraction has an id no earlier cluster has. */
  lemma FreshId(w: World, f: Forest, p: Pair, level: nat)
    requires Injective(w.digest) && Sound(w, f.clusters) && Partitions(w, f) && UnderFrontier(f)
    requires p.0 in f.frontier && p.1 in f.frontier && p.0 != p.1
    ensures MakeRecord(w, f.clusters, p, level).id !in f.clusters
  {
    var r := MakeRecord(w, f.clusters, p, level);
    if r.id in f.clusters {
      assert SoundRecord(w, f.clusters, r.id);
      SameIdSameLeaves(w, r.leaves, f.clusters[r.id].leaves);
      assert Under(f, r.id);
      var m :| Inside(f, r.id, m);
      assert Placed(w, f, p.0) && Placed(w, f, p.1);
      var x, y := Leaves(f.clusters, p.0)[0], Leaves(f.clusters, p.1)[0];
      assert x in Elements(r.leaves) && y in Elements(r.leaves);
      assert x in LeafSet(f.clusters, m) && y in LeafSet(f.clusters, m);
      var _ := Apart(f, m, if m == p.0 then p.1 else p.0);
    }
  }

  lemma LeavesKept(clusters: map<string, Record>, r: Record, m: Member)
    requires r.id !in clusters && Known(clusters, m)
    ensures Known(clusters[r.id := r], m)
    ensures Leaves(clusters[r.id := r], m) == Leaves(clusters, m)
    ensures Height(clusters[r.id := r], m) == Height(clusters, m)
  {
  }

  /** Two connected leaf sets with a link between them make one connected set. */
  lemma ConnectedUnion(links: seq<Link>, a: set<string>, b: set<string>, x: string, y: string)
    requires Connected(links, a) && Connected(links, b)
    requires x in a && y in b && Adjacent(links, x, y)
    ensures Connected(links, a + b)
  {
    forall u, v | u in a + b && v in a + b ensures Joined(links, a + b, u, v) {
      if u in a && v in a {
        WalkWidens(links, a, a + b, u, v);
      } else if u in b && v in b {
        WalkWidens(links, b, a + b, u, v);
      } else if u in a {
        WalkWidens(links, a, a + b, u, x);
        WalkWidens(links, b, a + b, y, v);
        WalkBridge(links, a + b, u, x, y, v);
      } else {
        WalkWidens(links, b, a + b, u, y);
        WalkWidens(links, a, a + b, x, v);
        assert Adjacent(links, y, x);
        WalkBridge(links, a + b, u, y, x, v);
      }
    }
  }

  lemma MemberConnected(w: World, clusters: map<string, Record>, m: Member)
    requires Sound(w, clusters) && Known(clusters, m)
    ensures Connected(w.links, LeafSet(clusters, m))
  {
    match m
    case Leaf(id) =>
      assert Walk(w.links, {id}, [id], id, id);
      assert LeafSet(clusters, m) == {id};
    case Cluster(id) =>
      assert SoundRecord(w, clusters, id);
  }

  lemma ContractSound(w: World, f: Forest, p: Pair, level: nat)
    requires Injective(w.digest) && Invariant(w, f) && Contractible(w, f, p, level)
    ensures Sound(w, Contract(w, f, p, level).clusters)
  {
    FreshId(w, f, p, level);
    var r := MakeRecord(w, f.clusters, p, level);
    var g := f.clusters[r.id := r];
    NewRecordSound(w, f, p, level);
    forall id | id in g ensures SoundRecord(w, g, id) {
      if id != r.id {
        assert SoundRecord(w, f.clusters, id);
        LeavesKept(f.clusters, r, g[id].children.0);
        LeavesKept(f.clusters, r, g[id].children.1);
      }
    }
  }

  lemma NewRecordSound(w: World, f: Forest, p: Pair, level: nat)
    requires Sound(w, f.clusters) && Partitions(w, f) && Contractible(w, f, p, level)
    requires MakeRecord(w, f.clusters, p, level).id !in f.clusters
    ensures
      var r := MakeRecord(w, f.clusters, p, level);
      SoundRecord(w, f.clusters[r.id := r], r.id)
  {
    var r := MakeRecord(w, f.clusters, p, level);
    assert Placed(w, f, p.0) && Placed(w, f, p.1) && Apart(f, p.0, p.1);
    LeavesKept(f.clusters, r, p.0);
    LeavesKept(f.clusters, r, p.1);
    MemberConnected(w, f.clusters, p.0);
    MemberConnected(w, f.clusters, p.1);
    var x, y :| x in LeafSet(f.clusters, p.0) && y in LeafSet(f.clusters, p.1) && Adjacent(w.links, x, y);
    ConnectedUnion(w.links, LeafSet(f.clusters, p.0), LeafSet(f.clusters, p.1), x, y);
  }

  /** The new cluster owns both parts; every other member keeps its leaves. */
  lemma ContractLeaves(w: World, f: Forest, p: Pair, level: nat, m: Member)
    requires Injective(w.digest) && Invariant(w, f) && Contractible(w, f, p, level)
    ensures
      var g := Contract(w, f, p, level);
      var c := Cluster(MakeRecord(w, f.clusters, p, level).id);
      && c !in f.frontier && Known(g.clusters, c)
      && LeafSet(g.clusters, c) == LeafSet(f.clusters, p.0) + LeafSet(f.clusters, p.1)
      && (Known(f.clusters, m) ==>
            m != c && Known(g.clusters, m) && Leaves(g.clusters, m) == Leaves(f.clusters, m))
  {
    FreshId(w, f, p, level);
    var r := MakeRecord(w, f.clusters, p, level);
    if Known(f.clusters, m) {
      LeavesKept(f.clusters, r, m);
    }
    assert Cluster(r.id) in f.frontier ==> Placed(w, f, Cluster(r.id));
  }

  lemma ContractPlaced(w: World, f: Forest, p: Pair, level: nat, m: Member)
    requires Injective(w.digest) && Invariant(w, f) && Contractible(w, f, p, level)
    requires m in Contract(w, f, p, level).frontier
    ensures Placed(w, Contract(w, f, p, level), m)
  {
    var c := Cluster(MakeRecord(w, f.clusters, p, level).id);
    assert Placed(w, f, p.0) && Placed(w, f, p.1);
    assert m == c || Placed(w, f, m);
    ContractLeaves(w, f, p, level, m);
    if m == c {
      assert Leaves(f.clusters, p.0)[0] in LeafSet(Contract(w, f, p, level).clusters, c);
    }
  }

  lemma ContractApart(w: World, f: Forest, p: Pair, level: nat, m: Member, o: Member)
    requires Injective(w.digest) && Invariant(w, f) && Contractible(w, f, p, level)
    requires m in Contract(w, f, p, level).frontier && o in Contract(w, f, p, level).frontier && m != o
    ensures Apart(Contract(w, f, p, level), m, o)
  {
    hide Sound, Laminar, UnderFrontier, Injective, Crossing;
    var c := Cluster(MakeRecord(w, f.clusters, p, level).id);
    ContractLeaves(w, f, p, level, m);
    ContractLeaves(w, f, p, level, o);
    if m == c {
      assert Placed(w, f, o) && Apart(f, p.0, o) && Apart(f, p.1, o);
    } else if o == c {
      assert Placed(w, f, m) && Apart(f, m, p.0) && Apart(f, m, p.1);
    } else {
      assert Placed(w, f, m) && Placed(w, f, o) && Apart(f, m, o);
    }
  }

  lemma ContractPartitions(w: World, f: Forest, p: Pair, level: nat)
    requires Injective(w.digest) && Invariant(w, f) && Contractible(w, f, p, level)
    ensures Partitions(w, Contract(w, f, p, level))
  {
    var g := Contract(w, f, p, level);
    forall m | m in g.frontier ensures Placed(w, g, m) {
      ContractPlaced(w, f, p, level, m);
    }
    forall m, o | m in g.frontier && o in g.frontier && m != o ensures Apart(g, m, o) {
      ContractApart(w, f, p, level, m, o);
    }
    forall n | n in w.nodes ensures Covered(g, n) {
      assert Covered(f, n);
      var m :| Covers(f, m, n);
      assert Placed(w, f, m);
      ContractLeaves(w, f, p, level, m);
      var c := Cluster(MakeRecord(w, f.clusters, p, level).id);
      assert Covers(g, if m == p.0 || m == p.1 then c else m, n);
    }
  }

  lemma SameLeafSet(clusters: map<string, Record>, others: map<string, Record>, m: Member)
    requires Leaves(clusters, m) == Leaves(others, m)
    ensures LeafSet(clusters, m) == LeafSet(others, m)
  {
  }

  /** An earlier cluster lies inside one frontier member, old or new. */
  lemma ContractUnder(w: World, f: Forest, p: Pair, level: nat, id: string)
    requires Injective(w.digest) && Invariant(w, f) && Contractible(w, f, p, level) && id in f.clusters
    ensures Under(Contract(w, f, p, level), id)
    ensures
      var s := Elements(f.clusters[id].leaves);
      var t := LeafSet(f.clusters, p.0) + LeafSet(f.clusters, p.1);
      s <= t || s !! t
  {
    var g := Contract(w, f, p, level);
    var c := Cluster(MakeRecord(w, f.clusters, p, level).id);
    assert Under(f, id);
    var m :| Inside(f, id, m);
    assert Placed(w, f, m);
    if m != p.0 && m != p.1 { assert Apart(f, m, p.0) && Apart(f, m, p.1); }
    hide Sound, Partitions, Laminar, UnderFrontier, Injective, Crossing, MakeRecord;
    ContractLeaves(w, f, p, level, m);
    ContractLeaves(w, f, p, level, Cluster(id));
    SameLeafSet(f.clusters, g.clusters, m);
    SameLeafSet(f.clusters, g.clusters, Cluster(id));
    assert LeafSet(f.clusters, Cluster(id)) == Elements(f.clusters[id].leaves);
    hide LeafSet, Leaves, Known, Invariant;
    assert Inside(g, id, if m == p.0 || m == p.1 then c else m);
  }

  lemma ContractLaminar(w: World, f: Forest, p: Pair, level: nat)
    requires Injective(w.digest) && Invariant(w, f) && Contractible(w, f, p, level)
    ensures Laminar(Contract(w, f, p, level).clusters)
    ensures UnderFrontier(Contract(w, f, p, level))
  {
    FreshId(w, f, p, level);
    var g := Contract(w, f, p, level);
    var r := MakeRecord(w, f.clusters, p, level);
    forall id | id in g.clusters ensures Under(g, id) {
      if id == r.id {
        assert Inside(g, id, Cluster(id));
      } else {
        ContractUnder(w, f, p, level, id);
      }
    }
    forall i, j | i in g.clusters && j in g.clusters ensures Nested(g.clusters, i, j) {
      if i != r.id { ContractUnder(w, f, p, level, i); }
      if j != r.id { ContractUnder(w, f, p, level, j); }
      assert i != r.id && j != r.id ==> Nested(f.clusters, i, j);
    }
  }

  lemma SwapCount<T>(s: set<T>, a: T, b: T, c: T)
    requires a in s && b in s && a != b && c !in s
    ensures |s - {a, b} + {c}| == |s| - 1
  {
    assert s == s - {a, b} + {a, b} && |{a, b}| == 2;
  }

  lemma ContractCounts(w: World, f: Forest, p: Pair, level: nat)
    requires Injective(w.digest) && Invariant(w, f) && Contractible(w, f, p, level)
    ensures |Contract(w, f, p, level).frontier| == |f.frontier| - 1
    ensures |Contract(w, f, p, level).clusters| == |f.clusters| + 1
  {
    ContractLeaves(w, f, p, level, p.0);
    FreshId(w, f, p, level);
    var r := MakeRecord(w, f.clusters, p, level);
    SwapCount(f.frontier, p.0, p.1, Cluster(r.id));
    assert Contract(w, f, p, level).clusters.Keys == f.clusters.Keys + {r.id};
  }

  /** One contraction of two linked frontier members keeps the whole invariant. */
  lemma ContractKeeps(w: World, f: Forest, p: Pair, level: nat)
    requires Injective(w.digest) && Invariant(w, f) && Contractible(w, f, p, level)
    ensures Invariant(w, Contract(w, f, p, level))
  {
    ContractSound(w, f, p, level);
    ContractPartitions(w, f, p, level);
    ContractLaminar(w, f, p, level);
    ContractCounts(w, f, p, level);
  }
}
