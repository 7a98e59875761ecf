/** What a reader sees of a hierarchy: recursive zoom, evidence pages and aggregate links. */
module Navigation {
  import opened Orders
  import opened Forests
  import opened Levels
  import opened Runs

  /** Zooming into every cluster below a member, down to the leaves. */
  ghost function Expand(w: World, clusters: map<string, Record>, m: Member): set<string>
    requires Sound(w, clusters) && Known(clusters, m)
    decreases Height(clusters, m)
  {
    match m
    case Leaf(id) => {id}
    case Cluster(id) =>
      assert SoundRecord(w, clusters, id);
      var (a, b) := clusters[id].children;
      Expand(w, clusters, a) + Expand(w, clusters, b)
  }

  /** Recursive zoom stops, because levels fall, and yields exactly the member's leaves. */
  lemma {:induction false} ExpandIsLeaves(w: World, clusters: map<string, Record>, m: Member)
    requires Sound(w, clusters) && Known(clusters, m)
    ensures Expand(w, clusters, m) == LeafSet(clusters, m)
    decreases Height(clusters, m)
  {
    match m
    case Leaf(id) =>
    case Cluster(id) =>
      assert SoundRecord(w, clusters, id);
      ExpandIsLeaves(w, clusters, clusters[id].children.0);
      ExpandIsLeaves(w, clusters, clusters[id].children.1);
  }

  // ----- evidence pages -----

  datatype Page = Page(items: seq<string>, next: int) {
    predicate Last() { next < 0 }
  }

  datatype PageResult = Found(page: Page) | BadLimit | Unavailable | BadCursor

  function Evidence(clusters: map<string, Record>, id: string, offset: nat, limit: nat): PageResult {
    if limit == 0 || limit > 256 then BadLimit
    else if id !in clusters then Unavailable
    else
      var all := clusters[id].contributing;
      if offset > |all| then BadCursor
      else
        var end := if offset + limit <= |all| then offset + limit else |all|;
        Found(Page(all[offset..end], if end < |all| then end else -1))
  }

  /** Following `next` from an offset and collecting every item. */
  function Follow(clusters: map<string, Record>, id: string, offset: nat, limit: nat): seq<string>
    requires id in clusters && 0 < limit <= 256 && offset <= |clusters[id].contributing|
    decreases |clusters[id].contributing| - offset
  {
    var p := Evidence(clusters, id, offset, limit).page;
    if p.Last() then p.items else p.items + Follow(clusters, id, p.next, limit)
  }

  /** Paging from any offset returns the rest of the contributing links, once each, in order. */
  lemma {:induction false} PagesAreComplete(clusters: map<string, Record>, id: string, offset: nat, limit: nat)
    requires id in clusters && 0 < limit <= 256 && offset <= |clusters[id].contributing|
    ensures Follow(clusters, id, offset, limit) == clusters[id].contributing[offset..]
    decreases |clusters[id].contributing| - offset
  {
    var p := Evidence(clusters, id, offset, limit).page;
    if !p.Last() {
      PagesAreComplete(clusters, id, p.next, limit);
    }
  }

  // ----- aggregate links -----

  ghost predicate Directed(f: Forest, l: Link, p: Pair) {
    && Covered(f, l.from) && Covered(f, l.to)
    && OwnerOf(f, l.from) == p.0 && OwnerOf(f, l.to) == p.1
  }

  /** The ids of the links from one frontier member to another, in link order. */
  ghost function Contributors(f: Forest, links: seq<Link>, p: Pair): seq<string> {
    if links == [] then []
    else
      var rest := Contributors(f, links[..|links| - 1], p);
      var l := links[|links| - 1];
      if Directed(f, l, p) then rest + [l.id] else rest
  }

  /** The aggregate links: every ordered pair of distinct frontier members some link joins. */
  ghost function Aggregates(w: World, f: Forest): map<Pair, seq<string>> {
    map p | p in AllPairs(f.frontier) && p.0 != p.1 && Contributors(f, w.links, p) != []
      :: Contributors(f, w.links, p)
  }

  lemma {:induction false} WithinExactly(links: seq<Link>, s: set<string>, id: string)
    ensures id in Within(links, s) <==> exists l :: l in links && l.id == id && l.from in s && l.to in s
  {
    if links != [] {
      var rest := links[..|links| - 1];
      WithinExactly(rest, s, id);
      assert forall l :: l in links <==> l in rest || l == links[|links| - 1];
    }
  }

  lemma {:induction false} WithinInOrder(links: seq<Link>, s: set<string>)
    requires forall i, j | 0 <= i < j < |links| :: StringLess(links[i].id, links[j].id)
    ensures forall i, j | 0 <= i < j < |Within(links, s)| :: Precedes(Within(links, s)[i], Within(links, s)[j])
  {
    hide Precedes;
    if links != [] {
      var rest, l := links[..|links| - 1], links[|links| - 1];
      WithinInOrder(rest, s);
      var ids := Within(rest, s);
      forall i | 0 <= i < |ids| ensures Precedes(ids[i], l.id) {
        WithinExactly(rest, s, ids[i]);
        var k :| k in rest && k.id == ids[i];
        var j :| 0 <= j < |rest| && rest[j] == k;
        assert StringLess(links[j].id, l.id);
        StringLessExactly(k.id, l.id);
      }
    }
  }

  /** In every reachable state the evidence of a cluster is the ids of exactly the links between its
      leaves, each once, in byte order; and that is the order of its pages. */
  lemma EvidenceInOrder(c: Setup, n: nat, id: string)
    requires ValidWorld(c.world) && id in Run(c, n).forest.clusters
    ensures
      var r := Run(c, n).forest.clusters[id];
      && (forall x :: x in r.contributing <==>
            exists l :: l in c.world.links && l.id == x && l.from in r.leaves && l.to in r.leaves)
      && (forall i, j | 0 <= i < j < |r.contributing| :: Precedes(r.contributing[i], r.contributing[j]))
  {
    RunGood(c, n);
    hide Precedes, Run, StringLess;
    var f := Run(c, n).forest;
    var r := f.clusters[id];
    assert SoundRecord(c.world, f.clusters, id);
    WithinInOrder(c.world.links, Elements(r.leaves));
    forall x ensures x in r.contributing <==>
                     exists l :: l in c.world.links && l.id == x && l.from in r.leaves && l.to in r.leaves {
      WithinExactly(c.world.links, Elements(r.leaves), x);
    }
  }

  lemma {:induction false} ContributorsInOrder(f: Forest, links: seq<Link>, p: Pair)
    requires forall i, j | 0 <= i < j < |links| :: StringLess(links[i].id, links[j].id)
    ensures
      var ids := Contributors(f, links, p);
      forall i, j | 0 <= i < j < |ids| :: Precedes(ids[i], ids[j])
  {
    hide Precedes, Directed;
    if links != [] {
      var rest, l := links[..|links| - 1], links[|links| - 1];
      ContributorsInOrder(f, rest, p);
      var ids := Contributors(f, rest, p);
      forall i | 0 <= i < |ids| ensures Precedes(ids[i], l.id) {
        ContributorsExactly(f, rest, p, ids[i]);
        var k :| k in rest && k.id == ids[i];
        var j :| 0 <= j < |rest| && rest[j] == k;
        assert StringLess(links[j].id, l.id);
        StringLessExactly(k.id, l.id);
      }
    }
  }

  lemma {:induction false} ContributorsExactly(f: Forest, links: seq<Link>, p: Pair, id: string)
    ensures id in Contributors(f, links, p) <==> exists l :: l in links && l.id == id && Directed(f, l, p)
  {
    if links != [] {
      var rest := links[..|links| - 1];
      ContributorsExactly(f, rest, p, id);
      assert forall l :: l in links <==> l in rest || l == links[|links| - 1];
    }
  }

  lemma LinkIds(w: World, l: Link, k: Link)
    requires ValidWorld(w) && l in w.links && k in w.links && l.id == k.id
    ensures l == k
  {
    StringOrder();
    var i :| 0 <= i < |w.links| && w.links[i] == l;
    var j :| 0 <= j < |w.links| && w.links[j] == k;
    assert !StringLess(l.id, l.id);
  }

  ghost predicate InAggregate(w: World, f: Forest, id: string, p: Pair) {
    p in Aggregates(w, f) && id in Aggregates(w, f)[p]
  }

  ghost predicate InCluster(f: Forest, id: string, m: Member) {
    m in f.frontier && m.Cluster? && m.id in f.clusters && id in f.clusters[m.id].contributing
  }

  ghost predicate LeafLoop(f: Forest, l: Link) {
    l.from == l.to && Leaf(l.from) in f.frontier
  }

  lemma CrossingLink(w: World, f: Forest, l: Link, p: Pair)
    requires ValidWorld(w) && Partitions(w, f) && l in w.links
    ensures InAggregate(w, f, l.id, p) <==> Directed(f, l, p) && p.0 != p.1
  {
    ContributorsExactly(f, w.links, p, l.id);
    if InAggregate(w, f, l.id, p) {
      var k :| k in w.links && k.id == l.id && Directed(f, k, p);
      LinkIds(w, l, k);
    } else if Directed(f, l, p) && p.0 != p.1 {
      var _ := p in AllPairs(f.frontier);
    }
  }

  lemma InnerLink(w: World, f: Forest, l: Link, m: Member)
    requires ValidWorld(w) && Sound(w, f.clusters) && Partitions(w, f) && l in w.links
    requires Covered(f, l.from) && Covered(f, l.to)
    ensures InCluster(f, l.id, m)
            <==> m.Cluster? && OwnerOf(f, l.from) == m && OwnerOf(f, l.to) == m
  {
    if InCluster(f, l.id, m) {
      assert SoundRecord(w, f.clusters, m.id);
      WithinExactly(w.links, LeafSet(f.clusters, m), l.id);
      var k :| k in w.links && k.id == l.id && k.from in LeafSet(f.clusters, m) && k.to in LeafSet(f.clusters, m);
      LinkIds(w, l, k);
      OwnerUnique(w, f, m, l.from);
      OwnerUnique(w, f, m, l.to);
    } else if m.Cluster? && OwnerOf(f, l.from) == m && OwnerOf(f, l.to) == m {
      assert Placed(w, f, m);
      assert SoundRecord(w, f.clusters, m.id);
      WithinExactly(w.links, LeafSet(f.clusters, m), l.id);
    }
  }

  /** In every reachable state each source link is in exactly one place: one aggregate link's
      contributors, or one frontier cluster's contributing links, or a loop on a frontier leaf. */
  lemma LinkPlacedOnce(c: Setup, n: nat, l: Link)
    requires ValidWorld(c.world) && l in c.world.links
    ensures
      var (w, f) := (c.world, Run(c, n).forest);
      && Covered(f, l.from) && Covered(f, l.to)
      && var (a, b) := (OwnerOf(f, l.from), OwnerOf(f, l.to));
      && (forall p :: InAggregate(w, f, l.id, p) <==> p == (a, b) && a != b)
      && (forall m :: InCluster(f, l.id, m) <==> m == a && a == b && a.Cluster?)
      && (LeafLoop(f, l) <==> a == b && a.Leaf?)
  {
    RunGood(c, n);
    var w, f := c.world, Run(c, n).forest;
    AllCovered(w, f, l.from);
    AllCovered(w, f, l.to);
    forall p ensures InAggregate(w, f, l.id, p) <==> Directed(f, l, p) && p.0 != p.1 {
      CrossingLink(w, f, l, p);
    }
    forall m ensures InCluster(f, l.id, m) <==> m.Cluster? && OwnerOf(f, l.from) == m && OwnerOf(f, l.to) == m {
      InnerLink(w, f, l, m);
    }
    if LeafLoop(f, l) {
      assert Covers(f, Leaf(l.from), l.from);
      OwnerUnique(w, f, Leaf(l.from), l.from);
    }
  }
}
