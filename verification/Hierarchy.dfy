/** The mutable hierarchy: the loops of `crates/weave-cluster/src/lib.rs`, each proved
    against the step function of `Runs`. */
module Hierarchies {
  import opened Orders
  import opened Forests
  import opened Levels
  import opened Runs
  import opened Navigation
  import opened LevelOrder

  const MAX_NODES: nat := 10_000
  const MAX_LINKS: nat := 100_000
  const MAX_WORK: nat := 2_000_000

  datatype Error = ClusterBudget | ClusterInput | ClusterUnavailable | ClusterScope

  datatype Result<+T> = Ok(value: T) | Err(error: Error)

  datatype GraphRef = GraphRef(graph: string, revision: string)

  datatype Snapshot = Snapshot(perspective: string, context: string, sources: seq<GraphRef>,
                               nodes: seq<string>, links: seq<Link>)

  datatype Manifest = Manifest(level: nat, frontier: seq<Member>, boundary: bool, work: nat)

  /** Links in id order; the other fields only make the order total on all links. */
  predicate LinkLess(a: Link, b: Link) {
    StringLess(a.id, b.id)
    || (a.id == b.id && (StringLess(a.from, b.from) || (a.from == b.from && StringLess(a.to, b.to))))
  }

  lemma LinkOrder()
    ensures StrictTotal(LinkLess)
  {
    StringOrder();
    forall x: Link, y: Link ensures LinkLess(x, y) || x == y || LinkLess(y, x) {
      StringTrichotomy(x.id, y.id);
      StringTrichotomy(x.from, y.from);
      StringTrichotomy(x.to, y.to);
    }
    forall x: Link ensures !LinkLess(x, x) {
      StringTrichotomy(x.id, x.id);
      StringTrichotomy(x.from, x.from);
      StringTrichotomy(x.to, x.to);
    }
    forall x: Link, y: Link, z: Link | LinkLess(x, y) && LinkLess(y, z) ensures LinkLess(x, z) {
      LinkTransitive(x, y, z);
    }
  }

  lemma LinkTransitive(x: Link, y: Link, z: Link)
    requires LinkLess(x, y) && LinkLess(y, z)
    ensures LinkLess(x, z)
  {
    if StringLess(x.id, y.id) && StringLess(y.id, z.id) {
      StringTransitive(x.id, y.id, z.id);
    } else if x.id == y.id == z.id {
      if StringLess(x.from, y.from) && StringLess(y.from, z.from) {
        StringTransitive(x.from, y.from, z.from);
      } else if x.from == y.from == z.from {
        StringTransitive(x.to, y.to, z.to);
      }
    }
  }

  function SortLinks(links: seq<Link>): (q: seq<Link>)
    ensures Ascending(LinkLess, q) && Elements(q) == Elements(links)
  {
    LinkOrder();
    Sorted(LinkLess, Elements(links))
  }

  function SortMembers(s: set<Member>): (q: seq<Member>)
    ensures Ascending(MemberLess, q) && Elements(q) == s && |q| == |s|
  {
    MemberOrder();
    Sorted(MemberLess, s)
  }

  /** Nodes and links in canonical order. */
  function Canonical(s: Snapshot): Snapshot {
    s.(nodes := SortStrings(Elements(s.nodes)), links := SortLinks(s.links))
  }

  predicate DistinctNodes(s: Snapshot) {
    forall i, j | 0 <= i < j < |s.nodes| :: s.nodes[i] != s.nodes[j]
  }

  predicate DistinctLinks(s: Snapshot) {
    forall i, j | 0 <= i < j < |s.links| :: s.links[i].id != s.links[j].id
  }

  predicate NoDangling(s: Snapshot) {
    forall l | l in s.links :: l.from in s.nodes && l.to in s.nodes
  }

  /** No text occurs twice exactly when there are as many texts as places. */
  lemma {:induction false} DistinctExactly(q: seq<string>)
    ensures |set n | n in q| <= |q|
    ensures |set n | n in q| == |q| <==> forall i, j | 0 <= i < j < |q| :: q[i] != q[j]
  {
    if q != [] {
      var rest, last := q[..|q| - 1], q[|q| - 1];
      DistinctExactly(rest);
      OneMore(rest, last);
      assert q == rest + [last];
    }
  }

  lemma OneMore(rest: seq<string>, last: string)
    ensures
      var (s, t) := (set n | n in rest + [last], set n | n in rest);
      && |s| == |t| + (if last in rest then 0 else 1)
      && (last in rest <==> exists i | 0 <= i < |rest| :: rest[i] == last)
  {
    var s, t := set n | n in rest + [last], set n | n in rest;
    assert s == t + {last};
  }

  function Ids(links: seq<Link>): (q: seq<string>)
    ensures |q| == |links| && forall i | 0 <= i < |q| :: q[i] == links[i].id
  {
    seq(|links|, i requires 0 <= i < |links| => links[i].id)
  }

  lemma LinkIdsExactly(links: seq<Link>)
    ensures |set l | l in links :: l.id| == |links| <==> forall i, j | 0 <= i < j < |links| :: links[i].id != links[j].id
  {
    var q := Ids(links);
    DistinctExactly(q);
    var s := set l | l in links :: l.id;
    forall n | n in q ensures n in s { var i :| 0 <= i < |q| && q[i] == n; assert links[i] in links; }
    forall l | l in links ensures l.id in q { var i :| 0 <= i < |links| && links[i] == l; assert q[i] in q; }
    assert s == set n | n in q;
  }

  function WorldOf(s: Snapshot, digest: Membership -> string): World {
    World(s.perspective, s.context, digest, Elements(s.nodes), s.links)
  }

  /** Accepted snapshots give worlds every run theorem applies to. */
  lemma CanonicalValid(s: Snapshot, digest: Membership -> string)
    requires Injective(digest) && DistinctLinks(s) && NoDangling(s)
    ensures ValidWorld(WorldOf(Canonical(s), digest))
  {
    hide Injective, LinkLess, StringLess;
    var t := Canonical(s);
    forall l | l in t.links ensures l.from in Elements(t.nodes) && l.to in Elements(t.nodes) {
      assert l in Elements(t.links);
      assert l in s.links;
      assert l.from in Elements(s.nodes) && l.to in Elements(s.nodes);
    }
    forall i, j | 0 <= i < j < |t.links| ensures StringLess(t.links[i].id, t.links[j].id) {
      var a, b := t.links[i], t.links[j];
      assert a in Elements(t.links) && b in Elements(t.links) && LinkLess(a, b);
      DistinctIds(s, a, b);
    }
  }

  lemma DistinctIds(s: Snapshot, a: Link, b: Link)
    requires DistinctLinks(s) && a in s.links && b in s.links && LinkLess(a, b)
    ensures StringLess(a.id, b.id)
  {
    StringTrichotomy(a.from, a.from);
    StringTrichotomy(a.to, a.to);
    var x :| 0 <= x < |s.links| && s.links[x] == a;
    var y :| 0 <= y < |s.links| && s.links[y] == b;
    assert x < y || y < x || a == b;
  }

  /** Supplying the same nodes and links in another order gives the same hierarchy input. */
  lemma OrderIrrelevant(s: Snapshot, t: Snapshot)
    requires s.perspective == t.perspective && s.context == t.context && s.sources == t.sources
    requires multiset(s.nodes) == multiset(t.nodes) && multiset(s.links) == multiset(t.links)
    ensures Canonical(s) == Canonical(t)
  {
    forall x ensures x in Elements(s.nodes) <==> x in Elements(t.nodes) {
      assert x in s.nodes <==> x in multiset(s.nodes);
      assert x in t.nodes <==> x in multiset(t.nodes);
    }
    forall x ensures x in Elements(s.links) <==> x in Elements(t.links) {
      assert x in s.links <==> x in multiset(s.links);
      assert x in t.links <==> x in multiset(t.links);
    }
    assert Elements(s.nodes) == Elements(t.nodes) && Elements(s.links) == Elements(t.links);
  }

  class Hierarchy {
    const source: Snapshot
    const digest: Membership -> string
    const size: Record -> nat
    const workLimit: nat
    var clusters: map<string, Record>
    var frontier: seq<Member>
    var level: nat
    var boundary: bool
    var work: nat
    var bytes: nat

    function Config(): Setup {
      Setup(WorldOf(source, digest), size, workLimit)
    }

    function Shape(): Forest
      reads this
    {
      Forest(clusters, Elements(frontier))
    }

    function View(): State
      reads this
    {
      State(Shape(), level, boundary, work, bytes)
    }

    ghost predicate Valid()
      reads this
    {
      && ValidWorld(Config().world)
      && Good(Config(), View())
      && Ascending(MemberLess, frontier)
      && Ascending(StringLess, source.nodes)
    }

    constructor (source: Snapshot, digest: Membership -> string, size: Record -> nat, workLimit: nat)
      requires ValidWorld(WorldOf(source, digest)) && Ascending(StringLess, source.nodes)
      ensures Valid() && View() == Initial(Config())
      ensures this.source == source && this.digest == digest && this.size == size && this.workLimit == workLimit
    {
      this.source := source;
      this.digest := digest;
      this.size := size;
      this.workLimit := workLimit;
      clusters := map[];
      frontier := seq(|source.nodes|, i requires 0 <= i < |source.nodes| => Leaf(source.nodes[i]));
      level := 0;
      boundary := false;
      work := 0;
      bytes := 0;
      new;
      assert Elements(frontier) == Initial(Config()).forest.frontier by {
        forall n | n in source.nodes ensures Leaf(n) in frontier {
          var i :| 0 <= i < |source.nodes| && source.nodes[i] == n;
          assert frontier[i] == Leaf(n);
        }
      }
      InitialGood(Config());
    }

    /** Validation and canonical ordering of a snapshot. */
    static method WithBudget(input: Snapshot, digest: Membership -> string, size: Record -> nat, workLimit: nat)
      returns (r: Result<Hierarchy>)
      requires Injective(digest)
      ensures r.Err? ==> r.error == if workLimit == 0 || workLimit > MAX_WORK || |input.nodes| > MAX_NODES
                                       || |input.links| > MAX_LINKS
                                    then ClusterBudget else ClusterInput
      ensures r.Ok? <==>
                && 0 < workLimit <= 2_000_000 && |input.nodes| <= 10_000 && |input.links| <= 100_000
                && |set n | n in input.nodes| == |input.nodes| && |set l | l in input.links :: l.id| == |input.links|
                && (forall l | l in input.links :: l.from in input.nodes && l.to in input.nodes)
      ensures r.Ok? ==> fresh(r.value) && r.value.Valid() && r.value.source == Canonical(input)
                        && r.value.View() == Initial(r.value.Config())
                        && r.value.Config() == Setup(WorldOf(Canonical(input), digest), size, workLimit)
    {
      if workLimit == 0 || workLimit > MAX_WORK {
        return Err(ClusterBudget);
      }
      if |input.nodes| > MAX_NODES || |input.links| > MAX_LINKS {
        return Err(ClusterBudget);
      }
      DistinctExactly(input.nodes);
      LinkIdsExactly(input.links);
      if !DistinctNodes(input) || !DistinctLinks(input) || !NoDangling(input) {
        return Err(ClusterInput);
      }
      CanonicalValid(input, digest);
      var h := new Hierarchy(Canonical(input), digest, size, workLimit);
      return Ok(h);
    }

    function CurrentManifest(): Manifest
      reads this
    {
      Manifest(level, frontier, boundary, work)
    }

    method Owners() returns (owners: map<string, Member>)
      requires Partitions(Config().world, Shape())
      ensures Owning(Config().world, Shape(), owners)
    {
      hide Partitions, Covered, LeafSet, Leaves, Elements;
      owners := map[];
      ghost var f := Shape();
      for i := 0 to |frontier|
        invariant forall n | n in owners :: Covers(f, owners[n], n)
        invariant forall k | 0 <= k < i :: LeafSet(clusters, frontier[k]) <= owners.Keys
      {
        var leaves := Leaves(clusters, frontier[i]);
        FrontierLeaves(frontier, i, f);
        for j := 0 to |leaves|
          invariant forall n | n in owners :: Covers(f, owners[n], n)
          invariant forall k | 0 <= k < i :: LeafSet(clusters, frontier[k]) <= owners.Keys
          invariant forall k | 0 <= k < j :: leaves[k] in owners
        {
          owners := owners[leaves[j] := frontier[i]];
        }
        AllLeaves(clusters, frontier[i], owners.Keys);
      }
      OwnersComplete(Config().world, f, frontier, owners);
    }

    method CandidatePairs(owners: map<string, Member>) returns (pairs: set<Pair>)
      requires ValidWorld(Config().world) && Owning(Config().world, Shape(), owners)
      ensures pairs == Pairs(Config().world, Shape())
    {
      hide Pairs, Ordered, Covered;
      pairs := {};
      ghost var f := Shape();
      for i := 0 to |source.links|
        invariant forall p :: p in pairs <==> JoinedUpTo(f, source.links, i, p)
      {
        var l := source.links[i];
        assert l in Config().world.links;
        var a, b := owners[l.from], owners[l.to];
        if a != b {
          pairs := pairs + {Ordered(a, b)};
        }
        forall p ensures JoinedUpTo(f, source.links, i + 1, p)
                         <==> JoinedUpTo(f, source.links, i, p) || (a != b && p == Ordered(a, b)) {
          JoinedOneMore(f, source.links, i, p);
        }
      }
      PairsComplete(Config().world, f, pairs);
    }

    /** The greedy pass over the candidate pairs in order. */
    method MatchGreedily(pairs: set<Pair>) returns (created: seq<Record>, used: set<Member>, next: seq<Member>)
      ensures MatchedSoFar(Config().world, Shape(), level + 1, Greedy(pairs, {}), created, used, next)
    {
      hide Greedy, MatchedSoFar, MakeRecord;
      created, used, next := [], {}, [];
      var remaining := pairs;
      ghost var q: seq<Pair> := [];
      ghost var w, f := Config().world, Shape();
      NothingMatched(w, f, level + 1);
      while remaining != {}
        invariant q + Greedy(remaining, used) == Greedy(pairs, {})
        invariant MatchedSoFar(w, f, level + 1, q, created, used, next)
        decreases |remaining|
      {
        MemberOrder();
        PairsOrdered(MemberLess);
        var p := Least(PairOrder(MemberLess), remaining);
        GreedyNext(remaining, used);
        remaining := remaining - {p};
        if p.0 !in used && p.1 !in used {
          var leaves := SortStrings(Elements(Leaves(clusters, p.0)) + Elements(Leaves(clusters, p.1)));
          var id := ClusterId(Config().world, leaves);
          OneMatched(w, f, level + 1, q, created, used, next, p);
          created := created + [Record(id, p, leaves, [], level + 1)];
          used := used + {p.0, p.1};
          next := next + [Cluster(id)];
          assert q + ([p] + Greedy(remaining, used)) == (q + [p]) + Greedy(remaining, used);
          q := q + [p];
        }
      }
      GreedyDone(used);
      assert q + [] == q;
    }

    /** One pass over the source links fills in each new cluster's contributing links. */
    method Contribute(created: seq<Record>) returns (filled: seq<Record>)
      requires forall i, j | 0 <= i < j < |created| :: Elements(created[i].leaves) !! Elements(created[j].leaves)
      ensures |filled| == |created|
      ensures forall i | 0 <= i < |created| ::
                filled[i] == created[i].(contributing := Within(source.links, Elements(created[i].leaves)))
    {
      var newOwners := NewOwners(created);
      var contributions: seq<seq<string>> := seq(|created|, _ => []);
      for k := 0 to |source.links|
        invariant |contributions| == |created|
        invariant forall i | 0 <= i < |created| ::
                    contributions[i] == Within(source.links[..k], Elements(created[i].leaves))
      {
        var l := source.links[k];
        assert source.links[..k + 1][..k] == source.links[..k];
        if l.from in newOwners && l.to in newOwners && newOwners[l.from] == newOwners[l.to] {
          var a := newOwners[l.from];
          contributions := contributions[a := contributions[a] + [l.id]];
        }
      }
      assert source.links[..|source.links|] == source.links;
      filled := seq(|created|, i requires 0 <= i < |created| => created[i].(contributing := contributions[i]));
    }

    static method NewOwners(created: seq<Record>) returns (owners: map<string, nat>)
      requires forall i, j | 0 <= i < j < |created| :: Elements(created[i].leaves) !! Elements(created[j].leaves)
      ensures forall n | n in owners :: owners[n] < |created|
      ensures forall n, i {:trigger n in Elements(created[i].leaves)} | 0 <= i < |created| ::
                n in Elements(created[i].leaves) <==> n in owners && owners[n] == i
    {
      owners := map[];
      for k := 0 to |created|
        invariant forall n | n in owners :: owners[n] < k
        invariant forall n, i {:trigger n in Elements(created[i].leaves)} | 0 <= i < k ::
                    n in Elements(created[i].leaves) <==> n in owners && owners[n] == i
      {
        var added := map n | n in Elements(created[k].leaves) :: k;
        ghost var before := owners;
        owners := owners + added;
        forall n, i | 0 <= i < k + 1
          ensures n in Elements(created[i].leaves) <==> n in owners && owners[n] == i
        {
          assert i < k ==> Elements(created[i].leaves) !! Elements(created[k].leaves);
          assert i < k ==> (n in Elements(created[i].leaves) <==> n in before && before[n] == i);
        }
      }
    }

    /** Charges each record's size; `None`-like failure is reported by the flag. */
    method Weigh(records: seq<Record>) returns (total: nat, fits: bool)
      requires bytes <= MAX_OUTPUT
      ensures fits <==> bytes + SizeSum(size, records) <= MAX_OUTPUT
      ensures fits ==> total == bytes + SizeSum(size, records)
    {
      total := bytes;
      for i := 0 to |records|
        invariant total == bytes + SizeSum(size, records[..i]) <= MAX_OUTPUT
      {
        assert records[..i + 1][..i] == records[..i];
        SizeSumMonotone(size, records, i + 1);
        if size(records[i]) > MAX_OUTPUT - total {
          return total, false;
        }
        total := total + size(records[i]);
      }
      assert records[..|records|] == records;
      fits := true;
    }

    /** Stores the new records. */
    method Store(records: seq<Record>)
      modifies this`clusters
      ensures clusters == InsertAll(old(clusters), records)
    {
      for i := 0 to |records|
        invariant clusters == InsertAll(old(clusters), records[..i])
      {
        assert records[..i + 1][..i] == records[..i];
        clusters := clusters[records[i].id := records[i]];
      }
      assert records[..|records|] == records;
    }

    /** The level itself, once the work is paid: match, record, weigh, store. The flag is
        false when the new records do not fit; nothing has been stored then. */
    method BuildLevel(pairs: set<Pair>) returns (ok: bool)
      requires ValidWorld(Config().world) && Invariant(Config().world, Shape()) && Low(Shape(), level)
      requires bytes <= MAX_OUTPUT && pairs == Pairs(Config().world, Shape()) && Ascending(MemberLess, frontier)
      modifies this
      ensures Ascending(MemberLess, frontier) && work == old(work)
      ensures
        var (c, s) := (Config(), old(View()));
        && (Matched(c, s) == [] ==> ok && View() == s.(boundary := true))
        && (Matched(c, s) != [] ==> (ok <==> NextBytes(c, s) <= MAX_OUTPUT))
        && (!ok ==> View() == s)
        && (Matched(c, s) != [] && ok ==>
              View() == s.(forest := NextForest(c, s), level := s.level + 1, bytes := NextBytes(c, s)))
    {
      hide ValidWorld, Invariant, Low, MatchedSoFar, Matched, NextForest, NextBytes, SizeSum, Records, Pairs,
           InsertAll, Bare, PairSet, Made, Ascending, Within, Injective, Greedy, SortMembers;
      ghost var c, s := Config(), View();
      var created, used, next := MatchGreedily(pairs);
      MatchedAre(c, s, created, used, next);
      if created == [] {
        boundary := true;
        return true;
      }
      CreatedDisjoint(c, s, created);
      var filled := Contribute(created);
      FilledAreRecords(c.world, s.forest, Matched(c, s), s.level + 1, created, filled);
      var total, fits := Weigh(filled);
      NextBytesAre(c, s, filled);
      if !fits {
        return false;
      }
      StoredIsContracted(c, s);
      NextFrontier(c, s, used, next, frontier);
      Store(filled);
      var members := Elements(next) + (set m | m in frontier && m !in used);
      SortedMembers(members);
      frontier := SortMembers(members);
      level := level + 1;
      bytes := total;
      return true;
    }

    /** One maximal matching level: the new state is exactly `Step` of the old one, and the
        manifest is returned exactly when `Step` succeeds. */
    method Advance() returns (r: Result<Manifest>)
      requires Valid()
      modifies this
      ensures Valid()
      ensures View() == Step(Config(), old(View())).0
      ensures r == if Step(Config(), old(View())).1 then Ok(Manifest(level, frontier, boundary, work))
                   else Err(ClusterBudget)
      ensures Listed(frontier)
    {
      hide Listed, Step, Good, ValidWorld, Charge, Matched, NextForest, NextBytes, Invariant, Low, Partitions, Pairs,
           Ascending, Owning, MemberLess;
      ghost var c, s := Config(), View();
      StepGood(c, s);
      AscendingListed(frontier);
      if boundary {
        StepAtBoundary(c, s);
        return Ok(CurrentManifest());
      }
      ListingSize(frontier);
      NodeCount(source.nodes);
      var charge := |source.nodes| + |source.links| + |frontier|;
      ChargeIs(c, s, charge);
      if work + charge > workLimit {
        StepOvercharged(c, s);
        return Err(ClusterBudget);
      }
      GoodPartitions(c, s);
      var owners := Owners();
      var pairs := CandidatePairs(owners);
      work := work + charge;
      if work + |pairs| > workLimit {
        StepOvercandidate(c, s);
        return Err(ClusterBudget);
      }
      work := work + |pairs|;
      StepPaid(c, s, View());
      var ok := BuildLevel(pairs);
      AscendingListed(frontier);
      return if ok then Ok(CurrentManifest()) else Err(ClusterBudget);
    }

    /** Semantic expansion: the two direct children of a known cluster, which share out its leaves. */
    method Zoom(id: string) returns (r: Result<Pair>)
      ensures r == if id in clusters then Ok(clusters[id].children) else Err(ClusterUnavailable)
      ensures r.Ok? && Sound(Config().world, clusters) ==> Splits(clusters, id, r.value)
    {
      if id !in clusters {
        return Err(ClusterUnavailable);
      }
      assert Sound(Config().world, clusters) ==> SoundRecord(Config().world, clusters, id);
      return Ok(clusters[id].children);
    }

    /** One page of a cluster's contributing links. */
    method EvidencePage(id: string, offset: nat, limit: nat) returns (r: PageResult)
      ensures r == Evidence(clusters, id, offset, limit)
    {
      if limit == 0 || limit > 256 {
        return BadLimit;
      }
      if id !in clusters {
        return Unavailable;
      }
      var all := clusters[id].contributing;
      if offset > |all| {
        return BadCursor;
      }
      var end := if offset + limit < |all| then offset + limit else |all|;
      return Found(Page(all[offset..end], if end < |all| then end else -1));
    }

    /** Directed aggregate links with all their contributors, in pair order, if they fit. */
    method AggregateLinks(listSize: seq<AggregateLink> -> nat) returns (r: Result<seq<AggregateLink>>)
      requires ValidWorld(Config().world) && Partitions(Config().world, Shape())
      ensures
        var output := Listing(Aggregates(Config().world, Shape()));
        && r == (if listSize(output) <= MAX_OUTPUT then Ok(output) else Err(ClusterBudget))
        && (forall i, j | 0 <= i < j < |output| :: PairBefore(output[i].ends, output[j].ends))
    {
      ListingInOrder(Aggregates(Config().world, Shape()));
      hide PairBefore, Partitions, ValidWorld, Gathered, Owning, Aggregates, Listing, Injective;
      var owners := Owners();
      ghost var w, f := Config().world, Shape();
      var links: map<Pair, seq<string>> := map[];
      NothingGathered(f);
      for k := 0 to |source.links|
        invariant Gathered(f, source.links[..k], links)
      {
        var l := source.links[k];
        assert l in w.links;
        OwnedEnds(w, f, owners, l);
        GatherOne(w, f, owners, source.links[..k], l, links);
        assert source.links[..k + 1] == source.links[..k] + [l];
        var pair := (owners[l.from], owners[l.to]);
        if pair.0 != pair.1 {
          links := links[pair := (if pair in links then links[pair] else []) + [l.id]];
        }
      }
      assert source.links[..|source.links|] == source.links;
      AggregatesComplete(w, f, links);
      var output := Listing(links);
      return if listSize(output) <= MAX_OUTPUT then Ok(output) else Err(ClusterBudget);
    }
  }

  datatype AggregateLink = AggregateLink(ends: Pair, contributing: seq<string>)

  function SortPairs(s: set<Pair>): (q: seq<Pair>)
    ensures Ascending(PairOrder(MemberLess), q) && Elements(q) == s && |q| == |s|
  {
    MemberOrder();
    PairsOrdered(MemberLess);
    Sorted(PairOrder(MemberLess), s)
  }

  function Listing(links: map<Pair, seq<string>>): seq<AggregateLink> {
    var keys := SortPairs(links.Keys);
    seq(|keys|, i requires 0 <= i < |keys| =>
      assert keys[i] in Elements(keys); AggregateLink(keys[i], links[keys[i]]))
  }

  /** Aggregates are listed by kind and id of their first member, then of their second. */
  lemma ListingInOrder(links: map<Pair, seq<string>>)
    ensures
      var output := Listing(links);
      forall i, j | 0 <= i < j < |output| :: PairBefore(output[i].ends, output[j].ends)
  {
    hide PairBefore;
    var keys := SortPairs(links.Keys);
    forall i, j | 0 <= i < j < |keys| ensures PairBefore(keys[i], keys[j]) {
      assert PairOrder(MemberLess)(keys[i], keys[j]);
      PairBeforeExactly(keys[i], keys[j]);
    }
  }

  /** Two known members of lower level that share out the leaves of a cluster: none lost, none twice. */
  predicate Splits(clusters: map<string, Record>, id: string, p: Pair)
    requires id in clusters
  {
    && Known(clusters, p.0) && Known(clusters, p.1)
    && LeafSet(clusters, p.0) !! LeafSet(clusters, p.1)
    && LeafSet(clusters, p.0) + LeafSet(clusters, p.1) == Elements(clusters[id].leaves)
    && Height(clusters, p.0) < clusters[id].level && Height(clusters, p.1) < clusters[id].level
  }

  /** What the aggregation loop has gathered after the links `ls`. */
  ghost predicate Gathered(f: Forest, ls: seq<Link>, m: map<Pair, seq<string>>) {
    && (forall p :: p in m <==> p.0 != p.1 && Contributors(f, ls, p) != [])
    && (forall p | p in m :: m[p] == Contributors(f, ls, p))
  }

  lemma NothingGathered(f: Forest)
    ensures Gathered(f, [], map[])
  {
  }

  lemma OwnedEnds(w: World, f: Forest, owners: map<string, Member>, l: Link)
    requires ValidWorld(w) && Owning(w, f, owners) && l in w.links
    ensures l.from in owners && l.to in owners
    ensures forall p :: Directed(f, l, p) <==> p == (owners[l.from], owners[l.to])
  {
    hide Injective, Covered;
  }

  lemma GatherOne(w: World, f: Forest, owners: map<string, Member>, ls: seq<Link>, l: Link, m: map<Pair, seq<string>>)
    requires Gathered(f, ls, m) && l.from in owners && l.to in owners
    requires forall p :: Directed(f, l, p) <==> p == (owners[l.from], owners[l.to])
    ensures
      var pair := (owners[l.from], owners[l.to]);
      Gathered(f, ls + [l],
               if pair.0 != pair.1 then m[pair := (if pair in m then m[pair] else []) + [l.id]] else m)
  {
    hide Directed, Contributors;
    var pair := (owners[l.from], owners[l.to]);
    var after := if pair.0 != pair.1 then m[pair := (if pair in m then m[pair] else []) + [l.id]] else m;
    var more := ls + [l];
    forall p ensures p in after <==> p.0 != p.1 && Contributors(f, more, p) != [] {
      ContributeOne(f, ls, l, p);
    }
    forall p | p in after ensures after[p] == Contributors(f, more, p) {
      ContributeOne(f, ls, l, p);
    }
  }

  lemma ContributeOne(f: Forest, ls: seq<Link>, l: Link, p: Pair)
    ensures Contributors(f, ls + [l], p)
         == if Directed(f, l, p) then Contributors(f, ls, p) + [l.id] else Contributors(f, ls, p)
  {
    assert (ls + [l])[..|ls + [l]| - 1] == ls;
  }

  lemma AggregatesComplete(w: World, f: Forest, links: map<Pair, seq<string>>)
    requires Gathered(f, w.links, links)
    ensures links == Aggregates(w, f)
  {
    forall p | p in links ensures p in AllPairs(f.frontier) {
      ContributorsExactly(f, w.links, p, Contributors(f, w.links, p)[0]);
    }
  }

  lemma SortedMembers(s: set<Member>)
    ensures Ascending(MemberLess, SortMembers(s)) && Elements(SortMembers(s)) == s
  {
  }

  lemma StepAtBoundary(c: Setup, s: State)
    requires s.boundary
    ensures Step(c, s) == (s, true)
  {
  }

  lemma ChargeIs(c: Setup, s: State, charge: nat)
    requires charge == |c.world.nodes| + |c.world.links| + |s.forest.frontier|
    ensures Charge(c, s) == charge
  {
  }

  lemma GoodPartitions(c: Setup, s: State)
    requires Good(c, s)
    ensures Invariant(c.world, s.forest) && Partitions(c.world, s.forest) && Low(s.forest, s.level)
    ensures s.bytes <= MAX_OUTPUT
  {
  }

  lemma StepOvercharged(c: Setup, s: State)
    requires !s.boundary && s.work + Charge(c, s) > c.workLimit
    ensures Step(c, s) == (s, false)
  {
  }

  lemma StepOvercandidate(c: Setup, s: State)
    requires !s.boundary && s.work + Charge(c, s) <= c.workLimit
    requires s.work + Charge(c, s) + |Pairs(c.world, s.forest)| > c.workLimit
    ensures Step(c, s) == (s.(work := s.work + Charge(c, s)), false)
  {
  }

  /** After both charges, `Step` is decided by the matching alone. */
  lemma StepPaid(c: Setup, s: State, t: State)
    requires !s.boundary && s.work + Charge(c, s) + |Pairs(c.world, s.forest)| <= c.workLimit
    requires t == s.(work := s.work + Charge(c, s) + |Pairs(c.world, s.forest)|)
    ensures Matched(c, t) == Matched(c, s) && NextBytes(c, t) == NextBytes(c, s) && NextForest(c, t) == NextForest(c, s)
    ensures Step(c, s) ==
              if Matched(c, t) == [] then (t.(boundary := true), true)
              else if NextBytes(c, t) > MAX_OUTPUT then (t, false)
              else (t.(forest := NextForest(c, t), level := t.level + 1, bytes := NextBytes(c, t)), true)
  {
    hide Greedy, ContractAll, Records, SizeSum;
  }

  lemma NextBytesAre(c: Setup, s: State, filled: seq<Record>)
    requires filled == Records(c.world, s.forest, Matched(c, s), s.level + 1)
    ensures NextBytes(c, s) == s.bytes + SizeSum(c.size, filled)
  {
    hide Records, SizeSum, Matched;
  }

  // ----- what the greedy pass has built after taking the pairs `q` -----

  ghost predicate MatchedSoFar(w: World, f: Forest, level: nat, q: seq<Pair>,
                               created: seq<Record>, used: set<Member>, next: seq<Member>) {
    Bare(w, f, q, level, created) && used == PairSet(q) && Elements(next) == Made(w, f, q, level)
  }

  lemma NothingMatched(w: World, f: Forest, level: nat)
    ensures MatchedSoFar(w, f, level, [], [], {}, [])
  {
    assert PairSet([]) == {} && Made(w, f, [], level) == {};
  }

  lemma OneMatched(w: World, f: Forest, level: nat, q: seq<Pair>,
                   created: seq<Record>, used: set<Member>, next: seq<Member>, p: Pair)
    requires MatchedSoFar(w, f, level, q, created, used, next)
    ensures
      var leaves := SortStrings(LeafSet(f.clusters, p.0) + LeafSet(f.clusters, p.1));
      var id := ClusterId(w, leaves);
      MatchedSoFar(w, f, level, q + [p], created + [Record(id, p, leaves, [], level)],
                   used + {p.0, p.1}, next + [Cluster(id)])
  {
    hide PairSet, Made, MakeRecord;
    PairSetGrows(q, p);
    MadeGrows(w, f, q, p, level);
    RecordIs(w, f, level, p);
    ElementsGrow(next, Cluster(MakeRecord(w, f.clusters, p, level).id));
  }

  lemma RecordIs(w: World, f: Forest, level: nat, p: Pair)
    ensures
      var leaves := SortStrings(LeafSet(f.clusters, p.0) + LeafSet(f.clusters, p.1));
      MakeRecord(w, f.clusters, p, level)
      == Record(ClusterId(w, leaves), p, leaves, Within(w.links, Elements(leaves)), level)
  {
  }

  lemma GreedyNext(pairs: set<Pair>, used: set<Member>)
    requires StrictTotal(PairOrder(MemberLess)) && pairs != {}
    ensures
      var p := Least(PairOrder(MemberLess), pairs);
      Greedy(pairs, used) == if p.0 in used || p.1 in used then Greedy(pairs - {p}, used)
                             else [p] + Greedy(pairs - {p}, used + {p.0, p.1})
  {
  }

  lemma GreedyDone(used: set<Member>)
    ensures Greedy({}, used) == []
  {
  }

  lemma MatchedAre(c: Setup, s: State, created: seq<Record>, used: set<Member>, next: seq<Member>)
    requires MatchedSoFar(c.world, s.forest, s.level + 1, Greedy(Pairs(c.world, s.forest), {}), created, used, next)
    ensures Bare(c.world, s.forest, Matched(c, s), s.level + 1, created)
    ensures used == PairSet(Matched(c, s))
    ensures Elements(next) == Made(c.world, s.forest, Matched(c, s), s.level + 1)
    ensures created == [] <==> Matched(c, s) == []
  {
    hide Greedy, PairSet, Made;
  }

  /** Records of a matching before their contributing links are filled in. */
  ghost predicate Bare(w: World, f: Forest, q: seq<Pair>, level: nat, created: seq<Record>) {
    && |created| == |q|
    && forall i | 0 <= i < |q| :: created[i] == MakeRecord(w, f.clusters, q[i], level).(contributing := [])
  }

  lemma ElementsGrow<T>(q: seq<T>, x: T)
    ensures Elements(q + [x]) == Elements(q) + {x}
  {
  }

  function InsertAll(clusters: map<string, Record>, rs: seq<Record>): map<string, Record> {
    if rs == [] then clusters
    else InsertAll(clusters, rs[..|rs| - 1])[rs[|rs| - 1].id := rs[|rs| - 1]]
  }

  lemma {:induction false} SizeSumMonotone(size: Record -> nat, rs: seq<Record>, i: nat)
    requires i <= |rs|
    ensures SizeSum(size, rs[..i]) <= SizeSum(size, rs)
    decreases |rs| - i
  {
    if i < |rs| {
      assert rs[..i + 1][..i] == rs[..i];
      SizeSumMonotone(size, rs, i + 1);
    } else {
      assert rs[..i] == rs;
    }
  }

  lemma ListingSize(listing: seq<Member>)
    requires Ascending(MemberLess, listing)
    ensures |Elements(listing)| == |listing|
  {
    MemberOrder();
    AscendingDistinct(MemberLess, listing);
  }

  lemma NodeCount(nodes: seq<string>)
    requires Ascending(StringLess, nodes)
    ensures |Elements(nodes)| == |nodes|
  {
    StringOrder();
    AscendingDistinct(StringLess, nodes);
  }

  /** Different pairs of a matching make clusters with disjoint leaves. */
  lemma PairsApart(w: World, f: Forest, q: seq<Pair>, level: nat, i: nat, j: nat)
    requires Partitions(w, f) && Matching(w, f, q, level) && i < j < |q|
    ensures (LeafSet(f.clusters, q[i].0) + LeafSet(f.clusters, q[i].1))
         !! (LeafSet(f.clusters, q[j].0) + LeafSet(f.clusters, q[j].1))
  {
    assert Contractible(w, f, q[i], level) && Contractible(w, f, q[j], level);
    assert {q[i].0, q[i].1} !! {q[j].0, q[j].1};
    assert q[i].0 in {q[i].0, q[i].1} && q[i].1 in {q[i].0, q[i].1};
    assert Apart(f, q[i].0, q[j].0) && Apart(f, q[i].0, q[j].1);
    assert Apart(f, q[i].1, q[j].0) && Apart(f, q[i].1, q[j].1);
  }

  lemma CreatedDisjoint(c: Setup, s: State, created: seq<Record>)
    requires ValidWorld(c.world) && Invariant(c.world, s.forest) && Low(s.forest, s.level)
    requires Bare(c.world, s.forest, Matched(c, s), s.level + 1, created)
    ensures forall i, j | 0 <= i < j < |created| :: Elements(created[i].leaves) !! Elements(created[j].leaves)
  {
    hide Matched, Matching;
    MatchedIsMatching(c, s);
    forall i, j | 0 <= i < j < |created| ensures Elements(created[i].leaves) !! Elements(created[j].leaves) {
      PairsApart(c.world, s.forest, Matched(c, s), s.level + 1, i, j);
    }
  }

  lemma FilledAreRecords(w: World, f: Forest, q: seq<Pair>, level: nat, created: seq<Record>, filled: seq<Record>)
    requires Bare(w, f, q, level, created) && |filled| == |created|
    requires forall i | 0 <= i < |created| ::
               filled[i] == created[i].(contributing := Within(w.links, Elements(created[i].leaves)))
    ensures filled == Records(w, f, q, level)
  {
  }

  lemma RecordsSplit(w: World, f: Forest, r: seq<Pair>, p: Pair, level: nat)
    ensures Records(w, f, r + [p], level) == Records(w, f, r, level) + [MakeRecord(w, f.clusters, p, level)]
  {
  }

  /** Storing a matching's records in order is contracting it. */
  lemma {:induction false} ContractedClusters(w: World, f: Forest, q: seq<Pair>, level: nat)
    requires Injective(w.digest) && Invariant(w, f) && Matching(w, f, q, level)
    ensures ContractAll(w, f, q, level).clusters == InsertAll(f.clusters, Records(w, f, q, level))
  {
    hide Invariant, Matching, Injective, Records, MakeRecord, Made, PairSet;
    if q == [] {
      assert Records(w, f, q, level) == [] by { NoRecords(w, f, level); }
    } else {
      var r, p := q[..|q| - 1], q[|q| - 1];
      assert q == r + [p];
      MatchingSplits(w, f, r, p, level);
      ContractedClusters(w, f, r, level);
      SameRecord(w, f, r, p, level);
      RecordsSplit(w, f, r, p, level);
      var rs := Records(w, f, q, level);
      assert rs[..|rs| - 1] == Records(w, f, r, level);
    }
  }

  lemma NoRecords(w: World, f: Forest, level: nat)
    ensures Records(w, f, [], level) == []
  {
  }

  lemma SameRecord(w: World, f: Forest, r: seq<Pair>, p: Pair, level: nat)
    requires Injective(w.digest) && Invariant(w, f) && Matching(w, f, r + [p], level)
    ensures MakeRecord(w, ContractAll(w, f, r, level).clusters, p, level) == MakeRecord(w, f.clusters, p, level)
  {
    hide ContractAll, MakeRecord;
    MatchingSplits(w, f, r, p, level);
    ContractAllKeeps(w, f, r, level);
    var g := ContractAll(w, f, r, level);
    Untouched(w, f, g, r, p, level);
    LaterContractible(w, f, g, p, level);
  }

  lemma StoredIsContracted(c: Setup, s: State)
    requires ValidWorld(c.world) && Invariant(c.world, s.forest) && Low(s.forest, s.level)
    ensures NextForest(c, s).clusters
         == InsertAll(s.forest.clusters, Records(c.world, s.forest, Matched(c, s), s.level + 1))
  {
    hide Matched, Matching, ContractAll, InsertAll;
    MatchedIsMatching(c, s);
    ContractedClusters(c.world, s.forest, Matched(c, s), s.level + 1);
  }

  lemma NextFrontier(c: Setup, s: State, used: set<Member>, next: seq<Member>, listing: seq<Member>)
    requires ValidWorld(c.world) && Invariant(c.world, s.forest) && Low(s.forest, s.level)
    requires Elements(listing) == s.forest.frontier
    requires used == PairSet(Matched(c, s))
    requires Elements(next) == Made(c.world, s.forest, Matched(c, s), s.level + 1)
    ensures Elements(next) + (set m | m in listing && m !in used) == NextForest(c, s).frontier
  {
    hide Matched, PairSet, Made, NextForest;
    StepContracts(c, s);
    forall m ensures m in listing <==> m in s.forest.frontier {
      assert m in listing <==> m in Elements(listing);
    }
  }

  /** The owner map of a frontier, as `owners()` collects it. */
  ghost predicate Owning(w: World, f: Forest, owners: map<string, Member>) {
    && owners.Keys == w.nodes
    && forall n | n in owners :: Covered(f, n) && owners[n] == OwnerOf(f, n)
  }

  ghost predicate JoinedUpTo(f: Forest, links: seq<Link>, i: nat, p: Pair)
    requires i <= |links|
  {
    exists k :: 0 <= k < i && Joins(f, links[k], p)
  }

  lemma JoinedOneMore(f: Forest, links: seq<Link>, i: nat, p: Pair)
    requires i < |links|
    ensures JoinedUpTo(f, links, i + 1, p) <==> JoinedUpTo(f, links, i, p) || Joins(f, links[i], p)
  {
    hide Joins;
  }

  lemma FrontierLeaves(listing: seq<Member>, i: nat, f: Forest)
    requires Elements(listing) == f.frontier && i < |listing|
    ensures
      var leaves := Leaves(f.clusters, listing[i]);
      forall j | 0 <= j < |leaves| :: Covers(f, listing[i], leaves[j])
  {
    assert listing[i] in Elements(listing);
  }

  lemma AllLeaves(clusters: map<string, Record>, m: Member, s: set<string>)
    requires forall k | 0 <= k < |Leaves(clusters, m)| :: Leaves(clusters, m)[k] in s
    ensures LeafSet(clusters, m) <= s
  {
  }

  lemma OwnersComplete(w: World, f: Forest, listing: seq<Member>, owners: map<string, Member>)
    requires Partitions(w, f) && Elements(listing) == f.frontier
    requires forall n | n in owners :: Covers(f, owners[n], n)
    requires forall k | 0 <= k < |listing| :: LeafSet(f.clusters, listing[k]) <= owners.Keys
    ensures Owning(w, f, owners)
  {
    forall n | n in w.nodes ensures n in owners {
      AllCovered(w, f, n);
      assert OwnerOf(f, n) in Elements(listing);
      var k :| 0 <= k < |listing| && listing[k] == OwnerOf(f, n);
      assert n in LeafSet(f.clusters, listing[k]);
    }
    forall n | n in owners ensures n in w.nodes && Covered(f, n) && owners[n] == OwnerOf(f, n) {
      OwnerUnique(w, f, owners[n], n);
      assert Placed(w, f, owners[n]);
    }
  }

  lemma PairsComplete(w: World, f: Forest, pairs: set<Pair>)
    requires forall p :: p in pairs <==> JoinedUpTo(f, w.links, |w.links|, p)
    ensures pairs == Pairs(w, f)
  {
    hide Joins;
    forall p ensures p in pairs <==> p in Pairs(w, f) {
      PairsExactly(w, f, p);
    }
  }
}
