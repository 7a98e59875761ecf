/** Values for which a law of the graph algebra fails, or for which `diff` panics, has no room for its
    labels or loses an edge. Each one is checked to be accepted: the host below turns nothing down
    but what has more than eight members, so a union succeeds whenever the members have keys and
    no two members with one key differ. The values show that
    the conditions in the theorems about union and diff are met and missed by real inputs, and
    that no weaker condition would do. Node ids that occur twice are behind the first two. */
module GraphExamples {
  import opened Orders
  import opened Restrictions
  import opened GraphValues
  import opened GraphUnion
  import opened GraphRenewal
  import opened GraphLaws
  import opened GraphMarks
  import opened GraphDiff

  // ----- a host that accepts what is small -----

  const ANY: Context := Context("reader", 8, (v: Value) => true, (v: Value) => true)

  /** No schema, no types and no influence. */
  predicate Bare(x: Value) {
    && x.schema.None?
    && (forall n | n in x.nodes :: BareNode(n))
    && (forall e | e in x.edges :: e.typeId.None?)
  }

  predicate BareNode(n: Node) {
    n.typeId.None? && n.derivedFrom == [] && n.derivedNodes == [] && n.derivedSnapshots == []
  }

  ghost predicate Compatible(h: Hashing, a: Value, b: Value)
    requires h.Valid()
  {
    && Keyed(h, a) && Keyed(h, b) && Count(a) + Count(b) <= ANY.objects
    && Agree(BothNodes(h, ANY.principal, a, b, None)) && Agree(BothEdges(h, ANY.principal, a, b, None))
  }

  lemma {:induction false} MergedSmall<V>(es: seq<Entry<V>>)
    ensures |Merged(es)| <= |es|
  {
    if es != [] { MergedSmall(es[..|es| - 1]); }
  }

  lemma BareNodes(h: Hashing, a: Value, b: Value)
    requires h.Valid() && Compatible(h, a, b) && Bare(a) && Bare(b)
    ensures NodesKeyed(a) && NodesKeyed(b)
    ensures forall n | n in InOrder(Merged(BothNodes(h, ANY.principal, a, b, None))) :: BareNode(n)
  {
    KeyedParts(h, a);
    KeyedParts(h, b);
    var es := BothNodes(h, ANY.principal, a, b, None);
    MergedFrom(es);
    InOrderMembers(Merged(es), es);
    hide BothNodes, Merged, InOrder, NodeKey, Members, From, Agree, BothEdges;
    forall n | n in InOrder(Merged(es)) ensures BareNode(n) {
      assert n in Elements(InOrder(Merged(es)));
      var i := MemberAt(h, ANY.principal, a, b, None, n);
      var x, o := NodeSource(h, ANY.principal, a, b, None, es[i]);
      assert BareNode(o);
    }
  }

  /** The endpoint an edge is given is among the nodes. */
  lemma EndpointPresent(h: Hashing, a: Value, b: Value, x: Value, id: string)
    requires h.Valid() && NodesKeyed(a) && NodesKeyed(b) && x in {a, b} && id in AllIds(h, x)
    ensures exists n :: n in InOrder(Merged(BothNodes(h, ANY.principal, a, b, None))) && n.id == AllIds(h, x)[id]
  {
    var es := BothNodes(h, ANY.principal, a, b, None);
    var m := Merged(es);
    MergedFrom(es);
    var n := IdSource(h, x, |x.nodes|, id);
    hide BothNodes, Merged, InOrder, NodeKey, NodeIds;
    NodeArrives(h, ANY.principal, a, b, None, x, n);
    var e := NodeEntry(h, ANY.principal, x, Remaps(x, None), n);
    var i :| 0 <= i < |es| && es[i] == e;
    var y, o := NodeSource(h, ANY.principal, a, b, None, m[e.key]);
    InOrderAt(m, e.key);
    assert m[e.key].value in InOrder(m);
  }

  lemma BareEdges(h: Hashing, a: Value, b: Value)
    requires h.Valid() && Compatible(h, a, b) && Bare(a) && Bare(b)
    ensures NodesKeyed(a) && NodesKeyed(b) && EdgesKeyed(h, a) && EdgesKeyed(h, b)
    ensures forall e | e in InOrder(Merged(BothEdges(h, ANY.principal, a, b, None))) ::
              e.typeId.None? && Ended(h, a, b, e.from) && Ended(h, a, b, e.to)
  {
    KeyedParts(h, a);
    KeyedParts(h, b);
    var es := BothEdges(h, ANY.principal, a, b, None);
    MergedFrom(es);
    InOrderMembers(Merged(es), es);
    hide BothEdges, Merged, InOrder, NewEdgeId, AllIds, EdgeKey, Members, From, Agree, BothNodes, EdgesKeyed;
    forall e: Edge | e in InOrder(Merged(es))
      ensures e.typeId.None? && Ended(h, a, b, e.from) && Ended(h, a, b, e.to)
    {
      assert e in Elements(InOrder(Merged(es)));
      var entry := MemberEntry(es, e);
      var x, o := EdgeSource(h, ANY.principal, a, b, None, entry);
      EndpointPresent(h, a, b, x, o.from);
      EndpointPresent(h, a, b, x, o.to);
    }
  }

  ghost predicate Ended(h: Hashing, a: Value, b: Value, id: string)
    requires h.Valid() && NodesKeyed(a) && NodesKeyed(b)
  {
    exists n :: n in InOrder(Merged(BothNodes(h, ANY.principal, a, b, None))) && n.id == id
  }

  lemma BareChecked(h: Hashing, a: Value, b: Value)
    requires h.Valid() && Compatible(h, a, b) && Bare(a) && Bare(b)
    ensures
      var v := UnionOf(h, ANY.principal, a, b, None);
      Bare(v) && BoundedInfluence(v) && WellTyped(v) && Count(v) == UnionSize(h, ANY.principal, a, b, None)
  {
    BareNodes(h, a, b);
    BareEdges(h, a, b);
    UnionLists(h, a, b);
    hide UnionOf, UnionSize, BothNodes, BothEdges, BothAttachments, Merged, InOrder, Keyed, Agree, NodesKeyed,
         EdgesKeyed, Compatible, Bare;
    BareIsTyped(UnionOf(h, ANY.principal, a, b, None));
  }

  lemma UnionLists(h: Hashing, a: Value, b: Value)
    requires h.Valid() && Keyed(h, a) && Keyed(h, b) && NodesKeyed(a) && NodesKeyed(b) && EdgesKeyed(h, a) && EdgesKeyed(h, b)
    ensures
      var v := UnionOf(h, ANY.principal, a, b, None);
      && v.nodes == InOrder(Merged(BothNodes(h, ANY.principal, a, b, None)))
      && v.edges == InOrder(Merged(BothEdges(h, ANY.principal, a, b, None)))
      && v.schema == None && Count(v) == UnionSize(h, ANY.principal, a, b, None)
  {
    hide BothNodes, BothEdges, BothAttachments, Merged, InOrder, Keyed, NodesKeyed, EdgesKeyed;
    Listed(Merged(BothNodes(h, ANY.principal, a, b, None)));
    Listed(Merged(BothEdges(h, ANY.principal, a, b, None)));
    Listed(Merged(BothAttachments(h, ANY.principal, a, b)));
  }

  lemma BareIsTyped(v: Value)
    requires v.schema.None? && forall n | n in v.nodes :: BareNode(n)
    requires forall e | e in v.edges ::
               e.typeId.None? && (exists n :: n in v.nodes && n.id == e.from) && (exists n :: n in v.nodes && n.id == e.to)
    ensures Bare(v) && BoundedInfluence(v) && WellTyped(v)
  {
    forall i | 0 <= i < |v.nodes| ensures BareNode(v.nodes[i]) { assert v.nodes[i] in v.nodes; }
    forall i | 0 <= i < |v.edges| ensures HasNode(v, v.edges[i].from) && HasNode(v, v.edges[i].to) {
      var e := v.edges[i];
      assert e in v.edges;
      var m :| m in v.nodes && m.id == e.from;
      var n :| n in v.nodes && n.id == e.to;
    }
  }

  lemma Listed<V>(m: map<string, Entry<V>>)
    ensures |InOrder(m)| == |m|
  {
    hide Ascending;
    assert |m.Keys| == |m|;
  }

  /** Bare values can be united by that host whenever no two members with one key differ. */
  lemma BareUnifies(h: Hashing, a: Value, b: Value)
    requires h.Valid() && Compatible(h, a, b) && Bare(a) && Bare(b)
    ensures Unifiable(h, ANY, a, b)
    ensures Bare(United(h, ANY, a, b)) && Count(United(h, ANY, a, b)) <= Count(a) + Count(b)
  {
    hide *;
    CompatibleParts(h, a, b);
    KeyedParts(h, a);
    KeyedParts(h, b);
    BareChecked(h, a, b);
    UnionSmall(h, a, b);
    BareSchemas(a, b);
    AnyAccepts(h, a, b);
  }

  lemma AnyAccepts(h: Hashing, a: Value, b: Value)
    requires h.Valid() && Keyed(h, a) && Keyed(h, b) && Count(a) + Count(b) <= 8
    requires a.schema == None && b.schema == None && NodesKeyed(a) && NodesKeyed(b) && EdgesKeyed(h, a) && EdgesKeyed(h, b)
    requires Agree(BothNodes(h, ANY.principal, a, b, None)) && Agree(BothEdges(h, ANY.principal, a, b, None))
    requires UnionSize(h, ANY.principal, a, b, None) <= Count(a) + Count(b)
    requires
      var v := UnionOf(h, ANY.principal, a, b, None);
      BoundedInfluence(v) && WellTyped(v) && Count(v) == UnionSize(h, ANY.principal, a, b, None)
    ensures Unifiable(h, ANY, a, b) && United(h, ANY, a, b) == UnionOf(h, ANY.principal, a, b, None)
  {
    assert MergedSchema(h, None, None) == Ok(None);
    hide BothNodes, BothEdges, UnionOf, UnionSize, Keyed, Agree, NodesKeyed, EdgesKeyed, BoundedInfluence, WellTyped,
         Count, MergedSchema, Injective;
    var v := UnionOf(h, ANY.principal, a, b, None);
    AnyPasses(a);
    AnyPasses(b);
    AnyPasses(v);
    assert Checked(ANY, v);
    hide Checked, Preflight;
  }

  lemma AnyPasses(x: Value)
    requires Count(x) <= 8
    ensures Preflight(ANY, x)
    ensures BoundedInfluence(x) && WellTyped(x) ==> Checked(ANY, x)
  {
    hide BoundedInfluence, WellTyped, Count;
  }

  lemma BareSchemas(a: Value, b: Value)
    requires Bare(a) && Bare(b)
    ensures a.schema == None && b.schema == None
  {
  }

  lemma CompatibleParts(h: Hashing, a: Value, b: Value)
    requires h.Valid() && Compatible(h, a, b)
    ensures Keyed(h, a) && Keyed(h, b) && Count(a) + Count(b) <= 8
    ensures Agree(BothNodes(h, ANY.principal, a, b, None)) && Agree(BothEdges(h, ANY.principal, a, b, None))
  {
    hide Keyed, Agree, Count;
  }

  lemma UnionSmall(h: Hashing, a: Value, b: Value)
    requires h.Valid() && Keyed(h, a) && Keyed(h, b)
    ensures UnionSize(h, ANY.principal, a, b, None) <= Count(a) + Count(b)
  {
    KeyedParts(h, a);
    KeyedParts(h, b);
    MergedSmall(BothNodes(h, ANY.principal, a, b, None));
    MergedSmall(BothEdges(h, ANY.principal, a, b, None));
    MergedSmall(BothAttachments(h, ANY.principal, a, b));
    hide Merged, Keyed, NodesKeyed, EdgesKeyed, NodeEntry, EdgeEntry, AttachmentEntry, EdgeKeyed, HostKnown;
  }

  const NOTHING: Value := Value([], [], [], None, map[], map[], map[])

  lemma NothingKeyed(h: Hashing)
    requires h.Valid()
    ensures Keyed(h, NOTHING) && Bare(NOTHING) && Count(NOTHING) == 0
  {
  }

  // ----- two nodes with one id -----

  function Named(id: string, entity: string): Node {
    Node(id, entity, "space", Null, None, [], [], [], Null, [])
  }

  function SplitEdge(derivations: seq<Derivation>): Edge {
    Edge("e", "x", "y", None, "p", Interval(0, None), Positive, [], derivations, [], [], Null, Null, Null, [])
  }

  /** Two nodes share the id "x", and the one edge starts there. The edge is synthetic when it has
      no derivations. */
  function Split(r: RecordRef, derivations: seq<Derivation>): Value {
    Value([Named("x", "first"), Named("x", "last"), Named("y", "other")], [SplitEdge(derivations)], [], None,
          map["x" := [r], "y" := [r]], map["e" := []], map[])
  }

  function SplitKey(h: Hashing, r: RecordRef, entity: string): string
    requires h.Valid()
  {
    "node:" + h.key(NodeOriginTerm(Unique(h, [r]), entity, "space", Null))
  }

  lemma SplitKeysDiffer(h: Hashing, r: RecordRef, e: string, f: string)
    requires h.Valid() && e != f
    ensures SplitKey(h, r, e) != SplitKey(h, r, f)
  {
    hide Unique;
    var s, t := NodeOriginTerm(Unique(h, [r]), e, "space", Null), NodeOriginTerm(Unique(h, [r]), f, "space", Null);
    if SplitKey(h, r, e) == SplitKey(h, r, f) {
      Drop("node:", h.key(s), h.key(t));
      SameTerm(h, s, t);
    }
  }

  /** The first node with id "x" has one key, the last another. */
  lemma SplitIds(h: Hashing, r: RecordRef, ds: seq<Derivation>)
    requires h.Valid()
    ensures
      var x := Split(r, ds);
      && NodesKeyed(x)
      && AllIds(h, x) == map["x" := SplitKey(h, r, "last"), "y" := SplitKey(h, r, "other")]
      && FirstNode(x.nodes, "x") == Some(x.nodes[0]) && FirstNode(x.nodes, "y") == Some(x.nodes[2])
      && NodeKey(h, x, x.nodes[0]) == SplitKey(h, r, "first")
      && NodeKey(h, x, x.nodes[1]) == SplitKey(h, r, "last")
      && NodeKey(h, x, x.nodes[2]) == SplitKey(h, r, "other")
  {
    hide Unique;
    var x := Split(r, ds);
    assert NodeKey(h, x, x.nodes[0]) == SplitKey(h, r, "first");
    assert NodeKey(h, x, x.nodes[1]) == SplitKey(h, r, "last");
    assert NodeKey(h, x, x.nodes[2]) == SplitKey(h, r, "other");
    hide NodeKey, SplitKey;
    assert NodeIds(h, x, 1) == map["x" := SplitKey(h, r, "first")];
    assert NodeIds(h, x, 2) == map["x" := SplitKey(h, r, "last")];
    assert NodeIds(h, x, 3) == map["x" := SplitKey(h, r, "last"), "y" := SplitKey(h, r, "other")];
  }

  lemma SplitKeyed(h: Hashing, r: RecordRef, ds: seq<Derivation>)
    requires h.Valid()
    ensures
      var x := Split(r, ds);
      && Keyed(h, x) && Bare(x) && Count(x) == 4 && EdgesKeyed(h, x) && EdgeKeyed(h, x, x.edges[0])
      && (Synthetic(x, x.edges[0]) <==> ds == [])
  {
    SplitIds(h, r, ds);
    var x := Split(r, ds);
    hide NodeKey, SnapshotKeyed, AllIds;
    assert Grounded(x, x.nodes[0]) && Grounded(x, x.nodes[2]);
    assert EdgeKey(h, x, x.edges[0]).Some?;
  }

  lemma AgreeDistinct<V>(es: seq<Entry<V>>)
    requires forall i, j | 0 <= i < j < |es| :: es[i].key != es[j].key
    ensures Agree(es)
  {
    forall i, j | 0 <= i < |es| && 0 <= j < |es| && es[i].key == es[j].key ensures es[i].value == es[j].value {
      assert !(i < j) && !(j < i);
    }
  }

  lemma SplitNodesAgree(h: Hashing, r: RecordRef, ds: seq<Derivation>)
    requires h.Valid()
    ensures NodesKeyed(Split(r, ds)) && Agree(BothNodes(h, ANY.principal, Split(r, ds), NOTHING, None))
  {
    var x, p := Split(r, ds), ANY.principal;
    SplitIds(h, r, ds);
    SplitKeysDiffer(h, r, "first", "last");
    SplitKeysDiffer(h, r, "first", "other");
    SplitKeysDiffer(h, r, "last", "other");
    hide NodeKey, SplitKey, NodeIds, NewNode, Agree;
    var es := BothNodes(h, p, x, NOTHING, None);
    assert |es| == 3 && es[0].key == SplitKey(h, r, "first") && es[1].key == SplitKey(h, r, "last")
           && es[2].key == SplitKey(h, r, "other");
    AgreeDistinct(es);
  }

  lemma SplitCompatible(h: Hashing, r: RecordRef, ds: seq<Derivation>)
    requires h.Valid()
    ensures Compatible(h, Split(r, ds), NOTHING)
  {
    var x := Split(r, ds);
    SplitKeyed(h, r, ds);
    SplitNodesAgree(h, r, ds);
    NothingKeyed(h);
    assert |x.edges| == 1;
    hide Split, Keyed, Agree, EdgeKeyed, NewEdge, NewEdgeId, BothNodes, Synthetic, Bare;
    AgreeDistinct(BothEdges(h, ANY.principal, x, NOTHING, None));
  }

  // ----- the laws of union fail -----

  lemma SplitMisses(h: Hashing, r: RecordRef)
    requires h.Valid()
    ensures EdgesKeyed(h, Split(r, [])) && !EndpointsAgree(h, Split(r, [])) && Regrounded(Split(r, []))
  {
    var x := Split(r, []);
    SplitIds(h, r, []);
    SplitKeyed(h, r, []);
    SplitKeysDiffer(h, r, "first", "last");
    hide NodeKey, SplitKey, EdgeKey, AllIds;
    assert x.edges[0] in x.edges && Synthetic(x, x.edges[0]);
    assert EndpointKey(h, x, "x") != Some(AllIds(h, x)["x"]);
    assert LastNode(x.nodes, 3, "y") == Some(x.nodes[2]);
    assert LastNode(x.nodes, 3, "x") == Some(x.nodes[1]) by {
      assert LastNode(x.nodes, 2, "x") == Some(x.nodes[1]);
    }
  }

  /** Nodes of a union never disagree with themselves. */
  lemma UnionNodesAgree(h: Hashing, a: Value, b: Value, y: Value)
    requires h.Valid() && Unifiable(h, ANY, a, b) && y in {United(h, ANY, a, b), NOTHING}
    ensures NodesKeyed(United(h, ANY, a, b)) && Agree(BothNodes(h, ANY.principal, United(h, ANY, a, b), y, None))
  {
    var u, p := United(h, ANY, a, b), ANY.principal;
    UnionSettled(h, ANY, a, b);
    SettledIds(h, u);
    var es := BothNodes(h, p, u, y, None);
    hide Unifiable, United, BothNodes, NodeKey, NewType;
    forall i, j | 0 <= i < |es| && 0 <= j < |es| && es[i].key == es[j].key ensures es[i].value == es[j].value {
      var x, m := NodeSource(h, p, u, y, None, es[i]);
      var z, n := NodeSource(h, p, u, y, None, es[j]);
      UnionNode(h, ANY, a, b, m);
      UnionNode(h, ANY, a, b, n);
      UnionIdUnique(h, ANY, a, b, m, n);
    }
  }

  /** A union of one edge and nothing has one edge. */
  lemma OneEdge(h: Hashing, a: Value, m: Edge)
    requires h.Valid() && Unifiable(h, ANY, a, NOTHING) && |a.edges| == 1 && m in United(h, ANY, a, NOTHING).edges
    ensures NodesKeyed(a) && EdgeKeyed(h, a, a.edges[0]) && m == Renewed(h, ANY, a, NOTHING, a, a.edges[0])
  {
    hide Unifiable, United, EdgeKeyed, EdgesKeyed, Renewed;
    var v, q := UnionEdgeSource(h, ANY, a, NOTHING, m);
    KeyedParts(h, v);
    assert q == a.edges[0];
  }

  lemma UnionEdgesAgree(h: Hashing, a: Value, y: Value)
    requires h.Valid() && Unifiable(h, ANY, a, NOTHING) && |a.edges| == 1
    requires EdgesKeyed(h, United(h, ANY, a, NOTHING)) && y in {United(h, ANY, a, NOTHING), NOTHING} && EdgesKeyed(h, y)
    ensures Agree(BothEdges(h, ANY.principal, United(h, ANY, a, NOTHING), y, None))
  {
    var u, p := United(h, ANY, a, NOTHING), ANY.principal;
    var es := BothEdges(h, p, u, y, None);
    hide *;
    forall i, j | 0 <= i < |es| && 0 <= j < |es| ensures es[i].value == es[j].value {
      var x, m := EdgeSource(h, p, u, y, None, es[i]);
      var z, n := EdgeSource(h, p, u, y, None, es[j]);
      OneEdge(h, a, m);
      OneEdge(h, a, n);
    }
    AllSame(es);
  }

  lemma AllSame<V>(es: seq<Entry<V>>)
    requires forall i, j | 0 <= i < |es| && 0 <= j < |es| :: es[i].value == es[j].value
    ensures Agree(es)
  {
  }

  lemma UniteAgain(h: Hashing, r: RecordRef, y: Value)
    requires h.Valid() && Unifiable(h, ANY, Split(r, []), NOTHING)
    requires y in {United(h, ANY, Split(r, []), NOTHING), NOTHING}
    ensures Unifiable(h, ANY, United(h, ANY, Split(r, []), NOTHING), y)
  {
    var a := Split(r, []);
    var u := United(h, ANY, a, NOTHING);
    assert |a.edges| == 1 && Regrounded(NOTHING);
    SplitKeyed(h, r, []);
    SplitCompatible(h, r, []);
    SplitMisses(h, r);
    NothingKeyed(h);
    hide *;
    BareUnifies(h, a, NOTHING);
    UnionKeyedExactly(h, ANY, a, NOTHING);
    KeyedParts(h, u);
    KeyedParts(h, NOTHING);
    UnionNodesAgree(h, a, NOTHING, y);
    UnionEdgesAgree(h, a, y);
    CompatibleAgain(h, u, y);
    BareUnifies(h, u, y);
  }

  lemma CompatibleAgain(h: Hashing, u: Value, y: Value)
    requires h.Valid() && Keyed(h, u) && Keyed(h, y) && NodesKeyed(u) && NodesKeyed(y) && EdgesKeyed(h, u) && EdgesKeyed(h, y)
    requires Count(u) <= 4 && Count(y) <= 4
    requires Agree(BothNodes(h, ANY.principal, u, y, None)) && Agree(BothEdges(h, ANY.principal, u, y, None))
    ensures Compatible(h, u, y)
  {
    hide Keyed, Agree, Count;
  }

  lemma NothingTwice(h: Hashing)
    requires h.Valid()
    ensures Unifiable(h, ANY, NOTHING, NOTHING) && United(h, ANY, NOTHING, NOTHING) == NOTHING
  {
    NothingKeyed(h);
    var p := ANY.principal;
    assert BothNodes(h, p, NOTHING, NOTHING, None) == [] && BothEdges(h, p, NOTHING, NOTHING, None) == [];
    assert BothAttachments(h, p, NOTHING, NOTHING) == [];
    BareUnifies(h, NOTHING, NOTHING);
    Listed<Node>(map[]);
    Listed<Edge>(map[]);
    Listed<Attachment>(map[]);
    assert Origins<Node>(map[]) == map[] && Origins<Edge>(map[]) == map[] && Origins<Attachment>(map[]) == map[];
    hide InOrder, Origins;
  }

  /** One value, with two nodes of one id and a synthetic edge from that id, for which union is not
      associative, not absorbing and not idempotent, although every call succeeds. */
  lemma LawsFail(h: Hashing, r: RecordRef)
    requires h.Valid()
    ensures
      var a, n := Split(r, []), NOTHING;
      && Bracketed(h, ANY, a, n, n)
      && var u := United(h, ANY, a, n);
         && Unifiable(h, ANY, u, u)
         && !SameGraph(United(h, ANY, u, n), United(h, ANY, a, United(h, ANY, n, n)))
         && !SameGraph(United(h, ANY, u, n), u)
         && !SameGraph(United(h, ANY, u, u), u)
  {
    var a, n, p := Split(r, []), NOTHING, ANY.principal;
    NothingTwice(h);
    SplitKeyed(h, r, []);
    SplitCompatible(h, r, []);
    SplitMisses(h, r);
    NothingKeyed(h);
    NothingAgrees(h);
    hide *;
    BareUnifies(h, a, n);
    var u := United(h, ANY, a, n);
    UniteAgain(h, r, u);
    UniteAgain(h, r, n);
    IsBracketed(h, a, n);
    UnionAssociates(h, ANY, a, n, n);
    UnionAbsorbs(h, ANY, a, n, n);
    UnionIdempotent(h, ANY, a, n);
    forall m: bool ensures ChangingEdges(h, p, a, m) != {} && ChangingEdges(h, p, n, m) == {} {
      NoneChanging(h, p, a, m);
      NoneChanging(h, p, n, m);
    }
    OneDisagrees(h, a, n);
  }

  lemma NothingAgrees(h: Hashing)
    requires h.Valid()
    ensures EdgesKeyed(h, NOTHING) && EndpointsAgree(h, NOTHING)
  {
  }

  lemma OneDisagrees(h: Hashing, a: Value, b: Value)
    requires h.Valid() && EdgesKeyed(h, a) && EdgesKeyed(h, b) && !EndpointsAgree(h, a)
    ensures !BothAgree(h, a, b)
  {
    hide EndpointsAgree, EdgesKeyed;
  }

  lemma IsBracketed(h: Hashing, a: Value, n: Value)
    requires h.Valid() && Unifiable(h, ANY, a, n) && Unifiable(h, ANY, United(h, ANY, a, n), n)
    requires Unifiable(h, ANY, n, n) && United(h, ANY, n, n) == n
    ensures Bracketed(h, ANY, a, n, n)
  {
    hide Unifiable, United;
  }

  // ----- diff panics -----

  /** The same nodes with a derived edge, against the empty value: every check passes, and the label
      names an edge the union does not have. */
  lemma DiffPanics(h: Hashing, r: RecordRef, d: Derivation)
    requires h.Valid()
    ensures
      var a, b := Split(r, [d]), NOTHING;
      && DiffFits(h, ANY, true, a, b) && !Locatable(h, a, BaseKeys(h, b))
      && FirstEndpoints(a, a.edges[0]) && LabelId(h, a, a.edges[0]) in OnlyIds(h, a, BaseKeys(h, b))
      && !HasEdge(United(h, ANY, a, b), LabelId(h, a, a.edges[0]))
  {
    var a, b := Split(r, [d]), NOTHING;
    SplitKeyed(h, r, [d]);
    SplitCompatible(h, r, [d]);
    SplitLabels(h, r, d);
    NothingKeyed(h);
    assert a.schema == b.schema && |a.edges| == 1;
    hide *;
    BareUnifies(h, a, b);
    SplitFits(h, r, d);
    LabelFound(h, ANY, a, b, a, b, 0);
  }

  lemma SplitLabels(h: Hashing, r: RecordRef, d: Derivation)
    requires h.Valid()
    ensures
      var a, b := Split(r, [d]), NOTHING;
      && BasesKnown(h, a) && BasesKnown(h, b) && BaseKeys(h, b) == {}
      && Diffable(h, a, {}) && Diffable(h, b, BaseKeys(h, a)) && !Locatable(h, a, {})
      && OnlyHere(h, a, a.edges[0], {}) && FirstEndpoints(a, a.edges[0]) && LabelId(h, a, a.edges[0]) in OnlyIds(h, a, {})
      && !Located(h, a, a.edges[0])
  {
    var a, b := Split(r, [d]), NOTHING;
    var e := a.edges[0];
    SplitIds(h, r, [d]);
    SplitKeyed(h, r, [d]);
    SplitKeysDiffer(h, r, "first", "last");
    hide NodeKey, SplitKey, SnapshotKeyed, AllIds, Keyed, Bare;
    assert EdgeKey(h, a, e).Some?;
    hide EdgeKey;
    assert FirstKey(h, a, "x") != AllIds(h, a)["x"];
    assert OnlyHere(h, a, a.edges[0], {});
    forall o | o in a.edges ensures !Lands(h, a, e, o) {}
    hide Lands, LabelId;
  }

  lemma SplitFits(h: Hashing, r: RecordRef, d: Derivation)
    requires h.Valid() && Unifiable(h, ANY, Split(r, [d]), NOTHING)
    ensures DiffFits(h, ANY, true, Split(r, [d]), NOTHING)
  {
    SplitLabels(h, r, d);
    SplitKeyed(h, r, [d]);
    hide Unifiable, BaseKeys, Diffable, OnlyIds, BasesKnown, Locatable, Located, LabelId, Keyed, Bare, Split, EdgeKeyed;
  }

  // ----- diff runs out of room -----

  const IDS := ["1", "2", "3", "4", "5"]

  /** Five nodes and nothing else. */
  const CROWD: Value := Value([Named("1", "e"), Named("2", "e"), Named("3", "e"), Named("4", "e"), Named("5", "e")],
                              [], [], None, map["1" := [], "2" := [], "3" := [], "4" := [], "5" := []], map[], map[])

  function CrowdKey(h: Hashing, id: string): string {
    DERIVED_NODE + h.key(NodeIdTerm(id, "e", "space", Null))
  }

  lemma CrowdKeyIs(h: Hashing, i: nat)
    requires h.Valid() && i < 5
    ensures CROWD.nodes[i].id in CROWD.nodeOrigins && NodeKey(h, CROWD, CROWD.nodes[i]) == CrowdKey(h, IDS[i])
  {
    assert CROWD.nodes[i] == Named(IDS[i], "e") && CROWD.nodeOrigins[IDS[i]] == [];
    assert IDS[i][0] != DERIVED_NODE[0];
  }

  lemma CrowdKeysDiffer(h: Hashing, i: nat, j: nat)
    requires h.Valid() && i < j < 5
    ensures CrowdKey(h, IDS[i]) != CrowdKey(h, IDS[j])
  {
    var s, t := NodeIdTerm(IDS[i], "e", "space", Null), NodeIdTerm(IDS[j], "e", "space", Null);
    assert IDS[i][0] != IDS[j][0];
    if CrowdKey(h, IDS[i]) == CrowdKey(h, IDS[j]) {
      Drop(DERIVED_NODE, h.key(s), h.key(t));
      SameTerm(h, s, t);
    }
  }

  lemma CrowdKeys(h: Hashing)
    requires h.Valid()
    ensures NodesKeyed(CROWD) && |NodeKeys(h, CROWD)| >= 5
  {
    forall i | 0 <= i < 5
      ensures CROWD.nodes[i].id in CROWD.nodeOrigins && NodeKey(h, CROWD, CROWD.nodes[i]) == CrowdKey(h, IDS[i])
    {
      CrowdKeyIs(h, i);
    }
    forall i, j | 0 <= i < j < 5 ensures CrowdKey(h, IDS[i]) != CrowdKey(h, IDS[j]) { CrowdKeysDiffer(h, i, j); }
    hide CrowdKey, NodeKey;
    var k := seq(5, i requires 0 <= i < 5 => CrowdKey(h, IDS[i]));
    FiveOf(k, NodeKeys(h, CROWD));
  }

  lemma FiveOf(k: seq<string>, s: set<string>)
    requires |k| == 5 && (forall i, j | 0 <= i < j < 5 :: k[i] != k[j]) && forall i | 0 <= i < 5 :: k[i] in s
    ensures |s| >= 5
  {
    var five := {k[0], k[1], k[2], k[3], k[4]};
    assert |five| == 5;
    assert five <= s && s == five + (s - five);
  }

  lemma {:induction false} NodesFew(nodes: seq<Node>, ids: set<string>)
    requires forall id | id in ids :: exists n :: n in nodes && n.id == id
    ensures |ids| <= |nodes|
  {
    if nodes == [] {
      assert ids == {};
    } else {
      var last, rest := nodes[|nodes| - 1], nodes[..|nodes| - 1];
      forall id | id in ids - {last.id} ensures exists n :: n in rest && n.id == id {
        var n :| n in nodes && n.id == id;
        var i :| 0 <= i < |nodes| && nodes[i] == n;
        assert rest[i] == n;
      }
      NodesFew(rest, ids - {last.id});
      if last.id in ids { assert |ids - {last.id}| == |ids| - 1; } else { assert ids - {last.id} == ids; }
    }
  }

  lemma CrowdCompatible(h: Hashing)
    requires h.Valid()
    ensures Compatible(h, CROWD, NOTHING) && Bare(CROWD)
  {
    NothingKeyed(h);
    forall i | 0 <= i < 5
      ensures CROWD.nodes[i].id in CROWD.nodeOrigins && NodeKey(h, CROWD, CROWD.nodes[i]) == CrowdKey(h, IDS[i])
    {
      CrowdKeyIs(h, i);
    }
    forall i, j | 0 <= i < j < 5 ensures CrowdKey(h, IDS[i]) != CrowdKey(h, IDS[j]) { CrowdKeysDiffer(h, i, j); }
    hide CrowdKey, NodeKey, NewNode, Agree;
    AgreeDistinct(BothNodes(h, ANY.principal, CROWD, NOTHING, None));
    AgreeDistinct(BothEdges(h, ANY.principal, CROWD, NOTHING, None));
  }

  lemma CrowdLabels(h: Hashing)
    requires h.Valid() && Unifiable(h, ANY, CROWD, NOTHING)
    ensures DiffFits(h, ANY, true, CROWD, NOTHING)
    ensures NodeLabels(h, ANY, CROWD, NOTHING).Keys == NodeKeys(h, CROWD)
    ensures EdgeLabels(h, ANY, CROWD, NOTHING).Keys == {}
    ensures LabelsLand(h, ANY, CROWD, NOTHING)
  {
    hide Unifiable, NodeKey;
    assert BaseKeys(h, CROWD) == {} && BaseKeys(h, NOTHING) == {} && NodeKeys(h, NOTHING) == {};
  }

  /** Two values with a union of five nodes under a limit of eight: every lookup would succeed, but
      five labels do not fit beside the five nodes, and `diff` is refused. */
  lemma LabelsCrowdOut(h: Hashing)
    requires h.Valid()
    ensures
      && DiffFits(h, ANY, true, CROWD, NOTHING) && LabelsLand(h, ANY, CROWD, NOTHING)
      && !LabelsFit(h, ANY, CROWD, NOTHING)
  {
    CrowdKeys(h);
    NothingKeyed(h);
    CrowdCompatible(h);
    hide *;
    BareUnifies(h, CROWD, NOTHING);
    CrowdLabels(h);
    CrowdCount(h);
    TooMany(h);
  }

  lemma CrowdCount(h: Hashing)
    requires h.Valid() && Unifiable(h, ANY, CROWD, NOTHING) && NodesKeyed(CROWD)
    ensures |NodeKeys(h, CROWD)| <= Count(United(h, ANY, CROWD, NOTHING))
  {
    var u := United(h, ANY, CROWD, NOTHING);
    hide Unifiable, United, NodeKey;
    forall id | id in NodeKeys(h, CROWD) ensures exists n :: n in u.nodes && n.id == id {
      var i :| 0 <= i < |CROWD.nodes| && NodeKey(h, CROWD, CROWD.nodes[i]) == id;
      UnionKeepsNode(h, ANY, CROWD, NOTHING, CROWD, CROWD.nodes[i]);
    }
    NodesFew(u.nodes, NodeKeys(h, CROWD));
  }

  lemma TooMany(h: Hashing)
    requires h.Valid() && DiffFits(h, ANY, true, CROWD, NOTHING) && NodesKeyed(CROWD)
    requires NodeLabels(h, ANY, CROWD, NOTHING).Keys == NodeKeys(h, CROWD) && |NodeKeys(h, CROWD)| >= 5
    requires Count(United(h, ANY, CROWD, NOTHING)) >= 5
    ensures !LabelsFit(h, ANY, CROWD, NOTHING)
  {
    hide Unifiable, United, NodeLabels, EdgeLabels, NodeKeys, Shown, Count, DiffFits;
    assert |NodeLabels(h, ANY, CROWD, NOTHING)| == |NodeLabels(h, ANY, CROWD, NOTHING).Keys|;
  }

  // ----- diff loses an edge -----

  /** A derived edge from node "x"; its content key does not mention where it ends. */
  function DerivedEdge(to: string, d: Derivation): Edge {
    Edge("e", "x", to, None, "p", Interval(0, None), Positive, [], [d], [], [], Null, Null, Null, [])
  }

  function PlainValue(to: string, d: Derivation): Value {
    Value([Named("x", "entity"), Named("y", "entity")], [DerivedEdge(to, d)], [], None, map["x" := [], "y" := []],
          map[], map[])
  }

  /** The ids of the two nodes of a plain value, which its one edge starts from and ends at. */
  lemma PlainIds(h: Hashing, to: string, d: Derivation)
    requires h.Valid()
    ensures
      var x := PlainValue(to, d);
      && NodesKeyed(x)
      && AllIds(h, x) == map["x" := NodeKey(h, x, Named("x", "entity")), "y" := NodeKey(h, x, Named("y", "entity"))]
  {
    hide NodeKey;
    var x := PlainValue(to, d);
    assert NodeIds(h, x, 1) == map["x" := NodeKey(h, x, Named("x", "entity"))];
    assert NodeIds(h, x, 2) == NodeIds(h, x, 1)["y" := NodeKey(h, x, Named("y", "entity"))];
  }

  lemma PlainKeysDiffer(h: Hashing, to: string, other: string, d: Derivation)
    requires h.Valid()
    ensures
      var x, y := PlainValue(to, d), PlainValue(other, d);
      && NodesKeyed(x) && NodesKeyed(y)
      && NodeKey(h, x, Named("x", "entity")) != NodeKey(h, y, Named("y", "entity"))
      && NodeKey(h, x, Named("x", "entity")) == NodeKey(h, y, Named("x", "entity"))
      && NodeKey(h, x, Named("y", "entity")) == NodeKey(h, y, Named("y", "entity"))
  {
    assert "x"[0] != DERIVED_NODE[0] && "y"[0] != DERIVED_NODE[0];
    var s, t := NodeIdTerm("x", "entity", "space", Null), NodeIdTerm("y", "entity", "space", Null);
    if DERIVED_NODE + h.key(s) == DERIVED_NODE + h.key(t) {
      Drop(DERIVED_NODE, h.key(s), h.key(t));
      SameTerm(h, s, t);
      assert false;
    }
  }

  lemma PlainKeyed(h: Hashing, to: string, d: Derivation)
    requires h.Valid() && to in {"x", "y"}
    ensures
      var x := PlainValue(to, d);
      && Keyed(h, x) && Bare(x) && Count(x) == 3 && EdgesKeyed(h, x) && EdgeKeyed(h, x, DerivedEdge(to, d))
      && Consistent(h, x) && BasesKnown(h, x)
  {
    var x := PlainValue(to, d);
    PlainIds(h, to, d);
    hide NodeKey, SnapshotKeyed, AllIds;
    assert EdgeKey(h, x, x.edges[0]).Some?;
  }

  /** The two edges have one content key and different ids. */
  lemma PlainEdges(h: Hashing, d: Derivation)
    requires h.Valid()
    ensures
      var a, b := PlainValue("x", d), PlainValue("y", d);
      var o, e := DerivedEdge("x", d), DerivedEdge("y", d);
      && NodesKeyed(a) && NodesKeyed(b) && EdgeKeyed(h, a, o) && EdgeKeyed(h, b, e)
      && EdgeKey(h, a, o) == EdgeKey(h, b, e) && NewEdgeId(h, a, o) != NewEdgeId(h, b, e)
  {
    var a, b := PlainValue("x", d), PlainValue("y", d);
    var o, e := DerivedEdge("x", d), DerivedEdge("y", d);
    PlainIds(h, "x", d);
    PlainIds(h, "y", d);
    PlainKeyed(h, "x", d);
    PlainKeyed(h, "y", d);
    PlainKeysDiffer(h, "x", "y", d);
    DerivedFixed(h, a, o, b, e);
    hide NodeKey, SnapshotKeyed, AllIds, EdgeKey, NewEdgeId;
    if NewEdgeId(h, a, o) == NewEdgeId(h, b, e) { SameEdgeId(h, a, o, b, e); }
  }

  lemma PlainNodesAgree(h: Hashing, d: Derivation)
    requires h.Valid()
    ensures
      var a, b := PlainValue("x", d), PlainValue("y", d);
      NodesKeyed(a) && NodesKeyed(b) && Agree(BothNodes(h, ANY.principal, a, b, None))
  {
    var a, b, p := PlainValue("x", d), PlainValue("y", d), ANY.principal;
    PlainKeysDiffer(h, "x", "y", d);
    PlainKeysDiffer(h, "x", "x", d);
    PlainKeysDiffer(h, "y", "x", d);
    PlainKeysDiffer(h, "y", "y", d);
    hide NodeKey;
    var es := BothNodes(h, p, a, b, None);
    assert |es| == 4 && es[0] == NodeEntry(h, p, a, false, Named("x", "entity"))
           && es[1] == NodeEntry(h, p, a, false, Named("y", "entity"))
           && es[2] == NodeEntry(h, p, b, false, Named("x", "entity"))
           && es[3] == NodeEntry(h, p, b, false, Named("y", "entity"));
    hide BothNodes, PlainValue;
    assert es[0].key == es[2].key && es[1].key == es[3].key && es[0].key != es[1].key;
    assert es[0].value == es[2].value && es[1].value == es[3].value;
    hide NodeEntry;
    AgreeTwo(es);
  }

  lemma AgreeTwo<V>(es: seq<Entry<V>>)
    requires |es| == 4 && es[0].key == es[2].key && es[1].key == es[3].key && es[0].key != es[1].key
    requires es[0].value == es[2].value && es[1].value == es[3].value
    ensures Agree(es)
  {
  }

  lemma PlainCompatible(h: Hashing, d: Derivation)
    requires h.Valid()
    ensures Compatible(h, PlainValue("x", d), PlainValue("y", d))
  {
    var a, b, p := PlainValue("x", d), PlainValue("y", d), ANY.principal;
    PlainKeyed(h, "x", d);
    PlainKeyed(h, "y", d);
    PlainEdges(h, d);
    PlainNodesAgree(h, d);
    assert a.edges == [DerivedEdge("x", d)] && b.edges == [DerivedEdge("y", d)];
    hide BothNodes, Agree, EdgeKey, NewEdgeId, Keyed, Consistent, EdgeKeyed, PlainValue, DerivedEdge, NewEdge, BasesKnown,
         Bare;
    AgreeDistinct(BothEdges(h, p, a, b, None));
  }

  /** Two values with one derived edge each, which differ only in where the edge ends. `diff` takes
      them and returns a delta; the two edges share their content key, so neither is labelled, and
      the union without the added edges is not the first value. */
  lemma SharedKeyWithoutEdge(h: Hashing, d: Derivation, delta: Delta)
    requires h.Valid()
    ensures
      var a, b := PlainValue("x", d), PlainValue("y", d);
      && DiffFits(h, ANY, true, a, b) && Locatable(h, a, BaseKeys(h, b)) && Locatable(h, b, BaseKeys(h, a))
      && EdgesKeyed(h, a)
      && (IsDelta(h, ANY, a, b, delta) ==>
            delta.edgeLabels == map[] && Unmarked(delta, Added) != Edges(h, ANY.principal, a, false))
  {
    var a, b := PlainValue("x", d), PlainValue("y", d);
    PlainKeyed(h, "x", d);
    PlainKeyed(h, "y", d);
    PlainCompatible(h, d);
    PlainEdges(h, d);
    PlainDiffs(h, d);
    var e := b.edges[0];
    hide *;
    BareUnifies(h, a, b);
    PlainFits(h, d);
    ConsistentLands(h, a, BaseKeys(h, b));
    ConsistentLands(h, b, BaseKeys(h, a));
    if IsDelta(h, ANY, a, b, delta) {
      EdgesReversible(h, ANY, a, b, delta);
      NoLabels(h, a, b, delta);
    }
  }

  /** Neither value has an edge the other's content keys lack, and yet the second edge is missing
      from the first value. */
  lemma PlainDiffs(h: Hashing, d: Derivation)
    requires h.Valid()
    ensures
      var a, b := PlainValue("x", d), PlainValue("y", d);
      && a.schema == b.schema && BasesKnown(h, a) && BasesKnown(h, b)
      && Diffable(h, a, BaseKeys(h, b)) && OnlyIds(h, a, BaseKeys(h, b)) == {}
      && Diffable(h, b, BaseKeys(h, a)) && OnlyIds(h, b, BaseKeys(h, a)) == {}
      && EdgesKeyed(h, a) && EdgesKeyed(h, b) && !SharedBasesMatch(h, b, a)
  {
    var a, b := PlainValue("x", d), PlainValue("y", d);
    PlainKeyed(h, "x", d);
    PlainKeyed(h, "y", d);
    PlainEdges(h, d);
    hide NodeKey, EdgeKey, NewEdgeId, AllIds, Consistent, LabelId;
    assert a.edges[0] == DerivedEdge("x", d) && b.edges[0] == DerivedEdge("y", d);
    BaseHere(h, a, 0);
    BaseHere(h, b, 0);
    assert b.edges[0] in b.edges;
    assert !HasNewId(h, a, NewEdgeId(h, b, b.edges[0]));
  }

  lemma PlainFits(h: Hashing, d: Derivation)
    requires h.Valid() && Unifiable(h, ANY, PlainValue("x", d), PlainValue("y", d))
    ensures DiffFits(h, ANY, true, PlainValue("x", d), PlainValue("y", d))
  {
    PlainDiffs(h, d);
    hide Unifiable, BaseKeys, Diffable, OnlyIds, BasesKnown, SharedBasesMatch, EdgesKeyed;
  }

  lemma NoLabels(h: Hashing, a: Value, b: Value, delta: Delta)
    requires h.Valid() && DiffFits(h, ANY, true, a, b) && IsDelta(h, ANY, a, b, delta)
    requires OnlyIds(h, a, BaseKeys(h, b)) == {} && OnlyIds(h, b, BaseKeys(h, a)) == {}
    ensures delta.edgeLabels == map[]
  {
    hide Unifiable, United, OnlyIds, BaseKeys, Diffable;
    assert delta.edgeLabels.Keys == {};
  }
}
