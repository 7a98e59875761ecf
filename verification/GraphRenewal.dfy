/** What a second union does to the keys that a first one assigned. A node key survives because the
    union keeps its list of origins; the key of a derived or source edge because it is made of what
    the edge says; the key of a synthetic edge only if the endpoints it was made from are those the
    union gave the edge. A host follows the member it names. */
module GraphRenewal {
  import opened Orders
  import opened Restrictions
  import opened GraphValues
  import opened GraphUnion

  // ----- where the members of a union come from -----

  lemma NodeSource(h: Hashing, p: string, a: Value, b: Value, s: Option<Schema>, e: Entry<Node>)
      returns (x: Value, n: Node)
    requires h.Valid() && NodesKeyed(a) && NodesKeyed(b) && e in BothNodes(h, p, a, b, s)
    ensures x in {a, b} && n in x.nodes && n.id in x.nodeOrigins
    ensures e == NodeEntry(h, p, x, Remaps(x, s), n)
  {
    hide NodeEntry;
    var i :| 0 <= i < |BothNodes(h, p, a, b, s)| && BothNodes(h, p, a, b, s)[i] == e;
    if i < |a.nodes| { x, n := a, a.nodes[i]; } else { x, n := b, b.nodes[i - |a.nodes|]; }
  }

  lemma NodeArrives(h: Hashing, p: string, a: Value, b: Value, s: Option<Schema>, x: Value, n: Node)
    requires h.Valid() && NodesKeyed(a) && NodesKeyed(b) && x in {a, b} && n in x.nodes
    ensures n.id in x.nodeOrigins && NodeEntry(h, p, x, Remaps(x, s), n) in BothNodes(h, p, a, b, s)
  {
    hide NodeEntry;
    var i :| 0 <= i < |x.nodes| && x.nodes[i] == n;
    if x == a {
      assert BothNodes(h, p, a, b, s)[i] == NodeEntry(h, p, x, Remaps(x, s), n);
    } else {
      assert BothNodes(h, p, a, b, s)[|a.nodes| + i] == NodeEntry(h, p, x, Remaps(x, s), n);
    }
  }

  lemma EdgeSource(h: Hashing, p: string, a: Value, b: Value, s: Option<Schema>, e: Entry<Edge>)
      returns (x: Value, o: Edge)
    requires h.Valid() && EdgesKeyed(h, a) && EdgesKeyed(h, b) && e in BothEdges(h, p, a, b, s)
    ensures x in {a, b} && o in x.edges && EdgesKeyed(h, x) && EdgeKeyed(h, x, o)
    ensures e == EdgeEntry(h, p, x, Remaps(x, s), o)
  {
    hide EdgeEntry, EdgeKeyed, AllIds;
    var i :| 0 <= i < |BothEdges(h, p, a, b, s)| && BothEdges(h, p, a, b, s)[i] == e;
    if i < |a.edges| { x, o := a, a.edges[i]; } else { x, o := b, b.edges[i - |a.edges|]; }
  }

  lemma EdgeArrives(h: Hashing, p: string, a: Value, b: Value, s: Option<Schema>, x: Value, o: Edge)
    requires h.Valid() && EdgesKeyed(h, a) && EdgesKeyed(h, b) && x in {a, b} && o in x.edges
    ensures EdgeKeyed(h, x, o) && EdgeEntry(h, p, x, Remaps(x, s), o) in BothEdges(h, p, a, b, s)
  {
    hide EdgeEntry, EdgeKeyed, AllIds;
    var i :| 0 <= i < |x.edges| && x.edges[i] == o;
    if x == a {
      assert BothEdges(h, p, a, b, s)[i] == EdgeEntry(h, p, x, Remaps(x, s), o);
    } else {
      assert BothEdges(h, p, a, b, s)[|a.edges| + i] == EdgeEntry(h, p, x, Remaps(x, s), o);
    }
  }

  // ----- nodes -----

  /** A node that keeps its payload and a matching list of origins keeps its key. */
  lemma NodeKeyFixed(h: Hashing, x: Value, n: Node, v: Value, m: Node)
    requires h.Valid() && n.id in x.nodeOrigins && m.id == NodeKey(h, x, n)
    requires m.entity == n.entity && m.space == n.space && m.scope == n.scope
    requires m.id in v.nodeOrigins && v.nodeOrigins[m.id] == x.nodeOrigins[n.id]
    ensures NodeKey(h, v, m) == m.id
  {
    hide Unique;
    if x.nodeOrigins[n.id] == [] && !IsDerivedId(h, n.id) {
      var k := h.key(NodeIdTerm(n.id, n.entity, n.space, n.scope));
      assert (DERIVED_NODE + k)[|DERIVED_NODE|..] == k;
      assert DERIVED_NODE <= DERIVED_NODE + k;
    }
  }

  /** The first letter of a key tells whether there are origins behind it. */
  lemma KeyLetter(h: Hashing, x: Value, n: Node)
    requires h.Valid() && n.id in x.nodeOrigins
    ensures NodeKey(h, x, n) != "" && (NodeKey(h, x, n)[0] == 'n' <==> x.nodeOrigins[n.id] != [])
  {
    hide Unique;
    assert DERIVED_NODE[0] == 'd' && "node:"[0] == 'n';
    if IsDerivedId(h, n.id) { assert n.id[0] == DERIVED_NODE[0]; }
  }

  /** What a union knows about the node with a given key. */
  ghost predicate NodeAt(h: Hashing, v: Value, n: Node) {
    h.Valid() && n.id in v.nodeOrigins && NodeKey(h, v, n) == n.id
  }

  lemma NodeParts(h: Hashing, ctx: Context, a: Value, b: Value)
    requires h.Valid() && Unifiable(h, ctx, a, b)
    ensures NodesKeyed(a) && NodesKeyed(b)
    ensures
      var v, s := United(h, ctx, a, b), MergedSchema(h, a.schema, b.schema).value;
      var es := BothNodes(h, ctx.principal, a, b, s);
      && v.nodes == InOrder(Merged(es)) && v.nodeOrigins == Origins(Merged(es))
      && From(Merged(es), es) && Agree(es) && Elements(v.nodes) == Members(es)
  {
    var es := BothNodes(h, ctx.principal, a, b, MergedSchema(h, a.schema, b.schema).value);
    hide MergedSchema, BothNodes, BothEdges, BothAttachments, Merged, InOrder, Members, From;
    MergedFrom(es);
    InOrderMembers(Merged(es), es);
  }

  lemma EdgeParts(h: Hashing, ctx: Context, a: Value, b: Value)
    requires h.Valid() && Unifiable(h, ctx, a, b)
    ensures Keyed(h, a) && Keyed(h, b)
    ensures
      var v, s := United(h, ctx, a, b), MergedSchema(h, a.schema, b.schema).value;
      var es := BothEdges(h, ctx.principal, a, b, s);
      && v.edges == InOrder(Merged(es)) && v.edgeOrigins == Origins(Merged(es))
      && From(Merged(es), es) && Agree(es) && Elements(v.edges) == Members(es)
  {
    var es := BothEdges(h, ctx.principal, a, b, MergedSchema(h, a.schema, b.schema).value);
    hide MergedSchema, BothNodes, BothEdges, BothAttachments, Merged, InOrder, Members, From, EdgesKeyed;
    MergedFrom(es);
    InOrderMembers(Merged(es), es);
  }

  /** The entry that was kept under the key of a given entry. */
  lemma KeptEntry<V>(es: seq<Entry<V>>, m: map<string, Entry<V>>, e: Entry<V>) returns (first: Entry<V>)
    requires From(m, es) && Agree(es) && e in es
    ensures e.key in m && first == m[e.key] && first in es && first.key == e.key && first.value == e.value
    ensures e.value in Members(es)
  {
    var i :| 0 <= i < |es| && es[i] == e;
    first := m[e.key];
    var j :| 0 <= j < |es| && es[j] == first;
    AgreeAt(es, i, j);
  }

  lemma UnionNode(h: Hashing, ctx: Context, a: Value, b: Value, n: Node)
    requires h.Valid() && Unifiable(h, ctx, a, b) && n in United(h, ctx, a, b).nodes
    ensures NodeAt(h, United(h, ctx, a, b), n) && n.readers == [ctx.principal]
  {
    NodeParts(h, ctx, a, b);
    var v, p, s := United(h, ctx, a, b), ctx.principal, MergedSchema(h, a.schema, b.schema).value;
    var es := BothNodes(h, p, a, b, s);
    var m := Merged(es);
    assert n in Elements(v.nodes);
    var i := MemberAt(h, p, a, b, s, n);
    var first := KeptEntry(es, m, es[i]);
    assert v.nodeOrigins[n.id] == first.origins;
    hide Unifiable, United, UnionOf, MergedSchema, BothNodes, Merged, InOrder, NewType, NodeKey, From, Agree, Members,
         Elements, Origins;
    var y, q := NodeSource(h, p, a, b, s, first);
    NodeKeyFixed(h, y, q, v, n);
  }

  /** Every node of the value stands under its own key. */
  ghost predicate Settled(h: Hashing, v: Value) {
    h.Valid() && forall i | 0 <= i < |v.nodes| :: NodeAt(h, v, v.nodes[i])
  }

  lemma {:induction false} SettledPrefix(h: Hashing, v: Value, k: nat)
    requires Settled(h, v) && k <= |v.nodes|
    ensures NodesKeyed(v)
    ensures forall i | 0 <= i < k :: v.nodes[i].id in NodeIds(h, v, k)
    ensures forall id | id in NodeIds(h, v, k) :: NodeIds(h, v, k)[id] == id
  {
    hide NodeKey;
    assert NodesKeyed(v) by { forall i | 0 <= i < |v.nodes| ensures v.nodes[i].id in v.nodeOrigins { assert NodeAt(h, v, v.nodes[i]); } }
    if k > 0 {
      SettledPrefix(h, v, k - 1);
      assert NodeAt(h, v, v.nodes[k - 1]);
    }
  }

  /** Ids already stand for themselves. */
  lemma SettledIds(h: Hashing, v: Value)
    requires Settled(h, v)
    ensures NodesKeyed(v)
    ensures forall i | 0 <= i < |v.nodes| :: v.nodes[i].id in AllIds(h, v)
    ensures forall id | id in AllIds(h, v) :: AllIds(h, v)[id] == id
  {
    SettledPrefix(h, v, |v.nodes|);
  }

  lemma UnionSettled(h: Hashing, ctx: Context, a: Value, b: Value)
    requires h.Valid() && Unifiable(h, ctx, a, b)
    ensures Settled(h, United(h, ctx, a, b))
  {
    hide Unifiable, United, NodeAt;
    var v := United(h, ctx, a, b);
    forall i | 0 <= i < |v.nodes| ensures NodeAt(h, v, v.nodes[i]) { UnionNode(h, ctx, a, b, v.nodes[i]); }
  }

  lemma {:induction false} FirstNodeFound(nodes: seq<Node>, i: nat)
    requires i < |nodes|
    ensures FirstNode(nodes, nodes[i].id).Some?
    ensures FirstNode(nodes, nodes[i].id).value in nodes && FirstNode(nodes, nodes[i].id).value.id == nodes[i].id
  {
    if nodes[0].id != nodes[i].id { FirstNodeFound(nodes[1..], i - 1); }
  }

  lemma {:induction false} FirstNodeId(nodes: seq<Node>, id: string)
    ensures FirstNode(nodes, id).Some? ==> FirstNode(nodes, id).value in nodes && FirstNode(nodes, id).value.id == id
  {
    if nodes != [] && nodes[0].id != id { FirstNodeId(nodes[1..], id); }
  }

  /** A node of an input, as the union keeps it. */
  lemma UnionKeepsNode(h: Hashing, ctx: Context, a: Value, b: Value, x: Value, n: Node)
    requires h.Valid() && Unifiable(h, ctx, a, b) && x in {a, b} && n in x.nodes
    ensures n.id in x.nodeOrigins
    ensures NewNode(h, ctx.principal, x, Remaps(x, MergedSchema(h, a.schema, b.schema).value), n)
              in United(h, ctx, a, b).nodes
    ensures NodeKey(h, x, n) in United(h, ctx, a, b).nodeOrigins
    ensures x.nodeOrigins[n.id] != [] <==> United(h, ctx, a, b).nodeOrigins[NodeKey(h, x, n)] != []
  {
    NodeParts(h, ctx, a, b);
    var v, p, s := United(h, ctx, a, b), ctx.principal, MergedSchema(h, a.schema, b.schema).value;
    var es := BothNodes(h, p, a, b, s);
    var m := Merged(es);
    hide Unifiable, United, UnionOf, MergedSchema, Merged, InOrder, NodeKey, NewNode;
    NodeArrives(h, p, a, b, s, x, n);
    var e := NodeEntry(h, p, x, Remaps(x, s), n);
    var first := KeptEntry(es, m, e);
    assert e.value in Elements(v.nodes) && v.nodeOrigins[e.key] == first.origins;
    hide BothNodes, Agree, From, Members, Elements, Origins;
    var y, q := NodeSource(h, p, a, b, s, first);
    KeyLetter(h, x, n);
    KeyLetter(h, y, q);
  }

  /** Two nodes of a union with one id are the same node. */
  lemma UnionIdUnique(h: Hashing, ctx: Context, a: Value, b: Value, m: Node, n: Node)
    requires h.Valid() && Unifiable(h, ctx, a, b) && m in United(h, ctx, a, b).nodes && n in United(h, ctx, a, b).nodes
    requires m.id == n.id
    ensures m == n
  {
    NodeParts(h, ctx, a, b);
    var v, p, s := United(h, ctx, a, b), ctx.principal, MergedSchema(h, a.schema, b.schema).value;
    var es := BothNodes(h, p, a, b, s);
    assert m in Elements(v.nodes) && n in Elements(v.nodes);
    hide *;
    var i := MemberAt(h, p, a, b, s, m);
    var j := MemberAt(h, p, a, b, s, n);
    AgreeAt(es, i, j);
  }

  lemma AgreeAt<V>(es: seq<Entry<V>>, i: nat, j: nat)
    requires Agree(es) && i < |es| && j < |es| && es[i].key == es[j].key
    ensures es[i].value == es[j].value
  {
  }

  lemma MemberAt(h: Hashing, p: string, a: Value, b: Value, s: Option<Schema>, n: Node) returns (i: nat)
    requires h.Valid() && NodesKeyed(a) && NodesKeyed(b) && n in Members(BothNodes(h, p, a, b, s))
    ensures i < |BothNodes(h, p, a, b, s)|
    ensures BothNodes(h, p, a, b, s)[i].value == n && BothNodes(h, p, a, b, s)[i].key == n.id
  {
    var es := BothNodes(h, p, a, b, s);
    hide BothNodes, NodeKey, NewType;
    i :| 0 <= i < |es| && es[i].value == n;
    var x, o := NodeSource(h, p, a, b, s, es[i]);
  }

  // ----- edges -----

  /** The union finds the endpoint of a synthetic relation again, and it is still grounded. */
  lemma EndpointFixed(h: Hashing, ctx: Context, a: Value, b: Value, x: Value, id: string)
    requires h.Valid() && Unifiable(h, ctx, a, b) && x in {a, b} && EndpointKey(h, x, id).Some?
    ensures
      var k := EndpointKey(h, x, id).value;
      EndpointKey(h, United(h, ctx, a, b), k) == Some(k)
  {
    var v, s := United(h, ctx, a, b), MergedSchema(h, a.schema, b.schema).value;
    var n := FirstNode(x.nodes, id).value;
    hide Unifiable, United, MergedSchema, NodeKey, NewType;
    FirstNodeId(x.nodes, id);
    UnionKeepsNode(h, ctx, a, b, x, n);
    var kept := NewNode(h, ctx.principal, x, Remaps(x, s), n);
    var i :| 0 <= i < |v.nodes| && v.nodes[i] == kept;
    FirstNodeFound(v.nodes, i);
    UnionIdUnique(h, ctx, a, b, kept, FirstNode(v.nodes, kept.id).value);
    UnionNode(h, ctx, a, b, kept);
  }

  lemma TypeNameFixed(h: Hashing, x: Value, s: Option<Schema>, t: Option<string>)
    requires x.schema.Some? ==> s.Some?
    requires x.schema.None? ==> s.None?
    ensures TypeName(h, s, NewType(h, x, Remaps(x, s), t)) == TypeName(h, x.schema, t)
  {
  }

  /** The base keys come in three families that never meet. */
  lemma BaseFamily(h: Hashing, x: Value, e: Edge)
    requires h.Valid() && EdgeKey(h, x, e).Some?
    ensures
      var base := EdgeKey(h, x, e).value;
      && base != ""
      && (base[0] == 's' <==> Synthetic(x, e))
      && (base[0] == 'e' <==> !Synthetic(x, e) && e.derivations == [])
      && (base[0] == 'd' <==> !Synthetic(x, e) && e.derivations != [])
  {
    hide Synthetic, SnapshotKeyed, EndpointKey, TypeName, Unique;
    assert "synthetic-edge:"[0] == 's' && "edge:"[0] == 'e' && "derived:"[0] == 'd';
  }

  /** For every synthetic edge, the first and the last node with an endpoint's id have one key.
      This holds whenever node ids are distinct. */
  ghost predicate EndpointsAgree(h: Hashing, x: Value)
    requires h.Valid() && EdgesKeyed(h, x)
  {
    forall e | e in x.edges && Synthetic(x, e) :: EndpointsMeet(h, x, e)
  }

  ghost predicate EndpointsMeet(h: Hashing, x: Value, e: Edge)
    requires h.Valid() && EdgesKeyed(h, x)
  {
    && e.from in AllIds(h, x) && EndpointKey(h, x, e.from) == Some(AllIds(h, x)[e.from])
    && e.to in AllIds(h, x) && EndpointKey(h, x, e.to) == Some(AllIds(h, x)[e.to])
  }

  /** The edge of the union made from edge `o` of input `x`. */
  function Renewed(h: Hashing, ctx: Context, a: Value, b: Value, x: Value, o: Edge): Edge
    requires h.Valid() && Unifiable(h, ctx, a, b) && NodesKeyed(x) && EdgeKeyed(h, x, o)
  {
    NewEdge(h, ctx.principal, x, Remaps(x, MergedSchema(h, a.schema, b.schema).value), o)
  }

  lemma UnionKeepsEdge(h: Hashing, ctx: Context, a: Value, b: Value, x: Value, o: Edge)
      returns (y: Value, q: Edge)
    requires h.Valid() && Unifiable(h, ctx, a, b) && x in {a, b} && o in x.edges
    ensures EdgesKeyed(h, x) && EdgeKeyed(h, x, o)
    ensures Renewed(h, ctx, a, b, x, o) in United(h, ctx, a, b).edges
    ensures y in {a, b} && q in y.edges && EdgesKeyed(h, y) && EdgeKeyed(h, y, q)
    ensures Renewed(h, ctx, a, b, y, q) == Renewed(h, ctx, a, b, x, o)
    ensures NewEdgeId(h, x, o) == NewEdgeId(h, y, q) && NewEdgeId(h, x, o) in United(h, ctx, a, b).edgeOrigins
    ensures United(h, ctx, a, b).edgeOrigins[NewEdgeId(h, x, o)] == OriginsOf(y.edgeOrigins, q.id)
  {
    EdgeParts(h, ctx, a, b);
    var v, p, s := United(h, ctx, a, b), ctx.principal, MergedSchema(h, a.schema, b.schema).value;
    var es := BothEdges(h, p, a, b, s);
    var m := Merged(es);
    EdgeArrives(h, p, a, b, s, x, o);
    var e := EdgeEntry(h, p, x, Remaps(x, s), o);
    var first := KeptEntry(es, m, e);
    assert e.value in Elements(v.edges) && v.edgeOrigins[e.key] == first.origins;
    hide Unifiable, United, UnionOf, MergedSchema, Merged, InOrder, EdgeKeyed, NewEdge, NewEdgeId, BothEdges, Agree,
         From, Members, Elements, Origins;
    y, q := EdgeSource(h, p, a, b, s, first);
  }

  /** Equal edge ids mean equal base keys and equal endpoints. */
  lemma SameEdgeId(h: Hashing, x: Value, o: Edge, y: Value, q: Edge)
    requires h.Valid() && NodesKeyed(x) && EdgeKeyed(h, x, o) && NodesKeyed(y) && EdgeKeyed(h, y, q)
    requires NewEdgeId(h, x, o) == NewEdgeId(h, y, q)
    ensures EdgeKey(h, x, o) == EdgeKey(h, y, q)
    ensures AllIds(h, x)[o.from] == AllIds(h, y)[q.from] && AllIds(h, x)[o.to] == AllIds(h, y)[q.to]
  {
    hide EdgeKey, AllIds;
    var s := EdgeTerm(EdgeKey(h, x, o).value, AllIds(h, x)[o.from], AllIds(h, x)[o.to]);
    var t := EdgeTerm(EdgeKey(h, y, q).value, AllIds(h, y)[q.from], AllIds(h, y)[q.to]);
    Drop("edge:", h.key(s), h.key(t));
    SameTerm(h, s, t);
  }

  lemma Drop(prefix: string, s: string, t: string)
    requires prefix + s == prefix + t
    ensures s == t
  {
    assert (prefix + s)[|prefix|..] == s && (prefix + t)[|prefix|..] == t;
  }

  /** Same payload: everything an edge's base key looks at, apart from id, endpoints and type. */
  ghost predicate SamePayload(e: Edge, o: Edge) {
    && e.relation == o.relation && e.validTime == o.validTime && e.polarity == o.polarity
    && e.derivedFrom == o.derivedFrom && e.derivations == o.derivations && e.derivedNodes == o.derivedNodes
    && e.derivedSnapshots == o.derivedSnapshots && e.content == o.content && e.metadata == o.metadata
  }

  lemma DerivedFixed(h: Hashing, x: Value, o: Edge, v: Value, e: Edge)
    requires h.Valid() && SamePayload(e, o) && o.derivations != []
    ensures EdgeKey(h, v, e) == EdgeKey(h, x, o)
  {
    hide SnapshotKeyed;
  }

  lemma SourceFixed(h: Hashing, x: Value, o: Edge, v: Value, e: Edge)
    requires h.Valid() && SamePayload(e, o) && o.derivations == [] && !Synthetic(x, o) && EdgeKey(h, x, o).Some?
    requires e.id in v.edgeOrigins && v.edgeOrigins[e.id] == OriginsOf(x.edgeOrigins, o.id)
    ensures EdgeKey(h, v, e) == EdgeKey(h, x, o)
  {
    hide Unique, EndpointKey;
  }

  lemma SyntheticFixed(h: Hashing, x: Value, o: Edge, v: Value, e: Edge)
    requires h.Valid() && SamePayload(e, o) && Synthetic(x, o) && Synthetic(v, e)
    requires EndpointKey(h, x, o.from) == EndpointKey(h, v, e.from) && EndpointKey(h, x, o.to) == EndpointKey(h, v, e.to)
    requires TypeName(h, x.schema, o.typeId) == TypeName(h, v.schema, e.typeId)
    ensures EdgeKey(h, v, e) == EdgeKey(h, x, o)
  {
    hide EndpointKey, TypeName, SnapshotKeyed, Synthetic;
  }

  lemma SchemaPresent(h: Hashing, a: Value, b: Value, x: Value)
    requires MergedSchema(h, a.schema, b.schema).Ok? && x in {a, b}
    ensures x.schema.Some? <==> MergedSchema(h, a.schema, b.schema).value.Some?
  {
    hide NodePairs, EdgePairs, Functional;
  }

  lemma EdgeKeyFixed(h: Hashing, ctx: Context, a: Value, b: Value, x: Value, o: Edge)
    requires h.Valid() && Unifiable(h, ctx, a, b) && x in {a, b} && o in x.edges
    requires EdgesKeyed(h, x) && (Synthetic(x, o) ==> EndpointsMeet(h, x, o))
    ensures EdgeKeyed(h, x, o)
    ensures EdgeKey(h, United(h, ctx, a, b), Renewed(h, ctx, a, b, x, o)) == EdgeKey(h, x, o)
  {
    var v, s := United(h, ctx, a, b), MergedSchema(h, a.schema, b.schema).value;
    assert v.schema == s;
    SchemaPresent(h, a, b, x);
    var y, q := UnionKeepsEdge(h, ctx, a, b, x, o);
    var e := Renewed(h, ctx, a, b, x, o);
    SameEdgeId(h, x, o, y, q);
    BaseFamily(h, x, o);
    BaseFamily(h, y, q);
    assert SamePayload(e, o) && SamePayload(e, q);
    assert e.id == NewEdgeId(h, x, o);
    if o.derivations != [] {
      DerivedFixed(h, x, o, v, e);
    } else if Synthetic(x, o) {
      assert Synthetic(v, e);
      assert EndpointKey(h, x, o.from) == Some(e.from) && EndpointKey(h, x, o.to) == Some(e.to);
      hide *;
      EndpointFixed(h, ctx, a, b, x, o.from);
      EndpointFixed(h, ctx, a, b, x, o.to);
      RenewedType(h, ctx, a, b, x, o);
      SyntheticFixed(h, x, o, v, e);
    } else {
      SourceFixed(h, y, q, v, e);
    }
  }

  lemma RenewedType(h: Hashing, ctx: Context, a: Value, b: Value, x: Value, o: Edge)
    requires h.Valid() && Unifiable(h, ctx, a, b) && x in {a, b} && NodesKeyed(x) && EdgeKeyed(h, x, o)
    ensures TypeName(h, United(h, ctx, a, b).schema, Renewed(h, ctx, a, b, x, o).typeId) == TypeName(h, x.schema, o.typeId)
  {
    var s := MergedSchema(h, a.schema, b.schema).value;
    SchemaPresent(h, a, b, x);
    TypeNameFixed(h, x, s, o.typeId);
    hide NewType, TypeName, MergedSchema, Remaps;
  }

  lemma EndpointSettled(h: Hashing, v: Value, id: string)
    requires Settled(h, v) && EndpointKey(h, v, id).Some?
    ensures EndpointKey(h, v, id) == Some(id)
  {
    hide NodeKey;
    FirstNodeId(v.nodes, id);
    var n := FirstNode(v.nodes, id).value;
    var i :| 0 <= i < |v.nodes| && v.nodes[i] == n;
    assert NodeAt(h, v, v.nodes[i]);
  }

  lemma SyntheticKeyExactly(h: Hashing, ctx: Context, a: Value, b: Value, x: Value, o: Edge)
    requires h.Valid() && Unifiable(h, ctx, a, b) && x in {a, b} && o in x.edges && Synthetic(x, o)
    ensures EdgesKeyed(h, x) && EdgeKeyed(h, x, o)
    ensures EdgeKey(h, United(h, ctx, a, b), Renewed(h, ctx, a, b, x, o)) == EdgeKey(h, x, o)
       <==> EndpointsMeet(h, x, o)
  {
    var y, q := UnionKeepsEdge(h, ctx, a, b, x, o);
    UnionSettled(h, ctx, a, b);
    var v, e := United(h, ctx, a, b), Renewed(h, ctx, a, b, x, o);
    assert e.from == AllIds(h, x)[o.from] && e.to == AllIds(h, x)[o.to] && e.derivedSnapshots == o.derivedSnapshots;
    assert o.from in AllIds(h, x) && o.to in AllIds(h, x);
    BaseFamily(h, x, o);
    hide Unifiable, United, Renewed, AllIds, NodeIds, EdgesKeyed, EdgeKeyed, Settled;
    if EndpointsMeet(h, x, o) { EdgeKeyFixed(h, ctx, a, b, x, o); }
    if EdgeKey(h, v, e) == EdgeKey(h, x, o) {
      BaseFamily(h, v, e);
      hide Synthetic, BothEdges;
      SyntheticParts(h, x, o);
      SyntheticParts(h, v, e);
      EndpointSettled(h, v, e.from);
      EndpointSettled(h, v, e.to);
      TermOfSynthetic(h, EndpointKey(h, x, o.from).value, EndpointKey(h, x, o.to).value,
                      TypeName(h, x.schema, o.typeId), o, EndpointKey(h, v, e.from).value,
                      EndpointKey(h, v, e.to).value, TypeName(h, v.schema, e.typeId), e);
    }
  }

  lemma SyntheticParts(h: Hashing, x: Value, o: Edge)
    requires h.Valid() && Synthetic(x, o) && EdgeKey(h, x, o).Some?
    ensures EndpointKey(h, x, o.from).Some? && EndpointKey(h, x, o.to).Some?
    ensures EdgeKey(h, x, o).value == SyntheticKey(h, EndpointKey(h, x, o.from).value, EndpointKey(h, x, o.to).value,
                                                   TypeName(h, x.schema, o.typeId), o)
  {
    hide EndpointKey, TypeName, SyntheticKey;
  }

  /** Whether the endpoints an edge's key was made from are the endpoints the union gives it. */
  ghost predicate Meets(h: Hashing, x: Value, o: Edge)
    requires h.Valid() && EdgesKeyed(h, x)
  {
    Synthetic(x, o) ==> EndpointsMeet(h, x, o)
  }

  /** The content key of an edge is a fixed point of normalising exactly when its endpoints meet,
      which only a synthetic edge can miss: there the first and the last node with each endpoint
      id must have one key. */
  lemma EdgeKeyExactly(h: Hashing, ctx: Context, a: Value, b: Value, x: Value, o: Edge)
    requires h.Valid() && Unifiable(h, ctx, a, b) && x in {a, b} && o in x.edges
    ensures EdgesKeyed(h, x) && EdgeKeyed(h, x, o)
    ensures EdgeKey(h, United(h, ctx, a, b), Renewed(h, ctx, a, b, x, o)) == EdgeKey(h, x, o) <==> Meets(h, x, o)
  {
    var y, q := UnionKeepsEdge(h, ctx, a, b, x, o);
    hide Unifiable, United, Renewed, EdgesKeyed, EdgeKeyed, EndpointsMeet, Synthetic, EdgeKey;
    if Synthetic(x, o) {
      SyntheticKeyExactly(h, ctx, a, b, x, o);
    } else {
      EdgeKeyFixed(h, ctx, a, b, x, o);
    }
  }

  // ----- ids of a union -----

  /** The last of the first `k` edges with an id. */
  function LastEdge(edges: seq<Edge>, k: nat, id: string): Option<Edge>
    requires k <= |edges|
  {
    if k == 0 then None
    else if edges[k - 1].id == id then Some(edges[k - 1])
    else LastEdge(edges, k - 1, id)
  }

  /** Every id in the map of ids belongs to a node with that key. */
  lemma {:induction false} IdSource(h: Hashing, x: Value, k: nat, id: string) returns (n: Node)
    requires h.Valid() && NodesKeyed(x) && k <= |x.nodes| && id in NodeIds(h, x, k)
    ensures n in x.nodes && n.id in x.nodeOrigins && NodeKey(h, x, n) == NodeIds(h, x, k)[id] && n.id == id
    ensures LastNode(x.nodes, k, id) == Some(n)
  {
    hide NodeKey;
    if x.nodes[k - 1].id == id { n := x.nodes[k - 1]; } else { n := IdSource(h, x, k - 1, id); }
  }

  /** What an id of an input stands for is an id of the union, and stands for itself there. */
  lemma UnionIds(h: Hashing, ctx: Context, a: Value, b: Value, x: Value, id: string)
    requires h.Valid() && Unifiable(h, ctx, a, b) && x in {a, b} && NodesKeyed(x) && id in AllIds(h, x)
    ensures
      var v, k := United(h, ctx, a, b), AllIds(h, x)[id];
      NodesKeyed(v) && k in AllIds(h, v) && AllIds(h, v)[k] == k
  {
    var v := United(h, ctx, a, b);
    UnionSettled(h, ctx, a, b);
    SettledIds(h, v);
    var n := IdSource(h, x, |x.nodes|, id);
    hide Unifiable, United, NodeIds, NodeKey, Settled;
    UnionKeepsNode(h, ctx, a, b, x, n);
    var kept := NewNode(h, ctx.principal, x, Remaps(x, MergedSchema(h, a.schema, b.schema).value), n);
    var i :| 0 <= i < |v.nodes| && v.nodes[i] == kept;
  }

  lemma UnionEdgeSource(h: Hashing, ctx: Context, a: Value, b: Value, e: Edge) returns (x: Value, o: Edge)
    requires h.Valid() && Unifiable(h, ctx, a, b) && e in United(h, ctx, a, b).edges
    ensures x in {a, b} && o in x.edges && EdgesKeyed(h, x) && EdgeKeyed(h, x, o) && e == Renewed(h, ctx, a, b, x, o)
  {
    EdgeParts(h, ctx, a, b);
    var p, s := ctx.principal, MergedSchema(h, a.schema, b.schema).value;
    var es := BothEdges(h, p, a, b, s);
    assert e in Elements(United(h, ctx, a, b).edges);
    hide Unifiable, United, MergedSchema, BothEdges, EdgeKeyed, NewEdge, Merged, InOrder, From, Agree, Elements, Origins;
    var entry := MemberEntry(es, e);
    x, o := EdgeSource(h, p, a, b, s, entry);
  }

  lemma MemberEntry<V>(es: seq<Entry<V>>, v: V) returns (e: Entry<V>)
    requires v in Members(es)
    ensures e in es && e.value == v
  {
    var i :| 0 <= i < |es| && es[i].value == v;
    e := es[i];
  }

  /** Both inputs let their synthetic edges be found again. */
  ghost predicate BothAgree(h: Hashing, a: Value, b: Value)
    requires h.Valid() && EdgesKeyed(h, a) && EdgesKeyed(h, b)
  {
    EndpointsAgree(h, a) && EndpointsAgree(h, b)
  }

  lemma {:induction false} EdgeIdPresent(h: Hashing, x: Value, k: nat, i: nat)
    requires h.Valid() && EdgesKeyed(h, x) && i < k <= |x.edges|
    ensures x.edges[i].id in EdgeIds(h, x, k)
  {
    hide NewEdgeId, EdgeKeyed;
    if i < k - 1 { EdgeIdPresent(h, x, k - 1, i); }
  }

  lemma {:induction false} EdgeIdSource(h: Hashing, x: Value, k: nat, id: string) returns (e: Edge)
    requires h.Valid() && EdgesKeyed(h, x) && k <= |x.edges| && id in EdgeIds(h, x, k)
    ensures e in x.edges && EdgeKeyed(h, x, e) && NewEdgeId(h, x, e) == EdgeIds(h, x, k)[id] && e.id == id
    ensures LastEdge(x.edges, k, id) == Some(e)
  {
    hide NewEdgeId, EdgeKeyed;
    if x.edges[k - 1].id == id { e := x.edges[k - 1]; } else { e := EdgeIdSource(h, x, k - 1, id); }
  }

  // ----- attachments -----

  lemma AttachmentSource(h: Hashing, p: string, a: Value, b: Value, e: Entry<Attachment>)
      returns (x: Value, o: Attachment)
    requires h.Valid() && Keyed(h, a) && Keyed(h, b) && e in BothAttachments(h, p, a, b)
    ensures x in {a, b} && o in x.attachments && EdgesKeyed(h, x) && HostKnown(h, x, o.host)
    ensures e == AttachmentEntry(h, p, x, o)
  {
    hide AttachmentEntry, HostKnown, EdgesKeyed;
    var i :| 0 <= i < |BothAttachments(h, p, a, b)| && BothAttachments(h, p, a, b)[i] == e;
    if i < |a.attachments| { x, o := a, a.attachments[i]; } else { x, o := b, b.attachments[i - |a.attachments|]; }
  }

  /** An attachment's id fixes its whole content and its origins. */
  lemma SameAttachmentId(h: Hashing, p: string, x: Value, o: Attachment, y: Value, q: Attachment)
    requires h.Valid() && EdgesKeyed(h, x) && HostKnown(h, x, o.host) && EdgesKeyed(h, y) && HostKnown(h, y, q.host)
    requires NewAttachment(h, p, x, o).id == NewAttachment(h, p, y, q).id
    ensures NewAttachment(h, p, x, o) == NewAttachment(h, p, y, q)
    ensures OriginsOf(x.attachmentOrigins, o.id) == OriginsOf(y.attachmentOrigins, q.id)
  {
    hide NewHost, HostKnown, EdgesKeyed;
    var s := o.(id := "", host := NewHost(h, x, o.host), readers := [p]);
    var t := q.(id := "", host := NewHost(h, y, q.host), readers := [p]);
    var f, g := OriginsOf(x.attachmentOrigins, o.id), OriginsOf(y.attachmentOrigins, q.id);
    Drop("attachment:", h.key(AttachmentTerm(s, f)), h.key(AttachmentTerm(t, g)));
    SameTerm(h, AttachmentTerm(s, f), AttachmentTerm(t, g));
  }

  lemma AttachmentsAgree(h: Hashing, p: string, a: Value, b: Value)
    requires h.Valid() && Keyed(h, a) && Keyed(h, b)
    ensures Agree(BothAttachments(h, p, a, b))
  {
    var es := BothAttachments(h, p, a, b);
    hide BothAttachments, NewAttachment, HostKnown, EdgesKeyed;
    forall i, j | 0 <= i < |es| && 0 <= j < |es| && es[i].key == es[j].key ensures es[i].value == es[j].value {
      var x, o := AttachmentSource(h, p, a, b, es[i]);
      var y, q := AttachmentSource(h, p, a, b, es[j]);
      SameAttachmentId(h, p, x, o, y, q);
    }
  }

  lemma AttachmentParts(h: Hashing, ctx: Context, a: Value, b: Value)
    requires h.Valid() && Unifiable(h, ctx, a, b)
    ensures Keyed(h, a) && Keyed(h, b)
    ensures
      var v, es := United(h, ctx, a, b), BothAttachments(h, ctx.principal, a, b);
      && v.attachments == InOrder(Merged(es)) && v.attachmentOrigins == Origins(Merged(es))
      && From(Merged(es), es) && Agree(es) && Elements(v.attachments) == Members(es)
  {
    var es := BothAttachments(h, ctx.principal, a, b);
    AttachmentsAgree(h, ctx.principal, a, b);
    hide MergedSchema, BothNodes, BothEdges, BothAttachments, Merged, InOrder, Members, From, EdgesKeyed, Agree;
    MergedFrom(es);
    InOrderMembers(Merged(es), es);
  }

  // ----- what a second normalisation gives an edge -----

  /** The id an edge gets from a second union: a synthetic edge is now keyed by the endpoints the
      first union gave it. */
  function AgainId(h: Hashing, x: Value, o: Edge): string
    requires h.Valid() && NodesKeyed(x) && EdgeKeyed(h, x, o)
  {
    var from, to := AllIds(h, x)[o.from], AllIds(h, x)[o.to];
    if Synthetic(x, o) then EdgeId(h, SyntheticKey(h, from, to, TypeName(h, x.schema, o.typeId), o), from, to)
    else NewEdgeId(h, x, o)
  }

  /** The key of the edge of the union, if it has one there. */
  lemma RenewedKey(h: Hashing, ctx: Context, a: Value, b: Value, x: Value, o: Edge)
    requires h.Valid() && Unifiable(h, ctx, a, b) && x in {a, b} && o in x.edges
    ensures EdgesKeyed(h, x) && EdgeKeyed(h, x, o)
    ensures
      var v, e := United(h, ctx, a, b), Renewed(h, ctx, a, b, x, o);
      && (Synthetic(v, e) <==> Synthetic(x, o))
      && (Synthetic(x, o) && EdgeKey(h, v, e).Some? ==>
            EdgeKey(h, v, e).value == SyntheticKey(h, e.from, e.to, TypeName(h, x.schema, o.typeId), o))
      && (!Synthetic(x, o) ==> EdgeKey(h, v, e) == EdgeKey(h, x, o))
  {
    var v, e := United(h, ctx, a, b), Renewed(h, ctx, a, b, x, o);
    var y, q := UnionKeepsEdge(h, ctx, a, b, x, o);
    SameEdgeId(h, x, o, y, q);
    BaseFamily(h, x, o);
    BaseFamily(h, y, q);
    assert SamePayload(e, o) && SamePayload(e, q);
    assert e.id == NewEdgeId(h, x, o);
    assert Synthetic(v, e) <==> Synthetic(x, o);
    UnionSettled(h, ctx, a, b);
    hide *;
    if Synthetic(x, o) {
      if EdgeKey(h, v, e).Some? {
        SyntheticParts(h, v, e);
        EndpointSettled(h, v, e.from);
        EndpointSettled(h, v, e.to);
        RenewedType(h, ctx, a, b, x, o);
        SameSynthetic(h, e.from, e.to, TypeName(h, x.schema, o.typeId), e, o);
      }
    } else {
      EdgeKeyFixed(h, ctx, a, b, x, o);
    }
  }

  lemma SameSynthetic(h: Hashing, from: string, to: string, t: Option<string>, e: Edge, o: Edge)
    requires SamePayload(e, o)
    ensures SyntheticKey(h, from, to, t, e) == SyntheticKey(h, from, to, t, o)
  {
    hide SnapshotKeyed;
  }

  /** An edge of the union, normalised again: it keeps its endpoints and gets `AgainId`. */
  lemma EdgeAgain(h: Hashing, ctx: Context, a: Value, b: Value, x: Value, o: Edge)
    requires h.Valid() && Unifiable(h, ctx, a, b) && x in {a, b} && o in x.edges && EdgesKeyed(h, x)
    ensures EdgeKeyed(h, x, o) && NodesKeyed(United(h, ctx, a, b))
    ensures
      var v, e := United(h, ctx, a, b), Renewed(h, ctx, a, b, x, o);
      && (EdgeKeyed(h, v, e) <==> EdgeKey(h, v, e).Some?)
      && (EdgeKeyed(h, v, e) ==> NewEdgeId(h, v, e) == AgainId(h, x, o)
                                 && AllIds(h, v)[e.from] == e.from && AllIds(h, v)[e.to] == e.to)
  {
    var v, e := United(h, ctx, a, b), Renewed(h, ctx, a, b, x, o);
    RenewedKey(h, ctx, a, b, x, o);
    assert o.from in AllIds(h, x) && o.to in AllIds(h, x);
    UnionIds(h, ctx, a, b, x, o.from);
    UnionIds(h, ctx, a, b, x, o.to);
    assert e.from == AllIds(h, x)[o.from] && e.to == AllIds(h, x)[o.to];
    hide Unifiable, United, Renewed, AllIds, EdgeKey, Synthetic, SyntheticKey, TypeName;
  }

  lemma TermOfSynthetic(h: Hashing, f: string, t: string, n: Option<string>, e: Edge,
                        g: string, u: string, m: Option<string>, o: Edge)
    requires h.Valid() && SyntheticKey(h, f, t, n, e) == SyntheticKey(h, g, u, m, o)
    ensures f == g && t == u
    ensures forall i, j :: SyntheticKey(h, i, j, n, e) == SyntheticKey(h, i, j, m, o)
  {
    var s := SyntheticTerm(f, t, n, e.relation, e.validTime, e.polarity, e.content, e.metadata, e.derivedNodes);
    var r := SyntheticTerm(g, u, m, o.relation, o.validTime, o.polarity, o.content, o.metadata, o.derivedNodes);
    Drop("synthetic-edge:", SnapshotKeyed(h, s, e.derivedSnapshots), SnapshotKeyed(h, r, o.derivedSnapshots));
    SnapshotKeyedInjective(h, s, e.derivedSnapshots, r, o.derivedSnapshots);
  }

  lemma SnapshotKeyedInjective(h: Hashing, s: Term, e: seq<GraphRef>, r: Term, o: seq<GraphRef>)
    requires h.Valid() && !s.KeyedTerm? && !r.KeyedTerm? && SnapshotKeyed(h, s, e) == SnapshotKeyed(h, r, o)
    ensures s == r && e == o
  {
    var k, l := KeyedTerm(h.key(s), e), KeyedTerm(h.key(r), o);
    SameTerm(h, if e == [] then s else k, if o == [] then r else l);
    SameTerm(h, s, r);
  }

  lemma SyntheticBase(h: Hashing, x: Value, o: Edge)
    requires h.Valid() && EdgesKeyed(h, x) && EdgeKeyed(h, x, o) && Synthetic(x, o)
    ensures EndpointKey(h, x, o.from).Some? && EndpointKey(h, x, o.to).Some?
    ensures EdgeKey(h, x, o) == Some(SyntheticKey(h, EndpointKey(h, x, o.from).value, EndpointKey(h, x, o.to).value,
                                                  TypeName(h, x.schema, o.typeId), o))
    ensures Meets(h, x, o) <==> EndpointKey(h, x, o.from).value == AllIds(h, x)[o.from]
                                && EndpointKey(h, x, o.to).value == AllIds(h, x)[o.to]
  {
    hide EndpointKey, TypeName, SyntheticKey, AllIds, Synthetic;
  }

  lemma IdParts(h: Hashing, k: string, f: string, t: string, l: string, g: string, u: string)
    requires h.Valid() && EdgeId(h, k, f, t) == EdgeId(h, l, g, u)
    ensures k == l && f == g && t == u
  {
    Drop("edge:", h.key(EdgeTerm(k, f, t)), h.key(EdgeTerm(l, g, u)));
    SameTerm(h, EdgeTerm(k, f, t), EdgeTerm(l, g, u));
  }

  /** An edge's first id determines its second. */
  lemma AgainDetermined(h: Hashing, x: Value, o: Edge, y: Value, q: Edge)
    requires h.Valid() && EdgesKeyed(h, x) && EdgeKeyed(h, x, o) && EdgesKeyed(h, y) && EdgeKeyed(h, y, q)
    requires NewEdgeId(h, x, o) == NewEdgeId(h, y, q)
    ensures AgainId(h, x, o) == AgainId(h, y, q)
  {
    SameEdgeId(h, x, o, y, q);
    BaseFamily(h, x, o);
    BaseFamily(h, y, q);
    if Synthetic(x, o) {
      SyntheticBase(h, x, o);
      SyntheticBase(h, y, q);
      hide *;
      TermOfSynthetic(h, EndpointKey(h, x, o.from).value, EndpointKey(h, x, o.to).value,
                      TypeName(h, x.schema, o.typeId), o, EndpointKey(h, y, q.from).value,
                      EndpointKey(h, y, q.to).value, TypeName(h, y.schema, q.typeId), q);
      AgainSynthetic(h, x, o);
      AgainSynthetic(h, y, q);
    }
  }

  lemma AgainSynthetic(h: Hashing, x: Value, o: Edge)
    requires h.Valid() && NodesKeyed(x) && EdgeKeyed(h, x, o) && Synthetic(x, o)
    ensures AgainId(h, x, o) == EdgeId(h, SyntheticKey(h, AllIds(h, x)[o.from], AllIds(h, x)[o.to],
                                                       TypeName(h, x.schema, o.typeId), o),
                                       AllIds(h, x)[o.from], AllIds(h, x)[o.to])
  {
    hide SyntheticKey, AllIds, TypeName, Synthetic;
  }

  /** Only an edge whose endpoints meet has the id that a second union gives any edge. */
  lemma AgainMeets(h: Hashing, x: Value, o: Edge, y: Value, q: Edge)
    requires h.Valid() && EdgesKeyed(h, x) && EdgeKeyed(h, x, o) && EdgesKeyed(h, y) && EdgeKeyed(h, y, q)
    requires AgainId(h, y, q) == NewEdgeId(h, x, o)
    ensures Meets(h, x, o)
  {
    if Synthetic(x, o) {
      SyntheticBase(h, x, o);
      BaseFamily(h, x, o);
      BaseFamily(h, y, q);
      if Synthetic(y, q) {
        hide *;
        AgainSynthetic(h, y, q);
        NewIdParts(h, x, o);
        IdParts(h, SyntheticKey(h, AllIds(h, y)[q.from], AllIds(h, y)[q.to], TypeName(h, y.schema, q.typeId), q),
                AllIds(h, y)[q.from], AllIds(h, y)[q.to], EdgeKey(h, x, o).value, AllIds(h, x)[o.from], AllIds(h, x)[o.to]);
        TermOfSynthetic(h, AllIds(h, y)[q.from], AllIds(h, y)[q.to], TypeName(h, y.schema, q.typeId), q,
                        EndpointKey(h, x, o.from).value, EndpointKey(h, x, o.to).value,
                        TypeName(h, x.schema, o.typeId), o);
      } else {
        SameEdgeId(h, x, o, y, q);
      }
    }
  }

  lemma NewIdParts(h: Hashing, x: Value, o: Edge)
    requires h.Valid() && NodesKeyed(x) && EdgeKeyed(h, x, o)
    ensures o.from in AllIds(h, x) && o.to in AllIds(h, x) && EdgeKey(h, x, o).Some?
    ensures NewEdgeId(h, x, o) == EdgeId(h, EdgeKey(h, x, o).value, AllIds(h, x)[o.from], AllIds(h, x)[o.to])
  {
    hide EdgeKey, AllIds;
  }

  /** A second union keeps the id of an edge exactly when its endpoints meet. */
  lemma AgainExactly(h: Hashing, x: Value, o: Edge)
    requires h.Valid() && EdgesKeyed(h, x) && EdgeKeyed(h, x, o)
    ensures AgainId(h, x, o) == NewEdgeId(h, x, o) <==> Meets(h, x, o)
  {
    KeyedParts(h, x);
    hide *;
    if AgainId(h, x, o) == NewEdgeId(h, x, o) { AgainMeets(h, x, o, x, o); }
    if Synthetic(x, o) && Meets(h, x, o) {
      SyntheticBase(h, x, o);
      AgainSynthetic(h, x, o);
      NewIdParts(h, x, o);
    }
    PlainAgain(h, x, o);
  }

  lemma PlainAgain(h: Hashing, x: Value, o: Edge)
    requires h.Valid() && EdgesKeyed(h, x) && EdgeKeyed(h, x, o)
    ensures !Synthetic(x, o) ==> AgainId(h, x, o) == NewEdgeId(h, x, o) && Meets(h, x, o)
  {
    hide NewEdgeId, SyntheticKey, AllIds;
  }

  // ----- what a second normalisation gives an attachment -----

  /** The second id of the edge that an id stands for; a later edge with the same id wins. */
  function AgainIds(h: Hashing, x: Value, id: string): string
    requires h.Valid() && EdgesKeyed(h, x) && id in AllEdgeIds(h, x)
  {
    LastEdgeKeyed(h, x, id);
    AgainId(h, x, LastEdge(x.edges, |x.edges|, id).value)
  }

  lemma LastEdgeKeyed(h: Hashing, x: Value, id: string)
    requires h.Valid() && EdgesKeyed(h, x) && id in AllEdgeIds(h, x)
    ensures
      var e := LastEdge(x.edges, |x.edges|, id);
      e.Some? && EdgeKeyed(h, x, e.value)
  {
    hide EdgeKeyed;
    var e := EdgeIdSource(h, x, |x.edges|, id);
  }

  function AgainHost(h: Hashing, x: Value, host: Host): Host
    requires h.Valid() && EdgesKeyed(h, x) && HostKnown(h, x, host)
  {
    match host
    case OnEdge(id) => OnEdge(AgainIds(h, x, id))
    case OnAssertion(id) => OnAssertion(AgainIds(h, x, id))
    case _ => NewHost(h, x, host)
  }

  function AgainAttachment(h: Hashing, p: string, x: Value, t: Attachment): Attachment
    requires h.Valid() && EdgesKeyed(h, x) && HostKnown(h, x, t.host)
  {
    var bare := t.(id := "", host := AgainHost(h, x, t.host), readers := [p]);
    bare.(id := "attachment:" + h.key(AttachmentTerm(bare, OriginsOf(x.attachmentOrigins, t.id))))
  }

  lemma AgainIdOf(h: Hashing, x: Value, id: string) returns (o: Edge)
    requires h.Valid() && EdgesKeyed(h, x) && id in AllEdgeIds(h, x)
    ensures o in x.edges && EdgeKeyed(h, x, o)
    ensures NewEdgeId(h, x, o) == AllEdgeIds(h, x)[id] && AgainId(h, x, o) == AgainIds(h, x, id)
  {
    hide AgainId, NewEdgeId, EdgeKeyed;
    o := EdgeIdSource(h, x, |x.edges|, id);
  }

  /** The id of an edge in the union stands for its second id there. */
  lemma UnionEdgeId(h: Hashing, ctx: Context, a: Value, b: Value, x: Value, id: string)
    requires h.Valid() && Unifiable(h, ctx, a, b) && x in {a, b} && EdgesKeyed(h, x) && id in AllEdgeIds(h, x)
    requires EdgesKeyed(h, United(h, ctx, a, b))
    ensures
      var v, k := United(h, ctx, a, b), AllEdgeIds(h, x)[id];
      k in AllEdgeIds(h, v) && AllEdgeIds(h, v)[k] == AgainIds(h, x, id)
  {
    hide *;
    KeyedParts(h, x);
    var v, k := United(h, ctx, a, b), AllEdgeIds(h, x)[id];
    var o := AgainIdOf(h, x, id);
    var y, q := UnionKeepsEdge(h, ctx, a, b, x, o);
    RenewedId(h, ctx, a, b, x, o);
    var i :| 0 <= i < |v.edges| && v.edges[i] == Renewed(h, ctx, a, b, x, o);
    EdgeIdPresent(h, v, |v.edges|, i);
    AllEdgeIdsAre(h, v);
    var e := EdgeIdSource(h, v, |v.edges|, k);
    var z, r := UnionEdgeSource(h, ctx, a, b, e);
    KeyedParts(h, z);
    RenewedId(h, ctx, a, b, z, r);
    EdgeAgain(h, ctx, a, b, z, r);
    AgainDetermined(h, x, o, z, r);
  }

  lemma AllEdgeIdsAre(h: Hashing, x: Value)
    requires h.Valid() && EdgesKeyed(h, x)
    ensures AllEdgeIds(h, x) == EdgeIds(h, x, |x.edges|)
  {
  }

  lemma RenewedId(h: Hashing, ctx: Context, a: Value, b: Value, x: Value, o: Edge)
    requires h.Valid() && Unifiable(h, ctx, a, b) && NodesKeyed(x) && EdgeKeyed(h, x, o)
    ensures Renewed(h, ctx, a, b, x, o).id == NewEdgeId(h, x, o)
  {
    hide Unifiable, NewEdgeId, EdgeKeyed;
  }

  lemma HostAgain(h: Hashing, ctx: Context, a: Value, b: Value, x: Value, host: Host)
    requires h.Valid() && Unifiable(h, ctx, a, b) && x in {a, b} && EdgesKeyed(h, x) && HostKnown(h, x, host)
    requires EdgesKeyed(h, United(h, ctx, a, b))
    ensures HostKnown(h, United(h, ctx, a, b), NewHost(h, x, host))
    ensures NewHost(h, United(h, ctx, a, b), NewHost(h, x, host)) == AgainHost(h, x, host)
  {
    hide Unifiable, United, AllIds, AllEdgeIds, AgainIds;
    match host
    case OnNode(id) => UnionIds(h, ctx, a, b, x, id);
    case OnEdge(id) => UnionEdgeId(h, ctx, a, b, x, id);
    case OnAssertion(id) => UnionEdgeId(h, ctx, a, b, x, id);
    case _ =>
  }

  /** An attachment of the union, normalised again. */
  lemma AttachmentAgain(h: Hashing, ctx: Context, a: Value, b: Value, x: Value, o: Attachment)
    requires h.Valid() && Unifiable(h, ctx, a, b) && x in {a, b} && o in x.attachments
    requires EdgesKeyed(h, x) && HostKnown(h, x, o.host) && EdgesKeyed(h, United(h, ctx, a, b))
    ensures
      var v, p, t := United(h, ctx, a, b), ctx.principal, NewAttachment(h, ctx.principal, x, o);
      && t in v.attachments && HostKnown(h, v, t.host)
      && NewAttachment(h, p, v, t) == AgainAttachment(h, p, x, o)
  {
    AttachmentParts(h, ctx, a, b);
    var v, p, es := United(h, ctx, a, b), ctx.principal, BothAttachments(h, ctx.principal, a, b);
    var t := NewAttachment(h, p, x, o);
    AttachmentArrives(h, p, a, b, x, o);
    var first := KeptEntry(es, Merged(es), AttachmentEntry(h, p, x, o));
    assert t in Elements(v.attachments) && OriginsOf(v.attachmentOrigins, t.id) == first.origins;
    hide Unifiable, United, MergedSchema, BothAttachments, HostKnown, Merged, InOrder, From, Agree, Elements, Origins,
         EdgesKeyed, Members, NewHost, AgainHost;
    var y, q := AttachmentSource(h, p, a, b, first);
    SameAttachmentId(h, p, x, o, y, q);
    HostAgain(h, ctx, a, b, x, o.host);
  }

  lemma AttachmentArrives(h: Hashing, p: string, a: Value, b: Value, x: Value, o: Attachment)
    requires h.Valid() && Keyed(h, a) && Keyed(h, b) && x in {a, b} && o in x.attachments
    ensures EdgesKeyed(h, x) && HostKnown(h, x, o.host)
    ensures AttachmentEntry(h, p, x, o) in BothAttachments(h, p, a, b)
  {
    hide AttachmentEntry, HostKnown, EdgesKeyed;
    var i :| 0 <= i < |x.attachments| && x.attachments[i] == o;
    if x == a {
      assert BothAttachments(h, p, a, b)[i] == AttachmentEntry(h, p, x, o);
    } else {
      assert BothAttachments(h, p, a, b)[|a.attachments| + i] == AttachmentEntry(h, p, x, o);
    }
  }

  lemma HostDetermined(h: Hashing, x: Value, s: Host, y: Value, t: Host)
    requires h.Valid() && EdgesKeyed(h, x) && HostKnown(h, x, s) && EdgesKeyed(h, y) && HostKnown(h, y, t)
    ensures NewHost(h, x, s) == NewHost(h, y, t) ==> AgainHost(h, x, s) == AgainHost(h, y, t)
    ensures AgainHost(h, y, t) == NewHost(h, x, s) ==> AgainHost(h, x, s) == NewHost(h, x, s)
  {
    hide EdgesKeyed, AllIds, AllEdgeIds, AgainIds;
    if (s.OnEdge? && t.OnEdge?) || (s.OnAssertion? && t.OnAssertion?) {
      var i, j := if s.OnEdge? then s.edge else s.assertion, if t.OnEdge? then t.edge else t.assertion;
      EdgeHostDetermined(h, x, i, y, j);
    }
  }

  lemma EdgeHostDetermined(h: Hashing, x: Value, i: string, y: Value, j: string)
    requires h.Valid() && EdgesKeyed(h, x) && i in AllEdgeIds(h, x) && EdgesKeyed(h, y) && j in AllEdgeIds(h, y)
    ensures AllEdgeIds(h, x)[i] == AllEdgeIds(h, y)[j] ==> AgainIds(h, x, i) == AgainIds(h, y, j)
    ensures AgainIds(h, y, j) == AllEdgeIds(h, x)[i] ==> AgainIds(h, x, i) == AllEdgeIds(h, x)[i]
  {
    hide *;
    var o := AgainIdOf(h, x, i);
    var q := AgainIdOf(h, y, j);
    if AllEdgeIds(h, x)[i] == AllEdgeIds(h, y)[j] { AgainDetermined(h, x, o, y, q); }
    if AgainIds(h, y, j) == AllEdgeIds(h, x)[i] {
      AgainMeets(h, x, o, y, q);
      AgainExactly(h, x, o);
    }
  }

  lemma AttachmentDetermined(h: Hashing, p: string, x: Value, o: Attachment, y: Value, q: Attachment)
    requires h.Valid() && EdgesKeyed(h, x) && HostKnown(h, x, o.host) && EdgesKeyed(h, y) && HostKnown(h, y, q.host)
    ensures NewAttachment(h, p, x, o) == NewAttachment(h, p, y, q) ==>
              AgainAttachment(h, p, x, o) == AgainAttachment(h, p, y, q)
    ensures AgainAttachment(h, p, y, q) == NewAttachment(h, p, x, o) ==>
              AgainAttachment(h, p, x, o) == NewAttachment(h, p, x, o)
  {
    hide NewHost, HostKnown, EdgesKeyed, AgainHost;
    HostDetermined(h, x, o.host, y, q.host);
    if NewAttachment(h, p, x, o) == NewAttachment(h, p, y, q) { SameAttachmentId(h, p, x, o, y, q); }
  }

  /** A second union keeps an attachment exactly when it keeps its host. */
  lemma AttachmentKept(h: Hashing, p: string, x: Value, o: Attachment)
    requires h.Valid() && EdgesKeyed(h, x) && HostKnown(h, x, o.host)
    ensures AgainAttachment(h, p, x, o) == NewAttachment(h, p, x, o) <==> AgainHost(h, x, o.host) == NewHost(h, x, o.host)
  {
    hide NewHost, HostKnown, EdgesKeyed, AgainHost;
    assert NewAttachment(h, p, x, o).host == NewHost(h, x, o.host);
    assert AgainAttachment(h, p, x, o).host == AgainHost(h, x, o.host);
  }

  // ----- when a union can be united again -----

  /** The node an endpoint is renamed to is grounded, as the key of a synthetic edge demands. */
  ghost predicate LastGrounded(x: Value, id: string) {
    var n := LastNode(x.nodes, |x.nodes|, id);
    n.Some? && Grounded(x, n.value)
  }

  /** Every synthetic edge ends, after renaming, at grounded nodes. */
  ghost predicate Regrounded(x: Value) {
    forall o | o in x.edges && Synthetic(x, o) :: LastGrounded(x, o.from) && LastGrounded(x, o.to)
  }

  lemma GroundedAgain(h: Hashing, ctx: Context, a: Value, b: Value, x: Value, id: string)
    requires h.Valid() && Unifiable(h, ctx, a, b) && x in {a, b} && NodesKeyed(x) && id in AllIds(h, x)
    ensures EndpointKey(h, United(h, ctx, a, b), AllIds(h, x)[id]).Some? <==> LastGrounded(x, id)
  {
    var v, s := United(h, ctx, a, b), MergedSchema(h, a.schema, b.schema).value;
    var n := IdSource(h, x, |x.nodes|, id);
    hide Unifiable, United, MergedSchema, NodeKey, NewType, NodeIds, AllIds, Grounded, EndpointKey;
    UnionKeepsNode(h, ctx, a, b, x, n);
    var kept := NewNode(h, ctx.principal, x, Remaps(x, s), n);
    var i :| 0 <= i < |v.nodes| && v.nodes[i] == kept;
    FirstNodeFound(v.nodes, i);
    UnionIdUnique(h, ctx, a, b, kept, FirstNode(v.nodes, kept.id).value);
    assert FirstNode(v.nodes, kept.id) == Some(kept);
    EndpointSome(h, v, kept.id);
    SameGrounds(h, x, n, v, kept);
  }

  lemma EndpointSome(h: Hashing, x: Value, id: string)
    requires h.Valid()
    ensures EndpointKey(h, x, id).Some? <==>
              var n := FirstNode(x.nodes, id);
              n.Some? && Grounded(x, n.value) && n.value.id in x.nodeOrigins
  {
    hide NodeKey, Grounded;
  }

  lemma SameGrounds(h: Hashing, x: Value, n: Node, v: Value, m: Node)
    requires n.id in x.nodeOrigins && m.id in v.nodeOrigins
    requires x.nodeOrigins[n.id] != [] <==> v.nodeOrigins[m.id] != []
    requires m.derivedFrom == n.derivedFrom && m.derivedNodes == n.derivedNodes
    requires m.derivedSnapshots == n.derivedSnapshots
    ensures Grounded(v, m) <==> Grounded(x, n)
  {
  }

  lemma EdgeKeyedAgain(h: Hashing, ctx: Context, a: Value, b: Value, x: Value, o: Edge)
    requires h.Valid() && Unifiable(h, ctx, a, b) && x in {a, b} && o in x.edges && EdgesKeyed(h, x)
    ensures EdgeKeyed(h, x, o) && NodesKeyed(United(h, ctx, a, b))
    ensures EdgeKeyed(h, United(h, ctx, a, b), Renewed(h, ctx, a, b, x, o))
       <==> (Synthetic(x, o) ==> LastGrounded(x, o.from) && LastGrounded(x, o.to))
  {
    hide *;
    KeyedParts(h, x);
    EdgeAgain(h, ctx, a, b, x, o);
    RenewedKey(h, ctx, a, b, x, o);
    NewIdParts(h, x, o);
    RenewedEnds(h, ctx, a, b, x, o);
    if Synthetic(x, o) {
      GroundedAgain(h, ctx, a, b, x, o.from);
      GroundedAgain(h, ctx, a, b, x, o.to);
      SyntheticSome(h, United(h, ctx, a, b), Renewed(h, ctx, a, b, x, o));
    }
  }

  lemma RenewedEnds(h: Hashing, ctx: Context, a: Value, b: Value, x: Value, o: Edge)
    requires h.Valid() && Unifiable(h, ctx, a, b) && NodesKeyed(x) && EdgeKeyed(h, x, o)
    ensures Renewed(h, ctx, a, b, x, o).from == AllIds(h, x)[o.from]
    ensures Renewed(h, ctx, a, b, x, o).to == AllIds(h, x)[o.to]
  {
    hide Unifiable, NewEdgeId, AllIds;
  }

  lemma SyntheticSome(h: Hashing, x: Value, o: Edge)
    requires h.Valid() && Synthetic(x, o)
    ensures EdgeKey(h, x, o).Some? <==> EndpointKey(h, x, o.from).Some? && EndpointKey(h, x, o.to).Some?
  {
    hide EndpointKey, TypeName, SyntheticKey;
  }

  /** A union has keys for all its members, and so can be united again, exactly when every
      synthetic edge of the inputs is renamed to grounded endpoints. */
  lemma UnionKeyedExactly(h: Hashing, ctx: Context, a: Value, b: Value)
    requires h.Valid() && Unifiable(h, ctx, a, b)
    ensures Keyed(h, United(h, ctx, a, b)) <==> Regrounded(a) && Regrounded(b)
  {
    var v := United(h, ctx, a, b);
    EdgeParts(h, ctx, a, b);
    UnionSettled(h, ctx, a, b);
    SettledIds(h, v);
    hide Unifiable, United, Renewed, EdgeKeyed, LastGrounded, Synthetic, Settled, HostKnown;
    if Keyed(h, v) {
      forall x, o | x in {a, b} && o in x.edges && Synthetic(x, o)
        ensures LastGrounded(x, o.from) && LastGrounded(x, o.to)
      {
        var y, q := UnionKeepsEdge(h, ctx, a, b, x, o);
        EdgeKeyedAgain(h, ctx, a, b, x, o);
      }
    }
    if Regrounded(a) && Regrounded(b) {
      forall i | 0 <= i < |v.edges| ensures EdgeKeyed(h, v, v.edges[i]) {
        var x, o := UnionEdgeSource(h, ctx, a, b, v.edges[i]);
        EdgeKeyedAgain(h, ctx, a, b, x, o);
      }
      UnionHosts(h, ctx, a, b);
    }
  }

  lemma UnionHosts(h: Hashing, ctx: Context, a: Value, b: Value)
    requires h.Valid() && Unifiable(h, ctx, a, b) && EdgesKeyed(h, United(h, ctx, a, b))
    ensures Keyed(h, United(h, ctx, a, b))
  {
    var v, es := United(h, ctx, a, b), BothAttachments(h, ctx.principal, a, b);
    AttachmentParts(h, ctx, a, b);
    hide Unifiable, United, BothAttachments, HostKnown, Merged, InOrder, From, Agree, EdgesKeyed, NewHost;
    forall i | 0 <= i < |v.attachments| ensures HostKnown(h, v, v.attachments[i].host) {
      assert v.attachments[i] in Elements(v.attachments);
      var entry := MemberEntry(es, v.attachments[i]);
      var x, o := AttachmentSource(h, ctx.principal, a, b, entry);
      HostAgain(h, ctx, a, b, x, o.host);
    }
  }

  /** In a union that has keys for all its edges, endpoints always meet: nothing is left for a
      third normalisation to change. */
  lemma UnionMeets(h: Hashing, ctx: Context, a: Value, b: Value)
    requires h.Valid() && Unifiable(h, ctx, a, b) && EdgesKeyed(h, United(h, ctx, a, b))
    ensures EndpointsAgree(h, United(h, ctx, a, b))
  {
    var v := United(h, ctx, a, b);
    UnionSettled(h, ctx, a, b);
    SettledIds(h, v);
    hide Unifiable, United, Settled, Synthetic, AllIds, EndpointKey;
    forall e | e in v.edges && Synthetic(v, e) ensures EndpointsMeet(h, v, e) {
      var i :| 0 <= i < |v.edges| && v.edges[i] == e;
      assert EdgeKeyed(h, v, v.edges[i]);
      SyntheticParts(h, v, e);
      EndpointSettled(h, v, e.from);
      EndpointSettled(h, v, e.to);
    }
  }
}
