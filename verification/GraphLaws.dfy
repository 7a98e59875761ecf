/** Union is a semilattice on graph content: commutative always, associative and idempotent
    exactly when no synthetic edge changes its key on the way. Origins are left out of the
    comparison: the first member with a key keeps its own, so they follow the order of the
    arguments. Every law compares what members become after one union with what they become
    after two, and a list of members in key order is determined by the set of them. */
module GraphLaws {
  import opened Orders
  import opened Restrictions
  import opened GraphValues
  import opened GraphUnion
  import opened GraphRenewal

  /** The same nodes, edges, attachments and schema, in the same order. */
  ghost predicate SameGraph(v: Value, w: Value) {
    v.nodes == w.nodes && v.edges == w.edges && v.attachments == w.attachments && v.schema == w.schema
  }

  // ----- content as sets -----

  function Nodes(h: Hashing, p: string, x: Value, remap: bool): set<Node>
    requires h.Valid() && NodesKeyed(x)
  {
    Members(NodeEntries(h, p, x, remap))
  }

  function Edges(h: Hashing, p: string, x: Value, remap: bool): set<Edge>
    requires h.Valid() && EdgesKeyed(h, x)
  {
    Members(EdgeEntries(h, p, x, remap))
  }

  function Attachments(h: Hashing, p: string, x: Value): set<Attachment>
    requires h.Valid() && Keyed(h, x)
  {
    Members(AttachmentEntries(h, p, x))
  }

  lemma MembersConcat<V>(p: seq<Entry<V>>, q: seq<Entry<V>>)
    ensures Members(p + q) == Members(p) + Members(q)
  {
    forall v ensures v in Members(p + q) <==> v in Members(p) + Members(q) {
      if v in Members(p) { var i :| 0 <= i < |p| && p[i].value == v; assert (p + q)[i] == p[i]; }
      if v in Members(q) { var i :| 0 <= i < |q| && q[i].value == v; assert (p + q)[|p| + i] == q[i]; }
    }
  }

  lemma NodesContain(h: Hashing, p: string, x: Value, remap: bool, n: Node)
    requires h.Valid() && NodesKeyed(x)
    ensures n in Nodes(h, p, x, remap) <==>
            exists o :: o in x.nodes && o.id in x.nodeOrigins && n == NewNode(h, p, x, remap, o)
  {
    hide NewNode, NodeKey;
    var es := NodeEntries(h, p, x, remap);
    if n in Members(es) {
      var i :| 0 <= i < |es| && es[i].value == n;
      assert x.nodes[i] in x.nodes;
    }
    if o :| o in x.nodes && o.id in x.nodeOrigins && n == NewNode(h, p, x, remap, o) {
      var i :| 0 <= i < |x.nodes| && x.nodes[i] == o;
      assert es[i].value == n;
    }
  }

  lemma EdgesContain(h: Hashing, p: string, x: Value, remap: bool, e: Edge)
    requires h.Valid() && EdgesKeyed(h, x)
    ensures e in Edges(h, p, x, remap) <==>
            exists o :: o in x.edges && EdgeKeyed(h, x, o) && e == NewEdge(h, p, x, remap, o)
  {
    hide NewEdge, EdgeKeyed, NewEdgeId;
    var es := EdgeEntries(h, p, x, remap);
    if e in Members(es) {
      var i :| 0 <= i < |es| && es[i].value == e;
      assert x.edges[i] in x.edges;
    }
    if o :| o in x.edges && EdgeKeyed(h, x, o) && e == NewEdge(h, p, x, remap, o) {
      var i :| 0 <= i < |x.edges| && x.edges[i] == o;
      assert es[i].value == e;
    }
  }

  lemma AttachmentsContain(h: Hashing, p: string, x: Value, t: Attachment)
    requires h.Valid() && Keyed(h, x)
    ensures t in Attachments(h, p, x) <==>
            exists o :: o in x.attachments && HostKnown(h, x, o.host) && t == NewAttachment(h, p, x, o)
  {
    hide NewAttachment, HostKnown, EdgesKeyed;
    var es := AttachmentEntries(h, p, x);
    if t in Members(es) {
      var i :| 0 <= i < |es| && es[i].value == t;
      assert x.attachments[i] in x.attachments;
    }
    if o :| o in x.attachments && HostKnown(h, x, o.host) && t == NewAttachment(h, p, x, o) {
      var i :| 0 <= i < |x.attachments| && x.attachments[i] == o;
      assert es[i].value == t;
    }
  }

  /** The members of a union, before the question which type names were rewritten. */
  lemma RawContent(h: Hashing, ctx: Context, a: Value, b: Value)
    requires h.Valid() && Unifiable(h, ctx, a, b)
    ensures Keyed(h, a) && Keyed(h, b)
    ensures
      var v, p, s := United(h, ctx, a, b), ctx.principal, MergedSchema(h, a.schema, b.schema).value;
      && Elements(v.nodes) == Nodes(h, p, a, Remaps(a, s)) + Nodes(h, p, b, Remaps(b, s))
      && Elements(v.edges) == Edges(h, p, a, Remaps(a, s)) + Edges(h, p, b, Remaps(b, s))
      && Elements(v.attachments) == Attachments(h, p, a) + Attachments(h, p, b)
  {
    var p, s := ctx.principal, MergedSchema(h, a.schema, b.schema).value;
    NodeParts(h, ctx, a, b);
    EdgeParts(h, ctx, a, b);
    AttachmentParts(h, ctx, a, b);
    hide Unifiable, United, MergedSchema, NodeEntries, EdgeEntries, AttachmentEntries, Members, Elements, Remaps,
         EdgesKeyed, NodesKeyed, From, Agree, Merged, InOrder, Origins;
    KeyedParts(h, a);
    KeyedParts(h, b);
    MembersConcat(NodeEntries(h, p, a, Remaps(a, s)), NodeEntries(h, p, b, Remaps(b, s)));
    MembersConcat(EdgeEntries(h, p, a, Remaps(a, s)), EdgeEntries(h, p, b, Remaps(b, s)));
    MembersConcat(AttachmentEntries(h, p, a), AttachmentEntries(h, p, b));
  }

  // ----- schemas -----

  /** Only canonical names. */
  ghost predicate CanonicalPairs(ns: set<(string, Json)>, es: set<(string, EdgeType)>) {
    && (forall n | n in ns :: TYPE_PREFIX <= n.0)
    && (forall e | e in es :: TYPE_PREFIX <= e.0 && TYPE_PREFIX <= e.1.fromType && TYPE_PREFIX <= e.1.toType)
  }

  lemma PairsCanonical(h: Hashing, s: Schema)
    ensures CanonicalPairs(NodePairs(h, s), EdgePairs(h, s))
  {
    forall id ensures TYPE_PREFIX <= TypeKey(h, s, id) { TypeKeyFixed(h, s, id, s); }
    hide TypeKey;
  }

  /** A merged schema is already canonical: merging it again adds the same definitions. */
  lemma BundlePairs(h: Hashing, ns: set<(string, Json)>, es: set<(string, EdgeType)>)
    requires Functional(ns) && Functional(es) && CanonicalPairs(ns, es)
    ensures NodePairs(h, Bundle(h, ns, es)) == ns && EdgePairs(h, Bundle(h, ns, es)) == es
  {
    var s := Bundle(h, ns, es);
    forall n | n in ns ensures n in NodePairs(h, s) { assert n.0 in s.nodes && TypeKey(h, s, n.0) == n.0; }
    forall e | e in es ensures e in EdgePairs(h, s) {
      assert e.0 in s.edges && TypeKey(h, s, e.0) == e.0 && Retyped(h, s, e.1) == e.1;
    }
    forall n | n in NodePairs(h, s) ensures n in ns {
      var id :| id in s.nodes && n == (TypeKey(h, s, id), s.nodes[id]);
      assert TypeKey(h, s, id) == id;
    }
    forall e | e in EdgePairs(h, s) ensures e in es {
      var id :| id in s.edges && e == (TypeKey(h, s, id), Retyped(h, s, s.edges[id]));
      assert TypeKey(h, s, id) == id;
      assert (id, s.edges[id]) in es;
    }
  }

  lemma SchemaCommutes(h: Hashing, a: Option<Schema>, b: Option<Schema>)
    ensures MergedSchema(h, a, b).Ok? <==> MergedSchema(h, b, a).Ok?
    ensures MergedSchema(h, a, b).Ok? ==> MergedSchema(h, a, b) == MergedSchema(h, b, a)
  {
    hide NodePairs, EdgePairs, Functional, AsMap;
    if a.Some? && b.Some? {
      assert NodePairs(h, a.value) + NodePairs(h, b.value) == NodePairs(h, b.value) + NodePairs(h, a.value);
      assert EdgePairs(h, a.value) + EdgePairs(h, b.value) == EdgePairs(h, b.value) + EdgePairs(h, a.value);
    }
  }

  /** The schema of three values: theirs if they share it, otherwise all definitions together. */
  ghost predicate IsSchemaOf(h: Hashing, a: Option<Schema>, b: Option<Schema>, c: Option<Schema>, r: Option<Schema>) {
    if a == b == c then r == a
    else
      && a.Some? && b.Some? && c.Some?
      && var ns := NodePairs(h, a.value) + NodePairs(h, b.value) + NodePairs(h, c.value);
         var es := EdgePairs(h, a.value) + EdgePairs(h, b.value) + EdgePairs(h, c.value);
         Functional(ns) && Functional(es) && r == Some(Bundle(h, ns, es))
  }

  lemma SchemaTriple(h: Hashing, a: Option<Schema>, b: Option<Schema>, c: Option<Schema>)
    requires MergedSchema(h, a, b).Ok? && MergedSchema(h, MergedSchema(h, a, b).value, c).Ok?
    ensures IsSchemaOf(h, a, b, c, MergedSchema(h, MergedSchema(h, a, b).value, c).value)
  {
    hide NodePairs, EdgePairs, Functional, AsMap;
    if a.Some? && b.Some? && c.Some? {
      var ns, es := NodePairs(h, a.value) + NodePairs(h, b.value), EdgePairs(h, a.value) + EdgePairs(h, b.value);
      if a == b {
        assert ns + NodePairs(h, c.value) == NodePairs(h, a.value) + NodePairs(h, c.value);
        assert es + EdgePairs(h, c.value) == EdgePairs(h, a.value) + EdgePairs(h, c.value);
      } else {
        PairsCanonical(h, a.value);
        PairsCanonical(h, b.value);
        BundlePairs(h, ns, es);
        var u := MergedSchema(h, a, b).value;
        assert NodePairs(h, u.value) == ns && EdgePairs(h, u.value) == es;
        if u == c {
          assert ns + NodePairs(h, c.value) == ns && es + EdgePairs(h, c.value) == es;
        }
      }
    }
  }

  lemma SchemaOfUnique(h: Hashing, a: Option<Schema>, b: Option<Schema>, c: Option<Schema>, r: Option<Schema>,
                       t: Option<Schema>)
    requires IsSchemaOf(h, a, b, c, r) && IsSchemaOf(h, b, c, a, t)
    ensures r == t
  {
    hide NodePairs, EdgePairs, Functional, AsMap;
    if !(a == b == c) {
      assert NodePairs(h, a.value) + NodePairs(h, b.value) + NodePairs(h, c.value)
          == NodePairs(h, b.value) + NodePairs(h, c.value) + NodePairs(h, a.value);
      assert EdgePairs(h, a.value) + EdgePairs(h, b.value) + EdgePairs(h, c.value)
          == EdgePairs(h, b.value) + EdgePairs(h, c.value) + EdgePairs(h, a.value);
    }
  }

  /** The merge of two different schemas has only canonical names. */
  lemma MergedNames(h: Hashing, a: Option<Schema>, b: Option<Schema>)
    requires MergedSchema(h, a, b).Ok? && a != b
    ensures
      var s := MergedSchema(h, a, b).value;
      && s.Some? && a.Some? && b.Some?
      && (forall id | id in s.value.nodes :: TYPE_PREFIX <= id)
      && (forall id | id in s.value.edges :: TYPE_PREFIX <= id)
  {
    PairsCanonical(h, a.value);
    PairsCanonical(h, b.value);
    hide NodePairs, EdgePairs;
  }

  // ----- which type names a union rewrites -----

  /** When a value's own schema is a merged one and its types are all in it, rewriting its type
      names changes nothing. */
  ghost predicate Stable(x: Value) {
    && (forall n | n in x.nodes && n.typeId.Some? :: TYPE_PREFIX <= n.typeId.value)
    && (forall e | e in x.edges && e.typeId.Some? :: TYPE_PREFIX <= e.typeId.value)
  }

  lemma StableNodes(h: Hashing, p: string, x: Value)
    requires h.Valid() && NodesKeyed(x) && Stable(x)
    ensures Nodes(h, p, x, true) == Nodes(h, p, x, false)
  {
    hide NodeKey;
    forall n | n in x.nodes && n.id in x.nodeOrigins
      ensures NewNode(h, p, x, true, n) == NewNode(h, p, x, false, n) {}
    hide NewNode, Nodes, NodesKeyed;
    forall n ensures n in Nodes(h, p, x, true) <==> n in Nodes(h, p, x, false) {
      NodesContain(h, p, x, true, n);
      NodesContain(h, p, x, false, n);
    }
  }

  lemma StableEdges(h: Hashing, p: string, x: Value)
    requires h.Valid() && EdgesKeyed(h, x) && Stable(x)
    ensures Edges(h, p, x, true) == Edges(h, p, x, false)
  {
    hide EdgeKey, NewEdgeId, AllIds;
    forall e | e in x.edges && EdgeKeyed(h, x, e)
      ensures NewEdge(h, p, x, true, e) == NewEdge(h, p, x, false, e) {}
    hide NewEdge, Edges, EdgesKeyed, EdgeKeyed;
    forall e ensures e in Edges(h, p, x, true) <==> e in Edges(h, p, x, false) {
      EdgesContain(h, p, x, true, e);
      EdgesContain(h, p, x, false, e);
    }
  }

  lemma UnremappedNode(h: Hashing, ctx: Context, a: Value, b: Value, x: Value, n: Node)
    requires h.Valid() && Unifiable(h, ctx, a, b) && x in {a, b} && n in x.nodes && n.typeId.Some?
    requires x.schema == MergedSchema(h, a.schema, b.schema).value && x.schema.Some?
    ensures n.typeId.value in x.schema.value.nodes
  {
    var v := United(h, ctx, a, b);
    UnionKeepsNode(h, ctx, a, b, x, n);
    assert v.schema == x.schema && WellTyped(v);
    hide Unifiable, United, NodeKey;
    var kept := NewNode(h, ctx.principal, x, Remaps(x, v.schema), n);
    assert kept.typeId == n.typeId;
    var i :| 0 <= i < |v.nodes| && v.nodes[i] == kept;
  }

  lemma UnremappedEdge(h: Hashing, ctx: Context, a: Value, b: Value, x: Value, e: Edge)
    requires h.Valid() && Unifiable(h, ctx, a, b) && x in {a, b} && e in x.edges && e.typeId.Some?
    requires x.schema == MergedSchema(h, a.schema, b.schema).value && x.schema.Some?
    ensures e.typeId.value in x.schema.value.edges
  {
    var v := United(h, ctx, a, b);
    var y, q := UnionKeepsEdge(h, ctx, a, b, x, e);
    assert v.schema == x.schema && WellTyped(v);
    var kept := Renewed(h, ctx, a, b, x, e);
    assert kept.typeId == e.typeId;
    hide Unifiable, United, Renewed, EdgeKeyed, EdgesKeyed, NewEdgeId;
    var i :| 0 <= i < |v.edges| && v.edges[i] == kept;
  }

  /** An input that already has the merged schema carries only canonical type names. */
  lemma UnremappedStable(h: Hashing, ctx: Context, a: Value, b: Value, x: Value)
    requires h.Valid() && Unifiable(h, ctx, a, b) && x in {a, b}
    requires x.schema == MergedSchema(h, a.schema, b.schema).value && x.schema.Some?
    requires forall id | id in x.schema.value.nodes :: TYPE_PREFIX <= id
    requires forall id | id in x.schema.value.edges :: TYPE_PREFIX <= id
    ensures Stable(x)
  {
    hide Unifiable;
    forall n | n in x.nodes && n.typeId.Some? ensures TYPE_PREFIX <= n.typeId.value {
      UnremappedNode(h, ctx, a, b, x, n);
    }
    forall e | e in x.edges && e.typeId.Some? ensures TYPE_PREFIX <= e.typeId.value {
      UnremappedEdge(h, ctx, a, b, x, e);
    }
  }

  /** The members of an input as the union sees them: rewritten exactly when the schemas differ. */
  lemma FlagSettles(h: Hashing, ctx: Context, a: Value, b: Value, x: Value)
    requires h.Valid() && Unifiable(h, ctx, a, b) && x in {a, b}
    ensures Keyed(h, x)
    ensures
      var p, s := ctx.principal, MergedSchema(h, a.schema, b.schema).value;
      && Nodes(h, p, x, Remaps(x, s)) == Nodes(h, p, x, a.schema != b.schema)
      && Edges(h, p, x, Remaps(x, s)) == Edges(h, p, x, a.schema != b.schema)
  {
    var p, s := ctx.principal, MergedSchema(h, a.schema, b.schema).value;
    assert a.schema == b.schema ==> s == a.schema;
    if a.schema != b.schema {
      MergedNames(h, a.schema, b.schema);
      hide MergedSchema, Nodes, Edges;
      if x.schema == s {
        UnremappedStable(h, ctx, a, b, x);
        hide Unifiable, Stable;
        StableNodes(h, p, x);
        StableEdges(h, p, x);
      }
    }
  }

  /** The content of a union. */
  lemma UnionContent(h: Hashing, ctx: Context, a: Value, b: Value)
    requires h.Valid() && Unifiable(h, ctx, a, b)
    ensures Keyed(h, a) && Keyed(h, b)
    ensures
      var v, p, f := United(h, ctx, a, b), ctx.principal, a.schema != b.schema;
      && Elements(v.nodes) == Nodes(h, p, a, f) + Nodes(h, p, b, f)
      && Elements(v.edges) == Edges(h, p, a, f) + Edges(h, p, b, f)
      && Elements(v.attachments) == Attachments(h, p, a) + Attachments(h, p, b)
  {
    hide Unifiable, United, MergedSchema, Nodes, Edges, Attachments, Remaps;
    RawContent(h, ctx, a, b);
    FlagSettles(h, ctx, a, b, a);
    FlagSettles(h, ctx, a, b, b);
  }

  // ----- normalising a union again -----

  lemma TypeTwice(h: Hashing, x: Value, v: Value, g: bool, f: bool, t: Option<string>)
    requires g ==> x.schema.Some? && v.schema.Some?
    requires !g ==> v.schema == x.schema
    ensures NewType(h, v, f, NewType(h, x, g, t)) == NewType(h, x, f || g, t)
  {
  }

  lemma FlagSchemas(h: Hashing, ctx: Context, a: Value, b: Value, x: Value)
    requires h.Valid() && Unifiable(h, ctx, a, b) && x in {a, b}
    ensures a.schema != b.schema ==> x.schema.Some? && United(h, ctx, a, b).schema.Some?
    ensures a.schema == b.schema ==> United(h, ctx, a, b).schema == x.schema
  {
    hide NodePairs, EdgePairs, Functional, Keyed, Agree, BothNodes, BothEdges, BothAttachments, Checked;
  }

  lemma NodeTwice(h: Hashing, ctx: Context, a: Value, b: Value, x: Value, n: Node, f: bool)
    requires h.Valid() && Unifiable(h, ctx, a, b) && x in {a, b} && n in x.nodes && n.id in x.nodeOrigins
    requires NewNode(h, ctx.principal, x, a.schema != b.schema, n) in United(h, ctx, a, b).nodes
    ensures
      var v, m := United(h, ctx, a, b), NewNode(h, ctx.principal, x, a.schema != b.schema, n);
      && m.id in v.nodeOrigins
      && NewNode(h, ctx.principal, v, f, m) == NewNode(h, ctx.principal, x, f || a.schema != b.schema, n)
  {
    var v, g := United(h, ctx, a, b), a.schema != b.schema;
    FlagSchemas(h, ctx, a, b, x);
    hide Unifiable, United, NodeKey, NewType;
    UnionNode(h, ctx, a, b, NewNode(h, ctx.principal, x, g, n));
    TypeTwice(h, x, v, g, f, n.typeId);
  }

  lemma NodesTwiceFrom(h: Hashing, ctx: Context, a: Value, b: Value, f: bool, m: Node)
    requires h.Valid() && Unifiable(h, ctx, a, b) && NodesKeyed(United(h, ctx, a, b)) && NodesKeyed(a) && NodesKeyed(b)
    requires m in Nodes(h, ctx.principal, United(h, ctx, a, b), f)
    ensures
      var p, g := ctx.principal, f || a.schema != b.schema;
      m in Nodes(h, p, a, g) + Nodes(h, p, b, g)
  {
    var v, p, g := United(h, ctx, a, b), ctx.principal, a.schema != b.schema;
    UnionContent(h, ctx, a, b);
    NodesContain(h, p, v, f, m);
    hide Unifiable, United, Nodes, NewNode, NodesKeyed, Keyed;
    var k :| k in v.nodes && k.id in v.nodeOrigins && m == NewNode(h, p, v, f, k);
    assert k in Elements(v.nodes);
    var x, n := NodeOrigin(h, p, a, b, g, k);
    NodeTwice(h, ctx, a, b, x, n, f);
    NodesContain(h, p, x, f || g, m);
  }

  lemma NodesTwiceTo(h: Hashing, ctx: Context, a: Value, b: Value, f: bool, m: Node)
    requires h.Valid() && Unifiable(h, ctx, a, b) && NodesKeyed(United(h, ctx, a, b)) && NodesKeyed(a) && NodesKeyed(b)
    requires
      var p, g := ctx.principal, f || a.schema != b.schema;
      m in Nodes(h, p, a, g) + Nodes(h, p, b, g)
    ensures m in Nodes(h, ctx.principal, United(h, ctx, a, b), f)
  {
    var v, p, g := United(h, ctx, a, b), ctx.principal, a.schema != b.schema;
    UnionContent(h, ctx, a, b);
    hide Unifiable, United, Nodes, NewNode, NodesKeyed, Keyed;
    var x, n := NodeOrigin(h, p, a, b, f || g, m);
    var k := NewNode(h, p, x, g, n);
    NodesContain(h, p, x, g, k);
    assert k in Elements(v.nodes);
    NodeTwice(h, ctx, a, b, x, n, f);
    NodesContain(h, p, v, f, m);
  }

  lemma NodesTwice(h: Hashing, ctx: Context, a: Value, b: Value, f: bool)
    requires h.Valid() && Unifiable(h, ctx, a, b)
    ensures NodesKeyed(United(h, ctx, a, b)) && NodesKeyed(a) && NodesKeyed(b)
    ensures
      var p, g := ctx.principal, f || a.schema != b.schema;
      Nodes(h, p, United(h, ctx, a, b), f) == Nodes(h, p, a, g) + Nodes(h, p, b, g)
  {
    var v, p, g := United(h, ctx, a, b), ctx.principal, a.schema != b.schema;
    UnionSettled(h, ctx, a, b);
    SettledIds(h, v);
    assert NodesKeyed(a) && NodesKeyed(b);
    hide Unifiable, United, Nodes, NodesKeyed, Settled;
    forall m ensures m in Nodes(h, p, v, f) <==> m in Nodes(h, p, a, f || g) + Nodes(h, p, b, f || g) {
      if m in Nodes(h, p, v, f) { NodesTwiceFrom(h, ctx, a, b, f, m); }
      if m in Nodes(h, p, a, f || g) + Nodes(h, p, b, f || g) { NodesTwiceTo(h, ctx, a, b, f, m); }
    }
  }

  lemma NodeOrigin(h: Hashing, p: string, a: Value, b: Value, g: bool, k: Node) returns (x: Value, n: Node)
    requires h.Valid() && NodesKeyed(a) && NodesKeyed(b) && k in Nodes(h, p, a, g) + Nodes(h, p, b, g)
    ensures x in {a, b} && n in x.nodes && n.id in x.nodeOrigins && k == NewNode(h, p, x, g, n)
  {
    x := if k in Nodes(h, p, a, g) then a else b;
    NodesContain(h, p, x, g, k);
    hide Nodes, NewNode;
    n :| n in x.nodes && n.id in x.nodeOrigins && k == NewNode(h, p, x, g, n);
  }

  lemma EdgeOrigin(h: Hashing, p: string, a: Value, b: Value, g: bool, k: Edge) returns (x: Value, o: Edge)
    requires h.Valid() && EdgesKeyed(h, a) && EdgesKeyed(h, b) && k in Edges(h, p, a, g) + Edges(h, p, b, g)
    ensures x in {a, b} && o in x.edges && EdgesKeyed(h, x) && EdgeKeyed(h, x, o) && k == NewEdge(h, p, x, g, o)
  {
    x := if k in Edges(h, p, a, g) then a else b;
    EdgesContain(h, p, x, g, k);
    hide Edges, NewEdge, EdgesKeyed, EdgeKeyed;
    o :| o in x.edges && EdgeKeyed(h, x, o) && k == NewEdge(h, p, x, g, o);
  }

  /** An edge of the union from an edge of an input, normalised again. */
  lemma EdgeTwice(h: Hashing, ctx: Context, a: Value, b: Value, x: Value, o: Edge, f: bool)
    requires h.Valid() && Unifiable(h, ctx, a, b) && x in {a, b} && o in x.edges
    requires EdgesKeyed(h, x) && EdgeKeyed(h, x, o) && EdgesKeyed(h, United(h, ctx, a, b))
    requires NewEdge(h, ctx.principal, x, a.schema != b.schema, o) in United(h, ctx, a, b).edges
    ensures
      var v, m := United(h, ctx, a, b), NewEdge(h, ctx.principal, x, a.schema != b.schema, o);
      && EdgeKeyed(h, v, m)
      && NewEdge(h, ctx.principal, v, f, m) == AgainEdge(h, ctx.principal, x, f || a.schema != b.schema, o)
  {
    var v, g := United(h, ctx, a, b), a.schema != b.schema;
    FlagSchemas(h, ctx, a, b, x);
    KeyedParts(h, v);
    var m := NewEdge(h, ctx.principal, x, g, o);
    assert m.id == NewEdgeId(h, x, o);
    hide Unifiable, United, EdgeKey, NewType, AllIds, NewEdgeId, EdgeKeyed, EdgesKeyed, AgainId, Renewed;
    var i :| 0 <= i < |v.edges| && v.edges[i] == m;
    KeyedAt(h, v, i);
    var y, q := UnionEdgeSource(h, ctx, a, b, m);
    KeyedParts(h, y);
    RenewedId(h, ctx, a, b, y, q);
    EdgeAgain(h, ctx, a, b, y, q);
    AgainDetermined(h, x, o, y, q);
    TypeTwice(h, x, v, g, f, o.typeId);
  }

  lemma KeyedAt(h: Hashing, v: Value, i: nat)
    requires h.Valid() && EdgesKeyed(h, v) && i < |v.edges|
    ensures EdgeKeyed(h, v, v.edges[i])
  {
  }

  /** An edge as it stands after two unions. */
  function AgainEdge(h: Hashing, p: string, x: Value, remap: bool, o: Edge): Edge
    requires h.Valid() && NodesKeyed(x) && EdgeKeyed(h, x, o)
  {
    NewEdge(h, p, x, remap, o).(id := AgainId(h, x, o))
  }

  /** What each edge of a value becomes after one union and after two. */
  function EdgeStages(h: Hashing, p: string, x: Value, remap: bool): set<(Edge, Edge)>
    requires h.Valid() && EdgesKeyed(h, x)
  {
    set o | o in x.edges && EdgeKeyed(h, x, o) :: (NewEdge(h, p, x, remap, o), AgainEdge(h, p, x, remap, o))
  }

  /** What each attachment of a value becomes after one union and after two. */
  function AttachmentStages(h: Hashing, p: string, x: Value): set<(Attachment, Attachment)>
    requires h.Valid() && Keyed(h, x)
  {
    set t | t in x.attachments && HostKnown(h, x, t.host) :: (NewAttachment(h, p, x, t), AgainAttachment(h, p, x, t))
  }

  function Once<V>(s: set<(V, V)>): set<V> {
    set q | q in s :: q.0
  }

  function Twice<V>(s: set<(V, V)>): set<V> {
    set q | q in s :: q.1
  }

  /** The members that a second union changes. */
  function Changing<V(==)>(s: set<(V, V)>): set<V> {
    set q | q in s && q.0 != q.1 :: q.0
  }

  lemma EdgesOnce(h: Hashing, p: string, x: Value, remap: bool)
    requires h.Valid() && EdgesKeyed(h, x)
    ensures Once(EdgeStages(h, p, x, remap)) == Edges(h, p, x, remap)
  {
    hide Edges, NewEdge, AgainEdge, EdgesKeyed, EdgeKeyed;
    KeyedParts(h, x);
    forall e ensures e in Once(EdgeStages(h, p, x, remap)) <==> e in Edges(h, p, x, remap) {
      EdgesContain(h, p, x, remap, e);
      if o :| o in x.edges && EdgeKeyed(h, x, o) && e == NewEdge(h, p, x, remap, o) {
        assert (NewEdge(h, p, x, remap, o), AgainEdge(h, p, x, remap, o)) in EdgeStages(h, p, x, remap);
      }
    }
  }

  lemma AttachmentsOnce(h: Hashing, p: string, x: Value)
    requires h.Valid() && Keyed(h, x)
    ensures Once(AttachmentStages(h, p, x)) == Attachments(h, p, x)
  {
    hide Attachments, NewAttachment, AgainAttachment, EdgesKeyed, HostKnown;
    forall t ensures t in Once(AttachmentStages(h, p, x)) <==> t in Attachments(h, p, x) {
      AttachmentsContain(h, p, x, t);
      if o :| o in x.attachments && HostKnown(h, x, o.host) && t == NewAttachment(h, p, x, o) {
        assert (NewAttachment(h, p, x, o), AgainAttachment(h, p, x, o)) in AttachmentStages(h, p, x);
      }
    }
  }

  lemma EdgesTwiceFrom(h: Hashing, ctx: Context, a: Value, b: Value, f: bool, m: Edge)
    requires h.Valid() && Unifiable(h, ctx, a, b) && EdgesKeyed(h, a) && EdgesKeyed(h, b)
    requires EdgesKeyed(h, United(h, ctx, a, b)) && m in Edges(h, ctx.principal, United(h, ctx, a, b), f)
    ensures
      var p, g := ctx.principal, f || a.schema != b.schema;
      m in Twice(EdgeStages(h, p, a, g)) + Twice(EdgeStages(h, p, b, g))
  {
    var v, p, g := United(h, ctx, a, b), ctx.principal, a.schema != b.schema;
    UnionContent(h, ctx, a, b);
    EdgesContain(h, p, v, f, m);
    hide Unifiable, United, Edges, NewEdge, AgainEdge, EdgesKeyed, EdgeKeyed, Keyed;
    KeyedParts(h, v);
    var k :| k in v.edges && EdgeKeyed(h, v, k) && m == NewEdge(h, p, v, f, k);
    assert k in Elements(v.edges);
    var x, o := EdgeOrigin(h, p, a, b, g, k);
    KeyedParts(h, x);
    EdgeTwice(h, ctx, a, b, x, o, f);
    assert (NewEdge(h, p, x, f || g, o), AgainEdge(h, p, x, f || g, o)) in EdgeStages(h, p, x, f || g);
  }

  lemma EdgesTwiceTo(h: Hashing, ctx: Context, a: Value, b: Value, f: bool, m: Edge)
    requires h.Valid() && Unifiable(h, ctx, a, b) && EdgesKeyed(h, a) && EdgesKeyed(h, b)
    requires EdgesKeyed(h, United(h, ctx, a, b))
    requires
      var p, g := ctx.principal, f || a.schema != b.schema;
      m in Twice(EdgeStages(h, p, a, g)) + Twice(EdgeStages(h, p, b, g))
    ensures m in Edges(h, ctx.principal, United(h, ctx, a, b), f)
  {
    var v, p, g := United(h, ctx, a, b), ctx.principal, a.schema != b.schema;
    UnionContent(h, ctx, a, b);
    hide Unifiable, United, Edges, NewEdge, AgainEdge, EdgesKeyed, EdgeKeyed, Keyed;
    KeyedParts(h, v);
    var x := if m in Twice(EdgeStages(h, p, a, f || g)) then a else b;
    KeyedParts(h, x);
    var o :| o in x.edges && EdgeKeyed(h, x, o) && m == AgainEdge(h, p, x, f || g, o);
    var k := NewEdge(h, p, x, g, o);
    EdgesContain(h, p, x, g, k);
    assert k in Elements(v.edges);
    EdgeTwice(h, ctx, a, b, x, o, f);
    EdgesContain(h, p, v, f, m);
  }

  /** The edges of a union, normalised again, are the edges of both inputs normalised twice. */
  lemma EdgesTwice(h: Hashing, ctx: Context, a: Value, b: Value, f: bool)
    requires h.Valid() && Unifiable(h, ctx, a, b) && EdgesKeyed(h, a) && EdgesKeyed(h, b)
    requires EdgesKeyed(h, United(h, ctx, a, b))
    ensures
      var p, g := ctx.principal, f || a.schema != b.schema;
      Edges(h, p, United(h, ctx, a, b), f) == Twice(EdgeStages(h, p, a, g)) + Twice(EdgeStages(h, p, b, g))
  {
    var v, p, g := United(h, ctx, a, b), ctx.principal, f || a.schema != b.schema;
    hide Unifiable, United, Edges, EdgesKeyed, EdgeStages, Twice;
    forall m ensures m in Edges(h, p, v, f) <==> m in Twice(EdgeStages(h, p, a, g)) + Twice(EdgeStages(h, p, b, g)) {
      if m in Edges(h, p, v, f) { EdgesTwiceFrom(h, ctx, a, b, f, m); }
      if m in Twice(EdgeStages(h, p, a, g)) + Twice(EdgeStages(h, p, b, g)) { EdgesTwiceTo(h, ctx, a, b, f, m); }
    }
  }

  lemma AttachmentsTwiceFrom(h: Hashing, ctx: Context, a: Value, b: Value, t: Attachment)
    requires h.Valid() && Unifiable(h, ctx, a, b) && Keyed(h, a) && Keyed(h, b) && Keyed(h, United(h, ctx, a, b))
    requires t in Attachments(h, ctx.principal, United(h, ctx, a, b))
    ensures t in Twice(AttachmentStages(h, ctx.principal, a)) + Twice(AttachmentStages(h, ctx.principal, b))
  {
    var v, p := United(h, ctx, a, b), ctx.principal;
    UnionContent(h, ctx, a, b);
    AttachmentsContain(h, p, v, t);
    hide Unifiable, United, Attachments, EdgesKeyed, HostKnown, NewAttachment, AgainAttachment, Nodes, Edges;
    var o :| o in v.attachments && HostKnown(h, v, o.host) && t == NewAttachment(h, p, v, o);
    assert o in Elements(v.attachments);
    var x, k := AttachmentOrigin(h, p, a, b, o);
    AttachmentAgain(h, ctx, a, b, x, k);
    assert (NewAttachment(h, p, x, k), AgainAttachment(h, p, x, k)) in AttachmentStages(h, p, x);
  }

  lemma AttachmentsTwiceTo(h: Hashing, ctx: Context, a: Value, b: Value, t: Attachment)
    requires h.Valid() && Unifiable(h, ctx, a, b) && Keyed(h, a) && Keyed(h, b) && Keyed(h, United(h, ctx, a, b))
    requires t in Twice(AttachmentStages(h, ctx.principal, a)) + Twice(AttachmentStages(h, ctx.principal, b))
    ensures t in Attachments(h, ctx.principal, United(h, ctx, a, b))
  {
    var v, p := United(h, ctx, a, b), ctx.principal;
    hide Unifiable, United, Attachments, EdgesKeyed, HostKnown, NewAttachment, AgainAttachment, Nodes, Edges;
    var x := if t in Twice(AttachmentStages(h, p, a)) then a else b;
    var k :| k in x.attachments && HostKnown(h, x, k.host) && t == AgainAttachment(h, p, x, k);
    AttachmentAgain(h, ctx, a, b, x, k);
    AttachmentsContain(h, p, v, t);
  }

  /** The attachments of a union, normalised again, are those of both inputs normalised twice. */
  lemma AttachmentsTwice(h: Hashing, ctx: Context, a: Value, b: Value)
    requires h.Valid() && Unifiable(h, ctx, a, b) && Keyed(h, a) && Keyed(h, b) && Keyed(h, United(h, ctx, a, b))
    ensures Attachments(h, ctx.principal, United(h, ctx, a, b))
         == Twice(AttachmentStages(h, ctx.principal, a)) + Twice(AttachmentStages(h, ctx.principal, b))
  {
    var v, p := United(h, ctx, a, b), ctx.principal;
    hide Unifiable, United, Attachments, Keyed, AttachmentStages, Twice;
    forall t ensures t in Attachments(h, p, v) <==>
                     t in Twice(AttachmentStages(h, p, a)) + Twice(AttachmentStages(h, p, b)) {
      if t in Attachments(h, p, v) { AttachmentsTwiceFrom(h, ctx, a, b, t); }
      if t in Twice(AttachmentStages(h, p, a)) + Twice(AttachmentStages(h, p, b)) {
        AttachmentsTwiceTo(h, ctx, a, b, t);
      }
    }
  }

  lemma AttachmentOrigin(h: Hashing, p: string, a: Value, b: Value, t: Attachment) returns (x: Value, o: Attachment)
    requires h.Valid() && Keyed(h, a) && Keyed(h, b) && t in Attachments(h, p, a) + Attachments(h, p, b)
    ensures x in {a, b} && o in x.attachments && EdgesKeyed(h, x) && HostKnown(h, x, o.host)
    ensures t == NewAttachment(h, p, x, o)
  {
    x := if t in Attachments(h, p, a) then a else b;
    AttachmentsContain(h, p, x, t);
    hide Attachments, NewAttachment, EdgesKeyed, HostKnown;
    o :| o in x.attachments && HostKnown(h, x, o.host) && t == NewAttachment(h, p, x, o);
  }

  // ----- one union against two -----

  /** What a member becomes first determines what it becomes next; and only a member that no
      longer changes looks like one that was normalised twice. */
  ghost predicate Coherent<V(!new)>(s: set<(V, V)>) {
    forall p, q | p in s && q in s :: (p.0 == q.0 ==> p.1 == q.1) && (q.1 == p.0 ==> p.1 == p.0)
  }

  lemma CoherentParts<V(!new)>(a: set<(V, V)>, s: set<(V, V)>)
    requires Coherent(s) && a <= s
    ensures Changing(a) !! Twice(s) && Changing(a) <= Once(a) && Twice(a) <= Twice(s)
  {
    forall p, q | p in a && p.0 != p.1 && q in s ensures p.0 != q.1 {}
  }

  lemma ChangingStays<V>(a: set<V>, onceA: set<V>, left: set<V>, right: set<V>, twice: set<V>, onceC: set<V>)
    requires a <= onceA <= left && left == right && right <= twice + onceC && a !! twice
    ensures a <= onceC
  {
  }

  /** Two members' worth of changes cancel exactly when both sides change the same members. */
  lemma StagesAssociate<V(!new)>(a: set<(V, V)>, b: set<(V, V)>, c: set<(V, V)>)
    requires Coherent(a + b + c)
    ensures Twice(a) + Twice(b) + Once(c) == Once(a) + Twice(b) + Twice(c) <==> Changing(a) == Changing(c)
  {
    var s := a + b + c;
    CoherentParts(a, s);
    CoherentParts(b, s);
    CoherentParts(c, s);
    if Twice(a) + Twice(b) + Once(c) == Once(a) + Twice(b) + Twice(c) {
      ChangingStays(Changing(a), Once(a), Once(a) + Twice(b) + Twice(c), Twice(a) + Twice(b) + Once(c), Twice(s), Once(c));
      ChangingStays(Changing(c), Once(c), Twice(a) + Twice(b) + Once(c), Once(a) + Twice(b) + Twice(c), Twice(s), Once(a));
      StagesSame(a, c, s);
      StagesSame(c, a, s);
    }
    if Changing(a) == Changing(c) {
      StagesMove(a, c, s);
      StagesMove(c, a, s);
    }
  }

  lemma StagesSame<V(!new)>(a: set<(V, V)>, c: set<(V, V)>, s: set<(V, V)>)
    requires Coherent(s) && a <= s && c <= s && Changing(a) <= Once(c)
    ensures Changing(a) <= Changing(c)
  {
    forall v | v in Changing(a) ensures v in Changing(c) {
      var p :| p in a && p.0 != p.1 && p.0 == v;
      var q :| q in c && q.0 == v;
    }
  }

  lemma StagesMove<V(!new)>(a: set<(V, V)>, c: set<(V, V)>, s: set<(V, V)>)
    requires Coherent(s) && a <= s && c <= s && Changing(a) <= Changing(c)
    ensures Twice(a) <= Once(a) + Twice(c) && Once(a) <= Twice(a) + Once(c)
  {
    forall p | p in a ensures p.1 in Once(a) + Twice(c) {
      if p.0 != p.1 {
        assert p.0 in Changing(a);
        var q :| q in c && q.0 != q.1 && q.0 == p.0;
        assert p.1 == q.1;
      }
    }
    forall p | p in a ensures p.0 in Twice(a) + Once(c) {
      if p.0 != p.1 { assert p.0 in Changing(a) && p.0 in Changing(c); }
    }
  }

  /** Adding one side again changes nothing exactly when it brings back every member that changed
      and the changed ones are there already. */
  lemma StagesAbsorb<V(!new)>(a: set<(V, V)>, b: set<(V, V)>, x: set<(V, V)>)
    requires Coherent(a + b) && x in {a, b}
    ensures Twice(a) + Twice(b) + Once(x) == Once(a) + Once(b)
       <==> Changing(a) + Changing(b) == Changing(x) && Twice(x) <= Once(a) + Once(b)
  {
    var s := a + b;
    CoherentParts(a, s);
    CoherentParts(b, s);
    if Twice(a) + Twice(b) + Once(x) == Once(a) + Once(b) {
      ChangingStays(Changing(a), Once(a), Once(a) + Once(b), Twice(a) + Twice(b) + Once(x), Twice(s), Once(x));
      ChangingStays(Changing(b), Once(b), Once(a) + Once(b), Twice(a) + Twice(b) + Once(x), Twice(s), Once(x));
      StagesSame(a, x, s);
      StagesSame(b, x, s);
    }
    if Changing(a) + Changing(b) == Changing(x) && Twice(x) <= Once(a) + Once(b) {
      StagesMove(a, x, s);
      StagesMove(b, x, s);
    }
  }

  /** Nothing changes twice over exactly when nothing changes. */
  lemma StagesIdempotent<V(!new)>(a: set<(V, V)>, b: set<(V, V)>)
    requires Coherent(a + b)
    ensures Twice(a) + Twice(b) == Once(a) + Once(b) <==> Changing(a) + Changing(b) == {}
  {
    var s := a + b;
    CoherentParts(a, s);
    CoherentParts(b, s);
    if Twice(a) + Twice(b) == Once(a) + Once(b) {
      ChangingStays(Changing(a), Once(a), Once(a) + Once(b), Twice(a) + Twice(b), Twice(s), {});
      ChangingStays(Changing(b), Once(b), Once(a) + Once(b), Twice(a) + Twice(b), Twice(s), {});
    }
    if Changing(a) + Changing(b) == {} {
      assert Changing(a) == {} && Changing(b) == {};
      NothingChanges(a);
      NothingChanges(b);
    }
  }

  lemma NothingChanges<V(!new)>(a: set<(V, V)>)
    ensures Changing(a) == {} ==> Twice(a) == Once(a)
  {
    if Changing(a) == {} {
      forall p | p in a ensures p.0 == p.1 { assert p.0 != p.1 ==> p.0 in Changing(a); }
      forall p | p in a ensures p.1 in Once(a) && p.0 in Twice(a) {}
    }
  }

  /** A renewed edge's id determines the edge, whatever value of a union it comes from. */
  lemma StagesOfEdges(h: Hashing, p: string, x: Value, o: Edge, y: Value, q: Edge, m: bool)
    requires h.Valid() && EdgesKeyed(h, x) && EdgeKeyed(h, x, o) && EdgesKeyed(h, y) && EdgeKeyed(h, y, q)
    ensures NodesKeyed(x) && NodesKeyed(y)
    ensures NewEdge(h, p, x, m, o) == NewEdge(h, p, y, m, q) ==> AgainEdge(h, p, x, m, o) == AgainEdge(h, p, y, m, q)
    ensures AgainEdge(h, p, y, m, q) == NewEdge(h, p, x, m, o) ==> AgainEdge(h, p, x, m, o) == NewEdge(h, p, x, m, o)
    ensures AgainEdge(h, p, x, m, o) == NewEdge(h, p, x, m, o) <==> Meets(h, x, o)
  {
    KeyedParts(h, x);
    KeyedParts(h, y);
    assert NewEdge(h, p, x, m, o).id == NewEdgeId(h, x, o) && NewEdge(h, p, y, m, q).id == NewEdgeId(h, y, q);
    assert AgainEdge(h, p, x, m, o) == NewEdge(h, p, x, m, o).(id := AgainId(h, x, o));
    assert AgainEdge(h, p, y, m, q) == NewEdge(h, p, y, m, q).(id := AgainId(h, y, q));
    hide *;
    if NewEdgeId(h, x, o) == NewEdgeId(h, y, q) { AgainDetermined(h, x, o, y, q); }
    if AgainId(h, y, q) == NewEdgeId(h, x, o) { AgainMeets(h, x, o, y, q); }
    AgainExactly(h, x, o);
  }

  ghost predicate Stands(h: Hashing, xs: set<Value>) {
    h.Valid() && forall x | x in xs :: Keyed(h, x)
  }

  ghost function AllEdgeStages(h: Hashing, p: string, xs: set<Value>, m: bool): set<(Edge, Edge)>
    requires Stands(h, xs)
  {
    set x, s | x in xs && s in EdgeStages(h, p, x, m) :: s
  }

  ghost function AllAttachmentStages(h: Hashing, p: string, xs: set<Value>): set<(Attachment, Attachment)>
    requires Stands(h, xs)
  {
    set x, s | x in xs && s in AttachmentStages(h, p, x) :: s
  }

  lemma EdgesCohere(h: Hashing, p: string, xs: set<Value>, m: bool)
    requires Stands(h, xs)
    ensures Coherent(AllEdgeStages(h, p, xs, m))
  {
    hide NewEdge, AgainEdge, EdgesKeyed, EdgeKeyed;
    var s := AllEdgeStages(h, p, xs, m);
    forall i, j | i in s && j in s ensures (i.0 == j.0 ==> i.1 == j.1) && (j.1 == i.0 ==> i.1 == i.0) {
      var x :| x in xs && i in EdgeStages(h, p, x, m);
      var y :| y in xs && j in EdgeStages(h, p, y, m);
      KeyedParts(h, x);
      KeyedParts(h, y);
      var o :| o in x.edges && EdgeKeyed(h, x, o) && i == (NewEdge(h, p, x, m, o), AgainEdge(h, p, x, m, o));
      var q :| q in y.edges && EdgeKeyed(h, y, q) && j == (NewEdge(h, p, y, m, q), AgainEdge(h, p, y, m, q));
      StagesOfEdges(h, p, x, o, y, q, m);
    }
  }

  lemma AttachmentsCohere(h: Hashing, p: string, xs: set<Value>)
    requires Stands(h, xs)
    ensures Coherent(AllAttachmentStages(h, p, xs))
  {
    hide NewAttachment, AgainAttachment, EdgesKeyed, HostKnown;
    var s := AllAttachmentStages(h, p, xs);
    forall i, j | i in s && j in s ensures (i.0 == j.0 ==> i.1 == j.1) && (j.1 == i.0 ==> i.1 == i.0) {
      var x :| x in xs && i in AttachmentStages(h, p, x);
      var y :| y in xs && j in AttachmentStages(h, p, y);
      var o :| o in x.attachments && HostKnown(h, x, o.host)
               && i == (NewAttachment(h, p, x, o), AgainAttachment(h, p, x, o));
      var q :| q in y.attachments && HostKnown(h, y, q.host)
               && j == (NewAttachment(h, p, y, q), AgainAttachment(h, p, y, q));
      AttachmentDetermined(h, p, x, o, y, q);
    }
  }

  // ----- three values -----

  /** Whether three values have different schemas. */
  predicate Mixed(a: Value, b: Value, c: Value) {
    !(a.schema == b.schema == c.schema)
  }

  /** A union of a union with a third value, on either side. */
  ghost predicate Nested(h: Hashing, ctx: Context, a: Value, b: Value, c: Value, l: Value, r: Value) {
    && h.Valid() && Unifiable(h, ctx, a, b) && Unifiable(h, ctx, l, r)
    && ((l == United(h, ctx, a, b) && r == c) || (l == c && r == United(h, ctx, a, b)))
  }

  /** The third of three values as the outer union sees it. */
  lemma ThirdSettles(h: Hashing, ctx: Context, a: Value, b: Value, c: Value, l: Value, r: Value)
    requires Nested(h, ctx, a, b, c, l, r)
    ensures Keyed(h, c)
    ensures
      var p, f := ctx.principal, l.schema != r.schema;
      && Nodes(h, p, c, f) == Nodes(h, p, c, Mixed(a, b, c))
      && Edges(h, p, c, f) == Edges(h, p, c, Mixed(a, b, c))
  {
    var u, p := United(h, ctx, a, b), ctx.principal;
    FlagSchemas(h, ctx, a, b, a);
    if l.schema == r.schema && Mixed(a, b, c) {
      assert a.schema != b.schema;
      MergedNames(h, a.schema, b.schema);
      assert u.schema == MergedSchema(h, a.schema, b.schema).value;
      assert MergedSchema(h, l.schema, r.schema).value == c.schema;
      hide United, MergedSchema, Nodes, Edges, EdgesKeyed;
      UnremappedStable(h, ctx, l, r, c);
      hide Unifiable, Stable;
      StableNodes(h, p, c);
      StableEdges(h, p, c);
    }
  }

  lemma NestedFlag(h: Hashing, ctx: Context, a: Value, b: Value, c: Value, l: Value, r: Value)
    requires Nested(h, ctx, a, b, c, l, r)
    ensures (l.schema != r.schema || a.schema != b.schema) == Mixed(a, b, c)
    ensures IsSchemaOf(h, a.schema, b.schema, c.schema, United(h, ctx, l, r).schema)
  {
    var u := United(h, ctx, a, b);
    assert u.schema == MergedSchema(h, a.schema, b.schema).value;
    assert United(h, ctx, l, r).schema == MergedSchema(h, l.schema, r.schema).value;
    FlagSchemas(h, ctx, a, b, a);
    hide United, EdgesKeyed, IsSchemaOf, MergedSchema, Keyed, BothNodes, BothEdges, Agree, Checked;
    SchemaCommutes(h, l.schema, r.schema);
    SchemaTriple(h, a.schema, b.schema, c.schema);
  }

  /** What a union contributes to another one: its inputs, normalised twice. */
  lemma TwiceContent(h: Hashing, ctx: Context, a: Value, b: Value, f: bool)
    requires h.Valid() && Unifiable(h, ctx, a, b) && Keyed(h, United(h, ctx, a, b))
    ensures Keyed(h, a) && Keyed(h, b)
    ensures
      var u, p, m := United(h, ctx, a, b), ctx.principal, f || a.schema != b.schema;
      && Nodes(h, p, u, f) == Nodes(h, p, a, m) + Nodes(h, p, b, m)
      && Edges(h, p, u, f) == Twice(EdgeStages(h, p, a, m)) + Twice(EdgeStages(h, p, b, m))
      && Attachments(h, p, u) == Twice(AttachmentStages(h, p, a)) + Twice(AttachmentStages(h, p, b))
  {
    hide *;
    UnionContent(h, ctx, a, b);
    KeyedParts(h, a);
    KeyedParts(h, b);
    KeyedParts(h, United(h, ctx, a, b));
    NodesTwice(h, ctx, a, b, f);
    EdgesTwice(h, ctx, a, b, f);
    AttachmentsTwice(h, ctx, a, b);
  }

  lemma ThirdContent(h: Hashing, ctx: Context, a: Value, b: Value, c: Value, l: Value, r: Value)
    requires Nested(h, ctx, a, b, c, l, r)
    ensures Keyed(h, c)
    ensures
      var p, f, m := ctx.principal, l.schema != r.schema, Mixed(a, b, c);
      && Nodes(h, p, c, f) == Nodes(h, p, c, m)
      && Edges(h, p, c, f) == Once(EdgeStages(h, p, c, m))
      && Attachments(h, p, c) == Once(AttachmentStages(h, p, c))
  {
    hide *;
    NestedParts(h, ctx, a, b, c, l, r);
    ThirdSettles(h, ctx, a, b, c, l, r);
    KeyedParts(h, c);
    EdgesOnce(h, ctx.principal, c, Mixed(a, b, c));
    AttachmentsOnce(h, ctx.principal, c);
  }

  lemma NestedParts(h: Hashing, ctx: Context, a: Value, b: Value, c: Value, l: Value, r: Value)
    requires Nested(h, ctx, a, b, c, l, r)
    ensures h.Valid() && Unifiable(h, ctx, a, b) && Unifiable(h, ctx, l, r)
    ensures (l == United(h, ctx, a, b) && r == c) || (l == c && r == United(h, ctx, a, b))
  {
    hide Unifiable, United;
  }

  /** The content of a union of three: what stood inside the inner union was normalised twice,
      the third value once. */
  lemma TripleContent(h: Hashing, ctx: Context, a: Value, b: Value, c: Value, l: Value, r: Value)
    requires Nested(h, ctx, a, b, c, l, r)
    ensures Keyed(h, a) && Keyed(h, b) && Keyed(h, c)
    ensures
      var w, p, m := United(h, ctx, l, r), ctx.principal, Mixed(a, b, c);
      && Elements(w.nodes) == Nodes(h, p, a, m) + Nodes(h, p, b, m) + Nodes(h, p, c, m)
      && Elements(w.edges) == Twice(EdgeStages(h, p, a, m)) + Twice(EdgeStages(h, p, b, m)) + Once(EdgeStages(h, p, c, m))
      && Elements(w.attachments) == Twice(AttachmentStages(h, p, a)) + Twice(AttachmentStages(h, p, b))
                                    + Once(AttachmentStages(h, p, c))
      && IsSchemaOf(h, a.schema, b.schema, c.schema, w.schema)
  {
    hide *;
    NestedParts(h, ctx, a, b, c, l, r);
    NestedFlag(h, ctx, a, b, c, l, r);
    UnionContent(h, ctx, l, r);
    ThirdContent(h, ctx, a, b, c, l, r);
    KeyedParts(h, l);
    KeyedParts(h, r);
    TwiceContent(h, ctx, a, b, l.schema != r.schema);
    if l == c {
      Flip(Nodes(h, ctx.principal, l, l.schema != r.schema), Nodes(h, ctx.principal, r, l.schema != r.schema));
      Flip(Edges(h, ctx.principal, l, l.schema != r.schema), Edges(h, ctx.principal, r, l.schema != r.schema));
      Flip(Attachments(h, ctx.principal, l), Attachments(h, ctx.principal, r));
    }
  }

  lemma Flip<T>(x: set<T>, y: set<T>)
    ensures x + y == y + x
  {
  }

  // ----- the laws -----

  /** A map of members kept under their ids, with no two members of one id. */
  ghost predicate ById<V(!new)>(m: map<string, Entry<V>>, es: seq<Entry<V>>, id: V -> string) {
    From(m, es) && Agree(es) && forall e | e in es :: e.key == id(e.value)
  }

  lemma SameKey<V(!new)>(m: map<string, Entry<V>>, es: seq<Entry<V>>, n: map<string, Entry<V>>, fs: seq<Entry<V>>,
                         id: V -> string, k: string)
    requires ById(m, es, id) && ById(n, fs, id) && Members(es) == Members(fs) && k in m
    ensures k in n && n[k].value == m[k].value
  {
    var e := m[k];
    var i :| 0 <= i < |es| && es[i] == e;
    assert e.value in Members(fs);
    var f := MemberEntry(fs, e.value);
    var g := KeptEntry(fs, n, f);
  }

  /** Ordered listings of the same members are the same list. */
  lemma SameListing<V(!new)>(m: map<string, Entry<V>>, es: seq<Entry<V>>, n: map<string, Entry<V>>, fs: seq<Entry<V>>,
                             id: V -> string)
    requires ById(m, es, id) && ById(n, fs, id) && Members(es) == Members(fs)
    ensures InOrder(m) == InOrder(n)
  {
    hide ById, Members, Ascending;
    forall k | k in m ensures k in n && n[k].value == m[k].value { SameKey(m, es, n, fs, id, k); }
    forall k | k in n ensures k in m { SameKey(n, fs, m, es, id, k); }
    assert m.Keys == n.Keys;
    var keys := SortStrings(m.Keys);
    assert forall i | 0 <= i < |keys| :: keys[i] in Elements(keys);
  }

  lemma NodeListById(h: Hashing, ctx: Context, a: Value, b: Value)
      returns (m: map<string, Entry<Node>>, es: seq<Entry<Node>>)
    requires h.Valid() && Unifiable(h, ctx, a, b)
    ensures ById(m, es, (n: Node) => n.id)
    ensures United(h, ctx, a, b).nodes == InOrder(m) && Elements(United(h, ctx, a, b).nodes) == Members(es)
  {
    NodeParts(h, ctx, a, b);
    var p, s := ctx.principal, MergedSchema(h, a.schema, b.schema).value;
    es := BothNodes(h, p, a, b, s);
    m := Merged(es);
    hide Unifiable, United, MergedSchema, BothNodes, Merged, InOrder, From, Agree, Members, Elements, NodeKey, NewType,
         NodesKeyed, Remaps;
    forall e | e in es ensures e.key == e.value.id {
      var x, n := NodeSource(h, p, a, b, s, e);
    }
  }

  lemma EdgeListById(h: Hashing, ctx: Context, a: Value, b: Value)
      returns (m: map<string, Entry<Edge>>, es: seq<Entry<Edge>>)
    requires h.Valid() && Unifiable(h, ctx, a, b)
    ensures ById(m, es, (e: Edge) => e.id)
    ensures United(h, ctx, a, b).edges == InOrder(m) && Elements(United(h, ctx, a, b).edges) == Members(es)
  {
    EdgeParts(h, ctx, a, b);
    var p, s := ctx.principal, MergedSchema(h, a.schema, b.schema).value;
    es := BothEdges(h, p, a, b, s);
    m := Merged(es);
    hide Unifiable, United, MergedSchema, BothEdges, Merged, InOrder, From, Agree, Members, Elements, NewEdgeId, NewType,
         AllIds, EdgeKeyed, Remaps;
    forall e | e in es ensures e.key == e.value.id {
      var x, o := EdgeSource(h, p, a, b, s, e);
    }
  }

  lemma AttachmentListById(h: Hashing, ctx: Context, a: Value, b: Value)
      returns (m: map<string, Entry<Attachment>>, es: seq<Entry<Attachment>>)
    requires h.Valid() && Unifiable(h, ctx, a, b)
    ensures ById(m, es, (t: Attachment) => t.id)
    ensures United(h, ctx, a, b).attachments == InOrder(m) && Elements(United(h, ctx, a, b).attachments) == Members(es)
  {
    AttachmentParts(h, ctx, a, b);
    var p := ctx.principal;
    es := BothAttachments(h, p, a, b);
    m := Merged(es);
    hide Unifiable, United, BothAttachments, Merged, InOrder, From, Agree, Members, Elements, NewAttachment, HostKnown;
    forall e | e in es ensures e.key == e.value.id {
      var x, o := AttachmentSource(h, p, a, b, e);
    }
  }

  lemma SameNodesSameList(h: Hashing, ctx: Context, a: Value, b: Value, c: Value, d: Value)
    requires h.Valid() && Unifiable(h, ctx, a, b) && Unifiable(h, ctx, c, d)
    requires Elements(United(h, ctx, a, b).nodes) == Elements(United(h, ctx, c, d).nodes)
    ensures United(h, ctx, a, b).nodes == United(h, ctx, c, d).nodes
  {
    hide Unifiable, United, ById, Members, InOrder, Elements;
    var m, es := NodeListById(h, ctx, a, b);
    var n, fs := NodeListById(h, ctx, c, d);
    SameListing(m, es, n, fs, (n: Node) => n.id);
  }

  /** Unions are the same graph exactly when they have the same members and schema. */
  lemma SameContentSameGraph(h: Hashing, ctx: Context, a: Value, b: Value, c: Value, d: Value)
    requires h.Valid() && Unifiable(h, ctx, a, b) && Unifiable(h, ctx, c, d)
    ensures
      var v, w := United(h, ctx, a, b), United(h, ctx, c, d);
      SameGraph(v, w) <==>
        && Elements(v.nodes) == Elements(w.nodes) && Elements(v.edges) == Elements(w.edges)
        && Elements(v.attachments) == Elements(w.attachments) && v.schema == w.schema
  {
    if SameMembers(United(h, ctx, a, b), United(h, ctx, c, d)) { SameMembersSameGraph(h, ctx, a, b, c, d); }
  }

  ghost predicate SameMembers(v: Value, w: Value) {
    && Elements(v.nodes) == Elements(w.nodes) && Elements(v.edges) == Elements(w.edges)
    && Elements(v.attachments) == Elements(w.attachments) && v.schema == w.schema
  }

  lemma SameMembersSameGraph(h: Hashing, ctx: Context, a: Value, b: Value, c: Value, d: Value)
    requires h.Valid() && Unifiable(h, ctx, a, b) && Unifiable(h, ctx, c, d)
    requires SameMembers(United(h, ctx, a, b), United(h, ctx, c, d))
    ensures SameGraph(United(h, ctx, a, b), United(h, ctx, c, d))
  {
    hide Unifiable, United, ById, Members, InOrder, Elements;
    var m, es := NodeListById(h, ctx, a, b);
    var n, fs := NodeListById(h, ctx, c, d);
    SameListing(m, es, n, fs, (n: Node) => n.id);
    var k, gs := EdgeListById(h, ctx, a, b);
    var l, hs := EdgeListById(h, ctx, c, d);
    SameListing(k, gs, l, hs, (e: Edge) => e.id);
    var q, us := AttachmentListById(h, ctx, a, b);
    var r, vs := AttachmentListById(h, ctx, c, d);
    SameListing(q, us, r, vs, (t: Attachment) => t.id);
  }

  lemma Rotate<T>(x: set<T>, y: set<T>, z: set<T>)
    ensures x + y + z == y + z + x
  {
  }

  lemma Swap<T>(x: set<T>, y: set<T>)
    ensures x + y == y + x && x + y + x == x + y && x + y + y == x + y && x + x == x
  {
  }

  /** Union is commutative. */
  lemma UnionCommutes(h: Hashing, ctx: Context, a: Value, b: Value)
    requires h.Valid() && Unifiable(h, ctx, a, b) && Unifiable(h, ctx, b, a)
    ensures SameGraph(United(h, ctx, a, b), United(h, ctx, b, a))
  {
    SchemaCommutes(h, a.schema, b.schema);
    UnionSchema(h, ctx, a, b);
    UnionSchema(h, ctx, b, a);
    UnionContent(h, ctx, a, b);
    UnionContent(h, ctx, b, a);
    hide *;
    var p, f := ctx.principal, a.schema != b.schema;
    Swap(Nodes(h, p, a, f), Nodes(h, p, b, f));
    Swap(Edges(h, p, a, f), Edges(h, p, b, f));
    Swap(Attachments(h, p, a), Attachments(h, p, b));
    SameContentSameGraph(h, ctx, a, b, b, a);
  }

  lemma UnionSchema(h: Hashing, ctx: Context, a: Value, b: Value)
    requires h.Valid() && Unifiable(h, ctx, a, b)
    ensures MergedSchema(h, a.schema, b.schema).Ok?
    ensures United(h, ctx, a, b).schema == MergedSchema(h, a.schema, b.schema).value
  {
    hide MergedSchema, Keyed, Agree, Checked;
  }

  lemma NestedLeft(h: Hashing, ctx: Context, a: Value, b: Value, c: Value)
    requires h.Valid() && Unifiable(h, ctx, a, b) && Unifiable(h, ctx, United(h, ctx, a, b), c)
    ensures Nested(h, ctx, a, b, c, United(h, ctx, a, b), c)
  {
    hide Unifiable, United;
  }

  lemma NestedRight(h: Hashing, ctx: Context, a: Value, b: Value, c: Value)
    requires h.Valid() && Unifiable(h, ctx, a, b) && Unifiable(h, ctx, c, United(h, ctx, a, b))
    ensures Nested(h, ctx, a, b, c, c, United(h, ctx, a, b))
  {
    hide Unifiable, United;
  }

  lemma MixedRotates(a: Value, b: Value, c: Value)
    ensures Mixed(a, b, c) == Mixed(b, c, a)
  {
  }

  /** The edges of a value, as a union has them, whose key a second union changes. */
  ghost function ChangingEdges(h: Hashing, p: string, x: Value, m: bool): set<Edge>
    requires h.Valid() && Keyed(h, x)
  {
    Changing(EdgeStages(h, p, x, m))
  }

  ghost function ChangingAttachments(h: Hashing, p: string, x: Value): set<Attachment>
    requires h.Valid() && Keyed(h, x)
  {
    Changing(AttachmentStages(h, p, x))
  }

  /** Those edges are the synthetic ones whose endpoints do not meet. */
  lemma ChangingExactly(h: Hashing, p: string, x: Value, m: bool, e: Edge)
    requires h.Valid() && Keyed(h, x)
    ensures EdgesKeyed(h, x) && NodesKeyed(x)
    ensures e in ChangingEdges(h, p, x, m) <==>
            exists o :: o in x.edges && EdgeKeyed(h, x, o) && !Meets(h, x, o) && e == NewEdge(h, p, x, m, o)
  {
    KeyedParts(h, x);
    hide NewEdge, AgainEdge, EdgesKeyed, EdgeKeyed, Meets, Keyed;
    if e in ChangingEdges(h, p, x, m) {
      var o :| o in x.edges && EdgeKeyed(h, x, o) && e == NewEdge(h, p, x, m, o) && e != AgainEdge(h, p, x, m, o);
      StagesOfEdges(h, p, x, o, x, o, m);
    }
    if o :| o in x.edges && EdgeKeyed(h, x, o) && !Meets(h, x, o) && e == NewEdge(h, p, x, m, o) {
      StagesOfEdges(h, p, x, o, x, o, m);
      assert (NewEdge(h, p, x, m, o), AgainEdge(h, p, x, m, o)) in EdgeStages(h, p, x, m);
    }
  }

  /** A second union changes no edge exactly when all endpoints meet, and then no attachment. */
  lemma NoneChanging(h: Hashing, p: string, x: Value, m: bool)
    requires h.Valid() && Keyed(h, x)
    ensures EdgesKeyed(h, x)
    ensures ChangingEdges(h, p, x, m) == {} <==> EndpointsAgree(h, x)
    ensures EndpointsAgree(h, x) ==> ChangingAttachments(h, p, x) == {}
  {
    KeyedParts(h, x);
    if EndpointsAgree(h, x) {
      forall e ensures e !in ChangingEdges(h, p, x, m) {
        hide NewEdge, ChangingEdges, EdgesKeyed, EdgeKeyed, EndpointsMeet;
        ChangingExactly(h, p, x, m, e);
      }
      AttachmentsStay(h, p, x);
    }
    if ChangingEdges(h, p, x, m) == {} {
      hide NewEdge, ChangingEdges, EdgesKeyed, EdgeKeyed, EndpointsMeet;
      forall o | o in x.edges && Synthetic(x, o) ensures EndpointsMeet(h, x, o) {
        EdgeAmong(h, x, o);
        ChangingExactly(h, p, x, m, NewEdge(h, p, x, m, o));
      }
    }
  }

  lemma EdgeAmong(h: Hashing, x: Value, o: Edge)
    requires h.Valid() && EdgesKeyed(h, x) && o in x.edges
    ensures EdgeKeyed(h, x, o)
  {
    hide EdgeKeyed;
    var i :| 0 <= i < |x.edges| && x.edges[i] == o;
  }

  lemma AttachmentsStay(h: Hashing, p: string, x: Value)
    requires h.Valid() && Keyed(h, x) && EdgesKeyed(h, x) && EndpointsAgree(h, x)
    ensures ChangingAttachments(h, p, x) == {}
  {
    hide NewAttachment, AgainAttachment, HostKnown, EdgesKeyed, EndpointsAgree;
    forall t | t in x.attachments && HostKnown(h, x, t.host)
      ensures NewAttachment(h, p, x, t) == AgainAttachment(h, p, x, t)
    {
      HostStays(h, x, t.host);
      AttachmentKept(h, p, x, t);
    }
    assert forall s | s in AttachmentStages(h, p, x) :: s.0 == s.1;
  }

  lemma HostStays(h: Hashing, x: Value, host: Host)
    requires h.Valid() && EdgesKeyed(h, x) && HostKnown(h, x, host) && EndpointsAgree(h, x)
    ensures AgainHost(h, x, host) == NewHost(h, x, host)
  {
    hide EdgesKeyed, AllIds, AllEdgeIds, AgainIds, EndpointsMeet, AgainId, NewEdgeId;
    if host.OnEdge? || host.OnAssertion? {
      var o := AgainIdOf(h, x, if host.OnEdge? then host.edge else host.assertion);
      AgainExactly(h, x, o);
    }
  }

  /** Both bracketings of a union of three exist. */
  ghost predicate Bracketed(h: Hashing, ctx: Context, a: Value, b: Value, c: Value) {
    && h.Valid() && Unifiable(h, ctx, a, b) && Unifiable(h, ctx, United(h, ctx, a, b), c)
    && Unifiable(h, ctx, b, c) && Unifiable(h, ctx, a, United(h, ctx, b, c))
  }

  /** Union is associative on nodes and schema always; on edges and attachments exactly when the
      outer two values bring the same members whose keys a second union changes, which holds
      when neither brings any. */
  lemma UnionAssociates(h: Hashing, ctx: Context, a: Value, b: Value, c: Value)
    requires Bracketed(h, ctx, a, b, c)
    ensures Keyed(h, a) && Keyed(h, b) && Keyed(h, c)
    ensures
      var l, r := United(h, ctx, United(h, ctx, a, b), c), United(h, ctx, a, United(h, ctx, b, c));
      var p, m := ctx.principal, Mixed(a, b, c);
      && l.nodes == r.nodes && l.schema == r.schema
      && (SameGraph(l, r) <==> ChangingEdges(h, p, a, m) == ChangingEdges(h, p, c, m)
                               && ChangingAttachments(h, p, a) == ChangingAttachments(h, p, c))
  {
    var u, v, p, m := United(h, ctx, a, b), United(h, ctx, b, c), ctx.principal, Mixed(a, b, c);
    NestedLeft(h, ctx, a, b, c);
    NestedRight(h, ctx, b, c, a);
    hide *;
    MixedRotates(a, b, c);
    TripleContent(h, ctx, a, b, c, u, c);
    TripleContent(h, ctx, b, c, a, a, v);
    var l, r := United(h, ctx, u, c), United(h, ctx, a, v);
    SchemaOfUnique(h, a.schema, b.schema, c.schema, l.schema, r.schema);
    Rotate(Nodes(h, p, a, m), Nodes(h, p, b, m), Nodes(h, p, c, m));
    SameNodesSameList(h, ctx, u, c, a, v);
    EdgeBracketings(h, p, a, b, c, m);
    AttachmentBracketings(h, p, a, b, c);
    Outside(Once(EdgeStages(h, p, a, m)), Twice(EdgeStages(h, p, b, m)), Twice(EdgeStages(h, p, c, m)));
    Outside(Once(AttachmentStages(h, p, a)), Twice(AttachmentStages(h, p, b)), Twice(AttachmentStages(h, p, c)));
    SameContentSameGraph(h, ctx, u, c, a, v);
  }

  lemma Outside<T>(x: set<T>, y: set<T>, z: set<T>)
    ensures y + z + x == x + y + z
  {
  }

  lemma EdgeBracketings(h: Hashing, p: string, a: Value, b: Value, c: Value, m: bool)
    requires h.Valid() && Keyed(h, a) && Keyed(h, b) && Keyed(h, c)
    ensures EdgesKeyed(h, a) && EdgesKeyed(h, b) && EdgesKeyed(h, c)
    ensures Twice(EdgeStages(h, p, a, m)) + Twice(EdgeStages(h, p, b, m)) + Once(EdgeStages(h, p, c, m))
         == Once(EdgeStages(h, p, a, m)) + Twice(EdgeStages(h, p, b, m)) + Twice(EdgeStages(h, p, c, m))
       <==> ChangingEdges(h, p, a, m) == ChangingEdges(h, p, c, m)
  {
    hide EdgesKeyed, EdgeStages, Twice, Once, Changing;
    assert Keyed(h, a) && Keyed(h, b) && Keyed(h, c);
    hide Keyed;
    var xs := {a, b, c};
    EdgesCohere(h, p, xs, m);
    var s := AllEdgeStages(h, p, xs, m);
    CoherentWithin(EdgeStages(h, p, a, m) + EdgeStages(h, p, b, m) + EdgeStages(h, p, c, m), s);
    StagesAssociate(EdgeStages(h, p, a, m), EdgeStages(h, p, b, m), EdgeStages(h, p, c, m));
  }

  lemma AttachmentBracketings(h: Hashing, p: string, a: Value, b: Value, c: Value)
    requires h.Valid() && Keyed(h, a) && Keyed(h, b) && Keyed(h, c)
    ensures Twice(AttachmentStages(h, p, a)) + Twice(AttachmentStages(h, p, b)) + Once(AttachmentStages(h, p, c))
         == Once(AttachmentStages(h, p, a)) + Twice(AttachmentStages(h, p, b)) + Twice(AttachmentStages(h, p, c))
       <==> ChangingAttachments(h, p, a) == ChangingAttachments(h, p, c)
  {
    hide Keyed, AttachmentStages, Twice, Once, Changing;
    var xs := {a, b, c};
    AttachmentsCohere(h, p, xs);
    var s := AllAttachmentStages(h, p, xs);
    CoherentWithin(AttachmentStages(h, p, a) + AttachmentStages(h, p, b) + AttachmentStages(h, p, c), s);
    StagesAssociate(AttachmentStages(h, p, a), AttachmentStages(h, p, b), AttachmentStages(h, p, c));
  }

  lemma CoherentWithin<V(!new)>(r: set<(V, V)>, s: set<(V, V)>)
    requires Coherent(s) && r <= s
    ensures Coherent(r)
  {
  }

  /** Adding an input again changes nothing exactly when it brings every member whose key a second
      union changes, and what those change into is there already; so always when nothing changes. */
  lemma UnionAbsorbs(h: Hashing, ctx: Context, a: Value, b: Value, x: Value)
    requires h.Valid() && Unifiable(h, ctx, a, b) && x in {a, b} && Unifiable(h, ctx, United(h, ctx, a, b), x)
    ensures Keyed(h, a) && Keyed(h, b)
    ensures
      var u, p, m := United(h, ctx, a, b), ctx.principal, a.schema != b.schema;
      && United(h, ctx, u, x).nodes == u.nodes && United(h, ctx, u, x).schema == u.schema
      && (SameGraph(United(h, ctx, u, x), u) <==>
            && ChangingEdges(h, p, a, m) + ChangingEdges(h, p, b, m) == ChangingEdges(h, p, x, m)
            && Twice(EdgeStages(h, p, x, m)) <= Edges(h, p, a, m) + Edges(h, p, b, m)
            && ChangingAttachments(h, p, a) + ChangingAttachments(h, p, b) == ChangingAttachments(h, p, x)
            && Twice(AttachmentStages(h, p, x)) <= Attachments(h, p, a) + Attachments(h, p, b))
  {
    var u, p, m := United(h, ctx, a, b), ctx.principal, a.schema != b.schema;
    assert Mixed(a, b, x) == m;
    NestedLeft(h, ctx, a, b, x);
    hide *;
    UnionSchema(h, ctx, a, b);
    TripleContent(h, ctx, a, b, x, u, x);
    AbsorbedSchema(h, a.schema, b.schema, x.schema, United(h, ctx, u, x).schema);
    UnionContent(h, ctx, a, b);
    Swap(Nodes(h, p, a, m), Nodes(h, p, b, m));
    SameNodesSameList(h, ctx, u, x, a, b);
    EdgesAbsorbed(h, p, a, b, x, m);
    AttachmentsAbsorbed(h, p, a, b, x);
    SameContentSameGraph(h, ctx, u, x, a, b);
  }

  lemma EdgesAbsorbed(h: Hashing, p: string, a: Value, b: Value, x: Value, m: bool)
    requires h.Valid() && Keyed(h, a) && Keyed(h, b) && x in {a, b}
    ensures EdgesKeyed(h, a) && EdgesKeyed(h, b)
    ensures Twice(EdgeStages(h, p, a, m)) + Twice(EdgeStages(h, p, b, m)) + Once(EdgeStages(h, p, x, m))
         == Edges(h, p, a, m) + Edges(h, p, b, m)
       <==> ChangingEdges(h, p, a, m) + ChangingEdges(h, p, b, m) == ChangingEdges(h, p, x, m)
            && Twice(EdgeStages(h, p, x, m)) <= Edges(h, p, a, m) + Edges(h, p, b, m)
  {
    hide EdgesKeyed, EdgeStages, Twice, Once, Changing, Edges;
    assert Keyed(h, a) && Keyed(h, b);
    hide Keyed;
    EdgesOnce(h, p, a, m);
    EdgesOnce(h, p, b, m);
    EdgesCohere(h, p, {a, b}, m);
    CoherentWithin(EdgeStages(h, p, a, m) + EdgeStages(h, p, b, m), AllEdgeStages(h, p, {a, b}, m));
    StagesAbsorb(EdgeStages(h, p, a, m), EdgeStages(h, p, b, m), EdgeStages(h, p, x, m));
  }

  lemma AttachmentsAbsorbed(h: Hashing, p: string, a: Value, b: Value, x: Value)
    requires h.Valid() && Keyed(h, a) && Keyed(h, b) && x in {a, b}
    ensures Twice(AttachmentStages(h, p, a)) + Twice(AttachmentStages(h, p, b)) + Once(AttachmentStages(h, p, x))
         == Attachments(h, p, a) + Attachments(h, p, b)
       <==> ChangingAttachments(h, p, a) + ChangingAttachments(h, p, b) == ChangingAttachments(h, p, x)
            && Twice(AttachmentStages(h, p, x)) <= Attachments(h, p, a) + Attachments(h, p, b)
  {
    hide Keyed, AttachmentStages, Twice, Once, Changing, Attachments;
    AttachmentsOnce(h, p, a);
    AttachmentsOnce(h, p, b);
    AttachmentsCohere(h, p, {a, b});
    CoherentWithin(AttachmentStages(h, p, a) + AttachmentStages(h, p, b), AllAttachmentStages(h, p, {a, b}));
    StagesAbsorb(AttachmentStages(h, p, a), AttachmentStages(h, p, b), AttachmentStages(h, p, x));
  }

  lemma AbsorbedSchema(h: Hashing, a: Option<Schema>, b: Option<Schema>, x: Option<Schema>, r: Option<Schema>)
    requires MergedSchema(h, a, b).Ok? && x in {a, b} && IsSchemaOf(h, a, b, x, r)
    ensures r == MergedSchema(h, a, b).value
  {
    hide NodePairs, EdgePairs, Functional, AsMap;
    if a != b {
      assert NodePairs(h, a.value) + NodePairs(h, b.value) + NodePairs(h, x.value)
          == NodePairs(h, a.value) + NodePairs(h, b.value);
      assert EdgePairs(h, a.value) + EdgePairs(h, b.value) + EdgePairs(h, x.value)
          == EdgePairs(h, a.value) + EdgePairs(h, b.value);
    }
  }

  /** A union united with itself is itself exactly when the endpoints of every synthetic edge of
      the inputs meet. */
  lemma UnionIdempotent(h: Hashing, ctx: Context, a: Value, b: Value)
    requires h.Valid() && Unifiable(h, ctx, a, b) && Unifiable(h, ctx, United(h, ctx, a, b), United(h, ctx, a, b))
    ensures EdgesKeyed(h, a) && EdgesKeyed(h, b)
    ensures SameGraph(United(h, ctx, United(h, ctx, a, b), United(h, ctx, a, b)), United(h, ctx, a, b))
       <==> BothAgree(h, a, b)
  {
    var u, p, m := United(h, ctx, a, b), ctx.principal, a.schema != b.schema;
    SelfSchema(h, ctx, u);
    UnionContent(h, ctx, u, u);
    UnionContent(h, ctx, a, b);
    hide *;
    KeyedParts(h, a);
    KeyedParts(h, b);
    KeyedParts(h, u);
    NodesTwice(h, ctx, a, b, false);
    EdgesTwice(h, ctx, a, b, false);
    AttachmentsTwice(h, ctx, a, b);
    Swap(Nodes(h, p, u, false), Nodes(h, p, u, false));
    Swap(Edges(h, p, u, false), Edges(h, p, u, false));
    Swap(Attachments(h, p, u), Attachments(h, p, u));
    Settles(h, p, a, b, m);
    SameContentSameGraph(h, ctx, u, u, a, b);
  }

  lemma SelfSchema(h: Hashing, ctx: Context, u: Value)
    requires h.Valid() && Unifiable(h, ctx, u, u)
    ensures United(h, ctx, u, u).schema == u.schema
  {
    UnionSchema(h, ctx, u, u);
    hide Unifiable, United;
  }

  lemma EdgesSettle(h: Hashing, p: string, a: Value, b: Value, m: bool)
    requires h.Valid() && Keyed(h, a) && Keyed(h, b) && EdgesKeyed(h, a) && EdgesKeyed(h, b)
    ensures Twice(EdgeStages(h, p, a, m)) + Twice(EdgeStages(h, p, b, m)) == Edges(h, p, a, m) + Edges(h, p, b, m)
       <==> Changing(EdgeStages(h, p, a, m)) + Changing(EdgeStages(h, p, b, m)) == {}
  {
    hide EdgesKeyed, EdgeStages, Twice, Once, Changing, Edges, Keyed;
    EdgesOnce(h, p, a, m);
    EdgesOnce(h, p, b, m);
    EdgesCohere(h, p, {a, b}, m);
    CoherentWithin(EdgeStages(h, p, a, m) + EdgeStages(h, p, b, m), AllEdgeStages(h, p, {a, b}, m));
    hide Coherent, AllEdgeStages;
    StagesIdempotent(EdgeStages(h, p, a, m), EdgeStages(h, p, b, m));
  }

  lemma AttachmentsSettle(h: Hashing, p: string, x: Value)
    requires h.Valid() && Keyed(h, x) && ChangingAttachments(h, p, x) == {}
    ensures Twice(AttachmentStages(h, p, x)) == Attachments(h, p, x)
  {
    hide AttachmentStages, Twice, Once, Changing, Attachments, Keyed;
    AttachmentsOnce(h, p, x);
    NothingChanges(AttachmentStages(h, p, x));
  }

  lemma ChangingIs(h: Hashing, p: string, x: Value, m: bool)
    requires h.Valid() && Keyed(h, x) && EdgesKeyed(h, x)
    ensures ChangingEdges(h, p, x, m) == Changing(EdgeStages(h, p, x, m))
  {
  }

  lemma BothAgreeIs(h: Hashing, a: Value, b: Value)
    requires h.Valid() && EdgesKeyed(h, a) && EdgesKeyed(h, b)
    ensures BothAgree(h, a, b) <==> EndpointsAgree(h, a) && EndpointsAgree(h, b)
  {
  }

  /** Two normalisations give what one gives exactly when all endpoints meet. */
  lemma Settles(h: Hashing, p: string, a: Value, b: Value, m: bool)
    requires h.Valid() && Keyed(h, a) && Keyed(h, b)
    ensures EdgesKeyed(h, a) && EdgesKeyed(h, b)
    ensures Twice(EdgeStages(h, p, a, m)) + Twice(EdgeStages(h, p, b, m)) == Edges(h, p, a, m) + Edges(h, p, b, m)
       <==> BothAgree(h, a, b)
    ensures BothAgree(h, a, b) ==>
              Twice(AttachmentStages(h, p, a)) + Twice(AttachmentStages(h, p, b)) == Attachments(h, p, a) + Attachments(h, p, b)
  {
    KeyedParts(h, a);
    KeyedParts(h, b);
    hide *;
    NoneChanging(h, p, a, m);
    NoneChanging(h, p, b, m);
    ChangingIs(h, p, a, m);
    ChangingIs(h, p, b, m);
    EdgesSettle(h, p, a, b, m);
    BothAgreeIs(h, a, b);
    if BothAgree(h, a, b) {
      AttachmentsSettle(h, p, a);
      AttachmentsSettle(h, p, b);
    }
  }

  // ----- a condition on the inputs alone -----

  /** No two nodes with one id. */
  predicate DistinctNodes(x: Value) {
    forall i, j | 0 <= i < j < |x.nodes| :: x.nodes[i].id != x.nodes[j].id
  }

  lemma {:induction false} LastIsFirst(h: Hashing, x: Value, k: nat, i: nat)
    requires h.Valid() && NodesKeyed(x) && DistinctNodes(x) && i < k <= |x.nodes|
    ensures x.nodes[i].id in NodeIds(h, x, k) && NodeIds(h, x, k)[x.nodes[i].id] == NodeKey(h, x, x.nodes[i])
  {
    hide NodeKey;
    if i < k - 1 { LastIsFirst(h, x, k - 1, i); }
  }

  lemma EndpointIsId(h: Hashing, x: Value, id: string)
    requires h.Valid() && NodesKeyed(x) && DistinctNodes(x) && EndpointKey(h, x, id).Some?
    ensures id in AllIds(h, x) && EndpointKey(h, x, id) == Some(AllIds(h, x)[id])
  {
    hide NodeKey;
    FirstNodeId(x.nodes, id);
    var n := FirstNode(x.nodes, id).value;
    var i :| 0 <= i < |x.nodes| && x.nodes[i] == n;
    LastIsFirst(h, x, |x.nodes|, i);
  }

  /** Where no two nodes share an id, endpoints meet, and with that every law holds. */
  lemma DistinctNodesAgree(h: Hashing, x: Value)
    requires h.Valid() && EdgesKeyed(h, x) && DistinctNodes(x)
    ensures EndpointsAgree(h, x)
  {
    KeyedParts(h, x);
    forall e | e in x.edges && Synthetic(x, e) ensures EndpointsMeet(h, x, e) {
      EdgeAmong(h, x, e);
      hide EdgesKeyed, DistinctNodes, EndpointKey, AllIds;
      SyntheticParts(h, x, e);
      EndpointIsId(h, x, e.from);
      EndpointIsId(h, x, e.to);
    }
  }

  lemma LawsHold(h: Hashing, ctx: Context, a: Value, b: Value, c: Value)
    requires Bracketed(h, ctx, a, b, c) && DistinctNodes(a) && DistinctNodes(b) && DistinctNodes(c)
    ensures SameGraph(United(h, ctx, United(h, ctx, a, b), c), United(h, ctx, a, United(h, ctx, b, c)))
    ensures c in {a, b} ==> SameGraph(United(h, ctx, United(h, ctx, a, b), c), United(h, ctx, a, b))
  {
    var p, m, n := ctx.principal, Mixed(a, b, c), a.schema != b.schema;
    assert h.Valid() && Unifiable(h, ctx, a, b) && Unifiable(h, ctx, United(h, ctx, a, b), c);
    hide *;
    UnionAssociates(h, ctx, a, b, c);
    forall x | x in {a, b, c}
      ensures Keyed(h, x) && ChangingEdges(h, p, x, m) == {} && ChangingAttachments(h, p, x) == {}
      ensures EdgesKeyed(h, x) && EndpointsAgree(h, x)
    {
      KeyedParts(h, x);
      DistinctNodesAgree(h, x);
      NoneChanging(h, p, x, m);
    }
    if c in {a, b} {
      UnionAbsorbs(h, ctx, a, b, c);
      NoneChanging(h, p, a, n);
      NoneChanging(h, p, b, n);
      NoneChanging(h, p, c, n);
      Settles(h, p, a, b, n);
      TwiceWithin(h, p, a, b, c, n);
    }
  }

  lemma TwiceWithin(h: Hashing, p: string, a: Value, b: Value, x: Value, m: bool)
    requires h.Valid() && Keyed(h, a) && Keyed(h, b) && x in {a, b} && EdgesKeyed(h, a) && EdgesKeyed(h, b)
    requires Twice(EdgeStages(h, p, a, m)) + Twice(EdgeStages(h, p, b, m)) == Edges(h, p, a, m) + Edges(h, p, b, m)
    requires Twice(AttachmentStages(h, p, a)) + Twice(AttachmentStages(h, p, b))
          == Attachments(h, p, a) + Attachments(h, p, b)
    ensures Twice(EdgeStages(h, p, x, m)) <= Edges(h, p, a, m) + Edges(h, p, b, m)
    ensures Twice(AttachmentStages(h, p, x)) <= Attachments(h, p, a) + Attachments(h, p, b)
  {
    hide Edges, Attachments, EdgeStages, AttachmentStages, Twice, Keyed, EdgesKeyed;
  }
}
