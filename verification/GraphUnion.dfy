/** `union` of graph values: membership by content key, conflicts refused, schemas merged. */
module GraphUnion {
  import opened Orders
  import opened Restrictions
  import opened GraphValues

  datatype Code = NoPrincipal | Refused | SchemaMismatch | SchemaCollision | OriginMissing | OriginConflict | LimitReached

  datatype Outcome<T> = Ok(value: T) | Err(code: Code)

  // ----- schemas -----

  function Retyped(h: Hashing, s: Schema, d: EdgeType): EdgeType {
    d.(fromType := TypeKey(h, s, d.fromType), toType := TypeKey(h, s, d.toType))
  }

  function NodePairs(h: Hashing, s: Schema): set<(string, Json)> {
    set id | id in s.nodes :: (TypeKey(h, s, id), s.nodes[id])
  }

  function EdgePairs(h: Hashing, s: Schema): set<(string, EdgeType)> {
    set id | id in s.edges :: (TypeKey(h, s, id), Retyped(h, s, s.edges[id]))
  }

  /** No name with two meanings. */
  predicate Functional<V(==)>(ps: set<(string, V)>) {
    forall p, q | p in ps && q in ps && p.0 == q.0 :: p.1 == q.1
  }

  function AsMap<V(==)>(ps: set<(string, V)>): map<string, V>
    requires Functional(ps)
  {
    map p | p in ps :: p.0 := p.1
  }

  function Bundle(h: Hashing, ns: set<(string, Json)>, es: set<(string, EdgeType)>): Schema
    requires Functional(ns) && Functional(es)
  {
    Schema(SCHEMA_PREFIX + h.key(SchemaTerm(AsMap(ns), AsMap(es))), "1", AsMap(ns), AsMap(es))
  }

  /** Equal schemas stay; different ones are merged under canonical names. */
  function MergedSchema(h: Hashing, a: Option<Schema>, b: Option<Schema>): Outcome<Option<Schema>> {
    if a.None? && b.None? then Ok(None)
    else if a.None? || b.None? then Err(SchemaMismatch)
    else if a == b then Ok(a)
    else
      var ns := NodePairs(h, a.value) + NodePairs(h, b.value);
      var es := EdgePairs(h, a.value) + EdgePairs(h, b.value);
      if Functional(ns) && Functional(es) then Ok(Some(Bundle(h, ns, es))) else Err(SchemaCollision)
  }

  /** A map that holds exactly these pairs. */
  ghost predicate Holds<V>(m: map<string, V>, ps: set<(string, V)>) {
    && (forall k | k in m :: (k, m[k]) in ps)
    && (forall p | p in ps :: p.0 in m && m[p.0] == p.1)
  }

  lemma HoldsIsMap<V>(m: map<string, V>, ps: set<(string, V)>)
    requires Holds(m, ps)
    ensures Functional(ps) && AsMap(ps) == m
  {
  }

  lemma HoldsStep<V>(m: map<string, V>, done: set<(string, V)>, name: string, def: V, whole: set<(string, V)>)
    requires Holds(m, done) && done + {(name, def)} <= whole
    ensures name !in m || m[name] == def ==> Holds(m[name := def], done + {(name, def)})
    ensures name in m && m[name] != def ==> !Functional(whole)
  {
    if name in m && m[name] != def {
      assert (name, m[name]) in whole && (name, def) in whole;
    }
  }

  function PairsUpTo<V(==)>(names: seq<string>, defs: seq<V>, n: nat): set<(string, V)>
    requires n <= |names| == |defs|
  {
    set j | 0 <= j < n :: (names[j], defs[j])
  }

  lemma OneMorePair<V>(names: seq<string>, defs: seq<V>, n: nat)
    requires n < |names| == |defs|
    ensures PairsUpTo(names, defs, n + 1) == PairsUpTo(names, defs, n) + {(names[n], defs[n])}
    ensures PairsUpTo(names, defs, n + 1) <= PairsUpTo(names, defs, |names|)
  {
  }

  /** Definitions under canonical names, added to those already there. */
  method AddTypes<V(==)>(names: seq<string>, defs: seq<V>, start: map<string, V>, ghost before: set<(string, V)>)
      returns (ok: bool, m: map<string, V>)
    requires |names| == |defs| && Holds(start, before)
    ensures ok <==> Functional(before + PairsUpTo(names, defs, |names|))
    ensures ok ==> Holds(m, before + PairsUpTo(names, defs, |names|))
  {
    m := start;
    assert before + PairsUpTo(names, defs, 0) == before;
    for i := 0 to |names|
      invariant Holds(m, before + PairsUpTo(names, defs, i))
    {
      var name, def := names[i], defs[i];
      OneMorePair(names, defs, i);
      HoldsStep(m, before + PairsUpTo(names, defs, i), name, def, before + PairsUpTo(names, defs, |names|));
      assert before + PairsUpTo(names, defs, i) + {(name, def)} == before + PairsUpTo(names, defs, i + 1);
      if name in m && m[name] != def { return false, m; }
      m := m[name := def];
    }
    HoldsIsMap(m, before + PairsUpTo(names, defs, |names|));
    ok := true;
  }

  function NodeNames(h: Hashing, s: Schema): seq<string> {
    var ids := SortStrings(s.nodes.Keys);
    seq(|ids|, i requires 0 <= i < |ids| => TypeKey(h, s, ids[i]))
  }

  function NodeDefs(s: Schema): seq<Json> {
    var ids := SortStrings(s.nodes.Keys);
    assert forall i | 0 <= i < |ids| :: ids[i] in Elements(ids);
    seq(|ids|, i requires 0 <= i < |ids| => s.nodes[ids[i]])
  }

  function EdgeNames(h: Hashing, s: Schema): seq<string> {
    var ids := SortStrings(s.edges.Keys);
    seq(|ids|, i requires 0 <= i < |ids| => TypeKey(h, s, ids[i]))
  }

  function EdgeDefs(h: Hashing, s: Schema): seq<EdgeType> {
    var ids := SortStrings(s.edges.Keys);
    assert forall i | 0 <= i < |ids| :: ids[i] in Elements(ids);
    seq(|ids|, i requires 0 <= i < |ids| => Retyped(h, s, s.edges[ids[i]]))
  }

  lemma NodePairsListed(h: Hashing, s: Schema)
    ensures PairsUpTo(NodeNames(h, s), NodeDefs(s), |NodeNames(h, s)|) == NodePairs(h, s)
  {
    hide TypeKey, Ascending;
    var ids := SortStrings(s.nodes.Keys);
    forall id | id in s.nodes
      ensures (TypeKey(h, s, id), s.nodes[id]) in PairsUpTo(NodeNames(h, s), NodeDefs(s), |ids|)
    {
      assert id in Elements(ids);
      var i :| 0 <= i < |ids| && ids[i] == id;
      assert NodeNames(h, s)[i] == TypeKey(h, s, id) && NodeDefs(s)[i] == s.nodes[id];
    }
    forall i | 0 <= i < |ids| ensures (NodeNames(h, s)[i], NodeDefs(s)[i]) in NodePairs(h, s) {
      assert ids[i] in Elements(ids);
    }
  }

  lemma EdgePairsListed(h: Hashing, s: Schema)
    ensures PairsUpTo(EdgeNames(h, s), EdgeDefs(h, s), |EdgeNames(h, s)|) == EdgePairs(h, s)
  {
    hide TypeKey, Retyped, Ascending;
    var ids := SortStrings(s.edges.Keys);
    forall id | id in s.edges
      ensures (TypeKey(h, s, id), Retyped(h, s, s.edges[id])) in PairsUpTo(EdgeNames(h, s), EdgeDefs(h, s), |ids|)
    {
      assert id in Elements(ids);
      var i :| 0 <= i < |ids| && ids[i] == id;
      assert EdgeNames(h, s)[i] == TypeKey(h, s, id) && EdgeDefs(h, s)[i] == Retyped(h, s, s.edges[id]);
    }
    forall i | 0 <= i < |ids| ensures (EdgeNames(h, s)[i], EdgeDefs(h, s)[i]) in EdgePairs(h, s) {
      assert ids[i] in Elements(ids);
    }
  }

  method MergeSchema(h: Hashing, a: Option<Schema>, b: Option<Schema>) returns (r: Outcome<Option<Schema>>)
    ensures r == MergedSchema(h, a, b)
  {
    if a.None? && b.None? { return Ok(None); }
    if a.None? || b.None? { return Err(SchemaMismatch); }
    if a == b { return Ok(a); }
    hide NodePairs, EdgePairs, PairsUpTo, NodeNames, NodeDefs, EdgeNames, EdgeDefs;
    var s, t := a.value, b.value;
    NodePairsListed(h, s);
    NodePairsListed(h, t);
    EdgePairsListed(h, s);
    EdgePairsListed(h, t);
    ghost var ns, es := NodePairs(h, s), EdgePairs(h, s);
    assert {} + ns == ns && {} + es == es;
    var ok, nodes := AddTypes(NodeNames(h, s), NodeDefs(s), map[], {});
    if !ok {
      Subset(ns, NodePairs(h, t));
      return Err(SchemaCollision);
    }
    var edges;
    ok, edges := AddTypes(EdgeNames(h, s), EdgeDefs(h, s), map[], {});
    if !ok {
      Subset(es, EdgePairs(h, t));
      return Err(SchemaCollision);
    }
    ok, nodes := AddTypes(NodeNames(h, t), NodeDefs(t), nodes, ns);
    if !ok { return Err(SchemaCollision); }
    ok, edges := AddTypes(EdgeNames(h, t), EdgeDefs(h, t), edges, es);
    if !ok { return Err(SchemaCollision); }
    HoldsIsMap(nodes, ns + NodePairs(h, t));
    HoldsIsMap(edges, es + EdgePairs(h, t));
    return Ok(Some(Schema(SCHEMA_PREFIX + h.key(SchemaTerm(nodes, edges)), "1", nodes, edges)));
  }

  lemma Subset<V>(ps: set<(string, V)>, qs: set<(string, V)>)
    ensures Functional(ps + qs) ==> Functional(ps)
  {
  }

  // ----- the union as a value -----

  /** The host's principal and object limit, and the validators this model does not open. */
  datatype Context = Context(principal: string, objects: nat, accepts: Value -> bool, conforms: Value -> bool)

  function Count(x: Value): nat {
    |x.nodes| + |x.edges| + |x.attachments|
  }

  predicate Preflight(ctx: Context, x: Value) {
    ctx.accepts(x) && Count(x) <= ctx.objects && ctx.objects >= 1
  }

  predicate Remaps(x: Value, schema: Option<Schema>) {
    x.schema.Some? && x.schema != schema
  }

  function BothNodes(h: Hashing, p: string, a: Value, b: Value, schema: Option<Schema>): seq<Entry<Node>>
    requires h.Valid() && NodesKeyed(a) && NodesKeyed(b)
  {
    NodeEntries(h, p, a, Remaps(a, schema)) + NodeEntries(h, p, b, Remaps(b, schema))
  }

  function BothEdges(h: Hashing, p: string, a: Value, b: Value, schema: Option<Schema>): seq<Entry<Edge>>
    requires h.Valid() && EdgesKeyed(h, a) && EdgesKeyed(h, b)
  {
    EdgeEntries(h, p, a, Remaps(a, schema)) + EdgeEntries(h, p, b, Remaps(b, schema))
  }

  function BothAttachments(h: Hashing, p: string, a: Value, b: Value): seq<Entry<Attachment>>
    requires h.Valid() && Keyed(h, a) && Keyed(h, b)
  {
    AttachmentEntries(h, p, a) + AttachmentEntries(h, p, b)
  }

  function Assemble(schema: Option<Schema>, nodes: map<string, Entry<Node>>, edges: map<string, Entry<Edge>>,
                    attachments: map<string, Entry<Attachment>>): Value {
    Value(InOrder(nodes), InOrder(edges), InOrder(attachments), schema,
          Origins(nodes), Origins(edges), Origins(attachments))
  }

  function UnionOf(h: Hashing, p: string, a: Value, b: Value, schema: Option<Schema>): Value
    requires h.Valid() && Keyed(h, a) && Keyed(h, b)
  {
    Assemble(schema, Merged(BothNodes(h, p, a, b, schema)), Merged(BothEdges(h, p, a, b, schema)),
             Merged(BothAttachments(h, p, a, b)))
  }

  function UnionSize(h: Hashing, p: string, a: Value, b: Value, schema: Option<Schema>): nat
    requires h.Valid() && Keyed(h, a) && Keyed(h, b)
  {
    |Merged(BothNodes(h, p, a, b, schema))| + |Merged(BothEdges(h, p, a, b, schema))|
    + |Merged(BothAttachments(h, p, a, b))|
  }

  const MAX_INFLUENCE := 1000

  predicate BoundedInfluence(x: Value) {
    forall i | 0 <= i < |x.nodes| ::
      |x.nodes[i].derivedFrom| + |x.nodes[i].derivedNodes| + |x.nodes[i].derivedSnapshots| <= MAX_INFLUENCE
  }

  predicate HasNode(x: Value, id: string) {
    exists i | 0 <= i < |x.nodes| :: x.nodes[i].id == id
  }

  /** Endpoints are present; objects are typed exactly when there is a schema, by names in it. */
  predicate WellTyped(x: Value) {
    && (forall i | 0 <= i < |x.edges| :: HasNode(x, x.edges[i].from) && HasNode(x, x.edges[i].to))
    && (x.schema.None? ==>
          (forall i | 0 <= i < |x.nodes| :: x.nodes[i].typeId.None?)
          && (forall i | 0 <= i < |x.edges| :: x.edges[i].typeId.None?))
    && (x.schema.Some? ==>
          (forall i | 0 <= i < |x.nodes| :: x.nodes[i].typeId.Some? && x.nodes[i].typeId.value in x.schema.value.nodes)
          && (forall i | 0 <= i < |x.edges| :: x.edges[i].typeId.Some? && x.edges[i].typeId.value in x.schema.value.edges))
  }

  predicate Checked(ctx: Context, x: Value) {
    ctx.principal != "" && BoundedInfluence(x) && WellTyped(x) && ctx.conforms(x) && Preflight(ctx, x)
  }

  predicate TypedBy<V>(schema: Option<Schema>, typeId: Option<string>, known: map<string, V>) {
    if schema.None? then typeId.None? else typeId.Some? && typeId.value in known
  }

  /** The closing check, member by member: within the object limit, at most a thousand influences a node,
      no edge without its endpoints, and types exactly where there is a schema that has them. */
  lemma CheckedExactly(ctx: Context, x: Value)
    ensures
      var ids := set n | n in x.nodes :: n.id;
      Checked(ctx, x) <==>
        && ctx.principal != "" && ctx.accepts(x) && ctx.conforms(x)
        && |x.nodes| + |x.edges| + |x.attachments| <= ctx.objects && 1 <= ctx.objects
        && (forall n | n in x.nodes :: |n.derivedFrom| + |n.derivedNodes| + |n.derivedSnapshots| <= 1000)
        && (forall e | e in x.edges :: e.from in ids && e.to in ids)
        && (forall n | n in x.nodes :: TypedBy(x.schema, n.typeId, if x.schema.Some? then x.schema.value.nodes else map[]))
        && (forall e | e in x.edges :: TypedBy(x.schema, e.typeId, if x.schema.Some? then x.schema.value.edges else map[]))
  {
    var ids := set n | n in x.nodes :: n.id;
    forall id ensures HasNode(x, id) <==> id in ids {
      if HasNode(x, id) { var i :| 0 <= i < |x.nodes| && x.nodes[i].id == id; assert x.nodes[i] in x.nodes; }
      if id in ids {
        var n :| n in x.nodes && n.id == id;
        var i :| 0 <= i < |x.nodes| && x.nodes[i] == n;
      }
    }
    hide HasNode;
    assert forall i | 0 <= i < |x.nodes| :: x.nodes[i] in x.nodes;
    assert forall i | 0 <= i < |x.edges| :: x.edges[i] in x.edges;
    assert BoundedInfluence(x) <==> forall n | n in x.nodes :: |n.derivedFrom| + |n.derivedNodes| + |n.derivedSnapshots| <= 1000;
  }

  /** Exactly when the union succeeds. */
  predicate Unifiable(h: Hashing, ctx: Context, a: Value, b: Value)
    requires h.Valid()
  {
    var schema := MergedSchema(h, a.schema, b.schema);
    && Preflight(ctx, a) && Preflight(ctx, b) && schema.Ok? && Keyed(h, a) && Keyed(h, b)
    && Agree(BothNodes(h, ctx.principal, a, b, schema.value))
    && Agree(BothEdges(h, ctx.principal, a, b, schema.value))
    && UnionSize(h, ctx.principal, a, b, schema.value) <= ctx.objects
    && Checked(ctx, UnionOf(h, ctx.principal, a, b, schema.value))
  }

  /** The union of two values that can be united. */
  function United(h: Hashing, ctx: Context, a: Value, b: Value): Value
    requires h.Valid() && Unifiable(h, ctx, a, b)
  {
    UnionOf(h, ctx.principal, a, b, MergedSchema(h, a.schema, b.schema).value)
  }

  // ----- the loops -----

  /** One member absorbed: refused on disagreement or when no object is left. */
  method Absorb<V(==)>(m: map<string, Entry<V>>, e: Entry<V>, room: nat)
      returns (ok: bool, next: map<string, Entry<V>>, left: nat)
    ensures ok <==> (e.key in m ==> m[e.key].value == e.value) && (e.key !in m ==> room > 0)
    ensures ok ==> next == (if e.key in m then m else m[e.key := e]) && |m| + room == |next| + left
  {
    next, left := m, room;
    if e.key in m { return m[e.key].value == e.value, m, room; }
    if room == 0 { return false, m, room; }
    return true, m[e.key := e], room - 1;
  }

  /** Whether entries can be added without disagreement and within the room there is. */
  ghost predicate Absorbs<V>(m: map<string, Entry<V>>, es: seq<Entry<V>>, room: nat) {
    Joins(m, es) && |Extend(m, es)| <= |m| + room
  }

  lemma AbsorbStep<V>(m: map<string, Entry<V>>, es: seq<Entry<V>>, e: Entry<V>, room: nat)
    requires Absorbs(m, es, room)
    ensures
      var now := Extend(m, es);
      && Extend(m, es + [e]) == (if e.key in now then now else now[e.key := e])
      && (Absorbs(m, es + [e], room) <==>
            (e.key in now ==> now[e.key].value == e.value) && (e.key !in now ==> |now| < |m| + room))
  {
    assert (es + [e])[..|es|] == es;
  }

  lemma AbsorbPrefix<V>(m: map<string, Entry<V>>, p: seq<Entry<V>>, q: seq<Entry<V>>, room: nat)
    requires Absorbs(m, p + q, room)
    ensures Absorbs(m, p, room)
  {
    JoinsConcat(m, p, q);
    ExtendConcat(m, p, q);
    ExtendGrows(Extend(m, p), q);
  }

  method GatherNodes(h: Hashing, p: string, x: Value, remap: bool, start: map<string, Entry<Node>>, room: nat)
      returns (ok: bool, nodes: map<string, Entry<Node>>, ids: map<string, string>, left: nat)
    requires h.Valid()
    ensures ok <==> NodesKeyed(x) && Absorbs(start, NodeEntries(h, p, x, remap), room)
    ensures ok ==> nodes == Extend(start, NodeEntries(h, p, x, remap)) && ids == AllIds(h, x)
                   && |nodes| + left == |start| + room
  {
    hide NodeKey, NewNode, Joins, Extend, Absorbs;
    nodes, ids, left := start, map[], room;
    ghost var es: seq<Entry<Node>> := [];
    NothingAbsorbed(start, room);
    for i := 0 to |x.nodes|
      invariant |es| == i && forall j | 0 <= j < i :: x.nodes[j].id in x.nodeOrigins
                                                      && es[j] == NodeEntry(h, p, x, remap, x.nodes[j])
      invariant Absorbs(start, es, room) && nodes == Extend(start, es) && |nodes| + left == |start| + room
      invariant NodesKeyed(x) ==> ids == NodeIds(h, x, i)
    {
      var n := x.nodes[i];
      if n.id !in x.nodeOrigins { return false, nodes, ids, left; }
      var e := NodeEntry(h, p, x, remap, n);
      AbsorbStep(start, es, e, room);
      ids := ids[n.id := e.key];
      ok, nodes, left := Absorb(nodes, e, left);
      if !ok {
        if NodesKeyed(x) {
          NotAbsorbed(start, es + [e], NodeEntries(h, p, x, remap), room);
        }
        return;
      }
      es := es + [e];
    }
    assert es == NodeEntries(h, p, x, remap);
    ok := true;
  }

  lemma NothingAbsorbed<V>(m: map<string, Entry<V>>, room: nat)
    ensures Absorbs(m, [], room) && Extend(m, []) == m
  {
  }

  lemma NotAbsorbed<V>(m: map<string, Entry<V>>, p: seq<Entry<V>>, whole: seq<Entry<V>>, room: nat)
    requires |p| <= |whole| && (forall i | 0 <= i < |p| :: whole[i] == p[i]) && !Absorbs(m, p, room)
    ensures !Absorbs(m, whole, room)
  {
    assert whole == p + whole[|p|..];
    if Absorbs(m, whole, room) { AbsorbPrefix(m, p, whole[|p|..], room); }
  }

  /** The entries of the first edges, all of which have keys. */
  ghost predicate EdgesDone(h: Hashing, p: string, x: Value, remap: bool, es: seq<Entry<Edge>>)
    requires h.Valid() && NodesKeyed(x)
  {
    |es| <= |x.edges| && forall j | 0 <= j < |es| :: EdgeKeyed(h, x, x.edges[j])
                                                     && es[j] == EdgeEntry(h, p, x, remap, x.edges[j])
  }

  lemma NoEdgesDone(h: Hashing, p: string, x: Value, remap: bool)
    requires h.Valid() && NodesKeyed(x)
    ensures EdgesDone(h, p, x, remap, [])
  {
  }

  lemma OneEdgeDone(h: Hashing, p: string, x: Value, remap: bool, es: seq<Entry<Edge>>)
    requires h.Valid() && NodesKeyed(x) && EdgesDone(h, p, x, remap, es)
    requires |es| < |x.edges| && EdgeKeyed(h, x, x.edges[|es|])
    ensures EdgesDone(h, p, x, remap, es + [EdgeEntry(h, p, x, remap, x.edges[|es|])])
  {
  }

  lemma AllEdgesDone(h: Hashing, p: string, x: Value, remap: bool, es: seq<Entry<Edge>>)
    requires h.Valid() && NodesKeyed(x) && EdgesDone(h, p, x, remap, es) && |es| == |x.edges|
    ensures EdgesKeyed(h, x) && es == EdgeEntries(h, p, x, remap)
  {
    hide EdgeEntry, EdgeKeyed;
  }

  lemma EdgesNotAbsorbed(h: Hashing, p: string, x: Value, remap: bool, es: seq<Entry<Edge>>,
                         start: map<string, Entry<Edge>>, room: nat)
    requires h.Valid() && NodesKeyed(x) && EdgesDone(h, p, x, remap, es) && !Absorbs(start, es, room)
    ensures !(EdgesKeyed(h, x) && Absorbs(start, EdgeEntries(h, p, x, remap), room))
  {
    hide EdgeEntry, EdgeKeyed, Absorbs;
    if EdgesKeyed(h, x) { NotAbsorbed(start, es, EdgeEntries(h, p, x, remap), room); }
  }

  method GatherEdges(h: Hashing, p: string, x: Value, remap: bool, ids: map<string, string>,
                     start: map<string, Entry<Edge>>, room: nat)
      returns (ok: bool, edges: map<string, Entry<Edge>>, edgeIds: map<string, string>, left: nat)
    requires h.Valid() && NodesKeyed(x) && ids == AllIds(h, x)
    ensures ok <==> EdgesKeyed(h, x) && Absorbs(start, EdgeEntries(h, p, x, remap), room)
    ensures ok ==> edges == Extend(start, EdgeEntries(h, p, x, remap)) && edgeIds == AllEdgeIds(h, x)
                   && |edges| + left == |start| + room
  {
    hide EdgeKey, NewEdge, NewEdgeId, OriginsOf, Joins, Extend, Absorbs, NodeIds, EdgesDone;
    NoEdgesDone(h, p, x, remap);
    edges, edgeIds, left := start, map[], room;
    ghost var es: seq<Entry<Edge>> := [];
    NothingAbsorbed(start, room);
    for i := 0 to |x.edges|
      invariant |es| == i && EdgesDone(h, p, x, remap, es)
      invariant Absorbs(start, es, room) && edges == Extend(start, es) && |edges| + left == |start| + room
      invariant EdgesKeyed(h, x) ==> edgeIds == EdgeIds(h, x, i)
    {
      var edge := x.edges[i];
      var base := EdgeKey(h, x, edge);
      if base.None? || edge.from !in ids || edge.to !in ids { return false, edges, edgeIds, left; }
      var e := EdgeEntry(h, p, x, remap, edge);
      AbsorbStep(start, es, e, room);
      OneEdgeDone(h, p, x, remap, es);
      edgeIds := edgeIds[edge.id := e.key];
      ok, edges, left := Absorb(edges, e, left);
      if !ok {
        EdgesNotAbsorbed(h, p, x, remap, es + [e], start, room);
        return;
      }
      es := es + [e];
    }
    AllEdgesDone(h, p, x, remap, es);
    ok := true;
  }

  method GatherAttachments(h: Hashing, p: string, x: Value, ids: map<string, string>, edgeIds: map<string, string>,
                           start: map<string, Entry<Attachment>>, room: nat)
      returns (ok: bool, attachments: map<string, Entry<Attachment>>, left: nat)
    requires h.Valid() && EdgesKeyed(h, x) && ids == AllIds(h, x) && edgeIds == AllEdgeIds(h, x)
    ensures ok <==> Keyed(h, x) && |Extend(start, AttachmentEntries(h, p, x))| <= |start| + room
    ensures ok ==> attachments == Extend(start, AttachmentEntries(h, p, x)) && |attachments| + left == |start| + room
  {
    hide NewAttachment, Extend, NodeIds, EdgeIds, EdgesKeyed;
    attachments, left := start, room;
    ghost var es: seq<Entry<Attachment>> := [];
    NothingAbsorbed(start, room);
    for i := 0 to |x.attachments|
      invariant |es| == i && forall j | 0 <= j < i :: HostKnown(h, x, x.attachments[j].host)
                                                      && es[j] == AttachmentEntry(h, p, x, x.attachments[j])
      invariant attachments == Extend(start, es) && |attachments| + left == |start| + room
    {
      var a := x.attachments[i];
      if !HostKnown(h, x, a.host) { return false, attachments, left; }
      var e := AttachmentEntry(h, p, x, a);
      assert (es + [e])[..|es|] == es;
      ExtendStep(start, es + [e]);
      if e.key !in attachments {
        if left == 0 {
          if Keyed(h, x) {
            var whole := AttachmentEntries(h, p, x);
            assert whole == (es + [e]) + whole[i + 1..];
            ExtendConcat(start, es + [e], whole[i + 1..]);
            ExtendGrows(Extend(start, es + [e]), whole[i + 1..]);
          }
          return false, attachments, left;
        }
        attachments, left := attachments[e.key := e], left - 1;
      }
      es := es + [e];
    }
    assert es == AttachmentEntries(h, p, x);
    ok := true;
  }

  /** What gathering one value can do to the three maps. */
  ghost predicate Gathers(h: Hashing, p: string, x: Value, remap: bool, nodes: map<string, Entry<Node>>,
                          edges: map<string, Entry<Edge>>, attachments: map<string, Entry<Attachment>>, room: nat)
    requires h.Valid()
  {
    && Keyed(h, x)
    && Joins(nodes, NodeEntries(h, p, x, remap)) && Joins(edges, EdgeEntries(h, p, x, remap))
    && Size(Extend(nodes, NodeEntries(h, p, x, remap)), Extend(edges, EdgeEntries(h, p, x, remap)),
            Extend(attachments, AttachmentEntries(h, p, x))) <= Size(nodes, edges, attachments) + room
  }

  function Size(nodes: map<string, Entry<Node>>, edges: map<string, Entry<Edge>>,
                attachments: map<string, Entry<Attachment>>): nat {
    |nodes| + |edges| + |attachments|
  }

  /** One input: its nodes, then its edges, then its attachments. */
  method Gather(h: Hashing, p: string, x: Value, remap: bool, nodes: map<string, Entry<Node>>,
                edges: map<string, Entry<Edge>>, attachments: map<string, Entry<Attachment>>, room: nat)
      returns (ok: bool, n: map<string, Entry<Node>>, e: map<string, Entry<Edge>>,
               a: map<string, Entry<Attachment>>, left: nat)
    requires h.Valid()
    ensures ok <==> Gathers(h, p, x, remap, nodes, edges, attachments, room)
    ensures ok ==> n == Extend(nodes, NodeEntries(h, p, x, remap)) && e == Extend(edges, EdgeEntries(h, p, x, remap))
                   && a == Extend(attachments, AttachmentEntries(h, p, x))
                   && Size(n, e, a) + left == Size(nodes, edges, attachments) + room
  {
    hide NodesKeyed, EdgesKeyed, NodeEntries, EdgeEntries, AttachmentEntries, Extend, Joins, AllIds, AllEdgeIds;
    n, e, a := nodes, edges, attachments;
    var ids, edgeIds;
    KeyedParts(h, x);
    ok, n, ids, left := GatherNodes(h, p, x, remap, nodes, room);
    if Keyed(h, x) {
      ExtendGrows(nodes, NodeEntries(h, p, x, remap));
      ExtendGrows(edges, EdgeEntries(h, p, x, remap));
      ExtendGrows(attachments, AttachmentEntries(h, p, x));
    }
    if !ok { return; }
    ok, e, edgeIds, left := GatherEdges(h, p, x, remap, ids, edges, left);
    if !ok { return; }
    ok, a, left := GatherAttachments(h, p, x, ids, edgeIds, attachments, left);
  }

  lemma KeyedParts(h: Hashing, x: Value)
    requires h.Valid()
    ensures Keyed(h, x) ==> EdgesKeyed(h, x)
    ensures EdgesKeyed(h, x) ==> NodesKeyed(x)
  {
  }

  /** Gathering both inputs one after the other is merging all their members. */
  lemma GathersBoth(h: Hashing, p: string, a: Value, b: Value, schema: Option<Schema>, room: nat)
    requires h.Valid() && Keyed(h, a) && Keyed(h, b)
    ensures
      var m, n := Remaps(a, schema), Remaps(b, schema);
      var ns, es := NodeEntries(h, p, a, m), EdgeEntries(h, p, a, m);
      var ats := AttachmentEntries(h, p, a);
      && Extend(Extend(map[], ns), NodeEntries(h, p, b, n)) == Merged(BothNodes(h, p, a, b, schema))
      && Extend(Extend(map[], es), EdgeEntries(h, p, b, n)) == Merged(BothEdges(h, p, a, b, schema))
      && Extend(Extend(map[], ats), AttachmentEntries(h, p, b)) == Merged(BothAttachments(h, p, a, b))
      && (Joins(map[], ns) && Joins(Extend(map[], ns), NodeEntries(h, p, b, n)) <==>
          Agree(BothNodes(h, p, a, b, schema)))
      && (Joins(map[], es) && Joins(Extend(map[], es), EdgeEntries(h, p, b, n)) <==>
          Agree(BothEdges(h, p, a, b, schema)))
      && Size(Extend(map[], ns), Extend(map[], es), Extend(map[], ats)) <= UnionSize(h, p, a, b, schema)
  {
    hide NodesKeyed, EdgesKeyed, NodeEntries, EdgeEntries, AttachmentEntries, Extend, Joins, Agree;
    KeyedParts(h, a);
    KeyedParts(h, b);
    var m, n := Remaps(a, schema), Remaps(b, schema);
    ExtendConcat(map[], NodeEntries(h, p, a, m), NodeEntries(h, p, b, n));
    ExtendConcat(map[], EdgeEntries(h, p, a, m), EdgeEntries(h, p, b, n));
    ExtendConcat(map[], AttachmentEntries(h, p, a), AttachmentEntries(h, p, b));
    JoinsConcat(map[], NodeEntries(h, p, a, m), NodeEntries(h, p, b, n));
    JoinsConcat(map[], EdgeEntries(h, p, a, m), EdgeEntries(h, p, b, n));
    JoinsIsAgree(BothNodes(h, p, a, b, schema));
    JoinsIsAgree(BothEdges(h, p, a, b, schema));
    ExtendGrows(Merged(NodeEntries(h, p, a, m)), NodeEntries(h, p, b, n));
    ExtendGrows(Merged(EdgeEntries(h, p, a, m)), EdgeEntries(h, p, b, n));
    ExtendGrows(Merged(AttachmentEntries(h, p, a)), AttachmentEntries(h, p, b));
  }

  method Union(h: Hashing, ctx: Context, a: Value, b: Value) returns (r: Outcome<Value>)
    requires h.Valid()
    ensures r.Ok? <==> Unifiable(h, ctx, a, b)
    ensures r.Ok? ==> r.value == United(h, ctx, a, b)
  {
    hide Keyed, BothNodes, BothEdges, BothAttachments, NodeEntries, EdgeEntries, AttachmentEntries, Extend, Joins,
         Agree, Assemble, BoundedInfluence, WellTyped, MergedSchema;
    if !Preflight(ctx, a) || !Preflight(ctx, b) { return Err(Refused); }
    var merged := MergeSchema(h, a.schema, b.schema);
    if merged.Err? { return Err(merged.code); }
    var schema, p := merged.value, ctx.principal;
    if Keyed(h, a) && Keyed(h, b) { GathersBoth(h, p, a, b, schema, ctx.objects); }
    var ok, nodes, edges, attachments, left := Gather(h, p, a, Remaps(a, schema), map[], map[], map[], ctx.objects);
    if !ok { return Err(OriginConflict); }
    ok, nodes, edges, attachments, left := Gather(h, p, b, Remaps(b, schema), nodes, edges, attachments, left);
    if !ok { return Err(OriginConflict); }
    var out := Assemble(schema, nodes, edges, attachments);
    if !Checked(ctx, out) { return Err(Refused); }
    return Ok(out);
  }
}
