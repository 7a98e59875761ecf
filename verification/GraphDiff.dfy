/** `diff` of graph values: which members of the union are labelled removed or added, when the
    labelled edges can be found in the union, and when the labels let one side be rebuilt from
    it. Nodes are labelled by their key; an edge is labelled by its content key, endpoints left
    aside, and so an edge of the union may carry no label although only one side has it. A label
    names its edge by the first nodes with the endpoint ids where the union uses the last, and so
    a labelled edge may be missing from the union; the original panics there. */
module GraphDiff {
  import opened Orders
  import opened Restrictions
  import opened GraphValues
  import opened GraphUnion
  import opened GraphRenewal
  import opened GraphLaws
  import opened GraphMarks

  // ----- keys of the two sides -----

  function NodeKeys(h: Hashing, x: Value): set<string>
    requires h.Valid() && NodesKeyed(x)
  {
    set i | 0 <= i < |x.nodes| :: NodeKey(h, x, x.nodes[i])
  }

  predicate BasesKnown(h: Hashing, x: Value)
    requires h.Valid()
  {
    forall i | 0 <= i < |x.edges| :: EdgeKey(h, x, x.edges[i]).Some?
  }

  function BaseKeys(h: Hashing, x: Value): set<string>
    requires h.Valid() && BasesKnown(h, x)
  {
    set i | 0 <= i < |x.edges| :: EdgeKey(h, x, x.edges[i]).value
  }

  predicate FirstEndpoints(x: Value, e: Edge) {
    FirstNode(x.nodes, e.from).Some? && FirstNode(x.nodes, e.to).Some?
  }

  /** The key of the first node with an id. */
  function FirstKey(h: Hashing, x: Value, id: string): string
    requires h.Valid() && NodesKeyed(x) && FirstNode(x.nodes, id).Some?
  {
    FirstNodeId(x.nodes, id);
    NodeKey(h, x, FirstNode(x.nodes, id).value)
  }

  /** The id under which a label looks for an edge in the union. */
  function LabelId(h: Hashing, x: Value, e: Edge): string
    requires h.Valid() && NodesKeyed(x) && FirstEndpoints(x, e) && EdgeKey(h, x, e).Some?
  {
    EdgeId(h, EdgeKey(h, x, e).value, FirstKey(h, x, e.from), FirstKey(h, x, e.to))
  }

  /** An edge of one side whose content key the other side lacks. */
  predicate OnlyHere(h: Hashing, x: Value, e: Edge, other: set<string>)
    requires h.Valid()
  {
    EdgeKey(h, x, e).Some? && EdgeKey(h, x, e).value !in other
  }

  predicate Diffable(h: Hashing, x: Value, other: set<string>)
    requires h.Valid()
  {
    && NodesKeyed(x) && BasesKnown(h, x)
    && forall i | 0 <= i < |x.edges| && OnlyHere(h, x, x.edges[i], other) :: FirstEndpoints(x, x.edges[i])
  }

  /** The ids of the edges only one side has. */
  function OnlyIds(h: Hashing, x: Value, other: set<string>): set<string>
    requires h.Valid() && Diffable(h, x, other)
  {
    set i | 0 <= i < |x.edges| && OnlyHere(h, x, x.edges[i], other) :: LabelId(h, x, x.edges[i])
  }

  /** The union, its labels, and the value that shows them as attachments. */
  datatype Delta = Delta(union: Value, nodeLabels: map<string, Label>, edgeLabels: map<string, Label>, shown: Value)

  datatype Result = Done(delta: Delta) | Failed | Panicked

  predicate Labelling(labels: map<string, Label>, removed: set<string>, added: set<string>) {
    && labels.Keys == removed + added
    && forall id | id in labels :: (labels[id] == Removed <==> id in removed)
  }

  // ----- the loops -----

  method CollectBases(h: Hashing, x: Value) returns (ok: bool, keys: set<string>)
    requires h.Valid()
    ensures ok <==> BasesKnown(h, x)
    ensures ok ==> keys == BaseKeys(h, x)
  {
    hide EdgeKey;
    keys := {};
    for i := 0 to |x.edges|
      invariant forall j | 0 <= j < i :: EdgeKey(h, x, x.edges[j]).Some?
      invariant keys == set j | 0 <= j < i :: EdgeKey(h, x, x.edges[j]).value
    {
      var k := EdgeKey(h, x, x.edges[i]);
      if k.None? { return false, {}; }
      keys := keys + {k.value};
    }
    ok := true;
  }

  method CollectNodes(h: Hashing, x: Value) returns (ok: bool, keys: set<string>)
    requires h.Valid()
    ensures ok <==> NodesKeyed(x)
    ensures ok ==> keys == NodeKeys(h, x)
  {
    hide NodeKey;
    keys := {};
    for i := 0 to |x.nodes|
      invariant forall j | 0 <= j < i :: x.nodes[j].id in x.nodeOrigins
      invariant keys == set j | 0 <= j < i :: NodeKey(h, x, x.nodes[j])
    {
      if x.nodes[i].id !in x.nodeOrigins { return false, {}; }
      keys := keys + {NodeKey(h, x, x.nodes[i])};
    }
    ok := true;
  }

  /** Labels every node key of one side that the other lacks. */
  method LabelNodes(h: Hashing, x: Value, other: set<string>, mark: Label, start: map<string, Label>)
      returns (labels: map<string, Label>)
    requires h.Valid() && NodesKeyed(x)
    ensures labels.Keys == start.Keys + (NodeKeys(h, x) - other)
    ensures forall id | id in labels :: labels[id] == if id in NodeKeys(h, x) - other then mark else start[id]
  {
    hide NodeKey;
    labels := start;
    for i := 0 to |x.nodes|
      invariant forall id :: id in labels <==>
                  id in start || (id !in other && exists j | 0 <= j < i :: NodeKey(h, x, x.nodes[j]) == id)
      invariant forall id | id in labels :: labels[id] ==
                  if id !in other && (exists j | 0 <= j < i :: NodeKey(h, x, x.nodes[j]) == id) then mark else start[id]
    {
      var k := NodeKey(h, x, x.nodes[i]);
      if k !in other { labels := labels[k := mark]; }
    }
  }

  /** Labels every edge of one side whose content key the other lacks. */
  method LabelEdges(h: Hashing, x: Value, other: set<string>, mark: Label, start: map<string, Label>)
      returns (ok: bool, labels: map<string, Label>)
    requires h.Valid() && NodesKeyed(x) && BasesKnown(h, x)
    ensures ok <==> Diffable(h, x, other)
    ensures ok ==> labels.Keys == start.Keys + OnlyIds(h, x, other)
    ensures ok ==> forall id | id in labels :: labels[id] == if id in OnlyIds(h, x, other) then mark else start[id]
  {
    hide EdgeKey, LabelId, OnlyHere, FirstEndpoints;
    labels := start;
    ghost var done: set<string> := {};
    for i := 0 to |x.edges|
      invariant forall j | 0 <= j < i && OnlyHere(h, x, x.edges[j], other) ::
                  FirstEndpoints(x, x.edges[j]) && LabelId(h, x, x.edges[j]) in done
      invariant forall id | id in done :: exists j | 0 <= j < i && OnlyHere(h, x, x.edges[j], other) ::
                  FirstEndpoints(x, x.edges[j]) && LabelId(h, x, x.edges[j]) == id
      invariant labels.Keys == start.Keys + done
      invariant forall id | id in labels :: labels[id] == if id in done then mark else start[id]
    {
      if OnlyHere(h, x, x.edges[i], other) {
        if !FirstEndpoints(x, x.edges[i]) { return false, labels; }
        var id := LabelId(h, x, x.edges[i]);
        labels := labels[id := mark];
        done := done + {id};
      }
    }
    assert done == OnlyIds(h, x, other);
    ok := true;
  }

  predicate DiffFits(h: Hashing, ctx: Context, sameScope: bool, a: Value, b: Value)
    requires h.Valid()
  {
    && Preflight(ctx, a) && Preflight(ctx, b) && sameScope
    && BasesKnown(h, a) && BasesKnown(h, b)
    && Diffable(h, a, BaseKeys(h, b)) && Diffable(h, b, BaseKeys(h, a))
    && Unifiable(h, ctx, a, b)
  }

  /** The delta of two values: their union, each member only in the first labelled removed and
      each member only in the second labelled added. */
  ghost predicate IsDelta(h: Hashing, ctx: Context, a: Value, b: Value, d: Delta)
    requires h.Valid() && DiffFits(h, ctx, true, a, b)
  {
    && d.union == United(h, ctx, a, b)
    && Labelling(d.nodeLabels, NodeKeys(h, a) - NodeKeys(h, b), NodeKeys(h, b) - NodeKeys(h, a))
    && Labelling(d.edgeLabels, OnlyIds(h, a, BaseKeys(h, b)), OnlyIds(h, b, BaseKeys(h, a)))
    && d.shown == Shown(h, ctx.principal, d.union, d.edgeLabels, d.nodeLabels)
  }

  function Labels(removed: set<string>, added: set<string>): (labels: map<string, Label>)
    ensures Labelling(labels, removed, added)
  {
    map id | id in removed + added :: if id in removed then Removed else Added
  }

  lemma LabellingUnique(labels: map<string, Label>, removed: set<string>, added: set<string>)
    requires Labelling(labels, removed, added)
    ensures labels == Labels(removed, added)
  {
  }

  function EdgeLabels(h: Hashing, ctx: Context, a: Value, b: Value): map<string, Label>
    requires h.Valid() && DiffFits(h, ctx, true, a, b)
  {
    Labels(OnlyIds(h, a, BaseKeys(h, b)), OnlyIds(h, b, BaseKeys(h, a)))
  }

  function NodeLabels(h: Hashing, ctx: Context, a: Value, b: Value): map<string, Label>
    requires h.Valid() && DiffFits(h, ctx, true, a, b)
  {
    Labels(NodeKeys(h, a) - NodeKeys(h, b), NodeKeys(h, b) - NodeKeys(h, a))
  }

  /** The labels fit: one attachment each, beside all members of the union, within the object limit;
      and the validators take the value that shows them. */
  predicate LabelsFit(h: Hashing, ctx: Context, a: Value, b: Value)
    requires h.Valid() && DiffFits(h, ctx, true, a, b)
  {
    var u, es, ns := United(h, ctx, a, b), EdgeLabels(h, ctx, a, b), NodeLabels(h, ctx, a, b);
    var v := Shown(h, ctx.principal, u, es, ns);
    Count(u) + |es| + |ns| <= ctx.objects && ctx.accepts(v) && ctx.conforms(v)
  }

  lemma UnionChecked(h: Hashing, ctx: Context, a: Value, b: Value)
    requires h.Valid() && Unifiable(h, ctx, a, b)
    ensures Checked(ctx, United(h, ctx, a, b))
  {
    hide Checked, Keyed, Agree, MergedSchema, UnionOf;
  }

  lemma CheckedParts(ctx: Context, u: Value)
    requires Checked(ctx, u)
    ensures WellTyped(u) && BoundedInfluence(u) && Count(u) <= ctx.objects && 1 <= ctx.objects && ctx.principal != ""
  {
    hide WellTyped, BoundedInfluence, Count;
  }

  /** The closing check passes exactly when the labels fit. */
  lemma FitsExactly(h: Hashing, ctx: Context, a: Value, b: Value)
    requires h.Valid() && DiffFits(h, ctx, true, a, b)
    ensures
      var u := United(h, ctx, a, b);
      LabelsFit(h, ctx, a, b) <==>
        Checked(ctx, Shown(h, ctx.principal, u, EdgeLabels(h, ctx, a, b), NodeLabels(h, ctx, a, b)))
  {
    var u, es, ns := United(h, ctx, a, b), EdgeLabels(h, ctx, a, b), NodeLabels(h, ctx, a, b);
    UnionChecked(h, ctx, a, b);
    CheckedParts(ctx, u);
    ShownCount(h, ctx.principal, u, es, ns);
    ShownKeeps(h, ctx.principal, u, es, ns);
    hide Unifiable, United, Shown, EdgeLabels, NodeLabels, WellTyped, BoundedInfluence, Count, DiffFits;
  }

  /** Where there is a node label there is a node. */
  lemma LabelsNeedNodes(h: Hashing, ctx: Context, a: Value, b: Value)
    requires h.Valid() && DiffFits(h, ctx, true, a, b) && NodeLabels(h, ctx, a, b) != map[]
    ensures Count(United(h, ctx, a, b)) >= 1
  {
    var ns := NodeLabels(h, ctx, a, b);
    hide Unifiable, United, NodeKey, BaseKeys, BasesKnown, OnlyHere, FirstEndpoints;
    var id :| id in ns;
    var x := if id in NodeKeys(h, a) then a else b;
    assert id in NodeKeys(h, x);
    var i :| 0 <= i < |x.nodes| && NodeKey(h, x, x.nodes[i]) == id;
    UnionKeepsNode(h, ctx, a, b, x, x.nodes[i]);
  }

  /** A label says one thing: no edge is both removed and added. */
  lemma NeverBoth(h: Hashing, a: Value, b: Value, id: string)
    requires h.Valid() && BasesKnown(h, a) && BasesKnown(h, b)
    requires Diffable(h, a, BaseKeys(h, b)) && Diffable(h, b, BaseKeys(h, a))
    ensures !(id in OnlyIds(h, a, BaseKeys(h, b)) && id in OnlyIds(h, b, BaseKeys(h, a)))
  {
    hide EdgeKey, FirstKey;
    if id in OnlyIds(h, a, BaseKeys(h, b)) && id in OnlyIds(h, b, BaseKeys(h, a)) {
      var i :| 0 <= i < |a.edges| && OnlyHere(h, a, a.edges[i], BaseKeys(h, b)) && LabelId(h, a, a.edges[i]) == id;
      var j :| 0 <= j < |b.edges| && OnlyHere(h, b, b.edges[j], BaseKeys(h, a)) && LabelId(h, b, b.edges[j]) == id;
      BaseHere(h, b, j);
      SameLabelId(h, a, a.edges[i], b, b.edges[j]);
    }
  }

  lemma BaseHere(h: Hashing, x: Value, j: nat)
    requires h.Valid() && BasesKnown(h, x) && j < |x.edges|
    ensures EdgeKey(h, x, x.edges[j]).Some? && EdgeKey(h, x, x.edges[j]).value in BaseKeys(h, x)
  {
    hide EdgeKey;
  }

  lemma SameLabelId(h: Hashing, a: Value, e: Edge, b: Value, o: Edge)
    requires h.Valid() && NodesKeyed(a) && FirstEndpoints(a, e) && EdgeKey(h, a, e).Some?
    requires NodesKeyed(b) && FirstEndpoints(b, o) && EdgeKey(h, b, o).Some?
    requires LabelId(h, a, e) == LabelId(h, b, o)
    ensures EdgeKey(h, a, e) == EdgeKey(h, b, o)
  {
    hide EdgeKey, FirstKey;
    var s := EdgeTerm(EdgeKey(h, a, e).value, FirstKey(h, a, e.from), FirstKey(h, a, e.to));
    var t := EdgeTerm(EdgeKey(h, b, o).value, FirstKey(h, b, o.from), FirstKey(h, b, o.to));
    Drop("edge:", h.key(s), h.key(t));
    SameTerm(h, s, t);
  }

  method Diff(h: Hashing, ctx: Context, sameScope: bool, a: Value, b: Value) returns (r: Result)
    requires h.Valid()
    ensures r.Done? <==> DiffFits(h, ctx, sameScope, a, b) && LabelsLand(h, ctx, a, b) && LabelsFit(h, ctx, a, b)
    ensures r.Done? ==> IsDelta(h, ctx, a, b, r.delta) && AllFound(r.delta.union, r.delta.edgeLabels)
    ensures r.Panicked? <==> DiffFits(h, ctx, sameScope, a, b) && !LabelsLand(h, ctx, a, b)
  {
    hide LabelsLand, LabelsFit, Labels, Checked, Shown, EdgesMarked, NodesMarked, Count, WellTyped, BoundedInfluence;
    hide NodeKeys, BasesKnown, BaseKeys, Diffable, OnlyIds, Unifiable, United, NodesKeyed, Locatable, HasEdge;
    if !Preflight(ctx, a) || !Preflight(ctx, b) || !sameScope { return Failed; }
    var ok, aBases := CollectBases(h, a);
    if !ok { return Failed; }
    var bBases;
    ok, bBases := CollectBases(h, b);
    if !ok { return Failed; }
    DiffableNodes(h, a, bBases);
    DiffableNodes(h, b, aBases);
    var aNodes, bNodes;
    ok, aNodes := CollectNodes(h, a);
    if !ok { return Failed; }
    ok, bNodes := CollectNodes(h, b);
    if !ok { return Failed; }
    var nodeLabels := LabelNodes(h, a, bNodes, Removed, map[]);
    nodeLabels := LabelNodes(h, b, aNodes, Added, nodeLabels);
    var edgeLabels;
    ok, edgeLabels := LabelEdges(h, a, bBases, Removed, map[]);
    if !ok { return Failed; }
    ok, edgeLabels := LabelEdges(h, b, aBases, Added, edgeLabels);
    if !ok { return Failed; }
    forall id ensures !(id in OnlyIds(h, a, bBases) && id in OnlyIds(h, b, aBases)) { NeverBoth(h, a, b, id); }
    var united := Union(h, ctx, a, b);
    if united.Err? { return Failed; }
    LabellingUnique(edgeLabels, OnlyIds(h, a, bBases), OnlyIds(h, b, aBases));
    LabellingUnique(nodeLabels, aNodes - bNodes, bNodes - aNodes);
    LabelsFound(h, ctx, a, b, edgeLabels);
    UnionChecked(h, ctx, a, b);
    CheckedParts(ctx, united.value);
    FitsExactly(h, ctx, a, b);
    var found, marked, left := StampEdges(h, ctx.principal, united.value, edgeLabels, ctx.objects);
    if !found { return Panicked; }
    var shown;
    ok, shown := StampNodes(h, ctx.principal, marked, nodeLabels, left);
    if !ok {
      LabelsNeedNodes(h, ctx, a, b);
      NoRoom(h, ctx, a, b);
      return Failed;
    }
    assert shown == Shown(h, ctx.principal, united.value, edgeLabels, nodeLabels) by {
      ShownIs(h, ctx.principal, united.value, edgeLabels, nodeLabels);
    }
    if !Checked(ctx, shown) { return Failed; }
    return Done(Delta(united.value, nodeLabels, edgeLabels, shown));
  }

  lemma ShownIs(h: Hashing, p: string, u: Value, edgeLabels: map<string, Label>, nodeLabels: map<string, Label>)
    ensures Shown(h, p, u, edgeLabels, nodeLabels) == NodesMarked(h, p, EdgesMarked(h, p, u, edgeLabels), nodeLabels)
  {
  }

  lemma NoRoom(h: Hashing, ctx: Context, a: Value, b: Value)
    requires h.Valid() && DiffFits(h, ctx, true, a, b) && Count(United(h, ctx, a, b)) >= 1
    requires |EdgeLabels(h, ctx, a, b)| + |NodeLabels(h, ctx, a, b)| + 1 > ctx.objects
    ensures !LabelsFit(h, ctx, a, b)
  {
    hide Unifiable, United, EdgeLabels, NodeLabels, Shown, Count, DiffFits;
  }

  lemma DiffableNodes(h: Hashing, x: Value, other: set<string>)
    requires h.Valid()
    ensures Diffable(h, x, other) ==> NodesKeyed(x)
  {
  }

  // ----- where a label looks for its edge -----

  /** Where the label of edge `e` looks is where the union puts edge `o`: they have one content
      key, and the first nodes with the endpoint ids of `e` have the keys that the last nodes with
      the endpoint ids of `o` have. */
  ghost predicate Lands(h: Hashing, x: Value, e: Edge, o: Edge)
    requires h.Valid() && NodesKeyed(x) && FirstEndpoints(x, e)
  {
    && EdgeKeyed(h, x, o) && EdgeKey(h, x, e) == EdgeKey(h, x, o)
    && FirstKey(h, x, e.from) == AllIds(h, x)[o.from] && FirstKey(h, x, e.to) == AllIds(h, x)[o.to]
  }

  /** The label of every edge only this side has lands on one of its edges. */
  ghost predicate Locatable(h: Hashing, x: Value, other: set<string>)
    requires h.Valid() && Diffable(h, x, other)
  {
    forall i | 0 <= i < |x.edges| && OnlyHere(h, x, x.edges[i], other) :: Located(h, x, x.edges[i])
  }

  /** Every label lands. */
  ghost predicate LabelsLand(h: Hashing, ctx: Context, a: Value, b: Value)
    requires h.Valid() && DiffFits(h, ctx, true, a, b)
  {
    Locatable(h, a, BaseKeys(h, b)) && Locatable(h, b, BaseKeys(h, a))
  }

  ghost predicate Located(h: Hashing, x: Value, e: Edge)
    requires h.Valid() && NodesKeyed(x) && FirstEndpoints(x, e)
  {
    exists o :: o in x.edges && Lands(h, x, e, o)
  }

  /** Every edge only this side has is the one that the label of some such edge lands on. */
  ghost predicate Covering(h: Hashing, x: Value, other: set<string>)
    requires h.Valid() && Diffable(h, x, other)
  {
    forall o | o in x.edges && OnlyHere(h, x, o, other) :: Labelled(h, x, o)
  }

  ghost predicate Labelled(h: Hashing, x: Value, o: Edge)
    requires h.Valid() && NodesKeyed(x)
  {
    exists i :: 0 <= i < |x.edges| && FirstEndpoints(x, x.edges[i]) && Lands(h, x, x.edges[i], o)
  }

  lemma LandsExactly(h: Hashing, x: Value, e: Edge, o: Edge)
    requires h.Valid() && NodesKeyed(x) && FirstEndpoints(x, e) && EdgeKey(h, x, e).Some? && EdgeKeyed(h, x, o)
    ensures Lands(h, x, e, o) <==> LabelId(h, x, e) == NewEdgeId(h, x, o)
  {
    hide EdgeKey, FirstKey, AllIds;
    if LabelId(h, x, e) == NewEdgeId(h, x, o) {
      IdParts(h, EdgeKey(h, x, e).value, FirstKey(h, x, e.from), FirstKey(h, x, e.to),
              EdgeKey(h, x, o).value, AllIds(h, x)[o.from], AllIds(h, x)[o.to]);
    }
  }

  /** An edge with the id of a label of one side, and a content key the other side lacks, is an edge
      of that side. */
  lemma LabelStays(h: Hashing, x: Value, e: Edge, y: Value, o: Edge, other: Value)
    requires h.Valid() && NodesKeyed(x) && FirstEndpoints(x, e) && BasesKnown(h, other)
    requires OnlyHere(h, x, e, BaseKeys(h, other))
    requires y in {x, other} && o in y.edges && NodesKeyed(y) && EdgeKeyed(h, y, o) && LabelId(h, x, e) == NewEdgeId(h, y, o)
    ensures y == x && EdgeKey(h, y, o) == EdgeKey(h, x, e)
  {
    hide EdgeKey, FirstKey, AllIds, BaseKeys, BasesKnown;
    IdParts(h, EdgeKey(h, x, e).value, FirstKey(h, x, e.from), FirstKey(h, x, e.to),
            EdgeKey(h, y, o).value, AllIds(h, y)[o.from], AllIds(h, y)[o.to]);
    if y == other {
      var i :| 0 <= i < |y.edges| && y.edges[i] == o;
      BaseHere(h, y, i);
    }
  }

  lemma LabelFound(h: Hashing, ctx: Context, a: Value, b: Value, x: Value, other: Value, i: nat)
    requires h.Valid() && Unifiable(h, ctx, a, b) && {x, other} == {a, b} && BasesKnown(h, other)
    requires NodesKeyed(x) && i < |x.edges| && FirstEndpoints(x, x.edges[i])
    requires OnlyHere(h, x, x.edges[i], BaseKeys(h, other))
    ensures HasEdge(United(h, ctx, a, b), LabelId(h, x, x.edges[i])) <==> Located(h, x, x.edges[i])
  {
    hide EdgeKey, Unifiable, United, LabelId, Lands, BasesKnown, BaseKeys, EdgeKeyed, EdgesKeyed, Renewed, NewEdgeId,
         FirstEndpoints;
    var v, e := United(h, ctx, a, b), x.edges[i];
    if HasEdge(v, LabelId(h, x, e)) {
      var j :| 0 <= j < |v.edges| && v.edges[j].id == LabelId(h, x, e);
      var y, o := UnionEdgeSource(h, ctx, a, b, v.edges[j]);
      KeyedParts(h, y);
      RenewedId(h, ctx, a, b, y, o);
      LabelStays(h, x, e, y, o, other);
      LandsExactly(h, x, e, o);
    }
    if Located(h, x, e) {
      var o :| o in x.edges && Lands(h, x, e, o);
      LandsKeyed(h, x, e, o);
      LandsExactly(h, x, e, o);
      var y, q := UnionKeepsEdge(h, ctx, a, b, x, o);
      RenewedId(h, ctx, a, b, x, o);
      var j :| 0 <= j < |v.edges| && v.edges[j] == Renewed(h, ctx, a, b, x, o);
    }
  }

  lemma LandsKeyed(h: Hashing, x: Value, e: Edge, o: Edge)
    requires h.Valid() && NodesKeyed(x) && FirstEndpoints(x, e) && Lands(h, x, e, o)
    ensures EdgeKeyed(h, x, o)
  {
    hide EdgeKeyed, EdgeKey, FirstKey;
  }

  lemma SideFound(h: Hashing, ctx: Context, a: Value, b: Value, x: Value, other: Value)
    requires h.Valid() && Unifiable(h, ctx, a, b) && {x, other} == {a, b} && BasesKnown(h, other)
    requires Diffable(h, x, BaseKeys(h, other))
    ensures (forall id | id in OnlyIds(h, x, BaseKeys(h, other)) :: HasEdge(United(h, ctx, a, b), id))
       <==> Locatable(h, x, BaseKeys(h, other))
  {
    hide EdgeKey, Unifiable, United, LabelId, BasesKnown, BaseKeys, Located, HasEdge, FirstEndpoints, NodesKeyed;
    var v, bs := United(h, ctx, a, b), BaseKeys(h, other);
    forall i | 0 <= i < |x.edges| && OnlyHere(h, x, x.edges[i], bs)
      ensures OnlyHere(h, x, x.edges[i], bs) && FirstEndpoints(x, x.edges[i])
      ensures HasEdge(v, LabelId(h, x, x.edges[i])) <==> Located(h, x, x.edges[i])
      ensures LabelId(h, x, x.edges[i]) in OnlyIds(h, x, bs)
    {
      LabelFound(h, ctx, a, b, x, other, i);
    }
  }

  /** The union retains every labelled edge exactly when both sides are locatable. */
  lemma LabelsFound(h: Hashing, ctx: Context, a: Value, b: Value, labels: map<string, Label>)
    requires h.Valid() && DiffFits(h, ctx, true, a, b)
    requires labels.Keys == OnlyIds(h, a, BaseKeys(h, b)) + OnlyIds(h, b, BaseKeys(h, a))
    ensures AllFound(United(h, ctx, a, b), labels) <==> LabelsLand(h, ctx, a, b)
  {
    hide Unifiable, United, OnlyIds, BaseKeys, Diffable, HasEdge, BasesKnown, Locatable;
    SideFound(h, ctx, a, b, a, b);
    SideFound(h, ctx, a, b, b, a);
    assert forall id :: id in labels <==> id in labels.Keys;
  }

  // ----- ids that name one node -----

  /** Nodes that share an id share a key. This holds whenever node ids are distinct. */
  ghost predicate Consistent(h: Hashing, x: Value)
    requires h.Valid()
  {
    NodesKeyed(x) && forall m, n | m in x.nodes && n in x.nodes && m.id == n.id ::
      m.id in x.nodeOrigins && n.id in x.nodeOrigins && NodeKey(h, x, m) == NodeKey(h, x, n)
  }

  lemma {:induction false} IdPresent(h: Hashing, x: Value, k: nat, i: nat)
    requires h.Valid() && NodesKeyed(x) && i < k <= |x.nodes|
    ensures x.nodes[i].id in NodeIds(h, x, k)
  {
    hide NodeKey;
    if i < k - 1 { IdPresent(h, x, k - 1, i); }
  }

  /** In a consistent value the first node with an id gives the key the union uses. */
  lemma FirstIsLast(h: Hashing, x: Value, id: string)
    requires h.Valid() && Consistent(h, x) && FirstNode(x.nodes, id).Some?
    ensures id in AllIds(h, x) && FirstKey(h, x, id) == AllIds(h, x)[id]
  {
    hide NodeKey, NodeIds;
    FirstNodeId(x.nodes, id);
    var first := FirstNode(x.nodes, id).value;
    var i :| 0 <= i < |x.nodes| && x.nodes[i] == first;
    IdPresent(h, x, |x.nodes|, i);
    var last := IdSource(h, x, |x.nodes|, id);
  }

  /** In a consistent value every label lands on its own edge. */
  lemma LandsOnItself(h: Hashing, x: Value, e: Edge)
    requires h.Valid() && Consistent(h, x) && FirstEndpoints(x, e) && EdgeKey(h, x, e).Some?
    ensures Lands(h, x, e, e)
  {
    hide EdgeKey, AllIds, Consistent;
    FirstIsLast(h, x, e.from);
    FirstIsLast(h, x, e.to);
  }

  /** With nodes that share an id sharing a key, no lookup fails and every such edge is labelled. */
  lemma ConsistentLands(h: Hashing, x: Value, other: set<string>)
    requires h.Valid() && Consistent(h, x) && Diffable(h, x, other)
    ensures Locatable(h, x, other) && Covering(h, x, other)
  {
    hide EdgeKey, Consistent, Lands, FirstEndpoints;
    forall i | 0 <= i < |x.edges| && OnlyHere(h, x, x.edges[i], other)
      ensures FirstEndpoints(x, x.edges[i]) && Lands(h, x, x.edges[i], x.edges[i])
    {
      LandsOnItself(h, x, x.edges[i]);
    }
  }

  // ----- rebuilding the sides -----

  /** A value compared with itself gets no labels. */
  lemma SelfDiff(h: Hashing, ctx: Context, x: Value, d: Delta)
    requires h.Valid() && DiffFits(h, ctx, true, x, x) && IsDelta(h, ctx, x, x, d)
    ensures d.nodeLabels == map[] && d.edgeLabels == map[]
  {
    hide EdgeKey, Unifiable, United, LabelId, FirstEndpoints;
    forall i | 0 <= i < |x.edges| ensures !OnlyHere(h, x, x.edges[i], BaseKeys(h, x)) { BaseHere(h, x, i); }
    assert d.nodeLabels.Keys == {} && d.edgeLabels.Keys == {};
  }

  predicate Marked(labels: map<string, Label>, id: string, mark: Label) {
    id in labels && labels[id] == mark
  }

  /** A node of the union came from a value exactly when its key is one of that value's. */
  lemma NodeSide(h: Hashing, ctx: Context, a: Value, b: Value, x: Value, n: Node)
    requires h.Valid() && Unifiable(h, ctx, a, b) && x in {a, b} && n in United(h, ctx, a, b).nodes && NodesKeyed(x)
    ensures n in Nodes(h, ctx.principal, x, a.schema != b.schema) <==> n.id in NodeKeys(h, x)
  {
    hide Unifiable, United, Nodes, NodeKey;
    if n in Nodes(h, ctx.principal, x, a.schema != b.schema) {
      KeyOfNode(h, ctx.principal, x, a.schema != b.schema, n);
    }
    if n.id in NodeKeys(h, x) {
      var i :| 0 <= i < |x.nodes| && NodeKey(h, x, x.nodes[i]) == n.id;
      NodeOfKey(h, ctx, a, b, x, i, n);
    }
  }

  lemma KeyOfNode(h: Hashing, p: string, x: Value, f: bool, n: Node)
    requires h.Valid() && NodesKeyed(x) && n in Nodes(h, p, x, f)
    ensures n.id in NodeKeys(h, x)
  {
    NodesContain(h, p, x, f, n);
    hide Nodes, NodeKey, NewType;
    var o :| o in x.nodes && o.id in x.nodeOrigins && n == NewNode(h, p, x, f, o);
    var i :| 0 <= i < |x.nodes| && x.nodes[i] == o;
    assert NodeKey(h, x, x.nodes[i]) in NodeKeys(h, x);
  }

  lemma NodeOfKey(h: Hashing, ctx: Context, a: Value, b: Value, x: Value, i: nat, n: Node)
    requires h.Valid() && Unifiable(h, ctx, a, b) && x in {a, b} && n in United(h, ctx, a, b).nodes && NodesKeyed(x)
    requires i < |x.nodes| && NodeKey(h, x, x.nodes[i]) == n.id
    ensures n in Nodes(h, ctx.principal, x, a.schema != b.schema)
  {
    var v, p, f := United(h, ctx, a, b), ctx.principal, a.schema != b.schema;
    UnionContent(h, ctx, a, b);
    var o := x.nodes[i];
    var k := NewNode(h, p, x, f, o);
    NodesContain(h, p, x, f, k);
    hide Unifiable, United, Nodes, NodeKey, NewType, Keyed, NodesKeyed;
    assert k in Elements(v.nodes);
    UnionIdUnique(h, ctx, a, b, k, n);
  }

  lemma LabelsOfDelta(h: Hashing, ctx: Context, a: Value, b: Value, d: Delta)
    requires h.Valid() && DiffFits(h, ctx, true, a, b) && IsDelta(h, ctx, a, b, d) && NodesKeyed(a) && NodesKeyed(b)
    ensures Labelling(d.nodeLabels, NodeKeys(h, a) - NodeKeys(h, b), NodeKeys(h, b) - NodeKeys(h, a))
  {
    hide Shown, OnlyIds, BaseKeys, NodeKeys, Labelling, United, Unifiable, DiffFits;
  }

  /** Which side a node of the union is on, by its labels. */
  lemma NodeMark(h: Hashing, ctx: Context, a: Value, b: Value, d: Delta, n: Node)
    requires h.Valid() && DiffFits(h, ctx, true, a, b) && IsDelta(h, ctx, a, b, d) && n in d.union.nodes
    requires NodesKeyed(a) && NodesKeyed(b)
    ensures !Marked(d.nodeLabels, n.id, Added) <==> n in Nodes(h, ctx.principal, a, a.schema != b.schema)
    ensures !Marked(d.nodeLabels, n.id, Removed) <==> n in Nodes(h, ctx.principal, b, a.schema != b.schema)
  {
    hide *;
    LabelsOfDelta(h, ctx, a, b, d);
    DeltaParts(h, ctx, a, b, d);
    UnionContent(h, ctx, a, b);
    InElements(d.union.nodes, n);
    NodeSide(h, ctx, a, b, a, n);
    NodeSide(h, ctx, a, b, b, n);
    KeyedParts(h, a);
    KeyedParts(h, b);
    SideOfKey(d.nodeLabels, NodeKeys(h, a), NodeKeys(h, b), n.id);
  }

  lemma InElements<T>(q: seq<T>, x: T)
    requires x in q
    ensures x in Elements(q)
  {
  }

  /** A key of either side is unlabelled as added exactly on the first, as removed on the second. */
  lemma SideOfKey(labels: map<string, Label>, first: set<string>, second: set<string>, id: string)
    requires Labelling(labels, first - second, second - first) && id in first + second
    ensures !Marked(labels, id, Added) <==> id in first
    ensures !Marked(labels, id, Removed) <==> id in second
  {
  }

  /** The nodes of the union that do not carry a label. */
  function UnmarkedNodes(d: Delta, mark: Label): set<Node> {
    set n | n in d.union.nodes && !Marked(d.nodeLabels, n.id, mark)
  }

  lemma UnmarkedNodesAre(d: Delta, mark: Label, s: set<Node>)
    requires s <= Elements(d.union.nodes)
    requires forall n | n in d.union.nodes :: !Marked(d.nodeLabels, n.id, mark) <==> n in s
    ensures UnmarkedNodes(d, mark) == s
  {
    hide Marked;
    assert forall n | n in s :: n in Elements(d.union.nodes);
  }

  /** Nodes: the union without those added is the first value, and without those removed the
      second, always. */
  lemma NodesReversible(h: Hashing, ctx: Context, a: Value, b: Value, d: Delta)
    requires h.Valid() && DiffFits(h, ctx, true, a, b) && IsDelta(h, ctx, a, b, d)
    ensures NodesKeyed(a) && NodesKeyed(b)
    ensures UnmarkedNodes(d, Added) == Nodes(h, ctx.principal, a, a.schema != b.schema)
    ensures UnmarkedNodes(d, Removed) == Nodes(h, ctx.principal, b, a.schema != b.schema)
  {
    hide *;
    DeltaParts(h, ctx, a, b, d);
    KeyedParts(h, a);
    KeyedParts(h, b);
    UnionContent(h, ctx, a, b);
    forall n | n in d.union.nodes
      ensures !Marked(d.nodeLabels, n.id, Added) <==> n in Nodes(h, ctx.principal, a, a.schema != b.schema)
      ensures !Marked(d.nodeLabels, n.id, Removed) <==> n in Nodes(h, ctx.principal, b, a.schema != b.schema)
    {
      NodeMark(h, ctx, a, b, d, n);
    }
    UnmarkedNodesAre(d, Added, Nodes(h, ctx.principal, a, a.schema != b.schema));
    UnmarkedNodesAre(d, Removed, Nodes(h, ctx.principal, b, a.schema != b.schema));
  }

  /** No content key is shared by edges between different endpoints: whenever an edge of one value
      has a content key of the other, the other has that very edge. */
  ghost predicate SharedBasesMatch(h: Hashing, a: Value, b: Value)
    requires h.Valid() && EdgesKeyed(h, a) && EdgesKeyed(h, b) && BasesKnown(h, b)
  {
    forall e | e in a.edges && EdgeKeyed(h, a, e) && EdgeKey(h, a, e).value in BaseKeys(h, b) ::
      HasNewId(h, b, NewEdgeId(h, a, e))
  }

  ghost predicate HasNewId(h: Hashing, x: Value, id: string)
    requires h.Valid() && EdgesKeyed(h, x)
  {
    exists o | o in x.edges && EdgeKeyed(h, x, o) :: NewEdgeId(h, x, o) == id
  }

  /** An edge of the union came from a value exactly when its id is one the value gives. */
  lemma EdgeSide(h: Hashing, ctx: Context, a: Value, b: Value, x: Value, e: Edge)
    requires h.Valid() && Unifiable(h, ctx, a, b) && x in {a, b} && e in United(h, ctx, a, b).edges && EdgesKeyed(h, x)
    ensures e in Edges(h, ctx.principal, x, a.schema != b.schema) <==> HasNewId(h, x, e.id)
  {
    var p, f := ctx.principal, a.schema != b.schema;
    EdgesContain(h, p, x, f, e);
    hide Unifiable, United, Edges, NewEdgeId, NewType, AllIds, EdgesKeyed, EdgeKeyed;
    if o :| o in x.edges && EdgeKeyed(h, x, o) && e == NewEdge(h, p, x, f, o) {
      assert e.id == NewEdgeId(h, x, o);
    }
    if HasNewId(h, x, e.id) {
      var o :| o in x.edges && EdgeKeyed(h, x, o) && NewEdgeId(h, x, o) == e.id;
      EdgeOfId(h, ctx, a, b, x, o, e);
    }
  }

  lemma EdgeOfId(h: Hashing, ctx: Context, a: Value, b: Value, x: Value, o: Edge, e: Edge)
    requires h.Valid() && Unifiable(h, ctx, a, b) && x in {a, b} && e in United(h, ctx, a, b).edges && EdgesKeyed(h, x)
    requires o in x.edges && EdgeKeyed(h, x, o) && NewEdgeId(h, x, o) == e.id
    ensures e in Edges(h, ctx.principal, x, a.schema != b.schema)
  {
    var v, p, f := United(h, ctx, a, b), ctx.principal, a.schema != b.schema;
    UnionContent(h, ctx, a, b);
    var k := NewEdge(h, p, x, f, o);
    EdgesContain(h, p, x, f, k);
    hide Unifiable, United, Edges, NewEdgeId, NewType, AllIds, Keyed, EdgesKeyed, EdgeKeyed;
    assert k in Elements(v.edges) && k.id == e.id;
    EdgeIdUnique(h, ctx, a, b, k, e);
  }

  /** Two edges of a union with one id are the same edge. */
  lemma EdgeIdUnique(h: Hashing, ctx: Context, a: Value, b: Value, m: Edge, n: Edge)
    requires h.Valid() && Unifiable(h, ctx, a, b) && m in United(h, ctx, a, b).edges && n in United(h, ctx, a, b).edges
    requires m.id == n.id
    ensures m == n
  {
    var map_, es := EdgeListById(h, ctx, a, b);
    assert m in Elements(United(h, ctx, a, b).edges) && n in Elements(United(h, ctx, a, b).edges);
    hide Unifiable, United, Elements, InOrder;
    var d := MemberEntry(es, m);
    var e := MemberEntry(es, n);
    var i :| 0 <= i < |es| && es[i] == d;
    var j :| 0 <= j < |es| && es[j] == e;
    AgreeAt(es, i, j);
  }

  /** Only an edge that the kept side lacks carries a label; it carries one when some label of its
      side lands on it. */
  lemma EdgeMark(h: Hashing, ctx: Context, a: Value, b: Value, x: Value, y: Value, e: Edge)
    requires h.Valid() && Unifiable(h, ctx, a, b) && Sides(a, b, y, x) && BasesKnown(h, y)
    requires Diffable(h, x, BaseKeys(h, y)) && EdgesKeyed(h, x) && e in United(h, ctx, a, b).edges
    ensures e.id in OnlyIds(h, x, BaseKeys(h, y)) ==> Odd(h, y, x, e.id)
    ensures Covering(h, x, BaseKeys(h, y)) && Odd(h, y, x, e.id) ==> e.id in OnlyIds(h, x, BaseKeys(h, y))
  {
    hide Unifiable, United, EdgeKey, AllIds, EdgesKeyed, NewEdgeId, LabelId, BaseKeys, BasesKnown, NodesKeyed, Lands,
         Renewed, FirstEndpoints, FirstKey;
    var other := BaseKeys(h, y);
    if e.id in OnlyIds(h, x, other) {
      var i :| 0 <= i < |x.edges| && OnlyHere(h, x, x.edges[i], other) && LabelId(h, x, x.edges[i]) == e.id;
      var z, o := UnionEdgeSource(h, ctx, a, b, e);
      KeyedParts(h, z);
      RenewedId(h, ctx, a, b, z, o);
      LabelStays(h, x, x.edges[i], z, o, y);
    }
    if Covering(h, x, other) && Odd(h, y, x, e.id) {
      var o :| o in x.edges && EdgeKeyed(h, x, o) && NewEdgeId(h, x, o) == e.id && EdgeKey(h, x, o).value !in other;
      OddLabelled(h, x, y, o);
    }
  }

  lemma OddLabelled(h: Hashing, x: Value, y: Value, o: Edge)
    requires h.Valid() && BasesKnown(h, y) && Diffable(h, x, BaseKeys(h, y)) && Covering(h, x, BaseKeys(h, y))
    requires o in x.edges && EdgeKeyed(h, x, o) && EdgeKey(h, x, o).value !in BaseKeys(h, y)
    ensures NewEdgeId(h, x, o) in OnlyIds(h, x, BaseKeys(h, y))
  {
    hide EdgeKey, AllIds, NewEdgeId, LabelId, BaseKeys, BasesKnown, FirstEndpoints, FirstKey;
    assert OnlyHere(h, x, o, BaseKeys(h, y));
    var i :| 0 <= i < |x.edges| && FirstEndpoints(x, x.edges[i]) && Lands(h, x, x.edges[i], o);
    LandsExactly(h, x, x.edges[i], o);
  }

  /** An edge's id determines its content key, whichever value it is in. */
  lemma BaseOfId(h: Hashing, x: Value, o: Edge, y: Value, q: Edge)
    requires h.Valid() && EdgesKeyed(h, x) && o in x.edges && EdgeKeyed(h, x, o) && BasesKnown(h, x)
    requires NodesKeyed(y) && EdgeKeyed(h, y, q) && NewEdgeId(h, x, o) == NewEdgeId(h, y, q)
    ensures EdgeKey(h, y, q) == EdgeKey(h, x, o) && EdgeKey(h, x, o).Some?
    ensures EdgeKey(h, x, o).value in BaseKeys(h, x)
  {
    hide EdgeKey, AllIds;
    SameEdgeId(h, x, o, y, q);
    var i :| 0 <= i < |x.edges| && x.edges[i] == o;
    BaseHere(h, x, i);
  }

  /** The ids of the edges of `other` whose content key `kept` lacks. */
  ghost predicate Odd(h: Hashing, kept: Value, other: Value, id: string)
    requires h.Valid() && EdgesKeyed(h, other) && BasesKnown(h, kept)
  {
    exists o | o in other.edges && EdgeKeyed(h, other, o) ::
      NewEdgeId(h, other, o) == id && EdgeKey(h, other, o).value !in BaseKeys(h, kept)
  }

  lemma KeptNotOdd(h: Hashing, kept: Value, other: Value, id: string)
    requires h.Valid() && EdgesKeyed(h, kept) && BasesKnown(h, kept) && EdgesKeyed(h, other) && NodesKeyed(other)
    requires HasNewId(h, kept, id)
    ensures !Odd(h, kept, other, id)
  {
    KeyedParts(h, kept);
    hide EdgeKeyed, NewEdgeId, EdgesKeyed, BasesKnown, BaseKeys, EdgeKey;
    var o :| o in kept.edges && EdgeKeyed(h, kept, o) && NewEdgeId(h, kept, o) == id;
    forall q | q in other.edges && EdgeKeyed(h, other, q) && NewEdgeId(h, other, q) == id
      ensures EdgeKey(h, other, q).Some? && EdgeKey(h, other, q).value in BaseKeys(h, kept)
    {
      BaseOfId(h, kept, o, other, q);
    }
    OddMeans(h, kept, other, id);
  }

  lemma OddMeans(h: Hashing, kept: Value, other: Value, id: string)
    requires h.Valid() && EdgesKeyed(h, other) && BasesKnown(h, kept)
    requires forall q | q in other.edges && EdgeKeyed(h, other, q) && NewEdgeId(h, other, q) == id ::
               EdgeKey(h, other, q).Some? && EdgeKey(h, other, q).value in BaseKeys(h, kept)
    ensures !Odd(h, kept, other, id)
  {
    hide EdgeKey, NewEdgeId, BaseKeys;
  }

  /** With shared keys matching, an edge of the union is either kept or odd. */
  lemma KeptOrOdd(h: Hashing, kept: Value, other: Value, o: Edge)
    requires h.Valid() && EdgesKeyed(h, kept) && BasesKnown(h, kept) && EdgesKeyed(h, other)
    requires SharedBasesMatch(h, other, kept) && o in other.edges && EdgeKeyed(h, other, o)
    ensures HasNewId(h, kept, NewEdgeId(h, other, o)) || Odd(h, kept, other, NewEdgeId(h, other, o))
  {
    hide EdgeKey, NewEdgeId, BaseKeys, HasNewId;
  }

  /** Whether `odd` holds exactly the ids of the union's edges that are odd. */
  ghost predicate OddIds(h: Hashing, kept: Value, other: Value, v: Value, odd: set<string>)
    requires h.Valid() && EdgesKeyed(h, other) && BasesKnown(h, kept)
  {
    forall e | e in v.edges :: e.id in odd <==> Odd(h, kept, other, e.id)
  }

  /** The two values, in either order. */
  predicate Sides(a: Value, b: Value, kept: Value, other: Value) {
    (kept == a && other == b) || (kept == b && other == a)
  }

  function Without(v: Value, odd: set<string>): set<Edge> {
    set e | e in v.edges && e.id !in odd
  }

  lemma KeptWithin(h: Hashing, ctx: Context, a: Value, b: Value, kept: Value, other: Value, odd: set<string>)
    requires h.Valid() && Unifiable(h, ctx, a, b) && Sides(a, b, kept, other)
    requires EdgesKeyed(h, kept) && EdgesKeyed(h, other) && BasesKnown(h, kept)
    requires OddIds(h, kept, other, United(h, ctx, a, b), odd)
    ensures Edges(h, ctx.principal, kept, a.schema != b.schema) <= Without(United(h, ctx, a, b), odd)
  {
    var v, p, f := United(h, ctx, a, b), ctx.principal, a.schema != b.schema;
    UnionContent(h, ctx, a, b);
    KeyedParts(h, other);
    hide Unifiable, United, Edges, Nodes, Attachments, Keyed, EdgesKeyed, Odd, HasNewId, BasesKnown;
    forall e | e in Edges(h, p, kept, f) ensures e in Without(v, odd) {
      assert e in Elements(v.edges);
      EdgeSide(h, ctx, a, b, kept, e);
      KeptNotOdd(h, kept, other, e.id);
    }
  }

  lemma WithoutWithin(h: Hashing, ctx: Context, a: Value, b: Value, kept: Value, other: Value, odd: set<string>)
    requires h.Valid() && Unifiable(h, ctx, a, b) && Sides(a, b, kept, other)
    requires EdgesKeyed(h, kept) && EdgesKeyed(h, other) && BasesKnown(h, kept)
    requires OddIds(h, kept, other, United(h, ctx, a, b), odd) && SharedBasesMatch(h, other, kept)
    ensures Without(United(h, ctx, a, b), odd) <= Edges(h, ctx.principal, kept, a.schema != b.schema)
  {
    hide Unifiable, United, Edges, EdgesKeyed, Odd, BasesKnown, SharedBasesMatch, Sides;
    var v := United(h, ctx, a, b);
    forall e | e in Without(v, odd) ensures e in Edges(h, ctx.principal, kept, a.schema != b.schema) {
      LeftIsKept(h, ctx, a, b, kept, other, e);
    }
  }

  lemma SidesMatch(h: Hashing, ctx: Context, a: Value, b: Value, kept: Value, other: Value, odd: set<string>)
    requires h.Valid() && Unifiable(h, ctx, a, b) && Sides(a, b, kept, other)
    requires EdgesKeyed(h, kept) && EdgesKeyed(h, other) && BasesKnown(h, kept)
    requires OddIds(h, kept, other, United(h, ctx, a, b), odd)
    requires Without(United(h, ctx, a, b), odd) == Edges(h, ctx.principal, kept, a.schema != b.schema)
    ensures SharedBasesMatch(h, other, kept)
  {
    assert kept in {a, b};
    hide Unifiable, United, Edges, EdgesKeyed, OddIds, BasesKnown, SharedBasesMatch, HasNewId, Sides;
    var v := United(h, ctx, a, b);
    forall e | e in v.edges && e.id !in odd ensures HasNewId(h, kept, e.id) {
      assert e in Without(v, odd);
      EdgeSide(h, ctx, a, b, kept, e);
    }
    MatchFromSides(h, ctx, a, b, kept, other, odd);
  }

  /** What the labels keep is one side exactly when every shared content key matches. */
  lemma SideReversible(h: Hashing, ctx: Context, a: Value, b: Value, kept: Value, other: Value, odd: set<string>)
    requires h.Valid() && Unifiable(h, ctx, a, b) && Sides(a, b, kept, other)
    requires EdgesKeyed(h, kept) && EdgesKeyed(h, other) && BasesKnown(h, kept)
    requires OddIds(h, kept, other, United(h, ctx, a, b), odd)
    ensures Without(United(h, ctx, a, b), odd) == Edges(h, ctx.principal, kept, a.schema != b.schema)
       <==> SharedBasesMatch(h, other, kept)
  {
    hide *;
    KeptWithin(h, ctx, a, b, kept, other, odd);
    if SharedBasesMatch(h, other, kept) { WithoutWithin(h, ctx, a, b, kept, other, odd); }
    if Without(United(h, ctx, a, b), odd) == Edges(h, ctx.principal, kept, a.schema != b.schema) {
      SidesMatch(h, ctx, a, b, kept, other, odd);
    }
  }

  lemma LeftIsKept(h: Hashing, ctx: Context, a: Value, b: Value, kept: Value, other: Value, e: Edge)
    requires h.Valid() && Unifiable(h, ctx, a, b) && Sides(a, b, kept, other)
    requires EdgesKeyed(h, kept) && EdgesKeyed(h, other) && BasesKnown(h, kept)
    requires e in United(h, ctx, a, b).edges && !Odd(h, kept, other, e.id) && SharedBasesMatch(h, other, kept)
    ensures e in Edges(h, ctx.principal, kept, a.schema != b.schema)
  {
    var x, o := UnionEdgeSource(h, ctx, a, b, e);
    assert e.id == NewEdgeId(h, x, o);
    hide Unifiable, United, Edges, EdgesKeyed, EdgeKeyed, Odd, BasesKnown, NewEdgeId, SharedBasesMatch, Renewed;
    EdgeSide(h, ctx, a, b, kept, e);
    if x == other { KeptOrOdd(h, kept, other, o); }
    assert x == kept ==> HasNewId(h, kept, e.id);
  }

  lemma MatchFromSides(h: Hashing, ctx: Context, a: Value, b: Value, kept: Value, other: Value, odd: set<string>)
    requires h.Valid() && Unifiable(h, ctx, a, b) && Sides(a, b, kept, other)
    requires EdgesKeyed(h, kept) && EdgesKeyed(h, other) && BasesKnown(h, kept)
    requires OddIds(h, kept, other, United(h, ctx, a, b), odd)
    requires forall e | e in United(h, ctx, a, b).edges && e.id !in odd :: HasNewId(h, kept, e.id)
    ensures SharedBasesMatch(h, other, kept)
  {
    KeyedParts(h, other);
    hide Unifiable, United, EdgesKeyed, EdgeKeyed, Odd, HasNewId, BasesKnown, NewEdgeId, BaseKeys;
    forall e | e in other.edges && EdgeKeyed(h, other, e) && BaseShared(h, kept, other, e)
      ensures HasNewId(h, kept, NewEdgeId(h, other, e))
    {
      var y, q := UnionKeepsEdge(h, ctx, a, b, other, e);
      var r := Renewed(h, ctx, a, b, other, e);
      RenewedId(h, ctx, a, b, other, e);
      SharedNotOdd(h, kept, other, e);
      assert r.id !in odd;
    }
    SharedMeans(h, kept, other);
  }

  ghost predicate BaseShared(h: Hashing, kept: Value, other: Value, e: Edge)
    requires h.Valid() && BasesKnown(h, kept)
  {
    EdgeKey(h, other, e).Some? && EdgeKey(h, other, e).value in BaseKeys(h, kept)
  }

  lemma SharedMeans(h: Hashing, kept: Value, other: Value)
    requires h.Valid() && EdgesKeyed(h, kept) && EdgesKeyed(h, other) && BasesKnown(h, kept)
    requires forall e | e in other.edges && EdgeKeyed(h, other, e) && BaseShared(h, kept, other, e) ::
               HasNewId(h, kept, NewEdgeId(h, other, e))
    ensures SharedBasesMatch(h, other, kept)
  {
    hide HasNewId, NewEdgeId, EdgeKey, BaseKeys;
  }

  lemma SharedNotOdd(h: Hashing, kept: Value, other: Value, e: Edge)
    requires h.Valid() && BasesKnown(h, kept) && EdgesKeyed(h, other) && NodesKeyed(other)
    requires e in other.edges && EdgeKeyed(h, other, e) && BaseShared(h, kept, other, e)
    ensures !Odd(h, kept, other, NewEdgeId(h, other, e))
  {
    hide EdgeKey, NewEdgeId, BaseKeys, AllIds;
    forall q | q in other.edges && EdgeKeyed(h, other, q) && NewEdgeId(h, other, q) == NewEdgeId(h, other, e)
      ensures EdgeKey(h, other, q).Some? && EdgeKey(h, other, q).value in BaseKeys(h, kept)
    {
      SameEdgeId(h, other, q, other, e);
    }
    OddMeans(h, kept, other, NewEdgeId(h, other, e));
  }

  /** The edges of the union that do not carry a label. */
  function Unmarked(d: Delta, mark: Label): set<Edge> {
    set e | e in d.union.edges && !Marked(d.edgeLabels, e.id, mark)
  }

  lemma DeltaParts(h: Hashing, ctx: Context, a: Value, b: Value, d: Delta)
    requires h.Valid() && DiffFits(h, ctx, true, a, b) && IsDelta(h, ctx, a, b, d)
    ensures Unifiable(h, ctx, a, b) && d.union == United(h, ctx, a, b)
    ensures Keyed(h, a) && EdgesKeyed(h, a) && BasesKnown(h, a) && Diffable(h, a, BaseKeys(h, b))
    ensures Keyed(h, b) && EdgesKeyed(h, b) && BasesKnown(h, b) && Diffable(h, b, BaseKeys(h, a))
  {
    hide United, BaseKeys, Labelling, OnlyIds, NodeKeys;
    UnionContent(h, ctx, a, b);
    hide Unifiable;
    KeyedParts(h, a);
    KeyedParts(h, b);
  }

  lemma UnmarkedIsWithout(d: Delta, mark: Label, odd: set<string>)
    requires forall id :: Marked(d.edgeLabels, id, mark) <==> id in odd
    ensures Unmarked(d, mark) == Without(d.union, odd)
  {
    hide Marked;
  }

  lemma OddAre(h: Hashing, ctx: Context, a: Value, b: Value, kept: Value, other: Value)
    requires h.Valid() && Unifiable(h, ctx, a, b) && Sides(a, b, kept, other) && BasesKnown(h, kept)
    requires Diffable(h, other, BaseKeys(h, kept)) && EdgesKeyed(h, other) && Covering(h, other, BaseKeys(h, kept))
    ensures OddIds(h, kept, other, United(h, ctx, a, b), OnlyIds(h, other, BaseKeys(h, kept)))
  {
    hide Unifiable, United, OnlyIds, BaseKeys, Diffable, BasesKnown, Covering, EdgesKeyed, Odd, Sides;
    forall e | e in United(h, ctx, a, b).edges
      ensures e.id in OnlyIds(h, other, BaseKeys(h, kept)) <==> Odd(h, kept, other, e.id)
    {
      EdgeMark(h, ctx, a, b, other, kept, e);
    }
  }

  /** If what the labels keep is one side, they reach every edge only the other side has. */
  lemma SidesCover(h: Hashing, ctx: Context, a: Value, b: Value, kept: Value, other: Value)
    requires h.Valid() && Unifiable(h, ctx, a, b) && Sides(a, b, kept, other)
    requires EdgesKeyed(h, kept) && EdgesKeyed(h, other) && BasesKnown(h, kept)
    requires Diffable(h, other, BaseKeys(h, kept))
    requires Without(United(h, ctx, a, b), OnlyIds(h, other, BaseKeys(h, kept)))
          == Edges(h, ctx.principal, kept, a.schema != b.schema)
    ensures Covering(h, other, BaseKeys(h, kept))
  {
    KeyedParts(h, other);
    assert Sides(a, b, kept, other);
    hide Unifiable, United, Edges, EdgesKeyed, EdgeKey, Renewed, BasesKnown, BaseKeys, Labelled, OnlyIds, Odd, HasNewId,
         Diffable;
    var bs := BaseKeys(h, kept);
    forall o | o in other.edges && OnlyHere(h, other, o, bs) ensures Labelled(h, other, o) {
      var y, q := UnionKeepsEdge(h, ctx, a, b, other, o);
      OnlyIsOdd(h, kept, other, o);
      var e := Renewed(h, ctx, a, b, other, o);
      RenewedId(h, ctx, a, b, other, o);
      EdgeSide(h, ctx, a, b, kept, e);
      if HasNewId(h, kept, e.id) { KeptNotOdd(h, kept, other, e.id); }
      assert e.id in OnlyIds(h, other, bs);
      OnlyLabelled(h, other, bs, o);
    }
  }

  lemma OnlyIsOdd(h: Hashing, kept: Value, other: Value, o: Edge)
    requires h.Valid() && EdgesKeyed(h, other) && BasesKnown(h, kept) && o in other.edges && EdgeKeyed(h, other, o)
    requires OnlyHere(h, other, o, BaseKeys(h, kept))
    ensures NodesKeyed(other) && Odd(h, kept, other, NewEdgeId(h, other, o))
  {
    KeyedParts(h, other);
    hide EdgeKey, NewEdgeId, BaseKeys;
  }

  lemma OnlyLabelled(h: Hashing, x: Value, other: set<string>, o: Edge)
    requires h.Valid() && Diffable(h, x, other) && EdgeKeyed(h, x, o) && NewEdgeId(h, x, o) in OnlyIds(h, x, other)
    ensures Labelled(h, x, o)
  {
    hide EdgeKey, NewEdgeId, LabelId, Lands, FirstEndpoints;
    var i :| 0 <= i < |x.edges| && OnlyHere(h, x, x.edges[i], other) && LabelId(h, x, x.edges[i]) == NewEdgeId(h, x, o);
    LandsExactly(h, x, x.edges[i], o);
  }

  lemma SideExactly(h: Hashing, ctx: Context, a: Value, b: Value, kept: Value, other: Value)
    requires h.Valid() && Unifiable(h, ctx, a, b) && Sides(a, b, kept, other)
    requires EdgesKeyed(h, kept) && EdgesKeyed(h, other) && BasesKnown(h, kept)
    requires Diffable(h, other, BaseKeys(h, kept))
    ensures Without(United(h, ctx, a, b), OnlyIds(h, other, BaseKeys(h, kept)))
         == Edges(h, ctx.principal, kept, a.schema != b.schema)
       <==> SharedBasesMatch(h, other, kept) && Covering(h, other, BaseKeys(h, kept))
  {
    hide *;
    if Without(United(h, ctx, a, b), OnlyIds(h, other, BaseKeys(h, kept)))
       == Edges(h, ctx.principal, kept, a.schema != b.schema)
    {
      SidesCover(h, ctx, a, b, kept, other);
    }
    if Covering(h, other, BaseKeys(h, kept)) {
      OddAre(h, ctx, a, b, kept, other);
      SideReversible(h, ctx, a, b, kept, other, OnlyIds(h, other, BaseKeys(h, kept)));
    }
  }

  /** Edges: the union without those added is the first value exactly when every edge of the second
      whose content key the first has is an edge of the first, and every edge only the second has
      is one that a label lands on; and the same for the union without those removed, the other
      way round. */
  lemma EdgesReversible(h: Hashing, ctx: Context, a: Value, b: Value, d: Delta)
    requires h.Valid() && DiffFits(h, ctx, true, a, b) && IsDelta(h, ctx, a, b, d)
    ensures EdgesKeyed(h, a) && EdgesKeyed(h, b)
    ensures Unmarked(d, Added) == Edges(h, ctx.principal, a, a.schema != b.schema)
       <==> SharedBasesMatch(h, b, a) && Covering(h, b, BaseKeys(h, a))
    ensures Unmarked(d, Removed) == Edges(h, ctx.principal, b, a.schema != b.schema)
       <==> SharedBasesMatch(h, a, b) && Covering(h, a, BaseKeys(h, b))
  {
    assert Sides(a, b, a, b) && Sides(a, b, b, a);
    hide *;
    DeltaParts(h, ctx, a, b, d);
    MarkedAs(h, ctx, a, b, d);
    SideExactly(h, ctx, a, b, a, b);
    SideExactly(h, ctx, a, b, b, a);
    UnmarkedIsWithout(d, Added, OnlyIds(h, b, BaseKeys(h, a)));
    UnmarkedIsWithout(d, Removed, OnlyIds(h, a, BaseKeys(h, b)));
  }

  lemma MarkedAs(h: Hashing, ctx: Context, a: Value, b: Value, d: Delta)
    requires h.Valid() && DiffFits(h, ctx, true, a, b) && IsDelta(h, ctx, a, b, d)
    ensures forall id :: Marked(d.edgeLabels, id, Removed) <==> id in OnlyIds(h, a, BaseKeys(h, b))
    ensures forall id :: Marked(d.edgeLabels, id, Added) <==> id in OnlyIds(h, b, BaseKeys(h, a))
  {
    hide Unifiable, United, OnlyIds, BaseKeys, BasesKnown, Diffable;
    forall id ensures !(id in OnlyIds(h, a, BaseKeys(h, b)) && id in OnlyIds(h, b, BaseKeys(h, a))) {
      NeverBoth(h, a, b, id);
    }
  }

  // ----- the labels in the result -----

  lemma UnionAttachmentIds(h: Hashing, ctx: Context, a: Value, b: Value, t: Attachment)
    requires h.Valid() && Unifiable(h, ctx, a, b) && t in United(h, ctx, a, b).attachments
    ensures t.id != "" && t.id[0] == 'a'
  {
    var es := BothAttachments(h, ctx.principal, a, b);
    AttachmentParts(h, ctx, a, b);
    InElements(United(h, ctx, a, b).attachments, t);
    hide Unifiable, United, BothAttachments, HostKnown, Merged, InOrder, From, Agree, EdgesKeyed, NewHost, Members;
    var entry := MemberEntry(es, t);
    var x, o := AttachmentSource(h, ctx.principal, a, b, entry);
    assert "attachment:"[0] == 'a';
  }

  /** The value that `diff` returns is the union with attachments added, and its labels can be read
      from them: a member carries the attachment of a label exactly when it has that label. */
  lemma DeltaReadsBack(h: Hashing, ctx: Context, a: Value, b: Value, d: Delta, id: string, mark: Label)
    requires h.Valid() && DiffFits(h, ctx, true, a, b) && IsDelta(h, ctx, a, b, d)
    ensures d.shown.nodes == d.union.nodes && d.shown.edges == d.union.edges && d.shown.schema == d.union.schema
    ensures d.union.attachments <= d.shown.attachments
    ensures Carries(d.shown, MarkId(h, id, mark), OnEdge(id)) <==> Marked(d.edgeLabels, id, mark)
    ensures Carries(d.shown, MarkId(h, id, mark), OnNode(id)) <==> Marked(d.nodeLabels, id, mark)
  {
    assert d.shown == Shown(h, ctx.principal, d.union, d.edgeLabels, d.nodeLabels);
    DeltaParts(h, ctx, a, b, d);
    hide IsDelta, DiffFits, Unifiable, United, Shown, Carries, MarkId;
    forall t | t in d.union.attachments ensures t.id != "" && t.id[0] == 'a' { UnionAttachmentIds(h, ctx, a, b, t); }
    ShownKeeps(h, ctx.principal, d.union, d.edgeLabels, d.nodeLabels);
    MarksReadBack(h, ctx.principal, d.union, d.edgeLabels, d.nodeLabels, id, mark);
  }

  /** What the result says of the members, in its own words. A node key only the first value has is
      hosted by an attachment under the key `weave:diff:membership` with the value `removed`, and one
      only the second has by one with `added`; edge labels likewise. There is no other new
      attachment, and one for each of these. */
  lemma DeltaSays(h: Hashing, ctx: Context, a: Value, b: Value, d: Delta)
    requires h.Valid() && DiffFits(h, ctx, true, a, b) && IsDelta(h, ctx, a, b, d) && NodesKeyed(a) && NodesKeyed(b)
    ensures
      var (p, shown) := (ctx.principal, d.shown.attachments);
      var (goneNodes, newNodes) := (NodeKeys(h, a) - NodeKeys(h, b), NodeKeys(h, b) - NodeKeys(h, a));
      var (goneEdges, newEdges) := (OnlyIds(h, a, BaseKeys(h, b)), OnlyIds(h, b, BaseKeys(h, a)));
      && (forall k | k in goneNodes :: Said(h, p, shown, k, false, "removed"))
      && (forall k | k in newNodes :: Said(h, p, shown, k, false, "added"))
      && (forall k | k in goneEdges :: Said(h, p, shown, k, true, "removed"))
      && (forall k | k in newEdges :: Said(h, p, shown, k, true, "added"))
      && (forall t | t in shown ::
            || t in d.union.attachments
            || Saying(h, p, t, goneNodes, false, "removed") || Saying(h, p, t, newNodes, false, "added")
            || Saying(h, p, t, goneEdges, true, "removed") || Saying(h, p, t, newEdges, true, "added"))
      && |shown| == |d.union.attachments| + |goneNodes| + |newNodes| + |goneEdges| + |newEdges|
  {
    var p, shown := ctx.principal, d.shown.attachments;
    var goneNodes, newNodes := NodeKeys(h, a) - NodeKeys(h, b), NodeKeys(h, b) - NodeKeys(h, a);
    var goneEdges, newEdges := OnlyIds(h, a, BaseKeys(h, b)), OnlyIds(h, b, BaseKeys(h, a));
    DeltaIs(h, ctx, a, b, d);
    hide *;
    LabelsSay(h, p, d.union, d.nodeLabels, d.edgeLabels, goneNodes, newNodes, goneEdges, newEdges);
  }

  lemma LabelsSay(h: Hashing, p: string, u: Value, nodeLabels: map<string, Label>, edgeLabels: map<string, Label>,
                  goneNodes: set<string>, newNodes: set<string>, goneEdges: set<string>, newEdges: set<string>)
    requires goneNodes !! newNodes && goneEdges !! newEdges
    requires Labelling(nodeLabels, goneNodes, newNodes) && Labelling(edgeLabels, goneEdges, newEdges)
    ensures
      var shown := Shown(h, p, u, edgeLabels, nodeLabels).attachments;
      && (forall k | k in goneNodes :: Said(h, p, shown, k, false, "removed"))
      && (forall k | k in newNodes :: Said(h, p, shown, k, false, "added"))
      && (forall k | k in goneEdges :: Said(h, p, shown, k, true, "removed"))
      && (forall k | k in newEdges :: Said(h, p, shown, k, true, "added"))
      && (forall t | t in shown ::
            || t in u.attachments
            || Saying(h, p, t, goneNodes, false, "removed") || Saying(h, p, t, newNodes, false, "added")
            || Saying(h, p, t, goneEdges, true, "removed") || Saying(h, p, t, newEdges, true, "added"))
      && |shown| == |u.attachments| + |goneNodes| + |newNodes| + |goneEdges| + |newEdges|
  {
    hide *;
    var em, nm := ShownSays(h, p, u, edgeLabels, nodeLabels);
    LabellingSides(edgeLabels, goneEdges, newEdges);
    LabellingSides(nodeLabels, goneNodes, newNodes);
    TellingSides(h, p, em, edgeLabels, goneEdges, newEdges, true);
    TellingSides(h, p, nm, nodeLabels, goneNodes, newNodes, false);
    SaidMore(h, p, u.attachments, em, nm);
  }

  lemma DeltaIs(h: Hashing, ctx: Context, a: Value, b: Value, d: Delta)
    requires h.Valid() && DiffFits(h, ctx, true, a, b) && IsDelta(h, ctx, a, b, d) && NodesKeyed(a) && NodesKeyed(b)
    ensures Labelling(d.nodeLabels, NodeKeys(h, a) - NodeKeys(h, b), NodeKeys(h, b) - NodeKeys(h, a))
    ensures Labelling(d.edgeLabels, OnlyIds(h, a, BaseKeys(h, b)), OnlyIds(h, b, BaseKeys(h, a)))
    ensures d.shown == Shown(h, ctx.principal, d.union, d.edgeLabels, d.nodeLabels)
    ensures OnlyIds(h, a, BaseKeys(h, b)) !! OnlyIds(h, b, BaseKeys(h, a))
  {
    forall id ensures !(id in OnlyIds(h, a, BaseKeys(h, b)) && id in OnlyIds(h, b, BaseKeys(h, a))) {
      NeverBoth(h, a, b, id);
    }
  }

  lemma LabellingSides(labels: map<string, Label>, removed: set<string>, added: set<string>)
    requires Labelling(labels, removed, added)
    ensures labels.Keys == removed + added && forall id | id in labels :: labels[id] == Removed <==> id in removed
  {
  }

  /** What a part of a list says, the list says. */
  lemma SaidMore(h: Hashing, p: string, kept: seq<Attachment>, em: seq<Attachment>, nm: seq<Attachment>)
    ensures forall k, onEdge, text | Said(h, p, em, k, onEdge, text) || Said(h, p, nm, k, onEdge, text) ::
              Said(h, p, (kept + em) + nm, k, onEdge, text)
    ensures forall t | t in (kept + em) + nm :: t in kept || t in em || t in nm
  {
    hide Says;
    forall k, onEdge, text | Said(h, p, em, k, onEdge, text) || Said(h, p, nm, k, onEdge, text)
      ensures Said(h, p, (kept + em) + nm, k, onEdge, text)
    {
      var t :| (t in em || t in nm) && Says(h, p, t, k, onEdge, text);
      assert t in (kept + em) + nm;
    }
  }

  /** The attachment of an edge label has the origins of its edge, and no others are new. */
  lemma DeltaOrigins(h: Hashing, ctx: Context, a: Value, b: Value, d: Delta)
    requires h.Valid() && DiffFits(h, ctx, true, a, b) && IsDelta(h, ctx, a, b, d)
    ensures
      var (gone, more) := (OnlyIds(h, a, BaseKeys(h, b)), OnlyIds(h, b, BaseKeys(h, a)));
      && (forall k | k in gone :: SaidWithOrigins(h, d.shown, d.union.edgeOrigins, k, "removed"))
      && (forall k | k in more :: SaidWithOrigins(h, d.shown, d.union.edgeOrigins, k, "added"))
      && (forall id | id in d.shown.attachmentOrigins && id !in d.union.attachmentOrigins ::
            SayingId(h, id, gone, "removed") || SayingId(h, id, more, "added"))
  {
    var gone, more := OnlyIds(h, a, BaseKeys(h, b)), OnlyIds(h, b, BaseKeys(h, a));
    forall id ensures !(id in gone && id in more) { NeverBoth(h, a, b, id); }
    assert Labelling(d.edgeLabels, gone, more);
    assert d.shown == Shown(h, ctx.principal, d.union, d.edgeLabels, d.nodeLabels);
    hide *;
    LabellingSides(d.edgeLabels, gone, more);
    ShownOrigins(h, ctx.principal, d.union, d.edgeLabels, d.nodeLabels);
    forall k | k in d.edgeLabels ensures SaidWithOrigins(h, d.shown, d.union.edgeOrigins, k, Status(d.edgeLabels[k])) {
      MarkIdOrigins(h, d.shown, d.union.edgeOrigins, k, d.edgeLabels[k]);
    }
    OriginsSides(h, d.union, d.shown, d.edgeLabels, gone, more);
  }
}
