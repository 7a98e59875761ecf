/** When two members share a content key, over their fields. Key functions as such promise only that
    equal content gives equal keys; what makes a key an identity is that nothing else does. */
module GraphKeys {
  import opened Orders
  import opened Restrictions
  import opened GraphValues
  import opened GraphRenewal

  // ----- nodes -----

  /** The id is already the key of a synthetic node. */
  predicate FixedId(h: Hashing, id: string) {
    "derived-node:" <= id && h.digest(id[13..])
  }

  /** Entity, space and scope agree. */
  predicate SamePlace(m: Node, n: Node) {
    m.entity == n.entity && m.space == n.space && m.scope == n.scope
  }

  /** Two nodes are one: with the same stored origins, or with none and the same id, at the same place;
      a node whose id is a key already is that key. */
  predicate OneNode(h: Hashing, m: Node, from: seq<RecordRef>, n: Node, to: seq<RecordRef>) {
    if from != [] && to != [] then Elements(from) == Elements(to) && SamePlace(m, n)
    else if from == [] && to == [] then
      if FixedId(h, m.id) && FixedId(h, n.id) then m.id == n.id
      else if FixedId(h, m.id) then m.id == "derived-node:" + h.key(NodeIdTerm(n.id, n.entity, n.space, n.scope))
      else if FixedId(h, n.id) then n.id == "derived-node:" + h.key(NodeIdTerm(m.id, m.entity, m.space, m.scope))
      else m.id == n.id && SamePlace(m, n)
    else false
  }

  lemma UniqueExactly(h: Hashing, a: seq<RecordRef>, b: seq<RecordRef>)
    requires h.Valid()
    ensures Unique(h, a) == Unique(h, b) <==> Elements(a) == Elements(b)
  {
    OriginKeyInjective(h);
  }

  lemma NodeKeyOf(h: Hashing, x: Value, n: Node)
    requires h.Valid() && n.id in x.nodeOrigins
    ensures
      var origins := x.nodeOrigins[n.id];
      NodeKey(h, x, n) ==
        if origins != [] then "node:" + h.key(NodeOriginTerm(Unique(h, origins), n.entity, n.space, n.scope))
        else if FixedId(h, n.id) then n.id
        else "derived-node:" + h.key(NodeIdTerm(n.id, n.entity, n.space, n.scope))
  {
    hide Unique;
  }

  /** Two nodes, of whatever values, share a key exactly when they are one. */
  lemma NodeKeyShared(h: Hashing, x: Value, m: Node, y: Value, n: Node)
    requires h.Valid() && m.id in x.nodeOrigins && n.id in y.nodeOrigins
    ensures NodeKey(h, x, m) == NodeKey(h, y, n) <==> OneNode(h, m, x.nodeOrigins[m.id], n, y.nodeOrigins[n.id])
  {
    NodeKeyOf(h, x, m);
    NodeKeyOf(h, y, n);
    hide NodeKey, Unique;
    var from, to := x.nodeOrigins[m.id], y.nodeOrigins[n.id];
    if NodeKey(h, x, m) == NodeKey(h, y, n) {
      if from != [] && to != [] {
        SharedOrigins(h, m, from, n, to);
      } else if from == [] && to == [] && !FixedId(h, m.id) && !FixedId(h, n.id) {
        SharedIds(h, m, n);
      } else {
        assert "node:"[0] == 'n' && "derived-node:"[0] == 'd';
      }
    }
    UniqueExactly(h, from, to);
  }

  lemma SharedOrigins(h: Hashing, m: Node, from: seq<RecordRef>, n: Node, to: seq<RecordRef>)
    requires h.Valid()
    requires "node:" + h.key(NodeOriginTerm(Unique(h, from), m.entity, m.space, m.scope))
          == "node:" + h.key(NodeOriginTerm(Unique(h, to), n.entity, n.space, n.scope))
    ensures Elements(from) == Elements(to) && SamePlace(m, n)
  {
    hide Unique;
    var s, t := NodeOriginTerm(Unique(h, from), m.entity, m.space, m.scope), NodeOriginTerm(Unique(h, to), n.entity, n.space, n.scope);
    Drop("node:", h.key(s), h.key(t));
    SameTerm(h, s, t);
    UniqueExactly(h, from, to);
  }

  lemma SharedIds(h: Hashing, m: Node, n: Node)
    requires h.Valid()
    requires "derived-node:" + h.key(NodeIdTerm(m.id, m.entity, m.space, m.scope))
          == "derived-node:" + h.key(NodeIdTerm(n.id, n.entity, n.space, n.scope))
    ensures m.id == n.id && SamePlace(m, n)
  {
    var s, t := NodeIdTerm(m.id, m.entity, m.space, m.scope), NodeIdTerm(n.id, n.entity, n.space, n.scope);
    Drop("derived-node:", h.key(s), h.key(t));
    SameTerm(h, s, t);
  }

  // ----- edges -----

  /** A stored assertion: it has origins and no derivations. */
  predicate Stored(x: Value, e: Edge) {
    e.derivations == [] && e.id in x.edgeOrigins && x.edgeOrigins[e.id] != []
  }

  /** A relation of a graph value only: no origins, nothing derived from. */
  predicate ValueOnly(x: Value, e: Edge) {
    e.derivations == [] && e.derivedFrom == [] && e.id in x.edgeOrigins && x.edgeOrigins[e.id] == []
  }

  /** Two stored assertions are one when they have the same origins and the same interval. */
  predicate OneStored(x: Value, d: Edge, y: Value, e: Edge)
    requires Stored(x, d) && Stored(y, e)
  {
    Elements(x.edgeOrigins[d.id]) == Elements(y.edgeOrigins[e.id]) && d.validTime == e.validTime
  }

  /** Two conclusions are one when they say the same and rest on the same. */
  predicate OneConclusion(d: Edge, e: Edge) {
    && d.relation == e.relation && d.validTime == e.validTime && d.polarity == e.polarity && d.content == e.content
    && d.derivations == e.derivations && d.derivedNodes == e.derivedNodes && d.derivedSnapshots == e.derivedSnapshots
  }

  /** Two relations of values are one when they join nodes with the same keys and say the same. */
  predicate OneRelation(h: Hashing, x: Value, d: Edge, y: Value, e: Edge)
    requires h.Valid()
  {
    && EndpointKey(h, x, d.from) == EndpointKey(h, y, e.from) && EndpointKey(h, x, d.to) == EndpointKey(h, y, e.to)
    && TypeName(h, x.schema, d.typeId) == TypeName(h, y.schema, e.typeId)
    && d.relation == e.relation && d.validTime == e.validTime && d.polarity == e.polarity && d.content == e.content
    && d.metadata == e.metadata && d.derivedNodes == e.derivedNodes && d.derivedSnapshots == e.derivedSnapshots
  }

  lemma EdgeKinds(h: Hashing, x: Value, e: Edge)
    requires h.Valid() && EdgeKey(h, x, e).Some?
    ensures Stored(x, e) || ValueOnly(x, e) || e.derivations != []
    ensures Stored(x, e) ==> EdgeKey(h, x, e).value == StoredKey(h, x.edgeOrigins[e.id], e)
    ensures ValueOnly(x, e) ==>
              && EndpointKey(h, x, e.from).Some? && EndpointKey(h, x, e.to).Some?
              && EdgeKey(h, x, e).value == RelationKey(h, x, e)
    ensures e.derivations != [] ==> EdgeKey(h, x, e).value == ConclusionKey(h, e)
  {
    hide Unique, EndpointKey, SnapshotKeyed;
  }

  function StoredKey(h: Hashing, origins: seq<RecordRef>, e: Edge): string
    requires h.Valid()
  {
    "edge:" + h.key(EdgeOriginTerm(Unique(h, origins), e.validTime))
  }

  function ConclusionKey(h: Hashing, e: Edge): string {
    "derived:" + SnapshotKeyed(h, DerivedTerm(e.relation, e.validTime, e.polarity, e.content, e.derivations, e.derivedNodes),
                               e.derivedSnapshots)
  }

  function RelationKey(h: Hashing, x: Value, e: Edge): string
    requires h.Valid() && EndpointKey(h, x, e.from).Some? && EndpointKey(h, x, e.to).Some?
  {
    SyntheticKey(h, EndpointKey(h, x, e.from).value, EndpointKey(h, x, e.to).value, TypeName(h, x.schema, e.typeId), e)
  }

  lemma SharedStored(h: Hashing, x: Value, d: Edge, y: Value, e: Edge)
    requires h.Valid() && Stored(x, d) && Stored(y, e)
    ensures StoredKey(h, x.edgeOrigins[d.id], d) == StoredKey(h, y.edgeOrigins[e.id], e) <==> OneStored(x, d, y, e)
  {
    var p, q := x.edgeOrigins[d.id], y.edgeOrigins[e.id];
    UniqueExactly(h, p, q);
    hide Unique;
    var s, t := EdgeOriginTerm(Unique(h, p), d.validTime), EdgeOriginTerm(Unique(h, q), e.validTime);
    if StoredKey(h, p, d) == StoredKey(h, q, e) {
      Drop("edge:", h.key(s), h.key(t));
      SameTerm(h, s, t);
    }
  }

  lemma SharedConclusion(h: Hashing, d: Edge, e: Edge)
    requires h.Valid()
    ensures ConclusionKey(h, d) == ConclusionKey(h, e) <==> OneConclusion(d, e)
  {
    var s := DerivedTerm(d.relation, d.validTime, d.polarity, d.content, d.derivations, d.derivedNodes);
    var t := DerivedTerm(e.relation, e.validTime, e.polarity, e.content, e.derivations, e.derivedNodes);
    if ConclusionKey(h, d) == ConclusionKey(h, e) {
      Drop("derived:", SnapshotKeyed(h, s, d.derivedSnapshots), SnapshotKeyed(h, t, e.derivedSnapshots));
      SnapshotKeyedInjective(h, s, d.derivedSnapshots, t, e.derivedSnapshots);
    }
  }

  lemma SharedRelation(h: Hashing, x: Value, d: Edge, y: Value, e: Edge)
    requires h.Valid() && EndpointKey(h, x, d.from).Some? && EndpointKey(h, x, d.to).Some?
    requires EndpointKey(h, y, e.from).Some? && EndpointKey(h, y, e.to).Some?
    ensures RelationKey(h, x, d) == RelationKey(h, y, e) <==> OneRelation(h, x, d, y, e)
  {
    hide EndpointKey, TypeName, SnapshotKeyed;
    var f, g, t := EndpointKey(h, x, d.from).value, EndpointKey(h, x, d.to).value, TypeName(h, x.schema, d.typeId);
    var k, l, u := EndpointKey(h, y, e.from).value, EndpointKey(h, y, e.to).value, TypeName(h, y.schema, e.typeId);
    var s := SyntheticTerm(f, g, t, d.relation, d.validTime, d.polarity, d.content, d.metadata, d.derivedNodes);
    var r := SyntheticTerm(k, l, u, e.relation, e.validTime, e.polarity, e.content, e.metadata, e.derivedNodes);
    if RelationKey(h, x, d) == RelationKey(h, y, e) {
      Drop("synthetic-edge:", SnapshotKeyed(h, s, d.derivedSnapshots), SnapshotKeyed(h, r, e.derivedSnapshots));
      SnapshotKeyedInjective(h, s, d.derivedSnapshots, r, e.derivedSnapshots);
    }
  }

  /** Two edges, of whatever values, share a content key exactly when both are stored with the same
      origins and interval, or both conclusions that say and rest on the same, or both relations of
      values between nodes of the same keys that say the same. */
  lemma EdgeKeyShared(h: Hashing, x: Value, d: Edge, y: Value, e: Edge)
    requires h.Valid() && EdgeKey(h, x, d).Some? && EdgeKey(h, y, e).Some?
    ensures EdgeKey(h, x, d) == EdgeKey(h, y, e) <==>
              || (Stored(x, d) && Stored(y, e) && OneStored(x, d, y, e))
              || (d.derivations != [] && e.derivations != [] && OneConclusion(d, e))
              || (ValueOnly(x, d) && ValueOnly(y, e) && OneRelation(h, x, d, y, e))
  {
    hide EdgeKey, EndpointKey, TypeName, SyntheticKey, SnapshotKeyed, OneStored, OneConclusion, OneRelation, Unique;
    hide StoredKey, ConclusionKey, RelationKey;
    EdgeKinds(h, x, d);
    EdgeKinds(h, y, e);
    BaseFamily(h, x, d);
    BaseFamily(h, y, e);
    if Stored(x, d) && Stored(y, e) { SharedStored(h, x, d, y, e); }
    if d.derivations != [] && e.derivations != [] { SharedConclusion(h, d, e); }
    if ValueOnly(x, d) && ValueOnly(y, e) { SharedRelation(h, x, d, y, e); }
  }

  /** Two edges of a union are one exactly when content key and both endpoint keys agree. */
  lemma EdgeIdShared(h: Hashing, x: Value, d: Edge, y: Value, e: Edge)
    requires h.Valid() && NodesKeyed(x) && EdgeKeyed(h, x, d) && NodesKeyed(y) && EdgeKeyed(h, y, e)
    ensures NewEdgeId(h, x, d) == NewEdgeId(h, y, e) <==>
              && EdgeKey(h, x, d) == EdgeKey(h, y, e)
              && AllIds(h, x)[d.from] == AllIds(h, y)[e.from] && AllIds(h, x)[d.to] == AllIds(h, y)[e.to]
  {
    hide EdgeKey, AllIds;
    if NewEdgeId(h, x, d) == NewEdgeId(h, y, e) {
      IdParts(h, EdgeKey(h, x, d).value, AllIds(h, x)[d.from], AllIds(h, x)[d.to],
              EdgeKey(h, y, e).value, AllIds(h, y)[e.from], AllIds(h, y)[e.to]);
    }
  }

  // ----- types and attachments -----

  /** Names that are canonical already stay; others share a canonical name exactly when they are the
      same name in the same schema. */
  lemma TypeKeyShared(h: Hashing, s: Schema, m: string, t: Schema, n: string)
    requires h.Valid()
    ensures "weave:algebra:type:" <= m ==> TypeKey(h, s, m) == m
    ensures !("weave:algebra:type:" <= m) && !("weave:algebra:type:" <= n) ==>
              (TypeKey(h, s, m) == TypeKey(h, t, n) <==> s == t && m == n)
  {
    if !(TYPE_PREFIX <= m) && !(TYPE_PREFIX <= n) && TypeKey(h, s, m) == TypeKey(h, t, n) {
      Drop(TYPE_PREFIX, h.key(TypeTerm(s, m)), h.key(TypeTerm(t, n)));
      SameTerm(h, TypeTerm(s, m), TypeTerm(t, n));
    }
  }

  /** Attachments get one id exactly when they say the same of the same host with the same origins. */
  lemma AttachmentIdShared(h: Hashing, p: string, x: Value, a: Attachment, y: Value, b: Attachment)
    requires h.Valid() && EdgesKeyed(h, x) && HostKnown(h, x, a.host) && EdgesKeyed(h, y) && HostKnown(h, y, b.host)
    ensures NewAttachment(h, p, x, a).id == NewAttachment(h, p, y, b).id <==>
              && NewHost(h, x, a.host) == NewHost(h, y, b.host) && a.rest == b.rest
              && OriginsOf(x.attachmentOrigins, a.id) == OriginsOf(y.attachmentOrigins, b.id)
  {
    hide NewHost, EdgesKeyed, HostKnown;
    var c := a.(id := "", host := NewHost(h, x, a.host), readers := [p]);
    var d := b.(id := "", host := NewHost(h, y, b.host), readers := [p]);
    var s := AttachmentTerm(c, OriginsOf(x.attachmentOrigins, a.id));
    var t := AttachmentTerm(d, OriginsOf(y.attachmentOrigins, b.id));
    if NewAttachment(h, p, x, a).id == NewAttachment(h, p, y, b).id {
      Drop("attachment:", h.key(s), h.key(t));
      SameTerm(h, s, t);
    }
  }

  // ----- which members have keys -----

  /** The node has a stored origin or was derived from something. */
  predicate Founded(n: Node, origins: seq<RecordRef>) {
    origins != [] || n.derivedFrom != [] || n.derivedNodes != [] || n.derivedSnapshots != []
  }

  /** The first node with this id, which the host has origins for and which is founded. */
  ghost predicate FoundedEnd(x: Value, i: nat, id: string) {
    && i < |x.nodes| && x.nodes[i].id == id && (forall j | 0 <= j < i :: x.nodes[j].id != id)
    && id in x.nodeOrigins && Founded(x.nodes[i], x.nodeOrigins[id])
  }

  lemma {:induction false} FirstNodeExactly(nodes: seq<Node>, id: string)
    ensures FirstNode(nodes, id).None? ==> forall j | 0 <= j < |nodes| :: nodes[j].id != id
    ensures FirstNode(nodes, id).Some? ==> exists i | 0 <= i < |nodes| ::
              nodes[i] == FirstNode(nodes, id).value && nodes[i].id == id && forall j | 0 <= j < i :: nodes[j].id != id
  {
    if nodes != [] && nodes[0].id != id {
      var rest := nodes[1..];
      FirstNodeExactly(rest, id);
      if FirstNode(rest, id).Some? {
        var i :| 0 <= i < |rest| && rest[i] == FirstNode(rest, id).value && rest[i].id == id
                 && forall j | 0 <= j < i :: rest[j].id != id;
        assert nodes[i + 1] == rest[i];
        forall j | 0 <= j < i + 1 ensures nodes[j].id != id { if j > 0 { assert nodes[j] == rest[j - 1]; } }
      }
    }
  }

  /** An endpoint of a relation of values has a key exactly when the first node with its id is founded, and
      then it is that node's. */
  lemma EndpointExactly(h: Hashing, x: Value, id: string, key: string)
    requires h.Valid()
    ensures EndpointKey(h, x, id) == Some(key) <==>
            exists i: nat :: FoundedEnd(x, i, id) && x.nodes[i].id in x.nodeOrigins && key == NodeKey(h, x, x.nodes[i])
  {
    FirstNodeExactly(x.nodes, id);
    hide NodeKey, FirstNode;
    if EndpointKey(h, x, id) == Some(key) {
      var i :| 0 <= i < |x.nodes| && x.nodes[i] == FirstNode(x.nodes, id).value && x.nodes[i].id == id
               && forall j | 0 <= j < i :: x.nodes[j].id != id;
      assert FoundedEnd(x, i, id);
    }
    if i: nat :| FoundedEnd(x, i, id) && x.nodes[i].id in x.nodeOrigins && key == NodeKey(h, x, x.nodes[i]) {
      var l :| 0 <= l < |x.nodes| && x.nodes[l] == FirstNode(x.nodes, id).value && x.nodes[l].id == id
               && forall j | 0 <= j < l :: x.nodes[j].id != id;
      assert l == i;
    }
  }

  /** An edge has a content key exactly when it is stored, or a conclusion, or a relation of values both of
      whose ends are founded. */
  lemma EdgeKeyKnown(h: Hashing, x: Value, e: Edge)
    requires h.Valid()
    ensures EdgeKey(h, x, e).Some? <==>
              || Stored(x, e) || e.derivations != []
              || (ValueOnly(x, e) && (exists i: nat :: FoundedEnd(x, i, e.from)) && (exists i: nat :: FoundedEnd(x, i, e.to)))
  {
    EndFounded(h, x, e.from);
    EndFounded(h, x, e.to);
    hide EndpointKey, SnapshotKeyed, Unique, FoundedEnd;
  }

  lemma EndFounded(h: Hashing, x: Value, id: string)
    requires h.Valid()
    ensures EndpointKey(h, x, id).Some? <==> exists i: nat :: FoundedEnd(x, i, id)
  {
    hide NodeKey, EndpointKey;
    if EndpointKey(h, x, id).Some? {
      EndpointExactly(h, x, id, EndpointKey(h, x, id).value);
    }
    if i: nat :| FoundedEnd(x, i, id) {
      assert x.nodes[i].id in x.nodeOrigins;
      EndpointExactly(h, x, id, NodeKey(h, x, x.nodes[i]));
    }
  }
}
