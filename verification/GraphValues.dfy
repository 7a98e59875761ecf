/** Graph values, the content keys that identify their members, and the normal form in which
    the members of two values meet. */
module GraphValues {
  import opened Orders
  import opened Restrictions

  datatype Option<T> = None | Some(value: T)

  datatype Interval = Interval(start: int, end: Option<int>) {
    predicate Contains(t: int) {
      start <= t && (end.Some? ==> t < end.value)
    }
  }

  datatype Polarity = Positive | Negative

  /** `rest` holds the fields no key looks at; `readers` covers reader groups too. */
  datatype Node = Node(
    id: string, entity: string, space: string, scope: Json, typeId: Option<string>,
    derivedFrom: seq<RecordRef>, derivedNodes: seq<RecordRef>, derivedSnapshots: seq<GraphRef>,
    rest: Json, readers: seq<string>)

  /** `content` holds properties, assertion properties, source, context and structural reference. */
  datatype Edge = Edge(
    id: string, from: string, to: string, typeId: Option<string>, relation: string,
    validTime: Interval, polarity: Polarity, derivedFrom: seq<RecordRef>, derivations: seq<Derivation>,
    derivedNodes: seq<RecordRef>, derivedSnapshots: seq<GraphRef>,
    content: Json, metadata: Json, provenance: Json, readers: seq<string>)

  datatype Host = OnGraph | OnEntity(entity: string) | OnNode(node: string) | OnEdge(edge: string) | OnAssertion(assertion: string)

  datatype Attachment = Attachment(id: string, host: Host, rest: Json, readers: seq<string>)

  datatype EdgeType = EdgeType(fromType: string, toType: string, rest: Json)

  datatype Schema = Schema(id: string, revision: string, nodes: map<string, Json>, edges: map<string, EdgeType>)

  datatype Value = Value(
    nodes: seq<Node>, edges: seq<Edge>, attachments: seq<Attachment>, schema: Option<Schema>,
    nodeOrigins: map<string, seq<RecordRef>>, edgeOrigins: map<string, seq<RecordRef>>,
    attachmentOrigins: map<string, seq<RecordRef>>)

  /** The tuples that are hashed. */
  datatype Term =
    | RecordTerm(record: RecordRef)
    | GraphTerm(graph: GraphRef)
    | GroupTerm(group: Derivation)
    | NodeIdTerm(id: string, entity: string, space: string, scope: Json)
    | NodeOriginTerm(origins: seq<RecordRef>, entity: string, space: string, scope: Json)
    | EdgeOriginTerm(origins: seq<RecordRef>, validTime: Interval)
    | DerivedTerm(relation: string, validTime: Interval, polarity: Polarity, content: Json,
                  derivations: seq<Derivation>, derivedNodes: seq<RecordRef>)
    | SyntheticTerm(from: string, to: string, typeId: Option<string>, relation: string, validTime: Interval,
                    polarity: Polarity, content: Json, metadata: Json, derivedNodes: seq<RecordRef>)
    | KeyedTerm(original: string, snapshots: seq<GraphRef>)
    | EdgeTerm(base: string, from: string, to: string)
    | AttachmentTerm(attachment: Attachment, origins: seq<RecordRef>)
    | TypeTerm(schema: Schema, name: string)
    | SchemaTerm(nodes: map<string, Json>, edges: map<string, EdgeType>)
    | MarkTerm(id: string, status: string)

  /** A collision-free digest, and the test that recognises its texts. */
  datatype Hashing = Hashing(key: Term -> string, digest: string -> bool) {
    ghost predicate Valid() {
      Injective(key) && forall t :: digest(key(t))
    }
  }

  // ----- node keys -----

  function OriginKey(h: Hashing): RecordRef -> seq<string> {
    (r: RecordRef) => [h.key(RecordTerm(r))]
  }

  lemma OriginKeyInjective(h: Hashing)
    requires h.Valid()
    ensures Injective(OriginKey(h))
  {
    var key := OriginKey(h);
    forall x: RecordRef, y: RecordRef | key(x) == key(y) ensures x == y {
      assert key(x)[0] == key(y)[0];
      SameTerm(h, RecordTerm(x), RecordTerm(y));
    }
  }

  lemma SameTerm(h: Hashing, s: Term, t: Term)
    requires h.Valid() && h.key(s) == h.key(t)
    ensures s == t
  {
  }

  /** `unique`: no repeats, in the order of the members' digests. */
  function Unique(h: Hashing, refs: seq<RecordRef>): seq<RecordRef>
    requires h.Valid()
  {
    OriginKeyInjective(h);
    Listing(OriginKey(h), Elements(refs))
  }

  const DERIVED_NODE := "derived-node:"

  predicate IsDerivedId(h: Hashing, id: string) {
    DERIVED_NODE <= id && h.digest(id[|DERIVED_NODE|..])
  }

  function NodeKey(h: Hashing, x: Value, n: Node): string
    requires h.Valid() && n.id in x.nodeOrigins
  {
    var origins := x.nodeOrigins[n.id];
    if origins == [] then
      if IsDerivedId(h, n.id) then n.id
      else DERIVED_NODE + h.key(NodeIdTerm(n.id, n.entity, n.space, n.scope))
    else "node:" + h.key(NodeOriginTerm(Unique(h, origins), n.entity, n.space, n.scope))
  }

  // ----- types and schemas -----

  const TYPE_PREFIX := "weave:algebra:type:"
  const SCHEMA_PREFIX := "weave:algebra:schema:"

  function TypeKey(h: Hashing, s: Schema, id: string): string {
    if TYPE_PREFIX <= id then id else TYPE_PREFIX + h.key(TypeTerm(s, id))
  }

  function TypeName(h: Hashing, s: Option<Schema>, id: Option<string>): Option<string> {
    if s.Some? && id.Some? then Some(TypeKey(h, s.value, id.value)) else id
  }

  lemma TypeKeyFixed(h: Hashing, s: Schema, id: string, t: Schema)
    ensures TYPE_PREFIX <= TypeKey(h, s, id) && TypeKey(h, t, TypeKey(h, s, id)) == TypeKey(h, s, id)
  {
  }

  // ----- edge keys -----

  function SnapshotKeyed(h: Hashing, t: Term, snapshots: seq<GraphRef>): string {
    if snapshots == [] then h.key(t) else h.key(KeyedTerm(h.key(t), snapshots))
  }

  /** The first node with an id, as a linear search finds it. */
  function FirstNode(nodes: seq<Node>, id: string): Option<Node> {
    if nodes == [] then None
    else if nodes[0].id == id then Some(nodes[0])
    else FirstNode(nodes[1..], id)
  }

  /** The last of the first `k` nodes with an id, as a map keyed by id ends up with. */
  function LastNode(nodes: seq<Node>, k: nat, id: string): Option<Node>
    requires k <= |nodes|
  {
    if k == 0 then None
    else if nodes[k - 1].id == id then Some(nodes[k - 1])
    else LastNode(nodes, k - 1, id)
  }

  predicate Grounded(x: Value, n: Node) {
    || n.derivedSnapshots != [] || n.derivedNodes != [] || n.derivedFrom != []
    || (n.id in x.nodeOrigins && x.nodeOrigins[n.id] != [])
  }

  /** The key of the node a synthetic relation ends at, which has to be grounded. */
  function EndpointKey(h: Hashing, x: Value, id: string): Option<string>
    requires h.Valid()
  {
    var n := FirstNode(x.nodes, id);
    if n.Some? && Grounded(x, n.value) && n.value.id in x.nodeOrigins then Some(NodeKey(h, x, n.value)) else None
  }

  predicate Synthetic(x: Value, e: Edge) {
    e.id in x.edgeOrigins && x.edgeOrigins[e.id] == [] && e.derivedFrom == [] && e.derivations == []
  }

  function SyntheticKey(h: Hashing, from: string, to: string, typeId: Option<string>, e: Edge): string {
    "synthetic-edge:" + SnapshotKeyed(h, SyntheticTerm(from, to, typeId, e.relation, e.validTime, e.polarity, e.content,
                                                       e.metadata, e.derivedNodes), e.derivedSnapshots)
  }

  /** The content key of an edge, without its endpoints unless it is synthetic. */
  function EdgeKey(h: Hashing, x: Value, e: Edge): Option<string>
    requires h.Valid()
  {
    if Synthetic(x, e) then
      var from, to := EndpointKey(h, x, e.from), EndpointKey(h, x, e.to);
      if from.Some? && to.Some?
      then Some(SyntheticKey(h, from.value, to.value, TypeName(h, x.schema, e.typeId), e))
      else None
    else if e.derivations == [] then
      if e.id in x.edgeOrigins && x.edgeOrigins[e.id] != []
      then Some("edge:" + h.key(EdgeOriginTerm(Unique(h, x.edgeOrigins[e.id]), e.validTime)))
      else None
    else
      Some("derived:" + SnapshotKeyed(h, DerivedTerm(e.relation, e.validTime, e.polarity, e.content, e.derivations,
                                                     e.derivedNodes), e.derivedSnapshots))
  }

  function EdgeId(h: Hashing, base: string, from: string, to: string): string {
    "edge:" + h.key(EdgeTerm(base, from, to))
  }

  // ----- the normal form of the members of one value -----

  /** Which key each id stands for; a later node with the same id wins. */
  function NodeIds(h: Hashing, x: Value, k: nat): (ids: map<string, string>)
    requires h.Valid() && k <= |x.nodes| && forall i | 0 <= i < |x.nodes| :: x.nodes[i].id in x.nodeOrigins
  {
    if k == 0 then map[] else NodeIds(h, x, k - 1)[x.nodes[k - 1].id := NodeKey(h, x, x.nodes[k - 1])]
  }

  function AllIds(h: Hashing, x: Value): map<string, string>
    requires h.Valid() && NodesKeyed(x)
  {
    NodeIds(h, x, |x.nodes|)
  }

  predicate NodesKeyed(x: Value) {
    forall i | 0 <= i < |x.nodes| :: x.nodes[i].id in x.nodeOrigins
  }

  predicate EdgeKeyed(h: Hashing, x: Value, e: Edge)
    requires h.Valid() && NodesKeyed(x)
  {
    EdgeKey(h, x, e).Some? && e.from in AllIds(h, x) && e.to in AllIds(h, x)
  }

  predicate EdgesKeyed(h: Hashing, x: Value)
    requires h.Valid()
  {
    NodesKeyed(x) && forall i | 0 <= i < |x.edges| :: EdgeKeyed(h, x, x.edges[i])
  }

  /** The id an edge gets: its content key together with its endpoints. */
  function NewEdgeId(h: Hashing, x: Value, e: Edge): string
    requires h.Valid() && NodesKeyed(x) && EdgeKeyed(h, x, e)
  {
    EdgeId(h, EdgeKey(h, x, e).value, AllIds(h, x)[e.from], AllIds(h, x)[e.to])
  }

  function EdgeIds(h: Hashing, x: Value, k: nat): map<string, string>
    requires h.Valid() && EdgesKeyed(h, x) && k <= |x.edges|
  {
    if k == 0 then map[] else EdgeIds(h, x, k - 1)[x.edges[k - 1].id := NewEdgeId(h, x, x.edges[k - 1])]
  }

  function AllEdgeIds(h: Hashing, x: Value): map<string, string>
    requires h.Valid() && EdgesKeyed(h, x)
  {
    EdgeIds(h, x, |x.edges|)
  }

  predicate HostKnown(h: Hashing, x: Value, host: Host)
    requires h.Valid() && EdgesKeyed(h, x)
  {
    match host
    case OnNode(id) => id in AllIds(h, x)
    case OnEdge(id) => id in AllEdgeIds(h, x)
    case OnAssertion(id) => id in AllEdgeIds(h, x)
    case _ => true
  }

  /** Every member has a key: nothing in the value stops a union. */
  predicate Keyed(h: Hashing, x: Value)
    requires h.Valid()
  {
    EdgesKeyed(h, x) && forall i | 0 <= i < |x.attachments| :: HostKnown(h, x, x.attachments[i].host)
  }

  function NewHost(h: Hashing, x: Value, host: Host): Host
    requires h.Valid() && EdgesKeyed(h, x) && HostKnown(h, x, host)
  {
    match host
    case OnNode(id) => OnNode(AllIds(h, x)[id])
    case OnEdge(id) => OnEdge(AllEdgeIds(h, x)[id])
    case OnAssertion(id) => OnAssertion(AllEdgeIds(h, x)[id])
    case _ => host
  }

  /** A type name after the union: rewritten when `remap` says the schema changes. */
  function NewType(h: Hashing, x: Value, remap: bool, id: Option<string>): Option<string> {
    if remap then TypeName(h, x.schema, id) else id
  }

  function NewNode(h: Hashing, p: string, x: Value, remap: bool, n: Node): Node
    requires h.Valid() && n.id in x.nodeOrigins
  {
    n.(id := NodeKey(h, x, n), readers := [p], typeId := NewType(h, x, remap, n.typeId))
  }

  function NewEdge(h: Hashing, p: string, x: Value, remap: bool, e: Edge): Edge
    requires h.Valid() && NodesKeyed(x) && EdgeKeyed(h, x, e)
  {
    e.(id := NewEdgeId(h, x, e), from := AllIds(h, x)[e.from], to := AllIds(h, x)[e.to],
       readers := [p], typeId := NewType(h, x, remap, e.typeId))
  }

  function OriginsOf(origins: map<string, seq<RecordRef>>, id: string): seq<RecordRef> {
    if id in origins then origins[id] else []
  }

  function NewAttachment(h: Hashing, p: string, x: Value, a: Attachment): Attachment
    requires h.Valid() && EdgesKeyed(h, x) && HostKnown(h, x, a.host)
  {
    var bare := a.(id := "", host := NewHost(h, x, a.host), readers := [p]);
    bare.(id := "attachment:" + h.key(AttachmentTerm(bare, OriginsOf(x.attachmentOrigins, a.id))))
  }

  // ----- merging members by key -----

  /** A member in normal form with the origins it brings. */
  datatype Entry<V> = Entry(key: string, value: V, origins: seq<RecordRef>)

  /** The first member with each key stays. */
  function Extend<V>(m: map<string, Entry<V>>, es: seq<Entry<V>>): map<string, Entry<V>> {
    if es == [] then m else
      var before, e := Extend(m, es[..|es| - 1]), es[|es| - 1];
      if e.key in before then before else before[e.key := e]
  }

  function Merged<V>(es: seq<Entry<V>>): map<string, Entry<V>> {
    Extend(map[], es)
  }

  /** Every member equals the one its key already has. */
  predicate Joins<V(==)>(m: map<string, Entry<V>>, es: seq<Entry<V>>) {
    es == [] ||
      var before, e := Extend(m, es[..|es| - 1]), es[|es| - 1];
      Joins(m, es[..|es| - 1]) && (e.key in before ==> before[e.key].value == e.value)
  }

  /** No two members with one key differ. */
  predicate Agree<V(==)>(es: seq<Entry<V>>) {
    forall i, j | 0 <= i < |es| && 0 <= j < |es| && es[i].key == es[j].key :: es[i].value == es[j].value
  }

  function Members<V>(es: seq<Entry<V>>): set<V> {
    set i | 0 <= i < |es| :: es[i].value
  }

  /** The members by ascending key. */
  function InOrder<V>(m: map<string, Entry<V>>): (q: seq<V>)
    ensures |q| == |SortStrings(m.Keys)|
  {
    var keys := SortStrings(m.Keys);
    assert forall i | 0 <= i < |keys| :: keys[i] in Elements(keys);
    seq(|keys|, i requires 0 <= i < |keys| => m[keys[i]].value)
  }

  function Origins<V>(m: map<string, Entry<V>>): map<string, seq<RecordRef>> {
    map k | k in m :: m[k].origins
  }

  /** Whether a map holds entries under their own keys, each one of the members. */
  ghost predicate From<V>(m: map<string, Entry<V>>, es: seq<Entry<V>>) {
    && (forall k | k in m :: m[k] in es && m[k].key == k)
    && (forall i | 0 <= i < |es| :: es[i].key in m)
  }

  lemma {:induction false} MergedFrom<V>(es: seq<Entry<V>>)
    ensures From(Merged(es), es)
  {
    if es != [] {
      var rest, e := es[..|es| - 1], es[|es| - 1];
      MergedFrom(rest);
      hide Extend;
      assert es == rest + [e];
      ExtendStep(map[], es);
      FromStep(Merged(rest), rest, e);
    }
  }

  lemma ExtendStep<V>(m: map<string, Entry<V>>, es: seq<Entry<V>>)
    requires es != []
    ensures
      var before, e := Extend(m, es[..|es| - 1]), es[|es| - 1];
      Extend(m, es) == if e.key in before then before else before[e.key := e]
  {
  }

  lemma FromStep<V>(m: map<string, Entry<V>>, rest: seq<Entry<V>>, e: Entry<V>)
    requires From(m, rest)
    ensures From(if e.key in m then m else m[e.key := e], rest + [e])
  {
    var es := rest + [e];
    forall i | 0 <= i < |es| ensures es[i].key in (if e.key in m then m else m[e.key := e]) {
      if i < |rest| { assert es[i] == rest[i]; }
    }
  }

  lemma {:induction false} ExtendConcat<V>(m: map<string, Entry<V>>, p: seq<Entry<V>>, q: seq<Entry<V>>)
    ensures Extend(m, p + q) == Extend(Extend(m, p), q)
  {
    if q == [] {
      assert p + q == p;
    } else {
      ExtendConcat(m, p, q[..|q| - 1]);
      assert (p + q)[..|p + q| - 1] == p + q[..|q| - 1];
    }
  }

  lemma {:induction false} JoinsConcat<V>(m: map<string, Entry<V>>, p: seq<Entry<V>>, q: seq<Entry<V>>)
    ensures Joins(m, p + q) <==> Joins(m, p) && Joins(Extend(m, p), q)
  {
    if q == [] {
      assert p + q == p;
    } else {
      JoinsConcat(m, p, q[..|q| - 1]);
      ExtendConcat(m, p, q[..|q| - 1]);
      assert (p + q)[..|p + q| - 1] == p + q[..|q| - 1];
    }
  }

  /** Comparing with the first member of each key finds every disagreement. */
  lemma {:induction false} JoinsIsAgree<V>(es: seq<Entry<V>>)
    ensures Joins(map[], es) <==> Agree(es)
  {
    if es != [] {
      var rest, e := es[..|es| - 1], es[|es| - 1];
      JoinsIsAgree(rest);
      MergedFrom(rest);
      AgreeStep(rest, e, Merged(rest));
      assert es == rest + [e];
    }
  }

  lemma AgreeStep<V>(rest: seq<Entry<V>>, e: Entry<V>, m: map<string, Entry<V>>)
    requires From(m, rest)
    ensures Agree(rest + [e]) <==> Agree(rest) && (e.key in m ==> m[e.key].value == e.value)
  {
    var es := rest + [e];
    if Agree(es) {
      forall i, j | 0 <= i < |rest| && 0 <= j < |rest| && rest[i].key == rest[j].key
        ensures rest[i].value == rest[j].value
      {
        assert es[i] == rest[i] && es[j] == rest[j];
      }
      if e.key in m {
        var i :| 0 <= i < |rest| && rest[i] == m[e.key];
        assert es[i] == rest[i] && es[|rest|] == e;
      }
    }
    if Agree(rest) && (e.key in m ==> m[e.key].value == e.value) {
      forall i | 0 <= i < |rest| && rest[i].key == e.key ensures rest[i].value == e.value {
        var j :| 0 <= j < |rest| && rest[j] == m[e.key];
      }
      forall i, j | 0 <= i < |es| && 0 <= j < |es| && es[i].key == es[j].key ensures es[i].value == es[j].value {
        assert (i < |rest| ==> es[i] == rest[i]) && (j < |rest| ==> es[j] == rest[j]);
      }
    }
  }

  lemma {:induction false} ExtendGrows<V>(m: map<string, Entry<V>>, es: seq<Entry<V>>)
    ensures |m| <= |Extend(m, es)|
  {
    if es != [] { ExtendGrows(m, es[..|es| - 1]); }
  }

  lemma OrderedInMembers<V>(m: map<string, Entry<V>>, es: seq<Entry<V>>)
    requires From(m, es)
    ensures Elements(InOrder(m)) <= Members(es)
  {
    hide Ascending;
    var keys := SortStrings(m.Keys);
    forall v | v in Elements(InOrder(m)) ensures v in Members(es) {
      var i :| 0 <= i < |keys| && InOrder(m)[i] == v;
      assert keys[i] in Elements(keys);
      var j :| 0 <= j < |es| && es[j] == m[keys[i]];
    }
  }

  lemma InOrderAt<V>(m: map<string, Entry<V>>, k: string)
    requires k in m
    ensures m[k].value in Elements(InOrder(m))
  {
    hide Ascending;
    var keys := SortStrings(m.Keys);
    assert k in Elements(keys);
    var i :| 0 <= i < |keys| && keys[i] == k;
    assert InOrder(m)[i] == m[k].value;
  }

  /** When no two disagree, the ordered list holds exactly the members. */
  lemma InOrderMembers<V>(m: map<string, Entry<V>>, es: seq<Entry<V>>)
    requires From(m, es) && Agree(es)
    ensures Elements(InOrder(m)) == Members(es)
  {
    OrderedInMembers(m, es);
    hide InOrder;
    forall v | v in Members(es) ensures v in Elements(InOrder(m)) {
      var j :| 0 <= j < |es| && es[j].value == v;
      InOrderAt(m, es[j].key);
      var l :| 0 <= l < |es| && es[l] == m[es[j].key];
      assert es[l].key == es[j].key;
    }
  }

  // ----- entries of one value -----

  function NodeEntries(h: Hashing, p: string, x: Value, remap: bool): seq<Entry<Node>>
    requires h.Valid() && NodesKeyed(x)
  {
    seq(|x.nodes|, i requires 0 <= i < |x.nodes| => NodeEntry(h, p, x, remap, x.nodes[i]))
  }

  function NodeEntry(h: Hashing, p: string, x: Value, remap: bool, n: Node): Entry<Node>
    requires h.Valid() && n.id in x.nodeOrigins
  {
    Entry(NodeKey(h, x, n), NewNode(h, p, x, remap, n), x.nodeOrigins[n.id])
  }

  function EdgeEntry(h: Hashing, p: string, x: Value, remap: bool, e: Edge): Entry<Edge>
    requires h.Valid() && NodesKeyed(x) && EdgeKeyed(h, x, e)
  {
    Entry(NewEdgeId(h, x, e), NewEdge(h, p, x, remap, e), OriginsOf(x.edgeOrigins, e.id))
  }

  function EdgeEntries(h: Hashing, p: string, x: Value, remap: bool): seq<Entry<Edge>>
    requires h.Valid() && EdgesKeyed(h, x)
  {
    seq(|x.edges|, i requires 0 <= i < |x.edges| => EdgeEntry(h, p, x, remap, x.edges[i]))
  }

  function AttachmentEntry(h: Hashing, p: string, x: Value, a: Attachment): Entry<Attachment>
    requires h.Valid() && EdgesKeyed(h, x) && HostKnown(h, x, a.host)
  {
    var b := NewAttachment(h, p, x, a);
    Entry(b.id, b, OriginsOf(x.attachmentOrigins, a.id))
  }

  function AttachmentEntries(h: Hashing, p: string, x: Value): seq<Entry<Attachment>>
    requires h.Valid() && Keyed(h, x)
  {
    seq(|x.attachments|, i requires 0 <= i < |x.attachments| => AttachmentEntry(h, p, x, x.attachments[i]))
  }
}
