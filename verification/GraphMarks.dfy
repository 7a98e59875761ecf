/** The attachments that carry the labels of a `diff`. Every label becomes one attachment of the
    union, made under the object limit; an edge label first has to find its edge there. The labels
    can be read back from the attachments, and what the union had before stays as it was. This file
    holds the loops that make them and what they leave in the value. */
module GraphMarks {
  import opened Orders
  import opened Restrictions
  import opened GraphValues
  import opened GraphUnion
  import opened GraphRenewal

  datatype Label = Removed | Added

  predicate HasEdge(v: Value, id: string) {
    exists i | 0 <= i < |v.edges| :: v.edges[i].id == id
  }

  /** Every labelled edge is in the union: the search for it cannot fail. */
  predicate AllFound(v: Value, labels: map<string, Label>) {
    forall id | id in labels :: HasEdge(v, id)
  }

  // ----- the attachments -----

  const MARK_PREFIX := "weave:diff:"

  function Status(mark: Label): string {
    if mark == Removed then "removed" else "added"
  }

  function MarkId(h: Hashing, id: string, mark: Label): string {
    MARK_PREFIX + h.key(MarkTerm(id, Status(mark)))
  }

  /** The attachment of one label. */
  function MarkOf(h: Hashing, p: string, id: string, mark: Label, host: Host): Attachment {
    Attachment(MarkId(h, id, mark), host, Obj(map["key" := Str("weave:diff:membership"), "value" := Str(Status(mark))]),
               [p])
  }

  function EdgeMarks(h: Hashing, p: string, labels: map<string, Label>, keys: seq<string>): seq<Attachment>
    requires forall i | 0 <= i < |keys| :: keys[i] in labels
  {
    seq(|keys|, i requires 0 <= i < |keys| => MarkOf(h, p, keys[i], labels[keys[i]], OnEdge(keys[i])))
  }

  function NodeMarks(h: Hashing, p: string, labels: map<string, Label>, keys: seq<string>): seq<Attachment>
    requires forall i | 0 <= i < |keys| :: keys[i] in labels
  {
    seq(|keys|, i requires 0 <= i < |keys| => MarkOf(h, p, keys[i], labels[keys[i]], OnNode(keys[i])))
  }

  /** Edge labels bring the origins of their edges. */
  function MarkOrigins(h: Hashing, u: Value, labels: map<string, Label>, keys: seq<string>): map<string, seq<RecordRef>>
    requires forall i | 0 <= i < |keys| :: keys[i] in labels
  {
    if keys == [] then u.attachmentOrigins else
      var id := keys[|keys| - 1];
      MarkOrigins(h, u, labels, keys[..|keys| - 1])[MarkId(h, id, labels[id]) := OriginsOf(u.edgeOrigins, id)]
  }

  lemma KeysListed(labels: map<string, Label>)
    ensures |SortStrings(labels.Keys)| == |labels|
    ensures forall i | 0 <= i < |SortStrings(labels.Keys)| :: SortStrings(labels.Keys)[i] in labels
    ensures forall id | id in labels :: id in SortStrings(labels.Keys)
  {
    var keys := SortStrings(labels.Keys);
    assert |labels.Keys| == |labels|;
    forall i | 0 <= i < |keys| ensures keys[i] in labels { assert keys[i] in Elements(keys); }
    forall id | id in labels ensures id in keys { assert id in Elements(keys); }
  }

  /** The value with an attachment for every edge label, by ascending id. */
  function EdgesMarked(h: Hashing, p: string, u: Value, labels: map<string, Label>): Value {
    KeysListed(labels);
    var keys := SortStrings(labels.Keys);
    u.(attachments := u.attachments + EdgeMarks(h, p, labels, keys), attachmentOrigins := MarkOrigins(h, u, labels, keys))
  }

  function NodesMarked(h: Hashing, p: string, u: Value, labels: map<string, Label>): Value {
    KeysListed(labels);
    u.(attachments := u.attachments + NodeMarks(h, p, labels, SortStrings(labels.Keys)))
  }

  /** What `diff` returns for a union and its labels. */
  function Shown(h: Hashing, p: string, u: Value, edgeLabels: map<string, Label>, nodeLabels: map<string, Label>): Value {
    NodesMarked(h, p, EdgesMarked(h, p, u, edgeLabels), nodeLabels)
  }

  lemma ShownCount(h: Hashing, p: string, u: Value, edgeLabels: map<string, Label>, nodeLabels: map<string, Label>)
    ensures Count(Shown(h, p, u, edgeLabels, nodeLabels)) == Count(u) + |edgeLabels| + |nodeLabels|
  {
    KeysListed(edgeLabels);
    KeysListed(nodeLabels);
  }

  /** Marking touches no node, no edge and no schema. */
  lemma ShownKeeps(h: Hashing, p: string, u: Value, edgeLabels: map<string, Label>, nodeLabels: map<string, Label>)
    ensures
      var v := Shown(h, p, u, edgeLabels, nodeLabels);
      && v.nodes == u.nodes && v.edges == u.edges && v.schema == u.schema && u.attachments <= v.attachments
      && (BoundedInfluence(v) <==> BoundedInfluence(u)) && (WellTyped(v) <==> WellTyped(u))
  {
    hide SortStrings, MarkOrigins;
  }

  // ----- the loops -----

  lemma {:induction false} FoundFew(edges: seq<Edge>, ids: set<string>)
    requires forall id | id in ids :: exists i | 0 <= i < |edges| :: edges[i].id == id
    ensures |ids| <= |edges|
  {
    if edges == [] {
      if id :| id in ids { assert false; }
      assert ids == {};
    } else {
      var last, rest := edges[|edges| - 1].id, edges[..|edges| - 1];
      forall id | id in ids - {last} ensures exists i | 0 <= i < |rest| :: rest[i].id == id {
        var i :| 0 <= i < |edges| && edges[i].id == id;
        assert rest[i].id == id;
      }
      FoundFew(rest, ids - {last});
      if last in ids { assert |ids - {last}| == |ids| - 1; } else { assert ids - {last} == ids; }
    }
  }

  /** Edges found one after the other leave room for the next attachment: a value with so many edges
      and the nodes they end at would not have passed the object limit. */
  lemma RoomForFound(u: Value, keys: seq<string>, k: nat, objects: nat)
    requires Ascending(StringLess, keys) && k <= |keys| && Count(u) <= objects && 1 <= objects && WellTyped(u)
    requires forall i | 0 <= i < k :: HasEdge(u, keys[i])
    ensures k + 1 <= objects
  {
    var done := keys[..k];
    AscendingPrefix(keys, k);
    forall id | id in Elements(done) ensures exists i | 0 <= i < |u.edges| :: u.edges[i].id == id {
      var i :| 0 <= i < k && done[i] == id;
      assert HasEdge(u, keys[i]);
    }
    FoundFew(u.edges, Elements(done));
    if k > 0 {
      assert HasEdge(u, keys[0]);
      assert |u.edges| > 0 && HasNode(u, u.edges[0].from);
    }
  }

  lemma AscendingPrefix(keys: seq<string>, k: nat)
    requires Ascending(StringLess, keys) && k <= |keys|
    ensures |Elements(keys[..k])| == k
  {
    hide StringLess;
    assert Ascending(StringLess, keys[..k]);
    StringOrder();
    AscendingDistinct(StringLess, keys[..k]);
  }

  lemma EdgeMarksStep(h: Hashing, p: string, u: Value, labels: map<string, Label>, keys: seq<string>, k: nat)
    requires k < |keys| && forall i | 0 <= i < |keys| :: keys[i] in labels
    ensures
      var id := keys[k];
      && EdgeMarks(h, p, labels, keys[..k + 1]) == EdgeMarks(h, p, labels, keys[..k]) + [MarkOf(h, p, id, labels[id], OnEdge(id))]
      && MarkOrigins(h, u, labels, keys[..k + 1])
         == MarkOrigins(h, u, labels, keys[..k])[MarkId(h, id, labels[id]) := OriginsOf(u.edgeOrigins, id)]
  {
    hide MarkOf, MarkId;
    assert keys[..k + 1][..k] == keys[..k];
  }

  lemma NodeMarksStep(h: Hashing, p: string, labels: map<string, Label>, keys: seq<string>, k: nat)
    requires k < |keys| && forall i | 0 <= i < |keys| :: keys[i] in labels
    ensures
      var id := keys[k];
      NodeMarks(h, p, labels, keys[..k + 1]) == NodeMarks(h, p, labels, keys[..k]) + [MarkOf(h, p, id, labels[id], OnNode(id))]
  {
    hide MarkOf;
    assert keys[..k + 1][..k] == keys[..k];
  }

  lemma NothingMarked(h: Hashing, p: string, u: Value, labels: map<string, Label>)
    ensures EdgeMarks(h, p, labels, []) == [] && NodeMarks(h, p, labels, []) == []
    ensures MarkOrigins(h, u, labels, []) == u.attachmentOrigins
  {
  }

  lemma KeysAscend(labels: map<string, Label>)
    ensures Ascending(StringLess, SortStrings(labels.Keys))
  {
  }

  /** An attachment for every edge label; the room never runs out before a search fails. */
  method StampEdges(h: Hashing, p: string, u: Value, labels: map<string, Label>, objects: nat)
      returns (found: bool, v: Value, left: nat)
    requires Count(u) <= objects && 1 <= objects && WellTyped(u)
    ensures found <==> AllFound(u, labels)
    ensures found ==> v == EdgesMarked(h, p, u, labels) && left + |labels| + 1 == objects
  {
    hide HasEdge, WellTyped, MarkOf, MarkId, StringLess, Ascending, SortStrings, EdgeMarks, MarkOrigins, Count;
    KeysListed(labels);
    KeysAscend(labels);
    NothingMarked(h, p, u, labels);
    var keys := SortStrings(labels.Keys);
    var marks: seq<Attachment>, origins := [], u.attachmentOrigins;
    v, left := u, objects - 1;
    assert keys[..0] == [];
    for k := 0 to |keys|
      invariant marks == EdgeMarks(h, p, labels, keys[..k]) && origins == MarkOrigins(h, u, labels, keys[..k])
      invariant left + k + 1 == objects && forall i | 0 <= i < k :: HasEdge(u, keys[i])
    {
      var id := keys[k];
      if !HasEdge(u, id) { return false, v, left; }
      RoomForFound(u, keys, k + 1, objects);
      EdgeMarksStep(h, p, u, labels, keys, k);
      left := left - 1;
      marks := marks + [MarkOf(h, p, id, labels[id], OnEdge(id))];
      origins := origins[MarkId(h, id, labels[id]) := OriginsOf(u.edgeOrigins, id)];
    }
    assert keys[..|keys|] == keys;
    v := u.(attachments := u.attachments + marks, attachmentOrigins := origins);
    found := true;
  }

  /** An attachment for every node label, as long as there is room. */
  method StampNodes(h: Hashing, p: string, u: Value, labels: map<string, Label>, room: nat)
      returns (ok: bool, v: Value)
    ensures ok <==> |labels| <= room
    ensures ok ==> v == NodesMarked(h, p, u, labels)
  {
    hide MarkOf, StringLess, Ascending, SortStrings, NodeMarks;
    KeysListed(labels);
    NothingMarked(h, p, u, labels);
    var keys := SortStrings(labels.Keys);
    var marks: seq<Attachment>, left: nat := [], room;
    v := u;
    assert keys[..0] == [];
    for k := 0 to |keys|
      invariant marks == NodeMarks(h, p, labels, keys[..k]) && left + k == room
    {
      var id := keys[k];
      if left == 0 { return false, v; }
      left := left - 1;
      NodeMarksStep(h, p, labels, keys, k);
      marks := marks + [MarkOf(h, p, id, labels[id], OnNode(id))];
    }
    assert keys[..|keys|] == keys;
    v := u.(attachments := u.attachments + marks);
    ok := true;
  }

  // ----- reading the labels back -----

  predicate Carries(v: Value, id: string, host: Host) {
    exists t :: t in v.attachments && t.id == id && t.host == host
  }

  lemma MarkIdDetermines(h: Hashing, i: string, m: Label, j: string, n: Label)
    requires h.Valid() && MarkId(h, i, m) == MarkId(h, j, n)
    ensures i == j && m == n
  {
    Drop(MARK_PREFIX, h.key(MarkTerm(i, Status(m))), h.key(MarkTerm(j, Status(n))));
    SameTerm(h, MarkTerm(i, Status(m)), MarkTerm(j, Status(n)));
    assert "removed"[0] != "added"[0];
  }

  lemma NotMark(h: Hashing, id: string, mark: Label, t: Attachment)
    requires t.id != "" && t.id[0] == 'a'
    ensures t.id != MarkId(h, id, mark)
  {
    assert MARK_PREFIX[0] == 'w';
  }

  lemma EdgeMarkSource(h: Hashing, p: string, labels: map<string, Label>, keys: seq<string>, t: Attachment)
      returns (id: string)
    requires (forall i | 0 <= i < |keys| :: keys[i] in labels) && t in EdgeMarks(h, p, labels, keys)
    ensures id in labels && t.id == MarkId(h, id, labels[id]) && t.host == OnEdge(id)
  {
    hide MarkId;
    var em := EdgeMarks(h, p, labels, keys);
    var i :| 0 <= i < |em| && em[i] == t;
    id := keys[i];
  }

  lemma NodeMarkSource(h: Hashing, p: string, labels: map<string, Label>, keys: seq<string>, t: Attachment)
      returns (id: string)
    requires (forall i | 0 <= i < |keys| :: keys[i] in labels) && t in NodeMarks(h, p, labels, keys)
    ensures id in labels && t.id == MarkId(h, id, labels[id]) && t.host == OnNode(id)
  {
    hide MarkId;
    var nm := NodeMarks(h, p, labels, keys);
    var i :| 0 <= i < |nm| && nm[i] == t;
    id := keys[i];
  }

  /** Where an attachment of a marked value comes from, if it has the id of a label. */
  lemma MarkSource(h: Hashing, p: string, u: Value, edgeLabels: map<string, Label>, nodeLabels: map<string, Label>,
                   id: string, mark: Label, t: Attachment)
    requires h.Valid() && (forall t | t in u.attachments :: t.id != "" && t.id[0] == 'a')
    requires t in Shown(h, p, u, edgeLabels, nodeLabels).attachments && t.id == MarkId(h, id, mark)
    ensures (t.host == OnEdge(id) && id in edgeLabels && edgeLabels[id] == mark)
         || (t.host == OnNode(id) && id in nodeLabels && nodeLabels[id] == mark)
  {
    KeysListed(edgeLabels);
    KeysListed(nodeLabels);
    var es, ns := SortStrings(edgeLabels.Keys), SortStrings(nodeLabels.Keys);
    var em, nm := EdgeMarks(h, p, edgeLabels, es), NodeMarks(h, p, nodeLabels, ns);
    assert Shown(h, p, u, edgeLabels, nodeLabels).attachments == (u.attachments + em) + nm;
    hide MarkId, SortStrings, Shown, EdgeMarks, NodeMarks;
    if t in u.attachments {
      NotMark(h, id, mark, t);
    } else if t in em {
      var k := EdgeMarkSource(h, p, edgeLabels, es, t);
      MarkIdDetermines(h, id, mark, k, edgeLabels[k]);
    } else {
      var k := NodeMarkSource(h, p, nodeLabels, ns, t);
      MarkIdDetermines(h, id, mark, k, nodeLabels[k]);
    }
  }

  lemma EdgeMarkShown(h: Hashing, p: string, u: Value, edgeLabels: map<string, Label>, nodeLabels: map<string, Label>,
                      id: string)
    requires id in edgeLabels
    ensures Carries(Shown(h, p, u, edgeLabels, nodeLabels), MarkId(h, id, edgeLabels[id]), OnEdge(id))
  {
    KeysListed(edgeLabels);
    var es := SortStrings(edgeLabels.Keys);
    var em := EdgeMarks(h, p, edgeLabels, es);
    hide MarkId, SortStrings, NodeMarks;
    var i :| 0 <= i < |es| && es[i] == id;
    assert em[i] in em && em[i] == MarkOf(h, p, id, edgeLabels[id], OnEdge(id));
  }

  lemma NodeMarkShown(h: Hashing, p: string, u: Value, edgeLabels: map<string, Label>, nodeLabels: map<string, Label>,
                      id: string)
    requires id in nodeLabels
    ensures Carries(Shown(h, p, u, edgeLabels, nodeLabels), MarkId(h, id, nodeLabels[id]), OnNode(id))
  {
    KeysListed(nodeLabels);
    var ns := SortStrings(nodeLabels.Keys);
    var nm := NodeMarks(h, p, nodeLabels, ns);
    hide MarkId, SortStrings, EdgesMarked;
    var i :| 0 <= i < |ns| && ns[i] == id;
    assert nm[i] in nm && nm[i] == MarkOf(h, p, id, nodeLabels[id], OnNode(id));
  }

  /** An attachment with the id of a label, on that edge, is there exactly when the edge has the
      label; and the same for nodes. So no label is lost, and none is taken from anything else. */
  lemma MarksReadBack(h: Hashing, p: string, u: Value, edgeLabels: map<string, Label>, nodeLabels: map<string, Label>,
                      id: string, mark: Label)
    requires h.Valid() && forall t | t in u.attachments :: t.id != "" && t.id[0] == 'a'
    ensures
      var v := Shown(h, p, u, edgeLabels, nodeLabels);
      && (Carries(v, MarkId(h, id, mark), OnEdge(id)) <==> id in edgeLabels && edgeLabels[id] == mark)
      && (Carries(v, MarkId(h, id, mark), OnNode(id)) <==> id in nodeLabels && nodeLabels[id] == mark)
  {
    hide MarkId, Shown;
    var v := Shown(h, p, u, edgeLabels, nodeLabels);
    forall t | t in v.attachments && t.id == MarkId(h, id, mark)
      ensures t.host == OnEdge(id) ==> id in edgeLabels && edgeLabels[id] == mark
      ensures t.host == OnNode(id) ==> id in nodeLabels && nodeLabels[id] == mark
    {
      MarkSource(h, p, u, edgeLabels, nodeLabels, id, mark, t);
    }
    if id in edgeLabels { EdgeMarkShown(h, p, u, edgeLabels, nodeLabels, id); }
    if id in nodeLabels { NodeMarkShown(h, p, u, edgeLabels, nodeLabels, id); }
  }

  // ----- what the attachments say -----

  /** The attachment says of a node or an edge, in so many words, what became of it. */
  predicate Says(h: Hashing, p: string, t: Attachment, key: string, onEdge: bool, text: string) {
    && t.id == "weave:diff:" + h.key(MarkTerm(key, text))
    && t.host == (if onEdge then OnEdge(key) else OnNode(key)) && t.readers == [p]
    && t.rest == Obj(map["key" := Str("weave:diff:membership"), "value" := Str(text)])
  }

  /** Some attachment of the list says it. */
  predicate Said(h: Hashing, p: string, ts: seq<Attachment>, key: string, onEdge: bool, text: string) {
    exists t :: t in ts && Says(h, p, t, key, onEdge, text)
  }

  /** The attachment says it of one of these keys. */
  predicate Saying(h: Hashing, p: string, t: Attachment, keys: set<string>, onEdge: bool, text: string) {
    exists k :: k in keys && Says(h, p, t, k, onEdge, text)
  }

  lemma MarkSays(h: Hashing, p: string, key: string, mark: Label, onEdge: bool)
    ensures Says(h, p, MarkOf(h, p, key, mark, if onEdge then OnEdge(key) else OnNode(key)), key, onEdge, Status(mark))
  {
  }

  /** A list that says exactly these labels. */
  ghost predicate TellsAll(h: Hashing, p: string, ts: seq<Attachment>, labels: map<string, Label>, onEdge: bool) {
    && |ts| == |labels|
    && (forall k | k in labels :: Said(h, p, ts, k, onEdge, Status(labels[k])))
    && (forall t | t in ts :: exists k :: k in labels && Says(h, p, t, k, onEdge, Status(labels[k])))
  }

  lemma MarksTell(h: Hashing, p: string, labels: map<string, Label>, keys: seq<string>, ts: seq<Attachment>, onEdge: bool)
    requires (forall i | 0 <= i < |keys| :: keys[i] in labels) && (forall k | k in labels :: k in keys)
    requires |ts| == |keys| == |labels|
    requires forall i | 0 <= i < |keys| :: Says(h, p, ts[i], keys[i], onEdge, Status(labels[keys[i]]))
    ensures TellsAll(h, p, ts, labels, onEdge)
  {
    hide *;
    forall k | k in labels ensures Said(h, p, ts, k, onEdge, Status(labels[k])) {
      var i :| 0 <= i < |keys| && keys[i] == k;
      SaidAt(h, p, ts, i, k, onEdge, Status(labels[k]));
    }
    forall t | t in ts ensures exists k :: k in labels && Says(h, p, t, k, onEdge, Status(labels[k])) {
      var i :| 0 <= i < |ts| && ts[i] == t;
      assert keys[i] in labels;
    }
    TellsParts(h, p, ts, labels, onEdge);
  }

  lemma SaidAt(h: Hashing, p: string, ts: seq<Attachment>, i: nat, key: string, onEdge: bool, text: string)
    requires i < |ts| && Says(h, p, ts[i], key, onEdge, text)
    ensures Said(h, p, ts, key, onEdge, text)
  {
    hide Says;
    assert ts[i] in ts;
  }

  lemma TellsParts(h: Hashing, p: string, ts: seq<Attachment>, labels: map<string, Label>, onEdge: bool)
    ensures TellsAll(h, p, ts, labels, onEdge) <==>
            && |ts| == |labels|
            && (forall k | k in labels :: Said(h, p, ts, k, onEdge, Status(labels[k])))
            && (forall t | t in ts :: exists k :: k in labels && Says(h, p, t, k, onEdge, Status(labels[k])))
  {
    hide Says, Said, Status;
  }

  /** Every label is told by an attachment, and every attachment that was not there tells one. */
  lemma ShownSays(h: Hashing, p: string, u: Value, edgeLabels: map<string, Label>, nodeLabels: map<string, Label>)
      returns (em: seq<Attachment>, nm: seq<Attachment>)
    ensures Shown(h, p, u, edgeLabels, nodeLabels).attachments == (u.attachments + em) + nm
    ensures TellsAll(h, p, em, edgeLabels, true) && TellsAll(h, p, nm, nodeLabels, false)
  {
    KeysListed(edgeLabels);
    KeysListed(nodeLabels);
    var es, ns := SortStrings(edgeLabels.Keys), SortStrings(nodeLabels.Keys);
    em, nm := EdgeMarks(h, p, edgeLabels, es), NodeMarks(h, p, nodeLabels, ns);
    hide SortStrings, MarkOf, TellsAll, MarkOrigins, Says;
    forall i | 0 <= i < |es| ensures Says(h, p, em[i], es[i], true, Status(edgeLabels[es[i]])) {
      MarkSays(h, p, es[i], edgeLabels[es[i]], true);
    }
    forall i | 0 <= i < |ns| ensures Says(h, p, nm[i], ns[i], false, Status(nodeLabels[ns[i]])) {
      MarkSays(h, p, ns[i], nodeLabels[ns[i]], false);
    }
    MarksTell(h, p, edgeLabels, es, em, true);
    MarksTell(h, p, nodeLabels, ns, nm, false);
  }

  /** A list that says exactly some labels, by what it says. */
  lemma TellingSides(h: Hashing, p: string, ts: seq<Attachment>, labels: map<string, Label>, removed: set<string>,
                     added: set<string>, onEdge: bool)
    requires TellsAll(h, p, ts, labels, onEdge) && labels.Keys == removed + added && removed !! added
    requires forall id | id in labels :: labels[id] == Removed <==> id in removed
    ensures |ts| == |removed| + |added|
    ensures forall k | k in removed :: Said(h, p, ts, k, onEdge, "removed")
    ensures forall k | k in added :: Said(h, p, ts, k, onEdge, "added")
    ensures forall t | t in ts :: Saying(h, p, t, removed, onEdge, "removed") || Saying(h, p, t, added, onEdge, "added")
  {
    TellsParts(h, p, ts, labels, onEdge);
    LabelTexts();
    hide *;
    LabelCount(labels, removed, added);
    forall k | k in removed ensures Said(h, p, ts, k, onEdge, "removed") { assert labels[k] == Removed; }
    forall k | k in added ensures Said(h, p, ts, k, onEdge, "added") { assert labels[k] == Added; }
    forall t | t in ts ensures Saying(h, p, t, removed, onEdge, "removed") || Saying(h, p, t, added, onEdge, "added") {
      TellingSide(h, p, t, labels, removed, added, onEdge);
    }
  }

  lemma LabelTexts()
    ensures Status(Removed) == "removed" && Status(Added) == "added"
  {
  }

  lemma LabelCount(labels: map<string, Label>, removed: set<string>, added: set<string>)
    requires labels.Keys == removed + added && removed !! added
    ensures |labels| == |removed| + |added|
  {
    assert |labels| == |labels.Keys|;
  }

  lemma TellingSide(h: Hashing, p: string, t: Attachment, labels: map<string, Label>, removed: set<string>,
                    added: set<string>, onEdge: bool)
    requires labels.Keys == removed + added && forall id | id in labels :: labels[id] == Removed <==> id in removed
    requires exists k :: k in labels && Says(h, p, t, k, onEdge, Status(labels[k]))
    ensures Saying(h, p, t, removed, onEdge, "removed") || Saying(h, p, t, added, onEdge, "added")
  {
    LabelTexts();
    hide *;
    var k :| k in labels && Says(h, p, t, k, onEdge, Status(labels[k]));
    SayingAt(h, p, t, k, if k in removed then removed else added, onEdge, Status(labels[k]));
  }

  lemma SayingAt(h: Hashing, p: string, t: Attachment, key: string, keys: set<string>, onEdge: bool, text: string)
    requires key in keys && Says(h, p, t, key, onEdge, text)
    ensures Saying(h, p, t, keys, onEdge, text)
  {
    hide Says;
  }

  // ----- the origins of the attachments -----

  lemma {:induction false} MarkOriginsAre(h: Hashing, u: Value, labels: map<string, Label>, keys: seq<string>)
    requires h.Valid() && forall i | 0 <= i < |keys| :: keys[i] in labels
    ensures
      var origins := MarkOrigins(h, u, labels, keys);
      && (forall k | k in keys :: var id := MarkId(h, k, labels[k]);
            id in origins && origins[id] == OriginsOf(u.edgeOrigins, k))
      && (forall id | id in u.attachmentOrigins :: id in origins)
      && (forall id | id in origins :: (id in u.attachmentOrigins && origins[id] == u.attachmentOrigins[id])
                                       || exists k | k in keys :: id == MarkId(h, k, labels[k]))
  {
    hide MarkId;
    if keys != [] {
      var rest, last := keys[..|keys| - 1], keys[|keys| - 1];
      MarkOriginsAre(h, u, labels, rest);
      assert keys == rest + [last];
      forall k | k in rest && MarkId(h, k, labels[k]) == MarkId(h, last, labels[last]) ensures k == last {
        MarkIdDetermines(h, k, labels[k], last, labels[last]);
      }
      assert forall k :: k in keys <==> k in rest || k == last;
    }
  }

  lemma ShownOrigins(h: Hashing, p: string, u: Value, edgeLabels: map<string, Label>, nodeLabels: map<string, Label>)
    requires h.Valid()
    ensures
      var origins := Shown(h, p, u, edgeLabels, nodeLabels).attachmentOrigins;
      && (forall k | k in edgeLabels ::
            MarkId(h, k, edgeLabels[k]) in origins && origins[MarkId(h, k, edgeLabels[k])] == OriginsOf(u.edgeOrigins, k))
      && (forall id | id in origins :: (id in u.attachmentOrigins && origins[id] == u.attachmentOrigins[id])
                                       || exists k | k in edgeLabels :: id == MarkId(h, k, edgeLabels[k]))
  {
    KeysListed(edgeLabels);
    var es := SortStrings(edgeLabels.Keys);
    assert Shown(h, p, u, edgeLabels, nodeLabels).attachmentOrigins == MarkOrigins(h, u, edgeLabels, es);
    hide SortStrings, Shown, MarkId, MarkOrigins;
    MarkOriginsAre(h, u, edgeLabels, es);
  }

  /** The attachment that says this of an edge has the origins of that edge. */
  predicate SaidWithOrigins(h: Hashing, v: Value, edgeOrigins: map<string, seq<RecordRef>>, key: string, text: string) {
    var id := "weave:diff:" + h.key(MarkTerm(key, text));
    id in v.attachmentOrigins && v.attachmentOrigins[id] == OriginsOf(edgeOrigins, key)
  }

  /** The id of an attachment that says this of one of these keys. */
  predicate SayingId(h: Hashing, id: string, keys: set<string>, text: string) {
    exists k :: k in keys && id == "weave:diff:" + h.key(MarkTerm(k, text))
  }

  lemma OriginsSides(h: Hashing, u: Value, v: Value, labels: map<string, Label>, removed: set<string>, added: set<string>)
    requires labels.Keys == removed + added && removed !! added
    requires forall id | id in labels :: labels[id] == Removed <==> id in removed
    requires forall k | k in labels :: SaidWithOrigins(h, v, u.edgeOrigins, k, Status(labels[k]))
    requires forall id | id in v.attachmentOrigins && id !in u.attachmentOrigins ::
               exists k | k in labels :: id == MarkId(h, k, labels[k])
    ensures forall k | k in removed :: SaidWithOrigins(h, v, u.edgeOrigins, k, "removed")
    ensures forall k | k in added :: SaidWithOrigins(h, v, u.edgeOrigins, k, "added")
    ensures forall id | id in v.attachmentOrigins && id !in u.attachmentOrigins ::
              SayingId(h, id, removed, "removed") || SayingId(h, id, added, "added")
  {
    LabelTexts();
    hide SaidWithOrigins, Status, SayingId, MarkId;
    forall k | k in removed ensures SaidWithOrigins(h, v, u.edgeOrigins, k, "removed") { assert labels[k] == Removed; }
    forall k | k in added ensures SaidWithOrigins(h, v, u.edgeOrigins, k, "added") { assert labels[k] == Added; }
    forall id | id in v.attachmentOrigins && id !in u.attachmentOrigins
      ensures SayingId(h, id, removed, "removed") || SayingId(h, id, added, "added")
    {
      var k :| k in labels && id == MarkId(h, k, labels[k]);
      MarkIdSays(h, k, labels[k], if k in removed then removed else added);
    }
  }

  lemma MarkIdSays(h: Hashing, key: string, mark: Label, keys: set<string>)
    requires key in keys
    ensures SayingId(h, MarkId(h, key, mark), keys, Status(mark))
  {
  }

  lemma MarkIdOrigins(h: Hashing, v: Value, edgeOrigins: map<string, seq<RecordRef>>, key: string, mark: Label)
    requires MarkId(h, key, mark) in v.attachmentOrigins
    requires v.attachmentOrigins[MarkId(h, key, mark)] == OriginsOf(edgeOrigins, key)
    ensures SaidWithOrigins(h, v, edgeOrigins, key, Status(mark))
  {
  }
}
