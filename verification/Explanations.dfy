/** What composed alternatives rest on and how they explain themselves, over their fields: the
    operator, the gates, the snapshots they mention and the inputs they name. And what the counters
    of composition count. */
module Explanations {
  import opened Orders
  import opened Restrictions
  import opened Carriers
  import opened CarrierCosts

  // ----- gates -----

  /** The gates of `d` are those of `x` and `y`, list by list. */
  ghost predicate RestsOn(d: Derivation, x: RefSet, y: RefSet) {
    && Elements(d.premises) == Elements(x.assertions) + Elements(y.assertions)
    && Elements(d.nodePremises) == Elements(x.nodes) + Elements(y.nodes)
    && Elements(d.snapshotPremises) == Elements(x.snapshots) + Elements(y.snapshots)
  }

  /** The snapshots `d` describes are those its gates are in or name. */
  ghost predicate Describes(d: Derivation) {
    Elements(d.inputSnapshots) == Homes(d.premises) + Homes(d.nodePremises) + Elements(d.snapshotPremises)
  }

  lemma PinsExactly(gates: RefSet)
    ensures Elements(Pins(gates)) == Homes(gates.assertions) + Homes(gates.nodes) + Elements(gates.snapshots)
  {
    PinsListed(gates.assertions);
    PinsListed(gates.nodes);
    var a, b, c := RecordPins(gates.assertions), RecordPins(gates.nodes), gates.snapshots;
    assert forall x :: x in a + b + c <==> x in a || x in b || x in c;
  }

  lemma MadeDescribes(operator: string, gates: RefSet, parents: Json)
    ensures Describes(MakeGroup(operator, gates, parents))
  {
    PinsExactly(gates);
  }

  lemma CombinedRests(operator: string, x: RefSet, y: RefSet, parents: Json)
    ensures RestsOn(MakeGroup(operator, CombineRefs(x, y), parents), x, y)
  {
    NormalRefsExactly(Joined(x, y), Joined(x, y));
    assert forall r :: r in x.assertions + y.assertions <==> r in x.assertions || r in y.assertions;
    assert forall r :: r in x.nodes + y.nodes <==> r in x.nodes || r in y.nodes;
    assert forall r :: r in x.snapshots + y.snapshots <==> r in x.snapshots || r in y.snapshots;
  }

  // ----- inputs -----

  /** The inputs of a conjunction, or the alternative itself. */
  function Named(g: Derivation): set<Json> {
    if g.operator == "weave:influence:and/v1" && "inputs" in g.parameters && g.parameters["inputs"].Arr?
    then Elements(g.parameters["inputs"].items) else {GroupJson(g)}
  }

  /** By the text with revisions blanked, then by the text. */
  ghost predicate TextBefore(enc: Encoding, u: Json, v: Json) {
    || Precedes(enc.json(Blank(u)), enc.json(Blank(v)))
    || (enc.json(Blank(u)) == enc.json(Blank(v)) && Precedes(enc.json(u), enc.json(v)))
  }

  lemma TextBeforeExactly(enc: Encoding, u: Json, v: Json)
    requires By(ConjunctKey(enc))(u, v)
    ensures TextBefore(enc, u, v)
  {
    var a, b := [enc.json(Blank(u)), enc.json(u)], [enc.json(Blank(v)), enc.json(v)];
    assert ConjunctKey(enc)(u) == a && ConjunctKey(enc)(v) == b && KeyLess(a, b);
    hide StringLess;
    StringLessExactly(a[0], b[0]);
    StringLessExactly(a[1], b[1]);
    if a[0] == b[0] {
      assert KeyLess(a[1..], b[1..]) && a[1..][0] == a[1] && b[1..][0] == b[1];
      if a[1] == b[1] { assert !KeyLess(a[1..][1..], b[1..][1..]); }
    }
  }

  /** Conjoining two alternatives: it rests on both, describes the snapshots of what it rests on, and
      names the inputs of both, nested conjunctions flattened, each once, in the order of their texts
      with revisions blanked. */
  lemma AndExplains(enc: Encoding, x: Derivation, y: Derivation)
    requires enc.Valid()
    ensures
      var d := And(enc, x, y);
      && d.operator == "weave:influence:and/v1" && RestsOn(d, Gates(x), Gates(y)) && Describes(d)
      && d.parameters.Keys == {"inputs"} && d.parameters["inputs"].Arr?
      && var items := d.parameters["inputs"].items;
      && Elements(items) == Named(x) + Named(y)
      && (forall i, j | 0 <= i < j < |items| :: TextBefore(enc, items[i], items[j]))
  {
    hide *;
    AndIs(enc, x, y);
    AndRests(enc, x, y);
    NamedBoth(enc, x, y);
    ConjunctsInOrder(enc, x, y);
  }

  lemma AndRests(enc: Encoding, x: Derivation, y: Derivation)
    requires enc.Valid()
    ensures RestsOn(And(enc, x, y), Gates(x), Gates(y)) && Describes(And(enc, x, y))
  {
    AndIs(enc, x, y);
    var inputs := Arr(Conjuncts(enc, x, y));
    hide *;
    CombinedRests(AND, Gates(x), Gates(y), inputs);
    MadeDescribes(AND, CombineRefs(Gates(x), Gates(y)), inputs);
  }

  lemma ConjunctsInOrder(enc: Encoding, x: Derivation, y: Derivation)
    requires enc.Valid()
    ensures var q := Conjuncts(enc, x, y); forall i, j | 0 <= i < j < |q| :: TextBefore(enc, q[i], q[j])
  {
    var q := Conjuncts(enc, x, y);
    ConjunctKeyInjective(enc);
    hide InputsOf, TextBefore, KeyLess, StringLess;
    forall i, j | 0 <= i < j < |q| ensures TextBefore(enc, q[i], q[j]) {
      assert By(ConjunctKey(enc))(q[i], q[j]);
      TextBeforeExactly(enc, q[i], q[j]);
    }
  }

  lemma AndIs(enc: Encoding, x: Derivation, y: Derivation)
    requires enc.Valid()
    ensures And(enc, x, y) == MakeGroup(AND, CombineRefs(Gates(x), Gates(y)), Arr(Conjuncts(enc, x, y)))
    ensures And(enc, x, y).operator == "weave:influence:and/v1"
    ensures And(enc, x, y).parameters == map["inputs" := Arr(Conjuncts(enc, x, y))]
  {
    hide CombineRefs, Conjuncts, Pins;
  }

  lemma NamedBoth(enc: Encoding, x: Derivation, y: Derivation)
    requires enc.Valid()
    ensures Elements(Conjuncts(enc, x, y)) == Named(x) + Named(y)
  {
    var a, b := InputsOf(x), InputsOf(y);
    assert forall v :: v in a + b <==> v in a || v in b;
    assert Elements(a) == Named(x) && Elements(b) == Named(y);
  }

  /** A flat gate inside an alternative: it rests on both and names both, the flat gates first. */
  lemma BranchExplains(flat: RefSet, g: Derivation)
    ensures
      var d := Branch(flat, g);
      && d.operator == "weave:influence:branch/v1" && RestsOn(d, flat, Gates(g)) && Describes(d)
      && d.parameters == map["inputs" := Arr([FlatJson(flat), GroupJson(g)])]
  {
    CombinedRests(BRANCH, flat, Gates(g), Arr([FlatJson(flat), GroupJson(g)]));
    MadeDescribes(BRANCH, CombineRefs(flat, Gates(g)), Arr([FlatJson(flat), GroupJson(g)]));
    hide CombineRefs, Describes, RestsOn, Pins, FlatJson, GroupJson;
  }

  /** Flat gates alone become one alternative that names them. */
  lemma FlatExplains(c: Carrier)
    requires c.alternatives == []
    ensures |Branches(c)| == 1
    ensures
      var d := Branches(c)[0];
      && d.operator == "weave:influence:flat/v1" && Gates(d) == c.flat && Describes(d)
      && d.parameters == map["inputs" := FlatJson(c.flat)]
  {
    MadeDescribes(FLAT, c.flat, FlatJson(c.flat));
    hide Describes, Pins, FlatJson;
  }

  // ----- nothing is lost in an explanation -----

  lemma RecordListInjective(kind: string, p: seq<RecordRef>, q: seq<RecordRef>)
    requires kind != "graph_id" && kind != "revision" && RecordList(kind, p) == RecordList(kind, q)
    ensures p == q
  {
    var a, b := RecordList(kind, p).items, RecordList(kind, q).items;
    forall i | 0 <= i < |p| ensures p[i] == q[i] {
      assert a[i] == RecordJson(kind, p[i]) && b[i] == RecordJson(kind, q[i]);
      var f, g := RecordJson(kind, p[i]).fields, RecordJson(kind, q[i]).fields;
      assert f["graph_id"] == g["graph_id"] && f["revision"] == g["revision"] && f[kind] == g[kind];
    }
  }

  lemma GraphListInjective(p: seq<GraphRef>, q: seq<GraphRef>)
    requires GraphList(p) == GraphList(q)
    ensures p == q
  {
    var a, b := GraphList(p).items, GraphList(q).items;
    forall i | 0 <= i < |p| ensures p[i] == q[i] {
      assert a[i] == GraphJson(p[i]) && b[i] == GraphJson(q[i]);
      var f, g := GraphJson(p[i]).fields, GraphJson(q[i]).fields;
      assert f["graph_id"] == g["graph_id"] && f["revision"] == g["revision"];
    }
  }

  /** Different alternatives are written differently, so an explanation names exactly one. */
  lemma GroupJsonInjective(x: Derivation, y: Derivation)
    ensures GroupJson(x) == GroupJson(y) <==> x == y
  {
    if GroupJson(x) == GroupJson(y) {
      SameField(x, y, "operator");
      SameField(x, y, "premises");
      SameField(x, y, "parameters");
      SameField(x, y, "input_snapshots");
      RecordListInjective("assertion_id", x.premises, y.premises);
      GraphListInjective(x.inputSnapshots, y.inputSnapshots);
      SameOptional(x, y);
    }
  }

  lemma SameOptional(x: Derivation, y: Derivation)
    requires GroupJson(x) == GroupJson(y)
    ensures x.nodePremises == y.nodePremises && x.snapshotPremises == y.snapshotPremises
  {
    OptionalFields(x);
    OptionalFields(y);
    var f := GroupJson(x).fields.Keys;
    assert f == GroupFields(x) == GroupFields(y);
    hide GroupFields, RecordList, GraphList;
    if "node_premises" in f {
      SameField(x, y, "node_premises");
      RecordListInjective("node_id", x.nodePremises, y.nodePremises);
    }
    if "snapshot_premises" in f {
      SameField(x, y, "snapshot_premises");
      GraphListInjective(x.snapshotPremises, y.snapshotPremises);
    }
  }

  lemma OptionalFields(x: Derivation)
    ensures "node_premises" in GroupFields(x) <==> x.nodePremises != []
    ensures "snapshot_premises" in GroupFields(x) <==> x.snapshotPremises != []
  {
  }

  lemma SameField(x: Derivation, y: Derivation, k: string)
    requires GroupJson(x) == GroupJson(y) && k in GroupFields(x)
    ensures k in GroupFields(y) && GroupField(x, k) == GroupField(y, k)
  {
    hide GroupField;
    assert k in GroupJson(x).fields;
  }

  // ----- the counters -----

  /** The references of some alternatives, with `extra` more for each. */
  function RefsWith(gs: seq<Derivation>, extra: nat): nat {
    if gs == [] then 0 else
      var g := gs[|gs| - 1];
      RefsWith(gs[..|gs| - 1], extra) + |g.premises| + |g.nodePremises| + |g.snapshotPremises| + extra
  }

  /** The references of all pairs, those of both sides for each. */
  function PairRefs(xs: seq<Derivation>, ys: seq<Derivation>): nat {
    if xs == [] then 0 else
      var g := xs[|xs| - 1];
      PairRefs(xs[..|xs| - 1], ys) + RefsWith(ys, |g.premises| + |g.nodePremises| + |g.snapshotPremises|)
  }

  lemma AreaStep(m: nat, n: nat)
    ensures Area(m + 1, n) == Area(m, n) + n && Area(n, m + 1) == Area(n, m) + n
    ensures Area(0, n) == 0 == Area(n, 0)
  {
  }

  lemma AreaAdds(a: nat, b: nat, n: nat)
    ensures Area(a + b, n) == Area(a, n) + Area(b, n)
  {
  }

  lemma {:induction false} RefsWithIs(gs: seq<Derivation>, extra: nat)
    ensures RefsWith(gs, extra) == Area(extra, |gs|) + GroupCounts(gs)
  {
    hide Area;
    AreaStep(|gs|, extra);
    if gs != [] {
      RefsWithIs(gs[..|gs| - 1], extra);
      AreaStep(|gs| - 1, extra);
    }
  }

  /** The reference counter of a distribution: the flat gates once for every branch, and the gates of
      each alternative. */
  lemma BranchCounts(c: Carrier)
    ensures Spread(c) == |Branches(c)|
    ensures BranchRefs(c) ==
      var flat := |c.flat.assertions| + |c.flat.nodes| + |c.flat.snapshots|;
      if c.alternatives == [] then flat else RefsWith(c.alternatives, flat)
  {
    var flat := RefsCount(c.flat);
    hide Area;
    RefsWithIs(c.alternatives, flat);
    AreaStep(0, flat);
  }

  lemma {:induction false} PairRefsAre(xs: seq<Derivation>, ys: seq<Derivation>)
    ensures PairRefs(xs, ys) == Area(GroupCounts(xs), |ys|) + Area(GroupCounts(ys), |xs|)
  {
    hide Area;
    AreaStep(|ys|, GroupCounts(ys));
    AreaStep(|xs|, GroupCounts(ys));
    AreaStep(|ys|, |ys|);
    if xs == [] {
      AreaStep(0, |ys|);
    } else {
      var rest, g := xs[..|xs| - 1], xs[|xs| - 1];
      PairRefsAre(rest, ys);
      RefsWithIs(ys, GroupCount(g));
      AreaAdds(GroupCounts(rest), GroupCount(g), |ys|);
      AreaStep(|rest|, GroupCounts(ys));
    }
  }

  /** The reference counter of a conjunction: both sides of every pair, and the flat gates. */
  lemma ProductCounts(a: Carrier, b: Carrier)
    ensures ProductRefs(a, b) == PairRefs(a.alternatives, b.alternatives) + RefsCount(CombineRefs(a.flat, b.flat))
  {
    hide Area, CombineRefs;
    PairRefsAre(a.alternatives, b.alternatives);
  }

  // ----- the order of a canonical form -----

  /** By graph, then revision, then record, in byte order. */
  ghost predicate RecordBefore(a: RecordRef, b: RecordRef) {
    || Precedes(a.graph, b.graph)
    || (a.graph == b.graph && Precedes(a.revision, b.revision))
    || (a.graph == b.graph && a.revision == b.revision && Precedes(a.record, b.record))
  }

  ghost predicate GraphBefore(a: GraphRef, b: GraphRef) {
    Precedes(a.graph, b.graph) || (a.graph == b.graph && Precedes(a.revision, b.revision))
  }

  /** Each list of references in order, none twice. */
  ghost predicate RefsInOrder(r: RefSet) {
    && (forall i, j | 0 <= i < j < |r.assertions| :: RecordBefore(r.assertions[i], r.assertions[j]))
    && (forall i, j | 0 <= i < j < |r.nodes| :: RecordBefore(r.nodes[i], r.nodes[j]))
    && (forall i, j | 0 <= i < j < |r.snapshots| :: GraphBefore(r.snapshots[i], r.snapshots[j]))
  }

  lemma KeyLessFirst(a: seq<string>, b: seq<string>)
    requires KeyLess(a, b) && a != []
    ensures b != [] && (Precedes(a[0], b[0]) || (a[0] == b[0] && KeyLess(a[1..], b[1..])))
  {
    StringLessExactly(a[0], b[0]);
  }

  lemma RecordOrder(a: RecordRef, b: RecordRef)
    requires By(RecordKey)(a, b)
    ensures RecordBefore(a, b)
  {
    var k, l := RecordKey(a), RecordKey(b);
    hide StringLess, KeyLess, Precedes;
    KeyLessFirst(k, l);
    if a.graph == b.graph && !Precedes(a.graph, b.graph) {
      assert k[1..] == [a.revision, a.record] && l[1..] == [b.revision, b.record];
      KeyLessFirst(k[1..], l[1..]);
      if a.revision == b.revision && !Precedes(a.revision, b.revision) {
        assert k[1..][1..] == [a.record] && l[1..][1..] == [b.record];
        KeyLessFirst(k[1..][1..], l[1..][1..]);
        NothingLess();
      }
    }
  }

  lemma NothingLess()
    ensures !KeyLess([], [])
    ensures forall a: string, b: string :: [a][1..] == [] == [b][1..]
  {
  }

  lemma GraphOrder(a: GraphRef, b: GraphRef)
    requires By(GraphKey)(a, b)
    ensures GraphBefore(a, b)
  {
    var k, l := GraphKey(a), GraphKey(b);
    hide StringLess, KeyLess, Precedes;
    KeyLessFirst(k, l);
    if a.graph == b.graph && !Precedes(a.graph, b.graph) {
      assert k[1..] == [a.revision] && l[1..] == [b.revision];
      KeyLessFirst(k[1..], l[1..]);
      NothingLess();
    }
  }

  lemma RecordsInOrder(s: set<RecordRef>)
    ensures forall i, j | 0 <= i < j < |Records(s)| :: RecordBefore(Records(s)[i], Records(s)[j])
  {
    KeysInjective();
    var q := Records(s);
    hide KeyLess, RecordBefore;
    forall i, j | 0 <= i < j < |q| ensures RecordBefore(q[i], q[j]) {
      assert By(RecordKey)(q[i], q[j]);
      RecordOrder(q[i], q[j]);
    }
  }

  lemma SnapshotsInOrder(s: set<GraphRef>)
    ensures forall i, j | 0 <= i < j < |Snapshots(s)| :: GraphBefore(Snapshots(s)[i], Snapshots(s)[j])
  {
    KeysInjective();
    var q := Snapshots(s);
    hide KeyLess, GraphBefore;
    forall i, j | 0 <= i < j < |q| ensures GraphBefore(q[i], q[j]) {
      assert By(GraphKey)(q[i], q[j]);
      GraphOrder(q[i], q[j]);
    }
  }

  lemma NormalInOrder(r: RefSet)
    ensures RefsInOrder(NormalRefs(r))
  {
    hide RecordBefore, GraphBefore, Records, Snapshots;
    RecordsInOrder(Elements(r.assertions));
    RecordsInOrder(Elements(r.nodes));
    SnapshotsInOrder(Elements(r.snapshots));
  }

  /** A canonical form lists its references, and those of each alternative, by graph, revision and record,
      and its alternatives by their text. */
  lemma CanonicalInOrder(enc: Encoding, c: Carrier)
    requires enc.Valid()
    ensures
      var d := Canonical(enc, c);
      && RefsInOrder(d.flat)
      && (forall g | g in d.alternatives :: RefsInOrder(Gates(g)))
      && (forall i, j | 0 <= i < j < |d.alternatives| ::
            Precedes(enc.group(d.alternatives[i]), enc.group(d.alternatives[j])))
  {
    GroupKeyInjective(enc);
    NormalInOrder(c.flat);
    var d := Canonical(enc, c);
    hide RefsInOrder, NormalRefs, Precedes, StringLess, KeyLess;
    forall g | g in d.alternatives ensures RefsInOrder(Gates(g)) {
      assert g in NormalGroups(c.alternatives) by { assert g in Elements(d.alternatives); }
      var o :| o in c.alternatives && g == NormalGroup(o);
      NormalInOrder(Gates(o));
      assert Gates(g) == NormalRefs(Gates(o)) by { GatesNormal(o); }
    }
    forall i, j | 0 <= i < j < |d.alternatives|
      ensures Precedes(enc.group(d.alternatives[i]), enc.group(d.alternatives[j]))
    {
      var k, l := [enc.group(d.alternatives[i])], [enc.group(d.alternatives[j])];
      assert By(GroupKey(enc))(d.alternatives[i], d.alternatives[j]);
      KeyLessFirst(k, l);
      NothingLess();
    }
  }

  lemma GatesNormal(g: Derivation)
    ensures Gates(NormalGroup(g)) == NormalRefs(Gates(g))
  {
  }

  // ----- valid carriers, over the fields -----

  /** One step down into a value: to an element or under a key. */
  datatype Move = Item(index: nat) | Key(name: string)

  predicate Goes(v: Json, m: Move) {
    match m
    case Item(i) => v.Arr? && i < |v.items|
    case Key(k) => v.Obj? && k in v.fields
  }

  function To(v: Json, m: Move): Json
    requires Goes(v, m)
  {
    if m.Item? then v.items[m.index] else v.fields[m.name]
  }

  /** The moves lead from the value to a part of it. */
  predicate Leads(v: Json, path: seq<Move>) {
    path == [] || (Goes(v, path[0]) && Leads(To(v, path[0]), path[1..]))
  }

  /** No part of the value is more than so many moves away. */
  ghost predicate NoDeeper(v: Json, room: int) {
    forall path: seq<Move> | Leads(v, path) :: |path| <= room
  }

  lemma WithinStep(v: Json, room: int)
    ensures Within(v, room) <==> room >= 0 && forall m | Goes(v, m) :: Within(To(v, m), room - 1)
  {
    if room >= 0 && forall m | Goes(v, m) :: Within(To(v, m), room - 1) {
      if v.Arr? {
        forall i | 0 <= i < |v.items| ensures Within(v.items[i], room - 1) {
          assert Goes(v, Item(i)) && To(v, Item(i)) == v.items[i];
        }
      } else if v.Obj? {
        forall k | k in v.fields ensures Within(v.fields[k], room - 1) {
          assert Goes(v, Key(k)) && To(v, Key(k)) == v.fields[k];
        }
      }
    }
  }

  lemma DeeperStep(v: Json, room: int)
    ensures NoDeeper(v, room) <==> room >= 0 && forall m | Goes(v, m) :: NoDeeper(To(v, m), room - 1)
  {
    hide Goes, To;
    if NoDeeper(v, room) {
      assert Leads(v, []);
      forall m, path: seq<Move> | Goes(v, m) && Leads(To(v, m), path) ensures |path| <= room - 1 {
        var longer := [m] + path;
        assert longer[1..] == path && Leads(v, longer);
      }
    }
    if room >= 0 && forall m | Goes(v, m) :: NoDeeper(To(v, m), room - 1) {
      forall path: seq<Move> | Leads(v, path) ensures |path| <= room {
        if path != [] { assert NoDeeper(To(v, path[0]), room - 1) && Leads(To(v, path[0]), path[1..]); }
      }
    }
  }

  lemma PartSmaller(v: Json, m: Move)
    requires Goes(v, m)
    ensures To(v, m) < v
  {
  }

  /** Nesting is the length of the longest way down. */
  lemma {:induction false} WithinExactly(v: Json, room: int)
    ensures Within(v, room) <==> NoDeeper(v, room)
    decreases v
  {
    WithinStep(v, room);
    DeeperStep(v, room);
    hide Within, NoDeeper, Goes, To;
    forall m | Goes(v, m) ensures Within(To(v, m), room - 1) <==> NoDeeper(To(v, m), room - 1) {
      PartSmaller(v, m);
      WithinExactly(To(v, m), room - 1);
    }
  }

  /** An id has at least one and at most 512 bytes. */
  predicate Spelled(s: string) {
    1 <= |s| <= 512
  }

  predicate RecordSpelled(r: RecordRef) {
    Spelled(r.graph) && Spelled(r.revision) && Spelled(r.record)
  }

  predicate GraphSpelled(r: GraphRef) {
    Spelled(r.graph) && Spelled(r.revision)
  }

  predicate RefsSpelled(assertions: seq<RecordRef>, nodes: seq<RecordRef>, snapshots: seq<GraphRef>) {
    && (forall r | r in assertions :: RecordSpelled(r)) && (forall r | r in nodes :: RecordSpelled(r))
    && (forall r | r in snapshots :: GraphSpelled(r))
  }

  lemma GoodIdsExactly(r: RefSet)
    ensures GoodIds(r) <==> RefsSpelled(r.assertions, r.nodes, r.snapshots)
  {
    forall x ensures RecordIds(x) <==> RecordSpelled(x) {}
    forall x ensures GraphIds(x) <==> GraphSpelled(x) {}
    hide RecordIds, RecordSpelled, GraphIds, GraphSpelled;
    assert forall i | 0 <= i < |r.assertions| :: r.assertions[i] in r.assertions;
    assert forall i | 0 <= i < |r.nodes| :: r.nodes[i] in r.nodes;
    assert forall i | 0 <= i < |r.snapshots| :: r.snapshots[i] in r.snapshots;
  }

  /** Gates at all, at most a thousand of them and of described snapshots, ids of the right length, and
      parameters at most 32 deep. */
  ghost predicate GoodAlternative(g: Derivation) {
    && (g.premises != [] || g.nodePremises != [] || g.snapshotPremises != [])
    && |g.premises| + |g.nodePremises| + |g.snapshotPremises| <= 1000 && |g.inputSnapshots| <= 1000
    && Spelled(g.operator) && RefsSpelled(g.premises, g.nodePremises, g.snapshotPremises)
    && (forall r | r in g.inputSnapshots :: GraphSpelled(r))
    && (forall k | k in g.parameters :: NoDeeper(g.parameters[k], 32))
  }

  lemma ValidGroupExactly(g: Derivation)
    ensures ValidGroup(g) <==> GoodAlternative(g)
  {
    GoodIdsExactly(Gates(g));
    forall k | k in g.parameters ensures Within(g.parameters[k], MAX_DEPTH) <==> NoDeeper(g.parameters[k], 32) {
      WithinExactly(g.parameters[k], 32);
    }
    forall x ensures GraphIds(x) <==> GraphSpelled(x) {}
    hide Within, NoDeeper, GraphIds, GraphSpelled, RefsSpelled, GoodIds;
    assert forall i | 0 <= i < |g.inputSnapshots| :: g.inputSnapshots[i] in g.inputSnapshots;
  }

  /** A carrier is valid exactly when its alternatives are good, its flat gates are at most a thousand with
      good ids, and alternatives and references are within the limits. */
  lemma ValidExactly(limits: Limits, c: Carrier)
    ensures ValidCarrier(limits, c) <==>
      (var flat := |c.flat.assertions| + |c.flat.nodes| + |c.flat.snapshots|;
       && |c.alternatives| <= limits.groups && flat <= 1000
       && flat + RefsWith(c.alternatives, 0) <= limits.references
       && RefsSpelled(c.flat.assertions, c.flat.nodes, c.flat.snapshots)
       && forall g | g in c.alternatives :: GoodAlternative(g))
  {
    GoodIdsExactly(c.flat);
    RefsWithIs(c.alternatives, 0);
    AreaStep(0, |c.alternatives|);
    forall g ensures ValidGroup(g) <==> GoodAlternative(g) { ValidGroupExactly(g); }
    hide ValidGroup, GoodAlternative, RefsSpelled, GoodIds, Area, RefsWith;
    assert forall i | 0 <= i < |c.alternatives| :: c.alternatives[i] in c.alternatives;
  }
}
