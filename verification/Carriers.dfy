/** Composition of carriers, and what it evaluates to. */
module Carriers {
  // Conjunction, disjunction and distribution, and when the order of composition does not show
  // in the result.

  import opened Orders
  import opened Restrictions

  // ----- explanation inputs -----

  /** The value with everything under a `revision` key replaced by null. */
  function Blank(v: Json): Json {
    match v
    case Arr(items) => Arr(seq(|items|, i requires 0 <= i < |items| => Blank(items[i])))
    case Obj(fields) => Obj(map k | k in fields :: if k == "revision" then Null else Blank(fields[k]))
    case _ => v
  }

  function RecordJson(kind: string, r: RecordRef): Json {
    Obj(map["graph_id" := Str(r.graph), "revision" := Str(r.revision), kind := Str(r.record)])
  }

  function GraphJson(r: GraphRef): Json {
    Obj(map["graph_id" := Str(r.graph), "revision" := Str(r.revision)])
  }

  function RecordList(kind: string, refs: seq<RecordRef>): Json {
    Arr(seq(|refs|, i requires 0 <= i < |refs| => RecordJson(kind, refs[i])))
  }

  function GraphList(refs: seq<GraphRef>): Json {
    Arr(seq(|refs|, i requires 0 <= i < |refs| => GraphJson(refs[i])))
  }

  /** Empty node and snapshot premises are not written. */
  function GroupFields(g: Derivation): set<string> {
    {"operator", "premises", "parameters", "input_snapshots"}
    + (if g.nodePremises == [] then {} else {"node_premises"})
    + (if g.snapshotPremises == [] then {} else {"snapshot_premises"})
  }

  function GroupField(g: Derivation, k: string): Json {
    if k == "operator" then Str(g.operator)
    else if k == "premises" then RecordList("assertion_id", g.premises)
    else if k == "node_premises" then RecordList("node_id", g.nodePremises)
    else if k == "parameters" then Obj(g.parameters)
    else if k == "input_snapshots" then GraphList(g.inputSnapshots)
    else GraphList(g.snapshotPremises)
  }

  function GroupJson(g: Derivation): Json {
    Obj(map k | k in GroupFields(g) :: GroupField(g, k))
  }

  function FlatJson(r: RefSet): Json {
    Obj(map["assertions" := RecordList("assertion_id", r.assertions), "nodes" := RecordList("node_id", r.nodes),
            "snapshots" := GraphList(r.snapshots)])
  }

  const AND := "weave:influence:and/v1"
  const FLAT := "weave:influence:flat/v1"
  const BRANCH := "weave:influence:branch/v1"

  /** The inputs of a nested conjunction, or the whole alternative. */
  function InputsOf(g: Derivation): seq<Json> {
    if g.operator == AND && "inputs" in g.parameters && g.parameters["inputs"].Arr?
    then g.parameters["inputs"].items
    else [GroupJson(g)]
  }

  function InputSet(g: Derivation): set<Json> {
    Elements(InputsOf(g))
  }

  /** Blanked text first, then the full text. */
  function ConjunctKey(enc: Encoding): Json -> seq<string> {
    (v: Json) => [enc.json(Blank(v)), enc.json(v)]
  }

  lemma ConjunctKeyInjective(enc: Encoding)
    requires enc.Valid()
    ensures Injective(ConjunctKey(enc))
  {
    var key := ConjunctKey(enc);
    forall x: Json, y: Json | key(x) == key(y) ensures x == y {
      assert key(x)[1] == key(y)[1];
    }
  }

  function InputList(enc: Encoding, s: set<Json>): (q: seq<Json>)
    requires enc.Valid()
    ensures Elements(q) == s
  {
    ConjunctKeyInjective(enc);
    Listing(ConjunctKey(enc), s)
  }

  function Conjuncts(enc: Encoding, x: Derivation, y: Derivation): seq<Json>
    requires enc.Valid()
  {
    InputList(enc, Elements(InputsOf(x) + InputsOf(y)))
  }

  // ----- building alternatives -----

  function Joined(a: RefSet, b: RefSet): RefSet {
    RefSet(a.assertions + b.assertions, a.nodes + b.nodes, a.snapshots + b.snapshots)
  }

  function CombineRefs(a: RefSet, b: RefSet): RefSet {
    NormalRefs(Joined(a, b))
  }

  function RecordPins(refs: seq<RecordRef>): seq<GraphRef> {
    seq(|refs|, i requires 0 <= i < |refs| => GraphRef(refs[i].graph, refs[i].revision))
  }

  /** The snapshots some records are in. */
  ghost function Homes(refs: seq<RecordRef>): set<GraphRef> {
    set r | r in refs :: GraphRef(r.graph, r.revision)
  }

  lemma PinsListed(refs: seq<RecordRef>)
    ensures Elements(RecordPins(refs)) == Homes(refs)
  {
    var pins := RecordPins(refs);
    forall x | x in Elements(pins) ensures x in Homes(refs) {
      var i :| 0 <= i < |pins| && pins[i] == x;
      assert refs[i] in refs;
    }
    forall r | r in refs ensures GraphRef(r.graph, r.revision) in Elements(pins) {
      var i :| 0 <= i < |refs| && refs[i] == r;
      assert pins[i] in pins;
    }
  }

  /** Every snapshot a gate mentions, for description only. */
  function Pins(gates: RefSet): seq<GraphRef> {
    RecordPins(gates.assertions) + RecordPins(gates.nodes) + gates.snapshots
  }

  function MakeGroup(operator: string, gates: RefSet, parents: Json): Derivation {
    Derivation(operator, gates.assertions, gates.nodes, map["inputs" := parents],
               Snapshots(Elements(Pins(gates))), gates.snapshots)
  }

  function And(enc: Encoding, x: Derivation, y: Derivation): Derivation
    requires enc.Valid()
  {
    MakeGroup(AND, CombineRefs(Gates(x), Gates(y)), Arr(Conjuncts(enc, x, y)))
  }

  function AndRow(enc: Encoding, x: Derivation, ys: seq<Derivation>): seq<Derivation>
    requires enc.Valid()
  {
    seq(|ys|, j requires 0 <= j < |ys| => And(enc, x, ys[j]))
  }

  function Products(enc: Encoding, xs: seq<Derivation>, ys: seq<Derivation>): seq<Derivation>
    requires enc.Valid()
  {
    if xs == [] then [] else Products(enc, xs[..|xs| - 1], ys) + AndRow(enc, xs[|xs| - 1], ys)
  }

  function RawConjunction(enc: Encoding, a: Carrier, b: Carrier): Carrier
    requires enc.Valid()
  {
    Carrier(CombineRefs(a.flat, b.flat),
            if a.alternatives == [] then b.alternatives
            else if b.alternatives == [] then a.alternatives
            else Products(enc, a.alternatives, b.alternatives))
  }

  function Conjoin(enc: Encoding, a: Carrier, b: Carrier): Carrier
    requires enc.Valid()
  {
    var x, y := Canonical(enc, a), Canonical(enc, b);
    if x == y then x else Canonical(enc, RawConjunction(enc, x, y))
  }

  function Branch(flat: RefSet, g: Derivation): Derivation {
    MakeGroup(BRANCH, CombineRefs(flat, Gates(g)), Arr([FlatJson(flat), GroupJson(g)]))
  }

  function Branches(c: Carrier): seq<Derivation> {
    if c.alternatives == [] then [MakeGroup(FLAT, c.flat, FlatJson(c.flat))]
    else seq(|c.alternatives|, i requires 0 <= i < |c.alternatives| => Branch(c.flat, c.alternatives[i]))
  }

  function DistributeOver(enc: Encoding, branch: Carrier, flat: Carrier): Carrier
    requires enc.Valid()
  {
    Canonical(enc, Carrier(NO_REFS, Branches(Conjoin(enc, branch, flat))))
  }

  predicate Unconditional(c: Carrier) {
    c == Carrier(NO_REFS, [])
  }

  function Disjoin(enc: Encoding, a: Carrier, b: Carrier): Carrier
    requires enc.Valid()
  {
    var x, y := Canonical(enc, a), Canonical(enc, b);
    if Unconditional(x) && Unconditional(y) then Carrier(NO_REFS, [])
    else Canonical(enc, Carrier(NO_REFS, Branches(x) + Branches(y)))
  }

  // ----- evaluation -----

  lemma CombineGranted(a: RefSet, b: RefSet, auth: Authority)
    ensures Granted(CombineRefs(a, b), auth) <==> Granted(a, auth) && Granted(b, auth)
  {
    ElementsConcat(a.assertions, b.assertions);
    ElementsConcat(a.nodes, b.nodes);
    ElementsConcat(a.snapshots, b.snapshots);
  }

  lemma ElementsConcat<T>(p: seq<T>, q: seq<T>)
    ensures Elements(p + q) == Elements(p) + Elements(q)
  {
  }

  lemma AndGranted(enc: Encoding, x: Derivation, y: Derivation, auth: Authority)
    requires enc.Valid()
    ensures Granted(Gates(And(enc, x, y)), auth) <==> Granted(Gates(x), auth) && Granted(Gates(y), auth)
  {
    CombineGranted(Gates(x), Gates(y), auth);
  }

  /** The products are exactly the conjunctions of an alternative of each side. */
  lemma {:induction false} ProductsContain(enc: Encoding, xs: seq<Derivation>, ys: seq<Derivation>, g: Derivation)
    requires enc.Valid()
    ensures g in Products(enc, xs, ys) <==> exists x, y :: x in xs && y in ys && g == And(enc, x, y)
  {
    hide And;
    if xs != [] {
      var rest, last := xs[..|xs| - 1], xs[|xs| - 1];
      assert xs == rest + [last];
      ProductsContain(enc, rest, ys, g);
      assert g in AndRow(enc, last, ys) <==> exists y :: y in ys && g == And(enc, last, y) by {
        if y :| y in ys && g == And(enc, last, y) {
          var j :| 0 <= j < |ys| && ys[j] == y;
          assert AndRow(enc, last, ys)[j] == g;
        }
      }
    }
  }

  lemma ProductsGranted(enc: Encoding, xs: seq<Derivation>, ys: seq<Derivation>, auth: Authority)
    requires enc.Valid()
    ensures AnyGranted(Products(enc, xs, ys), auth) <==> AnyGranted(xs, auth) && AnyGranted(ys, auth)
  {
    hide And, Granted, Products;
    if AnyGranted(Products(enc, xs, ys), auth) {
      var g :| g in Products(enc, xs, ys) && Granted(Gates(g), auth);
      ProductsContain(enc, xs, ys, g);
      var x, y :| x in xs && y in ys && g == And(enc, x, y);
      AndGranted(enc, x, y, auth);
    }
    if AnyGranted(xs, auth) && AnyGranted(ys, auth) {
      var x :| x in xs && Granted(Gates(x), auth);
      var y :| y in ys && Granted(Gates(y), auth);
      AndGranted(enc, x, y, auth);
      ProductsContain(enc, xs, ys, And(enc, x, y));
    }
  }

  lemma ProductsEmpty(enc: Encoding, xs: seq<Derivation>, ys: seq<Derivation>)
    requires enc.Valid()
    ensures |Products(enc, xs, ys)| == |xs| * |ys|
  {
    if xs != [] {
      ProductsEmpty(enc, xs[..|xs| - 1], ys);
      assert |xs| * |ys| == (|xs| - 1) * |ys| + |ys|;
    }
  }

  lemma RawEvaluates(enc: Encoding, a: Carrier, b: Carrier, auth: Authority)
    requires enc.Valid()
    ensures Evaluate(RawConjunction(enc, a, b), auth) <==> Evaluate(a, auth) && Evaluate(b, auth)
  {
    hide Granted, AnyGranted, CombineRefs, Products;
    CombineGranted(a.flat, b.flat, auth);
    ProductsGranted(enc, a.alternatives, b.alternatives, auth);
    ProductsEmpty(enc, a.alternatives, b.alternatives);
    if a.alternatives != [] && b.alternatives != [] {
      NonzeroProduct(|a.alternatives|, |b.alternatives|);
    }
  }

  lemma NonzeroProduct(m: nat, n: nat)
    requires m > 0 && n > 0
    ensures m * n > 0
  {
  }

  /** Conjunction means both, for every carrier and every set of authorised references. */
  lemma ConjoinEvaluates(enc: Encoding, a: Carrier, b: Carrier, auth: Authority)
    requires enc.Valid()
    ensures Evaluate(Conjoin(enc, a, b), auth) <==> Evaluate(a, auth) && Evaluate(b, auth)
  {
    hide Evaluate, Canonical, RawConjunction;
    var x, y := Canonical(enc, a), Canonical(enc, b);
    CanonicalEvaluates(enc, a, auth);
    CanonicalEvaluates(enc, b, auth);
    RawEvaluates(enc, x, y, auth);
    CanonicalEvaluates(enc, RawConjunction(enc, x, y), auth);
  }

  lemma BranchesGranted(c: Carrier, auth: Authority)
    ensures AnyGranted(Branches(c), auth) <==> Evaluate(c, auth)
  {
    hide Granted, CombineRefs;
    forall g | g in c.alternatives
      ensures Granted(Gates(Branch(c.flat, g)), auth) <==> Granted(c.flat, auth) && Granted(Gates(g), auth)
    {
      CombineGranted(c.flat, Gates(g), auth);
    }
    if c.alternatives == [] {
      assert Gates(Branches(c)[0]) == c.flat;
    } else if Evaluate(c, auth) {
      var g :| g in c.alternatives && Granted(Gates(g), auth);
      var i :| 0 <= i < |c.alternatives| && c.alternatives[i] == g;
      assert Branches(c)[i] == Branch(c.flat, g);
    }
  }

  lemma AnyGrantedConcat(p: seq<Derivation>, q: seq<Derivation>, auth: Authority)
    ensures AnyGranted(p + q, auth) <==> AnyGranted(p, auth) || AnyGranted(q, auth)
  {
    hide Granted;
  }

  lemma NoRefsGranted(auth: Authority)
    ensures Granted(NO_REFS, auth)
  {
  }

  /** Distribution means conjunction, with every gate moved into an alternative. */
  lemma DistributeEvaluates(enc: Encoding, branch: Carrier, flat: Carrier, auth: Authority)
    requires enc.Valid()
    ensures Evaluate(DistributeOver(enc, branch, flat), auth) <==> Evaluate(branch, auth) && Evaluate(flat, auth)
    ensures DistributeOver(enc, branch, flat).flat == NO_REFS
    ensures DistributeOver(enc, branch, flat).alternatives != []
  {
    var joined := Conjoin(enc, branch, flat);
    var raw := Carrier(NO_REFS, Branches(joined));
    GroupsEmpty(enc, raw.alternatives);
    hide Granted, AnyGranted, Conjoin, NormalGroups;
    ConjoinEvaluates(enc, branch, flat, auth);
    BranchesGranted(joined, auth);
    NoRefsGranted(auth);
    CanonicalEvaluates(enc, raw, auth);
    NormalNoRefs();
  }

  lemma NormalNoRefs()
    ensures NormalRefs(NO_REFS) == NO_REFS
  {
    assert |Elements<RecordRef>([])| == 0 && |Elements<GraphRef>([])| == 0;
    KeysInjective();
  }

  /** Disjunction means either, for every carrier and every set of authorised references. */
  lemma DisjoinEvaluates(enc: Encoding, a: Carrier, b: Carrier, auth: Authority)
    requires enc.Valid()
    ensures Evaluate(Disjoin(enc, a, b), auth) <==> Evaluate(a, auth) || Evaluate(b, auth)
  {
    hide Granted, AnyGranted, Canonical, Branches;
    var x, y := Canonical(enc, a), Canonical(enc, b);
    CanonicalEvaluates(enc, a, auth);
    CanonicalEvaluates(enc, b, auth);
    NoRefsGranted(auth);
    if !(Unconditional(x) && Unconditional(y)) {
      BranchesGranted(x, auth);
      BranchesGranted(y, auth);
      AnyGrantedConcat(Branches(x), Branches(y), auth);
      BranchesSome(x);
      CanonicalEvaluates(enc, Carrier(NO_REFS, Branches(x) + Branches(y)), auth);
    }
  }

  lemma BranchesSome(c: Carrier)
    ensures Branches(c) != []
  {
  }

  // ----- conjunction as a value -----

  lemma ConcatSymmetric<T>(p: seq<T>, q: seq<T>)
    ensures Elements(p + q) == Elements(q + p)
  {
    ElementsConcat(p, q);
    ElementsConcat(q, p);
  }

  lemma CombineSymmetric(a: RefSet, b: RefSet)
    ensures CombineRefs(a, b) == CombineRefs(b, a)
  {
    hide NormalRefs;
    ConcatSymmetric(a.assertions, b.assertions);
    ConcatSymmetric(a.nodes, b.nodes);
    ConcatSymmetric(a.snapshots, b.snapshots);
    NormalRefsExactly(Joined(a, b), Joined(b, a));
  }

  lemma AndSymmetric(enc: Encoding, x: Derivation, y: Derivation)
    requires enc.Valid()
    ensures And(enc, x, y) == And(enc, y, x)
  {
    hide CombineRefs, InputsOf, InputList, MakeGroup;
    CombineSymmetric(Gates(x), Gates(y));
    ConcatSymmetric(InputsOf(x), InputsOf(y));
  }

  lemma ProductsSymmetric(enc: Encoding, xs: seq<Derivation>, ys: seq<Derivation>)
    requires enc.Valid()
    ensures NormalGroups(Products(enc, xs, ys)) == NormalGroups(Products(enc, ys, xs))
  {
    hide And, Products, NormalGroup;
    forall g ensures g in Products(enc, xs, ys) <==> g in Products(enc, ys, xs) {
      ProductsContain(enc, xs, ys, g);
      ProductsContain(enc, ys, xs, g);
      forall x, y ensures And(enc, x, y) == And(enc, y, x) { AndSymmetric(enc, x, y); }
    }
  }

  /** Conjunction is commutative as a value, explanations included. */
  lemma ConjoinCommutes(enc: Encoding, a: Carrier, b: Carrier)
    requires enc.Valid()
    ensures Conjoin(enc, a, b) == Conjoin(enc, b, a)
  {
    hide CombineRefs, Products, NormalGroups, NormalRefs;
    var x, y := Canonical(enc, a), Canonical(enc, b);
    CombineSymmetric(x.flat, y.flat);
    ProductsSymmetric(enc, x.alternatives, y.alternatives);
  }

  /** A carrier with no flat gate and one alternative. */
  predicate Single(c: Carrier) {
    c.flat == NO_REFS && |c.alternatives| == 1
  }

  /** Any way to fold conjunctions over some carriers. */
  datatype Folding = Leaf(carrier: Carrier) | Node(left: Folding, right: Folding)

  function Fold(enc: Encoding, t: Folding): Carrier
    requires enc.Valid()
  {
    match t
    case Leaf(c) => Canonical(enc, c)
    case Node(l, r) => Conjoin(enc, Fold(enc, l), Fold(enc, r))
  }

  predicate AllSingle(t: Folding) {
    match t
    case Leaf(c) => Single(c)
    case Node(l, r) => AllSingle(l) && AllSingle(r)
  }

  /** The alternatives at the leaves, up to order and repetition of their references. */
  function LeafGroups(t: Folding): set<Derivation>
    requires AllSingle(t)
  {
    match t
    case Leaf(c) => {NormalGroup(c.alternatives[0])}
    case Node(l, r) => LeafGroups(l) + LeafGroups(r)
  }

  function AssertionsOf(s: set<Derivation>): set<RecordRef> {
    set g, r | g in s && r in g.premises :: r
  }

  function NodesOf(s: set<Derivation>): set<RecordRef> {
    set g, r | g in s && r in g.nodePremises :: r
  }

  function SnapshotsOf(s: set<Derivation>): set<GraphRef> {
    set g, r | g in s && r in g.snapshotPremises :: r
  }

  function InputsOfAll(s: set<Derivation>): set<Json> {
    set g, v | g in s && v in InputSet(g) :: v
  }

  /** All gates and all inputs of several alternatives, as one conjunction. */
  function Bundle(enc: Encoding, s: set<Derivation>): Derivation
    requires enc.Valid()
  {
    MakeGroup(AND, RefSet(Records(AssertionsOf(s)), Records(NodesOf(s)), Snapshots(SnapshotsOf(s))),
              Arr(InputList(enc, InputsOfAll(s))))
  }

  /** One alternative stays as it is; several become one conjunction. */
  ghost predicate IsJoint(enc: Encoding, s: set<Derivation>, p: Derivation)
    requires enc.Valid()
  {
    s != {} && p == NormalGroup(p) && (s == {p} || ((forall g :: s != {g}) && p == Bundle(enc, s)))
  }

  lemma SingletonContents(g: Derivation)
    ensures AssertionsOf({g}) == Elements(g.premises) && NodesOf({g}) == Elements(g.nodePremises)
    ensures SnapshotsOf({g}) == Elements(g.snapshotPremises) && InputsOfAll({g}) == InputSet(g)
  {
    hide InputSet;
    assert g in {g};
  }

  lemma BundleContents(enc: Encoding, s: set<Derivation>)
    requires enc.Valid()
    ensures
      var p := Bundle(enc, s);
      && Elements(p.premises) == AssertionsOf(s) && Elements(p.nodePremises) == NodesOf(s)
      && Elements(p.snapshotPremises) == SnapshotsOf(s) && InputSet(p) == InputsOfAll(s)
      && NormalGroup(p) == p
  {
    hide AssertionsOf, NodesOf, SnapshotsOf, InputsOfAll;
  }

  /** What an alternative contributes to a conjunction is what its parts contribute. */
  lemma JointContents(enc: Encoding, s: set<Derivation>, p: Derivation)
    requires enc.Valid() && IsJoint(enc, s, p)
    ensures Elements(p.premises) == AssertionsOf(s) && Elements(p.nodePremises) == NodesOf(s)
    ensures Elements(p.snapshotPremises) == SnapshotsOf(s) && InputSet(p) == InputsOfAll(s)
  {
    hide AssertionsOf, NodesOf, SnapshotsOf, InputsOfAll, InputSet, Bundle;
    if s == {p} { SingletonContents(p); } else { BundleContents(enc, s); }
  }

  lemma UnionContents(s: set<Derivation>, t: set<Derivation>)
    ensures AssertionsOf(s + t) == AssertionsOf(s) + AssertionsOf(t)
    ensures NodesOf(s + t) == NodesOf(s) + NodesOf(t)
    ensures SnapshotsOf(s + t) == SnapshotsOf(s) + SnapshotsOf(t)
    ensures InputsOfAll(s + t) == InputsOfAll(s) + InputsOfAll(t)
  {
    hide InputSet;
  }

  lemma AndIsBundle(enc: Encoding, s: set<Derivation>, p: Derivation, t: set<Derivation>, q: Derivation)
    requires enc.Valid() && IsJoint(enc, s, p) && IsJoint(enc, t, q)
    ensures And(enc, p, q) == Bundle(enc, s + t)
  {
    JointContents(enc, s, p);
    JointContents(enc, t, q);
    UnionContents(s, t);
    ElementsConcat(p.premises, q.premises);
    ElementsConcat(p.nodePremises, q.nodePremises);
    ElementsConcat(p.snapshotPremises, q.snapshotPremises);
    ElementsConcat(InputsOf(p), InputsOf(q));
    hide AssertionsOf, NodesOf, SnapshotsOf, InputsOfAll, InputsOf, IsJoint;
  }

  lemma SameContentsSameBundle(enc: Encoding, s: set<Derivation>, t: set<Derivation>, p: Derivation)
    requires enc.Valid() && IsJoint(enc, s, p) && IsJoint(enc, t, p)
    ensures Bundle(enc, s + t) == Bundle(enc, s) == Bundle(enc, t)
  {
    hide AssertionsOf, NodesOf, SnapshotsOf, InputsOfAll, IsJoint, Bundle, InputSet;
    JointContents(enc, s, p);
    JointContents(enc, t, p);
    UnionContents(s, t);
    BundleCongruent(enc, s, t);
    BundleCongruent(enc, s, s + t);
  }

  lemma BundleCongruent(enc: Encoding, s: set<Derivation>, t: set<Derivation>)
    requires enc.Valid() && AssertionsOf(s) == AssertionsOf(t) && NodesOf(s) == NodesOf(t)
    requires SnapshotsOf(s) == SnapshotsOf(t) && InputsOfAll(s) == InputsOfAll(t)
    ensures Bundle(enc, s) == Bundle(enc, t)
  {
    hide AssertionsOf, NodesOf, SnapshotsOf, InputsOfAll;
  }

  /** Joining two joints, with the early exit for equal sides, is the joint of the union. */
  lemma JoinJoints(enc: Encoding, s: set<Derivation>, p: Derivation, t: set<Derivation>, q: Derivation)
    requires enc.Valid() && IsJoint(enc, s, p) && IsJoint(enc, t, q)
    ensures IsJoint(enc, s + t, if p == q then p else And(enc, p, q))
  {
    hide Bundle, And, NormalGroup;
    AndIsBundle(enc, s, p, t, q);
    BundleContents(enc, s + t);
    if p == q { SameContentsSameBundle(enc, s, t, p); }
    forall g | s + t == {g} ensures s == {g} == t {
      assert s <= {g} && t <= {g};
      assert g in s && g in t by {
        var x :| x in s;
        var y :| y in t;
        assert x in s + t && y in s + t;
      }
    }
    if s == {p} && t == {p} { assert s + t == {p}; }
  }

  lemma SingleList(enc: Encoding, g: Derivation)
    requires enc.Valid() && NormalGroup(g) == g
    ensures Groups(enc, {g}) == [g] && Groups(enc, NormalGroups([g])) == [g]
  {
    var q := Groups(enc, {g});
    assert |q| == 1 && q[0] in Elements(q);
    assert NormalGroups([g]) == {g};
  }

  lemma CombineNoRefs()
    ensures CombineRefs(NO_REFS, NO_REFS) == NO_REFS
  {
    NormalNoRefs();
    assert Joined(NO_REFS, NO_REFS) == NO_REFS;
  }

  lemma ConjoinSingles(enc: Encoding, p: Derivation, q: Derivation)
    requires enc.Valid() && NormalGroup(p) == p && NormalGroup(q) == q && NormalGroup(And(enc, p, q)) == And(enc, p, q)
    ensures Conjoin(enc, Carrier(NO_REFS, [p]), Carrier(NO_REFS, [q]))
         == Carrier(NO_REFS, [if p == q then p else And(enc, p, q)])
  {
    hide NormalGroup, NormalGroups, NormalRefs, CombineRefs, And;
    NormalNoRefs();
    CombineNoRefs();
    SingleList(enc, p);
    SingleList(enc, q);
    SingleList(enc, And(enc, p, q));
    assert Products(enc, [p], [q]) == [And(enc, p, q)] by {
      assert [p][..0] == [] && AndRow(enc, p, [q]) == [And(enc, p, q)];
      assert Products(enc, [], [q]) == [];
    }
  }

  /** Every fold of conjunctions gives the joint of its leaves. */
  lemma {:induction false} FoldIsJoint(enc: Encoding, t: Folding) returns (p: Derivation)
    requires enc.Valid() && AllSingle(t)
    ensures Fold(enc, t) == Carrier(NO_REFS, [p]) && IsJoint(enc, LeafGroups(t), p)
  {
    match t
    case Leaf(c) =>
      var g := c.alternatives[0];
      p := NormalGroup(g);
      NormalGroupFixed(g);
      NormalNoRefs();
      SingleList(enc, p);
      assert c.alternatives == [g];
      assert NormalGroups([g]) == {p};
    case Node(l, r) =>
      hide Conjoin, IsJoint, And, Canonical, NormalGroup;
      var x := FoldIsJoint(enc, l);
      var y := FoldIsJoint(enc, r);
      JoinJoints(enc, LeafGroups(l), x, LeafGroups(r), y);
      p := if x == y then x else And(enc, x, y);
      JointNormal(enc, LeafGroups(l), x);
      JointNormal(enc, LeafGroups(r), y);
      JointNormal(enc, LeafGroups(t), p);
      AndIsBundle(enc, LeafGroups(l), x, LeafGroups(r), y);
      BundleContents(enc, LeafGroups(l) + LeafGroups(r));
      ConjoinSingles(enc, x, y);
  }

  lemma JointNormal(enc: Encoding, s: set<Derivation>, p: Derivation)
    requires enc.Valid() && IsJoint(enc, s, p)
    ensures NormalGroup(p) == p
  {
  }

  lemma JointUnique(enc: Encoding, s: set<Derivation>, p: Derivation, q: Derivation)
    requires enc.Valid() && IsJoint(enc, s, p) && IsJoint(enc, s, q)
    ensures p == q
  {
    hide Bundle, NormalGroup;
    if s == {p} { assert p in s; }
    if s == {q} { assert q in s; }
  }

  /** Over carriers with one alternative and no flat gate, the explanation depends only on
      which alternatives are conjoined: not on their order, bracketing or repetition. */
  lemma FoldsAgree(enc: Encoding, t: Folding, u: Folding)
    requires enc.Valid() && AllSingle(t) && AllSingle(u) && LeafGroups(t) == LeafGroups(u)
    ensures Fold(enc, t) == Fold(enc, u)
  {
    hide IsJoint, Fold, LeafGroups;
    var p := FoldIsJoint(enc, t);
    var q := FoldIsJoint(enc, u);
    JointUnique(enc, LeafGroups(t), p, q);
  }

  lemma ConjoinCanonical(enc: Encoding, a: Carrier, b: Carrier)
    requires enc.Valid()
    ensures Conjoin(enc, Canonical(enc, a), Canonical(enc, b)) == Conjoin(enc, a, b)
    ensures Conjoin(enc, Canonical(enc, a), b) == Conjoin(enc, a, b) == Conjoin(enc, a, Canonical(enc, b))
  {
    hide Canonical, RawConjunction;
    CanonicalIdempotent(enc, a);
    CanonicalIdempotent(enc, b);
  }
}
