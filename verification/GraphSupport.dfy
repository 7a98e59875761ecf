/** Four-valued support, the alternatives behind an edge, and how both compose. The answer for
    a union is the information join of the answers for its two inputs, because the positive and
    the negative evidence each unite. */
module GraphSupport {
  import opened Orders
  import opened Restrictions
  import opened Carriers
  import opened CarrierCosts
  import opened GraphValues
  import U = GraphUnion
  import R = GraphRenewal

  // ----- alternatives -----

  function GraphTermKey(h: Hashing): GraphRef -> seq<string> {
    (r: GraphRef) => [h.key(GraphTerm(r))]
  }

  function GroupTermKey(h: Hashing): Derivation -> seq<string> {
    (g: Derivation) => [h.key(GroupTerm(g))]
  }

  lemma TermKeysInjective(h: Hashing)
    requires h.Valid()
    ensures Injective(GraphTermKey(h)) && Injective(GroupTermKey(h))
  {
    var key, group := GraphTermKey(h), GroupTermKey(h);
    forall x: GraphRef, y: GraphRef | key(x) == key(y) ensures x == y {
      assert key(x)[0] == key(y)[0];
      SameTerm(h, GraphTerm(x), GraphTerm(y));
    }
    forall x: Derivation, y: Derivation | group(x) == group(y) ensures x == y {
      assert group(x)[0] == group(y)[0];
      SameTerm(h, GroupTerm(x), GroupTerm(y));
    }
  }

  function UniqueGraphs(h: Hashing, refs: seq<GraphRef>): (q: seq<GraphRef>)
    requires h.Valid()
    ensures Elements(q) == Elements(refs)
  {
    TermKeysInjective(h);
    Listing(GraphTermKey(h), Elements(refs))
  }

  function UniqueGroups(h: Hashing, gs: seq<Derivation>): (q: seq<Derivation>)
    requires h.Valid()
    ensures Elements(q) == Elements(gs)
  {
    TermKeysInjective(h);
    Listing(GroupTermKey(h), Elements(gs))
  }

  lemma UniqueElements(h: Hashing, refs: seq<RecordRef>)
    requires h.Valid()
    ensures Elements(Unique(h, refs)) == Elements(refs)
  {
    OriginKeyInjective(h);
  }

  /** The snapshots behind some assertions and nodes. */
  function ProofSnapshots(h: Hashing, assertions: seq<RecordRef>, nodes: seq<RecordRef>): seq<GraphRef>
    requires h.Valid()
  {
    UniqueGraphs(h, RecordPins(assertions) + RecordPins(nodes))
  }

  const SOURCE := "weave:source"

  /** The stored alternatives of an edge, or one made of its origins. */
  function StoredAlternatives(e: Edge, origins: seq<RecordRef>): seq<Derivation> {
    if e.derivations == [] then [Derivation(SOURCE, origins, [], map[], [], [])] else e.derivations
  }

  /** The gates every alternative of the edge is under. */
  function EdgeGates(e: Edge): RefSet {
    RefSet([], e.derivedNodes, e.derivedSnapshots)
  }

  function Guarded(h: Hashing, e: Edge, g: Derivation): Derivation
    requires h.Valid()
  {
    var gates := CombineRefs(Gates(g), EdgeGates(e));
    var proofs := ProofSnapshots(h, g.premises, gates.nodes);
    g.(nodePremises := gates.nodes, snapshotPremises := gates.snapshots,
       inputSnapshots := if gates.snapshots == [] then proofs
                         else UniqueGraphs(h, g.inputSnapshots + proofs + gates.snapshots))
  }

  function AlternativesOf(h: Hashing, e: Edge, origins: seq<RecordRef>): seq<Derivation>
    requires h.Valid()
  {
    var gs := StoredAlternatives(e, origins);
    seq(|gs|, i requires 0 <= i < |gs| => Guarded(h, e, gs[i]))
  }

  /** Reference lists `merge` accepts: each valid, and together at most a thousand. */
  predicate Mergeable(a: RefSet, b: RefSet) {
    && RefsCount(a) <= MAX_REFS && GoodIds(a) && RefsCount(b) <= MAX_REFS && GoodIds(b)
    && RefsCount(CombineRefs(a, b)) <= MAX_REFS
  }

  predicate AlternativesFit(e: Edge, origins: seq<RecordRef>) {
    var gs := StoredAlternatives(e, origins);
    forall i | 0 <= i < |gs| :: Mergeable(Gates(gs[i]), EdgeGates(e))
  }

  /** `edge_alternatives`: every alternative under the edge's own gates. */
  method EdgeAlternatives(h: Hashing, e: Edge, origins: seq<RecordRef>) returns (ok: bool, out: seq<Derivation>)
    requires h.Valid()
    ensures ok <==> AlternativesFit(e, origins)
    ensures ok ==> out == AlternativesOf(h, e, origins)
  {
    hide Mergeable, Guarded;
    var gs := StoredAlternatives(e, origins);
    out := [];
    for i := 0 to |gs|
      invariant |out| == i && forall j | 0 <= j < i :: out[j] == Guarded(h, e, gs[j])
      invariant forall j | 0 <= j < i :: Mergeable(Gates(gs[j]), EdgeGates(e))
    {
      if !Mergeable(Gates(gs[i]), EdgeGates(e)) { return false, []; }
      out := out + [Guarded(h, e, gs[i])];
    }
    ok := true;
  }

  lemma GuardedGranted(h: Hashing, e: Edge, g: Derivation, auth: Authority)
    requires h.Valid()
    ensures Granted(Gates(Guarded(h, e, g)), auth) <==> Granted(Gates(g), auth) && Granted(EdgeGates(e), auth)
  {
    CombineGranted(Gates(g), EdgeGates(e), auth);
    NormalRefsExactly(Joined(Gates(g), EdgeGates(e)), Joined(Gates(g), EdgeGates(e)));
    assert Joined(Gates(g), EdgeGates(e)).assertions == g.premises;
    hide UniqueGraphs, ProofSnapshots, NormalRefs;
  }

  /** An edge holds when one of its alternatives does and its own gates do. */
  lemma AlternativesGranted(h: Hashing, e: Edge, origins: seq<RecordRef>, auth: Authority)
    requires h.Valid()
    ensures AnyGranted(AlternativesOf(h, e, origins), auth) <==>
            AnyGranted(StoredAlternatives(e, origins), auth) && Granted(EdgeGates(e), auth)
    ensures AlternativesOf(h, e, origins) != []
  {
    hide Guarded, Granted;
    var gs, out := StoredAlternatives(e, origins), AlternativesOf(h, e, origins);
    forall i | 0 <= i < |gs|
      ensures Granted(Gates(out[i]), auth) <==> Granted(Gates(gs[i]), auth) && Granted(EdgeGates(e), auth)
    {
      GuardedGranted(h, e, gs[i], auth);
    }
    if AnyGranted(gs, auth) && Granted(EdgeGates(e), auth) {
      var g :| g in gs && Granted(Gates(g), auth);
      var i :| 0 <= i < |gs| && gs[i] == g;
      assert out[i] in out;
    }
    if AnyGranted(out, auth) {
      var d :| d in out && Granted(Gates(d), auth);
      var i :| 0 <= i < |out| && out[i] == d;
      assert gs[i] in gs;
    }
  }

  /** An alternative under the gates of its edge, over the fields: it keeps its premises and explanation,
      rests also on the nodes and snapshots of the edge, and describes the snapshots its assertions and
      nodes are in; and those it described or names, when it names any. */
  lemma GuardedExactly(h: Hashing, e: Edge, g: Derivation)
    requires h.Valid()
    ensures
      var d := Guarded(h, e, g);
      && d.operator == g.operator && d.parameters == g.parameters && d.premises == g.premises
      && Elements(d.nodePremises) == Elements(g.nodePremises) + Elements(e.derivedNodes)
      && Elements(d.snapshotPremises) == Elements(g.snapshotPremises) + Elements(e.derivedSnapshots)
      && Elements(d.inputSnapshots)
         == Homes(g.premises) + Homes(d.nodePremises)
          + (if g.snapshotPremises == [] && e.derivedSnapshots == [] then {}
             else Elements(g.inputSnapshots) + Elements(d.snapshotPremises))
  {
    GuardedGates(e, g);
    GuardedInputs(h, e, g);
    hide *;
    GuardedIs(h, e, g);
  }

  /** The snapshots a guarded alternative describes. */
  lemma GuardedInputs(h: Hashing, e: Edge, g: Derivation)
    requires h.Valid()
    ensures
      var (d, gates) := (Guarded(h, e, g), CombineRefs(Gates(g), EdgeGates(e)));
      Elements(d.inputSnapshots)
      == Homes(g.premises) + Homes(gates.nodes)
       + (if g.snapshotPremises == [] && e.derivedSnapshots == [] then {}
          else Elements(g.inputSnapshots) + Elements(gates.snapshots))
  {
    var gates := CombineRefs(Gates(g), EdgeGates(e));
    GuardedGates(e, g);
    GuardedPins(h, g, gates);
    NoneListed(gates.snapshots);
    NoneListed(g.snapshotPremises);
    NoneListed(e.derivedSnapshots);
    SetSums(Elements(g.inputSnapshots), Homes(g.premises) + Homes(gates.nodes), Elements(gates.snapshots));
    hide *;
    GuardedIs(h, e, g);
  }

  lemma SetSums<T>(a: set<T>, b: set<T>, c: set<T>)
    ensures b + {} == b && a + b + c == b + (a + c)
  {
  }

  lemma GuardedIs(h: Hashing, e: Edge, g: Derivation)
    requires h.Valid()
    ensures
      var (d, gates) := (Guarded(h, e, g), CombineRefs(Gates(g), EdgeGates(e)));
      var proofs := ProofSnapshots(h, g.premises, gates.nodes);
      && d.operator == g.operator && d.parameters == g.parameters && d.premises == g.premises
      && d.nodePremises == gates.nodes && d.snapshotPremises == gates.snapshots
      && d.inputSnapshots == if gates.snapshots == [] then proofs
                             else UniqueGraphs(h, g.inputSnapshots + proofs + gates.snapshots)
  {
    hide CombineRefs, ProofSnapshots, UniqueGraphs;
  }

  lemma GuardedGates(e: Edge, g: Derivation)
    ensures
      var gates := CombineRefs(Gates(g), EdgeGates(e));
      && Elements(gates.nodes) == Elements(g.nodePremises) + Elements(e.derivedNodes)
      && Elements(gates.snapshots) == Elements(g.snapshotPremises) + Elements(e.derivedSnapshots)
  {
    NormalRefsExactly(Joined(Gates(g), EdgeGates(e)), Joined(Gates(g), EdgeGates(e)));
    hide NormalRefs;
    ElementsConcat(g.nodePremises, e.derivedNodes);
    ElementsConcat(g.snapshotPremises, e.derivedSnapshots);
  }

  lemma GuardedPins(h: Hashing, g: Derivation, gates: RefSet)
    requires h.Valid()
    ensures
      var proofs := ProofSnapshots(h, g.premises, gates.nodes);
      && Elements(proofs) == Homes(g.premises) + Homes(gates.nodes)
      && Elements(UniqueGraphs(h, g.inputSnapshots + proofs + gates.snapshots))
         == Elements(g.inputSnapshots) + Elements(proofs) + Elements(gates.snapshots)
  {
    PinsListed(g.premises);
    PinsListed(gates.nodes);
    ElementsConcat(RecordPins(g.premises), RecordPins(gates.nodes));
    var proofs := ProofSnapshots(h, g.premises, gates.nodes);
    ElementsConcat(g.inputSnapshots, proofs);
    ElementsConcat(g.inputSnapshots + proofs, gates.snapshots);
    hide RecordPins;
  }

  lemma NoneListed<T>(q: seq<T>)
    ensures q == [] <==> Elements(q) == {}
  {
    if q != [] { assert q[0] in Elements(q); }
  }

  // ----- joint derivations -----

  /** The derivation that rests on several parents at once. */
  function JointOf(h: Hashing, operator: string, parameters: map<string, Json>, parents: seq<Derivation>): Derivation
    requires h.Valid()
  {
    var premises, nodes := Unique(h, AllPremises(parents)), Unique(h, AllNodes(parents));
    var snapshots := UniqueGraphs(h, AllSnapshots(parents));
    Derivation(operator, premises, nodes, parameters["inputs" := Arr(GroupsJson(parents))],
               UniqueGraphs(h, ProofSnapshots(h, premises, nodes) + snapshots), snapshots)
  }

  function AllPremises(gs: seq<Derivation>): seq<RecordRef> {
    if gs == [] then [] else AllPremises(gs[..|gs| - 1]) + gs[|gs| - 1].premises
  }

  function AllNodes(gs: seq<Derivation>): seq<RecordRef> {
    if gs == [] then [] else AllNodes(gs[..|gs| - 1]) + gs[|gs| - 1].nodePremises
  }

  function AllSnapshots(gs: seq<Derivation>): seq<GraphRef> {
    if gs == [] then [] else AllSnapshots(gs[..|gs| - 1]) + gs[|gs| - 1].snapshotPremises
  }

  function GroupsJson(gs: seq<Derivation>): seq<Json> {
    seq(|gs|, i requires 0 <= i < |gs| => GroupJson(gs[i]))
  }

  lemma {:induction false} ParentsGranted(parents: seq<Derivation>, auth: Authority)
    ensures Granted(RefSet(AllPremises(parents), AllNodes(parents), AllSnapshots(parents)), auth) <==>
            forall g | g in parents :: Granted(Gates(g), auth)
  {
    if parents != [] {
      var rest, g := parents[..|parents| - 1], parents[|parents| - 1];
      ParentsGranted(rest, auth);
      assert parents == rest + [g];
      ElementsConcat(AllPremises(rest), g.premises);
      ElementsConcat(AllNodes(rest), g.nodePremises);
      ElementsConcat(AllSnapshots(rest), g.snapshotPremises);
      var some := RefSet(AllPremises(rest), AllNodes(rest), AllSnapshots(rest));
      var all := RefSet(AllPremises(parents), AllNodes(parents), AllSnapshots(parents));
      assert Granted(all, auth) <==> Granted(some, auth) && Granted(Gates(g), auth);
      hide Granted;
      assert g in parents && forall x | x in rest :: x in parents;
      assert forall x | x in parents :: x == g || x in rest;
    }
  }

  /** A joint derivation holds exactly when all its parents do. */
  lemma JointGranted(h: Hashing, operator: string, parameters: map<string, Json>, parents: seq<Derivation>,
                     auth: Authority)
    requires h.Valid()
    ensures Granted(Gates(JointOf(h, operator, parameters, parents)), auth) <==>
            forall g | g in parents :: Granted(Gates(g), auth)
  {
    UniqueElements(h, AllPremises(parents));
    UniqueElements(h, AllNodes(parents));
    ParentsGranted(parents, auth);
    hide Unique, ProofSnapshots, GroupsJson, AllPremises, AllNodes, AllSnapshots;
  }

  /** What a joint derivation of two parents is, over the fields: it rests on what either rests on, describes
      the snapshots that is in or names, and records both parents as inputs beside the parameters. */
  lemma PairExactly(h: Hashing, operator: string, parameters: map<string, Json>, l: Derivation, r: Derivation)
    requires h.Valid()
    ensures
      var d := PairOf(h, operator, parameters, l, r);
      && d.operator == operator && d.parameters == parameters["inputs" := Arr([GroupJson(l), GroupJson(r)])]
      && Elements(d.premises) == Elements(l.premises) + Elements(r.premises)
      && Elements(d.nodePremises) == Elements(l.nodePremises) + Elements(r.nodePremises)
      && Elements(d.snapshotPremises) == Elements(l.snapshotPremises) + Elements(r.snapshotPremises)
      && Elements(d.inputSnapshots)
         == Homes(d.premises) + Homes(d.nodePremises) + Elements(d.snapshotPremises)
  {
    var gs := [l, r];
    JointExactly(h, operator, parameters, gs);
    PairPremises(l, r);
    PairInputs(l, r);
    hide *;
    ElementsConcat(l.premises, r.premises);
    ElementsConcat(l.nodePremises, r.nodePremises);
    ElementsConcat(l.snapshotPremises, r.snapshotPremises);
    PairIsJoint(h, operator, parameters, l, r);
  }

  lemma PairIsJoint(h: Hashing, operator: string, parameters: map<string, Json>, l: Derivation, r: Derivation)
    requires h.Valid()
    ensures PairOf(h, operator, parameters, l, r) == JointOf(h, operator, parameters, [l, r])
  {
    hide JointOf;
  }

  lemma PairInputs(l: Derivation, r: Derivation)
    ensures GroupsJson([l, r]) == [GroupJson(l), GroupJson(r)]
  {
    hide GroupJson;
  }

  /** A joint derivation over the fields. */
  lemma JointExactly(h: Hashing, operator: string, parameters: map<string, Json>, gs: seq<Derivation>)
    requires h.Valid()
    ensures
      var d := JointOf(h, operator, parameters, gs);
      && d.operator == operator && d.parameters == parameters["inputs" := Arr(GroupsJson(gs))]
      && Elements(d.premises) == Elements(AllPremises(gs)) && Elements(d.nodePremises) == Elements(AllNodes(gs))
      && Elements(d.snapshotPremises) == Elements(AllSnapshots(gs))
      && Elements(d.inputSnapshots)
         == Homes(d.premises) + Homes(d.nodePremises) + Elements(d.snapshotPremises)
  {
    var d := JointOf(h, operator, parameters, gs);
    UniqueElements(h, AllPremises(gs));
    UniqueElements(h, AllNodes(gs));
    PinsListed(d.premises);
    PinsListed(d.nodePremises);
    ElementsConcat(RecordPins(d.premises), RecordPins(d.nodePremises));
    ElementsConcat(ProofSnapshots(h, d.premises, d.nodePremises), UniqueGraphs(h, AllSnapshots(gs)));
    hide Unique, UniqueGraphs, AllPremises, AllNodes, AllSnapshots, RecordPins, GroupsJson;
  }

  lemma PairPremises(l: Derivation, r: Derivation)
    ensures AllPremises([l, r]) == l.premises + r.premises && AllNodes([l, r]) == l.nodePremises + r.nodePremises
    ensures AllSnapshots([l, r]) == l.snapshotPremises + r.snapshotPremises
  {
    var both, one: seq<Derivation> := [l, r], [l];
    assert both[..1] == one && one[..0] == [];
    assert [] + l.premises == l.premises && [] + l.nodePremises == l.nodePremises && [] + l.snapshotPremises == l.snapshotPremises;
    PremisesStep(both);
    PremisesStep(one);
    PremisesNone();
    hide AllPremises, AllNodes, AllSnapshots;
  }

  lemma PremisesNone()
    ensures AllPremises([]) == [] && AllNodes([]) == [] && AllSnapshots([]) == []
  {
  }

  lemma PremisesStep(gs: seq<Derivation>)
    requires gs != []
    ensures
      var rest, g := gs[..|gs| - 1], gs[|gs| - 1];
      && AllPremises(gs) == AllPremises(rest) + g.premises && AllNodes(gs) == AllNodes(rest) + g.nodePremises
      && AllSnapshots(gs) == AllSnapshots(rest) + g.snapshotPremises
  {
  }

  function PairOf(h: Hashing, operator: string, parameters: map<string, Json>, l: Derivation, r: Derivation): Derivation
    requires h.Valid()
  {
    JointOf(h, operator, parameters, [l, r])
  }

  function PairRow(h: Hashing, operator: string, parameters: map<string, Json>, l: Derivation, rs: seq<Derivation>)
      : seq<Derivation>
    requires h.Valid()
  {
    seq(|rs|, j requires 0 <= j < |rs| => PairOf(h, operator, parameters, l, rs[j]))
  }

  /** Every left parent with every right parent. */
  function Pairings(h: Hashing, operator: string, parameters: map<string, Json>, ls: seq<Derivation>,
                    rs: seq<Derivation>): seq<Derivation>
    requires h.Valid()
  {
    if ls == [] then []
    else Pairings(h, operator, parameters, ls[..|ls| - 1], rs) + PairRow(h, operator, parameters, ls[|ls| - 1], rs)
  }

  lemma {:induction false} PairingsContain(h: Hashing, operator: string, parameters: map<string, Json>,
                                           ls: seq<Derivation>, rs: seq<Derivation>, d: Derivation)
    requires h.Valid()
    ensures d in Pairings(h, operator, parameters, ls, rs) <==>
            exists l, r :: l in ls && r in rs && d == PairOf(h, operator, parameters, l, r)
  {
    hide PairOf;
    if ls != [] {
      var rest, last := ls[..|ls| - 1], ls[|ls| - 1];
      assert ls == rest + [last];
      PairingsContain(h, operator, parameters, rest, rs, d);
      assert d in PairRow(h, operator, parameters, last, rs) <==>
             exists r :: r in rs && d == PairOf(h, operator, parameters, last, r) by {
        if r :| r in rs && d == PairOf(h, operator, parameters, last, r) {
          var j :| 0 <= j < |rs| && rs[j] == r;
          assert PairRow(h, operator, parameters, last, rs)[j] == d;
        }
      }
    }
  }

  lemma PairGranted(h: Hashing, operator: string, parameters: map<string, Json>, l: Derivation, r: Derivation,
                    auth: Authority)
    requires h.Valid()
    ensures Granted(Gates(PairOf(h, operator, parameters, l, r)), auth) <==>
            Granted(Gates(l), auth) && Granted(Gates(r), auth)
  {
    JointGranted(h, operator, parameters, [l, r], auth);
    hide Granted, JointOf;
    assert l in [l, r] && r in [l, r];
  }

  /** Pairing two lists of alternatives means both: one of each holds. */
  lemma PairingsGranted(h: Hashing, operator: string, parameters: map<string, Json>, ls: seq<Derivation>,
                        rs: seq<Derivation>, auth: Authority)
    requires h.Valid()
    ensures AnyGranted(Pairings(h, operator, parameters, ls, rs), auth) <==>
            AnyGranted(ls, auth) && AnyGranted(rs, auth)
  {
    hide PairOf, Granted, Pairings;
    if AnyGranted(Pairings(h, operator, parameters, ls, rs), auth) {
      var d :| d in Pairings(h, operator, parameters, ls, rs) && Granted(Gates(d), auth);
      PairingsContain(h, operator, parameters, ls, rs, d);
      var l, r :| l in ls && r in rs && d == PairOf(h, operator, parameters, l, r);
      PairGranted(h, operator, parameters, l, r, auth);
    }
    if AnyGranted(ls, auth) && AnyGranted(rs, auth) {
      var l :| l in ls && Granted(Gates(l), auth);
      var r :| r in rs && Granted(Gates(r), auth);
      PairGranted(h, operator, parameters, l, r, auth);
      PairingsContain(h, operator, parameters, ls, rs, PairOf(h, operator, parameters, l, r));
    }
  }

  const MAX_ALTERNATIVES := 128

  function Cap(objects: nat): nat {
    if objects < MAX_ALTERNATIVES then objects else MAX_ALTERNATIVES
  }

  predicate ValidPair(h: Hashing, l: Derivation, r: Derivation)
    requires h.Valid()
  {
    var d := PairOf(h, "", map[], l, r);
    RefsCount(Gates(d)) <= MAX_REFS && GoodIds(Gates(d))
  }

  predicate AllValidPairs(h: Hashing, ls: seq<Derivation>, rs: seq<Derivation>)
    requires h.Valid()
  {
    forall i, j | 0 <= i < |ls| && 0 <= j < |rs| :: ValidPair(h, ls[i], rs[j])
  }

  /** Every left with every right, refusing one that rests on too much. */
  method PairUp(h: Hashing, operator: string, parameters: map<string, Json>, ls: seq<Derivation>, rs: seq<Derivation>)
      returns (ok: bool, out: seq<Derivation>)
    requires h.Valid()
    ensures ok <==> AllValidPairs(h, ls, rs)
    ensures ok ==> out == Pairings(h, operator, parameters, ls, rs)
  {
    hide ValidPair, PairOf;
    out := [];
    assert ls[..0] == [] && ls[..|ls|] == ls;
    for i := 0 to |ls|
      invariant out == Pairings(h, operator, parameters, ls[..i], rs)
      invariant forall a, j | 0 <= a < i && 0 <= j < |rs| :: ValidPair(h, ls[a], rs[j])
    {
      assert ls[..i + 1][..i] == ls[..i];
      var row: seq<Derivation> := [];
      for j := 0 to |rs|
        invariant |row| == j && forall b | 0 <= b < j :: row[b] == PairOf(h, operator, parameters, ls[i], rs[b])
        invariant forall b | 0 <= b < j :: ValidPair(h, ls[i], rs[b])
      {
        if !ValidPair(h, ls[i], rs[j]) { return false, []; }
        row := row + [PairOf(h, operator, parameters, ls[i], rs[j])];
      }
      assert row == PairRow(h, operator, parameters, ls[i], rs);
      out := out + row;
    }
    ok := true;
  }

  predicate CombineFits(h: Hashing, objects: nat, left: Edge, leftOrigins: seq<RecordRef>, right: Edge,
                        rightOrigins: seq<RecordRef>)
    requires h.Valid()
  {
    var ls, rs := AlternativesOf(h, left, leftOrigins), AlternativesOf(h, right, rightOrigins);
    && AlternativesFit(left, leftOrigins) && AlternativesFit(right, rightOrigins)
    && Area(|ls|, |rs|) <= Cap(objects) && AllValidPairs(h, ls, rs)
  }

  /** `combine_derivations`: the alternatives of a conclusion from two edges. */
  method CombineDerivations(h: Hashing, objects: nat, left: Edge, leftOrigins: seq<RecordRef>, right: Edge,
                            rightOrigins: seq<RecordRef>, operator: string, parameters: map<string, Json>)
      returns (ok: bool, out: seq<Derivation>)
    requires h.Valid()
    ensures ok <==> CombineFits(h, objects, left, leftOrigins, right, rightOrigins)
    ensures ok ==> out == UniqueGroups(h, Pairings(h, operator, parameters, AlternativesOf(h, left, leftOrigins),
                                                   AlternativesOf(h, right, rightOrigins)))
  {
    hide AlternativesFit, AlternativesOf, AllValidPairs, Pairings, UniqueGroups, Area;
    var fits, ls := EdgeAlternatives(h, left, leftOrigins);
    if !fits { return false, []; }
    var rs;
    fits, rs := EdgeAlternatives(h, right, rightOrigins);
    if !fits { return false, []; }
    if Area(|ls|, |rs|) > Cap(objects) { return false, []; }
    ok, out := PairUp(h, operator, parameters, ls, rs);
    if ok { out := UniqueGroups(h, out); }
  }

  /** The combined alternatives hold exactly when both edges do. */
  lemma CombineGrantedBoth(h: Hashing, operator: string, parameters: map<string, Json>, left: Edge,
                           leftOrigins: seq<RecordRef>, right: Edge, rightOrigins: seq<RecordRef>, auth: Authority)
    requires h.Valid()
    ensures AnyGranted(UniqueGroups(h, Pairings(h, operator, parameters, AlternativesOf(h, left, leftOrigins),
                                                AlternativesOf(h, right, rightOrigins))), auth)
       <==> && AnyGranted(StoredAlternatives(left, leftOrigins), auth) && Granted(EdgeGates(left), auth)
            && AnyGranted(StoredAlternatives(right, rightOrigins), auth) && Granted(EdgeGates(right), auth)
  {
    hide AlternativesOf, Pairings, UniqueGroups, Granted, StoredAlternatives, EdgeGates;
    var ls, rs := AlternativesOf(h, left, leftOrigins), AlternativesOf(h, right, rightOrigins);
    var ps := Pairings(h, operator, parameters, ls, rs);
    var us := UniqueGroups(h, ps);
    assert forall d :: d in us <==> d in Elements(us);
    assert forall d :: d in ps <==> d in Elements(ps);
    assert AnyGranted(us, auth) <==> AnyGranted(ps, auth);
    PairingsGranted(h, operator, parameters, ls, rs, auth);
    AlternativesGranted(h, left, leftOrigins, auth);
    AlternativesGranted(h, right, rightOrigins, auth);
  }

  // ----- four-valued support -----

  datatype Truth = Unknown | Supported | Refuted | Conflicted

  function TruthOf(positive: bool, negative: bool): Truth {
    if positive && negative then Conflicted
    else if positive then Supported
    else if negative then Refuted
    else Unknown
  }

  /** The information order: nothing known below either answer, both answers below conflict. */
  predicate Below(s: Truth, t: Truth) {
    s == t || s.Unknown? || t.Conflicted?
  }

  function Join(s: Truth, t: Truth): Truth {
    if s == t || t.Unknown? then s else if s.Unknown? then t else Conflicted
  }

  /** Joining is taking the least upper bound in the information order. */
  lemma JoinIsLeast(s: Truth, t: Truth, u: Truth)
    ensures Below(s, Join(s, t)) && Below(t, Join(s, t))
    ensures Below(s, u) && Below(t, u) ==> Below(Join(s, t), u)
  {
  }

  datatype Place = Place(entity: string, space: string)

  /** What is asked; `consumable` is the context check, `describe` the parameters recorded with
      the answer. */
  datatype Query = Query(relation: string, from: Place, to: Place, at: int, consumable: Edge -> bool,
                         describe: Truth -> map<string, Json>)

  function Find(x: Value, id: string): Option<Node> {
    LastNode(x.nodes, |x.nodes|, id)
  }

  predicate At(n: Option<Node>, place: Place) {
    n.Some? && n.value.entity == place.entity && n.value.space == place.space
  }

  predicate Asked(q: Query, e: Edge) {
    e.relation == q.relation && e.validTime.Contains(q.at)
  }

  /** The edge bears on the question. */
  predicate Bears(x: Value, q: Query, e: Edge) {
    Asked(q, e) && At(Find(x, e.from), q.from) && At(Find(x, e.to), q.to)
  }

  predicate BearsAs(x: Value, q: Query, e: Edge, polarity: Polarity) {
    Bears(x, q, e) && e.polarity == polarity
  }

  ghost predicate Evidence(x: Value, q: Query, polarity: Polarity) {
    exists e | e in x.edges :: BearsAs(x, q, e, polarity)
  }

  /** Support in a value: what its bearing edges say, with nothing concluded from absence. */
  ghost function SupportIn(x: Value, q: Query): Truth {
    TruthOf(Evidence(x, q, Positive), Evidence(x, q, Negative))
  }

  function EdgeOrigins(x: Value, e: Edge): seq<RecordRef> {
    OriginsOf(x.edgeOrigins, e.id)
  }

  /** The alternatives of the first `k` edges that bear with one polarity. */
  function Collected(h: Hashing, x: Value, q: Query, polarity: Polarity, k: nat): seq<Derivation>
    requires h.Valid() && k <= |x.edges|
  {
    if k == 0 then [] else
      Collected(h, x, q, polarity, k - 1) +
      if BearsAs(x, q, x.edges[k - 1], polarity)
      then AlternativesOf(h, x.edges[k - 1], EdgeOrigins(x, x.edges[k - 1])) else []
  }

  function Alternatives(h: Hashing, x: Value, q: Query, polarity: Polarity): seq<Derivation>
    requires h.Valid()
  {
    Collected(h, x, q, polarity, |x.edges|)
  }

  /** Nothing about this edge stops the answer. */
  predicate Usable(x: Value, q: Query, e: Edge) {
    Asked(q, e) ==>
      && Find(x, e.from).Some? && Find(x, e.to).Some?
      && (Bears(x, q, e) ==>
            && q.consumable(e)
            && (e.derivations != [] || EdgeOrigins(x, e) != [] || e.derivedNodes != [])
            && AlternativesFit(e, EdgeOrigins(x, e)))
  }

  function SingleOf(h: Hashing, parameters: map<string, Json>, g: Derivation): Derivation
    requires h.Valid()
  {
    JointOf(h, SUPPORT, parameters, [g])
  }

  function Singles(h: Hashing, parameters: map<string, Json>, gs: seq<Derivation>): seq<Derivation>
    requires h.Valid()
  {
    seq(|gs|, i requires 0 <= i < |gs| => SingleOf(h, parameters, gs[i]))
  }

  const SUPPORT := "weave:support"

  /** The derivations of an answer from what speaks for and against. */
  function Answers(h: Hashing, q: Query, pos: seq<Derivation>, neg: seq<Derivation>): seq<Derivation>
    requires h.Valid()
  {
    var truth := TruthOf(pos != [], neg != []);
    match truth
    case Conflicted => Pairings(h, SUPPORT, q.describe(truth), pos, neg)
    case Supported => Singles(h, q.describe(truth), pos)
    case Refuted => Singles(h, q.describe(truth), neg)
    case Unknown => []
  }

  predicate ValidSingle(h: Hashing, g: Derivation)
    requires h.Valid()
  {
    var d := SingleOf(h, map[], g);
    RefsCount(Gates(d)) <= MAX_REFS && GoodIds(Gates(d))
  }

  predicate AllValidSingles(h: Hashing, gs: seq<Derivation>)
    requires h.Valid()
  {
    forall i | 0 <= i < |gs| :: ValidSingle(h, gs[i])
  }

  /** Room for the derivations, for the node of the answer and for its evidence edge. */
  predicate RoomFor(objects: nat, count: nat) {
    count <= MAX_ALTERNATIVES && count + (if count > 0 then 2 else 1) <= objects
  }

  predicate AnswersFit(h: Hashing, objects: nat, pos: seq<Derivation>, neg: seq<Derivation>)
    requires h.Valid()
  {
    match TruthOf(pos != [], neg != [])
    case Conflicted => RoomFor(objects, Area(|pos|, |neg|)) && AllValidPairs(h, pos, neg)
    case Supported => RoomFor(objects, |pos|) && AllValidSingles(h, pos)
    case Refuted => RoomFor(objects, |neg|) && AllValidSingles(h, neg)
    case Unknown => RoomFor(objects, 0)
  }

  /** At most a thousand references, with good ids. */
  predicate ValidRefs(d: Derivation) {
    |d.premises| + |d.nodePremises| + |d.snapshotPremises| <= 1000 && GoodIds(Gates(d))
  }

  /** An answer fits exactly when it has at most 128 derivations, there is an object for each, for the node
      of the answer and for its evidence edge if there is any, and every derivation is valid. */
  lemma AnswersFitExactly(h: Hashing, q: Query, objects: nat, pos: seq<Derivation>, neg: seq<Derivation>)
    requires h.Valid()
    ensures
      var out := Answers(h, q, pos, neg);
      AnswersFit(h, objects, pos, neg) <==>
        && |out| <= 128 && |out| + 1 + (if out == [] then 0 else 1) <= objects
        && forall d | d in out :: ValidRefs(d)
  {
    var truth := TruthOf(pos != [], neg != []);
    hide AllValidPairs, AllValidSingles, Pairings, Singles, Area, ValidRefs;
    PairsValid(h, q.describe(truth), pos, neg);
    SinglesValid(h, q.describe(truth), pos);
    SinglesValid(h, q.describe(truth), neg);
    SomePairs(|pos|, |neg|);
  }

  lemma SomePairs(m: nat, n: nat)
    ensures Area(m, n) == 0 <==> m == 0 || n == 0
  {
  }

  lemma SinglesValid(h: Hashing, parameters: map<string, Json>, gs: seq<Derivation>)
    requires h.Valid()
    ensures |Singles(h, parameters, gs)| == |gs|
    ensures AllValidSingles(h, gs) <==> forall d | d in Singles(h, parameters, gs) :: ValidRefs(d)
  {
    var out := Singles(h, parameters, gs);
    hide ValidSingle, SingleOf, ValidRefs;
    forall i | 0 <= i < |gs| ensures ValidSingle(h, gs[i]) <==> ValidRefs(out[i]) { SingleValid(h, parameters, gs[i]); }
    AllValidRefs(out);
  }

  lemma AllValidRefs(ds: seq<Derivation>)
    ensures (forall d | d in ds :: ValidRefs(d)) <==> forall i | 0 <= i < |ds| :: ValidRefs(ds[i])
  {
    hide ValidRefs;
    assert forall i | 0 <= i < |ds| :: ds[i] in ds;
  }

  lemma SingleValid(h: Hashing, parameters: map<string, Json>, g: Derivation)
    requires h.Valid()
    ensures ValidSingle(h, g) <==> ValidRefs(SingleOf(h, parameters, g))
  {
    SameGates(h, SUPPORT, map[], SUPPORT, parameters, [g]);
    hide JointOf, GoodIds;
  }

  lemma PairValid(h: Hashing, parameters: map<string, Json>, l: Derivation, r: Derivation)
    requires h.Valid()
    ensures ValidPair(h, l, r) <==> ValidRefs(PairOf(h, SUPPORT, parameters, l, r))
  {
    SameGates(h, "", map[], SUPPORT, parameters, [l, r]);
    hide JointOf, GoodIds;
  }

  /** Operator and parameters of a joint derivation do not touch what it rests on. */
  lemma SameGates(h: Hashing, o: string, m: map<string, Json>, p: string, n: map<string, Json>, parents: seq<Derivation>)
    requires h.Valid()
    ensures Gates(JointOf(h, o, m, parents)) == Gates(JointOf(h, p, n, parents))
  {
    hide Unique, UniqueGraphs, ProofSnapshots, GroupsJson;
  }

  lemma {:induction false} PairingsCount(h: Hashing, operator: string, parameters: map<string, Json>, ls: seq<Derivation>,
                                         rs: seq<Derivation>)
    requires h.Valid()
    ensures |Pairings(h, operator, parameters, ls, rs)| == Area(|ls|, |rs|)
  {
    hide PairOf;
    if ls != [] { PairingsCount(h, operator, parameters, ls[..|ls| - 1], rs); }
  }

  lemma PairsValid(h: Hashing, parameters: map<string, Json>, ls: seq<Derivation>, rs: seq<Derivation>)
    requires h.Valid()
    ensures |Pairings(h, SUPPORT, parameters, ls, rs)| == Area(|ls|, |rs|)
    ensures AllValidPairs(h, ls, rs) <==>
            forall d | d in Pairings(h, SUPPORT, parameters, ls, rs) :: ValidRefs(d)
  {
    PairingsCount(h, SUPPORT, parameters, ls, rs);
    var out := Pairings(h, SUPPORT, parameters, ls, rs);
    hide ValidPair, PairOf, ValidRefs, Pairings;
    if forall d | d in out :: ValidRefs(d) {
      forall i, j | 0 <= i < |ls| && 0 <= j < |rs| ensures ValidPair(h, ls[i], rs[j]) {
        PairingsContain(h, SUPPORT, parameters, ls, rs, PairOf(h, SUPPORT, parameters, ls[i], rs[j]));
        PairValid(h, parameters, ls[i], rs[j]);
      }
    }
    if AllValidPairs(h, ls, rs) {
      forall d | d in out ensures ValidRefs(d) {
        PairingsContain(h, SUPPORT, parameters, ls, rs, d);
        var l, r :| l in ls && r in rs && d == PairOf(h, SUPPORT, parameters, l, r);
        var i :| 0 <= i < |ls| && ls[i] == l;
        var j :| 0 <= j < |rs| && rs[j] == r;
        assert ValidPair(h, ls[i], rs[j]);
        PairValid(h, parameters, l, r);
      }
    }
  }

  datatype Answer = Answered(truth: Truth, derivations: seq<Derivation>) | Failed

  method MakeSingles(h: Hashing, parameters: map<string, Json>, gs: seq<Derivation>)
      returns (ok: bool, out: seq<Derivation>)
    requires h.Valid()
    ensures ok <==> AllValidSingles(h, gs)
    ensures ok ==> out == Singles(h, parameters, gs)
  {
    hide ValidSingle, SingleOf;
    out := [];
    for i := 0 to |gs|
      invariant |out| == i && forall j | 0 <= j < i :: out[j] == SingleOf(h, parameters, gs[j])
      invariant forall j | 0 <= j < i :: ValidSingle(h, gs[j])
    {
      if !ValidSingle(h, gs[i]) { return false, []; }
      out := out + [SingleOf(h, parameters, gs[i])];
    }
    ok := true;
  }

  /** The alternatives for and against, from every edge in turn. */
  method Collect(h: Hashing, x: Value, q: Query) returns (ok: bool, pos: seq<Derivation>, neg: seq<Derivation>)
    requires h.Valid()
    ensures ok <==> forall i | 0 <= i < |x.edges| :: Usable(x, q, x.edges[i])
    ensures ok ==> pos == Alternatives(h, x, q, Positive) && neg == Alternatives(h, x, q, Negative)
  {
    hide AlternativesFit, AlternativesOf, At, Find;
    pos, neg := [], [];
    for i := 0 to |x.edges|
      invariant pos == Collected(h, x, q, Positive, i) && neg == Collected(h, x, q, Negative, i)
      invariant forall j | 0 <= j < i :: Usable(x, q, x.edges[j])
    {
      var e := x.edges[i];
      if !Asked(q, e) { continue; }
      if Find(x, e.from).None? || Find(x, e.to).None? { return false, [], []; }
      if !At(Find(x, e.from), q.from) || !At(Find(x, e.to), q.to) { continue; }
      if !q.consumable(e) { return false, [], []; }
      var origins := EdgeOrigins(x, e);
      if e.derivations == [] && origins == [] && e.derivedNodes == [] { return false, [], []; }
      var fits, groups := EdgeAlternatives(h, e, origins);
      if !fits { return false, [], []; }
      match e.polarity {
        case Positive => pos := pos + groups;
        case Negative => neg := neg + groups;
      }
    }
    ok := true;
  }

  /** `support`: the answer and its derivations, or a failure. */
  method Support(h: Hashing, ctx: U.Context, x: Value, q: Query) returns (r: Answer)
    requires h.Valid()
    ensures r.Answered? <==>
              && U.Preflight(ctx, x)
              && (forall i | 0 <= i < |x.edges| :: Usable(x, q, x.edges[i]))
              && AnswersFit(h, ctx.objects, Alternatives(h, x, q, Positive), Alternatives(h, x, q, Negative))
    ensures r.Answered? ==>
              && r.truth == SupportIn(x, q)
              && (r.truth in {Supported, Conflicted} <==> SpeaksFor(x, q))
              && (r.truth in {Refuted, Conflicted} <==> SpeaksAgainst(x, q))
              && r.derivations == Answers(h, q, Alternatives(h, x, q, Positive), Alternatives(h, x, q, Negative))
  {
    hide Usable, Evidence, Collected, AllValidPairs, AllValidSingles, Pairings, Singles, Area, RoomFor;
    hide SpeaksFor, SpeaksAgainst;
    SupportExactly(x, q);
    if !U.Preflight(ctx, x) { return Failed; }
    var usable, pos, neg := Collect(h, x, q);
    if !usable { return Failed; }
    EvidenceCollected(h, x, q, Positive, |x.edges|);
    EvidenceCollected(h, x, q, Negative, |x.edges|);
    var truth, ok, out := TruthOf(pos != [], neg != []), true, [];
    match truth {
      case Conflicted =>
        if !RoomFor(ctx.objects, Area(|pos|, |neg|)) { return Failed; }
        ok, out := PairUp(h, SUPPORT, q.describe(truth), pos, neg);
      case Supported =>
        if !RoomFor(ctx.objects, |pos|) { return Failed; }
        ok, out := MakeSingles(h, q.describe(truth), pos);
      case Refuted =>
        if !RoomFor(ctx.objects, |neg|) { return Failed; }
        ok, out := MakeSingles(h, q.describe(truth), neg);
      case Unknown =>
        if !RoomFor(ctx.objects, 0) { return Failed; }
    }
    if !ok { return Failed; }
    return Answered(truth, out);
  }

  ghost predicate EvidenceBefore(x: Value, q: Query, polarity: Polarity, k: nat)
    requires k <= |x.edges|
  {
    exists i | 0 <= i < k :: BearsAs(x, q, x.edges[i], polarity)
  }

  lemma {:induction false} CollectedBefore(h: Hashing, x: Value, q: Query, polarity: Polarity, k: nat)
    requires h.Valid() && k <= |x.edges|
    ensures Collected(h, x, q, polarity, k) != [] <==> EvidenceBefore(x, q, polarity, k)
  {
    hide AlternativesOf, BearsAs;
    if k > 0 {
      CollectedBefore(h, x, q, polarity, k - 1);
      AlternativesSome(h, x.edges[k - 1], EdgeOrigins(x, x.edges[k - 1]));
    }
  }

  lemma AlternativesSome(h: Hashing, e: Edge, origins: seq<RecordRef>)
    requires h.Valid()
    ensures AlternativesOf(h, e, origins) != []
  {
  }

  lemma EvidenceCollected(h: Hashing, x: Value, q: Query, polarity: Polarity, k: nat)
    requires h.Valid() && k == |x.edges|
    ensures Collected(h, x, q, polarity, k) != [] <==> Evidence(x, q, polarity)
  {
    CollectedBefore(h, x, q, polarity, k);
    hide BearsAs, Collected;
    if Evidence(x, q, polarity) {
      var e :| e in x.edges && BearsAs(x, q, e, polarity);
      var i :| 0 <= i < k && x.edges[i] == e;
    }
  }

  // ----- the answer over the fields -----

  /** The last node with this id is the given entity in the given space. */
  ghost predicate EndsAt(x: Value, id: string, entity: string, space: string) {
    exists i | 0 <= i < |x.nodes| ::
      && x.nodes[i].id == id && (forall j | i < j < |x.nodes| :: x.nodes[j].id != id)
      && x.nodes[i].entity == entity && x.nodes[i].space == space
  }

  /** An edge with the asked relation between the asked endpoints, in force at the asked instant. */
  ghost predicate Speaks(x: Value, q: Query, e: Edge) {
    && e.relation == q.relation
    && e.validTime.start <= q.at && (e.validTime.end == None || q.at < e.validTime.end.value)
    && EndsAt(x, e.from, q.from.entity, q.from.space) && EndsAt(x, e.to, q.to.entity, q.to.space)
  }

  ghost predicate SpeaksFor(x: Value, q: Query) {
    exists e | e in x.edges :: Speaks(x, q, e) && e.polarity == Positive
  }

  ghost predicate SpeaksAgainst(x: Value, q: Query) {
    exists e | e in x.edges :: Speaks(x, q, e) && e.polarity == Negative
  }

  lemma {:induction false} LastNodeExactly(nodes: seq<Node>, k: nat, id: string)
    requires k <= |nodes|
    ensures
      var n := LastNode(nodes, k, id);
      && (n.None? <==> forall j | 0 <= j < k :: nodes[j].id != id)
      && (n.Some? ==> exists i | 0 <= i < k ::
            nodes[i] == n.value && nodes[i].id == id && forall j | i < j < k :: nodes[j].id != id)
  {
    if k > 0 && nodes[k - 1].id != id { LastNodeExactly(nodes, k - 1, id); }
  }

  lemma EndsExactly(x: Value, id: string, place: Place)
    ensures At(Find(x, id), place) <==> EndsAt(x, id, place.entity, place.space)
  {
    LastNodeExactly(x.nodes, |x.nodes|, id);
    hide LastNode;
    if EndsAt(x, id, place.entity, place.space) {
      var i :| 0 <= i < |x.nodes| && x.nodes[i].id == id && (forall j | i < j < |x.nodes| :: x.nodes[j].id != id)
               && x.nodes[i].entity == place.entity && x.nodes[i].space == place.space;
      var l :| 0 <= l < |x.nodes| && x.nodes[l] == Find(x, id).value && x.nodes[l].id == id
               && forall j | l < j < |x.nodes| :: x.nodes[j].id != id;
      assert i == l;
    }
  }

  lemma BearsExactly(x: Value, q: Query, e: Edge, polarity: Polarity)
    ensures BearsAs(x, q, e, polarity) <==> Speaks(x, q, e) && e.polarity == polarity
  {
    EndsExactly(x, e.from, q.from);
    EndsExactly(x, e.to, q.to);
    hide At, Find, EndsAt;
  }

  /** The four answers, over the fields of the edges: supported exactly when some edge speaks for and
      none against, refuted exactly when some speaks against and none for, conflicted when both,
      unknown when neither. */
  lemma SupportExactly(x: Value, q: Query)
    ensures SupportIn(x, q) == Supported <==> SpeaksFor(x, q) && !SpeaksAgainst(x, q)
    ensures SupportIn(x, q) == Refuted <==> !SpeaksFor(x, q) && SpeaksAgainst(x, q)
    ensures SupportIn(x, q) == Conflicted <==> SpeaksFor(x, q) && SpeaksAgainst(x, q)
    ensures SupportIn(x, q) == Unknown <==> !SpeaksFor(x, q) && !SpeaksAgainst(x, q)
  {
    hide Speaks, BearsAs;
    forall e: Edge, polarity: Polarity
      ensures BearsAs(x, q, e, polarity) <==> Speaks(x, q, e) && e.polarity == polarity
    {
      BearsExactly(x, q, e, polarity);
    }
  }

  lemma {:induction false} CollectedGranted(h: Hashing, x: Value, q: Query, polarity: Polarity, k: nat, auth: Authority)
    requires h.Valid() && k <= |x.edges|
    ensures AnyGranted(Collected(h, x, q, polarity, k), auth) <==>
            exists i | 0 <= i < k :: BearsAs(x, q, x.edges[i], polarity) && Holds(x, x.edges[i], auth)
  {
    hide AlternativesOf, BearsAs, Granted, Holds;
    if k > 0 {
      var before, e := Collected(h, x, q, polarity, k - 1), x.edges[k - 1];
      CollectedGranted(h, x, q, polarity, k - 1, auth);
      HoldsExactly(h, x, e, auth);
      AnyGrantedConcat(before, AlternativesOf(h, e, EdgeOrigins(x, e)), auth);
    }
  }

  lemma AnyGrantedConcat(a: seq<Derivation>, b: seq<Derivation>, auth: Authority)
    ensures AnyGranted(a + b, auth) <==> AnyGranted(a, auth) || AnyGranted(b, auth)
  {
    hide Granted;
    assert forall d :: d in a + b <==> d in a || d in b;
  }

  /** The authority covers the gates of the edge and all premises of one of its alternatives. */
  ghost predicate Holds(x: Value, e: Edge, auth: Authority) {
    AnyGranted(StoredAlternatives(e, EdgeOrigins(x, e)), auth) && Granted(EdgeGates(e), auth)
  }

  lemma HoldsExactly(h: Hashing, x: Value, e: Edge, auth: Authority)
    requires h.Valid()
    ensures Holds(x, e, auth) <==> AnyGranted(AlternativesOf(h, e, EdgeOrigins(x, e)), auth)
  {
    hide AlternativesOf, StoredAlternatives, Granted;
    AlternativesGranted(h, e, EdgeOrigins(x, e), auth);
  }

  /** Some edge that speaks with this polarity holds under the authority. */
  ghost predicate Vouched(x: Value, q: Query, polarity: Polarity, auth: Authority) {
    exists e | e in x.edges :: Speaks(x, q, e) && e.polarity == polarity && Holds(x, e, auth)
  }

  lemma AlternativesVouched(h: Hashing, x: Value, q: Query, polarity: Polarity, auth: Authority)
    requires h.Valid()
    ensures AnyGranted(Alternatives(h, x, q, polarity), auth) <==> Vouched(x, q, polarity, auth)
  {
    CollectedGranted(h, x, q, polarity, |x.edges|, auth);
    VouchedByIndex(x, q, polarity, auth);
    hide BearsAs, Holds, Vouched, Collected, AnyGranted;
  }

  lemma VouchedByIndex(x: Value, q: Query, polarity: Polarity, auth: Authority)
    ensures Vouched(x, q, polarity, auth) <==>
            exists i | 0 <= i < |x.edges| :: BearsAs(x, q, x.edges[i], polarity) && Holds(x, x.edges[i], auth)
  {
    hide BearsAs, Holds, Speaks;
    forall e: Edge ensures BearsAs(x, q, e, polarity) <==> Speaks(x, q, e) && e.polarity == polarity {
      BearsExactly(x, q, e, polarity);
    }
    if Vouched(x, q, polarity, auth) {
      var e :| e in x.edges && Speaks(x, q, e) && e.polarity == polarity && Holds(x, e, auth);
      var i :| 0 <= i < |x.edges| && x.edges[i] == e;
    }
  }

  /** Who may see an answer: its derivations hold for an authority exactly when, on each side where
      some edge speaks, some edge that speaks holds; and for no one when the answer is unknown. */
  lemma AnswerVouched(h: Hashing, x: Value, q: Query, auth: Authority)
    requires h.Valid()
    ensures AnyGranted(Answers(h, q, Alternatives(h, x, q, Positive), Alternatives(h, x, q, Negative)), auth) <==>
              && (SpeaksFor(x, q) || SpeaksAgainst(x, q))
              && (SpeaksFor(x, q) ==> Vouched(x, q, Positive, auth))
              && (SpeaksAgainst(x, q) ==> Vouched(x, q, Negative, auth))
  {
    var pos, neg := Alternatives(h, x, q, Positive), Alternatives(h, x, q, Negative);
    EvidenceCollected(h, x, q, Positive, |x.edges|);
    EvidenceCollected(h, x, q, Negative, |x.edges|);
    SupportExactly(x, q);
    hide Evidence, SpeaksFor, SpeaksAgainst, Vouched, Collected, AnyGranted, Answers;
    AnswersGranted(h, q, pos, neg, auth);
    AlternativesVouched(h, x, q, Positive, auth);
    AlternativesVouched(h, x, q, Negative, auth);
  }

  /** The derivations of a known answer hold exactly when there is authorised evidence for each
      side the answer rests on. */
  lemma AnswersGranted(h: Hashing, q: Query, pos: seq<Derivation>, neg: seq<Derivation>, auth: Authority)
    requires h.Valid()
    ensures AnyGranted(Answers(h, q, pos, neg), auth) <==>
            (pos != [] || neg != []) && (pos == [] || AnyGranted(pos, auth)) && (neg == [] || AnyGranted(neg, auth))
  {
    hide Granted, Pairings, Singles;
    var truth := TruthOf(pos != [], neg != []);
    PairingsGranted(h, SUPPORT, q.describe(truth), pos, neg, auth);
    SinglesGranted(h, q.describe(truth), pos, auth);
    SinglesGranted(h, q.describe(truth), neg, auth);
  }

  lemma SinglesGranted(h: Hashing, parameters: map<string, Json>, gs: seq<Derivation>, auth: Authority)
    requires h.Valid()
    ensures AnyGranted(Singles(h, parameters, gs), auth) <==> AnyGranted(gs, auth)
  {
    hide Granted, JointOf;
    var out := Singles(h, parameters, gs);
    forall i | 0 <= i < |gs| ensures Granted(Gates(out[i]), auth) <==> Granted(Gates(gs[i]), auth) {
      JointGranted(h, SUPPORT, parameters, [gs[i]], auth);
      assert gs[i] in [gs[i]];
    }
    if AnyGranted(gs, auth) {
      var g :| g in gs && Granted(Gates(g), auth);
      var i :| 0 <= i < |gs| && gs[i] == g;
      assert out[i] in out;
    }
    if AnyGranted(out, auth) {
      var d :| d in out && Granted(Gates(d), auth);
      var i :| 0 <= i < |out| && out[i] == d;
      assert gs[i] in gs;
    }
  }

  // ----- support over a union -----

  lemma {:induction false} LastNodeFound(nodes: seq<Node>, k: nat, i: nat)
    requires i < k <= |nodes|
    ensures
      var n := LastNode(nodes, k, nodes[i].id);
      n.Some? && n.value in nodes && n.value.id == nodes[i].id
  {
    if nodes[k - 1].id != nodes[i].id { LastNodeFound(nodes, k - 1, i); }
  }

  /** The endpoint an edge of an input finds is the one its renewed edge finds in the union. */
  lemma EndpointKept(h: Hashing, ctx: U.Context, a: Value, b: Value, x: Value, id: string, place: Place)
    requires h.Valid() && U.Unifiable(h, ctx, a, b) && x in {a, b} && NodesKeyed(x) && id in AllIds(h, x)
    ensures At(Find(U.United(h, ctx, a, b), AllIds(h, x)[id]), place) <==> At(Find(x, id), place)
  {
    var v, s := U.United(h, ctx, a, b), U.MergedSchema(h, a.schema, b.schema).value;
    var n := R.IdSource(h, x, |x.nodes|, id);
    R.UnionKeepsNode(h, ctx, a, b, x, n);
    var kept := NewNode(h, ctx.principal, x, U.Remaps(x, s), n);
    hide U.Unifiable, U.United, U.MergedSchema, NodeKey, NewType, NodeIds;
    var i :| 0 <= i < |v.nodes| && v.nodes[i] == kept;
    LastNodeFound(v.nodes, |v.nodes|, i);
    R.UnionIdUnique(h, ctx, a, b, kept, Find(v, kept.id).value);
  }

  lemma BearsRenewed(h: Hashing, ctx: U.Context, a: Value, b: Value, x: Value, o: Edge, q: Query)
    requires h.Valid() && U.Unifiable(h, ctx, a, b) && x in {a, b} && o in x.edges
    requires NodesKeyed(x) && EdgeKeyed(h, x, o)
    ensures Bears(U.United(h, ctx, a, b), q, R.Renewed(h, ctx, a, b, x, o)) <==> Bears(x, q, o)
    ensures R.Renewed(h, ctx, a, b, x, o).polarity == o.polarity
  {
    var e := R.Renewed(h, ctx, a, b, x, o);
    assert e.from == AllIds(h, x)[o.from] && e.to == AllIds(h, x)[o.to];
    assert e.relation == o.relation && e.validTime == o.validTime;
    EndpointKept(h, ctx, a, b, x, o.from, q.from);
    EndpointKept(h, ctx, a, b, x, o.to, q.to);
    hide U.Unifiable, U.United, AllIds, At, Find, EdgeKey;
  }

  /** A union has evidence of a kind exactly when an input has. */
  lemma EvidenceUnites(h: Hashing, ctx: U.Context, a: Value, b: Value, q: Query, polarity: Polarity)
    requires h.Valid() && U.Unifiable(h, ctx, a, b)
    ensures Evidence(U.United(h, ctx, a, b), q, polarity) <==> Evidence(a, q, polarity) || Evidence(b, q, polarity)
  {
    hide U.Unifiable, U.United, Bears, EdgeKeyed, EdgesKeyed, R.Renewed;
    var v := U.United(h, ctx, a, b);
    if Evidence(v, q, polarity) {
      var e :| e in v.edges && BearsAs(v, q, e, polarity);
      var x, o := R.UnionEdgeSource(h, ctx, a, b, e);
      U.KeyedParts(h, x);
      BearsRenewed(h, ctx, a, b, x, o, q);
      assert BearsAs(x, q, o, polarity);
    }
    forall x | x in {a, b} && Evidence(x, q, polarity) ensures Evidence(v, q, polarity) {
      var o :| o in x.edges && BearsAs(x, q, o, polarity);
      var y, r := R.UnionKeepsEdge(h, ctx, a, b, x, o);
      U.KeyedParts(h, x);
      BearsRenewed(h, ctx, a, b, x, o, q);
      assert BearsAs(v, q, R.Renewed(h, ctx, a, b, x, o), polarity);
    }
  }

  /** Support over a union is the join of the supports: for every predicate, endpoint pair and
      instant. */
  lemma SupportJoins(h: Hashing, ctx: U.Context, a: Value, b: Value, q: Query)
    requires h.Valid() && U.Unifiable(h, ctx, a, b)
    ensures SupportIn(U.United(h, ctx, a, b), q) == Join(SupportIn(a, q), SupportIn(b, q))
  {
    hide U.Unifiable, U.United, Evidence;
    EvidenceUnites(h, ctx, a, b, q, Positive);
    EvidenceUnites(h, ctx, a, b, q, Negative);
  }
}
