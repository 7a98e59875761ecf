/** Restriction carriers and their canonical form. */
module Restrictions {
  // A carrier asks for every flat reference and, when it has alternatives, for all the
  // references of at least one of them.

  import opened Orders

  // ----- orders given by keys -----

  /** Lexicographic order of lists of strings, as tuples of strings compare. */
  predicate KeyLess(a: seq<string>, b: seq<string>) {
    if b == [] then false
    else if a == [] then true
    else if a[0] != b[0] then StringLess(a[0], b[0])
    else KeyLess(a[1..], b[1..])
  }

  lemma {:induction false} KeyTrichotomy(a: seq<string>, b: seq<string>)
    ensures !KeyLess(a, a)
    ensures KeyLess(a, b) || a == b || KeyLess(b, a)
  {
    if a != [] {
      KeyTrichotomy(a[1..], if b == [] then b else b[1..]);
      if b != [] {
        StringTrichotomy(a[0], b[0]);
        assert a == [a[0]] + a[1..] && b == [b[0]] + b[1..];
      }
    }
  }

  lemma {:induction false} KeyTransitive(a: seq<string>, b: seq<string>, c: seq<string>)
    requires KeyLess(a, b) && KeyLess(b, c)
    ensures KeyLess(a, c)
  {
    if a != [] {
      if a[0] == b[0] == c[0] {
        KeyTransitive(a[1..], b[1..], c[1..]);
      } else if a[0] != b[0] && b[0] != c[0] {
        StringTransitive(a[0], b[0], c[0]);
        StringTrichotomy(a[0], a[0]);
      }
    }
  }

  function By<T>(key: T -> seq<string>): (T, T) -> bool {
    (x: T, y: T) => KeyLess(key(x), key(y))
  }

  ghost predicate Injective<T(!new), K(!new)>(key: T -> K) {
    forall x, y :: key(x) == key(y) ==> x == y
  }

  lemma ByOrder<T(!new)>(key: T -> seq<string>)
    requires Injective(key)
    ensures StrictTotal(By(key))
  {
    var less := By(key);
    forall x: T ensures !less(x, x) { KeyTrichotomy(key(x), key(x)); }
    forall x: T, y: T ensures less(x, y) || x == y || less(y, x) { KeyTrichotomy(key(x), key(y)); }
    forall x: T, y: T, z: T | less(x, y) && less(y, z) ensures less(x, z) {
      KeyTransitive(key(x), key(y), key(z));
    }
  }

  /** What sorting by a key and dropping repeats leaves of a list with these elements. */
  function Listing<T(!new)>(key: T -> seq<string>, s: set<T>): (q: seq<T>)
    requires Injective(key)
    ensures Elements(q) == s && |q| == |s| && Ascending(By(key), q)
  {
    ByOrder(key);
    Sorted(By(key), s)
  }

  lemma ListingUnique<T(!new)>(key: T -> seq<string>, q: seq<T>)
    requires Injective(key) && Ascending(By(key), q)
    ensures Listing(key, Elements(q)) == q
  {
    ByOrder(key);
    AscendingUnique(By(key), Listing(key, Elements(q)), q);
  }

  // ----- data -----

  /** An assertion or a node of one revision of one graph. */
  datatype RecordRef = RecordRef(graph: string, revision: string, record: string)
  datatype GraphRef = GraphRef(graph: string, revision: string)
  datatype RefSet = RefSet(assertions: seq<RecordRef>, nodes: seq<RecordRef>, snapshots: seq<GraphRef>)

  datatype Json =
    | Null
    | Bool(b: bool)
    | Num(digits: string)
    | Str(s: string)
    | Arr(items: seq<Json>)
    | Obj(fields: map<string, Json>)

  /** An alternative: its three premise lists are restrictions, the rest is explanation. */
  datatype Derivation = Derivation(
    operator: string, premises: seq<RecordRef>, nodePremises: seq<RecordRef>,
    parameters: map<string, Json>, inputSnapshots: seq<GraphRef>, snapshotPremises: seq<GraphRef>)

  datatype Carrier = Carrier(flat: RefSet, alternatives: seq<Derivation>)

  const NO_REFS := RefSet([], [], [])

  function Gates(g: Derivation): RefSet {
    RefSet(g.premises, g.nodePremises, g.snapshotPremises)
  }

  // ----- text -----

  datatype Written =
    | CarrierText(carrier: Carrier)
    | RefsText(left: RefSet, right: RefSet)
    | FlatText(flat: RefSet)
    | GroupText(group: Derivation)
    | GroupsText(groups: seq<Derivation>)
    | GatesText(gates: RefSet, parents: Json)

  /** How values are serialised: the text of a JSON value, the text of an alternative,
      and the length of everything that is charged. */
  datatype Encoding = Encoding(json: Json -> string, group: Derivation -> string, size: Written -> nat) {
    ghost predicate Valid() {
      Injective(json) && Injective(group)
    }
  }

  function RecordKey(r: RecordRef): seq<string> {
    [r.graph, r.revision, r.record]
  }

  function GraphKey(r: GraphRef): seq<string> {
    [r.graph, r.revision]
  }

  function GroupKey(enc: Encoding): Derivation -> seq<string> {
    (g: Derivation) => [enc.group(g)]
  }

  lemma KeysInjective()
    ensures Injective(RecordKey) && Injective(GraphKey)
  {
    forall x: RecordRef, y: RecordRef | RecordKey(x) == RecordKey(y) ensures x == y {
      assert RecordKey(x)[0] == RecordKey(y)[0] && RecordKey(x)[1] == RecordKey(y)[1]
          && RecordKey(x)[2] == RecordKey(y)[2];
    }
    forall x: GraphRef, y: GraphRef | GraphKey(x) == GraphKey(y) ensures x == y {
      assert GraphKey(x)[0] == GraphKey(y)[0] && GraphKey(x)[1] == GraphKey(y)[1];
    }
  }

  lemma GroupKeyInjective(enc: Encoding)
    requires enc.Valid()
    ensures Injective(GroupKey(enc))
  {
    var key := GroupKey(enc);
    forall x: Derivation, y: Derivation | key(x) == key(y) ensures x == y {
      assert key(x)[0] == key(y)[0];
    }
  }

  // ----- the canonical form -----

  function Records(s: set<RecordRef>): (q: seq<RecordRef>)
    ensures Elements(q) == s
  {
    KeysInjective();
    Listing(RecordKey, s)
  }

  function Snapshots(s: set<GraphRef>): (q: seq<GraphRef>)
    ensures Elements(q) == s
  {
    KeysInjective();
    Listing(GraphKey, s)
  }

  function NormalRefs(r: RefSet): RefSet {
    RefSet(Records(Elements(r.assertions)), Records(Elements(r.nodes)), Snapshots(Elements(r.snapshots)))
  }

  function NormalGroup(g: Derivation): Derivation {
    Derivation(g.operator, Records(Elements(g.premises)), Records(Elements(g.nodePremises)), g.parameters,
               Snapshots(Elements(g.inputSnapshots)), Snapshots(Elements(g.snapshotPremises)))
  }

  function NormalGroups(gs: seq<Derivation>): set<Derivation> {
    set g | g in gs :: NormalGroup(g)
  }

  function Groups(enc: Encoding, s: set<Derivation>): (q: seq<Derivation>)
    requires enc.Valid()
    ensures Elements(q) == s && |q| == |s|
  {
    GroupKeyInjective(enc);
    Listing(GroupKey(enc), s)
  }

  function Canonical(enc: Encoding, c: Carrier): Carrier
    requires enc.Valid()
  {
    Carrier(NormalRefs(c.flat), Groups(enc, NormalGroups(c.alternatives)))
  }

  ghost predicate SameRefs(a: RefSet, b: RefSet) {
    && Elements(a.assertions) == Elements(b.assertions)
    && Elements(a.nodes) == Elements(b.nodes)
    && Elements(a.snapshots) == Elements(b.snapshots)
  }

  /** Equal but for the order and repetition of references. */
  ghost predicate SameGroup(g: Derivation, h: Derivation) {
    && g.operator == h.operator && g.parameters == h.parameters && SameRefs(Gates(g), Gates(h))
    && Elements(g.inputSnapshots) == Elements(h.inputSnapshots)
  }

  ghost predicate Matched(g: Derivation, hs: seq<Derivation>) {
    exists h | h in hs :: SameGroup(g, h)
  }

  /** Equal but for the order and repetition of references and alternatives. */
  ghost predicate SameContent(c: Carrier, d: Carrier) {
    && SameRefs(c.flat, d.flat)
    && (forall g | g in c.alternatives :: Matched(g, d.alternatives))
    && (forall h | h in d.alternatives :: Matched(h, c.alternatives))
  }

  lemma NormalRefsExactly(a: RefSet, b: RefSet)
    ensures NormalRefs(a) == NormalRefs(b) <==> SameRefs(a, b)
    ensures SameRefs(NormalRefs(a), a)
  {
    assert SameRefs(NormalRefs(a), a) && SameRefs(NormalRefs(b), b);
  }

  lemma NormalGroupExactly(g: Derivation, h: Derivation)
    ensures NormalGroup(g) == NormalGroup(h) <==> SameGroup(g, h)
    ensures SameGroup(NormalGroup(g), g)
  {
    NormalRefsExactly(Gates(g), Gates(h));
    assert SameGroup(NormalGroup(g), g) && SameGroup(NormalGroup(h), h);
    assert Gates(NormalGroup(g)) == NormalRefs(Gates(g)) && Gates(NormalGroup(h)) == NormalRefs(Gates(h));
  }

  lemma NormalGroupFixed(g: Derivation)
    ensures NormalGroup(NormalGroup(g)) == NormalGroup(g)
  {
    NormalGroupExactly(NormalGroup(g), g);
  }

  lemma NormalGroupsWithin(gs: seq<Derivation>, hs: seq<Derivation>)
    ensures NormalGroups(gs) <= NormalGroups(hs) <==> forall g | g in gs :: Matched(g, hs)
  {
    hide NormalGroup, SameGroup;
    if NormalGroups(gs) <= NormalGroups(hs) {
      forall g | g in gs ensures Matched(g, hs) {
        assert NormalGroup(g) in NormalGroups(gs);
        var h :| h in hs && NormalGroup(h) == NormalGroup(g);
        NormalGroupExactly(g, h);
      }
    }
    if forall g | g in gs :: Matched(g, hs) {
      forall n | n in NormalGroups(gs) ensures n in NormalGroups(hs) {
        var g :| g in gs && NormalGroup(g) == n;
        assert Matched(g, hs);
        var h :| h in hs && SameGroup(g, h);
        NormalGroupExactly(g, h);
      }
    }
  }

  /** Two carriers have one canonical form exactly when they differ only in the order and
      repetition of references and alternatives. */
  lemma CanonicalExactly(enc: Encoding, c: Carrier, d: Carrier)
    requires enc.Valid()
    ensures Canonical(enc, c) == Canonical(enc, d) <==> SameContent(c, d)
  {
    hide NormalRefs, NormalGroups, Matched, SameRefs;
    NormalRefsExactly(c.flat, d.flat);
    NormalGroupsWithin(c.alternatives, d.alternatives);
    NormalGroupsWithin(d.alternatives, c.alternatives);
    var s, t := NormalGroups(c.alternatives), NormalGroups(d.alternatives);
    assert s <= t && t <= s <==> s == t;
    if Canonical(enc, c) == Canonical(enc, d) {
      assert Elements(Groups(enc, s)) == s && Elements(Groups(enc, t)) == t;
    }
  }

  lemma NormalGroupsFixed(gs: seq<Derivation>, qs: seq<Derivation>)
    requires Elements(qs) == NormalGroups(gs)
    ensures NormalGroups(qs) == NormalGroups(gs)
  {
    hide NormalGroup;
    forall n ensures n in NormalGroups(qs) <==> n in NormalGroups(gs) {
      if n in NormalGroups(qs) {
        var q :| q in qs && NormalGroup(q) == n;
        assert q in Elements(qs);
        var g :| g in gs && NormalGroup(g) == q;
        NormalGroupFixed(g);
      }
      if n in NormalGroups(gs) {
        var g :| g in gs && NormalGroup(g) == n;
        assert n in Elements(qs);
        NormalGroupFixed(g);
      }
    }
  }

  lemma CanonicalIdempotent(enc: Encoding, c: Carrier)
    requires enc.Valid()
    ensures Canonical(enc, Canonical(enc, c)) == Canonical(enc, c)
  {
    hide NormalGroups, SameRefs, NormalRefs;
    NormalRefsExactly(c.flat, c.flat);
    NormalRefsExactly(NormalRefs(c.flat), c.flat);
    NormalGroupsFixed(c.alternatives, Groups(enc, NormalGroups(c.alternatives)));
  }

  // ----- evaluation -----

  datatype Authority = Authority(assertions: set<RecordRef>, nodes: set<RecordRef>, snapshots: set<GraphRef>)

  predicate Granted(r: RefSet, auth: Authority) {
    && Elements(r.assertions) <= auth.assertions
    && Elements(r.nodes) <= auth.nodes
    && Elements(r.snapshots) <= auth.snapshots
  }

  predicate AnyGranted(gs: seq<Derivation>, auth: Authority) {
    exists g | g in gs :: Granted(Gates(g), auth)
  }

  predicate Evaluate(c: Carrier, auth: Authority) {
    Granted(c.flat, auth) && (c.alternatives == [] || AnyGranted(c.alternatives, auth))
  }

  lemma GroupsEmpty(enc: Encoding, gs: seq<Derivation>)
    requires enc.Valid()
    ensures Groups(enc, NormalGroups(gs)) == [] <==> gs == []
  {
    if gs != [] { assert NormalGroup(gs[0]) in NormalGroups(gs); }
  }

  lemma NormalAnyGranted(gs: seq<Derivation>, qs: seq<Derivation>, auth: Authority)
    requires Elements(qs) == NormalGroups(gs)
    ensures AnyGranted(qs, auth) <==> AnyGranted(gs, auth)
  {
    hide NormalGroup, Granted;
    forall g ensures Granted(Gates(NormalGroup(g)), auth) == Granted(Gates(g), auth) { NormalGranted(g, auth); }
    if AnyGranted(gs, auth) {
      var g :| g in gs && Granted(Gates(g), auth);
      assert NormalGroup(g) in Elements(qs);
    }
    if AnyGranted(qs, auth) {
      var q :| q in qs && Granted(Gates(q), auth);
      assert q in Elements(qs);
      var g :| g in gs && NormalGroup(g) == q;
    }
  }

  lemma NormalGranted(g: Derivation, auth: Authority)
    ensures Granted(Gates(NormalGroup(g)), auth) == Granted(Gates(g), auth)
  {
    NormalGroupExactly(g, g);
  }

  lemma CanonicalEvaluates(enc: Encoding, c: Carrier, auth: Authority)
    requires enc.Valid()
    ensures Evaluate(Canonical(enc, c), auth) == Evaluate(c, auth)
  {
    NormalRefsExactly(c.flat, c.flat);
    hide NormalGroups, NormalRefs, AnyGranted;
    GroupsEmpty(enc, c.alternatives);
    NormalAnyGranted(c.alternatives, Groups(enc, NormalGroups(c.alternatives)), auth);
  }
}
