/** Renaming revisions consistently does not show in the order of blanked conjunction inputs. */
module Renaming {
  import opened Orders
  import opened Restrictions
  import opened Carriers

  /** A consistent, injective change of the values under `revision` keys. */
  ghost predicate Renames(f: Json -> Json) {
    Injective(f) && forall s: string :: f(Str(s)).Str?
  }

  function Rename(f: Json -> Json, v: Json): Json {
    match v
    case Arr(items) => Arr(seq(|items|, i requires 0 <= i < |items| => Rename(f, items[i])))
    case Obj(fields) => Obj(map k | k in fields :: if k == "revision" then f(fields[k]) else Rename(f, fields[k]))
    case _ => v
  }

  function RenameText(f: Json -> Json, s: string): string {
    if f(Str(s)).Str? then f(Str(s)).s else s
  }

  function RenameRecord(f: Json -> Json, r: RecordRef): RecordRef {
    r.(revision := RenameText(f, r.revision))
  }

  function RenameGraph(f: Json -> Json, r: GraphRef): GraphRef {
    r.(revision := RenameText(f, r.revision))
  }

  function RenameRecords(f: Json -> Json, refs: seq<RecordRef>): seq<RecordRef> {
    seq(|refs|, i requires 0 <= i < |refs| => RenameRecord(f, refs[i]))
  }

  function RenameGraphs(f: Json -> Json, refs: seq<GraphRef>): seq<GraphRef> {
    seq(|refs|, i requires 0 <= i < |refs| => RenameGraph(f, refs[i]))
  }

  function RenameGroup(f: Json -> Json, g: Derivation): Derivation {
    Derivation(g.operator, RenameRecords(f, g.premises), RenameRecords(f, g.nodePremises),
               Rename(f, Obj(g.parameters)).fields, RenameGraphs(f, g.inputSnapshots),
               RenameGraphs(f, g.snapshotPremises))
  }

  function Renamed(f: Json -> Json, q: seq<Json>): seq<Json> {
    seq(|q|, i requires 0 <= i < |q| => Rename(f, q[i]))
  }

  function Image(f: Json -> Json, s: set<Json>): set<Json> {
    set v | v in s :: Rename(f, v)
  }

  function Blanked(q: seq<Json>): seq<Json> {
    seq(|q|, i requires 0 <= i < |q| => Blank(q[i]))
  }

  // ----- renaming commutes with writing -----

  /** What renaming does to one field of an object. */
  function RenameField(f: Json -> Json, k: string, v: Json): Json {
    if k == "revision" then f(v) else Rename(f, v)
  }

  lemma FieldsRenamed(f: Json -> Json, a: map<string, Json>, b: map<string, Json>)
    requires a.Keys == b.Keys && forall k | k in a :: RenameField(f, k, a[k]) == b[k]
    ensures Rename(f, Obj(a)) == Obj(b)
  {
    assert Rename(f, Obj(a)).fields == b;
  }

  lemma TextRenamed(f: Json -> Json, s: string)
    requires Renames(f)
    ensures Rename(f, Str(s)) == Str(s) && f(Str(s)) == Str(RenameText(f, s))
  {
  }

  lemma RecordRenamed(f: Json -> Json, kind: string, r: RecordRef)
    requires Renames(f) && kind != "revision" && kind != "graph_id"
    ensures Rename(f, RecordJson(kind, r)) == RecordJson(kind, RenameRecord(f, r))
  {
    hide Rename, RenameText, Renames;
    TextRenamed(f, r.graph);
    TextRenamed(f, r.revision);
    TextRenamed(f, r.record);
    FieldsRenamed(f, RecordJson(kind, r).fields, RecordJson(kind, RenameRecord(f, r)).fields);
  }

  lemma GraphRenamed(f: Json -> Json, r: GraphRef)
    requires Renames(f)
    ensures Rename(f, GraphJson(r)) == GraphJson(RenameGraph(f, r))
  {
    hide Rename, RenameText, Renames;
    TextRenamed(f, r.graph);
    TextRenamed(f, r.revision);
    FieldsRenamed(f, GraphJson(r).fields, GraphJson(RenameGraph(f, r)).fields);
  }

  lemma RecordListRenamed(f: Json -> Json, kind: string, refs: seq<RecordRef>)
    requires Renames(f) && kind != "revision" && kind != "graph_id"
    ensures Rename(f, RecordList(kind, refs)) == RecordList(kind, RenameRecords(f, refs))
  {
    hide RecordJson, RenameRecord;
    forall i | 0 <= i < |refs| ensures Rename(f, RecordJson(kind, refs[i])) == RecordJson(kind, RenameRecord(f, refs[i])) {
      RecordRenamed(f, kind, refs[i]);
    }
    assert Rename(f, RecordList(kind, refs)).items == RecordList(kind, RenameRecords(f, refs)).items;
  }

  lemma GraphListRenamed(f: Json -> Json, refs: seq<GraphRef>)
    requires Renames(f)
    ensures Rename(f, GraphList(refs)) == GraphList(RenameGraphs(f, refs))
  {
    hide GraphJson, RenameGraph;
    forall i | 0 <= i < |refs| ensures Rename(f, GraphJson(refs[i])) == GraphJson(RenameGraph(f, refs[i])) {
      GraphRenamed(f, refs[i]);
    }
    assert Rename(f, GraphList(refs)).items == GraphList(RenameGraphs(f, refs)).items;
  }

  lemma FieldRenamed(f: Json -> Json, g: Derivation, k: string)
    requires Renames(f)
    ensures Rename(f, GroupField(g, k)) == GroupField(RenameGroup(f, g), k)
  {
    RecordListRenamed(f, "assertion_id", g.premises);
    RecordListRenamed(f, "node_id", g.nodePremises);
    GraphListRenamed(f, g.inputSnapshots);
    GraphListRenamed(f, g.snapshotPremises);
    TextRenamed(f, g.operator);
    assert Rename(f, Obj(g.parameters)) == Obj(RenameGroup(f, g).parameters);
    hide Rename, RenameText, Renames, RecordList, GraphList, RenameRecords, RenameGraphs;
  }

  lemma GroupRenamed(f: Json -> Json, g: Derivation)
    requires Renames(f)
    ensures Rename(f, GroupJson(g)) == GroupJson(RenameGroup(f, g))
  {
    hide Rename, Renames, GroupField;
    var h := RenameGroup(f, g);
    assert GroupFields(h) == GroupFields(g) && "revision" !in GroupFields(g);
    hide RenameGroup, GroupFields;
    forall k ensures Rename(f, GroupField(g, k)) == GroupField(h, k) { FieldRenamed(f, g, k); }
    FieldsRenamed(f, GroupJson(g).fields, GroupJson(h).fields);
  }

  /** The inputs of a renamed alternative are the renamed inputs. */
  lemma InputsRenamed(f: Json -> Json, g: Derivation)
    requires Renames(f)
    ensures InputsOf(RenameGroup(f, g)) == Renamed(f, InputsOf(g))
  {
    hide GroupJson;
    GroupRenamed(f, g);
    if "inputs" in g.parameters {
      assert RenameGroup(f, g).parameters["inputs"] == Rename(f, g.parameters["inputs"]);
    }
  }

  // ----- renaming is invisible after blanking, and injective -----

  lemma {:induction false} BlankRenamed(f: Json -> Json, v: Json)
    ensures Blank(Rename(f, v)) == Blank(v)
  {
    match v
    case Arr(items) =>
      forall i | 0 <= i < |items| ensures Blank(Rename(f, items[i])) == Blank(items[i]) { BlankRenamed(f, items[i]); }
      assert Blank(Rename(f, v)).items == Blank(v).items;
    case Obj(fields) =>
      forall k | k in fields ensures Blank(Rename(f, fields[k])) == Blank(fields[k]) { BlankRenamed(f, fields[k]); }
      assert Blank(Rename(f, v)).fields == Blank(v).fields;
    case _ =>
  }

  lemma {:induction false} RenameInjective(f: Json -> Json, v: Json, w: Json)
    requires Renames(f) && Rename(f, v) == Rename(f, w)
    ensures v == w
  {
    match v
    case Arr(items) =>
      assert |Rename(f, v).items| == |Rename(f, w).items| && w.Arr?;
      forall i | 0 <= i < |items| ensures items[i] == w.items[i] {
        assert Rename(f, v).items[i] == Rename(f, w).items[i];
        RenameInjective(f, items[i], w.items[i]);
      }
      assert items == w.items;
    case Obj(fields) =>
      assert w.Obj? && Rename(f, v).fields.Keys == Rename(f, w).fields.Keys;
      assert fields.Keys == Rename(f, v).fields.Keys && w.fields.Keys == Rename(f, w).fields.Keys;
      forall k | k in fields ensures fields[k] == w.fields[k] {
        assert k in w.fields.Keys && Rename(f, v).fields[k] == Rename(f, w).fields[k];
        if k != "revision" { RenameInjective(f, fields[k], w.fields[k]); }
      }
      assert fields == w.fields;
    case _ =>
  }

  // ----- counting -----

  function WithBlank(s: set<Json>, b: Json): set<Json> {
    set v | v in s && Blank(v) == b
  }

  /** In a list without repeats, blanks occur as often as there are elements with that blank. */
  lemma {:induction false} BlankCount(q: seq<Json>, b: Json)
    requires |Elements(q)| == |q|
    ensures multiset(Blanked(q))[b] == |WithBlank(Elements(q), b)|
  {
    hide Blank;
    if q == [] {
      assert WithBlank(Elements(q), b) == {};
    } else {
      var rest, v := q[..|q| - 1], q[|q| - 1];
      assert q == rest + [v];
      DistinctPrefix(rest, v);
      BlankCount(rest, b);
      assert Blanked(q) == Blanked(rest) + [Blank(v)];
      WithOneMore(Elements(rest), v, b);
    }
  }

  lemma WithOneMore(s: set<Json>, v: Json, b: Json)
    requires v !in s
    ensures |WithBlank(s + {v}, b)| == |WithBlank(s, b)| + if Blank(v) == b then 1 else 0
  {
    hide Blank;
    if Blank(v) == b {
      assert WithBlank(s + {v}, b) == WithBlank(s, b) + {v};
    } else {
      assert WithBlank(s + {v}, b) == WithBlank(s, b);
    }
  }

  lemma {:induction false} ElementsAtMost<T>(q: seq<T>)
    ensures |Elements(q)| <= |q|
  {
    if q != [] {
      var k := |q| - 1;
      assert q == q[..k] + [q[k]];
      ElementsConcat(q[..k], [q[k]]);
      assert Elements([q[k]]) == {q[k]};
      ElementsAtMost(q[..k]);
    }
  }

  lemma DistinctPrefix(rest: seq<Json>, v: Json)
    requires |Elements(rest + [v])| == |rest| + 1
    ensures |Elements(rest)| == |rest| && v !in Elements(rest) && Elements(rest + [v]) == Elements(rest) + {v}
  {
    ElementsConcat(rest, [v]);
    assert Elements([v]) == {v};
    ElementsAtMost(rest);
  }

  /** An injective image has as many elements. */
  lemma {:induction false} ImageSize(f: Json -> Json, s: set<Json>)
    requires Renames(f)
    ensures |Image(f, s)| == |s|
  {
    hide Rename, Renames;
    if s == {} {
      assert Image(f, s) == {};
    } else {
      var x :| x in s;
      var rest := s - {x};
      ImageSize(f, rest);
      var image, whole := Image(f, rest), Image(f, s);
      assert Rename(f, x) !in image by {
        if v :| v in rest && Rename(f, v) == Rename(f, x) { RenameInjective(f, v, x); }
      }
      assert whole == image + {Rename(f, x)};
    }
  }

  lemma WithBlankRenamed(f: Json -> Json, s: set<Json>, t: set<Json>, b: Json)
    requires Renames(f) && t == Image(f, s)
    ensures |WithBlank(t, b)| == |WithBlank(s, b)|
  {
    hide Rename, Blank, Renames;
    forall v ensures Blank(Rename(f, v)) == Blank(v) { BlankRenamed(f, v); }
    assert WithBlank(t, b) == Image(f, WithBlank(s, b));
    ImageSize(f, WithBlank(s, b));
  }

  // ----- the blanked list is sorted, so it is determined by those counts -----

  ghost predicate NonDescending(enc: Encoding, q: seq<Json>) {
    forall i, j | 0 <= i < j < |q| :: !StringLess(enc.json(q[j]), enc.json(q[i]))
  }

  lemma ListBlankedNonDescending(enc: Encoding, s: set<Json>)
    requires enc.Valid()
    ensures NonDescending(enc, Blanked(InputList(enc, s)))
  {
    hide Blank;
    ConjunctKeyInjective(enc);
    var q, key := InputList(enc, s), ConjunctKey(enc);
    forall i, j | 0 <= i < j < |q| ensures !StringLess(enc.json(Blanked(q)[j]), enc.json(Blanked(q)[i])) {
      assert By(key)(q[i], q[j]);
      assert KeyLess(key(q[i]), key(q[j]));
      StringTrichotomy(key(q[i])[0], key(q[j])[0]);
    }
  }

  /** Two sorted lists with the same elements end in the same element. */
  lemma LastOfBag(enc: Encoding, p: seq<Json>, q: seq<Json>)
    requires enc.Valid() && NonDescending(enc, p) && NonDescending(enc, q) && multiset(p) == multiset(q) && p != []
    ensures q != [] && p[|p| - 1] == q[|q| - 1]
  {
    var x := p[|p| - 1];
    assert x in multiset(q);
    var i :| 0 <= i < |q| && q[i] == x;
    var y := q[|q| - 1];
    assert y in multiset(p);
    var j :| 0 <= j < |p| && p[j] == y;
    StringTrichotomy(enc.json(x), enc.json(y));
  }

  lemma DropLast(enc: Encoding, p: seq<Json>)
    requires NonDescending(enc, p) && p != []
    ensures
      var rest, x := p[..|p| - 1], p[|p| - 1];
      NonDescending(enc, rest) && multiset(rest) == multiset(p) - multiset{x} && p == rest + [x]
  {
    var rest, x := p[..|p| - 1], p[|p| - 1];
    assert NonDescending(enc, rest);
    hide NonDescending;
    assert p == rest + [x];
    assert multiset(p) == multiset(rest) + multiset{x};
  }

  lemma {:induction false} SortedBagUnique(enc: Encoding, p: seq<Json>, q: seq<Json>)
    requires enc.Valid() && NonDescending(enc, p) && NonDescending(enc, q) && multiset(p) == multiset(q)
    ensures p == q
  {
    hide NonDescending, Injective;
    if p == [] {
      assert |q| == |multiset(q)| == |multiset(p)| == 0;
    } else {
      LastOfBag(enc, p, q);
      DropLast(enc, p);
      DropLast(enc, q);
      SortedBagUnique(enc, p[..|p| - 1], q[..|q| - 1]);
    }
  }

  /** Renaming the inputs of a conjunction leaves the blanked list as it was. */
  lemma InputListRenamed(enc: Encoding, f: Json -> Json, s: set<Json>, t: set<Json>)
    requires enc.Valid() && Renames(f) && t == Image(f, s)
    ensures Blanked(InputList(enc, t)) == Blanked(InputList(enc, s))
  {
    hide Rename, Blank, Renames, NonDescending;
    var p, q := InputList(enc, s), InputList(enc, t);
    InputListDistinct(enc, s);
    InputListDistinct(enc, t);
    forall b ensures multiset(Blanked(p))[b] == multiset(Blanked(q))[b] {
      BlankCount(p, b);
      BlankCount(q, b);
      WithBlankRenamed(f, s, t, b);
    }
    assert multiset(Blanked(p)) == multiset(Blanked(q));
    ListBlankedNonDescending(enc, s);
    ListBlankedNonDescending(enc, t);
    SortedBagUnique(enc, Blanked(p), Blanked(q));
  }

  lemma InputListDistinct(enc: Encoding, s: set<Json>)
    requires enc.Valid()
    ensures |Elements(InputList(enc, s))| == |InputList(enc, s)|
  {
    ConjunctKeyInjective(enc);
  }

  /** The order of a conjunction's inputs reveals nothing about the revisions in them: under any
      consistent injective renaming of both alternatives the blanked list is the same. */
  lemma ConjunctsHideRevisions(enc: Encoding, f: Json -> Json, x: Derivation, y: Derivation)
    requires enc.Valid() && Renames(f)
    ensures Blanked(Conjuncts(enc, RenameGroup(f, x), RenameGroup(f, y))) == Blanked(Conjuncts(enc, x, y))
  {
    hide Rename, InputsOf, RenameGroup, Renames;
    InputsRenamed(f, x);
    InputsRenamed(f, y);
    var p := InputsOf(x) + InputsOf(y);
    assert Renamed(f, InputsOf(x)) + Renamed(f, InputsOf(y)) == Renamed(f, p);
    forall w ensures w in Elements(Renamed(f, p)) <==> w in Image(f, Elements(p)) {
      if w in Image(f, Elements(p)) {
        var v :| v in Elements(p) && Rename(f, v) == w;
        var i :| 0 <= i < |p| && p[i] == v;
        assert Renamed(f, p)[i] == w;
      }
    }
    InputListRenamed(enc, f, Elements(p), Elements(Renamed(f, p)));
  }
}
