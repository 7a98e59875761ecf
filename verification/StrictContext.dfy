/** The strict decoder for typed contexts: a shared byte budget, bounded depth, size and strings,
    and no repeated member names. */
module StrictContext {
  import opened Orders
  import opened Restrictions

  const MAX_BYTES := 65536
  const MAX_DEPTH := 8
  const MAX_MEMBERS := 128
  const MAX_KEY := 512
  const MAX_STRING := 4096

  /** What the JSON reader hands over: objects still have their repeated members. */
  datatype Doc =
    | DocNull
    | DocBool(b: bool)
    | DocNum(digits: string)
    | DocStr(s: string)
    | DocArr(items: seq<Doc>)
    | DocObj(members: seq<(string, Doc)>)

  /** How leaves are written: the quoted text of a string, the text of a number, and the length of
      a string in bytes. Texts are counted one character a byte. */
  datatype Texts = Texts(quote: string -> string, number: string -> string, bytes: string -> nat)

  // ----- the compact text of a value -----

  /** Compact JSON, members in key order. */
  function Compact(t: Texts, v: Json): string
    decreases v, 1, 0
  {
    match v
    case Null => "null"
    case Bool(b) => if b then "true" else "false"
    case Num(digits) => t.number(digits)
    case Str(s) => t.quote(s)
    case Arr(items) => "[" + JoinItems(t, v, |items|) + "]"
    case Obj(fields) => "{" + JoinFields(t, v, SortStrings(fields.Keys)) + "}"
  }

  function JoinItems(t: Texts, v: Json, n: nat): string
    requires v.Arr? && n <= |v.items|
    decreases v, 0, n
  {
    if n == 0 then "" else
      JoinItems(t, v, n - 1) + (if n > 1 then "," else "") + Compact(t, v.items[n - 1])
  }

  function JoinFields(t: Texts, v: Json, keys: seq<string>): string
    requires v.Obj? && forall i | 0 <= i < |keys| :: keys[i] in v.fields
    decreases v, 0, |keys|
  {
    if keys == [] then "" else
      var k := keys[|keys| - 1];
      JoinFields(t, v, keys[..|keys| - 1]) + (if |keys| > 1 then "," else "")
      + t.quote(k) + ":" + Compact(t, v.fields[k])
  }

  // ----- documents -----

  function ValueOf(d: Doc): Json
    decreases d, 1, 0
  {
    match d
    case DocNull => Null
    case DocBool(b) => Bool(b)
    case DocNum(digits) => Num(digits)
    case DocStr(s) => Str(s)
    case DocArr(items) => Arr(seq(|items|, i requires 0 <= i < |items| => ValueOf(items[i])))
    case DocObj(members) => Obj(FieldsOf(d, |members|))
  }

  /** The first `n` members as a map. */
  function FieldsOf(d: Doc, n: nat): map<string, Json>
    requires d.DocObj? && n <= |d.members|
    decreases d, 0, n
  {
    if n == 0 then map[] else FieldsOf(d, n - 1)[d.members[n - 1].0 := ValueOf(d.members[n - 1].1)]
  }

  predicate KeyFits(t: Texts, k: string) {
    t.bytes(k) <= MAX_KEY
  }

  /** No name among the first `n` members. */
  predicate NewName(members: seq<(string, Doc)>, n: nat)
    requires n < |members|
  {
    forall j | 0 <= j < n :: members[j].0 != members[n].0
  }

  /** Within every limit but the byte budget. */
  predicate Bounded(t: Texts, d: Doc, depth: nat) {
    depth <= MAX_DEPTH && match d
      case DocStr(s) => t.bytes(s) <= MAX_STRING
      case DocArr(items) => |items| <= MAX_MEMBERS && forall i | 0 <= i < |items| :: Bounded(t, items[i], depth + 1)
      case DocObj(members) =>
        |members| <= MAX_MEMBERS
        && forall i | 0 <= i < |members| ::
             KeyFits(t, members[i].0) && NewName(members, i) && Bounded(t, members[i].1, depth + 1)
      case _ => true
  }

  // ----- what the decoder charges -----

  function Charge(t: Texts, d: Doc): nat
    decreases d, 1, 0
  {
    match d
    case DocNull => 4
    case DocBool(b) => if b then 4 else 5
    case DocNum(digits) => |t.number(digits)|
    case DocStr(s) => |t.quote(s)|
    case DocArr(items) => 2 + ItemsCharge(t, d, |items|)
    case DocObj(members) => 2 + MembersCharge(t, d, |members|)
  }

  function ItemsCharge(t: Texts, d: Doc, n: nat): nat
    requires d.DocArr? && n <= |d.items|
    decreases d, 0, n
  {
    if n == 0 then 0 else
      ItemsCharge(t, d, n - 1) + Charge(t, d.items[n - 1]) + if n > 1 then 1 else 0
  }

  function MembersCharge(t: Texts, d: Doc, n: nat): nat
    requires d.DocObj? && n <= |d.members|
    decreases d, 0, n
  {
    if n == 0 then 0 else
      MembersCharge(t, d, n - 1) + |t.quote(d.members[n - 1].0)| + (if n > 1 then 2 else 1)
      + Charge(t, d.members[n - 1].1)
  }

  lemma {:induction false} ItemsChargeGrows(t: Texts, d: Doc, m: nat, n: nat)
    requires d.DocArr? && m <= n <= |d.items|
    ensures ItemsCharge(t, d, m) <= ItemsCharge(t, d, n)
  {
    if m < n { ItemsChargeGrows(t, d, m, n - 1); }
  }

  lemma {:induction false} MembersChargeGrows(t: Texts, d: Doc, m: nat, n: nat)
    requires d.DocObj? && m <= n <= |d.members|
    ensures MembersCharge(t, d, m) <= MembersCharge(t, d, n)
  {
    if m < n { MembersChargeGrows(t, d, m, n - 1); }
  }

  lemma {:induction false} FieldsOfKeys(d: Doc, n: nat)
    requires d.DocObj? && n <= |d.members|
    ensures forall k :: k in FieldsOf(d, n) <==> exists j | 0 <= j < n :: d.members[j].0 == k
  {
    if n > 0 {
      FieldsOfKeys(d, n - 1);
      assert FieldsOf(d, n) == FieldsOf(d, n - 1)[d.members[n - 1].0 := ValueOf(d.members[n - 1].1)];
      hide FieldsOf;
      forall k ensures k in FieldsOf(d, n) <==> exists j | 0 <= j < n :: d.members[j].0 == k {
        assert k in FieldsOf(d, n) <==> k == d.members[n - 1].0 || k in FieldsOf(d, n - 1);
        if j :| 0 <= j < n && d.members[j].0 == k {
          assert j < n - 1 ==> k in FieldsOf(d, n - 1);
        }
      }
    }
  }

  lemma {:induction false} FieldsOfSize(d: Doc, n: nat)
    requires d.DocObj? && n <= |d.members| && forall i | 0 <= i < n :: NewName(d.members, i)
    ensures |FieldsOf(d, n)| == n
  {
    if n > 0 {
      FieldsOfSize(d, n - 1);
      FieldsOfKeys(d, n - 1);
      assert NewName(d.members, n - 1);
      var fields, k := FieldsOf(d, n - 1), d.members[n - 1].0;
      assert k !in fields && FieldsOf(d, n) == fields[k := ValueOf(d.members[n - 1].1)];
    }
  }

  lemma NoItems(t: Texts, d: Doc)
    requires d.DocArr?
    ensures ItemsCharge(t, d, 0) == 0
  {
  }

  /** What the next element adds. */
  lemma NextItem(t: Texts, d: Doc, i: nat)
    requires d.DocArr? && i < |d.items|
    ensures ItemsCharge(t, d, i + 1) == ItemsCharge(t, d, i) + Charge(t, d.items[i]) + if i > 0 then 1 else 0
    ensures ItemsCharge(t, d, i + 1) <= ItemsCharge(t, d, |d.items|)
  {
    ItemsChargeGrows(t, d, i + 1, |d.items|);
  }

  lemma NoMembers(t: Texts, d: Doc)
    requires d.DocObj?
    ensures FieldsOf(d, 0) == map[] && MembersCharge(t, d, 0) == 0
  {
  }

  /** What the next member adds, and when its name is new. */
  lemma NextMember(t: Texts, d: Doc, i: nat)
    requires d.DocObj? && i < |d.members|
    ensures MembersCharge(t, d, i + 1) == MembersCharge(t, d, i) + |t.quote(d.members[i].0)| + (if i > 0 then 2 else 1)
                                          + Charge(t, d.members[i].1)
    ensures FieldsOf(d, i + 1) == FieldsOf(d, i)[d.members[i].0 := ValueOf(d.members[i].1)]
    ensures MembersCharge(t, d, i + 1) <= MembersCharge(t, d, |d.members|)
    ensures NewName(d.members, i) <==> d.members[i].0 !in FieldsOf(d, i)
    ensures (forall j | 0 <= j < i :: NewName(d.members, j)) ==> |FieldsOf(d, i)| == i
  {
    MembersChargeGrows(t, d, i + 1, |d.members|);
    FieldsOfKeys(d, i);
    if forall j | 0 <= j < i :: NewName(d.members, j) { FieldsOfSize(d, i); }
  }

  // ----- the decoder -----

  datatype Decoded = Decoded(value: Json) | Rejected

  class Strict {
    var remaining: nat

    constructor (budget: nat)
      ensures remaining == budget
    {
      remaining := budget;
    }

    method Pay(bytes: nat) returns (ok: bool)
      modifies this
      ensures ok <==> bytes <= old(remaining)
      ensures remaining == if ok then old(remaining) - bytes else old(remaining)
    {
      ok := bytes <= remaining;
      if ok { remaining := remaining - bytes; }
    }

    /** Accepts exactly the documents within the limits and the budget, and lowers the budget by
        exactly what the document is charged. */
    method Decode(t: Texts, d: Doc, depth: nat) returns (r: Decoded)
      modifies this
      ensures r.Decoded? <==> Bounded(t, d, depth) && Charge(t, d) <= old(remaining)
      ensures r.Decoded? ==> r.value == ValueOf(d) && remaining == old(remaining) - Charge(t, d)
      decreases d, 1
    {
      if depth > MAX_DEPTH { return Rejected; }
      match d {
        case DocNull =>
          var ok := Pay(4);
          return if ok then Decoded(Null) else Rejected;
        case DocBool(b) =>
          var ok := Pay(if b then 4 else 5);
          return if ok then Decoded(Bool(b)) else Rejected;
        case DocNum(digits) =>
          var ok := Pay(|t.number(digits)|);
          return if ok then Decoded(Num(digits)) else Rejected;
        case DocStr(s) =>
          if t.bytes(s) > MAX_STRING { return Rejected; }
          var ok := Pay(|t.quote(s)|);
          return if ok then Decoded(Str(s)) else Rejected;
        case DocArr(_) =>
          r := DecodeItems(t, d, depth);
        case DocObj(_) =>
          r := DecodeMembers(t, d, depth);
      }
    }

    method DecodeItems(t: Texts, d: Doc, depth: nat) returns (r: Decoded)
      requires d.DocArr? && depth <= MAX_DEPTH
      modifies this
      ensures r.Decoded? <==> Bounded(t, d, depth) && Charge(t, d) <= old(remaining)
      ensures r.Decoded? ==> r.value == ValueOf(d) && remaining == old(remaining) - Charge(t, d)
      decreases d, 0
    {
      hide ItemsCharge;
      NoItems(t, d);
      var ok := Pay(2);
      if !ok { return Rejected; }
      var values: seq<Json> := [];
      for i := 0 to |d.items|
        invariant |values| == i && forall j | 0 <= j < i :: values[j] == ValueOf(d.items[j])
        invariant i <= MAX_MEMBERS && forall j | 0 <= j < i :: Bounded(t, d.items[j], depth + 1)
        invariant remaining + 2 + ItemsCharge(t, d, i) == old(remaining)
      {
        NextItem(t, d, i);
        var next := Decode(t, d.items[i], if |values| >= MAX_MEMBERS then 9 else depth + 1);
        if next.Rejected? { return Rejected; }
        if values != [] {
          ok := Pay(1);
          if !ok { return Rejected; }
        }
        values := values + [next.value];
      }
      return Decoded(Arr(values));
    }

    method DecodeMembers(t: Texts, d: Doc, depth: nat) returns (r: Decoded)
      requires d.DocObj? && depth <= MAX_DEPTH
      modifies this
      ensures r.Decoded? <==> Bounded(t, d, depth) && Charge(t, d) <= old(remaining)
      ensures r.Decoded? ==> r.value == ValueOf(d) && remaining == old(remaining) - Charge(t, d)
      decreases d, 0
    {
      hide NewName, MembersCharge, FieldsOf, KeyFits;
      var ok := Pay(2);
      if !ok { return Rejected; }
      assert FieldsOf(d, 0) == map[] && MembersCharge(t, d, 0) == 0 by { NoMembers(t, d); }
      var fields: map<string, Json> := map[];
      for i := 0 to |d.members|
        invariant fields == FieldsOf(d, i) && i <= MAX_MEMBERS
        invariant forall j | 0 <= j < i ::
          KeyFits(t, d.members[j].0) && NewName(d.members, j) && Bounded(t, d.members[j].1, depth + 1)
        invariant remaining + 2 + MembersCharge(t, d, i) == old(remaining)
      {
        var key := d.members[i].0;
        NextMember(t, d, i);
        if !KeyFits(t, key) { return Rejected; }
        ok := Pay(|t.quote(key)|);
        if !ok { return Rejected; }
        if |fields| >= MAX_MEMBERS { return Rejected; }
        if key in fields { return Rejected; }
        ok := Pay(if fields == map[] then 1 else 2);
        if !ok { return Rejected; }
        var next := Decode(t, d.members[i].1, depth + 1);
        if next.Rejected? { return Rejected; }
        fields := fields[key := next.value];
      }
      return Decoded(Obj(fields));
    }
  }

  // ----- the charge is the length of the compact text -----

  /** The bytes a member takes, apart from commas. */
  function MemberCost(t: Texts, fields: map<string, Json>, k: string): nat
    requires k in fields
  {
    |t.quote(k)| + 1 + |Compact(t, fields[k])|
  }

  /** The bytes of some members together. */
  ghost function Total(t: Texts, fields: map<string, Json>, keys: set<string>): nat
    requires keys <= fields.Keys
  {
    if keys == {} then 0 else
      var k :| k in keys;
      MemberCost(t, fields, k) + Total(t, fields, keys - {k})
  }

  lemma SomeTaken(t: Texts, fields: map<string, Json>, keys: set<string>)
    requires keys <= fields.Keys && keys != {}
    ensures exists k :: k in keys && Total(t, fields, keys) == MemberCost(t, fields, k) + Total(t, fields, keys - {k})
  {
  }

  /** A total does not depend on which key is taken first. */
  lemma {:induction false} TotalTakes(t: Texts, fields: map<string, Json>, keys: set<string>, k: string)
    requires keys <= fields.Keys && k in keys
    ensures Total(t, fields, keys) == MemberCost(t, fields, k) + Total(t, fields, keys - {k})
    decreases |keys|
  {
    SomeTaken(t, fields, keys);
    var first :| first in keys &&
      Total(t, fields, keys) == MemberCost(t, fields, first) + Total(t, fields, keys - {first});
    hide Total, MemberCost;
    if first != k {
      TotalTakes(t, fields, keys - {first}, k);
      TotalTakes(t, fields, keys - {k}, first);
      assert keys - {first} - {k} == keys - {k} - {first};
    }
  }

  /** A total depends only on the members it is about. */
  lemma {:induction false} TotalSame(t: Texts, f: map<string, Json>, g: map<string, Json>, keys: set<string>)
    requires keys <= f.Keys && keys <= g.Keys && forall k | k in keys :: f[k] == g[k]
    ensures Total(t, f, keys) == Total(t, g, keys)
    decreases |keys|
  {
    if keys != {} {
      var k :| k in keys;
      TotalTakes(t, f, keys, k);
      TotalTakes(t, g, keys, k);
      hide Total;
      TotalSame(t, f, g, keys - {k});
    }
  }

  /** One more member adds its own bytes. */
  lemma TotalAdds(t: Texts, fields: map<string, Json>, k: string, v: Json)
    requires k !in fields
    ensures Total(t, fields[k := v], fields.Keys + {k})
         == Total(t, fields, fields.Keys) + |t.quote(k)| + 1 + |Compact(t, v)|
  {
    var more := fields[k := v];
    assert MemberCost(t, more, k) == |t.quote(k)| + 1 + |Compact(t, v)|;
    hide Total, MemberCost, Compact;
    TotalTakes(t, more, fields.Keys + {k}, k);
    assert fields.Keys + {k} - {k} == fields.Keys;
    TotalSame(t, more, fields, fields.Keys);
  }

  function Commas(n: nat): nat {
    if n > 1 then n - 1 else 0
  }

  /** Joining some members, in any order, takes their bytes and the commas. */
  lemma {:induction false} JoinedLength(t: Texts, v: Json, keys: seq<string>)
    requires v.Obj? && (forall i | 0 <= i < |keys| :: keys[i] in v.fields)
    requires forall i, j | 0 <= i < j < |keys| :: keys[i] != keys[j]
    ensures Elements(keys) <= v.fields.Keys
    ensures |JoinFields(t, v, keys)| == Total(t, v.fields, Elements(keys)) + Commas(|keys|)
  {
    if keys == [] {
      assert Elements(keys) == {};
    } else {
      var rest, k := keys[..|keys| - 1], keys[|keys| - 1];
      JoinedLength(t, v, rest);
      JoinStep(t, v, keys);
      hide Total, JoinFields, MemberCost;
      assert keys == rest + [k];
      assert k !in Elements(rest) && Elements(keys) == Elements(rest) + {k};
      TotalTakes(t, v.fields, Elements(keys), k);
      assert Elements(rest) + {k} - {k} == Elements(rest);
    }
  }

  lemma JoinStep(t: Texts, v: Json, keys: seq<string>)
    requires v.Obj? && keys != [] && forall i | 0 <= i < |keys| :: keys[i] in v.fields
    ensures |JoinFields(t, v, keys)| == |JoinFields(t, v, keys[..|keys| - 1])| + (if |keys| > 1 then 1 else 0)
                                        + MemberCost(t, v.fields, keys[|keys| - 1])
  {
  }

  lemma ObjectLength(t: Texts, v: Json)
    requires v.Obj?
    ensures |Compact(t, v)| == 2 + Total(t, v.fields, v.fields.Keys) + Commas(|v.fields|)
  {
    var keys := SortStrings(v.fields.Keys);
    StringOrder();
    AscendingDistinct(StringLess, keys);
    SortedKeys(v.fields);
    assert Compact(t, v) == "{" + JoinFields(t, v, keys) + "}";
    hide Ascending, StringLess, Total, Compact, JoinFields;
    JoinedLength(t, v, keys);
  }

  lemma SortedKeys(fields: map<string, Json>)
    ensures
      var keys := SortStrings(fields.Keys);
      forall i | 0 <= i < |keys| :: keys[i] in fields
  {
    hide Ascending;
    var keys := SortStrings(fields.Keys);
    forall i | 0 <= i < |keys| ensures keys[i] in fields { assert keys[i] in Elements(keys); }
  }

  lemma {:induction false} ItemsLength(t: Texts, d: Doc, depth: nat, n: nat)
    requires d.DocArr? && n <= |d.items| && Bounded(t, d, depth)
    ensures |JoinItems(t, ValueOf(d), n)| == ItemsCharge(t, d, n)
    decreases d, 0, n
  {
    if n > 0 {
      ItemsLength(t, d, depth, n - 1);
      ChargeIsLength(t, d.items[n - 1], depth + 1);
    }
  }

  lemma KeysGrow(fields: map<string, Json>, k: string, v: Json)
    ensures fields[k := v].Keys == fields.Keys + {k}
  {
  }

  lemma NoCommas()
    ensures Commas(0) == 0
  {
  }

  lemma OneMoreComma(n: nat)
    requires n > 0
    ensures Commas(n) == Commas(n - 1) + if n > 1 then 1 else 0
  {
  }

  lemma {:induction false} MembersLength(t: Texts, d: Doc, depth: nat, n: nat)
    requires d.DocObj? && n <= |d.members| && Bounded(t, d, depth)
    ensures Total(t, FieldsOf(d, n), FieldsOf(d, n).Keys) + Commas(n) == MembersCharge(t, d, n)
    decreases d, 0, n
  {
    hide FieldsOf, MembersCharge, Bounded, Charge, Compact, Total, ValueOf, NewName, MemberCost, JoinFields,
         JoinItems, Commas;
    if n == 0 {
      NoMembers(t, d);
      NothingTotals(t);
      NoCommas();
      assert FieldsOf(d, n) == map[] && FieldsOf(d, n).Keys == {};
    } else {
      var k, v, fields := d.members[n - 1].0, ValueOf(d.members[n - 1].1), FieldsOf(d, n - 1);
      MemberBounded(t, d, depth, n - 1);
      MembersLength(t, d, depth, n - 1);
      ChargeIsLength(t, d.members[n - 1].1, depth + 1);
      NextMember(t, d, n - 1);
      TotalAdds(t, fields, k, v);
      OneMoreComma(n);
      assert FieldsOf(d, n) == fields[k := v];
      KeysGrow(fields, k, v);
    }
  }

  lemma NothingTotals(t: Texts)
    ensures Total(t, map[], {}) == 0
  {
  }

  lemma MemberBounded(t: Texts, d: Doc, depth: nat, i: nat)
    requires d.DocObj? && i < |d.members| && Bounded(t, d, depth)
    ensures NewName(d.members, i) && Bounded(t, d.members[i].1, depth + 1)
  {
  }

  /** The decoder charges exactly the compact length of the value it returns. */
  lemma {:induction false} ChargeIsLength(t: Texts, d: Doc, depth: nat)
    requires Bounded(t, d, depth)
    ensures Charge(t, d) == |Compact(t, ValueOf(d))|
    decreases d, 1, 0
  {
    match d
    case DocArr(items) =>
      ItemsLength(t, d, depth, |items|);
      assert Compact(t, ValueOf(d)) == "[" + JoinItems(t, ValueOf(d), |items|) + "]";
    case DocObj(members) =>
      MembersLength(t, d, depth, |members|);
      FieldsOfSize(d, |members|);
      ObjectLength(t, ValueOf(d));
    case _ =>
  }

  // ----- the limits, part by part -----

  function Width(d: Doc): nat {
    match d
    case DocArr(items) => |items|
    case DocObj(members) => |members|
    case _ => 0
  }

  function Child(d: Doc, i: nat): Doc
    requires i < Width(d)
  {
    if d.DocArr? then d.items[i] else d.members[i].1
  }

  /** The path leads to a part of the document; its length is how deep that part is nested. */
  predicate Leads(d: Doc, path: seq<nat>) {
    path == [] || (path[0] < Width(d) && Leads(Child(d, path[0]), path[1..]))
  }

  function Part(d: Doc, path: seq<nat>): Doc
    requires Leads(d, path)
  {
    if path == [] then d else Part(Child(d, path[0]), path[1..])
  }

  /** Strings of at most 4096 bytes, at most 128 elements, at most 128 members under different names of
      at most 512 bytes. */
  predicate Modest(t: Texts, p: Doc) {
    match p
    case DocStr(s) => t.bytes(s) <= 4096
    case DocArr(items) => |items| <= 128
    case DocObj(members) =>
      && |members| <= 128
      && (forall i | 0 <= i < |members| :: t.bytes(members[i].0) <= 512)
      && (forall i, j | 0 <= i < j < |members| :: members[i].0 != members[j].0)
    case _ => true
  }

  /** No part is nested deeper than eight, counted from where the document stands. */
  ghost predicate PartsModest(t: Texts, d: Doc, depth: nat) {
    forall path: seq<nat> | Leads(d, path) :: depth + |path| <= 8 && Modest(t, Part(d, path))
  }

  lemma BoundedStep(t: Texts, d: Doc, depth: nat)
    ensures Bounded(t, d, depth) <==>
            depth <= 8 && Modest(t, d) && forall i | 0 <= i < Width(d) :: Bounded(t, Child(d, i), depth + 1)
  {
    if d.DocObj? { ObjectStep(t, d, depth); } else if d.DocArr? { ArrayStep(t, d, depth); }
  }

  lemma ArrayStep(t: Texts, d: Doc, depth: nat)
    requires d.DocArr?
    ensures Bounded(t, d, depth) <==>
            depth <= 8 && Modest(t, d) && forall i | 0 <= i < Width(d) :: Bounded(t, Child(d, i), depth + 1)
  {
    if depth <= 8 && Modest(t, d) && forall i | 0 <= i < Width(d) :: Bounded(t, Child(d, i), depth + 1) {
      forall i | 0 <= i < |d.items| ensures Bounded(t, d.items[i], depth + 1) {
        assert Bounded(t, Child(d, i), depth + 1);
      }
    }
  }

  lemma ObjectStep(t: Texts, d: Doc, depth: nat)
    requires d.DocObj?
    ensures Bounded(t, d, depth) <==>
            depth <= 8 && Modest(t, d) && forall i | 0 <= i < Width(d) :: Bounded(t, Child(d, i), depth + 1)
  {
    var members := d.members;
    NamesDiffer(members);
    if Bounded(t, d, depth) {
      forall i | 0 <= i < |members| ensures t.bytes(members[i].0) <= 512 && NewName(members, i) && Bounded(t, Child(d, i), depth + 1) {
        assert KeyFits(t, members[i].0) && Bounded(t, members[i].1, depth + 1);
      }
    }
    if depth <= 8 && Modest(t, d) && forall i | 0 <= i < Width(d) :: Bounded(t, Child(d, i), depth + 1) {
      forall i | 0 <= i < |members|
        ensures KeyFits(t, members[i].0) && NewName(members, i) && Bounded(t, members[i].1, depth + 1)
      {
        assert Bounded(t, Child(d, i), depth + 1);
      }
    }
  }

  lemma NamesDiffer(members: seq<(string, Doc)>)
    ensures (forall i | 0 <= i < |members| :: NewName(members, i)) <==>
            forall i, j | 0 <= i < j < |members| :: members[i].0 != members[j].0
  {
    if forall i | 0 <= i < |members| :: NewName(members, i) {
      forall i, j | 0 <= i < j < |members| ensures members[i].0 != members[j].0 { assert NewName(members, j); }
    }
  }

  lemma PartsStep(t: Texts, d: Doc, depth: nat)
    ensures PartsModest(t, d, depth) <==>
            depth <= 8 && Modest(t, d) && forall i | 0 <= i < Width(d) :: PartsModest(t, Child(d, i), depth + 1)
  {
    hide Modest, Child, Width;
    if PartsModest(t, d, depth) {
      assert Leads(d, []) && Part(d, []) == d;
      forall i, path: seq<nat> | 0 <= i < Width(d) && Leads(Child(d, i), path)
        ensures depth + 1 + |path| <= 8 && Modest(t, Part(Child(d, i), path))
      {
        var longer := [i] + path;
        assert longer[1..] == path && Leads(d, longer);
      }
    }
    if depth <= 8 && Modest(t, d) && forall i | 0 <= i < Width(d) :: PartsModest(t, Child(d, i), depth + 1) {
      forall path: seq<nat> | Leads(d, path) ensures depth + |path| <= 8 && Modest(t, Part(d, path)) {
        if path != [] { assert PartsModest(t, Child(d, path[0]), depth + 1); }
      }
    }
  }

  /** The limits hold exactly when every part is modest and at most eight levels down. */
  lemma {:induction false} BoundedExactly(t: Texts, d: Doc, depth: nat)
    ensures Bounded(t, d, depth) <==> PartsModest(t, d, depth)
    decreases d
  {
    BoundedStep(t, d, depth);
    PartsStep(t, d, depth);
    hide Bounded, PartsModest, Modest;
    forall i | 0 <= i < Width(d) ensures Bounded(t, Child(d, i), depth + 1) <==> PartsModest(t, Child(d, i), depth + 1) {
      BoundedExactly(t, Child(d, i), depth + 1);
    }
  }

  /** What the byte reader makes of some bytes: a document with nothing after it, or nothing. */
  datatype Input = Input(size: nat, parsed: Doc, wellFormed: bool)

  /** `strict_json`: accepts exactly well-formed documents of at most 64 KiB as given and in compact
      form, of which every part is modest and at most eight levels down. */
  method StrictJson(t: Texts, input: Input) returns (r: Decoded)
    ensures r.Decoded? <==>
              && input.size <= 64 * 1024 && input.wellFormed && PartsModest(t, input.parsed, 0)
              && |Compact(t, ValueOf(input.parsed))| <= 64 * 1024
    ensures r.Decoded? ==> r.value == ValueOf(input.parsed)
  {
    BoundedExactly(t, input.parsed, 0);
    if Bounded(t, input.parsed, 0) { ChargeIsLength(t, input.parsed, 0); }
    if input.size > MAX_BYTES || !input.wellFormed { return Rejected; }
    var strict := new Strict(MAX_BYTES);
    r := strict.Decode(t, input.parsed, 0);
  }
}
