// Filtering the proxies of a subscription: strict for native documents, lenient for converted links.
module ProxyFilter {
  import opened Wrappers
  import opened GoStrings
  import M = Mieru

  const MIN_INT := -0x8000_0000_0000_0000

  type Int64 = v: int | MIN_INT <= v <= MAX_INT
  type Uint64 = v: int | 0 <= v < 0x1_0000_0000_0000_0000

  // A decoded value. Integers of all widths are one case by sign; a float is its real value unless it is not finite.
  datatype Value =
    | Null | Text(text: string) | Boolean(flag: bool) | Signed(signed: Int64) | Unsigned(unsigned: Uint64)
    | Float(float: real) | NotFinite | Array | Object | OtherValue

  type Mapping = map<string, Value>

  datatype Rule = Rule(required: bool, kind: string)

  type RuleTable = map<string, map<string, Rule>>

  // ---------------------------------------------------------------- values

  // What converting the float 2^63, which passes the range test, to an integer yields is up to the machine.
  function ProxyInteger(v: Value, atLimit: Int64): Option<Int64> {
    match v
    case Signed(n) => Some(n)
    case Unsigned(n) => if n > MAX_INT then None else Some(n)
    case Float(r) =>
      if r.Floor as real != r || r < MIN_INT as real || r > (MAX_INT + 1) as real then None
      else if r.Floor > MAX_INT then Some(atLimit)
      else Some(r.Floor)
    case Text(s) =>
      var n := Atoi(TrimSpace(s));
      if n.Some? && MIN_INT <= n.value <= MAX_INT then Some(n.value) else None
    case _ => None
  }

  predicate ParsesAsBool(s: string) {
    s == "1" || s == "t" || s == "T" || s == "TRUE" || s == "true" || s == "True" ||
    s == "0" || s == "f" || s == "F" || s == "FALSE" || s == "false" || s == "False"
  }

  predicate IsScalar(v: Value) {
    v.Text? || v.Boolean? || v.Signed? || v.Unsigned? || v.Float? || v.NotFinite?
  }

  predicate IsCompatible(v: Value, kind: string, atLimit: Int64) {
    if v.Null? then false
    else if kind == "any" then true
    else if kind == "string" then IsScalar(v)
    else if kind == "int" then ProxyInteger(v, atLimit).Some?
    else if kind == "bool" then
      v.Boolean? || (v.Text? && (ParsesAsBool(v.text) || v.text == "0" || v.text == "1")) ||
      ((v.Signed? || v.Unsigned?) && (ProxyInteger(v, atLimit) == Some(0) || ProxyInteger(v, atLimit) == Some(1)))
    else if kind == "array" then v.Array?
    else if kind == "object" then v.Object?
    else false
  }

  predicate IsEmptyRequired(v: Value) {
    v.Null? || (v.Text? && TrimSpace(v.text) == "")
  }

  // Text that neither begins nor ends with a space stays, and spaces before it go.
  lemma Trimmed(s: string)
    requires s != "" && s[0] !in SPACES && s[|s| - 1] !in SPACES
    ensures TrimSpace(s) == TrimSpace(" " + s) == s
  {
    assert (" " + s)[1..] == s;
  }

  // A natural number is the same number as an integer of either sign, as a float and as text, with or without
  // spaces around it and a sign before it.
  lemma NumbersAgree(n: int, atLimit: Int64)
    requires 0 <= n <= MAX_INT
    ensures ProxyInteger(Signed(n), atLimit) == ProxyInteger(Unsigned(n), atLimit) == Some(n)
    ensures ProxyInteger(Float(n as real), atLimit) == Some(n)
    ensures ProxyInteger(Text(Itoa(n)), atLimit) == ProxyInteger(Text(" " + Itoa(n)), atLimit) == Some(n)
    ensures ProxyInteger(Text("+" + Itoa(n)), atLimit) == Some(n)
    ensures ProxyInteger(Text("-" + Itoa(n)), atLimit) == Some(-n)
  {
    hide Itoa, Atoi, TrimSpace;
    AtoiOfSigned(n);
    assert forall c :: IsDigit(c) ==> c !in SPACES;
    Trimmed(Itoa(n));
    Trimmed("+" + Itoa(n));
    Trimmed("-" + Itoa(n));
  }

  // ---------------------------------------------------------------- one mapping

  predicate RuleHolds(m: Mapping, field: string, rule: Rule, atLimit: Int64) {
    (rule.required ==> field in m && !IsEmptyRequired(m[field])) &&
    (field in m ==> IsCompatible(m[field], rule.kind, atLimit))
  }

  predicate HasRules(m: Mapping, table: RuleTable) {
    "type" in m && m["type"].Text? && m["type"].text != "" && m["type"].text in table
  }

  predicate PortHolds(m: Mapping, atLimit: Int64) {
    "port" in m ==>
      var port := ProxyInteger(m["port"], atLimit);
      port.Some? && 1 <= port.value <= 65535
  }

  predicate SmuxHolds(m: Mapping) { "smux" in m ==> m["smux"].Object? }

  // Every rule of its type holds for a valid mapping, in whatever order they are looked at.
  predicate Valid(m: Mapping, table: RuleTable, atLimit: Int64) {
    HasRules(m, table) &&
    (var rules := table[m["type"].text]; forall field :: field in rules ==> RuleHolds(m, field, rules[field], atLimit)) &&
    PortHolds(m, atLimit) && SmuxHolds(m)
  }

  datatype Verdict =
    | Accepted | MissingType | UnsupportedType | Missing(field: string) | WrongKind(field: string, kind: string)
    | BadPort | BadSmux

  // What each verdict claims about a mapping.
  predicate Explains(v: Verdict, m: Mapping, table: RuleTable, atLimit: Int64) {
    match v
    case Accepted => Valid(m, table, atLimit)
    case MissingType => "type" !in m || !m["type"].Text? || m["type"].text == ""
    case UnsupportedType => "type" in m && m["type"].Text? && m["type"].text !in table
    case Missing(field) =>
      HasRules(m, table) && field in table[m["type"].text] && table[m["type"].text][field].required &&
      (field !in m || IsEmptyRequired(m[field]))
    case WrongKind(field, kind) =>
      HasRules(m, table) && field in table[m["type"].text] && kind == table[m["type"].text][field].kind &&
      field in m && !IsCompatible(m[field], kind, atLimit)
    case BadPort => HasRules(m, table) && !PortHolds(m, atLimit)
    case BadSmux => HasRules(m, table) && !SmuxHolds(m)
  }

  // Accepts exactly the valid mappings, although the rules come in an order that is not fixed; which reason is given
  // for a rejection may depend on that order, but it always is a true one.
  method ValidateProxyMapping(m: Mapping, table: RuleTable, atLimit: Int64) returns (v: Verdict)
    ensures v.Accepted? <==> Valid(m, table, atLimit)
    ensures Explains(v, m, table, atLimit)
  {
    hide IsCompatible, IsEmptyRequired, ProxyInteger;
    if "type" !in m || !m["type"].Text? || m["type"].text == "" {
      return MissingType;
    }
    var proxyType := m["type"].text;
    if proxyType !in table {
      return UnsupportedType;
    }
    var rules := table[proxyType];
    var fields := rules.Keys;
    while fields != {}
      invariant fields <= rules.Keys
      invariant forall f :: f in rules && f !in fields ==> RuleHolds(m, f, rules[f], atLimit)
      decreases |fields|
    {
      var field :| field in fields;
      fields := fields - {field};
      var rule := rules[field];
      if rule.required && (field !in m || IsEmptyRequired(m[field])) {
        assert !RuleHolds(m, field, rules[field], atLimit);
        return Missing(field);
      }
      if field in m && !IsCompatible(m[field], rule.kind, atLimit) {
        assert !RuleHolds(m, field, rules[field], atLimit);
        return WrongKind(field, rule.kind);
      }
    }
    if "port" in m {
      var port := ProxyInteger(m["port"], atLimit);
      if port.None? || port.value < 1 || port.value > 65535 {
        return BadPort;
      }
    }
    if "smux" in m && !IsCompatible(m["smux"], "object", atLimit) {
      ObjectsOnly(m["smux"], atLimit);
      return BadSmux;
    }
    if "smux" in m { ObjectsOnly(m["smux"], atLimit); }
    v := Accepted;
  }

  lemma ObjectsOnly(v: Value, atLimit: Int64)
    ensures IsCompatible(v, "object", atLimit) <==> v.Object?
  {
  }

  // ---------------------------------------------------------------- a list of mappings

  predicate Named(m: Mapping) { "name" in m && m["name"].Text? && m["name"].text != "" }

  function NameOf(m: Mapping): string
    requires Named(m)
  {
    m["name"].text
  }

  predicate Good(m: Mapping, table: RuleTable, atLimit: Int64) { Named(m) && Valid(m, table, atLimit) }

  predicate SameName(a: Mapping, b: Mapping) { Named(a) && Named(b) && NameOf(a) == NameOf(b) }

  // An earlier good mapping of the list has the name of mapping i.
  predicate Taken(ms: seq<Mapping>, i: nat, table: RuleTable, atLimit: Int64)
    requires i < |ms|
  {
    exists j :: 0 <= j < i && Good(ms[j], table, atLimit) && SameName(ms[j], ms[i])
  }

  // The first good mapping of its name.
  predicate First(ms: seq<Mapping>, i: nat, table: RuleTable, atLimit: Int64)
    requires i < |ms|
  {
    Good(ms[i], table, atLimit) && !Taken(ms, i, table, atLimit)
  }

  // What a strict document is rejected for: no name, or an invalid mapping under a name that is still free.
  predicate Offends(ms: seq<Mapping>, i: nat, table: RuleTable, atLimit: Int64)
    requires i < |ms|
  {
    !Named(ms[i]) || (!Valid(ms[i], table, atLimit) && !Taken(ms, i, table, atLimit))
  }

  function Positions(ms: seq<Mapping>, table: RuleTable, atLimit: Int64): seq<nat> {
    if ms == [] then []
    else
      var n := |ms| - 1;
      Positions(ms[..n], table, atLimit) + if First(ms, n, table, atLimit) then [n] else []
  }

  lemma {:induction false} PositionsAreExact(ms: seq<Mapping>, table: RuleTable, atLimit: Int64)
    ensures var ps := Positions(ms, table, atLimit);
            (forall k :: 0 <= k < |ps| ==> ps[k] < |ms|) &&
            (forall k, l :: 0 <= k < l < |ps| ==> ps[k] < ps[l]) &&
            (forall i :: 0 <= i < |ms| ==> (i in ps <==> First(ms, i, table, atLimit)))
  {
    hide Good, SameName;
    if ms != [] {
      var n := |ms| - 1;
      PositionsAreExact(ms[..n], table, atLimit);
      forall i | 0 <= i < n
        ensures First(ms, i, table, atLimit) == First(ms[..n], i, table, atLimit)
      {
        TakenInPrefix(ms, n, i, table, atLimit);
      }
    }
  }

  lemma TakenInPrefix(ms: seq<Mapping>, n: nat, i: nat, table: RuleTable, atLimit: Int64)
    requires i < n <= |ms|
    ensures Taken(ms, i, table, atLimit) == Taken(ms[..n], i, table, atLimit)
    ensures First(ms, i, table, atLimit) == First(ms[..n], i, table, atLimit)
    ensures Offends(ms, i, table, atLimit) == Offends(ms[..n], i, table, atLimit)
  {
    hide Valid, SameName;
    var p := ms[..n];
    assert forall j :: 0 <= j <= i ==> p[j] == ms[j];
    if Taken(ms, i, table, atLimit) {
      var j :| 0 <= j < i && Good(ms[j], table, atLimit) && SameName(ms[j], ms[i]);
      assert Good(p[j], table, atLimit) && SameName(p[j], p[i]);
    }
    if Taken(p, i, table, atLimit) {
      var j :| 0 <= j < i && Good(p[j], table, atLimit) && SameName(p[j], p[i]);
      assert Good(ms[j], table, atLimit) && SameName(ms[j], ms[i]);
    }
  }

  // The first good mapping of every name, in order.
  function Selected(ms: seq<Mapping>, table: RuleTable, atLimit: Int64): (r: seq<Mapping>)
    ensures |r| == |Positions(ms, table, atLimit)|
  {
    PositionsAreExact(ms, table, atLimit);
    var ps := Positions(ms, table, atLimit);
    seq(|ps|, k requires 0 <= k < |ps| => ms[ps[k]])
  }

  // The selection takes a mapping exactly if it is the first good one of its name, keeps the order and never takes a
  // name twice.
  lemma {:induction false} SelectedIsSound(ms: seq<Mapping>, table: RuleTable, atLimit: Int64)
    ensures var ps, r := Positions(ms, table, atLimit), Selected(ms, table, atLimit);
            (forall k :: 0 <= k < |r| ==> ps[k] < |ms| && r[k] == ms[ps[k]] && Good(r[k], table, atLimit)) &&
            (forall k, l :: 0 <= k < l < |r| ==> ps[k] < ps[l] && !SameName(r[k], r[l])) &&
            (forall i :: 0 <= i < |ms| ==> (First(ms, i, table, atLimit) <==> i in ps))
  {
    hide Valid, SameName;
    PositionsAreExact(ms, table, atLimit);
    var ps, r := Positions(ms, table, atLimit), Selected(ms, table, atLimit);
    forall k | 0 <= k < |r| ensures First(ms, ps[k], table, atLimit) {
      assert ps[k] in ps;
    }
    forall k, l | 0 <= k < l < |r| ensures !SameName(r[k], r[l]) {
      assert !Taken(ms, ps[l], table, atLimit) && Good(ms[ps[k]], table, atLimit);
    }
  }

  // Going back from a good mapping to the first good one of its name.
  lemma {:induction false} FirstOfName(ms: seq<Mapping>, i: nat, table: RuleTable, atLimit: Int64) returns (j: nat)
    requires i < |ms| && Good(ms[i], table, atLimit)
    ensures j <= i && First(ms, j, table, atLimit) && SameName(ms[j], ms[i])
    decreases i
  {
    hide Valid;
    if Taken(ms, i, table, atLimit) {
      var k :| 0 <= k < i && Good(ms[k], table, atLimit) && SameName(ms[k], ms[i]);
      j := FirstOfName(ms, k, table, atLimit);
    } else {
      j := i;
    }
  }

  // Every good mapping is represented by one of the same name, at or before it.
  lemma SelectedIsComplete(ms: seq<Mapping>, i: nat, table: RuleTable, atLimit: Int64) returns (k: nat)
    requires i < |ms| && Good(ms[i], table, atLimit)
    ensures k < |Selected(ms, table, atLimit)| && Positions(ms, table, atLimit)[k] <= i
    ensures SameName(Selected(ms, table, atLimit)[k], ms[i])
  {
    hide Good, Positions, SameName;
    SelectedIsSound(ms, table, atLimit);
    var j := FirstOfName(ms, i, table, atLimit);
    var ps := Positions(ms, table, atLimit);
    assert j in ps;
    k :| 0 <= k < |ps| && ps[k] == j;
  }

  // Selecting from a selection changes nothing.
  lemma SelectedIsStable(ms: seq<Mapping>, table: RuleTable, atLimit: Int64)
    ensures Selected(Selected(ms, table, atLimit), table, atLimit) == Selected(ms, table, atLimit)
  {
    hide Valid, Positions;
    var r := Selected(ms, table, atLimit);
    SelectedIsSound(ms, table, atLimit);
    AllFirst(r, table, atLimit);
  }

  lemma {:induction false} AllFirst(r: seq<Mapping>, table: RuleTable, atLimit: Int64)
    requires forall k :: 0 <= k < |r| ==> Good(r[k], table, atLimit)
    requires forall k, l :: 0 <= k < l < |r| ==> !SameName(r[k], r[l])
    ensures Positions(r, table, atLimit) == seq(|r|, k => k)
    ensures Selected(r, table, atLimit) == r
  {
    hide Valid;
    if r != [] {
      var n := |r| - 1;
      AllFirst(r[..n], table, atLimit);
      assert First(r, n, table, atLimit);
    }
    assert Positions(r, table, atLimit) == seq(|r|, k => k);
  }

  datatype Error = NoProxiesField | MissingName(index: nat) | Rejected(index: nat, verdict: Verdict) | NoProxy

  datatype Result = Proxies(proxies: seq<Mapping>) | Failed(error: Error)

  predicate Blamed(e: Error, ms: seq<Mapping>, i: nat, table: RuleTable, atLimit: Int64)
    requires i < |ms|
  {
    Offends(ms, i, table, atLimit) &&
    (e == MissingName(i) <==> !Named(ms[i])) &&
    (Named(ms[i]) ==> e.Rejected? && e.index == i && Explains(e.verdict, ms[i], table, atLimit))
  }

  lemma SelectedStep(ms: seq<Mapping>, i: nat, table: RuleTable, atLimit: Int64)
    requires i < |ms|
    ensures Selected(ms[..i + 1], table, atLimit) ==
            Selected(ms[..i], table, atLimit) + if First(ms, i, table, atLimit) then [ms[i]] else []
  {
    hide Valid, Taken;
    assert ms[..i + 1][..i] == ms[..i];
    TakenInPrefix(ms, i + 1, i, table, atLimit);
    PositionsAreExact(ms[..i], table, atLimit);
    PositionsAreExact(ms[..i + 1], table, atLimit);
  }

  function NamesOf(r: seq<Mapping>): set<string> {
    set m | m in r && Named(m) :: NameOf(m)
  }

  // The names kept so far are the names taken.
  lemma NamesAreTaken(ms: seq<Mapping>, i: nat, table: RuleTable, atLimit: Int64)
    requires i < |ms| && Named(ms[i])
    ensures NameOf(ms[i]) in NamesOf(Selected(ms[..i], table, atLimit)) <==> Taken(ms, i, table, atLimit)
  {
    hide Good, Positions, Selected;
    var r := Selected(ms[..i], table, atLimit);
    SelectedIsSound(ms[..i], table, atLimit);
    if NameOf(ms[i]) in NamesOf(r) {
      var m :| m in r && Named(m) && NameOf(m) == NameOf(ms[i]);
      var k :| 0 <= k < |r| && r[k] == m;
      var j := Positions(ms[..i], table, atLimit)[k];
      assert ms[..i][j] == ms[j] && SameName(ms[j], ms[i]);
    }
    if Taken(ms, i, table, atLimit) {
      var j :| 0 <= j < i && Good(ms[j], table, atLimit) && SameName(ms[j], ms[i]);
      assert ms[..i][j] == ms[j];
      var k := SelectedIsComplete(ms[..i], j, table, atLimit);
      assert r[k] in r;
    }
  }

  // A lenient run takes the selection; a strict one takes the same, unless some mapping offends, and then it blames
  // the first that does. Either fails if there is nothing to take.
  method FilterProxies(ms: seq<Mapping>, fromURI: bool, table: RuleTable, atLimit: Int64) returns (r: Result)
    ensures r.Proxies? ==> r.proxies == Selected(ms, table, atLimit) != []
    ensures r.Proxies? <==> Selected(ms, table, atLimit) != [] &&
                            (fromURI || forall i :: 0 <= i < |ms| ==> !Offends(ms, i, table, atLimit))
    ensures r.Failed? && r.error == NoProxy ==> Selected(ms, table, atLimit) == []
    ensures r.Failed? && r.error != NoProxy ==>
              !fromURI && exists i :: 0 <= i < |ms| && Blamed(r.error, ms, i, table, atLimit) &&
                                      forall j :: 0 <= j < i ==> !Offends(ms, j, table, atLimit)
  {
    hide Valid, Selected, NamesOf, Explains, Taken;
    var proxies, names := [], {};
    assert ms[..0] == [];
    NothingSelected(table, atLimit);
    for index := 0 to |ms|
      invariant proxies == Selected(ms[..index], table, atLimit)
      invariant names == NamesOf(proxies)
      invariant fromURI || forall i :: 0 <= i < index ==> !Offends(ms, i, table, atLimit)
    {
      var mapping := ms[index];
      SelectedStep(ms, index, table, atLimit);
      if !Named(mapping) {
        if fromURI {
          continue;
        }
        assert Blamed(MissingName(index), ms, index, table, atLimit);
        return Failed(MissingName(index));
      }
      NamesAreTaken(ms, index, table, atLimit);
      if NameOf(mapping) in names {
        continue;
      }
      var verdict := ValidateProxyMapping(mapping, table, atLimit);
      if !verdict.Accepted? {
        if fromURI {
          continue;
        }
        assert Blamed(Rejected(index, verdict), ms, index, table, atLimit);
        return Failed(Rejected(index, verdict));
      }
      NamesGrow(proxies, mapping);
      names := names + {NameOf(mapping)};
      proxies := proxies + [mapping];
    }
    assert ms[..|ms|] == ms;
    if |proxies| == 0 {
      return Failed(NoProxy);
    }
    r := Proxies(proxies);
  }

  lemma NothingSelected(table: RuleTable, atLimit: Int64)
    ensures Selected([], table, atLimit) == [] && NamesOf([]) == {}
  {
  }

  lemma NamesGrow(r: seq<Mapping>, m: Mapping)
    requires Named(m)
    ensures NamesOf(r + [m]) == NamesOf(r) + {NameOf(m)}
  {
    assert forall x :: x in r + [m] <==> x in r || x == m;
  }

  // A document the strict filter takes loses no name.
  lemma StrictLosesNoName(ms: seq<Mapping>, i: nat, table: RuleTable, atLimit: Int64)
    requires forall j :: 0 <= j < |ms| ==> !Offends(ms, j, table, atLimit)
    requires i < |ms|
    ensures Named(ms[i]) &&
            exists k :: 0 <= k < |Selected(ms, table, atLimit)| && SameName(Selected(ms, table, atLimit)[k], ms[i])
  {
    hide Valid, Selected, Positions;
    assert !Offends(ms, i, table, atLimit);
    var j := i;
    if Taken(ms, i, table, atLimit) {
      j :| 0 <= j < i && Good(ms[j], table, atLimit) && SameName(ms[j], ms[i]);
    }
    var k := SelectedIsComplete(ms, j, table, atLimit);
  }

  // ---------------------------------------------------------------- whole subscriptions

  // The libraries: the native document reader and the link converter give a list that may be nil, or fail.
  datatype Env = Env(
    unmarshal: string -> Option<Option<seq<Mapping>>>,
    decodeBase64: string -> string,
    preprocess: string -> string,
    convert: string -> Option<Option<seq<Mapping>>>,
    mieru: M.Env,
    table: RuleTable,
    atLimit: Int64)

  // The mappings a subscription holds: a native document's, or those of its links.
  function Decoded(env: Env, subscription: string): Option<Option<seq<Mapping>>> {
    var native := env.unmarshal(subscription);
    if native.Some? then native
    else env.convert(env.preprocess(M.Expand(env.mieru, env.decodeBase64(subscription))))
  }

  // A subscription yields the selection of its mappings; it fails as a whole if it cannot be decoded, selects
  // nothing, or is a native document with an offending mapping. None stands for a failed conversion.
  method ParseSubscription(env: Env, subscription: string) returns (r: Option<Result>)
    ensures r.None? <==> Decoded(env, subscription).None?
    ensures r.Some? && r.value.Proxies? <==>
              var d := Decoded(env, subscription);
              d.Some? && d.value.Some? && Selected(d.value.value, env.table, env.atLimit) != [] &&
              (env.unmarshal(subscription).None? ||
               forall i :: 0 <= i < |d.value.value| ==> !Offends(d.value.value, i, env.table, env.atLimit))
    ensures r.Some? && r.value.Proxies? ==>
              r.value.proxies == Selected(Decoded(env, subscription).value.value, env.table, env.atLimit)
  {
    hide M.Expand, Selected, Offends;
    var schema := env.unmarshal(subscription);
    var fromURI := false;
    if schema.None? {
      var links := M.ExpandSubscription(env.mieru, env.decodeBase64(subscription));
      schema := env.convert(env.preprocess(links));
      if schema.None? {
        return None;
      }
      fromURI := true;
    }
    if schema.value.None? {
      return Some(Failed(NoProxiesField));
    }
    var result := FilterProxies(schema.value.value, fromURI, env.table, env.atLimit);
    r := Some(result);
  }

  // A strict document may hold an invalid proxy, if its name was taken by a valid one before: here the second has no
  // type.
  lemma ShadowedProxyAccepted(atLimit: Int64)
    ensures var table: RuleTable := map["http" := map[]];
            var good: Mapping := map["name" := Text("a"), "type" := Text("http")];
            var bad: Mapping := map["name" := Text("a")];
            !Valid(bad, table, atLimit) && Selected([good, bad], table, atLimit) == [good] &&
            forall i :: 0 <= i < 2 ==> !Offends([good, bad], i, table, atLimit)
  {
    var table: RuleTable := map["http" := map[]];
    var good: Mapping := map["name" := Text("a"), "type" := Text("http")];
    var bad: Mapping := map["name" := Text("a")];
    var ms := [good, bad];
    assert Good(good, table, atLimit) && SameName(good, bad) && !Valid(bad, table, atLimit);
    hide Valid, Selected;
    assert Taken(ms, 1, table, atLimit) by { assert Good(ms[0], table, atLimit) && SameName(ms[0], ms[1]); }
    assert First(ms, 0, table, atLimit) && !First(ms, 1, table, atLimit);
    NothingSelected(table, atLimit);
    SelectedStep(ms, 0, table, atLimit);
    SelectedStep(ms, 1, table, atLimit);
    assert ms[..0] == [] && ms[..1 + 1] == ms;
  }
}
