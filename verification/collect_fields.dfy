// Collecting the tagged fields of a struct type through its embedded types, cycles included.
module CollectFields {
  import opened Wrappers

  datatype TypeExpr = Ident(name: string) | Star(x: TypeExpr) | ArrayType | MapType | StructType | InterfaceType | OtherType

  // What proxyField reads in a tag: the field's name and whether it may be omitted.
  datatype Tag = Tag(name: string, omitEmpty: bool)

  // A field declaration: its tag, if any, how many names it declares (none: it is embedded), and its type.
  datatype Field = Field(tag: Option<Tag>, names: nat, typ: TypeExpr)

  datatype Rule = Rule(kind: string, required: bool)

  type Structs = map<string, seq<Field>>

  function EmbeddedTypeName(e: TypeExpr): string {
    match e
    case Ident(name) => name
    case Star(x) => EmbeddedTypeName(x)
    case _ => ""
  }

  predicate IsNumericType(name: string) {
    name in ["int", "int8", "int16", "int32", "int64", "uint", "uint8", "uint16", "uint32", "uint64", "float32", "float64"]
  }

  function FieldKind(e: TypeExpr, structs: Structs): string {
    match e
    case Ident(name) =>
      if name == "bool" then "bool"
      else if IsNumericType(name) then "int"
      else if name == "string" then "string"
      else if name in structs then "object"
      else "string"
    case ArrayType => "array"
    case MapType | StructType => "object"
    case Star(x) => FieldKind(x, structs)
    case InterfaceType => "any"
    case OtherType => "string"
  }

  // A field that is recorded: its tag names it.
  predicate IsTagged(f: Field) {
    f.tag.Some? && f.tag.value.name != "" && f.tag.value.name != "-"
  }

  function RuleOf(f: Field, structs: Structs): Rule
    requires IsTagged(f)
  {
    var name := f.tag.value.name;
    Rule(FieldKind(f.typ, structs), (name == "server" || name == "port") && !f.tag.value.omitEmpty)
  }

  // The type a field embeds, or "".
  function Embeds(f: Field): string {
    if f.tag.None? && f.names == 0 then EmbeddedTypeName(f.typ) else ""
  }

  // ---------------------------------------------------------------- the assignments made, in order

  datatype Write = Write(name: string, rule: Rule)

  function Writes(structs: Structs, t: string, visiting: set<string>): seq<Write>
    decreases structs.Keys - visiting, 0
  {
    if t in visiting || t !in structs then []
    else FieldWrites(structs, structs[t], visiting + {t})
  }

  function FieldWrites(structs: Structs, fields: seq<Field>, visiting: set<string>): seq<Write>
    decreases structs.Keys - visiting, |fields| + 1
  {
    if fields == [] then []
    else OneFieldWrites(structs, fields[0], visiting) + FieldWrites(structs, fields[1..], visiting)
  }

  function OneFieldWrites(structs: Structs, f: Field, visiting: set<string>): seq<Write>
    decreases structs.Keys - visiting, 1
  {
    if IsTagged(f) then [Write(f.tag.value.name, RuleOf(f, structs))]
    else if Embeds(f) != "" then Writes(structs, Embeds(f), visiting)
    else []
  }

  function Apply(result: map<string, Rule>, ws: seq<Write>): map<string, Rule>
    decreases |ws|
  {
    if ws == [] then result else Apply(result[ws[0].name := ws[0].rule], ws[1..])
  }

  lemma {:induction false} ApplyConcat(result: map<string, Rule>, a: seq<Write>, b: seq<Write>)
    ensures Apply(result, a + b) == Apply(Apply(result, a), b)
    decreases |a|
  {
    if a == [] {
      assert a + b == b;
    } else {
      assert (a + b)[1..] == a[1..] + b;
      ApplyConcat(result[a[0].name := a[0].rule], a[1..], b);
    }
  }

  lemma {:induction false} ApplyKeys(result: map<string, Rule>, ws: seq<Write>)
    ensures forall n :: n in Apply(result, ws) <==> n in result || exists w :: w in ws && w.name == n
    decreases |ws|
  {
    if ws != [] {
      ApplyKeys(result[ws[0].name := ws[0].rule], ws[1..]);
      assert forall w :: w in ws <==> w == ws[0] || w in ws[1..];
    }
  }

  // An entry that was not there before was written, as it stands, by one of the assignments.
  lemma {:induction false} ApplyEntry(result: map<string, Rule>, ws: seq<Write>, n: string)
    requires n in Apply(result, ws)
    ensures Write(n, Apply(result, ws)[n]) in ws || (n in result && result[n] == Apply(result, ws)[n])
    decreases |ws|
  {
    if ws != [] { ApplyEntry(result[ws[0].name := ws[0].rule], ws[1..], n); }
  }

  // ---------------------------------------------------------------- reachability

  // From each type to one it embeds through an untagged field.
  ghost predicate IsPath(structs: Structs, p: seq<string>) {
    && p != []
    && (forall i :: 0 <= i < |p| ==> p[i] in structs)
    && (forall i :: 0 <= i < |p| - 1 ==> EmbedsType(structs[p[i]], p[i + 1]))
  }

  ghost predicate EmbedsType(fields: seq<Field>, t: string) {
    t != "" && exists f :: f in fields && Embeds(f) == t
  }

  ghost predicate Avoids(p: seq<string>, visiting: set<string>) {
    forall t <- p :: t !in visiting
  }

  // A field of the struct at the end of a path from t, with its name and rule.
  ghost predicate Reachable(structs: Structs, t: string, visiting: set<string>, w: Write, p: seq<string>) {
    && IsPath(structs, p) && p[0] == t && Avoids(p, visiting)
    && exists f :: f in structs[p[|p| - 1]] && IsTagged(f) && w == Write(f.tag.value.name, RuleOf(f, structs))
  }

  lemma {:induction false} WritesAreReachable(structs: Structs, t: string, visiting: set<string>, w: Write) returns (p: seq<string>)
    requires w in Writes(structs, t, visiting)
    ensures Reachable(structs, t, visiting, w, p)
    decreases structs.Keys - visiting, 0
  {
    var f := FieldOfWrite(structs, structs[t], visiting + {t}, w);
    if IsTagged(f) {
      p := [t];
    } else {
      var q := WritesAreReachable(structs, Embeds(f), visiting + {t}, w);
      p := [t] + q;
      assert forall u <- p :: u == t || u in q;
    }
  }

  lemma {:induction false} FieldOfWrite(structs: Structs, fields: seq<Field>, visiting: set<string>, w: Write) returns (f: Field)
    requires w in FieldWrites(structs, fields, visiting)
    ensures f in fields && w in OneFieldWrites(structs, f, visiting)
    decreases |fields|
  {
    if w in OneFieldWrites(structs, fields[0], visiting) {
      f := fields[0];
    } else {
      f := FieldOfWrite(structs, fields[1..], visiting, w);
    }
  }

  lemma {:induction false} FieldIsWritten(structs: Structs, fields: seq<Field>, visiting: set<string>, f: Field, w: Write)
    requires f in fields && w in OneFieldWrites(structs, f, visiting)
    ensures w in FieldWrites(structs, fields, visiting)
    decreases |fields|
  {
    if f != fields[0] { FieldIsWritten(structs, fields[1..], visiting, f, w); }
  }

  // Although `visiting` blocks only the current path, no reachable field is lost: a path that comes back to its
  // start is cut down to its last departure from there.
  lemma {:induction false} ReachableIsWritten(structs: Structs, t: string, visiting: set<string>, w: Write, p: seq<string>)
    requires Reachable(structs, t, visiting, w, p)
    ensures w in Writes(structs, t, visiting)
    decreases |p|
  {
    assert t == p[0] && t in p;
    if j: nat :| 0 < j < |p| && p[j] == t {
      SuffixReachable(structs, t, visiting, w, p, j);
      ReachableIsWritten(structs, t, visiting, w, p[j..]);
    } else if |p| == 1 {
      var f :| f in structs[t] && IsTagged(f) && w == Write(f.tag.value.name, RuleOf(f, structs));
      FieldIsWritten(structs, structs[t], visiting + {t}, f, w);
    } else {
      var f :| f in structs[t] && Embeds(f) == p[1];
      assert p[1] != "" by { assert EmbedsType(structs[p[0]], p[1]); }
      SuffixReachable(structs, t, visiting, w, p, 1);
      assert Avoids(p[1..], visiting + {t}) by {
        forall u | u in p[1..] ensures u != t { var i :| 0 <= i < |p[1..]| && p[1..][i] == u; assert p[i + 1] == u; }
      }
      ReachableIsWritten(structs, p[1], visiting + {t}, w, p[1..]);
      FieldIsWritten(structs, structs[t], visiting + {t}, f, w);
    }
  }

  lemma SuffixReachable(structs: Structs, t: string, visiting: set<string>, w: Write, p: seq<string>, j: nat)
    requires Reachable(structs, t, visiting, w, p) && j < |p|
    ensures Reachable(structs, p[j], visiting, w, p[j..])
  {
    var q := p[j..];
    assert q[|q| - 1] == p[|p| - 1];
    forall i | 0 <= i < |q| - 1 ensures EmbedsType(structs[q[i]], q[i + 1]) { assert EmbedsType(structs[p[j + i]], p[j + i + 1]); }
    forall u | u in q ensures u in p {}
  }

  // ---------------------------------------------------------------- the traversal

  class Collector {
    const structs: Structs
    var result: map<string, Rule>
    var visiting: map<string, bool>

    constructor (structs: Structs)
      ensures this.structs == structs && result == map[] && visiting == map[]
    {
      this.structs, result, visiting := structs, map[], map[];
    }

    // Every recorded visit is marked true.
    ghost predicate Marked()
      reads this`visiting
    {
      forall t <- visiting :: visiting[t]
    }

    // Terminates on every embedding graph, makes the assignments above and leaves `visiting` as it was.
    method Collect(typeName: string)
      requires Marked()
      modifies this
      ensures result == Apply(old(result), Writes(structs, typeName, old(visiting).Keys))
      ensures visiting == old(visiting)
      decreases structs.Keys - visiting.Keys, 0
    {
      if typeName in visiting && visiting[typeName] { return; }
      if typeName !in structs { return; }
      ghost var before, keys := visiting, visiting.Keys + {typeName};
      visiting := visiting[typeName := true];
      var fields := structs[typeName];
      ghost var ws := FieldWrites(structs, fields, keys);
      for i := 0 to |fields|
        invariant Marked() && visiting == before[typeName := true] && visiting.Keys == keys
        invariant Apply(old(result), ws) == Apply(result, FieldWrites(structs, fields[i..], keys))
      {
        var f := fields[i];
        ghost var prev := result;
        if f.tag.None? {
          if f.names == 0 {
            var embedded := EmbeddedTypeName(f.typ);
            if embedded != "" { Collect(embedded); }
          }
        } else {
          var name := f.tag.value.name;
          if name != "" && name != "-" {
            result := result[name := RuleOf(f, structs)];
          }
        }
        assert result == Apply(prev, OneFieldWrites(structs, f, keys));
        assert fields[i..][1..] == fields[i + 1..];
        ApplyConcat(prev, OneFieldWrites(structs, f, keys), FieldWrites(structs, fields[i + 1..], keys));
      }
      visiting := visiting - {typeName};
      assert visiting == before;
    }
  }

  // From empty maps the keys collected are exactly the tagged fields of the struct types reachable through
  // untagged embedded fields, and each entry is the rule of such a field.
  method CollectAll(structs: Structs, typeName: string) returns (result: map<string, Rule>)
    ensures forall n :: n in result <==> exists rule, p :: Reachable(structs, typeName, {}, Write(n, rule), p)
    ensures forall n <- result :: exists p :: Reachable(structs, typeName, {}, Write(n, result[n]), p)
  {
    var c := new Collector(structs);
    assert c.visiting.Keys == {};
    c.Collect(typeName);
    result := c.result;
    CollectsExactly(structs, typeName);
  }

  lemma CollectsExactly(structs: Structs, t: string)
    ensures var result := Apply(map[], Writes(structs, t, {}));
            && (forall n :: n in result <==> exists rule, p :: Reachable(structs, t, {}, Write(n, rule), p))
            && (forall n <- result :: exists p :: Reachable(structs, t, {}, Write(n, result[n]), p))
  {
    var ws := Writes(structs, t, {});
    var result := Apply(map[], ws);
    ApplyKeys(map[], ws);
    forall n | n in result ensures exists p :: Reachable(structs, t, {}, Write(n, result[n]), p) {
      ApplyEntry(map[], ws, n);
      var p := WritesAreReachable(structs, t, {}, Write(n, result[n]));
    }
    forall n, rule, p | Reachable(structs, t, {}, Write(n, rule), p) ensures n in result {
      ReachableIsWritten(structs, t, {}, Write(n, rule), p);
    }
  }
}
