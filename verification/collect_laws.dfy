// What an entry of the collected rules says, and which of several fields of one name it is about.
module CollectLaws {
  import opened Wrappers
  import opened CollectFields

  function Stars(n: nat, e: TypeExpr): TypeExpr { if n == 0 then e else Star(Stars(n - 1, e)) }

  // Names of numbers.
  predicate IsNumber(name: string) {
    name == "int" || name == "int8" || name == "int16" || name == "int32" || name == "int64" ||
    name == "uint" || name == "uint8" || name == "uint16" || name == "uint32" || name == "uint64" ||
    name == "float32" || name == "float64"
  }

  // The kind of a type is that of what it points to: of the predeclared names their own one even if a struct has the
  // name, "object" for structs and maps, and "string" for all that is not known.
  lemma {:induction false} KindExactly(n: nat, base: TypeExpr, structs: Structs)
    requires !base.Star?
    ensures var k := FieldKind(Stars(n, base), structs);
            (k == "bool" <==> base == Ident("bool")) && (k == "int" <==> base.Ident? && IsNumber(base.name)) &&
            (k == "array" <==> base.ArrayType?) && (k == "any" <==> base.InterfaceType?) &&
            (k == "object" <==> base.MapType? || base.StructType? ||
                                (base.Ident? && base.name in structs && base.name != "bool" && base.name != "string" && !IsNumber(base.name))) &&
            k in {"bool", "int", "array", "any", "object", "string"}
    ensures EmbeddedTypeName(Stars(n, base)) == if base.Ident? then base.name else ""
    decreases n
  {
    if n > 0 { KindExactly(n - 1, base, structs); }
  }

  // A field that can set the entry n: its own, or one of a type it embeds.
  ghost predicate Sets(structs: Structs, f: Field, visiting: set<string>, n: string) {
    if IsTagged(f) then f.tag.value.name == n
    else Embeds(f) != "" && exists rule, p :: Reachable(structs, Embeds(f), visiting, Write(n, rule), p)
  }

  lemma WrittenIsSet(structs: Structs, fields: seq<Field>, visiting: set<string>, w: Write) returns (f: Field)
    requires w in FieldWrites(structs, fields, visiting)
    ensures f in fields && Sets(structs, f, visiting, w.name)
  {
    f := FieldOfWrite(structs, fields, visiting, w);
    if !IsTagged(f) { var p := WritesAreReachable(structs, Embeds(f), visiting, w); }
  }

  lemma {:induction false} Untouched(result: map<string, Rule>, ws: seq<Write>, n: string)
    requires forall w <- ws :: w.name != n
    ensures n in Apply(result, ws) <==> n in result
    ensures n in result ==> Apply(result, ws)[n] == result[n]
    decreases |ws|
  {
    if ws != [] { Untouched(result[ws[0].name := ws[0].rule], ws[1..], n); }
  }

  // What is assigned does not depend on what was there.
  lemma {:induction false} AppliedOver(a: map<string, Rule>, b: map<string, Rule>, ws: seq<Write>, n: string)
    requires exists w :: w in ws && w.name == n
    ensures n in Apply(a, ws) && n in Apply(b, ws) && Apply(a, ws)[n] == Apply(b, ws)[n]
    decreases |ws|
  {
    var w :| w in ws && w.name == n;
    var a', b' := a[ws[0].name := ws[0].rule], b[ws[0].name := ws[0].rule];
    if exists v :: v in ws[1..] && v.name == n {
      AppliedOver(a', b', ws[1..], n);
    } else {
      assert w == ws[0];
      Untouched(a', ws[1..], n);
      Untouched(b', ws[1..], n);
    }
  }

  lemma {:induction false} FieldWritesSplit(structs: Structs, a: seq<Field>, b: seq<Field>, visiting: set<string>)
    ensures FieldWrites(structs, a + b, visiting) == FieldWrites(structs, a, visiting) + FieldWrites(structs, b, visiting)
    decreases |a|
  {
    if a == [] {
      assert a + b == b;
    } else {
      assert (a + b)[1..] == a[1..] + b;
      FieldWritesSplit(structs, a[1..], b, visiting);
    }
  }

  // Of the fields of a type that can set an entry the last one does: a field of its own says the entry's kind, and that
  // it is required if it is one of an endpoint and may not be omitted; an embedded type sets it as it does by itself,
  // outside the type that embeds it.
  lemma LastFieldWins(structs: Structs, t: string, before: seq<Field>, f: Field, behind: seq<Field>, n: string)
    requires t in structs && structs[t] == before + [f] + behind
    requires Sets(structs, f, {t}, n) && forall g <- behind :: !Sets(structs, g, {t}, n)
    ensures var result := Apply(map[], Writes(structs, t, {}));
            n in result &&
            if IsTagged(f) then
              result[n].kind == FieldKind(f.typ, structs) &&
              (result[n].required <==> !f.tag.value.omitEmpty && (n == "server" || n == "port"))
            else
              var embedded := Apply(map[], Writes(structs, Embeds(f), {t}));
              n in embedded && result[n] == embedded[n]
  {
    var a, b, c := FieldWrites(structs, before, {t}), OneFieldWrites(structs, f, {t}), FieldWrites(structs, behind, {t});
    assert Writes(structs, t, {}) == FieldWrites(structs, structs[t], {} + {t}) && {} + {t} == {t};
    FieldWritesSplit(structs, before + [f], behind, {t});
    FieldWritesSplit(structs, before, [f], {t});
    OneField(structs, f, {t});
    assert Writes(structs, t, {}) == (a + b) + c;
    ApplyConcat(map[], a + b, c);
    ApplyConcat(map[], a, b);
    forall w | w in c ensures w.name != n { var g := WrittenIsSet(structs, behind, {t}, w); }
    Untouched(Apply(Apply(map[], a), b), c, n);
    SetsWrites(structs, f, {t}, n);
    AppliedOver(Apply(map[], a), map[], b, n);
  }

  lemma OneField(structs: Structs, f: Field, visiting: set<string>)
    ensures FieldWrites(structs, [f], visiting) == OneFieldWrites(structs, f, visiting)
  {
    assert FieldWrites(structs, [f][1..], visiting) == [];
  }

  lemma SetsWrites(structs: Structs, f: Field, visiting: set<string>, n: string)
    requires Sets(structs, f, visiting, n)
    ensures exists w :: w in OneFieldWrites(structs, f, visiting) && w.name == n
  {
    if IsTagged(f) {
      assert Write(n, RuleOf(f, structs)) in OneFieldWrites(structs, f, visiting);
    } else {
      var rule, p :| Reachable(structs, Embeds(f), visiting, Write(n, rule), p);
      ReachableIsWritten(structs, Embeds(f), visiting, Write(n, rule), p);
    }
  }
}
