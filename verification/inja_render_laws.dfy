// What each statement does when it is rendered, and where names are looked up.
module InjaRenderLaws {
  import opened Wrappers
  import opened InjaSyntax
  import opened InjaEval
  import opened InjaRender
  import N = InjaNames
  import W = InjaLaws
  import T = InjaTemplate

  // ---------------------------------------------------------------- names

  predicate IsWord(w: string) { forall c <- w :: c != '.' && c != '/' }

  // Pieces with dots or slashes between them.
  function Joined(words: seq<string>, separators: string): string
    requires |words| == |separators| + 1
  {
    if separators == [] then words[0] else words[0] + [separators[0]] + Joined(words[1..], separators[1..])
  }

  lemma {:induction false} PartsOfPrefix(w: string, c: char, rest: string)
    requires IsWord(w) && (c == '.' || c == '/')
    ensures Parts(w + [c] + rest) == [w] + Parts(rest)
    decreases |w|
  {
    var name := w + [c] + rest;
    if w == "" {
      assert name[1..] == rest;
    } else {
      assert w[0] in w && forall d <- w[1..] :: d in w;
      PartsOfPrefix(w[1..], c, rest);
      assert name[1..] == w[1..] + [c] + rest;
      assert [w[0]] + w[1..] == w;
    }
  }

  // A name comes apart into its pieces, whichever separators stand between them.
  lemma {:induction false} PartsOfJoined(words: seq<string>, separators: string)
    requires |words| == |separators| + 1 && (forall w <- words :: IsWord(w)) && forall c <- separators :: c == '.' || c == '/'
    ensures Parts(Joined(words, separators)) == words
    decreases |words|
  {
    if separators == [] {
      assert words[0] in words;
      PartsOfWord(words[0]);
    } else {
      assert words[0] in words && separators[0] in separators;
      assert (forall w <- words[1..] :: w in words) && forall c <- separators[1..] :: c in separators;
      PartsOfPrefix(words[0], separators[0], Joined(words[1..], separators[1..]));
      PartsOfJoined(words[1..], separators[1..]);
    }
  }

  lemma WordPath(w: string)
    requires IsWord(w)
    ensures Path(w) == Parts(w) == [w]
  {
    PartsOfWord(w);
    if w != "" { assert w[|w| - 1] in w; }
  }

  // A digit as it is written.
  function Digit(n: nat): char
    requires n < 10
  {
    "0123456789"[n]
  }

  function Decimal(n: nat): string {
    if n < 10 then [Digit(n)] else Decimal(n / 10) + [Digit(n % 10)]
  }

  lemma DigitRead(n: nat)
    requires n < 10
    ensures '0' <= Digit(n) <= '9' && Digit(n) as nat - '0' as nat == n
  {
  }

  lemma {:induction false} DigitsOfDecimal(n: nat, rest: string)
    ensures Digits(Decimal(n) + rest, 0) == Digits(rest, n)
    decreases n
  {
    DigitRead(n % 10);
    if n < 10 {
      assert ([Digit(n)] + rest)[1..] == rest;
    } else {
      var tail := [Digit(n % 10)] + rest;
      DigitsOfDecimal(n / 10, tail);
      assert Decimal(n) + rest == Decimal(n / 10) + tail;
      assert tail[1..] == rest;
    }
  }

  lemma {:induction false} DecimalBegins(n: nat)
    ensures Decimal(n) != "" && (n > 0 ==> Decimal(n)[0] != '0') && (n >= 10 ==> |Decimal(n)| > 1)
    decreases n
  {
    if n < 10 { DigitRead(n); } else { DecimalBegins(n / 10); }
  }

  // An array index is a number without leading zeros.
  lemma IndexOfDecimal(n: nat)
    ensures IndexOf(Decimal(n)) == Some(n)
  {
    DecimalBegins(n);
    DigitsOfDecimal(n, "");
    assert Decimal(n) + "" == Decimal(n);
  }

  // A field of an object, an element of an array.
  lemma ResolveIs(j: Json, key: string, n: nat, rest: seq<string>)
    ensures Resolve(j, []) == Some(j)
    ensures j.Obj? ==> Resolve(j, [key] + rest) == if key in j.fields then Resolve(j.fields[key], rest) else None
    ensures j.Arr? ==> Resolve(j, [Decimal(n)] + rest) == if n < |j.items| then Resolve(j.items[n], rest) else None
    ensures !j.Obj? && !j.Arr? ==> Resolve(j, [key] + rest) == None
  {
    IndexOfDecimal(n);
    assert ([key] + rest)[1..] == rest && ([Decimal(n)] + rest)[1..] == rest;
  }

  // A name of one piece: the additional data first, then the input, then a callback.
  lemma WordLookup(env: Env, vars: Vars, w: string)
    requires IsWord(w)
    ensures Lookup(env, vars, w) ==
            if w in vars then Some(vars[w])
            else if env.input.Obj? && w in env.input.fields then Some(env.input.fields[w])
            else if env.input.Arr? && IndexOf(w).Some? && IndexOf(w).value < |env.input.items| then Some(env.input.items[IndexOf(w).value])
            else if w in env.callbacks then Some(env.callbacks[w])
            else None
  {
    WordPath(w);
    ResolveOne(Obj(vars), w);
    ResolveOne(env.input, w);
  }

  lemma ResolveOne(j: Json, w: string)
    ensures Resolve(j, [w]) ==
            if j.Obj? && w in j.fields then Some(j.fields[w])
            else if j.Arr? && IndexOf(w).Some? && IndexOf(w).value < |j.items| then Some(j.items[IndexOf(w).value])
            else None
  {
    assert [w][1..] == [];
    assert forall k: Json :: Resolve(k, []) == Some(k);
  }

  // A longer name: what the additional data has below its first piece comes before what the input has.
  lemma PiecesLookup(env: Env, vars: Vars, name: string, w: string, rest: seq<string>)
    requires Path(name) == [w] + rest
    ensures Lookup(env, vars, name) ==
            if w in vars && Resolve(vars[w], rest).Some? then Resolve(vars[w], rest)
            else if Resolve(env.input, [w] + rest).Some? then Resolve(env.input, [w] + rest)
            else if name in env.callbacks then Some(env.callbacks[name])
            else None
  {
    assert ([w] + rest)[1..] == rest;
  }

  // ---------------------------------------------------------------- set

  // What a store through a pointer promises: with an empty pointer it replaces the value, and what it has stored is
  // found under the same pointer.
  ghost predicate Stores(put: (Json, seq<string>, Json) -> Option<Json>) {
    (forall j, v :: put(j, [], v) == Some(v)) &&
    forall j, path, v :: put(j, path, v).Some? ==> Resolve(put(j, path, v).value, path) == Some(v)
  }

  lemma LookupElsewhere(env: Env, vars: Vars, vars': Vars, key: string, name: string)
    requires Path(name)[0] != key && forall k :: k != key ==> (k in vars' <==> k in vars) && (k in vars ==> vars'[k] == vars[k])
    ensures Lookup(env, vars', name) == Lookup(env, vars, name)
  {
  }

  // A `set` evaluates its expression, leaves the output as it is, stores the value where the target points to, so that it
  // is found under the target's name, and touches nothing that begins with another piece. (A name that ends in a dot is
  // looked up without it.)
  lemma SetIs(env: Env, target: string, e: Expr, vars: Vars, out: string)
    requires Stores(env.put)
    ensures var r, v := Render(env, [T.Set(target, e)], vars, out), Eval(env, vars, e);
            if v.Err? then r == Failed(EvalFailed(v.error))
            else
              (IsWord(target) ==> r == Rendered(vars[target := v.value], out)) &&
              (r.Failed? ==> r.error == PutFailed) &&
              (r.Rendered? ==>
                 && r.out == out
                 && Resolve(Obj(r.vars), Parts(target)) == Some(v.value)
                 && (target == "" || target[|target| - 1] != '.' ==> Lookup(env, r.vars, target) == Some(v.value))
                 && forall name :: Path(name)[0] != Parts(target)[0] ==> Lookup(env, r.vars, name) == Lookup(env, vars, name))
  {
    hide Eval, Resolve, Lookup;
    var ev := Eval(env, vars, e);
    RenderOne(env, T.Set(target, e), vars, out);
    if ev.Ok? {
      var path := Parts(target);
      var p := env.put(Get(vars, path[0]), path[1..], ev.value);
      if IsWord(target) {
        WordPath(target);
        assert path[1..] == [];
      }
      if p.Some? {
        var vars' := vars[path[0] := p.value];
        ResolveFirst(vars', path);
        if target == "" || target[|target| - 1] != '.' { TargetLookup(env, vars', target); }
        forall name | Path(name)[0] != path[0] ensures Lookup(env, vars', name) == Lookup(env, vars, name) {
          LookupElsewhere(env, vars, vars', path[0], name);
        }
      }
    }
  }

  lemma RenderOne(env: Env, s: T.Stmt, vars: Vars, out: string)
    ensures Render(env, [s], vars, out) == RenderStmt(env, s, vars, out)
  {
    hide RenderStmt;
    assert [s][1..] == [];
    var r := RenderStmt(env, s, vars, out);
    if r.Rendered? { assert Render(env, [], r.vars, r.out) == r; }
  }

  lemma ResolveFirst(vars: Vars, path: seq<string>)
    requires path != [] && path[0] in vars
    ensures Resolve(Obj(vars), path) == Resolve(vars[path[0]], path[1..])
  {
  }

  lemma TargetLookup(env: Env, vars: Vars, target: string)
    requires target == "" || target[|target| - 1] != '.'
    ensures Resolve(Obj(vars), Parts(target)).Some? ==> Lookup(env, vars, target) == Resolve(Obj(vars), Parts(target))
  {
  }

  lemma EvalName(env: Env, vars: Vars, w: string)
    ensures Eval(env, vars, Data(w)) == if Lookup(env, vars, w).Some? then Ok(Lookup(env, vars, w).value) else Err(NotFound(w))
  {
    hide Lookup;
    var sc := ScopeOf(env, vars);
    N.EvaluatesAsGiven(sc, Data(w));
    var none: seq<string> := [];
    assert none + [w] == [w];
  }

  // `{% set x = 5 %}{{ x }}`: what was stored is written out.
  lemma SetThenOutput(env: Env, x: string, e: Expr, v: Json, vars: Vars, out: string)
    requires Stores(env.put) && IsWord(x) && Eval(env, vars, e) == Ok(v)
    ensures Render(env, [T.Set(x, e), T.Output(Data(x))], vars, out) == Rendered(vars[x := v], out + env.show(v))
  {
    hide Eval, Lookup, RenderStmt;
    var ss := [T.Set(x, e), T.Output(Data(x))];
    assert ss[1..] == [T.Output(Data(x))];
    SetIs(env, x, e, vars, out);
    RenderOne(env, ss[0], vars, out);
    RenderOne(env, ss[1], vars[x := v], out);
    WordLookup(env, vars[x := v], x);
    EvalName(env, vars[x := v], x);
    OutputIs(env, Data(x), vars[x := v], out);
  }

  // ---------------------------------------------------------------- the other statements

  lemma OutputIs(env: Env, e: Expr, vars: Vars, out: string)
    ensures var r, v := Render(env, [T.Output(e)], vars, out), Eval(env, vars, e);
            r == if v.Err? then Failed(EvalFailed(v.error)) else Rendered(vars, out + env.show(v.value))
  {
    hide Eval;
    RenderOne(env, T.Output(e), vars, out);
  }

  lemma TextIs(env: Env, text: string, vars: Vars, out: string)
    ensures Render(env, [T.Text(text)], vars, out) == Rendered(vars, out + text)
  {
    RenderOne(env, T.Text(text), vars, out);
  }

  // Statements one after the other.
  lemma {:induction false} SequenceIs(env: Env, a: seq<T.Stmt>, b: seq<T.Stmt>, vars: Vars, out: string)
    ensures Render(env, a + b, vars, out) ==
            var r := Render(env, a, vars, out); if r.Failed? then r else Render(env, b, r.vars, r.out)
    decreases |a|
  {
    hide RenderStmt;
    if a == [] {
      assert a + b == b;
    } else {
      assert (a + b)[1..] == a[1..] + b;
      var r := RenderStmt(env, a[0], vars, out);
      if r.Rendered? { SequenceIs(env, a[1..], b, r.vars, r.out); }
    }
  }

  // The branch that the condition's truth says: a chained else-if is an if in place of the else.
  lemma IfIs(env: Env, cond: Expr, thn: seq<T.Stmt>, els: T.Else, vars: Vars, out: string)
    ensures var r, c := Render(env, [T.If(cond, thn, els)], vars, out), Eval(env, vars, cond);
            if c.Err? then r == Failed(EvalFailed(c.error))
            else if !W.Falsy(c.value) then r == Render(env, thn, vars, out)
            else if els.NoElse? then r == Rendered(vars, out)
            else if els.ElseBlock? then r == Render(env, els.stmts, vars, out)
            else r == Render(env, [T.If(els.cond, els.thn, els.els)], vars, out)
  {
    hide Eval, Truthy, W.Falsy;
    RenderOne(env, T.If(cond, thn, els), vars, out);
    if els.ElseIf? { RenderOne(env, T.If(els.cond, els.thn, els.els), vars, out); }
    var v := Eval(env, vars, cond);
    if v.Ok? { W.TruthIs(v.value); }
    if els.ElseIf? && Eval(env, vars, els.cond).Ok? { W.TruthIs(Eval(env, vars, els.cond).value); }
  }

  lemma BlockIs(env: Env, name: string, inner: seq<T.Stmt>, vars: Vars, out: string)
    ensures Render(env, [T.Block(name, inner)], vars, out) == Render(env, inner, vars, out)
  {
    RenderOne(env, T.Block(name, inner), vars, out);
  }

  // ---------------------------------------------------------------- loops

  function ShowAll(env: Env, items: seq<Json>): string {
    if items == [] then "" else env.show(items[0]) + ShowAll(env, items[1..])
  }

  // A body that writes out the loop variable.
  lemma {:induction false} IterateShows(env: Env, value: string, items: seq<Json>, i: nat, vars: Vars, out: string)
    requires i <= |items| && IsWord(value) && value != "loop" && Fields(Get(vars, "loop")).Some?
    ensures var r := Iterate(env, value, items, i, [T.Output(Data(value))], vars, out);
            r.Rendered? && r.out == out + ShowAll(env, items[i..]) && Fields(Get(r.vars, "loop")).Some? &&
            (forall k :: k != value && k != "loop" ==> (k in r.vars <==> k in vars) && (k in vars ==> r.vars[k] == vars[k]))
    decreases |items| - i
  {
    hide Render, Lookup, LoopStep;
    if i == |items| {
      assert items[i..] == [] && out + "" == out;
    } else {
      var vars1 := vars[value := items[i]];
      var vars2 := vars1["loop" := Obj(LoopStep(Fields(Get(vars1, "loop")).value, i, |items|))];
      WordLookup(env, vars2, value);
      EvalName(env, vars2, value);
      OutputIs(env, Data(value), vars2, out);
      IterateShows(env, value, items, i + 1, vars2, out + env.show(items[i]));
      assert items[i..][1..] == items[i + 1..];
      assert out + env.show(items[i]) + ShowAll(env, items[i + 1..]) == out + ShowAll(env, items[i..]);
    }
  }

  // The empty value that a loop leaves in its variable, type by type.
  predicate IsCleared(j: Json) {
    match j
    case Null => true
    case Bool(b) => !b
    case Int(i) => i == 0
    case Float(r) => r == 0.0
    case Str(s) => s == ""
    case Arr(items) => items == []
    case Obj(fields) => fields == map[]
  }

  // `{% for x in xs %}{{ x }}{% endfor %}` writes out the items in order; it leaves x cleared and other data but the loop's
  // as it was.
  lemma ForShows(env: Env, value: string, over: Expr, items: seq<Json>, vars: Vars, out: string)
    requires IsWord(value) && value != "loop" && Fields(Get(vars, "loop")).Some? && Eval(env, vars, over) == Ok(Arr(items))
    ensures var r := Render(env, [T.For(None, value, over, [T.Output(Data(value))])], vars, out);
            r.Rendered? && r.out == out + ShowAll(env, items) && value in r.vars && IsCleared(r.vars[value]) &&
            (forall k :: k != value && k != "loop" ==> (k in r.vars <==> k in vars) && (k in vars ==> r.vars[k] == vars[k]))
  {
    hide Eval, Iterate, LoopStart, LoopEnd;
    RenderOne(env, T.For(None, value, over, [T.Output(Data(value))]), vars, out);
    var start := vars["loop" := Obj(LoopStart(Fields(Get(vars, "loop")).value, |items|))];
    IterateShows(env, value, items, 0, start, out);
    assert items[0..] == items;
  }

  // What cannot be looped over.
  lemma ForNeedsArray(env: Env, value: string, over: Expr, body: seq<T.Stmt>, vars: Vars, out: string)
    ensures var r, v := Render(env, [T.For(None, value, over, body)], vars, out), Eval(env, vars, over);
            (v.Err? ==> r == Failed(EvalFailed(v.error))) && (v.Ok? && !v.value.Arr? ==> r == Failed(NotAnArray))
  {
    hide Eval, Iterate;
    RenderOne(env, T.For(None, value, over, body), vars, out);
  }
}
