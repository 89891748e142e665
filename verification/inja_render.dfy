// Rendering of statements: loop data lives in one mutable object, `additional_data["loop"]`, that nested
// loops overwrite and restore. It is compared with a semantics where every loop body has its own binding.
module InjaRender {
  import opened Wrappers
  import opened InjaSyntax
  import opened InjaEval
  import T = InjaTemplate

  // ---------------------------------------------------------------- looking names up

  predicate IsSeparator(c: char) {
    c == '.' || c == '/'
  }

  // The pieces of a name between its dots and slashes; never empty.
  function Parts(name: string): (r: seq<string>)
    ensures r != []
  {
    if name == "" then [""]
    else if IsSeparator(name[0]) then [""] + Parts(name[1..])
    else
      var r := Parts(name[1..]);
      [[name[0]] + r[0]] + r[1..]
  }

  // convert_dot_to_ptr followed by the splitting of the pointer: a final dot adds no piece.
  function Path(name: string): (r: seq<string>)
    ensures r != []
  {
    if name != "" && name[|name| - 1] == '.' then Parts(name[..|name| - 1]) else Parts(name)
  }

  // An array index: digits without a leading zero.
  function IndexOf(token: string): Option<nat> {
    if token == "" || (|token| > 1 && token[0] == '0') then None else Digits(token, 0)
  }

  function Digits(token: string, sofar: nat): Option<nat> {
    if token == "" then Some(sofar)
    else if '0' <= token[0] <= '9' then Digits(token[1..], 10 * sofar + (token[0] as nat - '0' as nat))
    else None
  }

  function Resolve(j: Json, path: seq<string>): Option<Json> {
    if path == [] then Some(j)
    else match j
      case Obj(fields) => if path[0] in fields then Resolve(fields[path[0]], path[1..]) else None
      case Arr(items) =>
        var i := IndexOf(path[0]);
        if i.Some? && i.value < |items| then Resolve(items[i.value], path[1..]) else None
      case _ => None
  }

  // `put(j, path, v)` stores below an existing value (None: it throws); `print` is how a value is written out.
  datatype Env = Env(
    input: Json, callbacks: map<string, Json>, literal: seq<Token> -> Json,
    primitive: (Operation, string, seq<Json>) -> Option<Json>,
    put: (Json, seq<string>, Json) -> Option<Json>, show: Json -> string)

  type Vars = map<string, Json>

  // Additional data first, then the input, then a callback without arguments.
  function Lookup(env: Env, vars: Vars, name: string): Option<Json> {
    if Resolve(Obj(vars), Path(name)).Some? then Resolve(Obj(vars), Path(name))
    else if Resolve(env.input, Path(name)).Some? then Resolve(env.input, Path(name))
    else if name in env.callbacks then Some(env.callbacks[name])
    else None
  }

  function ScopeOf(env: Env, vars: Vars): Scope {
    Scope(name => Lookup(env, vars, name), env.literal, env.primitive)
  }

  function Eval(env: Env, vars: Vars, e: Expr): Evaluated {
    EvalExpressionList(ScopeOf(env, vars), Some(e), Stacks([], [])).0
  }

  // ---------------------------------------------------------------- the renderer

  datatype RenderError = EvalFailed(error: EvalError) | NotAnArray | LoopIsNoObject | PutFailed | Unsupported

  datatype Rendered = Rendered(vars: Vars, out: string) | Failed(error: RenderError)

  function Get(vars: Vars, key: string): Json {
    if key in vars then vars[key] else Null
  }

  // Assignment through a key that must name an object; null becomes one.
  function Fields(j: Json): Option<map<string, Json>> {
    match j
    case Null => Some(map[])
    case Obj(fields) => Some(fields)
    case _ => None
  }

  // clear(): the empty value of the same type.
  function Cleared(j: Json): Json {
    match j
    case Null => Null
    case Bool(_) => Bool(false)
    case Int(_) => Int(0)
    case Float(_) => Float(0.0)
    case Str(_) => Str("")
    case Arr(_) => Arr([])
    case Obj(_) => Obj(map[])
  }

  function Assign(env: Env, vars: Vars, target: string, v: Json): Option<Vars> {
    var path := TargetPath(target);
    var r := env.put(Get(vars, path[0]), path[1..], v);
    if r.None? then None else Some(vars[path[0] := r.value])
  }

  // The pointer of a `set` target keeps a final dot's empty piece.
  function TargetPath(target: string): (r: seq<string>)
    ensures r != []
  {
    Parts(target)
  }

  // Before the first iteration: existing loop data is saved as `parent` of itself.
  function LoopStart(loop: map<string, Json>, n: nat): map<string, Json> {
    (if loop == map[] then loop else loop["parent" := Obj(loop)])["is_first" := Bool(true)]["is_last" := Bool(n <= 1)]
  }

  // At the start of iteration i.
  function LoopStep(loop: map<string, Json>, i: nat, n: nat): map<string, Json> {
    var l := loop["index" := Int(i)]["index1" := Int(i + 1)];
    var l := if i == 1 then l["is_first" := Bool(false)] else l;
    if i == n - 1 then l["is_last" := Bool(true)] else l
  }

  // After the last iteration: a saved parent comes back.
  function LoopEnd(loop: map<string, Json>): Json {
    var parent := Get(loop, "parent");
    if !Empty(parent) then parent else Obj(loop["parent" := parent])
  }

  function Render(env: Env, ss: seq<T.Stmt>, vars: Vars, out: string): Rendered
    decreases ss, 0, 0
  {
    if ss == [] then Rendered(vars, out)
    else
      var r := RenderStmt(env, ss[0], vars, out);
      if r.Failed? then r else Render(env, ss[1..], r.vars, r.out)
  }

  function RenderStmt(env: Env, s: T.Stmt, vars: Vars, out: string): Rendered
    decreases s, 1, 0
  {
    match s
    case Text(text) => Rendered(vars, out + text)
    case Output(e) =>
      var v := Eval(env, vars, e);
      if v.Err? then Failed(EvalFailed(v.error)) else Rendered(vars, out + env.show(v.value))
    case If(cond, thn, els) =>
      var v := Eval(env, vars, cond);
      if v.Err? then Failed(EvalFailed(v.error))
      else if Truthy(v.value) then Render(env, thn, vars, out)
      else RenderElse(env, els, vars, out)
    case For(key, value, over, body) =>
      if key.Some? then Failed(Unsupported)
      else
        var v := Eval(env, vars, over);
        if v.Err? then Failed(EvalFailed(v.error))
        else if !v.value.Arr? then Failed(NotAnArray)
        else
          var loop := Fields(Get(vars, "loop"));
          if loop.None? then Failed(LoopIsNoObject)
          else
            var r := Iterate(env, value, v.value.items, 0, body, vars["loop" := Obj(LoopStart(loop.value, |v.value.items|))], out);
            if r.Failed? then r else Leave(value, r)
    case Block(_, inner) => Render(env, inner, vars, out)
    case Set(target, e) =>
      var v := Eval(env, vars, e);
      if v.Err? then Failed(EvalFailed(v.error))
      else
        var vars' := Assign(env, vars, target, v.value);
        if vars'.None? then Failed(PutFailed) else Rendered(vars'.value, out)
    case Include(_) => Failed(Unsupported)
    case Extends(_) => Failed(Unsupported)
  }

  // The branch an if takes: a chained else-if is an if inside the false branch.
  function RenderElse(env: Env, els: T.Else, vars: Vars, out: string): Rendered
    decreases els, 0, 0
  {
    match els
    case NoElse => Rendered(vars, out)
    case ElseBlock(ss) => Render(env, ss, vars, out)
    case ElseIf(cond, thn, more) =>
      var v := Eval(env, vars, cond);
      if v.Err? then Failed(EvalFailed(v.error))
      else if Truthy(v.value) then Render(env, thn, vars, out)
      else RenderElse(env, more, vars, out)
  }

  // Iterations i to n-1 of an array loop.
  function Iterate(env: Env, value: string, items: seq<Json>, i: nat, body: seq<T.Stmt>, vars: Vars, out: string): Rendered
    requires i <= |items|
    decreases body, 1, |items| - i
  {
    if i == |items| then Rendered(vars, out)
    else
      var vars1 := vars[value := items[i]];
      var loop := Fields(Get(vars1, "loop"));
      if loop.None? then Failed(LoopIsNoObject)
      else
        var r := Render(env, body, vars1["loop" := Obj(LoopStep(loop.value, i, |items|))], out);
        if r.Failed? then r else Iterate(env, value, items, i + 1, body, r.vars, r.out)
  }

  // The loop variable is cleared, not removed, and the loop data of the surrounding loop comes back.
  function Leave(value: string, r: Rendered): Rendered
    requires r.Rendered?
  {
    var vars := r.vars[value := Cleared(Get(r.vars, value))];
    var loop := Fields(Get(vars, "loop"));
    if loop.None? then Failed(LoopIsNoObject) else Rendered(vars["loop" := LoopEnd(loop.value)], r.out)
  }

  // ---------------------------------------------------------------- loops with bindings of their own

  // The loop object of iteration i of n: what surrounds the loop, if anything, is its parent.
  function LoopBinding(outer: Json, i: nat, n: nat): map<string, Json>
    requires Fields(outer).Some?
  {
    (if Empty(outer) then map[] else Fields(outer).value["parent" := outer])
      ["is_first" := Bool(i == 0)]["is_last" := Bool(i == n - 1)]["index" := Int(i)]["index1" := Int(i + 1)]
  }

  // The loop object after a loop of n iterations: a surrounding one is back as it was, an outermost one stays behind.
  function AfterLoop(outer: Json, n: nat): Json
    requires Fields(outer).Some?
  {
    if !Empty(outer) then outer
    else if n == 0 then Obj(map["is_first" := Bool(true), "is_last" := Bool(true), "parent" := Null])
    else Obj(LoopBinding(outer, n - 1, n)["parent" := Null])
  }

  // `vars` is the additional data without its "loop" entry, which is passed around as `loop`.
  datatype ScopedResult = ScopedOk(vars: Vars, loop: Json, out: string) | ScopedFailed(error: RenderError)

  function Join(vars: Vars, loop: Json): Vars {
    vars["loop" := loop]
  }

  function Scoped(env: Env, ss: seq<T.Stmt>, vars: Vars, loop: Json, out: string): ScopedResult
    decreases ss, 0, 0
  {
    if ss == [] then ScopedOk(vars, loop, out)
    else
      var r := ScopedStmt(env, ss[0], vars, loop, out);
      if r.ScopedFailed? then r else Scoped(env, ss[1..], r.vars, r.loop, r.out)
  }

  function ScopedStmt(env: Env, s: T.Stmt, vars: Vars, loop: Json, out: string): ScopedResult
    decreases s, 1, 0
  {
    match s
    case Text(text) => ScopedOk(vars, loop, out + text)
    case Output(e) =>
      var v := Eval(env, Join(vars, loop), e);
      if v.Err? then ScopedFailed(EvalFailed(v.error)) else ScopedOk(vars, loop, out + env.show(v.value))
    case If(cond, thn, els) =>
      var v := Eval(env, Join(vars, loop), cond);
      if v.Err? then ScopedFailed(EvalFailed(v.error))
      else if Truthy(v.value) then Scoped(env, thn, vars, loop, out)
      else ScopedElse(env, els, vars, loop, out)
    case For(key, value, over, body) =>
      if key.Some? then ScopedFailed(Unsupported)
      else
        var v := Eval(env, Join(vars, loop), over);
        if v.Err? then ScopedFailed(EvalFailed(v.error))
        else if !v.value.Arr? then ScopedFailed(NotAnArray)
        else if Fields(loop).None? then ScopedFailed(LoopIsNoObject)
        else
          var r := ScopedIterate(env, value, v.value.items, 0, body, vars, loop, out);
          if r.ScopedFailed? then r
          else ScopedOk(r.vars[value := Cleared(Get(r.vars, value))], AfterLoop(loop, |v.value.items|), r.out)
    case Block(_, inner) => Scoped(env, inner, vars, loop, out)
    case Set(target, e) =>
      var v := Eval(env, Join(vars, loop), e);
      if v.Err? then ScopedFailed(EvalFailed(v.error))
      else
        var vars' := Assign(env, vars, target, v.value);
        if vars'.None? then ScopedFailed(PutFailed) else ScopedOk(vars'.value, loop, out)
    case Include(_) => ScopedFailed(Unsupported)
    case Extends(_) => ScopedFailed(Unsupported)
  }

  function ScopedElse(env: Env, els: T.Else, vars: Vars, loop: Json, out: string): ScopedResult
    decreases els, 0, 0
  {
    match els
    case NoElse => ScopedOk(vars, loop, out)
    case ElseBlock(ss) => Scoped(env, ss, vars, loop, out)
    case ElseIf(cond, thn, more) =>
      var v := Eval(env, Join(vars, loop), cond);
      if v.Err? then ScopedFailed(EvalFailed(v.error))
      else if Truthy(v.value) then Scoped(env, thn, vars, loop, out)
      else ScopedElse(env, more, vars, loop, out)
  }

  // Every iteration binds its own loop object; what the body does to it is forgotten.
  function ScopedIterate(env: Env, value: string, items: seq<Json>, i: nat, body: seq<T.Stmt>, vars: Vars, outer: Json, out: string)
    : ScopedResult
    requires i <= |items| && Fields(outer).Some?
    decreases body, 1, |items| - i
  {
    if i == |items| then ScopedOk(vars, outer, out)
    else
      var r := Scoped(env, body, vars[value := items[i]], Obj(LoopBinding(outer, i, |items|)), out);
      if r.ScopedFailed? then r else ScopedIterate(env, value, items, i + 1, body, r.vars, outer, r.out)
  }

  // Templates that do not assign to the loop object themselves.
  ghost predicate LeavesLoopAlone(ss: seq<T.Stmt>)
    decreases ss, 0
  {
    ss != [] ==> LeavesLoopAloneStmt(ss[0]) && LeavesLoopAlone(ss[1..])
  }

  ghost predicate LeavesLoopAloneStmt(s: T.Stmt)
    decreases s, 1
  {
    match s
    case If(_, thn, els) => LeavesLoopAlone(thn) && LeavesLoopAloneElse(els)
    case For(_, value, _, body) => value != "loop" && LeavesLoopAlone(body)
    case Block(_, inner) => LeavesLoopAlone(inner)
    case Set(target, _) => TargetPath(target)[0] != "loop"
    case _ => true
  }

  ghost predicate LeavesLoopAloneElse(els: T.Else)
    decreases els, 0
  {
    match els
    case NoElse => true
    case ElseBlock(ss) => LeavesLoopAlone(ss)
    case ElseIf(_, thn, more) => LeavesLoopAlone(thn) && LeavesLoopAloneElse(more)
  }

  // ---------------------------------------------------------------- non-empty loop data is left as it was found

  lemma {:induction false} ScopedKeepsLoop(env: Env, ss: seq<T.Stmt>, vars: Vars, loop: Json, out: string)
    requires !Empty(loop)
    ensures var r := Scoped(env, ss, vars, loop, out); r.ScopedOk? ==> r.loop == loop
    decreases ss, 0
  {
    if ss != [] {
      ScopedStmtKeepsLoop(env, ss[0], vars, loop, out);
      var r := ScopedStmt(env, ss[0], vars, loop, out);
      if r.ScopedOk? { ScopedKeepsLoop(env, ss[1..], r.vars, r.loop, r.out); }
    }
  }

  lemma {:induction false} ScopedStmtKeepsLoop(env: Env, s: T.Stmt, vars: Vars, loop: Json, out: string)
    requires !Empty(loop)
    ensures var r := ScopedStmt(env, s, vars, loop, out); r.ScopedOk? ==> r.loop == loop
    decreases s, 1
  {
    match s
    case If(_, thn, els) =>
      ScopedKeepsLoop(env, thn, vars, loop, out);
      ScopedElseKeepsLoop(env, els, vars, loop, out);
    case Block(_, inner) => ScopedKeepsLoop(env, inner, vars, loop, out);
    case _ =>
  }

  lemma {:induction false} ScopedElseKeepsLoop(env: Env, els: T.Else, vars: Vars, loop: Json, out: string)
    requires !Empty(loop)
    ensures var r := ScopedElse(env, els, vars, loop, out); r.ScopedOk? ==> r.loop == loop
    decreases els, 0
  {
    match els
    case NoElse =>
    case ElseBlock(ss) => ScopedKeepsLoop(env, ss, vars, loop, out);
    case ElseIf(_, thn, more) =>
      ScopedKeepsLoop(env, thn, vars, loop, out);
      ScopedElseKeepsLoop(env, more, vars, loop, out);
  }

  // ---------------------------------------------------------------- the renderer refines the scoped semantics

  // The renderer's loop object when iteration i begins.
  function LoopBefore(outer: Json, i: nat, n: nat): map<string, Json>
    requires Fields(outer).Some?
  {
    if i == 0 then LoopStart(Fields(outer).value, n) else LoopBinding(outer, i - 1, n)
  }

  lemma StepMakesBinding(outer: Json, i: nat, n: nat)
    requires Fields(outer).Some? && i < n
    ensures LoopStep(LoopBefore(outer, i, n), i, n) == LoopBinding(outer, i, n)
  {
  }

  lemma EndRestores(outer: Json, n: nat)
    requires Fields(outer).Some?
    ensures LoopEnd(LoopBefore(outer, n, n)) == AfterLoop(outer, n)
  {
    if n == 0 && Empty(outer) {
      assert LoopStart(map[], 0)["parent" := Null] == map["is_first" := Bool(true), "is_last" := Bool(true), "parent" := Null];
    }
  }

  function Joined(r: ScopedResult): Rendered {
    if r.ScopedOk? then Rendered(Join(r.vars, r.loop), r.out) else Failed(r.error)
  }

  lemma JoinUpdate(vars: Vars, loop: Json, key: string, v: Json)
    requires key != "loop"
    ensures Join(vars, loop)[key := v] == Join(vars[key := v], loop)
    ensures Get(Join(vars, loop), key) == Get(vars, key)
  {
  }

  lemma JoinLoop(vars: Vars, loop: Json, loop': Json)
    ensures Join(vars, loop)["loop" := loop'] == Join(vars, loop')
    ensures Get(Join(vars, loop), "loop") == loop
  {
  }

  // Rendering with one mutable loop object gives, for every template that does not assign to it, the output
  // and the data of the semantics in which each iteration has a loop object of its own.
  lemma {:induction false} RenderIsScoped(env: Env, ss: seq<T.Stmt>, vars: Vars, loop: Json, out: string)
    requires LeavesLoopAlone(ss)
    ensures Render(env, ss, Join(vars, loop), out) == Joined(Scoped(env, ss, vars, loop, out))
    decreases ss, 0, 0
  {
    hide Eval;
    if ss != [] {
      StmtIsScoped(env, ss[0], vars, loop, out);
      var r := ScopedStmt(env, ss[0], vars, loop, out);
      if r.ScopedOk? { RenderIsScoped(env, ss[1..], r.vars, r.loop, r.out); }
    }
  }

  lemma {:induction false} StmtIsScoped(env: Env, s: T.Stmt, vars: Vars, loop: Json, out: string)
    requires LeavesLoopAloneStmt(s)
    ensures RenderStmt(env, s, Join(vars, loop), out) == Joined(ScopedStmt(env, s, vars, loop, out))
    decreases s, 1, 1
  {
    hide Eval;
    match s
    case If(_, thn, els) =>
      RenderIsScoped(env, thn, vars, loop, out);
      ElseIsScoped(env, els, vars, loop, out);
    case For(_, _, _, _) => ForIsScoped(env, s, vars, loop, out);
    case Block(_, inner) => RenderIsScoped(env, inner, vars, loop, out);
    case Set(target, e) =>
      var v := Eval(env, Join(vars, loop), e);
      if v.Ok? {
        var path := TargetPath(target);
        var p := env.put(Get(vars, path[0]), path[1..], v.value);
        if p.Some? { JoinUpdate(vars, loop, path[0], p.value); }
      }
    case _ =>
  }

  lemma {:induction false} ElseIsScoped(env: Env, els: T.Else, vars: Vars, loop: Json, out: string)
    requires LeavesLoopAloneElse(els)
    ensures RenderElse(env, els, Join(vars, loop), out) == Joined(ScopedElse(env, els, vars, loop, out))
    decreases els, 0, 0
  {
    hide Eval;
    match els
    case NoElse =>
    case ElseBlock(ss) => RenderIsScoped(env, ss, vars, loop, out);
    case ElseIf(_, thn, more) =>
      RenderIsScoped(env, thn, vars, loop, out);
      ElseIsScoped(env, more, vars, loop, out);
  }

  lemma {:induction false} ForIsScoped(env: Env, s: T.Stmt, vars: Vars, loop: Json, out: string)
    requires s.For? && LeavesLoopAloneStmt(s)
    ensures RenderStmt(env, s, Join(vars, loop), out) == Joined(ScopedStmt(env, s, vars, loop, out))
    decreases s, 1, 0
  {
    hide Eval, LoopStart, LoopStep, LoopEnd, LoopBinding, AfterLoop, Iterate, ScopedIterate;
    var v := Eval(env, Join(vars, loop), s.over);
    if s.key.None? && v.Ok? && v.value.Arr? && Fields(loop).Some? {
      var n := |v.value.items|;
      JoinLoop(vars, loop, Obj(LoopBefore(loop, 0, n)));
      IterateIsScoped(env, s.value, v.value.items, 0, s.body, vars, loop, out);
      var r := ScopedIterate(env, s.value, v.value.items, 0, s.body, vars, loop, out);
      if r.ScopedOk? {
        JoinUpdate(r.vars, Obj(LoopBefore(loop, n, n)), s.value, Cleared(Get(r.vars, s.value)));
        JoinLoop(r.vars[s.value := Cleared(Get(r.vars, s.value))], Obj(LoopBefore(loop, n, n)), AfterLoop(loop, n));
        EndRestores(loop, n);
      }
    }
  }

  lemma {:induction false} IterateIsScoped(env: Env, value: string, items: seq<Json>, i: nat, body: seq<T.Stmt>,
                                           vars: Vars, outer: Json, out: string)
    requires i <= |items| && Fields(outer).Some? && value != "loop" && LeavesLoopAlone(body)
    ensures var r := ScopedIterate(env, value, items, i, body, vars, outer, out);
            Iterate(env, value, items, i, body, Join(vars, Obj(LoopBefore(outer, i, |items|))), out) ==
            if r.ScopedOk? then Rendered(Join(r.vars, Obj(LoopBefore(outer, |items|, |items|))), r.out) else Failed(r.error)
    decreases body, 1, |items| - i
  {
    hide Eval, LoopStart, LoopStep, LoopBinding, Render, Scoped;
    if i < |items| {
      var n := |items|;
      var vars1 := vars[value := items[i]];
      JoinUpdate(vars, Obj(LoopBefore(outer, i, n)), value, items[i]);
      var binding := Obj(LoopBinding(outer, i, n));
      JoinLoop(vars1, Obj(LoopBefore(outer, i, n)), binding);
      StepMakesBinding(outer, i, n);
      RenderIsScoped(env, body, vars1, binding, out);
      BindingIsNotEmpty(outer, i, n);
      ScopedKeepsLoop(env, body, vars1, binding, out);
      var r := Scoped(env, body, vars1, binding, out);
      if r.ScopedOk? { IterateIsScoped(env, value, items, i + 1, body, r.vars, outer, r.out); }
    }
  }

  lemma BindingIsNotEmpty(outer: Json, i: nat, n: nat)
    requires Fields(outer).Some?
    ensures !Empty(Obj(LoopBinding(outer, i, n)))
  {
    assert "index" in LoopBinding(outer, i, n);
  }

  // A template entered with non-empty loop data leaves it exactly as found, whatever loops it runs.
  lemma LoopDataRestored(env: Env, ss: seq<T.Stmt>, vars: Vars, out: string)
    requires LeavesLoopAlone(ss) && "loop" in vars && !Empty(vars["loop"])
    ensures var r := Render(env, ss, vars, out); r.Rendered? ==> "loop" in r.vars && r.vars["loop"] == vars["loop"]
  {
    assert Join(vars, vars["loop"]) == vars;
    RenderIsScoped(env, ss, vars, vars["loop"], out);
    ScopedKeepsLoop(env, ss, vars, vars["loop"], out);
  }

  lemma PartsOfWord(w: string)
    requires forall c <- w :: !IsSeparator(c)
    ensures Parts(w) == [w]
  {
    if w != "" {
      assert w[0] in w && forall c <- w[1..] :: c in w;
      PartsOfWord(w[1..]);
      assert [w[0]] + w[1..] == w;
    }
  }

  lemma PartsOfPair(a: string, b: string)
    requires (forall c <- a :: !IsSeparator(c)) && (forall c <- b :: !IsSeparator(c))
    ensures Parts(a + "." + b) == [a, b]
  {
    var name := a + "." + b;
    if a == "" {
      assert name[1..] == b;
      PartsOfWord(b);
    } else {
      assert name[1..] == a[1..] + "." + b;
      assert a[0] in a && forall c <- a[1..] :: c in a;
      PartsOfPair(a[1..], b);
      assert [a[0]] + a[1..] == a;
    }
  }

  // The data and output with which a loop at iteration j enters the body of iteration i, unless it fails before.
  function EnterIteration(env: Env, value: string, items: seq<Json>, j: nat, i: nat, body: seq<T.Stmt>, vars: Vars, out: string)
    : Rendered
    requires j <= i < |items|
    decreases i - j
  {
    var vars1 := vars[value := items[j]];
    var loop := Fields(Get(vars1, "loop"));
    if loop.None? then Failed(LoopIsNoObject)
    else
      var vars2 := vars1["loop" := Obj(LoopStep(loop.value, j, |items|))];
      if i == j then Rendered(vars2, out)
      else
        var r := Render(env, body, vars2, out);
        if r.Failed? then r else EnterIteration(env, value, items, j + 1, i, body, r.vars, r.out)
  }

  // A loop fails before iteration i, or goes on with its body there.
  lemma {:induction false} IterateEnters(env: Env, value: string, items: seq<Json>, j: nat, i: nat, body: seq<T.Stmt>,
                                         vars: Vars, out: string)
    requires j <= i < |items|
    ensures var e := EnterIteration(env, value, items, j, i, body, vars, out);
            Iterate(env, value, items, j, body, vars, out) ==
            if e.Failed? then e
            else
              var r := Render(env, body, e.vars, e.out);
              if r.Failed? then r else Iterate(env, value, items, i + 1, body, r.vars, r.out)
    decreases i - j
  {
    hide Render, LoopStep;
    var vars1 := vars[value := items[j]];
    var loop := Fields(Get(vars1, "loop"));
    if loop.Some? && j < i {
      var r := Render(env, body, vars1["loop" := Obj(LoopStep(loop.value, j, |items|))], out);
      if r.Rendered? { IterateEnters(env, value, items, j + 1, i, body, r.vars, r.out); }
    }
  }

  lemma {:induction false} EntryBinding(env: Env, value: string, items: seq<Json>, j: nat, i: nat, body: seq<T.Stmt>,
                                        vars: Vars, outer: Json, out: string)
    requires j <= i < |items| && Fields(outer).Some? && value != "loop" && LeavesLoopAlone(body)
    requires "loop" in vars && vars["loop"] == Obj(LoopBefore(outer, j, |items|))
    ensures var e := EnterIteration(env, value, items, j, i, body, vars, out);
            e.Rendered? ==> "loop" in e.vars && e.vars["loop"] == Obj(LoopBinding(outer, i, |items|))
    decreases i - j
  {
    hide Render, LoopStep, LoopBinding, LoopStart;
    var n, vars1 := |items|, vars[value := items[j]];
    StepMakesBinding(outer, j, n);
    var vars2 := vars1["loop" := Obj(LoopBinding(outer, j, n))];
    if j < i {
      BindingIsNotEmpty(outer, j, n);
      LoopDataRestored(env, body, vars2, out);
      var r := Render(env, body, vars2, out);
      if r.Rendered? { EntryBinding(env, value, items, j + 1, i, body, r.vars, outer, r.out); }
    }
  }

  // At every point of the body of iteration i of a loop over n items, once the iterations before and any part `done` of
  // the body have been rendered with whatever inner loops: `loop.index`, `loop.index1`, `loop.is_first` and
  // `loop.is_last` read i, i + 1, i = 0 and i = n - 1, and in an inner loop `loop.parent` is the loop around it.
  lemma LoopVisibleInBody(env: Env, value: string, items: seq<Json>, i: nat, body: seq<T.Stmt>, done: seq<T.Stmt>,
                          vars: Vars, out: string)
    requires LeavesLoopAlone(body) && LeavesLoopAlone(done) && value != "loop" && i < |items|
    requires Fields(Get(vars, "loop")).Some?
    ensures var n, outer := |items|, Get(vars, "loop");
            var start := vars["loop" := Obj(LoopStart(Fields(outer).value, n))];
            var e := EnterIteration(env, value, items, 0, i, body, start, out);
            e.Rendered? ==>
              var r := Render(env, done, e.vars, e.out);
              r.Rendered? ==>
                && Lookup(env, r.vars, "loop" + "." + "index") == Some(Int(i))
                && Lookup(env, r.vars, "loop" + "." + "index1") == Some(Int(i + 1))
                && Lookup(env, r.vars, "loop" + "." + "is_first") == Some(Bool(i == 0))
                && Lookup(env, r.vars, "loop" + "." + "is_last") == Some(Bool(i == n - 1))
                && (!Empty(outer) ==> Lookup(env, r.vars, "loop" + "." + "parent") == Some(outer))
  {
    hide Render, LoopStep, LoopStart, Lookup;
    var n, outer := |items|, Get(vars, "loop");
    var binding := LoopBinding(outer, i, n);
    var start := vars["loop" := Obj(LoopStart(Fields(outer).value, n))];
    EntryBinding(env, value, items, 0, i, body, start, outer, out);
    var e := EnterIteration(env, value, items, 0, i, body, start, out);
    if e.Rendered? {
      BindingIsNotEmpty(outer, i, n);
      LoopDataRestored(env, done, e.vars, e.out);
      var r := Render(env, done, e.vars, e.out);
      if r.Rendered? {
        LoopField(env, r.vars, binding, "index");
        LoopField(env, r.vars, binding, "index1");
        LoopField(env, r.vars, binding, "is_first");
        LoopField(env, r.vars, binding, "is_last");
        if !Empty(outer) { LoopField(env, r.vars, binding, "parent"); }
      }
    }
  }

  lemma LoopField(env: Env, vars: Vars, loop: map<string, Json>, field: string)
    requires "loop" in vars && vars["loop"] == Obj(loop) && field in loop
    requires field != "" && (forall c <- field :: !IsSeparator(c))
    ensures Lookup(env, vars, "loop" + "." + field) == Some(loop[field])
  {
    var name := "loop" + "." + field;
    assert name[|name| - 1] == field[|field| - 1];
    assert field[|field| - 1] in field;
    PartsOfPair("loop", field);
    assert Path(name) == ["loop", field];
    assert ["loop", field][1..] == [field] && [field][1..] == [];
    assert Resolve(Obj(loop), [field]) == Some(loop[field]);
  }
}
