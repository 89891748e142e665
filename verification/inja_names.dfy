// The evaluator without its data stack: on all stacks and for all expressions it is a recursion that hands on the names
// that were not found. It says exactly what happens past a dot over a resolved name.
module InjaNames {
  import opened Wrappers
  import opened InjaSyntax
  import opened InjaEval

  // ---------------------------------------------------------------- the recursion

  // A value (none for a name that was not found) and the names pending afterwards.
  datatype Given = Given(v: Option<Json>, names: seq<string>) | Stops(error: EvalError)

  datatype AllGiven = AllGiven(vs: seq<Option<Json>>, names: seq<string>) | AllStop(error: EvalError)

  function Give(sc: Scope, e: Expr, names: seq<string>): Given
    decreases e, 2
  {
    match e
    case Literal(text) => Given(Some(sc.literal(text)), names)
    case Data(name) => if sc.lookup(name).Some? then Given(sc.lookup(name), names) else Given(None, names + [name])
    case Function(op, name, args) =>
      match FormOf(op)
      case Decision(decisive) => GiveDecision(sc, args, decisive, names)
      case DefaultForm => GiveDefault(sc, args, names)
      case ElementForm => GiveElement(sc, op, name, args, names)
      case SuperForm => Stops(NotModelled)
      case CallForm => GiveCall(sc, op, name, args, names)
  }

  // Arguments i to i+n-1 in order.
  function GiveRange(sc: Scope, args: seq<Expr>, i: nat, n: nat, names: seq<string>): (r: AllGiven)
    requires i + n <= |args|
    ensures r.AllGiven? ==> |r.vs| == n
    decreases args, 0, n
  {
    if n == 0 then AllGiven([], names)
    else
      var first := Give(sc, args[i], names);
      if first.Stops? then AllStop(first.error)
      else
        var more := GiveRange(sc, args, i + 1, n - 1, first.names);
        if more.AllStop? then more else AllGiven([first.v] + more.vs, more.names)
  }

  // Every argument without a value, from the last one on, gives back a name.
  function TakeNames(vs: seq<Option<Json>>, names: seq<string>, strict: bool): (r: AllGiven)
    ensures r.AllGiven? ==> r.vs == vs && |r.names| <= |names|
    decreases |vs|
  {
    if vs == [] then AllGiven([], names)
    else
      var front := vs[..|vs| - 1];
      if vs[|vs| - 1].Some? then
        var r := TakeNames(front, names, strict);
        if r.AllStop? then r else AllGiven(vs, r.names)
      else if names == [] then AllStop(StackUnderflow)
      else if strict then AllStop(NotFound(names[|names| - 1]))
      else
        var r := TakeNames(front, names[..|names| - 1], strict);
        if r.AllStop? then r else AllGiven(vs, r.names)
  }

  function GiveArguments(sc: Scope, args: seq<Expr>, start: nat, n: nat, strict: bool, names: seq<string>): (r: AllGiven)
    ensures r.AllGiven? ==> |r.vs| == n
    decreases args, 1
  {
    if |args| < start + n then AllStop(TooFewArguments)
    else
      var r := GiveRange(sc, args, start, n, names);
      if r.AllStop? then r else TakeNames(r.vs, r.names, strict)
  }

  function GiveCall(sc: Scope, op: Operation, name: string, args: seq<Expr>, names: seq<string>): Given
    decreases args, 2
  {
    if |args| < Arity(op, args) then Stops(TooFewArguments)
    else
      var r := GiveArguments(sc, args, 0, Arity(op, args), true, names);
      if r.AllStop? then Stops(r.error) else Made(sc, op, name, r.vs, r.names)
  }

  function Made(sc: Scope, op: Operation, name: string, vs: seq<Option<Json>>, names: seq<string>): Given {
    if None in vs then Stops(NullContainer)
    else
      var r := sc.primitive(op, name, Unwrap(vs));
      if r.None? then Stops(Primitive(op)) else Given(r, names)
  }

  function GiveDefault(sc: Scope, args: seq<Expr>, names: seq<string>): Given
    decreases args, 2
  {
    var test := GiveArguments(sc, args, 0, 1, false, names);
    if test.AllStop? then Stops(test.error)
    else if test.vs[0].Some? then Given(test.vs[0], test.names)
    else
      var other := GiveArguments(sc, args, 1, 1, true, test.names);
      if other.AllStop? then Stops(other.error)
      else if other.vs[0].None? then Stops(NullContainer)
      else Given(other.vs[0], other.names)
  }

  function GiveDecision(sc: Scope, args: seq<Expr>, decisive: bool, names: seq<string>): Given
    decreases args, 2
  {
    var a := GiveArguments(sc, args, 0, 1, true, names);
    if a.AllStop? then Stops(a.error)
    else if a.vs[0].None? then Stops(NullContainer)
    else if Truthy(a.vs[0].value) == decisive then Given(Some(Bool(decisive)), a.names)
    else
      var b := GiveArguments(sc, args, 1, 1, true, a.names);
      if b.AllStop? then Stops(b.error)
      else if b.vs[0].None? then Stops(NullContainer)
      else Given(Some(Bool(Truthy(b.vs[0].value))), b.names)
  }

  // A dot takes the last pending name, whether its right operand left one or not.
  function GiveElement(sc: Scope, op: Operation, name: string, args: seq<Expr>, names: seq<string>): Given
    decreases args, 2
  {
    if |args| < 2 then Stops(TooFewArguments)
    else
      var c := GiveArguments(sc, args, 0, 1, false, names);
      if c.AllStop? then Stops(c.error)
      else
        var d := Give(sc, args[1], c.names);
        if d.Stops? then d
        else if d.names == [] then Stops(NoElement)
        else Made(sc, op, name, [c.vs[0], Some(Str(d.names[|d.names| - 1]))], d.names[..|d.names| - 1])
  }

  // ---------------------------------------------------------------- the machine is that recursion

  function Stacked(g: Given, s: Stacks): Outcome {
    if g.Given? then Done(Stacks(s.data + [g.v], g.names)) else Throw(g.error)
  }

  function AllStacked(g: AllGiven, s: Stacks): Outcome {
    if g.AllGiven? then Done(Stacks(s.data + g.vs, g.names)) else Throw(g.error)
  }

  function AllPopped(g: AllGiven, data: seq<Option<Json>>): Popped {
    if g.AllGiven? then Popped(g.vs, Stacks(data, g.names)) else PopThrow(g.error)
  }

  lemma {:induction false} RangeIsGiven(sc: Scope, args: seq<Expr>, i: nat, n: nat, s: Stacks)
    requires i + n <= |args|
    ensures VisitRange(sc, args, i, n, s) == AllStacked(GiveRange(sc, args, i, n, s.missing), s)
    decreases args, 0, n
  {
    if n == 0 {
      assert s.data + [] == s.data;
    } else {
      VisitIsGiven(sc, args[i], s);
      var first := Give(sc, args[i], s.missing);
      if first.Given? {
        var t := Stacks(s.data + [first.v], first.names);
        RangeIsGiven(sc, args, i + 1, n - 1, t);
        var more := GiveRange(sc, args, i + 1, n - 1, first.names);
        if more.AllGiven? { assert t.data + more.vs == s.data + ([first.v] + more.vs); }
      }
    }
  }

  // Popping as many entries as were pushed.
  lemma {:induction false} PopTakesNames(data: seq<Option<Json>>, vs: seq<Option<Json>>, names: seq<string>, strict: bool)
    ensures Pop(Stacks(data + vs, names), |vs|, strict) == AllPopped(TakeNames(vs, names, strict), data)
    decreases |vs|
  {
    if vs == [] {
      assert data + vs == data;
    } else {
      var front, last := vs[..|vs| - 1], vs[|vs| - 1];
      assert front + [last] == vs;
      PopLast(data + front, last, names, |front|, strict);
      TakeLast(front, last, names, strict);
      assert data + vs == data + front + [last];
      hide Pop, TakeNames;
      if last.Some? || (names != [] && !strict) {
        PopTakesNames(data, front, if last.None? then names[..|names| - 1] else names, strict);
      }
    }
  }

  lemma TakeLast(front: seq<Option<Json>>, last: Option<Json>, names: seq<string>, strict: bool)
    ensures TakeNames(front + [last], names, strict) ==
            if last.None? && names == [] then AllStop(StackUnderflow)
            else if last.None? && strict then AllStop(NotFound(names[|names| - 1]))
            else
              var r := TakeNames(front, if last.None? then names[..|names| - 1] else names, strict);
              if r.AllStop? then r else AllGiven(front + [last], r.names)
  {
    assert (front + [last])[..|front|] == front;
  }

  lemma PopLast(data: seq<Option<Json>>, last: Option<Json>, names: seq<string>, n: nat, strict: bool)
    ensures Pop(Stacks(data + [last], names), n + 1, strict) ==
            if last.None? && names == [] then PopThrow(StackUnderflow)
            else if last.None? && strict then PopThrow(NotFound(names[|names| - 1]))
            else
              var p := Pop(Stacks(data, if last.None? then names[..|names| - 1] else names), n, strict);
              if p.PopThrow? then p else Popped(p.args + [last], p.s)
  {
    assert (data + [last])[..|data|] == data;
  }

  lemma {:induction false} ArgumentsAreGiven(sc: Scope, args: seq<Expr>, start: nat, n: nat, strict: bool, s: Stacks)
    ensures GetArguments(sc, args, start, n, strict, s) == AllPopped(GiveArguments(sc, args, start, n, strict, s.missing), s.data)
    decreases args, 1
  {
    hide VisitRange, GiveRange, Pop, TakeNames;
    if start + n <= |args| {
      RangeIsGiven(sc, args, start, n, s);
      var r := GiveRange(sc, args, start, n, s.missing);
      if r.AllGiven? { PopTakesNames(s.data, r.vs, r.names, strict); }
    }
  }

  lemma MadeIsMade(sc: Scope, op: Operation, name: string, vs: seq<Option<Json>>, s: Stacks)
    ensures MakeResult(sc, op, name, Popped(vs, s)) == Stacked(Made(sc, op, name, vs, s.missing), s)
  {
  }

  lemma {:induction false} ElementIsGiven(sc: Scope, op: Operation, name: string, args: seq<Expr>, s: Stacks)
    ensures VisitElement(sc, op, name, args, s) == Stacked(GiveElement(sc, op, name, args, s.missing), s)
    decreases args, 2
  {
    hide GetArguments, GiveArguments, Visit, Give, MakeResult, Made;
    if |args| >= 2 {
      ArgumentsAreGiven(sc, args, 0, 1, false, s);
      var c := GiveArguments(sc, args, 0, 1, false, s.missing);
      if c.AllGiven? {
        var t := Stacks(s.data, c.names);
        VisitIsGiven(sc, args[1], t);
        var d := Give(sc, args[1], c.names);
        if d.Given? && d.names != [] {
          var all := s.data + [d.v];
          assert all[..|all| - 1] == s.data;
          MadeIsMade(sc, op, name, [c.vs[0], Some(Str(d.names[|d.names| - 1]))], Stacks(s.data, d.names[..|d.names| - 1]));
        }
      }
    }
  }

  lemma {:induction false} CallIsGiven(sc: Scope, op: Operation, name: string, args: seq<Expr>, s: Stacks)
    ensures VisitCall(sc, op, name, args, s) == Stacked(GiveCall(sc, op, name, args, s.missing), s)
    decreases args, 2
  {
    hide GetArguments, GiveArguments, MakeResult, Made;
    ArgumentsAreGiven(sc, args, 0, Arity(op, args), true, s);
    var r := GiveArguments(sc, args, 0, Arity(op, args), true, s.missing);
    if r.AllGiven? { MadeIsMade(sc, op, name, r.vs, Stacks(s.data, r.names)); }
  }

  lemma {:induction false} DefaultIsGiven(sc: Scope, args: seq<Expr>, s: Stacks)
    ensures VisitDefault(sc, args, s) == Stacked(GiveDefault(sc, args, s.missing), s)
    decreases args, 2
  {
    hide GetArguments, GiveArguments;
    ArgumentsAreGiven(sc, args, 0, 1, false, s);
    var test := GiveArguments(sc, args, 0, 1, false, s.missing);
    if test.AllGiven? { ArgumentsAreGiven(sc, args, 1, 1, true, Stacks(s.data, test.names)); }
  }

  lemma {:induction false} DecisionIsGiven(sc: Scope, args: seq<Expr>, decisive: bool, s: Stacks)
    ensures VisitDecision(sc, args, decisive, s) == Stacked(GiveDecision(sc, args, decisive, s.missing), s)
    decreases args, 2
  {
    hide GetArguments, GiveArguments;
    ArgumentsAreGiven(sc, args, 0, 1, true, s);
    var a := GiveArguments(sc, args, 0, 1, true, s.missing);
    if a.AllGiven? { ArgumentsAreGiven(sc, args, 1, 1, true, Stacks(s.data, a.names)); }
  }

  // Whatever the expression and the stacks: a visit pushes one entry, its value as the recursion gives it, leaves the
  // data below as it was, and of the names those that the recursion leaves; or it fails as the recursion does.
  lemma {:induction false} VisitIsGiven(sc: Scope, e: Expr, s: Stacks)
    ensures Visit(sc, e, s) == Stacked(Give(sc, e, s.missing), s)
    decreases e, 2
  {
    hide VisitElement, VisitCall, VisitDecision, VisitDefault, GiveElement, GiveCall, GiveDecision, GiveDefault;
    if e.Function? {
      match FormOf(e.op)
      case Decision(decisive) => DecisionIsGiven(sc, e.args, decisive, s);
      case DefaultForm => DefaultIsGiven(sc, e.args, s);
      case ElementForm => ElementIsGiven(sc, e.op, e.fname, e.args, s);
      case SuperForm =>
      case CallForm => CallIsGiven(sc, e.op, e.fname, e.args, s);
    }
  }

  // ---------------------------------------------------------------- what follows

  // What a visit does depends on the pending names alone, and it changes no data below.
  lemma OnlyNamesMatter(sc: Scope, e: Expr, s: Stacks, t: Stacks)
    requires s.missing == t.missing
    ensures match Visit(sc, e, s)
            case Throw(error) => Visit(sc, e, t) == Throw(error)
            case Done(s') =>
              s'.data != [] && s'.data[..|s'.data| - 1] == s.data &&
              Visit(sc, e, t) == Done(Stacks(t.data + [s'.data[|s'.data| - 1]], s'.missing))
  {
    hide Visit, Give;
    VisitIsGiven(sc, e, s);
    VisitIsGiven(sc, e, t);
    var g := Give(sc, e, s.missing);
    if g.Given? { assert (s.data + [g.v])[..|s.data|] == s.data; }
  }

  // The guard of the branch that takes the top of an empty stack: a call does so exactly if, its arguments being given,
  // one of them has no value and no name is pending any more.
  lemma CallUnderflowsExactly(sc: Scope, op: Operation, name: string, args: seq<Expr>, s: Stacks)
    requires FormOf(op).CallForm? && Arity(op, args) <= |args|
    requires GiveRange(sc, args, 0, Arity(op, args), s.missing).AllGiven?
    ensures var r := GiveRange(sc, args, 0, Arity(op, args), s.missing);
            Visit(sc, Function(op, name, args), s) == Throw(StackUnderflow) <==> None in r.vs && r.names == []
  {
    hide Visit, GiveRange, TakeNames;
    VisitIsGiven(sc, Function(op, name, args), s);
    var r := GiveRange(sc, args, 0, Arity(op, args), s.missing);
    TakeUnderflows(r.vs, r.names);
    assert GiveArguments(sc, args, 0, Arity(op, args), true, s.missing) == TakeNames(r.vs, r.names, true);
    assert Give(sc, Function(op, name, args), s.missing) == GiveCall(sc, op, name, args, s.missing);
  }

  lemma {:induction false} TakeUnderflows(vs: seq<Option<Json>>, names: seq<string>)
    ensures TakeNames(vs, names, true) == AllStop(StackUnderflow) <==> None in vs && names == []
    decreases |vs|
  {
    if vs != [] {
      var front := vs[..|vs| - 1];
      TakeUnderflows(front, names);
      assert vs == front + [vs[|vs| - 1]];
    }
  }

  // The outcome of a whole evaluation, without exception.
  function EvaluatedAs(g: Given): Evaluated {
    match g
    case Stops(error) => Err(error)
    case Given(v, names) =>
      if v.Some? then Ok(v.value) else if names == [] then Err(StackUnderflow) else Err(NotFound(names[|names| - 1]))
  }

  lemma EvaluatesAsGiven(sc: Scope, e: Expr)
    ensures EvalExpressionList(sc, Some(e), Stacks([], [])).0 == EvaluatedAs(Give(sc, e, []))
  {
    hide Visit, Give;
    VisitIsGiven(sc, e, Stacks([], []));
    var g := Give(sc, e, []);
    if g.Given? { assert [] + [g.v] == [g.v]; }
  }

  // A whole evaluation does what the meaning says if and only if the meaning does not stop at a dot over a resolved name,
  // or a dot is come to with no name pending: that one, or a later one that earlier ones have left none.
  lemma EvaluatesToMeaningExactly(sc: Scope, e: Expr)
    ensures EvalExpressionList(sc, Some(e), Stacks([], [])).0 ==
            (match MeaningOf(sc, e) case Val(v) => Ok(v) case Missing(name) => Err(NotFound(name)) case Fail(error) => Err(error))
            <==> MeaningOf(sc, e) != Fail(NoElement) || Give(sc, e, []) == Stops(NoElement)
  {
    hide Visit, Give, MeaningOf, EvalExpressionList;
    EvaluatesAsGiven(sc, e);
    if MeaningOf(sc, e) != Fail(NoElement) { EvaluatesToMeaning(sc, e); }
  }
}
