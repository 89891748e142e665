// The renderer object: its stacks, its additional data and its output, updated step by step.
// Each method is proved to do what InjaEval and InjaRender specify.
module InjaRenderer {
  import opened Wrappers
  import opened InjaSyntax
  import opened InjaEval
  import R = InjaRender
  import T = InjaTemplate

  // A pop whose last arguments are already known.
  ghost function Continued(p: Popped, args: seq<Option<Json>>): Popped {
    if p.Popped? then Popped(p.args + args, p.s) else p
  }

  lemma Continues(p: Popped)
    ensures Continued(p, []) == p
  {
    if p.Popped? { assert p.args + [] == p.args; }
  }

  lemma ContinuesPast(p: Popped, top: Option<Json>, args: seq<Option<Json>>)
    ensures Continued(if p.Popped? then Popped(p.args + [top], p.s) else p, args) == Continued(p, [top] + args)
  {
    if p.Popped? { assert p.args + [top] + args == p.args + ([top] + args); }
  }

  class Renderer {
    const env: R.Env
    var dataEvalStack: seq<Option<Json>>
    var notFoundStack: seq<string>
    var additionalData: map<string, Json>   // current_loop_data points to its entry "loop"
    var outputStream: string

    ghost function EvalStacks(): Stacks
      reads this`dataEvalStack, this`notFoundStack
    {
      Stacks(dataEvalStack, notFoundStack)
    }

    function EvalScope(): Scope
      reads this`additionalData
    {
      R.ScopeOf(env, additionalData)
    }

    constructor (env: R.Env, loopData: map<string, Json>)
      ensures this.env == env && EvalStacks() == Stacks([], []) && outputStream == ""
      ensures additionalData == if "loop" in loopData then loopData else loopData["loop" := Null]
    {
      this.env := env;
      dataEvalStack, notFoundStack, outputStream := [], [], "";
      additionalData := if "loop" in loopData then loopData else loopData["loop" := Null];
    }

    // Pops n arguments, the last one first.
    method PopArguments(n: nat, strict: bool) returns (r: Result<seq<Option<Json>>, EvalError>)
      modifies this`dataEvalStack, this`notFoundStack
      ensures match Pop(old(EvalStacks()), n, strict)
              case Popped(args, s) => r == Ok(args) && EvalStacks() == s
              case PopThrow(error) => r == Err(error)
    {
      ghost var spec := Pop(EvalStacks(), n, strict);
      var args := [];
      Continues(Pop(EvalStacks(), n, strict));
      for i := 0 to n
        invariant |args| == i && spec == Continued(Pop(EvalStacks(), n - i, strict), args)
      {
        if dataEvalStack == [] { return Err(TooFewArguments); }
        var top := dataEvalStack[|dataEvalStack| - 1];
        dataEvalStack := dataEvalStack[..|dataEvalStack| - 1];
        if top.None? {
          if notFoundStack == [] { return Err(StackUnderflow); }
          var name := notFoundStack[|notFoundStack| - 1];
          notFoundStack := notFoundStack[..|notFoundStack| - 1];
          if strict { return Err(NotFound(name)); }
        }
        ContinuesPast(Pop(EvalStacks(), n - i - 1, strict), top, args);
        args := [top] + args;
      }
      assert [] + args == args;
      r := Ok(args);
    }

    method GetArguments(args: seq<Expr>, start: nat, n: nat, strict: bool) returns (r: Result<seq<Option<Json>>, EvalError>)
      modifies this`dataEvalStack, this`notFoundStack
      ensures match InjaEval.GetArguments(EvalScope(), args, start, n, strict, old(EvalStacks()))
              case Popped(vs, s) => r == Ok(vs) && EvalStacks() == s
              case PopThrow(error) => r == Err(error)
      decreases args, 1
    {
      if |args| < start + n { return Err(TooFewArguments); }
      ghost var spec := VisitRange(EvalScope(), args, start, n, EvalStacks());
      for i := start to start + n
        invariant spec == VisitRange(EvalScope(), args, i, start + n - i, EvalStacks())
      {
        var o := Visit(args[i]);
        if o.Err? { return Err(o.error); }
      }
      if |dataEvalStack| < n { return Err(TooFewArguments); }
      r := PopArguments(n, strict);
    }

    method MakeResult(op: Operation, name: string, args: seq<Option<Json>>) returns (r: Result<(), EvalError>)
      modifies this`dataEvalStack
      ensures match InjaEval.MakeResult(EvalScope(), op, name, Popped(args, old(EvalStacks())))
              case Done(s) => r == Ok(()) && EvalStacks() == s
              case Throw(error) => r == Err(error)
    {
      if None in args { return Err(NullContainer); }
      var v := env.primitive(op, name, Unwrap(args));
      if v.None? { return Err(Primitive(op)); }
      dataEvalStack := dataEvalStack + [Some(v.value)];
      r := Ok(());
    }

    method Visit(e: Expr) returns (r: Result<(), EvalError>)
      modifies this`dataEvalStack, this`notFoundStack
      ensures match InjaEval.Visit(EvalScope(), e, old(EvalStacks()))
              case Done(s) => r == Ok(()) && EvalStacks() == s
              case Throw(error) => r == Err(error)
      decreases e, 3
    {
      hide InjaEval.VisitDecision, InjaEval.VisitDefault, InjaEval.VisitElement, InjaEval.VisitCall;
      r := Ok(());
      match e
      case Literal(text) => dataEvalStack := dataEvalStack + [Some(env.literal(text))];
      case Data(name) =>
        var v := R.Lookup(env, additionalData, name);
        dataEvalStack := dataEvalStack + [v];
        if v.None? { notFoundStack := notFoundStack + [name]; }
      case Function(op, name, args) =>
        match FormOf(op)
        case Decision(decisive) => r := VisitDecision(args, decisive);
        case DefaultForm => r := VisitDefault(args);
        case ElementForm => r := VisitElement(op, name, args);
        case SuperForm => r := Err(NotModelled);
        case CallForm => r := VisitCall(op, name, args);
    }

    method VisitDecision(args: seq<Expr>, decisive: bool) returns (r: Result<(), EvalError>)
      modifies this`dataEvalStack, this`notFoundStack
      ensures match InjaEval.VisitDecision(EvalScope(), args, decisive, old(EvalStacks()))
              case Done(s) => r == Ok(()) && EvalStacks() == s
              case Throw(error) => r == Err(error)
      decreases args, 2
    {
      hide InjaEval.GetArguments;
      var a := GetArguments(args, 0, 1, true);
      if a.Err? { return Err(a.error); }
      if a.value[0].None? { return Err(NullContainer); }
      if Truthy(a.value[0].value) == decisive {
        dataEvalStack := dataEvalStack + [Some(Bool(decisive))];
      } else {
        var b := GetArguments(args, 1, 1, true);
        if b.Err? { return Err(b.error); }
        if b.value[0].None? { return Err(NullContainer); }
        dataEvalStack := dataEvalStack + [Some(Bool(Truthy(b.value[0].value)))];
      }
      r := Ok(());
    }

    method VisitDefault(args: seq<Expr>) returns (r: Result<(), EvalError>)
      modifies this`dataEvalStack, this`notFoundStack
      ensures match InjaEval.VisitDefault(EvalScope(), args, old(EvalStacks()))
              case Done(s) => r == Ok(()) && EvalStacks() == s
              case Throw(error) => r == Err(error)
      decreases args, 2
    {
      hide InjaEval.GetArguments;
      var test := GetArguments(args, 0, 1, false);
      if test.Err? { return Err(test.error); }
      if test.value[0].Some? {
        dataEvalStack := dataEvalStack + [test.value[0]];
      } else {
        var other := GetArguments(args, 1, 1, true);
        if other.Err? { return Err(other.error); }
        if other.value[0].None? { return Err(NullContainer); }
        dataEvalStack := dataEvalStack + [other.value[0]];
      }
      r := Ok(());
    }

    method VisitElement(op: Operation, name: string, args: seq<Expr>) returns (r: Result<(), EvalError>)
      modifies this`dataEvalStack, this`notFoundStack
      ensures match InjaEval.VisitElement(EvalScope(), op, name, args, old(EvalStacks()))
              case Done(s) => r == Ok(()) && EvalStacks() == s
              case Throw(error) => r == Err(error)
      decreases args, 2
    {
      hide InjaEval.GetArguments, InjaEval.Visit, InjaEval.MakeResult;
      if |args| < 2 { return Err(TooFewArguments); }
      var c := GetArguments(args, 0, 1, false);
      if c.Err? { return Err(c.error); }
      var o := Visit(args[1]);
      if o.Err? { return o; }
      if notFoundStack == [] { return Err(NoElement); }
      if dataEvalStack == [] { return Err(StackUnderflow); }
      var id := notFoundStack[|notFoundStack| - 1];
      notFoundStack := notFoundStack[..|notFoundStack| - 1];
      dataEvalStack := dataEvalStack[..|dataEvalStack| - 1];
      assert [c.value[0], Some(Str(id))] == c.value + [Some(Str(id))];
      r := MakeResult(op, name, [c.value[0], Some(Str(id))]);
    }

    method VisitCall(op: Operation, name: string, args: seq<Expr>) returns (r: Result<(), EvalError>)
      modifies this`dataEvalStack, this`notFoundStack
      ensures match InjaEval.VisitCall(EvalScope(), op, name, args, old(EvalStacks()))
              case Done(s) => r == Ok(()) && EvalStacks() == s
              case Throw(error) => r == Err(error)
      decreases args, 2
    {
      hide InjaEval.GetArguments, InjaEval.MakeResult;
      if |args| < Arity(op, args) { return Err(TooFewArguments); }
      var vs := GetArguments(args, 0, Arity(op, args), true);
      if vs.Err? { return Err(vs.error); }
      r := MakeResult(op, name, vs.value);
    }

    // eval_expression_list: from empty stacks, and with empty stacks again when it succeeds.
    method EvalExpressionList(root: Expr) returns (r: Evaluated)
      requires EvalStacks() == Stacks([], [])
      modifies this`dataEvalStack, this`notFoundStack
      ensures r == R.Eval(env, additionalData, root)
      ensures r.Ok? ==> EvalStacks() == Stacks([], [])
    {
      hide InjaEval.Visit;
      StacksEmptyBetween(EvalScope(), Some(root));
      var o := Visit(root);
      if o.Err? { return Err(o.error); }
      if dataEvalStack == [] { return Err(EmptyExpression); }
      if |dataEvalStack| != 1 { return Err(MalformedExpression); }
      var result := dataEvalStack[0];
      dataEvalStack := [];
      if result.None? {
        if notFoundStack == [] { return Err(StackUnderflow); }
        return Err(NotFound(notFoundStack[|notFoundStack| - 1]));
      }
      r := Ok(result.value);
    }

    // What a statement did: the data and the output on success.
    ghost predicate Did(spec: R.Rendered, r: Option<R.RenderError>)
      reads this
    {
      match spec
      case Rendered(vars, out) =>
        r == None && additionalData == vars && outputStream == out && EvalStacks() == Stacks([], [])
      case Failed(error) => r == Some(error)
    }

    method RenderBlock(ss: seq<T.Stmt>) returns (r: Option<R.RenderError>)
      requires EvalStacks() == Stacks([], [])
      modifies this
      ensures Did(R.Render(env, ss, old(additionalData), old(outputStream)), r)
      decreases ss, 0, 0
    {
      ghost var spec := R.Render(env, ss, additionalData, outputStream);
      r := None;
      for i := 0 to |ss|
        invariant EvalStacks() == Stacks([], []) && r == None
        invariant spec == R.Render(env, ss[i..], additionalData, outputStream)
      {
        assert ss[i..][1..] == ss[i + 1..];
        r := RenderStatement(ss[i]);
        if r.Some? { return; }
      }
    }

    method RenderStatement(s: T.Stmt) returns (r: Option<R.RenderError>)
      requires EvalStacks() == Stacks([], [])
      modifies this
      ensures Did(R.RenderStmt(env, s, old(additionalData), old(outputStream)), r)
      decreases s, 1, 1
    {
      hide R.Eval;
      r := None;
      match s
      case Text(text) => outputStream := outputStream + text;
      case Output(e) =>
        var v := EvalExpressionList(e);
        if v.Err? { return Some(R.EvalFailed(v.error)); }
        outputStream := outputStream + env.show(v.value);
      case If(cond, thn, els) =>
        var v := EvalExpressionList(cond);
        if v.Err? { return Some(R.EvalFailed(v.error)); }
        if Truthy(v.value) { r := RenderBlock(thn); } else { r := RenderElse(els); }
      case For(_, _, _, _) => r := RenderFor(s);
      case Block(_, inner) => r := RenderBlock(inner);
      case Set(target, e) =>
        var v := EvalExpressionList(e);
        if v.Err? { return Some(R.EvalFailed(v.error)); }
        var vars := R.Assign(env, additionalData, target, v.value);
        if vars.None? { return Some(R.PutFailed); }
        additionalData := vars.value;
      case Include(_) => r := Some(R.Unsupported);
      case Extends(_) => r := Some(R.Unsupported);
    }

    method RenderElse(els: T.Else) returns (r: Option<R.RenderError>)
      requires EvalStacks() == Stacks([], [])
      modifies this
      ensures Did(R.RenderElse(env, els, old(additionalData), old(outputStream)), r)
      decreases els, 0, 0
    {
      hide R.Eval;
      r := None;
      match els
      case NoElse =>
      case ElseBlock(ss) => r := RenderBlock(ss);
      case ElseIf(cond, thn, more) =>
        var v := EvalExpressionList(cond);
        if v.Err? { return Some(R.EvalFailed(v.error)); }
        if Truthy(v.value) { r := RenderBlock(thn); } else { r := RenderElse(more); }
    }

    method RenderFor(s: T.Stmt) returns (r: Option<R.RenderError>)
      requires s.For? && EvalStacks() == Stacks([], [])
      modifies this
      ensures Did(R.RenderStmt(env, s, old(additionalData), old(outputStream)), r)
      decreases s, 1, 0
    {
      hide R.Eval, R.LoopStart, R.LoopStep, R.LoopEnd;
      if s.key.Some? { return Some(R.Unsupported); }
      var result := EvalExpressionList(s.over);
      if result.Err? { return Some(R.EvalFailed(result.error)); }
      if !result.value.Arr? { return Some(R.NotAnArray); }
      var items, n := result.value.items, |result.value.items|;
      var loop := R.Fields(R.Get(additionalData, "loop"));
      if loop.None? { return Some(R.LoopIsNoObject); }
      additionalData := additionalData["loop" := Obj(R.LoopStart(loop.value, n))];
      ghost var spec := R.Iterate(env, s.value, items, 0, s.body, additionalData, outputStream);
      for i := 0 to n
        invariant EvalStacks() == Stacks([], [])
        invariant spec == R.Iterate(env, s.value, items, i, s.body, additionalData, outputStream)
      {
        additionalData := additionalData[s.value := items[i]];
        var current := R.Fields(R.Get(additionalData, "loop"));
        if current.None? { return Some(R.LoopIsNoObject); }
        additionalData := additionalData["loop" := Obj(R.LoopStep(current.value, i, n))];
        r := RenderBlock(s.body);
        if r.Some? { return; }
      }
      additionalData := additionalData[s.value := R.Cleared(R.Get(additionalData, s.value))];
      var last := R.Fields(R.Get(additionalData, "loop"));
      if last.None? { return Some(R.LoopIsNoObject); }
      additionalData := additionalData["loop" := R.LoopEnd(last.value)];
      r := None;
    }
  }
}
