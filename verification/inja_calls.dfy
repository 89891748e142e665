// What a call stands for: which entry of the function table it takes.
module InjaCalls {
  import opened Wrappers
  import opened InjaSyntax
  import opened InjaExpression

  // The entry for this many arguments comes first; one for any number of them is for calls with arguments only, and only
  // if there is no entry of their own number.
  function Entry(cfg: Config, name: string, n: nat): Option<Operation> {
    if (name, n) in cfg.functions then Some(cfg.functions[(name, n)])
    else if n != 0 && (name, -1) in cfg.functions then Some(cfg.functions[(name, -1)])
    else None
  }

  // A name that is no constant and no operator, with arguments in parentheses, is a call of the function's operation on
  // them, or an error if the table has none.
  lemma CallExactly(cfg: Config, name: string, args: seq<Expr>, rest: seq<Token>, lit: seq<Token>)
    requires name !in {"", "true", "false", "null", "and", "or", "in", "not"} && (forall a <- args :: Printable(cfg, a)) && Stops(rest)
    ensures var r, entry := ParseExpr(cfg, [Token(Id, name), LP] + PrintArgs(args) + [RP] + rest, lit), Entry(cfg, name, |args|);
            if entry.None? || entry.value == NoOperation then r == Err(UnknownFunction)
            else r.Ok? && r.value.node == Some(Function(entry.value, name, args)) && r.value.rest == rest
  {
    hide Loop;
    var toks := [Token(Id, name), LP] + PrintArgs(args) + [RP] + rest;
    var open := [LP] + PrintArgs(args) + [RP] + rest;
    assert toks[1..] == open && toks[0] == Token(Id, name);
    var lit' := RunArgs(cfg, args, rest, lit, LP);
    var op := FindFunction(cfg, name, |args|);
    CallStep(cfg, name, args, toks, rest, lit, lit');
    LoopSteps(cfg, Here(toks, lit, Stacks([], [])));
    if !op.NoOperation? {
      var e := Function(op, name, args);
      LoneResult(e);
      EndOfExpression(cfg, e, rest, lit');
    }
  }

  lemma LoneResult(e: Expr)
    requires e.Function? && e.fname != ""
    ensures Onto(Stacks([], []), Pending(e, 0)) == Stacks([e], [])
  {
  }

  lemma LoopSteps(cfg: Config, st: LoopState)
    ensures Step(cfg, st).Next? ==> Loop(cfg, st) == Loop(cfg, Step(cfg, st).st)
    ensures Step(cfg, st).Fail? ==> Loop(cfg, st) == Err(Step(cfg, st).error)
  {
  }

  // The iteration that takes a call in.
  lemma CallStep(cfg: Config, name: string, args: seq<Expr>, toks: seq<Token>, rest: seq<Token>, lit: seq<Token>, lit': seq<Token>)
    requires name !in {"true", "false", "null", "and", "or", "in", "not"}
    requires toks == [Token(Id, name)] + ([LP] + PrintArgs(args) + [RP] + rest)
    requires ParseArgs(cfg, [LP] + PrintArgs(args) + [RP] + rest, lit) == Ok(Parsed(args, [RP] + rest, lit'))
    ensures var op := FindFunction(cfg, name, |args|);
            Step(cfg, Here(toks, lit, Stacks([], []))) ==
            if op.NoOperation? then Fail(UnknownFunction) else Next(Here(rest, lit', Stacks([Function(op, name, args)], [])))
  {
    hide Loop, ParseArgs, PrintArgs;
    assert toks[1..] == [LP] + PrintArgs(args) + [RP] + rest;
    assert [] + args == args && ([RP] + rest)[1..] == rest;
    var st := Here(toks, lit, Stacks([], []));
    assert Step(cfg, st) == StepCall(cfg, st, name, [], [], toks[1..]);
  }
}
