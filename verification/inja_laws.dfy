// What each operation of an expression does, operation by operation, on all stacks and for all operands.
module InjaLaws {
  import opened Wrappers
  import opened InjaSyntax
  import opened InjaEval
  import opened InjaNames

  // ---------------------------------------------------------------- truth

  // The values that count as false, type by type: a string never does.
  predicate Falsy(j: Json) {
    match j
    case Null => true
    case Bool(b) => b == false
    case Int(i) => i == 0
    case Float(r) => r == 0.0
    case Str(_) => false
    case Arr(items) => |items| == 0
    case Obj(fields) => |fields| == 0
  }

  lemma TruthIs(j: Json)
    ensures Truthy(j) <==> !Falsy(j)
  {
    if j.Obj? && j.fields != map[] {
      var k :| k in j.fields;
      assert j.fields.Keys != {};
    }
  }

  // ---------------------------------------------------------------- operands

  // An operand that must have a value: the value and the stacks without it, or the error.
  datatype Operand = Value(v: Json, s: Stacks) | Stop(error: EvalError)

  function LastName(names: seq<string>): EvalError {
    if names == [] then StackUnderflow else NotFound(names[|names| - 1])
  }

  function Needed(o: Outcome): Operand {
    match o
    case Throw(error) => Stop(error)
    case Done(t) =>
      if t.data == [] then Stop(TooFewArguments)
      else
        match t.data[|t.data| - 1]
        case Some(v) => Value(v, t.(data := t.data[..|t.data| - 1]))
        case None => Stop(LastName(t.missing))
  }

  // One argument popped strictly is a needed operand.
  lemma ArgumentIs(sc: Scope, args: seq<Expr>, k: nat, s: Stacks)
    requires k < |args|
    ensures GetArguments(sc, args, k, 1, true, s) ==
            match Needed(Visit(sc, args[k], s))
            case Stop(error) => PopThrow(error)
            case Value(v, t) => Popped([Some(v)], t)
  {
    hide Visit, Give;
    VisitIsGiven(sc, args[k], s);
    var o := Visit(sc, args[k], s);
    assert VisitRange(sc, args, k, 1, s) == if o.Throw? then o else VisitRange(sc, args, k + 1, 0, o.s);
  }

  // One argument popped as it is: a name that was not found is taken off too.
  lemma LenientArgumentIs(sc: Scope, args: seq<Expr>, k: nat, s: Stacks)
    requires k < |args|
    ensures GetArguments(sc, args, k, 1, false, s) ==
            match Visit(sc, args[k], s)
            case Throw(error) => PopThrow(error)
            case Done(t) =>
              if t.data == [] then PopThrow(TooFewArguments)
              else
                var top, below := t.data[|t.data| - 1], t.data[..|t.data| - 1];
                if top.Some? then Popped([top], Stacks(below, t.missing))
                else if t.missing == [] then PopThrow(StackUnderflow)
                else Popped([None], Stacks(below, t.missing[..|t.missing| - 1]))
  {
    hide Visit, Give;
    VisitIsGiven(sc, args[k], s);
    var o := Visit(sc, args[k], s);
    assert VisitRange(sc, args, k, 1, s) == if o.Throw? then o else VisitRange(sc, args, k + 1, 0, o.s);
  }

  // ---------------------------------------------------------------- the operations

  lemma LeafIs(sc: Scope, text: seq<Token>, name: string, s: Stacks)
    ensures Visit(sc, Literal(text), s) == Done(Stacks(s.data + [Some(sc.literal(text))], s.missing))
    ensures Visit(sc, Data(name), s) ==
            match sc.lookup(name)
            case Some(v) => Done(Stacks(s.data + [Some(v)], s.missing))
            case None => Done(Stacks(s.data + [None], s.missing + [name]))
  {
  }

  // `and` is false as soon as its first operand is, whatever the second one does, and otherwise the truth of the second;
  // `or` is true as soon as its first operand is, and otherwise the truth of the second.
  lemma ConnectiveIs(sc: Scope, op: Operation, name: string, a: Expr, b: Expr, s: Stacks)
    requires op == And || op == Or
    ensures Visit(sc, Function(op, name, [a, b]), s) ==
            match Needed(Visit(sc, a, s))
            case Stop(error) => Throw(error)
            case Value(v, t) =>
              if op == And && Falsy(v) then Done(Push(t, Bool(false)))
              else if op == Or && !Falsy(v) then Done(Push(t, Bool(true)))
              else
                match Needed(Visit(sc, b, t))
                case Stop(error) => Throw(error)
                case Value(w, u) => Done(Push(u, Bool(!Falsy(w))))
  {
    var args := [a, b];
    var decisive := op == Or;
    assert Visit(sc, Function(op, name, args), s) == VisitDecision(sc, args, decisive, s);
    hide Visit, GetArguments, Truthy, Falsy;
    ArgumentIs(sc, args, 0, s);
    var first := Needed(Visit(sc, a, s));
    if first.Value? {
      TruthIs(first.v);
      ArgumentIs(sc, args, 1, first.s);
      var second := Needed(Visit(sc, b, first.s));
      if second.Value? { TruthIs(second.v); }
    }
  }

  // `default(x, y)` is x, and y exactly if x was not found.
  lemma DefaultIs(sc: Scope, name: string, x: Expr, y: Expr, s: Stacks)
    ensures Visit(sc, Function(Default, name, [x, y]), s) ==
            match Visit(sc, x, s)
            case Throw(error) => Throw(error)
            case Done(t) =>
              if t.data == [] then Throw(TooFewArguments)
              else if t.data[|t.data| - 1].Some? then Done(t)
              else if t.missing == [] then Throw(StackUnderflow)
              else
                match Needed(Visit(sc, y, Stacks(t.data[..|t.data| - 1], t.missing[..|t.missing| - 1])))
                case Stop(error) => Throw(error)
                case Value(w, u) => Done(Push(u, w))
  {
    hide Visit, GetArguments, VisitDefault, Needed;
    var args := [x, y];
    DefaultVisited(sc, name, args, s);
    LenientArgumentIs(sc, args, 0, s);
    var o := Visit(sc, x, s);
    if o.Done? && o.s.data != [] {
      var t := o.s;
      var top, below := t.data[|t.data| - 1], t.data[..|t.data| - 1];
      assert below + [top] == t.data;
      DefaultGoesOn(sc, args, s);
      if top.None? && t.missing != [] { ArgumentIs(sc, args, 1, Stacks(below, t.missing[..|t.missing| - 1])); }
    } else {
      DefaultGoesOn(sc, args, s);
    }
  }

  lemma DefaultVisited(sc: Scope, name: string, args: seq<Expr>, s: Stacks)
    ensures Visit(sc, Function(Default, name, args), s) == VisitDefault(sc, args, s)
  {
  }

  lemma DefaultGoesOn(sc: Scope, args: seq<Expr>, s: Stacks)
    ensures VisitDefault(sc, args, s) ==
            match GetArguments(sc, args, 0, 1, false, s)
            case PopThrow(error) => Throw(error)
            case Popped(vs, t) =>
              if vs[0].Some? then Done(Push(t, vs[0].value))
              else
                match GetArguments(sc, args, 1, 1, true, t)
                case PopThrow(error) => Throw(error)
                case Popped(ws, u) => if ws[0].None? then Throw(NullContainer) else Done(Push(u, ws[0].value))
  {
    hide GetArguments;
  }

  // `l.r` is the element of l under the last name that was not found, r's own unless r resolved.
  lemma ElementIs(sc: Scope, name: string, l: Expr, r: Expr, s: Stacks)
    ensures Visit(sc, Function(AtId, name, [l, r]), s) ==
            match GetArguments(sc, [l, r], 0, 1, false, s)
            case PopThrow(error) => Throw(error)
            case Popped(c, t) =>
              match Visit(sc, r, t)
              case Throw(error) => Throw(error)
              case Done(u) =>
                if u.missing == [] then Throw(NoElement)
                else if u.data == [] then Throw(StackUnderflow)
                else if c == [None] then Throw(NullContainer)
                else
                  var rest := Stacks(u.data[..|u.data| - 1], u.missing[..|u.missing| - 1]);
                  match sc.primitive(AtId, name, [c[0].value, Str(u.missing[|u.missing| - 1])])
                  case None => Throw(Primitive(AtId))
                  case Some(v) => Done(Push(rest, v))
  {
    var args := [l, r];
    assert Visit(sc, Function(AtId, name, args), s) == VisitElement(sc, AtId, name, args, s);
    hide Visit, GetArguments;
    var c := GetArguments(sc, args, 0, 1, false, s);
    if c.Popped? {
      var u := Visit(sc, r, c.s);
      if u.Done? && u.s.missing != [] && c.args[0].Some? { UnwrapTwo(c.args[0].value, Str(u.s.missing[|u.s.missing| - 1])); }
    }
  }

  lemma UnwrapTwo(v: Json, w: Json)
    ensures Unwrap([Some(v), Some(w)]) == [v, w] && None !in [Some(v), Some(w)]
  {
    assert [Some(v), Some(w)][1..] == [Some(w)] && [Some(w)][1..] == [];
    assert Unwrap([Some(w)]) == [w];
  }

  predicate TakesTwo(op: Operation) {
    match op
    case In | EqualOp | NotEqualOp | Greater | GreaterEqualOp | Less | LessEqualOp => true
    case Add | Subtract | Multiplication | Division | PowerOp | Modulo => true
    case _ => false
  }

  // How many arguments an operation reads that is no `and`, `or`, `default`, dot or `super`.
  function Reads(op: Operation, args: seq<Expr>): nat {
    if TakesTwo(op) then 2 else if op == Not then 1 else |args|
  }

  // Every other operation reads its arguments in order, all of which must have values, and applies its primitive.
  lemma CallIs(sc: Scope, op: Operation, name: string, args: seq<Expr>, s: Stacks)
    requires op != And && op != Or && op != Default && op != AtId && op != Super
    ensures Visit(sc, Function(op, name, args), s) ==
            if |args| < Reads(op, args) then Throw(TooFewArguments)
            else
              match GiveRange(sc, args, 0, Reads(op, args), s.missing)
              case AllStop(error) => Throw(error)
              case AllGiven(vs, names) =>
                if None in vs then Throw(LastName(names))
                else
                  match sc.primitive(op, name, Unwrap(vs))
                  case None => Throw(Primitive(op))
                  case Some(v) => Done(Stacks(s.data + [Some(v)], names))
  {
    hide Visit, Give, GiveRange, TakeNames, GiveArguments, Made;
    CallGiven(sc, op, name, args, s);
    var n := Reads(op, args);
    if n <= |args| {
      ArgumentsTaken(sc, args, n, s.missing);
      var r := GiveRange(sc, args, 0, n, s.missing);
      if r.AllGiven? && None !in r.vs { MadeIs(sc, op, name, r); }
    }
  }

  lemma CallGiven(sc: Scope, op: Operation, name: string, args: seq<Expr>, s: Stacks)
    requires op != And && op != Or && op != Default && op != AtId && op != Super
    ensures Arity(op, args) == Reads(op, args)
    ensures Visit(sc, Function(op, name, args), s) == Stacked(GiveCall(sc, op, name, args, s.missing), s)
  {
    hide Visit;
    VisitIsGiven(sc, Function(op, name, args), s);
    hide GiveCall;
  }

  lemma ArgumentsTaken(sc: Scope, args: seq<Expr>, n: nat, names: seq<string>)
    requires n <= |args|
    ensures GiveArguments(sc, args, 0, n, true, names) ==
            match GiveRange(sc, args, 0, n, names)
            case AllStop(error) => AllStop(error)
            case AllGiven(vs, names') => if None in vs then AllStop(LastName(names')) else AllGiven(vs, names')
  {
    hide GiveRange, TakeNames, LastName;
    var r := GiveRange(sc, args, 0, n, names);
    if r.AllGiven? { StrictNames(r.vs, r.names); }
  }

  lemma MadeIs(sc: Scope, op: Operation, name: string, r: AllGiven)
    requires r.AllGiven? && None !in r.vs
    ensures Made(sc, op, name, r.vs, r.names) ==
            match sc.primitive(op, name, Unwrap(r.vs))
            case None => Stops(Primitive(op))
            case Some(v) => Given(Some(v), r.names)
  {
    hide Unwrap;
  }

  lemma {:induction false} StrictNames(vs: seq<Option<Json>>, names: seq<string>)
    ensures TakeNames(vs, names, true) == if None in vs then AllStop(LastName(names)) else AllGiven(vs, names)
    decreases |vs|
  {
    if vs != [] {
      StrictNames(vs[..|vs| - 1], names);
      assert vs == vs[..|vs| - 1] + [vs[|vs| - 1]];
    }
  }

  // ---------------------------------------------------------------- for example

  // `{{ true and false }}`.
  lemma TrueAndFalse(sc: Scope, yes: seq<Token>, no: seq<Token>)
    requires sc.literal(yes) == Bool(true) && sc.literal(no) == Bool(false)
    ensures EvalExpressionList(sc, Some(Function(And, "", [Literal(yes), Literal(no)])), Stacks([], [])).0 == Ok(Bool(false))
    ensures EvalExpressionList(sc, Some(Function(Or, "", [Literal(no), Literal(yes)])), Stacks([], [])).0 == Ok(Bool(true))
  {
    hide Visit;
    var s := Stacks([], []);
    LeafIs(sc, yes, "", s);
    LeafIs(sc, no, "", s);
    assert [Some(Bool(true))][..0] == [] && [Some(Bool(false))][..0] == [];
    ConnectiveIs(sc, And, "", Literal(yes), Literal(no), s);
    ConnectiveIs(sc, Or, "", Literal(no), Literal(yes), s);
  }
}
