// Expression evaluation in the renderer: visitors that push on `data_eval_stack` and `not_found_stack`,
// against a recursive meaning of expressions.
module InjaEval {
  import opened Wrappers
  import opened InjaSyntax

  datatype Json =
    | Null | Bool(b: bool) | Int(i: int) | Float(r: real) | Str(s: string)
    | Arr(items: seq<Json>) | Obj(fields: map<string, Json>)

  // empty(): true of null and of empty containers only; a string is never empty in this sense.
  predicate Empty(j: Json) {
    match j
    case Null => true
    case Arr(items) => items == []
    case Obj(fields) => fields == map[]
    case _ => false
  }

  predicate Truthy(j: Json) {
    match j
    case Bool(b) => b
    case Int(i) => i != 0
    case Float(r) => r != 0.0
    case Null => false
    case _ => !Empty(j)
  }

  datatype EvalError =
    | NotFound(name: string) | TooFewArguments | Primitive(op: Operation) | NoElement
    | EmptyExpression | MalformedExpression | NotModelled
    | NullContainer    // `at` is called through a null pointer
    | StackUnderflow   // top() of an empty stack

  // `lookup` resolves a name in the data, `primitive` is a function of evaluated arguments (None: it throws).
  datatype Scope = Scope(
    lookup: string -> Option<Json>, literal: seq<Token> -> Json, primitive: (Operation, string, seq<Json>) -> Option<Json>)

  // ---------------------------------------------------------------- the recursive meaning

  datatype Meaning = Val(v: Json) | Missing(name: string) | Fail(error: EvalError)

  // How many arguments an operation reads.
  function Arity(op: Operation, args: seq<Expr>): nat {
    if IsBinary(op) || op.Not? then NumberArgs(op) else |args|
  }

  // The operations that look at their arguments in a way of their own, and all others.
  datatype Form = Decision(decisive: bool) | DefaultForm | ElementForm | SuperForm | CallForm

  function FormOf(op: Operation): Form {
    match op
    case And => Decision(false)
    case Or => Decision(true)
    case Default => DefaultForm
    case AtId => ElementForm
    case Super => SuperForm
    case _ => CallForm
  }

  function MeaningOf(sc: Scope, e: Expr): Meaning
    decreases e, 1
  {
    match e
    case Literal(text) => Val(sc.literal(text))
    case Data(name) => if sc.lookup(name).Some? then Val(sc.lookup(name).value) else Missing(name)
    case Function(op, name, args) =>
      match FormOf(op)
      case Decision(decisive) => MeaningOfDecision(sc, args, decisive)
      case DefaultForm => MeaningOfDefault(sc, args)
      case ElementForm => MeaningOfElement(sc, op, name, args)
      case SuperForm => Fail(NotModelled)
      case CallForm => MeaningOfCall(sc, op, name, args)
  }

  // default(x, y): y counts only when x was not found.
  function MeaningOfDefault(sc: Scope, args: seq<Expr>): Meaning
    decreases args, 1
  {
    if |args| < 1 then Fail(TooFewArguments)
    else if MeaningOf(sc, args[0]).Missing? then Required(sc, args, 1)
    else MeaningOf(sc, args[0])
  }

  // container.name: the element of that name, the name itself having to be unresolved. NoElement and NullContainer
  // mark the two places where the code does not check what it reads.
  function MeaningOfElement(sc: Scope, op: Operation, name: string, args: seq<Expr>): Meaning
    decreases args, 1
  {
    if |args| < 2 then Fail(TooFewArguments)
    else
      var c := MeaningOf(sc, args[0]);
      var d := MeaningOf(sc, args[1]);
      if c.Fail? then c
      else if d.Fail? then d
      else if d.Val? then Fail(NoElement)
      else if c.Missing? then Fail(NullContainer)
      else Apply(sc, op, name, [c.v, Str(d.name)])
  }

  // Every other operation: all arguments are evaluated, and all of them must have values.
  function MeaningOfCall(sc: Scope, op: Operation, name: string, args: seq<Expr>): Meaning
    decreases args, 1
  {
    if |args| < Arity(op, args) then Fail(TooFewArguments)
    else
      var ms := Meanings(sc, args)[..Arity(op, args)];
      var failed := FirstFailure(ms);
      if failed.Some? then Fail(failed.value)
      else if LastMissing(ms).Some? then Fail(NotFound(LastMissing(ms).value))
      else Apply(sc, op, name, Values(ms))
  }

  function Apply(sc: Scope, op: Operation, name: string, vs: seq<Json>): Meaning {
    var r := sc.primitive(op, name, vs);
    if r.Some? then Val(r.value) else Fail(Primitive(op))
  }

  // Argument i, which must have a value.
  function Required(sc: Scope, args: seq<Expr>, i: nat): Meaning
    decreases args, 0
  {
    if |args| <= i then Fail(TooFewArguments)
    else
      var m := MeaningOf(sc, args[i]);
      if m.Missing? then Fail(NotFound(m.name)) else m
  }

  // `and` (decided by false) and `or` (decided by true): the second operand counts only when the first leaves it open.
  function MeaningOfDecision(sc: Scope, args: seq<Expr>, decisive: bool): Meaning
    decreases args, 1
  {
    var a := Required(sc, args, 0);
    if a.Fail? then a
    else if a.Val? && Truthy(a.v) == decisive then Val(Bool(decisive))
    else
      var b := Required(sc, args, 1);
      if b.Val? then Val(Bool(Truthy(b.v))) else b
  }

  function Meanings(sc: Scope, args: seq<Expr>): (ms: seq<Meaning>)
    ensures |ms| == |args|
    decreases args, 0
  {
    if args == [] then [] else [MeaningOf(sc, args[0])] + Meanings(sc, args[1..])
  }

  function FirstFailure(ms: seq<Meaning>): Option<EvalError> {
    if ms == [] then None else if ms[0].Fail? then Some(ms[0].error) else FirstFailure(ms[1..])
  }

  function LastMissing(ms: seq<Meaning>): Option<string> {
    if ms == [] then None
    else if ms[|ms| - 1].Missing? then Some(ms[|ms| - 1].name)
    else LastMissing(ms[..|ms| - 1])
  }

  function Values(ms: seq<Meaning>): (vs: seq<Json>)
    ensures |vs| == |ms|
  {
    if ms == [] then []
    else Values(ms[..|ms| - 1]) + [if ms[|ms| - 1].Val? then ms[|ms| - 1].v else Null]
  }

  // ---------------------------------------------------------------- the stack machine

  datatype Stacks = Stacks(data: seq<Option<Json>>, missing: seq<string>)

  datatype Outcome = Done(s: Stacks) | Throw(error: EvalError)

  function Push(s: Stacks, v: Json): Stacks {
    s.(data := s.data + [Some(v)])
  }

  function PushMissing(s: Stacks, name: string): Stacks {
    Stacks(s.data + [None], s.missing + [name])
  }

  // The arguments taken off the stack, or the error that popping them raised.
  datatype Popped = Popped(args: seq<Option<Json>>, s: Stacks) | PopThrow(error: EvalError)

  // Pops n entries, the last argument first; a null entry gives back its name, and is an error if `strict`.
  function Pop(s: Stacks, n: nat, strict: bool): (p: Popped)
    ensures p.Popped? ==> |p.args| == n
    decreases n
  {
    if n == 0 then Popped([], s)
    else if s.data == [] then PopThrow(TooFewArguments)
    else
      var top := s.data[|s.data| - 1];
      var below := s.(data := s.data[..|s.data| - 1]);
      if top.Some? then
        var p := Pop(below, n - 1, strict);
        if p.PopThrow? then p else Popped(p.args + [top], p.s)
      else if s.missing == [] then PopThrow(StackUnderflow)
      else
        var name := s.missing[|s.missing| - 1];
        if strict then PopThrow(NotFound(name))
        else
          var p := Pop(below.(missing := s.missing[..|s.missing| - 1]), n - 1, strict);
          if p.PopThrow? then p else Popped(p.args + [None], p.s)
  }

  // Visits arguments i to i+n-1 in order.
  function VisitRange(sc: Scope, args: seq<Expr>, i: nat, n: nat, s: Stacks): Outcome
    requires i + n <= |args|
    decreases args, 0, n
  {
    if n == 0 then Done(s)
    else
      var o := Visit(sc, args[i], s);
      if o.Throw? then o else VisitRange(sc, args, i + 1, n - 1, o.s)
  }

  // get_arguments<n, start>: visits n arguments and takes their values off the stack.
  function GetArguments(sc: Scope, args: seq<Expr>, start: nat, n: nat, strict: bool, s: Stacks): (p: Popped)
    ensures p.Popped? ==> |p.args| == n
    decreases args, 1
  {
    if |args| < start + n then PopThrow(TooFewArguments)
    else
      var o := VisitRange(sc, args, start, n, s);
      if o.Throw? then PopThrow(o.error)
      else if |o.s.data| < n then PopThrow(TooFewArguments)
      else Pop(o.s, n, strict)
  }

  function Visit(sc: Scope, e: Expr, s: Stacks): Outcome
    decreases e, 2
  {
    match e
    case Literal(text) => Done(Push(s, sc.literal(text)))
    case Data(name) =>
      if sc.lookup(name).Some? then Done(Push(s, sc.lookup(name).value)) else Done(PushMissing(s, name))
    case Function(op, name, args) =>
      match FormOf(op)
      case Decision(decisive) => VisitDecision(sc, args, decisive, s)
      case DefaultForm => VisitDefault(sc, args, s)
      case ElementForm => VisitElement(sc, op, name, args, s)
      case SuperForm => Throw(NotModelled)
      case CallForm => VisitCall(sc, op, name, args, s)
  }

  function VisitCall(sc: Scope, op: Operation, name: string, args: seq<Expr>, s: Stacks): Outcome
    decreases args, 2
  {
    if |args| < Arity(op, args) then Throw(TooFewArguments)
    else
      var p := GetArguments(sc, args, 0, Arity(op, args), true, s);
      if p.PopThrow? then Throw(p.error) else MakeResult(sc, op, name, p)
  }

  function VisitDefault(sc: Scope, args: seq<Expr>, s: Stacks): Outcome
    decreases args, 2
  {
    var test := GetArguments(sc, args, 0, 1, false, s);
    if test.PopThrow? then Throw(test.error)
    else if test.args[0].Some? then Done(Push(test.s, test.args[0].value))
    else
      var other := GetArguments(sc, args, 1, 1, true, test.s);
      if other.PopThrow? then Throw(other.error)
      else if other.args[0].None? then Throw(NullContainer)
      else Done(Push(other.s, other.args[0].value))
  }

  // Applies a primitive to arguments that all have values, and pushes its result.
  function MakeResult(sc: Scope, op: Operation, name: string, p: Popped): Outcome
    requires p.Popped?
  {
    if None in p.args then Throw(NullContainer)
    else
      var r := sc.primitive(op, name, Unwrap(p.args));
      if r.None? then Throw(Primitive(op)) else Done(Push(p.s, r.value))
  }

  function Unwrap(vs: seq<Option<Json>>): (r: seq<Json>)
    ensures |r| == |vs|
  {
    if vs == [] then [] else [if vs[0].Some? then vs[0].value else Null] + Unwrap(vs[1..])
  }

  function VisitDecision(sc: Scope, args: seq<Expr>, decisive: bool, s: Stacks): Outcome
    decreases args, 2
  {
    var a := GetArguments(sc, args, 0, 1, true, s);
    if a.PopThrow? then Throw(a.error)
    else if a.args[0].None? then Throw(NullContainer)
    else if Truthy(a.args[0].value) == decisive then Done(Push(a.s, Bool(decisive)))
    else
      var b := GetArguments(sc, args, 1, 1, true, a.s);
      if b.PopThrow? then Throw(b.error)
      else if b.args[0].None? then Throw(NullContainer)
      else Done(Push(b.s, Bool(Truthy(b.args[0].value))))
  }

  // container.name: the right operand is expected to be a name that was not found, and its entry is taken
  // off both stacks without looking at what was pushed.
  function VisitElement(sc: Scope, op: Operation, name: string, args: seq<Expr>, s: Stacks): Outcome
    decreases args, 2
  {
    if |args| < 2 then Throw(TooFewArguments)
    else
      var c := GetArguments(sc, args, 0, 1, false, s);
      if c.PopThrow? then Throw(c.error)
      else
        var o := Visit(sc, args[1], c.s);
        if o.Throw? then o else TakeElement(sc, op, name, c.args[0], o.s)
  }

  // What a dot does once both its operands have been visited.
  function TakeElement(sc: Scope, op: Operation, name: string, c: Option<Json>, s: Stacks): Outcome {
    if s.missing == [] then Throw(NoElement)
    else if s.data == [] then Throw(StackUnderflow)
    else
      var id := s.missing[|s.missing| - 1];
      MakeResult(sc, op, name, Popped([c, Some(Str(id))], Stacks(s.data[..|s.data| - 1], s.missing[..|s.missing| - 1])))
  }

  // ---------------------------------------------------------------- the machine computes the meaning

  // What a visit has to do to the stacks.
  function Yields(m: Meaning, s: Stacks): Outcome {
    match m
    case Val(v) => Done(Push(s, v))
    case Missing(name) => Done(PushMissing(s, name))
    case Fail(e) => Throw(e)
  }

  // The stacks after a visit that did not fail, and after several of them.
  function PushMeaning(s: Stacks, m: Meaning): Stacks {
    match m
    case Val(v) => Push(s, v)
    case Missing(name) => PushMissing(s, name)
    case Fail(_) => s
  }

  function PushAll(s: Stacks, ms: seq<Meaning>): Stacks {
    if ms == [] then s else PushMeaning(PushAll(s, ms[..|ms| - 1]), ms[|ms| - 1])
  }

  lemma {:induction false} PushAllFront(s: Stacks, ms: seq<Meaning>)
    requires ms != []
    ensures PushAll(s, ms) == PushAll(PushMeaning(s, ms[0]), ms[1..])
    decreases |ms|
  {
    if |ms| > 1 {
      var init := ms[..|ms| - 1];
      PushAllFront(s, init);
      assert ms[1..][..|ms| - 2] == init[1..];
    }
  }

  lemma {:induction false} PushAllLength(s: Stacks, ms: seq<Meaning>)
    requires FirstFailure(ms).None?
    ensures |PushAll(s, ms).data| == |s.data| + |ms|
    decreases |ms|
  {
    if ms != [] {
      NoFailure(ms);
      NoneFails(ms[..|ms| - 1]);
      PushAllLength(s, ms[..|ms| - 1]);
    }
  }

  lemma {:induction false} NoFailure(ms: seq<Meaning>)
    requires FirstFailure(ms).None?
    ensures forall m <- ms :: !m.Fail?
    decreases |ms|
  {
    if ms != [] { NoFailure(ms[1..]); }
  }

  lemma {:induction false} NoneFails(ms: seq<Meaning>)
    requires forall m <- ms :: !m.Fail?
    ensures FirstFailure(ms).None?
    decreases |ms|
  {
    if ms != [] { NoneFails(ms[1..]); }
  }

  function Somes(vs: seq<Json>): (r: seq<Option<Json>>)
    ensures |r| == |vs| && forall i :: 0 <= i < |vs| ==> r[i] == Some(vs[i])
  {
    seq(|vs|, i requires 0 <= i < |vs| => Some(vs[i]))
  }

  // Popping strictly what several visits pushed gives their values back, or reports the last missing name.
  lemma {:induction false} PopUndoesPush(s: Stacks, ms: seq<Meaning>)
    requires forall m <- ms :: !m.Fail?
    ensures Pop(PushAll(s, ms), |ms|, true) ==
            if LastMissing(ms).Some? then PopThrow(NotFound(LastMissing(ms).value)) else Popped(Somes(Values(ms)), s)
    decreases |ms|
  {
    if ms == [] {
      assert Somes(Values(ms)) == [];
    } else {
      var init, last := ms[..|ms| - 1], ms[|ms| - 1];
      assert last in ms;
      var t := PushAll(s, init);
      var full := PushMeaning(t, last);
      assert full.data[..|full.data| - 1] == t.data;
      PopUndoesPush(s, init);
      if last.Val? && LastMissing(init).None? {
        assert Somes(Values(ms)) == Somes(Values(init)) + [Some(last.v)];
      }
    }
  }

  lemma {:induction false} MeaningsAt(sc: Scope, args: seq<Expr>, i: nat)
    requires i < |args|
    ensures Meanings(sc, args)[i] == MeaningOf(sc, args[i])
    decreases |args|
  {
    if i > 0 { MeaningsAt(sc, args[1..], i - 1); }
  }

  lemma UnwrapSomes(vs: seq<Json>)
    ensures Unwrap(Somes(vs)) == vs && None !in Somes(vs)
  {
    if vs != [] {
      assert Somes(vs)[1..] == Somes(vs[1..]);
      UnwrapSomes(vs[1..]);
    }
  }

  // One argument taken through the stack.
  lemma OneArgument(sc: Scope, args: seq<Expr>, k: nat, strict: bool, s: Stacks)
    requires k < |args| && Visit(sc, args[k], s) == Yields(MeaningOf(sc, args[k]), s)
    ensures GetArguments(sc, args, k, 1, strict, s) ==
            match MeaningOf(sc, args[k])
            case Val(v) => Popped([Some(v)], s)
            case Missing(name) => if strict then PopThrow(NotFound(name)) else Popped([None], s)
            case Fail(e) => PopThrow(e)
  {
    var m := MeaningOf(sc, args[k]);
    var o := Visit(sc, args[k], s);
    assert VisitRange(sc, args, k, 1, s) == if o.Throw? then o else VisitRange(sc, args, k + 1, 0, o.s);
    if !m.Fail? {
      var t := PushMeaning(s, m);
      assert o == Done(t) && t.data[..|t.data| - 1] == s.data;
      if m.Missing? { assert t.missing[..|t.missing| - 1] == s.missing; }
    }
  }

  lemma {:induction false} RangeRefines(sc: Scope, args: seq<Expr>, i: nat, n: nat, s: Stacks)
    requires i + n <= |args|
    requires FirstFailure(Meanings(sc, args)[i..i + n]) != Some(NoElement)
    ensures var ms := Meanings(sc, args)[i..i + n];
            VisitRange(sc, args, i, n, s) ==
            if FirstFailure(ms).Some? then Throw(FirstFailure(ms).value) else Done(PushAll(s, ms))
    decreases args, 0, n
  {
    if n > 0 {
      var ms := Meanings(sc, args)[i..i + n];
      MeaningsAt(sc, args, i);
      assert ms[0] == MeaningOf(sc, args[i]);
      assert ms[1..] == Meanings(sc, args)[i + 1..i + 1 + (n - 1)];
      Refines(sc, args[i], s);
      if !ms[0].Fail? {
        RangeRefines(sc, args, i + 1, n - 1, PushMeaning(s, ms[0]));
        PushAllFront(s, ms);
      }
    }
  }

  lemma {:induction false} RequiredRefines(sc: Scope, args: seq<Expr>, k: nat, s: Stacks)
    requires Required(sc, args, k) != Fail(NoElement)
    ensures var p := GetArguments(sc, args, k, 1, true, s);
            match Required(sc, args, k)
            case Val(v) => p == Popped([Some(v)], s)
            case Missing(_) => false
            case Fail(e) => p == PopThrow(e)
    decreases args, 1
  {
    if k < |args| {
      Refines(sc, args[k], s);
      OneArgument(sc, args, k, true, s);
    }
  }

  lemma {:induction false} DecisionRefines(sc: Scope, args: seq<Expr>, decisive: bool, s: Stacks)
    requires MeaningOfDecision(sc, args, decisive) != Fail(NoElement)
    ensures VisitDecision(sc, args, decisive, s) == Yields(MeaningOfDecision(sc, args, decisive), s)
    decreases args, 2
  {
    RequiredRefines(sc, args, 0, s);
    var a := Required(sc, args, 0);
    if a.Val? && Truthy(a.v) != decisive { RequiredRefines(sc, args, 1, s); }
  }

  lemma {:induction false} DefaultRefines(sc: Scope, args: seq<Expr>, s: Stacks)
    requires MeaningOfDefault(sc, args) != Fail(NoElement)
    ensures VisitDefault(sc, args, s) == Yields(MeaningOfDefault(sc, args), s)
    decreases args, 2
  {
    if |args| >= 1 {
      Refines(sc, args[0], s);
      OneArgument(sc, args, 0, false, s);
      if MeaningOf(sc, args[0]).Missing? { RequiredRefines(sc, args, 1, s); }
    }
  }

  lemma ElementResult(sc: Scope, op: Operation, name: string, c: Meaning, id: string, s: Stacks)
    requires !c.Fail?
    ensures MakeResult(sc, op, name, Popped([if c.Val? then Some(c.v) else None, Some(Str(id))], s)) ==
            Yields(if c.Val? then Apply(sc, op, name, [c.v, Str(id)]) else Fail(NullContainer), s)
  {
    if c.Val? {
      assert [Some(c.v), Some(Str(id))] == Somes([c.v, Str(id)]);
      UnwrapSomes([c.v, Str(id)]);
    }
  }

  lemma {:induction false} ElementRefines(sc: Scope, op: Operation, name: string, args: seq<Expr>, s: Stacks)
    requires MeaningOfElement(sc, op, name, args) != Fail(NoElement)
    ensures VisitElement(sc, op, name, args, s) == Yields(MeaningOfElement(sc, op, name, args), s)
    decreases args, 2
  {
    hide Visit, MeaningOf, GetArguments, MakeResult, Apply;
    if |args| >= 2 {
      var c, d := MeaningOf(sc, args[0]), MeaningOf(sc, args[1]);
      if c != Fail(NoElement) {
        Refines(sc, args[0], s);
        OneArgument(sc, args, 0, false, s);
        if !c.Fail? {
          Refines(sc, args[1], s);
          if d.Missing? {
            var t := PushMissing(s, d.name);
            assert t.data[..|t.data| - 1] == s.data && t.missing[..|t.missing| - 1] == s.missing;
            ElementResult(sc, op, name, c, d.name, s);
          }
        }
      }
    }
  }

  lemma {:induction false} CallRefines(sc: Scope, op: Operation, name: string, args: seq<Expr>, s: Stacks)
    requires MeaningOfCall(sc, op, name, args) != Fail(NoElement)
    ensures VisitCall(sc, op, name, args, s) == Yields(MeaningOfCall(sc, op, name, args), s)
    decreases args, 2
  {
    hide Visit, MeaningOf, Meanings, VisitRange, Pop, PushAll, FirstFailure, LastMissing, Values;
    var n := Arity(op, args);
    if n <= |args| {
      var ms := Meanings(sc, args)[..n];
      assert Meanings(sc, args)[0..0 + n] == ms;
      RangeRefines(sc, args, 0, n, s);
      if FirstFailure(ms).None? {
        NoFailure(ms);
        PushAllLength(s, ms);
        PopUndoesPush(s, ms);
        if LastMissing(ms).None? { UnwrapSomes(Values(ms)); }
      }
    }
  }

  // Visiting an expression on any stacks pushes exactly its meaning and leaves the rest untouched, or fails
  // exactly as the meaning fails - unless the meaning stops at a `.` whose right-hand name resolved.
  lemma {:induction false} Refines(sc: Scope, e: Expr, s: Stacks)
    requires MeaningOf(sc, e) != Fail(NoElement)
    ensures Visit(sc, e, s) == Yields(MeaningOf(sc, e), s)
    decreases e, 1
  {
    hide VisitDecision, VisitDefault, VisitElement, VisitCall,
      MeaningOfDecision, MeaningOfDefault, MeaningOfElement, MeaningOfCall;
    if e.Function? {
      match FormOf(e.op)
      case Decision(decisive) => DecisionRefines(sc, e.args, decisive, s);
      case DefaultForm => DefaultRefines(sc, e.args, s);
      case ElementForm => ElementRefines(sc, e.op, e.fname, e.args, s);
      case SuperForm =>
      case CallForm => CallRefines(sc, e.op, e.fname, e.args, s);
    }
  }

  // ---------------------------------------------------------------- when the machine departs from the meaning

  // A bound on the pending not-found entries that visiting an expression can take from its surroundings.
  function Demand(e: Expr): nat
    decreases e, 1
  {
    if e.Function? then 1 + |e.args| + DemandOf(e.args, 0, |e.args|) else 0
  }

  function DemandOf(args: seq<Expr>, i: nat, n: nat): nat
    requires i + n <= |args|
    decreases args, 0, n
  {
    if n == 0 then 0 else Demand(args[i]) + DemandOf(args, i + 1, n - 1)
  }

  lemma {:induction false} DemandOfPart(args: seq<Expr>, i: nat, n: nat, m: nat)
    requires i + n <= m <= |args|
    ensures DemandOf(args, i, n) <= DemandOf(args, i, m - i)
    decreases n
  {
    if n > 0 { DemandOfPart(args, i + 1, n - 1, m); }
  }

  // Enough entries pending before, the machine never reports a missing element and leaves all but `cost` of them.
  ghost predicate Spends(o: Outcome, s: Stacks, cost: nat) {
    o != Throw(NoElement) && (o.Done? ==> |o.s.missing| + cost >= |s.missing|)
  }

  lemma {:induction false} PopSpends(s: Stacks, n: nat, strict: bool)
    ensures var p := Pop(s, n, strict);
            p != PopThrow(NoElement) && (p.Popped? ==> |p.s.missing| + n >= |s.missing|)
    decreases n
  {
    if n > 0 && s.data != [] {
      var below := s.(data := s.data[..|s.data| - 1]);
      PopSpends(below, n - 1, strict);
      if s.missing != [] { PopSpends(below.(missing := s.missing[..|s.missing| - 1]), n - 1, strict); }
    }
  }

  lemma {:induction false} RangeSpends(sc: Scope, args: seq<Expr>, i: nat, n: nat, s: Stacks)
    requires i + n <= |args| && |s.missing| >= DemandOf(args, i, n)
    ensures Spends(VisitRange(sc, args, i, n, s), s, DemandOf(args, i, n))
    decreases args, 0, n
  {
    if n > 0 {
      VisitSpends(sc, args[i], s);
      var o := Visit(sc, args[i], s);
      if o.Done? { RangeSpends(sc, args, i + 1, n - 1, o.s); }
    }
  }

  lemma {:induction false} ArgumentsSpend(sc: Scope, args: seq<Expr>, start: nat, n: nat, strict: bool, s: Stacks)
    requires start + n <= |args| ==> |s.missing| >= DemandOf(args, start, n)
    ensures var p := GetArguments(sc, args, start, n, strict, s);
            && p != PopThrow(NoElement)
            && (p.Popped? ==> start + n <= |args| && |p.s.missing| + DemandOf(args, start, n) + n >= |s.missing|)
    decreases args, 1
  {
    if start + n <= |args| {
      RangeSpends(sc, args, start, n, s);
      var o := VisitRange(sc, args, start, n, s);
      if o.Done? { PopSpends(o.s, n, strict); }
    }
  }

  // The first two arguments one after the other, as `and`, `or` and `default` read them.
  lemma {:induction false} TwoSpend(sc: Scope, args: seq<Expr>, strict: bool, s: Stacks)
    requires |s.missing| >= 1 + |args| + DemandOf(args, 0, |args|)
    ensures var a := GetArguments(sc, args, 0, 1, strict, s);
            && a != PopThrow(NoElement)
            && (a.Popped? ==>
                  && |a.s.missing| + 1 + |args| + DemandOf(args, 0, |args|) >= |s.missing|
                  && var b := GetArguments(sc, args, 1, 1, true, a.s);
                     b != PopThrow(NoElement) &&
                     (b.Popped? ==> |b.s.missing| + 1 + |args| + DemandOf(args, 0, |args|) >= |s.missing|))
    decreases args, 2
  {
    if |args| >= 1 { DemandOfPart(args, 0, 1, |args|); }
    if |args| >= 2 {
      assert DemandOf(args, 0, |args|) == Demand(args[0]) + DemandOf(args, 1, |args| - 1);
      assert DemandOf(args, 0, 1) == Demand(args[0]) + DemandOf(args, 1, 0);
      DemandOfPart(args, 1, 1, |args|);
    }
    ArgumentsSpend(sc, args, 0, 1, strict, s);
    var a := GetArguments(sc, args, 0, 1, strict, s);
    if a.Popped? { ArgumentsSpend(sc, args, 1, 1, true, a.s); }
  }

  lemma {:induction false} ElementSpends(sc: Scope, op: Operation, name: string, args: seq<Expr>, s: Stacks)
    requires |s.missing| >= 1 + |args| + DemandOf(args, 0, |args|)
    ensures Spends(VisitElement(sc, op, name, args, s), s, 1 + |args| + DemandOf(args, 0, |args|))
    decreases args, 2
  {
    hide GetArguments, Visit, Unwrap;
    if |args| >= 2 {
      assert DemandOf(args, 0, |args|) == Demand(args[0]) + DemandOf(args, 1, |args| - 1);
      assert DemandOf(args, 0, 1) == Demand(args[0]) + DemandOf(args, 1, 0);
      assert DemandOf(args, 1, |args| - 1) == Demand(args[1]) + DemandOf(args, 2, |args| - 2);
      ArgumentsSpend(sc, args, 0, 1, false, s);
      var c := GetArguments(sc, args, 0, 1, false, s);
      if c.Popped? { VisitSpends(sc, args[1], c.s); }
    }
  }

  lemma {:induction false} DecisionSpends(sc: Scope, args: seq<Expr>, decisive: bool, s: Stacks)
    requires |s.missing| >= 1 + |args| + DemandOf(args, 0, |args|)
    ensures Spends(VisitDecision(sc, args, decisive, s), s, 1 + |args| + DemandOf(args, 0, |args|))
    ensures Spends(VisitDefault(sc, args, s), s, 1 + |args| + DemandOf(args, 0, |args|))
    decreases args, 3
  {
    hide GetArguments;
    TwoSpend(sc, args, true, s);
    TwoSpend(sc, args, false, s);
  }

  lemma {:induction false} CallSpends(sc: Scope, op: Operation, name: string, args: seq<Expr>, s: Stacks)
    requires |s.missing| >= 1 + |args| + DemandOf(args, 0, |args|)
    ensures Spends(VisitCall(sc, op, name, args, s), s, 1 + |args| + DemandOf(args, 0, |args|))
    decreases args, 3
  {
    hide GetArguments;
    var n := Arity(op, args);
    if n <= |args| {
      DemandOfPart(args, 0, n, |args|);
      ArgumentsSpend(sc, args, 0, n, true, s);
    }
  }

  lemma {:induction false} VisitSpends(sc: Scope, e: Expr, s: Stacks)
    requires |s.missing| >= Demand(e)
    ensures Spends(Visit(sc, e, s), s, Demand(e))
    decreases e, 1
  {
    hide VisitDecision, VisitDefault, VisitElement, VisitCall;
    if e.Function? {
      match FormOf(e.op)
      case Decision(decisive) => DecisionSpends(sc, e.args, decisive, s);
      case DefaultForm => DecisionSpends(sc, e.args, true, s);
      case ElementForm => ElementSpends(sc, e.op, e.fname, e.args, s);
      case SuperForm =>
      case CallForm => CallSpends(sc, e.op, e.fname, e.args, s);
    }
  }

  function Nulls(data: seq<Option<Json>>): nat {
    if data == [] then 0 else Nulls(data[..|data| - 1]) + if data[|data| - 1].None? then 1 else 0
  }

  // Every null entry has its name, as in the states of a run.
  ghost predicate InStep(s: Stacks) { Nulls(s.data) == |s.missing| }

  // Stacks on which n names are pending.
  function Unfound(n: nat): Stacks {
    Stacks(seq(n, _ => None), seq(n, _ => ""))
  }

  lemma {:induction false} UnfoundIsInStep(n: nat)
    ensures InStep(Unfound(n)) && |Unfound(n).missing| == n
  {
    if n > 0 {
      UnfoundIsInStep(n - 1);
      assert Unfound(n).data[..n - 1] == Unfound(n - 1).data;
    }
  }

  // The machine agrees with the meaning on all stacks that are in step exactly when the meaning does not stop at a
  // `.` whose right-hand name resolved: otherwise, with names pending, it takes somebody else's entry and goes on.
  lemma RefinesExactly(sc: Scope, e: Expr)
    ensures (forall s | InStep(s) :: Visit(sc, e, s) == Yields(MeaningOf(sc, e), s)) <==> MeaningOf(sc, e) != Fail(NoElement)
  {
    if MeaningOf(sc, e) != Fail(NoElement) {
      forall s | InStep(s) ensures Visit(sc, e, s) == Yields(MeaningOf(sc, e), s) { Refines(sc, e, s); }
    } else {
      var s := Unfound(Demand(e));
      UnfoundIsInStep(Demand(e));
      VisitSpends(sc, e, s);
      assert Visit(sc, e, s) != Yields(MeaningOf(sc, e), s);
    }
  }

  // ---------------------------------------------------------------- the dots a meaning can stop at

  // A dot whose right operand resolves, or (`resolved` false) neither operand of which does.
  ghost predicate IsDot(sc: Scope, e: Expr, resolved: bool) {
    e.Function? && FormOf(e.op).ElementForm? && |e.args| >= 2 &&
    if resolved then MeaningOf(sc, e.args[1]).Val? else MeaningOf(sc, e.args[0]).Missing? && MeaningOf(sc, e.args[1]).Missing?
  }

  ghost predicate HasDot(sc: Scope, e: Expr, resolved: bool)
    decreases e
  {
    IsDot(sc, e, resolved) || (e.Function? && exists i :: 0 <= i < |e.args| && HasDot(sc, e.args[i], resolved))
  }

  function DotError(resolved: bool): EvalError { if resolved then NoElement else NullContainer }

  // Conditions to look for before evaluating: only a dot whose right operand resolves makes the meaning stop for
  // want of an element, and only one whose operands are both not found reaches through a null pointer.
  lemma {:induction false} OnlyDotsStop(sc: Scope, e: Expr, resolved: bool)
    requires MeaningOf(sc, e) == Fail(DotError(resolved))
    ensures HasDot(sc, e, resolved)
    decreases e
  {
    hide MeaningOf, IsDot;
    if !IsDot(sc, e, resolved) {
      var i := StoppingArgument(sc, e, resolved);
      OnlyDotsStop(sc, e.args[i], resolved);
    }
  }

  // An expression that stops so without being such a dot itself has an argument that does.
  lemma StoppingArgument(sc: Scope, e: Expr, resolved: bool) returns (i: nat)
    requires MeaningOf(sc, e) == Fail(DotError(resolved)) && !IsDot(sc, e, resolved)
    ensures e.Function? && i < |e.args| && MeaningOf(sc, e.args[i]) == Fail(DotError(resolved))
  {
    hide MeaningOfCall, MeaningOfDecision, MeaningOfDefault, MeaningOfElement;
    var args := e.args;
    match FormOf(e.op)
    case Decision(decisive) => i := StoppingOperand(sc, args, decisive, resolved);
    case DefaultForm => i := StoppingDefault(sc, args, resolved);
    case ElementForm => i := StoppingElement(sc, e.op, e.fname, args, resolved);
    case CallForm => i := StoppingCallArgument(sc, e.op, e.fname, args, DotError(resolved));
  }

  lemma StoppingRequired(sc: Scope, args: seq<Expr>, k: nat, resolved: bool)
    requires Required(sc, args, k) == Fail(DotError(resolved))
    ensures k < |args| && MeaningOf(sc, args[k]) == Fail(DotError(resolved))
  {
    hide MeaningOf;
  }

  lemma StoppingOperand(sc: Scope, args: seq<Expr>, decisive: bool, resolved: bool) returns (i: nat)
    requires MeaningOfDecision(sc, args, decisive) == Fail(DotError(resolved))
    ensures i < |args| && MeaningOf(sc, args[i]) == Fail(DotError(resolved))
  {
    hide Required, MeaningOf;
    i := if Required(sc, args, 0).Fail? then 0 else 1;
    StoppingRequired(sc, args, i, resolved);
  }

  lemma StoppingDefault(sc: Scope, args: seq<Expr>, resolved: bool) returns (i: nat)
    requires MeaningOfDefault(sc, args) == Fail(DotError(resolved))
    ensures i < |args| && MeaningOf(sc, args[i]) == Fail(DotError(resolved))
  {
    hide Required, MeaningOf;
    i := 0;
    if MeaningOf(sc, args[0]).Missing? {
      i := 1;
      StoppingRequired(sc, args, 1, resolved);
    }
  }

  lemma StoppingElement(sc: Scope, op: Operation, name: string, args: seq<Expr>, resolved: bool) returns (i: nat)
    requires MeaningOfElement(sc, op, name, args) == Fail(DotError(resolved))
    requires |args| >= 2 ==>
               !(if resolved then MeaningOf(sc, args[1]).Val? else MeaningOf(sc, args[0]).Missing? && MeaningOf(sc, args[1]).Missing?)
    ensures i < |args| && MeaningOf(sc, args[i]) == Fail(DotError(resolved))
  {
    hide MeaningOf;
    i := if MeaningOf(sc, args[0]).Fail? then 0 else 1;
  }

  lemma StoppingCallArgument(sc: Scope, op: Operation, name: string, args: seq<Expr>, error: EvalError) returns (i: nat)
    requires MeaningOfCall(sc, op, name, args) == Fail(error) && (error == NoElement || error == NullContainer)
    ensures i < |args| && MeaningOf(sc, args[i]) == Fail(error)
  {
    hide MeaningOf;
    var ms := Meanings(sc, args)[..Arity(op, args)];
    FirstFailureIsOne(ms);
    i :| 0 <= i < |ms| && ms[i] == Fail(error);
    MeaningsAt(sc, args, i);
  }

  // A template without dots over resolved names evaluates as it should on any stacks.
  lemma RefinesWithoutDots(sc: Scope, e: Expr, s: Stacks)
    requires !HasDot(sc, e, true)
    ensures Visit(sc, e, s) == Yields(MeaningOf(sc, e), s)
  {
    hide MeaningOf, Visit, HasDot;
    if MeaningOf(sc, e) == Fail(NoElement) { OnlyDotsStop(sc, e, true); }
    Refines(sc, e, s);
  }

  // ---------------------------------------------------------------- stopping at a dot after all

  // Where e stops, no name that was not found is waiting on the stack: before the argument that stops, every argument
  // of the same call has a value.
  ghost predicate NothingPending(sc: Scope, e: Expr)
    decreases e, 1
  {
    e.Function? ==>
      match FormOf(e.op)
      case CallForm => NothingPendingIn(sc, e.args, 0)
      case _ => NothingPendingOf(sc, e.args)
  }

  // The operations that take their operands one by one leave nothing on the stack in between.
  ghost predicate NothingPendingOf(sc: Scope, args: seq<Expr>)
    decreases args, 0
  {
    |args| >= 1 ==>
      if MeaningOf(sc, args[0]).Fail? then NothingPending(sc, args[0])
      else |args| >= 2 && MeaningOf(sc, args[1]).Fail? ==> NothingPending(sc, args[1])
  }

  ghost predicate NothingPendingIn(sc: Scope, args: seq<Expr>, i: nat)
    decreases args, 0, |args| - i
  {
    i < |args| ==>
      match MeaningOf(sc, args[i])
      case Fail(_) => NothingPending(sc, args[i])
      case Missing(_) => false
      case Val(_) => NothingPendingIn(sc, args, i + 1)
  }

  lemma OneThrows(sc: Scope, args: seq<Expr>, k: nat, strict: bool, s: Stacks)
    requires k < |args| && Visit(sc, args[k], s) == Throw(NoElement)
    ensures GetArguments(sc, args, k, 1, strict, s) == PopThrow(NoElement)
  {
    hide Visit;
    assert VisitRange(sc, args, k, 1, s) == Throw(NoElement);
  }

  lemma {:induction false} RangeStops(sc: Scope, args: seq<Expr>, i: nat, n: nat, s: Stacks)
    requires i + n <= |args| && FirstFailure(Meanings(sc, args)[i..i + n]) == Some(NoElement)
    requires NothingPendingIn(sc, args, i) && s.missing == []
    ensures VisitRange(sc, args, i, n, s) == Throw(NoElement)
    decreases args, 0, n
  {
    var ms := Meanings(sc, args)[i..i + n];
    MeaningsAt(sc, args, i);
    assert ms[0] == MeaningOf(sc, args[i]);
    assert ms[1..] == Meanings(sc, args)[i + 1..i + 1 + (n - 1)];
    if ms[0].Fail? {
      StopsThere(sc, args[i], s);
    } else {
      Refines(sc, args[i], s);
      RangeStops(sc, args, i + 1, n - 1, Push(s, ms[0].v));
    }
  }

  lemma {:induction false} CallStops(sc: Scope, op: Operation, name: string, args: seq<Expr>, s: Stacks)
    requires MeaningOfCall(sc, op, name, args) == Fail(NoElement) && NothingPendingIn(sc, args, 0) && s.missing == []
    ensures VisitCall(sc, op, name, args, s) == Throw(NoElement)
    decreases args, 2
  {
    hide Visit, MeaningOf, Meanings, VisitRange, FirstFailure, LastMissing, Values, NothingPendingIn;
    var n := Arity(op, args);
    assert Meanings(sc, args)[0..0 + n] == Meanings(sc, args)[..n];
    RangeStops(sc, args, 0, n, s);
    assert GetArguments(sc, args, 0, n, true, s) == PopThrow(NoElement);
  }

  lemma {:induction false} DecisionStops(sc: Scope, args: seq<Expr>, decisive: bool, s: Stacks)
    requires MeaningOfDecision(sc, args, decisive) == Fail(NoElement) && s.missing == []
    requires NothingPendingOf(sc, args)
    ensures VisitDecision(sc, args, decisive, s) == Throw(NoElement)
    decreases args, 2
  {
    hide GetArguments, NothingPending, MeaningOf;
    var k := StoppingOperand(sc, args, decisive, true);
    var a := Required(sc, args, 0);
    if a.Fail? {
      StoppingRequired(sc, args, 0, true);
      StopsThere(sc, args[0], s);
      OneThrows(sc, args, 0, true, s);
    } else {
      RequiredRefines(sc, args, 0, s);
      StoppingRequired(sc, args, 1, true);
      StopsThere(sc, args[1], s);
      OneThrows(sc, args, 1, true, s);
    }
  }

  lemma {:induction false} DefaultStops(sc: Scope, args: seq<Expr>, s: Stacks)
    requires MeaningOfDefault(sc, args) == Fail(NoElement) && s.missing == []
    requires NothingPendingOf(sc, args)
    ensures VisitDefault(sc, args, s) == Throw(NoElement)
    decreases args, 2
  {
    hide GetArguments, NothingPending, MeaningOf, Visit;
    if MeaningOf(sc, args[0]).Fail? {
      StopsThere(sc, args[0], s);
      OneThrows(sc, args, 0, false, s);
    } else {
      Refines(sc, args[0], s);
      OneArgument(sc, args, 0, false, s);
      StoppingRequired(sc, args, 1, true);
      StopsThere(sc, args[1], s);
      OneThrows(sc, args, 1, true, s);
    }
  }

  lemma {:induction false} ElementStops(sc: Scope, op: Operation, name: string, args: seq<Expr>, s: Stacks)
    requires MeaningOfElement(sc, op, name, args) == Fail(NoElement) && s.missing == []
    requires NothingPendingOf(sc, args)
    ensures VisitElement(sc, op, name, args, s) == Throw(NoElement)
    decreases args, 2
  {
    hide NothingPending, MeaningOf, Visit, MakeResult, GetArguments;
    if MeaningOf(sc, args[0]).Fail? {
      StopsThere(sc, args[0], s);
      OneThrows(sc, args, 0, false, s);
    } else {
      Refines(sc, args[0], s);
      OneArgument(sc, args, 0, false, s);
      hide NothingPendingOf;
      assert GetArguments(sc, args, 0, 1, false, s).Popped? && GetArguments(sc, args, 0, 1, false, s).s == s;
      RightOperandStops(sc, args, s);
    }
  }

  lemma {:induction false} RightOperandStops(sc: Scope, args: seq<Expr>, s: Stacks)
    requires |args| >= 2 && !MeaningOf(sc, args[0]).Fail? && NothingPendingOf(sc, args) && s.missing == []
    requires MeaningOf(sc, args[1]) == Fail(NoElement) || MeaningOf(sc, args[1]).Val?
    ensures var o := Visit(sc, args[1], s); o == Throw(NoElement) || (o.Done? && o.s.missing == [])
    decreases args, 1
  {
    hide MeaningOf, Visit;
    if MeaningOf(sc, args[1]).Fail? { StopsThere(sc, args[1], s); } else { Refines(sc, args[1], s); }
  }

  // With nothing pending, before or inside, the machine does stop at the dot, as the meaning does.
  lemma {:induction false} StopsThere(sc: Scope, e: Expr, s: Stacks)
    requires MeaningOf(sc, e) == Fail(NoElement) && NothingPending(sc, e) && s.missing == []
    ensures Visit(sc, e, s) == Throw(NoElement)
    decreases e, 1
  {
    hide VisitDecision, VisitDefault, VisitElement, VisitCall,
      MeaningOfDecision, MeaningOfDefault, MeaningOfElement, MeaningOfCall;
    match FormOf(e.op)
    case Decision(decisive) => DecisionStops(sc, e.args, decisive, s);
    case DefaultForm => DefaultStops(sc, e.args, s);
    case ElementForm => ElementStops(sc, e.op, e.fname, e.args, s);
    case CallForm => CallStops(sc, e.op, e.fname, e.args, s);
  }

  // ---------------------------------------------------------------- the null pointer

  // A dot, neither operand of which fails and whose right operand is a name as it should be, reaches through a null
  // pointer exactly when its left operand is not found - on any stacks.
  lemma NullContainerExactly(sc: Scope, name: string, l: Expr, r: Expr, s: Stacks)
    requires !MeaningOf(sc, l).Fail? && MeaningOf(sc, r).Missing?
    ensures Visit(sc, Function(AtId, name, [l, r]), s) == Throw(NullContainer) <==> MeaningOf(sc, l).Missing?
  {
    hide MeaningOf, Visit;
    var e := Function(AtId, name, [l, r]);
    DotMeaning(sc, name, l, r);
    Refines(sc, e, s);
  }

  lemma DotMeaning(sc: Scope, name: string, l: Expr, r: Expr)
    requires !MeaningOf(sc, l).Fail? && MeaningOf(sc, r).Missing?
    ensures MeaningOf(sc, Function(AtId, name, [l, r])) ==
            match MeaningOf(sc, l)
            case Val(v) => Apply(sc, AtId, name, [v, Str(MeaningOf(sc, r).name)])
            case _ => Fail(NullContainer)
  {
    hide Apply;
    var args := [l, r];
    assert MeaningOf(sc, Function(AtId, name, args)) == MeaningOfElement(sc, AtId, name, args);
  }

  // `(x).y` with neither name found.
  lemma NullContainerReached(sc: Scope, x: string, y: string)
    requires sc.lookup(x).None? && sc.lookup(y).None?
    ensures Visit(sc, Function(AtId, "", [Data(x), Data(y)]), Stacks([], [])) == Throw(NullContainer)
  {
    NullContainerExactly(sc, "", Data(x), Data(y), Stacks([], []));
  }

  // ---------------------------------------------------------------- the two stacks stay in step

  lemma {:induction false} MeaningNeverUnderflows(sc: Scope, e: Expr)
    ensures MeaningOf(sc, e) != Fail(StackUnderflow)
    decreases e, 1
  {
    if e.Function? {
      forall i | 0 <= i < |e.args| ensures MeaningOf(sc, e.args[i]) != Fail(StackUnderflow) { MeaningNeverUnderflows(sc, e.args[i]); }
      FormsNeverUnderflow(sc, e.args);
      CallNeverUnderflows(sc, e.op, e.fname, e.args);
    }
  }

  lemma FormsNeverUnderflow(sc: Scope, args: seq<Expr>)
    requires forall i | 0 <= i < |args| :: MeaningOf(sc, args[i]) != Fail(StackUnderflow)
    ensures forall d :: MeaningOfDecision(sc, args, d) != Fail(StackUnderflow)
    ensures MeaningOfDefault(sc, args) != Fail(StackUnderflow)
    ensures forall op, name :: MeaningOfElement(sc, op, name, args) != Fail(StackUnderflow)
  {
    hide MeaningOf;
  }

  lemma {:induction false} CallNeverUnderflows(sc: Scope, op: Operation, name: string, args: seq<Expr>)
    requires forall i | 0 <= i < |args| :: MeaningOf(sc, args[i]) != Fail(StackUnderflow)
    ensures MeaningOfCall(sc, op, name, args) != Fail(StackUnderflow)
  {
    hide MeaningOf;
    var ms := Meanings(sc, args);
    forall i | 0 <= i < |ms| ensures ms[i] != Fail(StackUnderflow) { MeaningsAt(sc, args, i); }
    if Arity(op, args) <= |args| { FirstFailureIsOne(ms[..Arity(op, args)]); }
  }

  lemma {:induction false} FirstFailureIsOne(ms: seq<Meaning>)
    ensures FirstFailure(ms).Some? ==> Fail(FirstFailure(ms).value) in ms
    decreases |ms|
  {
    if ms != [] { FirstFailureIsOne(ms[1..]); }
  }

  // However an expression is nested: its visit keeps the number of null entries equal to the number of names
  // not found, and never takes the top of an empty stack.
  lemma VisitKeepsStacksInStep(sc: Scope, e: Expr, s: Stacks)
    requires InStep(s) && MeaningOf(sc, e) != Fail(NoElement)
    ensures match Visit(sc, e, s)
            case Done(t) => InStep(t) && |t.data| == |s.data| + 1
            case Throw(error) => error != StackUnderflow
  {
    Refines(sc, e, s);
    MeaningNeverUnderflows(sc, e);
    var m := MeaningOf(sc, e);
    if m.Val? { assert Push(s, m.v).data[..|s.data|] == s.data; }
    if m.Missing? { assert PushMissing(s, m.name).data[..|s.data|] == s.data; }
  }

  // How many null entries have lost their name: none if the stacks are in step.
  function Excess(s: Stacks): int { Nulls(s.data) - |s.missing| }

  lemma {:induction false} PopKeepsExcess(s: Stacks, n: nat, strict: bool)
    ensures var p := Pop(s, n, strict); p.Popped? ==> Excess(p.s) == Excess(s)
    decreases n
  {
    if n > 0 && s.data != [] {
      var below := s.(data := s.data[..|s.data| - 1]);
      if s.data[|s.data| - 1].Some? {
        PopKeepsExcess(below, n - 1, strict);
      } else if s.missing != [] {
        PopKeepsExcess(below.(missing := s.missing[..|s.missing| - 1]), n - 1, strict);
      }
    }
  }

  // No visit gives a name back that was lost.
  ghost predicate Loses(o: Outcome, s: Stacks) {
    o.Done? ==> Excess(o.s) >= Excess(s)
  }

  lemma {:induction false} RangeLoses(sc: Scope, args: seq<Expr>, i: nat, n: nat, s: Stacks)
    requires i + n <= |args|
    ensures Loses(VisitRange(sc, args, i, n, s), s)
    decreases args, 0, n
  {
    hide Excess;
    if n > 0 {
      VisitLoses(sc, args[i], s);
      var o := Visit(sc, args[i], s);
      if o.Done? { RangeLoses(sc, args, i + 1, n - 1, o.s); }
    }
  }

  lemma {:induction false} ArgumentsLose(sc: Scope, args: seq<Expr>, start: nat, n: nat, strict: bool, s: Stacks)
    ensures var p := GetArguments(sc, args, start, n, strict, s); p.Popped? ==> Excess(p.s) >= Excess(s)
    decreases args, 1
  {
    hide Excess;
    if start + n <= |args| {
      RangeLoses(sc, args, start, n, s);
      var o := VisitRange(sc, args, start, n, s);
      if o.Done? { PopKeepsExcess(o.s, n, strict); }
    }
  }

  lemma PushKeepsExcess(s: Stacks, m: Meaning)
    ensures Excess(PushMeaning(s, m)) == Excess(s)
  {
    assert PushMeaning(s, m).data[..|s.data|] == s.data;
  }

  lemma MakeResultKeepsExcess(sc: Scope, op: Operation, name: string, p: Popped)
    requires p.Popped?
    ensures var o := MakeResult(sc, op, name, p); o.Done? ==> Excess(o.s) == Excess(p.s)
  {
    var r := sc.primitive(op, name, Unwrap(p.args));
    if r.Some? { PushKeepsExcess(p.s, Val(r.value)); }
  }

  // It takes a name, and the null entry that goes with it only if that is on top.
  lemma TakeLoses(sc: Scope, op: Operation, name: string, c: Option<Json>, s: Stacks)
    ensures var o := TakeElement(sc, op, name, c, s);
            o.Done? ==> s.data != [] && Excess(o.s) == Excess(s) + if s.data[|s.data| - 1].Some? then 1 else 0
  {
    hide MakeResult;
    if s.missing != [] && s.data != [] {
      MakeResultKeepsExcess(sc, op, name, Popped([c, Some(Str(s.missing[|s.missing| - 1]))],
                                                 Stacks(s.data[..|s.data| - 1], s.missing[..|s.missing| - 1])));
    }
  }

  lemma {:induction false} DecisionLoses(sc: Scope, args: seq<Expr>, decisive: bool, s: Stacks)
    ensures Loses(VisitDecision(sc, args, decisive, s), s)
    decreases args, 3
  {
    hide GetArguments, Excess;
    ArgumentsLose(sc, args, 0, 1, true, s);
    var a := GetArguments(sc, args, 0, 1, true, s);
    if a.Popped? {
      PushKeepsExcess(a.s, Val(Bool(decisive)));
      ArgumentsLose(sc, args, 1, 1, true, a.s);
      var b := GetArguments(sc, args, 1, 1, true, a.s);
      if b.Popped? && b.args[0].Some? { PushKeepsExcess(b.s, Val(Bool(Truthy(b.args[0].value)))); }
    }
  }

  lemma {:induction false} DefaultLoses(sc: Scope, args: seq<Expr>, s: Stacks)
    ensures Loses(VisitDefault(sc, args, s), s)
    decreases args, 3
  {
    hide GetArguments, Excess;
    ArgumentsLose(sc, args, 0, 1, false, s);
    var a := GetArguments(sc, args, 0, 1, false, s);
    if a.Popped? {
      if a.args[0].Some? { PushKeepsExcess(a.s, Val(a.args[0].value)); }
      ArgumentsLose(sc, args, 1, 1, true, a.s);
      var b := GetArguments(sc, args, 1, 1, true, a.s);
      if b.Popped? && b.args[0].Some? { PushKeepsExcess(b.s, Val(b.args[0].value)); }
    }
  }

  lemma {:induction false} ElementLoses(sc: Scope, op: Operation, name: string, args: seq<Expr>, s: Stacks)
    ensures Loses(VisitElement(sc, op, name, args, s), s)
    decreases args, 2
  {
    hide GetArguments, MakeResult, Excess, Visit;
    if |args| >= 2 {
      ArgumentsLose(sc, args, 0, 1, false, s);
      var c := GetArguments(sc, args, 0, 1, false, s);
      if c.Popped? {
        VisitLoses(sc, args[1], c.s);
        var o := Visit(sc, args[1], c.s);
        if o.Done? { TakeLoses(sc, op, name, c.args[0], o.s); }
      }
    }
  }

  lemma {:induction false} CallLoses(sc: Scope, op: Operation, name: string, args: seq<Expr>, s: Stacks)
    ensures Loses(VisitCall(sc, op, name, args, s), s)
    decreases args, 2
  {
    hide GetArguments, MakeResult, Excess;
    var n := Arity(op, args);
    ArgumentsLose(sc, args, 0, n, true, s);
    var p := GetArguments(sc, args, 0, n, true, s);
    if p.Popped? { MakeResultKeepsExcess(sc, op, name, p); }
  }

  lemma {:induction false} VisitLoses(sc: Scope, e: Expr, s: Stacks)
    ensures Loses(Visit(sc, e, s), s)
    decreases e, 1
  {
    hide VisitElement, VisitCall, VisitDecision, VisitDefault, Excess;
    match e
    case Literal(text) => PushKeepsExcess(s, Val(sc.literal(text)));
    case Data(name) =>
      PushKeepsExcess(s, if sc.lookup(name).Some? then Val(sc.lookup(name).value) else Missing(name));
    case Function(op, name, args) =>
      match FormOf(op)
      case Decision(decisive) => DecisionLoses(sc, args, decisive, s);
      case DefaultForm => DefaultLoses(sc, args, s);
      case ElementForm => ElementLoses(sc, op, name, args, s);
      case SuperForm =>
      case CallForm => CallLoses(sc, op, name, args, s);
  }

  // In every state of every evaluation, whatever is resolved, there are at most as many names as null entries.
  ghost predicate NamesCovered(s: Stacks) {
    |s.missing| <= Nulls(s.data)
  }

  lemma VisitKeepsCovered(sc: Scope, e: Expr, s: Stacks)
    requires NamesCovered(s)
    ensures var o := Visit(sc, e, s); o.Done? ==> NamesCovered(o.s)
  {
    VisitLoses(sc, e, s);
  }

  // ---------------------------------------------------------------- when they do not

  // A visit that gets past a dot over a resolved name has lost a name there.
  ghost predicate Slips(o: Outcome, s: Stacks) {
    o.Done? ==> Excess(o.s) > Excess(s)
  }

  lemma {:induction false} RangeSlips(sc: Scope, args: seq<Expr>, i: nat, n: nat, s: Stacks)
    requires i + n <= |args| && FirstFailure(Meanings(sc, args)[i..i + n]) == Some(NoElement)
    ensures Slips(VisitRange(sc, args, i, n, s), s)
    decreases args, 0, n
  {
    hide Excess;
    var ms := Meanings(sc, args)[i..i + n];
    MeaningsAt(sc, args, i);
    assert ms[0] == MeaningOf(sc, args[i]);
    assert ms[1..] == Meanings(sc, args)[i + 1..i + 1 + (n - 1)];
    var o := Visit(sc, args[i], s);
    if ms[0].Fail? {
      VisitSlips(sc, args[i], s);
      if o.Done? { RangeLoses(sc, args, i + 1, n - 1, o.s); }
    } else {
      Refines(sc, args[i], s);
      PushKeepsExcess(s, ms[0]);
      RangeSlips(sc, args, i + 1, n - 1, PushMeaning(s, ms[0]));
    }
  }

  lemma {:induction false} ArgumentSlips(sc: Scope, args: seq<Expr>, k: nat, strict: bool, s: Stacks)
    requires k < |args| && MeaningOf(sc, args[k]) == Fail(NoElement)
    ensures var p := GetArguments(sc, args, k, 1, strict, s); p.Popped? ==> Excess(p.s) > Excess(s)
    decreases args, 1
  {
    hide Excess, Visit;
    VisitSlips(sc, args[k], s);
    var o := Visit(sc, args[k], s);
    assert VisitRange(sc, args, k, 1, s) == if o.Throw? then o else VisitRange(sc, args, k + 1, 0, o.s);
    if o.Done? { PopKeepsExcess(o.s, 1, strict); }
  }

  lemma {:induction false} CallSlips(sc: Scope, op: Operation, name: string, args: seq<Expr>, s: Stacks)
    requires MeaningOfCall(sc, op, name, args) == Fail(NoElement)
    ensures Slips(VisitCall(sc, op, name, args, s), s)
    decreases args, 2
  {
    hide Visit, MeaningOf, Meanings, VisitRange, FirstFailure, LastMissing, Values, Excess, Pop, MakeResult;
    var n := Arity(op, args);
    assert Meanings(sc, args)[0..0 + n] == Meanings(sc, args)[..n];
    RangeSlips(sc, args, 0, n, s);
    var o := VisitRange(sc, args, 0, n, s);
    if o.Done? {
      PopKeepsExcess(o.s, n, true);
      var p := GetArguments(sc, args, 0, n, true, s);
      if p.Popped? { MakeResultKeepsExcess(sc, op, name, p); }
    }
  }

  lemma {:induction false} DecisionSlips(sc: Scope, args: seq<Expr>, decisive: bool, s: Stacks)
    requires MeaningOfDecision(sc, args, decisive) == Fail(NoElement)
    ensures Slips(VisitDecision(sc, args, decisive, s), s)
    decreases args, 2
  {
    hide GetArguments, MeaningOf, Excess;
    var a := GetArguments(sc, args, 0, 1, true, s);
    if Required(sc, args, 0).Fail? {
      StoppingRequired(sc, args, 0, true);
      ArgumentSlips(sc, args, 0, true, s);
    } else {
      RequiredRefines(sc, args, 0, s);
      StoppingRequired(sc, args, 1, true);
      ArgumentSlips(sc, args, 1, true, s);
    }
    if a.Popped? {
      PushKeepsExcess(a.s, Val(Bool(decisive)));
      ArgumentsLose(sc, args, 1, 1, true, a.s);
      var b := GetArguments(sc, args, 1, 1, true, a.s);
      if b.Popped? && b.args[0].Some? { PushKeepsExcess(b.s, Val(Bool(Truthy(b.args[0].value)))); }
    }
  }

  lemma {:induction false} DefaultSlips(sc: Scope, args: seq<Expr>, s: Stacks)
    requires MeaningOfDefault(sc, args) == Fail(NoElement)
    ensures Slips(VisitDefault(sc, args, s), s)
    decreases args, 2
  {
    hide GetArguments, MeaningOf, Visit, Excess;
    var a := GetArguments(sc, args, 0, 1, false, s);
    if MeaningOf(sc, args[0]).Fail? {
      ArgumentSlips(sc, args, 0, false, s);
    } else {
      Refines(sc, args[0], s);
      OneArgument(sc, args, 0, false, s);
      StoppingRequired(sc, args, 1, true);
      ArgumentSlips(sc, args, 1, true, s);
    }
    if a.Popped? {
      if a.args[0].Some? { PushKeepsExcess(a.s, Val(a.args[0].value)); }
      ArgumentsLose(sc, args, 1, 1, true, a.s);
      var b := GetArguments(sc, args, 1, 1, true, a.s);
      if b.Popped? && b.args[0].Some? { PushKeepsExcess(b.s, Val(b.args[0].value)); }
    }
  }

  lemma {:induction false} ElementSlips(sc: Scope, op: Operation, name: string, args: seq<Expr>, s: Stacks)
    requires MeaningOfElement(sc, op, name, args) == Fail(NoElement)
    ensures Slips(VisitElement(sc, op, name, args, s), s)
    decreases args, 2
  {
    hide MeaningOf, Visit, MakeResult, GetArguments, Excess;
    var c := GetArguments(sc, args, 0, 1, false, s);
    if MeaningOf(sc, args[0]).Fail? {
      ArgumentSlips(sc, args, 0, false, s);
    } else {
      Refines(sc, args[0], s);
      OneArgument(sc, args, 0, false, s);
    }
    if c.Popped? {
      var o := Visit(sc, args[1], c.s);
      VisitLoses(sc, args[1], c.s);
      if o.Done? { TakeLoses(sc, op, name, c.args[0], o.s); }
      if !MeaningOf(sc, args[0]).Fail? { RightOperandSlips(sc, args[1], c.s); }
    }
  }

  lemma {:induction false} RightOperandSlips(sc: Scope, e: Expr, s: Stacks)
    requires MeaningOf(sc, e) == Fail(NoElement) || MeaningOf(sc, e).Val?
    ensures var o := Visit(sc, e, s);
            o.Done? ==> Excess(o.s) > Excess(s) || (Excess(o.s) == Excess(s) && o.s.data != [] && o.s.data[|o.s.data| - 1].Some?)
    decreases e, 2
  {
    hide MeaningOf, Visit, Excess;
    if MeaningOf(sc, e).Fail? {
      VisitSlips(sc, e, s);
    } else {
      Refines(sc, e, s);
      PushKeepsExcess(s, MeaningOf(sc, e));
    }
  }

  lemma {:induction false} VisitSlips(sc: Scope, e: Expr, s: Stacks)
    requires MeaningOf(sc, e) == Fail(NoElement)
    ensures Slips(Visit(sc, e, s), s)
    decreases e, 1
  {
    hide VisitDecision, VisitDefault, VisitElement, VisitCall, Excess,
      MeaningOfDecision, MeaningOfDefault, MeaningOfElement, MeaningOfCall;
    match FormOf(e.op)
    case Decision(decisive) => DecisionSlips(sc, e.args, decisive, s);
    case DefaultForm => DefaultSlips(sc, e.args, s);
    case ElementForm => ElementSlips(sc, e.op, e.fname, e.args, s);
    case CallForm => CallSlips(sc, e.op, e.fname, e.args, s);
  }

  // After a visit that succeeds the stacks are still in step exactly if the meaning does not stop at a dot over a
  // resolved name; and the top of an empty stack is taken only if it does.
  lemma StaysInStepExactly(sc: Scope, e: Expr, s: Stacks)
    requires InStep(s)
    ensures match Visit(sc, e, s)
            case Done(t) => InStep(t) <==> MeaningOf(sc, e) != Fail(NoElement)
            case Throw(error) => error == StackUnderflow ==> MeaningOf(sc, e) == Fail(NoElement)
  {
    hide Visit, MeaningOf;
    if MeaningOf(sc, e) == Fail(NoElement) { VisitSlips(sc, e, s); } else { VisitKeepsStacksInStep(sc, e, s); }
  }

  // For a dot whose operands have a meaning, with a name pending, that is whether the right one is a name not found.
  lemma DotStaysInStepExactly(sc: Scope, name: string, l: Expr, r: Expr, s: Stacks)
    requires InStep(s) && !MeaningOf(sc, l).Fail? && !MeaningOf(sc, r).Fail?
    ensures var o := Visit(sc, Function(AtId, name, [l, r]), s);
            o.Done? ==> (InStep(o.s) <==> MeaningOf(sc, r).Missing?)
  {
    hide MeaningOf, Visit;
    var e := Function(AtId, name, [l, r]);
    AnyDotMeaning(sc, name, l, r);
    StaysInStepExactly(sc, e, s);
  }

  lemma AnyDotMeaning(sc: Scope, name: string, l: Expr, r: Expr)
    requires !MeaningOf(sc, l).Fail? && !MeaningOf(sc, r).Fail?
    ensures MeaningOf(sc, Function(AtId, name, [l, r])) == Fail(NoElement) <==> MeaningOf(sc, r).Val?
  {
    var args := [l, r];
    assert MeaningOf(sc, Function(AtId, name, args)) == MeaningOfElement(sc, AtId, name, args);
  }

  // With a resolved name after `.` and a name pending, the pending one is taken instead.
  lemma ResolvedElementTakesPending(sc: Scope, o: seq<Token>, x: string, y: string)
    requires sc.lookup(y).Some? && sc.primitive(AtId, "", [sc.literal(o), Str(x)]).Some?
    ensures Visit(sc, Function(AtId, "", [Literal(o), Data(y)]), Stacks([None], [x])) ==
            Done(Stacks([None, sc.primitive(AtId, "", [sc.literal(o), Str(x)])], []))
  {
    var args := [Literal(o), Data(y)];
    var s := Stacks([None], [x]);
    OneArgument(sc, args, 0, false, s);
    var t := Push(s, sc.lookup(y).value);
    assert Visit(sc, args[1], s) == Done(t) && t.data[..1] == [None] && t.missing[..0] == [];
    assert [Some(sc.literal(o)), Some(Str(x))] == Somes([sc.literal(o), Str(x)]);
    UnwrapSomes([sc.literal(o), Str(x)]);
  }

  // The stacks are then out of step: `x == o.y`, with y resolved and x not, reads the top of an empty stack.
  lemma ResolvedElementUnderflows(sc: Scope, o: seq<Token>, x: string, y: string)
    requires sc.lookup(x).None? && sc.lookup(y).Some?
    requires sc.primitive(AtId, "", [sc.literal(o), Str(x)]).Some?
    ensures Visit(sc, Function(EqualOp, "", [Data(x), Function(AtId, "", [Literal(o), Data(y)])]), Stacks([], [])) ==
            Throw(StackUnderflow)
  {
    var args := [Data(x), Function(AtId, "", [Literal(o), Data(y)])];
    var s1 := PushMissing(Stacks([], []), x);
    var s2 := Stacks([None, sc.primitive(AtId, "", [sc.literal(o), Str(x)])], []);
    ResolvedElementTakesPending(sc, o, x, y);
    assert s1 == Stacks([None], [x]);
    hide VisitElement;
    assert Visit(sc, args[0], Stacks([], [])) == Done(s1) && Visit(sc, args[1], s1) == Done(s2);
    TwoVisits(sc, args, Stacks([], []), s1, s2);
    assert s2.data[..1] == [None];
    assert Pop(Stacks([None], []), 1, true) == PopThrow(StackUnderflow);
    assert Pop(s2, 2, true) == PopThrow(StackUnderflow);
    assert GetArguments(sc, args, 0, 2, true, Stacks([], [])) == PopThrow(StackUnderflow);
    assert VisitCall(sc, EqualOp, "", args, Stacks([], [])) == Throw(StackUnderflow);
  }

  lemma TwoVisits(sc: Scope, args: seq<Expr>, s: Stacks, s1: Stacks, s2: Stacks)
    requires |args| == 2 && Visit(sc, args[0], s) == Done(s1) && Visit(sc, args[1], s1) == Done(s2)
    ensures VisitRange(sc, args, 0, 2, s) == Done(s2)
  {
    hide Visit;
    assert VisitRange(sc, args, 2, 0, s2) == Done(s2);
    assert VisitRange(sc, args, 1, 1, s1) == Done(s2);
  }

  // ---------------------------------------------------------------- eval_expression_list

  type Evaluated = Result<Json, EvalError>

  // Evaluates from the given stacks; the result is what is popped at the end, with the stacks left then.
  function EvalExpressionList(sc: Scope, root: Option<Expr>, s: Stacks): (Evaluated, Stacks) {
    if root.None? then (Err(EmptyExpression), s)
    else
      var o := Visit(sc, root.value, s);
      if o.Throw? then (Err(o.error), s)
      else if o.s.data == [] then (Err(EmptyExpression), o.s)
      else if |o.s.data| != 1 then (Err(MalformedExpression), o.s)
      else if o.s.data[0].None? then
        if o.s.missing == [] then (Err(StackUnderflow), o.s)
        else (Err(NotFound(o.s.missing[|o.s.missing| - 1])), Stacks([], o.s.missing[..|o.s.missing| - 1]))
      else (Ok(o.s.data[0].value), Stacks([], o.s.missing))
  }

  // Every successful evaluation from empty stacks leaves both stacks empty for the next one.
  lemma StacksEmptyBetween(sc: Scope, root: Option<Expr>)
    ensures var (r, s) := EvalExpressionList(sc, root, Stacks([], [])); r.Ok? ==> s == Stacks([], [])
  {
    if root.Some? {
      VisitKeepsCovered(sc, root.value, Stacks([], []));
      var o := Visit(sc, root.value, Stacks([], []));
      if o.Done? && |o.s.data| == 1 { assert o.s.data[..0] == []; }
    }
  }

  // From empty stacks an expression evaluates to its meaning, and the stacks are empty again: always, but for a dot
  // over a resolved name with a name pending. (Past such a dot the machine may still fail as the meaning does, at
  // another dot that finds nothing pending any more.)
  lemma EvaluatesToMeaning(sc: Scope, e: Expr)
    requires MeaningOf(sc, e) != Fail(NoElement) || NothingPending(sc, e)
    ensures EvalExpressionList(sc, Some(e), Stacks([], [])).0 ==
            (match MeaningOf(sc, e) case Val(v) => Ok(v) case Missing(name) => Err(NotFound(name)) case Fail(error) => Err(error))
    ensures EvalExpressionList(sc, Some(e), Stacks([], [])).1 == Stacks([], [])
  {
    if MeaningOf(sc, e) == Fail(NoElement) { StopsThere(sc, e, Stacks([], [])); } else { Refines(sc, e, Stacks([], [])); }
  }
}
