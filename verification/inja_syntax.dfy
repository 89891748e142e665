// Tokens, operations and expression trees shared by the template lexer, parser and renderer.
module InjaSyntax {
  import opened Wrappers

  // Token kinds, in the order the lexer declares them.
  datatype Kind =
    | Text | ExpressionOpen | ExpressionClose | LineStatementOpen | LineStatementClose
    | StatementOpen | StatementClose | CommentOpen | CommentClose
    | Id | Number | String | Plus | Minus | Times | Slash | Percent | Power
    | Comma | Dot | Colon | LeftParen | RightParen | LeftBracket | RightBracket | LeftBrace | RightBrace
    | Equal | NotEqual | GreaterThan | GreaterEqual | LessThan | LessEqual | Pipe | Unknown | Eof

  datatype Token = Token(kind: Kind, text: string)

  const EOF_TOKEN := Token(Eof, "")

  // The token under the cursor, and what follows it. The lexer answers Eof forever at the end.
  function First(toks: seq<Token>): Token {
    if toks == [] then EOF_TOKEN else toks[0]
  }

  function Tail(toks: seq<Token>): seq<Token> {
    if toks == [] then [] else toks[1..]
  }

  // The operations with a spelling or an evaluation rule of their own, and all other builtins by name.
  datatype Operation =
    | Not | And | Or | In | EqualOp | NotEqualOp | Greater | GreaterEqualOp | Less | LessEqualOp
    | Add | Subtract | Multiplication | Division | PowerOp | Modulo | AtId
    | Default | Callback | Super | Builtin(builtin: string) | NoOperation

  datatype Associativity = Left | Right

  // The precedence table of the operator form of FunctionNode.
  function Precedence(op: Operation): nat {
    match op
    case Not => 4
    case And | Or => 1
    case In | EqualOp | NotEqualOp | Greater | GreaterEqualOp | Less | LessEqualOp => 2
    case Add | Subtract => 3
    case Multiplication | Division | Modulo => 4
    case PowerOp => 5
    case AtId => 8
    case _ => 1
  }

  function AssociativityOf(op: Operation): Associativity {
    if op.PowerOp? then Right else Left
  }

  function NumberArgs(op: Operation): nat {
    match op
    case Not | Default | Callback | Super | Builtin(_) | NoOperation => 1
    case _ => 2
  }

  predicate IsBinary(op: Operation) {
    !(op.Not? || op.Default? || op.Callback? || op.Super? || op.Builtin? || op.NoOperation?)
  }

  // The operator a token spells, if any.
  function OperatorOf(t: Token): Option<Operation> {
    match t.kind
    case Id =>
      if t.text == "and" then Some(And)
      else if t.text == "or" then Some(Or)
      else if t.text == "in" then Some(In)
      else if t.text == "not" then Some(Not)
      else None
    case Equal => Some(EqualOp)
    case NotEqual => Some(NotEqualOp)
    case GreaterThan => Some(Greater)
    case GreaterEqual => Some(GreaterEqualOp)
    case LessThan => Some(Less)
    case LessEqual => Some(LessEqualOp)
    case Plus => Some(Add)
    case Minus => Some(Subtract)
    case Times => Some(Multiplication)
    case Slash => Some(Division)
    case Power => Some(PowerOp)
    case Percent => Some(Modulo)
    case Dot => Some(AtId)
    case _ => None
  }

  predicate IsLiteralKind(k: Kind) {
    k.String? || k.Number? || k.LeftBracket? || k.RightBracket? || k.LeftBrace? || k.RightBrace?
  }

  predicate IsConstant(t: Token) {
    t.kind.Id? && (t.text == "true" || t.text == "false" || t.text == "null")
  }

  // Expression trees. A literal keeps the tokens it was written with; an operator node has no name.
  datatype Expr =
    | Literal(text: seq<Token>)
    | Data(name: string)
    | Function(op: Operation, fname: string, args: seq<Expr>)

  // What the parser consults: the function table (arity -1 is variadic) and the JSON reader.
  datatype Config = Config(functions: map<(string, int), Operation>, validJson: seq<Token> -> bool)

  function FindFunction(cfg: Config, name: string, n: nat): Operation {
    if (name, n) in cfg.functions then cfg.functions[(name, n)]
    else if n > 0 && (name, -1) in cfg.functions then cfg.functions[(name, -1)]
    else NoOperation
  }
}
