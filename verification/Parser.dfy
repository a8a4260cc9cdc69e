/**
 The precedence parser (providers/betl-ssisexpr/ssisexpr_provider.c) as functions of the
 position in the token array. p_or down to p_mul have one shape and become ParseBinary, at
 levels 1 to 9; level 10 is p_unary.
 */
module Parser {
  import opened Text
  import opened Syntax
  import opened Lexer

  function Level(op: BinOp): (l: nat)
    ensures 1 <= l <= 9
  {
    match op
    case Or => 1
    case And => 2
    case BitOr => 3
    case BitXor => 4
    case BitAnd => 5
    case Equal | NotEqual => 6
    case Less | LessEq | Greater | GreaterEq => 7
    case Add | Sub => 8
    case Mul | Div | Mod => 9
  }

  datatype Parsed<+T> = Fail | Done(value: T, pos: nat)

  predicate IsInfix(t: Tok, level: nat) { t.Infix? && Level(t.op) == level }

  /** The prefix operators of p_unary. */
  function Prefix(t: Tok): Option<UnaryOp> {
    match t
    case Infix(Sub) => Some(Neg)
    case Bang => Some(Not)
    case Tilde => Some(BitNot)
    case _ => None
  }

  predicate IsDtName(t: Tok) { t.Ident? && ParseDt(t.name).Some? }

  /** A C string literal's value ends at its first NUL. */
  function UntilNul(s: string): (r: string)
    ensures '\0' !in r && |r| <= |s| && r == s[..|r|]
    ensures '\0' !in s ==> r == s
  {
    if s == "" || s[0] == '\0' then ""
    else
      var rest := UntilNul(s[1..]);
      [s[0]] + rest
  }

  /** Tokens that are a whole operand by themselves. */
  function Atom(e: Scope, t: Tok): Option<Node> {
    match t
    case IntTok(i) => Some(LitInt(i))
    case FloatTok(lexeme) => Some(LitFloat(lexeme))
    case StrTok(s) => Some(LitStr(UntilNul(s)))
    case KwTrue => Some(LitBool(true))
    case KwFalse => Some(LitBool(false))
    case Ident(name) => Column(e, name)
    case BrIdent(name) => Column(e, name)
    case VarRef(name) => if name in e.params then Some(LitStr(e.params[name])) else None
    case _ => None
  }

  function Column(e: Scope, name: string): Option<Node> {
    match FindName(e.cols, name)
    case None => None
    case Some(i) => Some(ColRef(i))
  }

  function ParseTernary(e: Scope, toks: seq<Tok>, p: nat): (r: Parsed<Node>)
    requires Stream(toks) && p < |toks|
    ensures r.Done? ==> p < r.pos < |toks|
    decreases |toks| - p, 14
  {
    match ParseBinary(e, toks, 1, p)
    case Fail => Fail
    case Done(c, q) =>
      if toks[q] != QMark then Done(c, q)
      else
        match ParseTernary(e, toks, q + 1)
        case Fail => Fail
        case Done(t, m) =>
          if toks[m] != Colon then Fail
          else
            match ParseTernary(e, toks, m + 1)
            case Fail => Fail
            case Done(f, n) => Done(Ternary(c, t, f), n)
  }

  function ParseBinary(e: Scope, toks: seq<Tok>, level: nat, p: nat): (r: Parsed<Node>)
    requires Stream(toks) && p < |toks| && 1 <= level <= 10
    ensures r.Done? ==> p < r.pos < |toks|
    decreases |toks| - p, 13 - level
  {
    if level == 10 then ParseUnary(e, toks, p)
    else
      match ParseBinary(e, toks, level + 1, p)
      case Fail => Fail
      case Done(a, q) => ParseTail(e, toks, level, a, q)
  }

  /** The loop of a binary level: operand `a` has been read, operators of the level follow. */
  function ParseTail(e: Scope, toks: seq<Tok>, level: nat, a: Node, p: nat): (r: Parsed<Node>)
    requires Stream(toks) && p < |toks| && 1 <= level <= 9
    ensures r.Done? ==> p <= r.pos < |toks|
    decreases |toks| - p, 0
  {
    if !IsInfix(toks[p], level) then Done(a, p)
    else
      match ParseBinary(e, toks, level + 1, p + 1)
      case Fail => Fail
      case Done(b, q) => ParseTail(e, toks, level, Binop(toks[p].op, a, b), q)
  }

  function ParseUnary(e: Scope, toks: seq<Tok>, p: nat): (r: Parsed<Node>)
    requires Stream(toks) && p < |toks|
    ensures r.Done? ==> p < r.pos < |toks|
    decreases |toks| - p, 2
  {
    match Prefix(toks[p])
    case None => ParsePrimary(e, toks, p)
    case Some(op) =>
      match ParseUnary(e, toks, p + 1)
      case Fail => Fail
      case Done(a, q) => Done(Unary(op, a), q)
  }

  function ParsePrimary(e: Scope, toks: seq<Tok>, p: nat): (r: Parsed<Node>)
    requires Stream(toks) && p < |toks|
    ensures r.Done? ==> p < r.pos < |toks|
    decreases |toks| - p, 1
  {
    match toks[p]
    case Eof => Fail
    case KwNull => ParseNull(toks, p)
    case LParen => if CastAhead(toks, p) then ParseCast(e, toks, p) else ParseParen(e, toks, p)
    case Ident(name) =>
      if toks[p + 1] == LParen then
        (match LookupFn(name) case None => Fail case Some(fn) => ParseCall(e, toks, fn, p))
      else (match Atom(e, toks[p]) case None => Fail case Some(n) => Done(n, p + 1))
    case _ =>
      (match Atom(e, toks[p]) case None => Fail case Some(n) => Done(n, p + 1))
  }

  /** NULL(DT_xxx) or NULL(DT_xxx, n); the length is dropped. */
  function ParseNull(toks: seq<Tok>, p: nat): (r: Parsed<Node>)
    requires Stream(toks) && p < |toks| && toks[p] != Eof
    ensures r.Done? ==> p < r.pos < |toks|
  {
    if toks[p + 1] != LParen || !IsDtName(toks[p + 2]) then Fail
    else
      var dt := ParseDt(toks[p + 2].name).value;
      if toks[p + 3] == Comma then
        if toks[p + 4].IntTok? && toks[p + 5] == RParen then Done(LitNull(dt), p + 6) else Fail
      else if toks[p + 3] == RParen then Done(LitNull(dt), p + 4)
      else Fail
  }

  /** A parenthesis opens a cast when a type name and then a comma or parenthesis follow. */
  predicate CastAhead(toks: seq<Tok>, p: nat)
    requires Stream(toks) && p < |toks| && toks[p] != Eof
  {
    IsDtName(toks[p + 1]) && (toks[p + 2] == RParen || toks[p + 2] == Comma)
  }

  datatype CastSize = CastSize(len: Option<int>, scale: Option<int>)

  /** What may stand between a cast's type name and its closing parenthesis. */
  function ParseCastSize(toks: seq<Tok>, p: nat): (r: Parsed<CastSize>)
    requires Stream(toks) && p < |toks|
    ensures r.Done? ==> p < r.pos < |toks|
  {
    if toks[p] == RParen then Done(CastSize(None, None), p + 1)
    else if toks[p] != Comma || !toks[p + 1].IntTok? then Fail
    else if toks[p + 2] == RParen then Done(CastSize(Some(toks[p + 1].i), None), p + 3)
    else if toks[p + 2] != Comma || !toks[p + 3].IntTok? || toks[p + 4] != RParen then Fail
    else Done(CastSize(Some(toks[p + 1].i), Some(toks[p + 3].i)), p + 5)
  }

  function ParseCast(e: Scope, toks: seq<Tok>, p: nat): (r: Parsed<Node>)
    requires Stream(toks) && p < |toks| && toks[p] != Eof && CastAhead(toks, p)
    ensures r.Done? ==> p < r.pos < |toks|
    decreases |toks| - p, 0
  {
    match ParseCastSize(toks, p + 2)
    case Fail => Fail
    case Done(size, q) =>
      match ParseUnary(e, toks, q)
      case Fail => Fail
      case Done(a, n) => Done(Cast(ParseDt(toks[p + 1].name).value, size.len, size.scale, a), n)
  }

  function ParseParen(e: Scope, toks: seq<Tok>, p: nat): (r: Parsed<Node>)
    requires Stream(toks) && p < |toks| && toks[p] != Eof
    ensures r.Done? ==> p < r.pos < |toks|
    decreases |toks| - p, 0
  {
    match ParseTernary(e, toks, p + 1)
    case Fail => Fail
    case Done(n, q) => if toks[q] == RParen then Done(n, q + 1) else Fail
  }

  const MAX_ARGS := 8

  function ParseCall(e: Scope, toks: seq<Tok>, fn: Fn, p: nat): (r: Parsed<Node>)
    requires Stream(toks) && p < |toks| - 1 && toks[p + 1] == LParen
    ensures r.Done? ==> p < r.pos < |toks|
    decreases |toks| - p, 0
  {
    match (if toks[p + 2] == RParen then Done([], p + 2) else ParseArgs(e, toks, 0, p + 2))
    case Fail => Fail
    case Done(args, q) =>
      if toks[q] != RParen || |args| != Arity(fn) then Fail else Done(Call(fn, args), q + 1)
  }

  function WithArgs(args: seq<Node>, rest: Parsed<seq<Node>>): Parsed<seq<Node>> {
    match rest case Fail => Fail case Done(more, q) => Done(args + more, q)
  }

  /** One or more arguments separated by commas, when `n` have been read. */
  function ParseArgs(e: Scope, toks: seq<Tok>, n: nat, p: nat): (r: Parsed<seq<Node>>)
    requires Stream(toks) && p < |toks|
    ensures r.Done? ==> p < r.pos < |toks|
    decreases |toks| - p, 15
  {
    if n >= MAX_ARGS then Fail
    else
      match ParseTernary(e, toks, p)
      case Fail => Fail
      case Done(a, q) =>
        if toks[q] != Comma then Done([a], q) else WithArgs([a], ParseArgs(e, toks, n + 1, q + 1))
  }

  /** p_ternary over the whole array, with nothing left over. */
  function Parse(e: Scope, toks: seq<Tok>): Option<Node>
    requires Stream(toks)
  {
    match ParseTernary(e, toks, 0)
    case Fail => None
    case Done(n, q) => if toks[q] == Eof then Some(n) else None
  }

  /** What ssisexpr_compile makes of a source text. */
  function Compile(e: Scope, text: string, isFloat: string -> bool): Option<Node> {
    match Lex(text, isFloat)
    case None => None
    case Some(toks) => Parse(e, toks)
  }
}
