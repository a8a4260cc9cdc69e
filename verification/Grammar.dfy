/**
 The stratified expression grammar, written as the concrete trees it derives: what tokens a
 tree stands for, what it means, and which trees are well formed. Nothing here refers to the
 parser's loops, lookahead or positions; binary operators are left-recursive.
 */
module Grammar {
  import opened Text
  import opened Syntax
  import opened Parser

  datatype Tree =
    | Leaf(tok: Tok)
    | NullOf(name: string, size: Option<int>)
    | CallOf(name: string, args: seq<Tree>)
    | Paren(inner: Tree)
    | Prefixed(uop: UnaryOp, a: Tree)
    | CastTo(name: string, len: Option<int>, scale: Option<int>, a: Tree)
    | Infixed(op: BinOp, l: Tree, r: Tree)
    | Choice(test: Tree, yes: Tree, no: Tree)

  function PrefixToken(uop: UnaryOp): Tok {
    match uop case Neg => Infix(Sub) case Not => Bang case BitNot => Tilde
  }

  function SizeTokens(len: Option<int>): seq<Tok> {
    match len case None => [] case Some(i) => [Comma, IntTok(i)]
  }

  /** The tokens a tree stands for. */
  function Yield(c: Tree): (y: seq<Tok>)
    decreases c
  {
    match c
    case Leaf(t) => [t]
    case NullOf(name, size) => [KwNull, LParen, Ident(name)] + SizeTokens(size) + [RParen]
    case CallOf(name, args) => [Ident(name), LParen] + YieldArgs(args) + [RParen]
    case Paren(inner) => [LParen] + Yield(inner) + [RParen]
    case Prefixed(uop, a) => [PrefixToken(uop)] + Yield(a)
    case CastTo(name, len, scale, a) =>
      [LParen, Ident(name)] + SizeTokens(len) + SizeTokens(scale) + [RParen] + Yield(a)
    case Infixed(op, l, r) => Yield(l) + [Infix(op)] + Yield(r)
    case Choice(b, t, f) => Yield(b) + [QMark] + Yield(t) + [Colon] + Yield(f)
  }

  function YieldArgs(args: seq<Tree>): seq<Tok>
    decreases args
  {
    if args == [] then []
    else if |args| == 1 then Yield(args[0])
    else Yield(args[0]) + [Comma] + YieldArgs(args[1..])
  }

  /** The tightest level a tree belongs to. */
  function LevelOf(c: Tree): (l: nat)
    ensures l <= 11
  {
    match c
    case Leaf(_) => 11
    case NullOf(_, _) => 11
    case CallOf(_, _) => 11
    case Paren(_) => 11
    case Prefixed(_, _) => 10
    case CastTo(_, _, _, _) => 10
    case Infixed(op, _, _) => Level(op)
    case Choice(_, _, _) => 0
  }

  /** A sole type name in parentheses is always the start of a cast. */
  predicate SoleDtName(c: Tree) { c.Leaf? && IsDtName(c.tok) }

  predicate WellFormed(e: Scope, c: Tree)
    decreases c
  {
    match c
    case Leaf(t) => Atom(e, t).Some?
    case NullOf(name, size) => ParseDt(name).Some?
    case CallOf(name, args) => LookupFn(name).Some? && |args| == Arity(LookupFn(name).value) && AllWellFormed(e, args)
    case Paren(inner) => WellFormed(e, inner) && !SoleDtName(inner)
    case Prefixed(uop, a) => WellFormed(e, a) && LevelOf(a) >= 10
    case CastTo(name, len, scale, a) =>
      ParseDt(name).Some? && (scale.Some? ==> len.Some?) && WellFormed(e, a) && LevelOf(a) >= 10
    case Infixed(op, l, r) =>
      WellFormed(e, l) && WellFormed(e, r) && LevelOf(l) >= Level(op) && LevelOf(r) > Level(op)
    case Choice(b, t, f) => WellFormed(e, b) && LevelOf(b) >= 1 && WellFormed(e, t) && WellFormed(e, f)
  }

  predicate AllWellFormed(e: Scope, args: seq<Tree>)
    decreases args
  {
    args == [] || (WellFormed(e, args[0]) && AllWellFormed(e, args[1..]))
  }

  /** The expression a well-formed tree means. */
  function Meaning(e: Scope, c: Tree): Node
    requires WellFormed(e, c)
    decreases c
  {
    match c
    case Leaf(t) => Atom(e, t).value
    case NullOf(name, _) => LitNull(ParseDt(name).value)
    case CallOf(name, args) => Call(LookupFn(name).value, Meanings(e, args))
    case Paren(inner) => Meaning(e, inner)
    case Prefixed(uop, a) => Unary(uop, Meaning(e, a))
    case CastTo(name, len, scale, a) => Cast(ParseDt(name).value, len, scale, Meaning(e, a))
    case Infixed(op, l, r) => Binop(op, Meaning(e, l), Meaning(e, r))
    case Choice(b, t, f) => Ternary(Meaning(e, b), Meaning(e, t), Meaning(e, f))
  }

  function Meanings(e: Scope, args: seq<Tree>): (r: seq<Node>)
    requires AllWellFormed(e, args)
    ensures |r| == |args|
    decreases args
  {
    if args == [] then [] else [Meaning(e, args[0])] + Meanings(e, args[1..])
  }

  // ---------------------------------------------------------------- token segments

  /** `y` stands in the array at `p`. */
  predicate Holds(toks: seq<Tok>, p: nat, y: seq<Tok>) {
    p + |y| <= |toks| && toks[p..p + |y|] == y
  }

  lemma HoldsAt(toks: seq<Tok>, p: nat, y: seq<Tok>, i: nat)
    requires Holds(toks, p, y) && i < |y|
    ensures toks[p + i] == y[i]
  {}

  lemma HoldsSplit(toks: seq<Tok>, p: nat, a: seq<Tok>, b: seq<Tok>)
    ensures Holds(toks, p, a + b) <==> Holds(toks, p, a) && Holds(toks, p + |a|, b)
  {
    var m := p + |a|;
    if m + |b| <= |toks| {
      assert toks[p..m + |b|] == toks[p..m] + toks[m..m + |b|];
      assert (a + b)[..|a|] == a && (a + b)[|a|..] == b;
      if toks[p..m + |b|] == a + b {
        assert toks[p..m] == toks[p..m + |b|][..|a|] && toks[m..m + |b|] == toks[p..m + |b|][|a|..];
      }
    }
  }

  lemma HoldsAround(toks: seq<Tok>, p: nat, a: seq<Tok>, t: Tok, b: seq<Tok>)
    ensures Holds(toks, p, a + [t] + b)
       <==> Holds(toks, p, a) && p + |a| < |toks| && toks[p + |a|] == t && Holds(toks, p + |a| + 1, b)
  {
    HoldsSplit(toks, p, a + [t], b);
    HoldsSplit(toks, p, a, [t]);
    var m := p + |a|;
    assert m < |toks| ==> toks[m..m + 1] == [toks[m]];
    assert m < |toks| && toks[m..m + 1] == [t] ==> toks[m] == [t][0];
  }

  lemma HoldsFirst(toks: seq<Tok>, p: nat, t: Tok, b: seq<Tok>)
    ensures Holds(toks, p, [t] + b) <==> p < |toks| && toks[p] == t && Holds(toks, p + 1, b)
  {
    assert [] + [t] + b == [t] + b;
    HoldsAround(toks, p, [], t, b);
  }

  // ---------------------------------------------------------------- shape of yields

  /** A tree's tokens contain no end marker, and its first token is no binary operator other
      than the minus, no comma, closing parenthesis, question mark or colon. */
  predicate CanStart(t: Tok) {
    && t != Eof && t != RParen && t != Comma && t != QMark && t != Colon
    && (t.Infix? ==> t.op == Sub)
  }

  lemma {:induction false} YieldStarts(e: Scope, c: Tree)
    requires WellFormed(e, c)
    ensures |Yield(c)| > 0 && CanStart(Yield(c)[0]) && (LevelOf(c) >= 11 ==> !Yield(c)[0].Infix?)
    ensures LevelOf(c) >= 11 ==> Prefix(Yield(c)[0]).None?
    decreases c
  {
    match c
    case Infixed(_, l, _) => YieldStarts(e, l);
    case Choice(b, _, _) => YieldStarts(e, b);
    case _ =>
  }
}
