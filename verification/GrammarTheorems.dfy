/**
 The parser accepts exactly the grammar: every well-formed tree's tokens parse to its meaning,
 and whatever parses is the yield of a well-formed tree with that meaning.
 */
module GrammarTheorems {
  import opened Text
  import opened Syntax
  import opened Lexer
  import opened Parser
  import opened Grammar

  /** What may come right after a complete operand of a level for the parser to stop there. */
  predicate Follows(level: nat, t: Tok) {
    t != LParen && (t.Infix? ==> Level(t.op) <= level) && (level == 0 ==> t != QMark)
  }

  /** The parser reading a whole operand of a level at `p`, for a binary level up to the
      point where its loop has the operand in hand. */
  predicate Reads(e: Scope, toks: seq<Tok>, level: nat, p: nat, n: Node, q: nat)
    requires Stream(toks) && p < |toks| && q < |toks| && level <= 11
  {
    if level == 0 then ParseTernary(e, toks, p) == Done(n, q)
    else if level <= 9 then ParseBinary(e, toks, level, p) == ParseTail(e, toks, level, n, q)
    else if level == 10 then ParseUnary(e, toks, p) == Done(n, q)
    else ParsePrimary(e, toks, p) == Done(n, q)
  }

  // ---------------------------------------------------------------- completeness

  /** After a leading name comes an opening parenthesis, an operator or a question mark. */
  lemma {:induction false} SecondToken(e: Scope, c: Tree)
    requires WellFormed(e, c) && Yield(c)[0].Ident? && |Yield(c)| > 1
    ensures Yield(c)[1] == LParen || Yield(c)[1].Infix? || Yield(c)[1] == QMark
    decreases c
  {
    YieldStarts(e, c);
    match c
    case Infixed(_, l, _) =>
      YieldStarts(e, l);
      if |Yield(l)| > 1 { SecondToken(e, l); }
    case Choice(b, _, _) =>
      YieldStarts(e, b);
      if |Yield(b)| > 1 { SecondToken(e, b); }
    case _ =>
  }

  lemma {:induction false} SoleToken(e: Scope, c: Tree)
    requires WellFormed(e, c) && |Yield(c)| == 1
    ensures c.Leaf?
    decreases c
  {
    match c
    case Infixed(_, l, r) => YieldStarts(e, l);
    case Choice(b, _, _) => YieldStarts(e, b);
    case Prefixed(_, a) => YieldStarts(e, a);
    case _ =>
  }

  /** The two-token lookahead does not mistake a parenthesised expression for a cast. */
  lemma ParenIsNoCast(e: Scope, toks: seq<Tok>, inner: Tree, p: nat)
    requires Stream(toks) && p < |toks| && WellFormed(e, inner) && !SoleDtName(inner)
    requires Holds(toks, p, [LParen]) && Holds(toks, p + 1, Yield(inner))
    ensures !CastAhead(toks, p)
  {
    YieldStarts(e, inner);
    var y := Yield(inner);
    assert toks[p + 1] == y[0];
    if IsDtName(y[0]) {
      if |y| == 1 {
        SoleToken(e, inner);
      } else {
        SecondToken(e, inner);
        assert toks[p + 2] == y[1];
      }
    }
  }

  /** In parentheses an expression is taken for a cast exactly when it is a sole name that is
      also a type name. */
  lemma ParenIsCastExactly(e: Scope, toks: seq<Tok>, inner: Tree, p: nat)
    requires Stream(toks) && p < |toks| && WellFormed(e, inner)
    requires Holds(toks, p, [LParen] + Yield(inner) + [RParen])
    ensures CastAhead(toks, p) <==> SoleDtName(inner)
  {
    HoldsSplit(toks, p, [LParen] + Yield(inner), [RParen]);
    HoldsSplit(toks, p, [LParen], Yield(inner));
    if SoleDtName(inner) {
      HoldsAt(toks, p + 1, Yield(inner), 0);
      HoldsAt(toks, p + 1 + |Yield(inner)|, [RParen], 0);
    } else {
      hide SoleDtName, CastAhead, WellFormed, Yield;
      ParenIsNoCast(e, toks, inner, p);
    }
  }

  /** An operand of one level is one of the level below, where nothing of that level follows. */
  lemma {:induction false} ReadsUp(e: Scope, toks: seq<Tok>, level: nat, p: nat, n: Node, q: nat)
    requires Stream(toks) && p < |toks| && q < |toks| && level <= 10
    requires Reads(e, toks, level + 1, p, n, q) && Follows(level, toks[q])
    requires level == 10 ==> Prefix(toks[p]).None?
    ensures Reads(e, toks, level, p, n, q)
  {
    if level == 0 {
      hide ParseBinary, ParsePrimary;
      assert ParseTail(e, toks, 1, n, q) == Done(n, q);
    } else if level <= 8 {
      hide ParseTernary, ParsePrimary, ParseUnary;
      assert ParseTail(e, toks, level + 1, n, q) == Done(n, q);
    } else if level == 9 {
      hide ParseTernary, ParsePrimary, ParseUnary;
      assert ParseBinary(e, toks, 10, p) == ParseUnary(e, toks, p);
    } else {
      hide ParsePrimary, ParseBinary;
    }
  }

  lemma {:induction false} Complete(e: Scope, toks: seq<Tok>, c: Tree, level: nat, p: nat)
    requires Stream(toks) && WellFormed(e, c) && level <= LevelOf(c)
    requires Holds(toks, p, Yield(c)) && p + |Yield(c)| < |toks| && Follows(level, toks[p + |Yield(c)|])
    ensures Reads(e, toks, level, p, Meaning(e, c), p + |Yield(c)|)
    decreases c, 12 - level
  {
    hide Reads, Stream, Yield, Meaning, WellFormed, IsDtName, SoleDtName;
    if level < LevelOf(c) {
      YieldStarts(e, c);
      assert toks[p] == Yield(c)[0];
      Complete(e, toks, c, level + 1, p);
      ReadsUp(e, toks, level, p, Meaning(e, c), p + |Yield(c)|);
    } else if c.Choice? {
      CompleteChoice(e, toks, c, p);
    } else if c.Infixed? {
      CompleteInfix(e, toks, c, p);
    } else if c.Prefixed? {
      CompletePrefixed(e, toks, c, p);
    } else if c.CastTo? {
      CompleteCast(e, toks, c, p);
    } else {
      CompletePrimary(e, toks, c, p);
    }
  }

  // One parsing step each, with the operands already read.

  lemma ChoiceReads(e: Scope, toks: seq<Tok>, p: nat, b: Node, q: nat, t: Node, m: nat, f: Node, n: nat)
    requires Stream(toks) && p < |toks| && q < m < n < |toks|
    requires Reads(e, toks, 1, p, b, q) && toks[q] == QMark
    requires Reads(e, toks, 0, q + 1, t, m) && toks[m] == Colon && Reads(e, toks, 0, m + 1, f, n)
    ensures Reads(e, toks, 0, p, Ternary(b, t, f), n)
  {
    hide ParseBinary, ParsePrimary, ParseUnary;
    assert ParseTail(e, toks, 1, b, q) == Done(b, q);
  }

  lemma InfixReads(e: Scope, toks: seq<Tok>, level: nat, p: nat, a: Node, q: nat, b: Node, n: nat)
    requires Stream(toks) && p < |toks| && q < n < |toks| && 1 <= level <= 9
    requires Reads(e, toks, level, p, a, q) && IsInfix(toks[q], level)
    requires Reads(e, toks, level + 1, q + 1, b, n) && Follows(level, toks[n])
    ensures Reads(e, toks, level, p, Binop(toks[q].op, a, b), n)
  {
    hide ParsePrimary, ParseTernary;
    if level < 9 {
      assert ParseTail(e, toks, level + 1, b, n) == Done(b, n);
    } else {
      assert ParseBinary(e, toks, 10, q + 1) == ParseUnary(e, toks, q + 1);
    }
    hide ParseBinary, ParseUnary;
  }

  lemma PrefixReads(e: Scope, toks: seq<Tok>, p: nat, uop: UnaryOp, a: Node, n: nat)
    requires Stream(toks) && p + 1 < |toks| && n < |toks| && Prefix(toks[p]) == Some(uop)
    requires Reads(e, toks, 10, p + 1, a, n)
    ensures Reads(e, toks, 10, p, Unary(uop, a), n)
  {
    hide ParsePrimary;
  }

  lemma CastReads(e: Scope, toks: seq<Tok>, p: nat, name: string, size: CastSize, q: nat, a: Node, n: nat)
    requires Stream(toks) && p + 2 < q < n < |toks| && toks[p] == LParen && toks[p + 1] == Ident(name)
    requires CastAhead(toks, p) && ParseCastSize(toks, p + 2) == Done(size, q)
    requires Reads(e, toks, 10, q, a, n)
    ensures Reads(e, toks, 10, p, Cast(ParseDt(name).value, size.len, size.scale, a), n)
  {
    hide ParseDt, ParseCastSize, ParseParen, ParseNull, ParseCall, ParseBinary, ParseTernary;
    assert ParseUnary(e, toks, p) == ParsePrimary(e, toks, p);
    assert ParsePrimary(e, toks, p) == ParseCast(e, toks, p);
    hide ParsePrimary;
  }

  lemma ParenReads(e: Scope, toks: seq<Tok>, p: nat, n: Node, q: nat)
    requires Stream(toks) && p + 1 < q < |toks| && toks[p] == LParen && !CastAhead(toks, p)
    requires Reads(e, toks, 0, p + 1, n, q) && toks[q] == RParen && q + 1 < |toks|
    ensures Reads(e, toks, 11, p, n, q + 1)
  {
    hide CastAhead, ParseCast, ParseNull, ParseCall, ParseBinary;
    assert ParsePrimary(e, toks, p) == ParseParen(e, toks, p);
    hide ParsePrimary, ParseTernary;
  }

  lemma CallReads(e: Scope, toks: seq<Tok>, p: nat, name: string, args: seq<Node>, q: nat)
    requires Stream(toks) && p + 2 <= q < |toks| - 1 && toks[p] == Ident(name) && toks[p + 1] == LParen
    requires LookupFn(name).Some? && |args| == Arity(LookupFn(name).value) && toks[q] == RParen
    requires if args == [] then q == p + 2 else toks[p + 2] != RParen && ParseArgs(e, toks, 0, p + 2) == Done(args, q)
    ensures Reads(e, toks, 11, p, Call(LookupFn(name).value, args), q + 1)
  {
    hide ParseCast, ParseTernary, ParseNull, ParseParen, Arity, LookupFn, Atom;
    assert ParsePrimary(e, toks, p) == ParseCall(e, toks, LookupFn(name).value, p);
    hide ParsePrimary, ParseArgs;
  }

  lemma CompleteChoice(e: Scope, toks: seq<Tok>, c: Tree, p: nat)
    requires Stream(toks) && WellFormed(e, c) && c.Choice?
    requires Holds(toks, p, Yield(c)) && p + |Yield(c)| < |toks| && Follows(0, toks[p + |Yield(c)|])
    ensures Reads(e, toks, 0, p, Meaning(e, c), p + |Yield(c)|)
    decreases c, 0
  {
    hide Reads, Stream, Holds, Level, IsDtName;
    var b, t, f := Yield(c.test), Yield(c.yes), Yield(c.no);
    var q := p + |b|;
    var m := q + 1 + |t|;
    HoldsAround(toks, p, b + [QMark] + t, Colon, f);
    HoldsAround(toks, p, b, QMark, t);
    Complete(e, toks, c.test, 1, p);
    Complete(e, toks, c.yes, 0, q + 1);
    Complete(e, toks, c.no, 0, m + 1);
    ChoiceReads(e, toks, p, Meaning(e, c.test), q, Meaning(e, c.yes), m, Meaning(e, c.no), p + |Yield(c)|);
  }

  lemma CompleteInfix(e: Scope, toks: seq<Tok>, c: Tree, p: nat)
    requires Stream(toks) && WellFormed(e, c) && c.Infixed?
    requires Holds(toks, p, Yield(c)) && p + |Yield(c)| < |toks| && Follows(Level(c.op), toks[p + |Yield(c)|])
    ensures Reads(e, toks, Level(c.op), p, Meaning(e, c), p + |Yield(c)|)
    decreases c, 0
  {
    hide Reads, Stream, Holds, Level, IsDtName;
    var q := p + |Yield(c.l)|;
    HoldsAround(toks, p, Yield(c.l), Infix(c.op), Yield(c.r));
    Complete(e, toks, c.l, Level(c.op), p);
    Complete(e, toks, c.r, Level(c.op) + 1, q + 1);
    InfixReads(e, toks, Level(c.op), p, Meaning(e, c.l), q, Meaning(e, c.r), p + |Yield(c)|);
  }

  lemma CompletePrefixed(e: Scope, toks: seq<Tok>, c: Tree, p: nat)
    requires Stream(toks) && WellFormed(e, c) && c.Prefixed?
    requires Holds(toks, p, Yield(c)) && p + |Yield(c)| < |toks| && Follows(10, toks[p + |Yield(c)|])
    ensures Reads(e, toks, 10, p, Meaning(e, c), p + |Yield(c)|)
    decreases c, 0
  {
    hide Reads, Stream, Holds, Level, IsDtName;
    HoldsFirst(toks, p, PrefixToken(c.uop), Yield(c.a));
    Complete(e, toks, c.a, 10, p + 1);
    PrefixReads(e, toks, p, c.uop, Meaning(e, c.a), p + |Yield(c)|);
  }

  lemma CompleteCast(e: Scope, toks: seq<Tok>, c: Tree, p: nat)
    requires Stream(toks) && WellFormed(e, c) && c.CastTo?
    requires Holds(toks, p, Yield(c)) && p + |Yield(c)| < |toks| && Follows(10, toks[p + |Yield(c)|])
    ensures Reads(e, toks, 10, p, Meaning(e, c), p + |Yield(c)|)
    decreases c, 0
  {
    hide *;
    CastParts(e, c);
    var size, q := SizeTokens(c.len) + SizeTokens(c.scale) + [RParen], p + 2;
    HoldsFirst(toks, p, LParen, [Ident(c.name)] + (size + Yield(c.a)));
    HoldsFirst(toks, p + 1, Ident(c.name), size + Yield(c.a));
    HoldsSplit(toks, q, size, Yield(c.a));
    CompleteSize(toks, c.len, c.scale, q);
    SizeStarts(c.len, c.scale);
    CastIsAhead(toks, p, c.name, size);
    Complete(e, toks, c.a, 10, q + |size|);
    CastReads(e, toks, p, c.name, CastSize(c.len, c.scale), q + |size|, Meaning(e, c.a), p + |Yield(c)|);
  }

  lemma CastParts(e: Scope, c: Tree)
    requires WellFormed(e, c) && c.CastTo?
    ensures ParseDt(c.name).Some? && (c.scale.Some? ==> c.len.Some?) && WellFormed(e, c.a) && LevelOf(c.a) >= 10
    ensures LevelOf(c) == 10 && Meaning(e, c) == Cast(ParseDt(c.name).value, c.len, c.scale, Meaning(e, c.a))
    ensures Yield(c) == [LParen] + ([Ident(c.name)] + (SizeTokens(c.len) + SizeTokens(c.scale) + [RParen] + Yield(c.a)))
    ensures |Yield(c.a)| > 0
  {
    YieldStarts(e, c.a);
    CastYield(c.name, c.len, c.scale, c.a);
    hide Yield, ParseDt, LookupFn, IsDtName, Level, Arity, Atom;
  }

  lemma SizeStarts(len: Option<int>, scale: Option<int>)
    requires scale.Some? ==> len.Some?
    ensures var s := SizeTokens(len) + SizeTokens(scale) + [RParen]; s != [] && (s[0] == Comma || s[0] == RParen)
  {}

  lemma CastIsAhead(toks: seq<Tok>, p: nat, name: string, size: seq<Tok>)
    requires Stream(toks) && p + 1 < |toks| && toks[p] == LParen && toks[p + 1] == Ident(name)
    requires ParseDt(name).Some? && size != [] && (size[0] == Comma || size[0] == RParen) && Holds(toks, p + 2, size)
    ensures CastAhead(toks, p)
  {
    hide ParseDt;
    HoldsAt(toks, p + 2, size, 0);
  }

  lemma CastYield(name: string, len: Option<int>, scale: Option<int>, a: Tree)
    ensures Yield(CastTo(name, len, scale, a))
         == [LParen] + ([Ident(name)] + (SizeTokens(len) + SizeTokens(scale) + [RParen] + Yield(a)))
  {
    hide SizeTokens;
  }

  lemma CompleteSize(toks: seq<Tok>, len: Option<int>, scale: Option<int>, p: nat)
    requires Stream(toks) && (scale.Some? ==> len.Some?)
    requires Holds(toks, p, SizeTokens(len) + SizeTokens(scale) + [RParen])
    ensures ParseCastSize(toks, p)
         == Done(CastSize(len, scale), p + |SizeTokens(len)| + |SizeTokens(scale)| + 1)
  {
    var y := SizeTokens(len) + SizeTokens(scale) + [RParen];
    HoldsAt(toks, p, y, 0);
    if len.Some? {
      HoldsAt(toks, p, y, 1);
      HoldsAt(toks, p, y, 2);
      if scale.Some? {
        HoldsAt(toks, p, y, 3);
        HoldsAt(toks, p, y, 4);
      }
    }
  }

  lemma CompletePrimary(e: Scope, toks: seq<Tok>, c: Tree, p: nat)
    requires Stream(toks) && WellFormed(e, c) && LevelOf(c) == 11
    requires Holds(toks, p, Yield(c)) && p + |Yield(c)| < |toks| && Follows(11, toks[p + |Yield(c)|])
    ensures Reads(e, toks, 11, p, Meaning(e, c), p + |Yield(c)|)
    decreases c, 0, 1
  {
    hide *;
    if c.Paren? {
      var inner := c.inner;
      ParenParts(e, inner);
      HoldsAround(toks, p, [LParen] + Yield(inner), RParen, []);
      HoldsFirst(toks, p, LParen, Yield(inner));
      assert [LParen] + Yield(inner) + [RParen] + [] == Yield(c);
      ParenIsNoCast(e, toks, inner, p);
      CanFollow(RParen);
      Complete(e, toks, inner, 0, p + 1);
      ParenReads(e, toks, p, Meaning(e, inner), p + 1 + |Yield(inner)|);
    } else {
      CompleteToken(e, toks, c, p);
    }
  }

  lemma ParenParts(e: Scope, inner: Tree)
    requires WellFormed(e, Paren(inner))
    ensures WellFormed(e, inner) && !SoleDtName(inner) && |Yield(inner)| > 0 && LevelOf(inner) >= 0
    ensures Meaning(e, Paren(inner)) == Meaning(e, inner)
    ensures Yield(Paren(inner)) == [LParen] + Yield(inner) + [RParen]
  {
    YieldStarts(e, inner);
    hide LookupFn, ParseDt, Arity, IsDtName, Level, Atom;
  }

  lemma CanFollow(t: Tok)
    requires t == RParen || t == Comma || t == Colon || t == Eof
    ensures Follows(0, t)
  {}

  lemma CompleteToken(e: Scope, toks: seq<Tok>, c: Tree, p: nat)
    requires Stream(toks) && WellFormed(e, c) && LevelOf(c) == 11 && !c.Paren?
    requires Holds(toks, p, Yield(c)) && p + |Yield(c)| < |toks| && Follows(11, toks[p + |Yield(c)|])
    ensures Reads(e, toks, 11, p, Meaning(e, c), p + |Yield(c)|)
    decreases c, 0, 0
  {
    hide Stream, Holds, ParseDt, LookupFn, Arity, Atom, Reads;
    match c
    case Leaf(t) =>
      HoldsAt(toks, p, [t], 0);
      LeafReads(e, toks, t, p);
    case NullOf(name, size) => CompleteNull(e, toks, name, size, p);
    case CallOf(name, args) => CompleteCall(e, toks, name, args, p);
  }

  lemma LeafReads(e: Scope, toks: seq<Tok>, t: Tok, p: nat)
    requires Stream(toks) && p < |toks| - 1 && toks[p] == t && Atom(e, t).Some? && toks[p + 1] != LParen
    ensures Reads(e, toks, 11, p, Atom(e, t).value, p + 1)
  {
    hide ParseCast, ParseCall, ParseNull, ParseParen, Column;
  }

  lemma CompleteNull(e: Scope, toks: seq<Tok>, name: string, size: Option<int>, p: nat)
    requires Stream(toks) && ParseDt(name).Some?
    requires Holds(toks, p, Yield(NullOf(name, size))) && p + |Yield(NullOf(name, size))| < |toks|
    ensures Reads(e, toks, 11, p, LitNull(ParseDt(name).value), p + |Yield(NullOf(name, size))|)
  {
    hide ParseDt, ParseCast, ParseCall, ParseParen, Atom;
    var y := Yield(NullOf(name, size));
    HoldsAt(toks, p, y, 0);
    HoldsAt(toks, p, y, 1);
    HoldsAt(toks, p, y, 2);
    HoldsAt(toks, p, y, 3);
    if size.Some? {
      HoldsAt(toks, p, y, 4);
      HoldsAt(toks, p, y, 5);
    }
  }

  lemma CompleteCall(e: Scope, toks: seq<Tok>, name: string, args: seq<Tree>, p: nat)
    requires Stream(toks) && WellFormed(e, CallOf(name, args))
    requires Holds(toks, p, Yield(CallOf(name, args))) && p + |Yield(CallOf(name, args))| < |toks|
    ensures Reads(e, toks, 11, p, Meaning(e, CallOf(name, args)), p + |Yield(CallOf(name, args))|)
    decreases args, 1
  {
    hide *;
    var y := YieldArgs(args);
    CallParts(e, name, args);
    HoldsFirst(toks, p, Ident(name), [LParen] + (y + [RParen]));
    HoldsFirst(toks, p + 1, LParen, y + [RParen]);
    HoldsAround(toks, p + 2, y, RParen, []);
    assert y + [RParen] + [] == y + [RParen];
    if args != [] {
      CompleteArgs(e, toks, args, 0, p + 2);
      HoldsAt(toks, p + 2, y, 0);
    }
    CallReads(e, toks, p, name, Meanings(e, args), p + 2 + |y|);
  }

  lemma CallParts(e: Scope, name: string, args: seq<Tree>)
    requires WellFormed(e, CallOf(name, args))
    ensures LookupFn(name).Some? && |args| == Arity(LookupFn(name).value) <= MAX_ARGS && AllWellFormed(e, args)
    ensures Meaning(e, CallOf(name, args)) == Call(LookupFn(name).value, Meanings(e, args))
    ensures Yield(CallOf(name, args)) == [Ident(name)] + ([LParen] + (YieldArgs(args) + [RParen]))
    ensures args == [] ==> YieldArgs(args) == [] && Meanings(e, args) == []
    ensures args != [] ==> YieldArgs(args) != [] && YieldArgs(args)[0] != RParen && Meanings(e, args) != []
  {
    hide LookupFn, ParseDt, Arity, IsDtName, Level, Atom;
    CallYield(name, args);
    ArityBound(LookupFn(name).value);
    if args == [] {
      assert YieldArgs(args) == [] && Meanings(e, args) == [];
    } else {
      ArgsParts(e, args);
    }
    hide Yield, YieldArgs, Meanings, AllWellFormed;
  }

  lemma CallYield(name: string, args: seq<Tree>)
    ensures Yield(CallOf(name, args)) == [Ident(name)] + ([LParen] + (YieldArgs(args) + [RParen]))
  {
    hide YieldArgs;
  }

  lemma ArityBound(fn: Fn)
    ensures Arity(fn) <= 3
  {}

  lemma {:induction false} CompleteArgs(e: Scope, toks: seq<Tok>, args: seq<Tree>, n: nat, p: nat)
    requires Stream(toks) && AllWellFormed(e, args) && args != [] && n + |args| <= MAX_ARGS
    requires Holds(toks, p, YieldArgs(args)) && p + |YieldArgs(args)| < |toks| && toks[p + |YieldArgs(args)|] == RParen
    ensures ParseArgs(e, toks, n, p) == Done(Meanings(e, args), p + |YieldArgs(args)|)
    decreases args, 0
  {
    hide *;
    var a, rest := args[0], args[1..];
    ArgsParts(e, args);
    CanFollow(RParen);
    CanFollow(Comma);
    if rest == [] {
      Complete(e, toks, a, 0, p);
      LastArg(e, toks, n, p, Meaning(e, a), p + |Yield(a)|);
    } else {
      HoldsAround(toks, p, Yield(a), Comma, YieldArgs(rest));
      Complete(e, toks, a, 0, p);
      CompleteArgs(e, toks, rest, n + 1, p + |Yield(a)| + 1);
      MoreArgs(e, toks, n, p, Meaning(e, a), p + |Yield(a)|, Meanings(e, rest), p + |YieldArgs(args)|);
    }
  }

  lemma ArgsParts(e: Scope, args: seq<Tree>)
    requires AllWellFormed(e, args) && args != []
    ensures WellFormed(e, args[0]) && AllWellFormed(e, args[1..]) && LevelOf(args[0]) >= 0 && |Yield(args[0])| > 0
    ensures YieldArgs(args) != [] && YieldArgs(args)[0] != RParen && Meanings(e, args) != []
    ensures |args| == 1 ==> Meanings(e, args) == [Meaning(e, args[0])] && YieldArgs(args) == Yield(args[0])
    ensures |args| > 1 ==> && Meanings(e, args) == [Meaning(e, args[0])] + Meanings(e, args[1..])
                           && YieldArgs(args) == Yield(args[0]) + [Comma] + YieldArgs(args[1..])
  {
    YieldStarts(e, args[0]);
    hide Yield, WellFormed, Meaning;
    assert |args| == 1 ==> Meanings(e, args[1..]) == [];
  }

  lemma LastArg(e: Scope, toks: seq<Tok>, n: nat, p: nat, a: Node, q: nat)
    requires Stream(toks) && p < q < |toks| && n < MAX_ARGS
    requires Reads(e, toks, 0, p, a, q) && toks[q] == RParen
    ensures ParseArgs(e, toks, n, p) == Done([a], q)
  {
    hide ParseBinary;
  }

  lemma MoreArgs(e: Scope, toks: seq<Tok>, n: nat, p: nat, a: Node, q: nat, rest: seq<Node>, m: nat)
    requires Stream(toks) && p < q < m < |toks| && n < MAX_ARGS
    requires Reads(e, toks, 0, p, a, q) && toks[q] == Comma && ParseArgs(e, toks, n + 1, q + 1) == Done(rest, m)
    ensures ParseArgs(e, toks, n, p) == Done([a] + rest, m)
  {
    hide ParseBinary;
  }

  // ---------------------------------------------------------------- soundness

  /** `c` derives the tokens from `p` to `q` at the level and means `n`. */
  predicate Derives(e: Scope, toks: seq<Tok>, level: nat, p: nat, c: Tree, n: Node, q: nat) {
    WellFormed(e, c) && LevelOf(c) >= level && q == p + |Yield(c)| && Holds(toks, p, Yield(c)) && Meaning(e, c) == n
  }

  // One production each, with the parts already derived.

  lemma DerivesChoice(e: Scope, toks: seq<Tok>, p: nat, b: Tree, q: nat, t: Tree, m: nat, f: Tree, n: nat)
    requires WellFormed(e, b) && WellFormed(e, t) && WellFormed(e, f) && q < |toks| && m < |toks|
    requires Derives(e, toks, 1, p, b, Meaning(e, b), q) && toks[q] == QMark
    requires Derives(e, toks, 0, q + 1, t, Meaning(e, t), m) && toks[m] == Colon
    requires Derives(e, toks, 0, m + 1, f, Meaning(e, f), n)
    ensures Derives(e, toks, 0, p, Choice(b, t, f), Ternary(Meaning(e, b), Meaning(e, t), Meaning(e, f)), n)
  {
    hide *;
    DerivesAll(e, toks, 1, p, b, Meaning(e, b), q);
    DerivesAll(e, toks, 0, q + 1, t, Meaning(e, t), m);
    DerivesAll(e, toks, 0, m + 1, f, Meaning(e, f), n);
    ChoiceYield(b, t, f);
    HoldsAround(toks, p, Yield(b), QMark, Yield(t));
    HoldsAround(toks, p, Yield(b) + [QMark] + Yield(t), Colon, Yield(f));
    ChoiceMeans(e, b, t, f);
    MakesDerivation(e, toks, 0, p, Choice(b, t, f), n);
  }

  lemma DerivesAll(e: Scope, toks: seq<Tok>, level: nat, p: nat, c: Tree, n: Node, q: nat)
    requires Derives(e, toks, level, p, c, n, q)
    ensures WellFormed(e, c) && LevelOf(c) >= level && Meaning(e, c) == n && Holds(toks, p, Yield(c)) && q == p + |Yield(c)|
  {}

  lemma MakesDerivation(e: Scope, toks: seq<Tok>, level: nat, p: nat, c: Tree, q: nat)
    requires WellFormed(e, c) && LevelOf(c) >= level && Holds(toks, p, Yield(c)) && q == p + |Yield(c)|
    ensures Derives(e, toks, level, p, c, Meaning(e, c), q)
  {
    hide WellFormed, LevelOf, Yield, Meaning, Holds;
  }

  lemma ChoiceYield(b: Tree, t: Tree, f: Tree)
    ensures Yield(Choice(b, t, f)) == Yield(b) + [QMark] + Yield(t) + [Colon] + Yield(f)
  {}

  lemma ChoiceMeans(e: Scope, b: Tree, t: Tree, f: Tree)
    requires WellFormed(e, b) && WellFormed(e, t) && WellFormed(e, f) && LevelOf(b) >= 1
    ensures WellFormed(e, Choice(b, t, f))
    ensures Meaning(e, Choice(b, t, f)) == Ternary(Meaning(e, b), Meaning(e, t), Meaning(e, f))
  {
    hide ParseDt, LookupFn, Atom, Level;
  }

  lemma DerivesInfix(e: Scope, toks: seq<Tok>, p: nat, l: Tree, q: nat, r: Tree, n: nat)
    requires WellFormed(e, l) && WellFormed(e, r) && q < |toks| && toks[q].Infix?
    requires Derives(e, toks, Level(toks[q].op), p, l, Meaning(e, l), q)
    requires Derives(e, toks, Level(toks[q].op) + 1, q + 1, r, Meaning(e, r), n)
    ensures Derives(e, toks, Level(toks[q].op), p, Infixed(toks[q].op, l, r),
                    Binop(toks[q].op, Meaning(e, l), Meaning(e, r)), n)
  {
    hide Holds, Level;
    HoldsAround(toks, p, Yield(l), toks[q], Yield(r));
  }

  lemma DerivesPrefixed(e: Scope, toks: seq<Tok>, p: nat, uop: UnaryOp, a: Tree, n: nat)
    requires WellFormed(e, a) && p < |toks| && Prefix(toks[p]) == Some(uop)
    requires Derives(e, toks, 10, p + 1, a, Meaning(e, a), n)
    ensures Derives(e, toks, 10, p, Prefixed(uop, a), Unary(uop, Meaning(e, a)), n)
  {
    hide Holds, Level;
    HoldsFirst(toks, p, toks[p], Yield(a));
  }

  lemma DerivesSize(toks: seq<Tok>, p: nat, size: CastSize, q: nat)
    requires Stream(toks) && p < |toks| && ParseCastSize(toks, p) == Done(size, q)
    ensures size.scale.Some? ==> size.len.Some?
    ensures Holds(toks, p, SizeTokens(size.len) + SizeTokens(size.scale) + [RParen])
    ensures q == p + |SizeTokens(size.len)| + |SizeTokens(size.scale)| + 1
  {
    SizeYield(size);
    if toks[p] == RParen {
      assert toks[p..p + 1] == [RParen];
    } else if toks[p + 2] == RParen {
      assert toks[p..p + 3] == [Comma, toks[p + 1], RParen];
    } else {
      assert toks[p..p + 5] == [Comma, toks[p + 1], Comma, toks[p + 3], RParen];
    }
  }

  lemma SizeYield(size: CastSize)
    requires size.scale.Some? ==> size.len.Some?
    ensures SizeTokens(size.len) + SizeTokens(size.scale) + [RParen]
         == if size.len.None? then [RParen]
            else if size.scale.None? then [Comma, IntTok(size.len.value), RParen]
            else [Comma, IntTok(size.len.value), Comma, IntTok(size.scale.value), RParen]
  {}

  lemma DerivesCast(e: Scope, toks: seq<Tok>, p: nat, size: CastSize, q: nat, a: Tree, n: nat)
    requires Stream(toks) && p < |toks| && toks[p] == LParen && CastAhead(toks, p)
    requires ParseCastSize(toks, p + 2) == Done(size, q)
    requires WellFormed(e, a) && Derives(e, toks, 10, q, a, Meaning(e, a), n)
    ensures var c := CastTo(toks[p + 1].name, size.len, size.scale, a);
            Derives(e, toks, 10, p, c, Cast(ParseDt(toks[p + 1].name).value, size.len, size.scale, Meaning(e, a)), n)
  {
    hide *;
    DerivesAll(e, toks, 10, q, a, Meaning(e, a), n);
    DerivesSize(toks, p + 2, size, q);
    CastAheadNames(toks, p);
    var t := toks[p + 1];
    var c := CastTo(t.name, size.len, size.scale, a);
    var rest := SizeTokens(size.len) + SizeTokens(size.scale) + [RParen];
    CastMeans(e, t.name, size.len, size.scale, a);
    HoldsSplit(toks, p + 2, rest, Yield(a));
    HoldsFirst(toks, p + 1, t, rest + Yield(a));
    HoldsFirst(toks, p, LParen, [t] + (rest + Yield(a)));
    MakesDerivation(e, toks, 10, p, c, n);
  }

  lemma CastAheadNames(toks: seq<Tok>, p: nat)
    requires Stream(toks) && p < |toks| && toks[p] == LParen && CastAhead(toks, p)
    ensures p + 2 < |toks| && toks[p + 1].Ident? && ParseDt(toks[p + 1].name).Some?
  {
    hide ParseDt;
  }

  lemma CastMeans(e: Scope, name: string, len: Option<int>, scale: Option<int>, a: Tree)
    requires WellFormed(e, a) && LevelOf(a) >= 10 && ParseDt(name).Some? && (scale.Some? ==> len.Some?)
    ensures WellFormed(e, CastTo(name, len, scale, a))
    ensures var c := CastTo(name, len, scale, a);
            && LevelOf(c) == 10 && Meaning(e, c) == Cast(ParseDt(name).value, len, scale, Meaning(e, a))
            && Yield(c) == [LParen] + ([Ident(name)] + (SizeTokens(len) + SizeTokens(scale) + [RParen] + Yield(a)))
  {
    CastYield(name, len, scale, a);
    hide ParseDt, LookupFn, Atom, Level, Yield;
  }

  lemma DerivesParen(e: Scope, toks: seq<Tok>, p: nat, c: Tree, q: nat)
    requires Stream(toks) && p < |toks| && q < |toks| && toks[p] == LParen && !CastAhead(toks, p) && toks[q] == RParen
    requires WellFormed(e, c) && Derives(e, toks, 0, p + 1, c, Meaning(e, c), q)
    ensures Derives(e, toks, 11, p, Paren(c), Meaning(e, c), q + 1)
  {
    HoldsFirst(toks, p, LParen, Yield(c));
    HoldsAround(toks, p, [LParen] + Yield(c), RParen, []);
    assert [LParen] + Yield(c) + [RParen] + [] == Yield(Paren(c));
    if c.Leaf? { HoldsAt(toks, p + 1, Yield(c), 0); }
    hide Holds, ParseDt;
  }

  lemma DerivesNull(e: Scope, toks: seq<Tok>, p: nat) returns (c: Tree)
    requires Stream(toks) && p < |toks| && toks[p] == KwNull && ParseNull(toks, p).Done?
    ensures Derives(e, toks, 11, p, c, ParseNull(toks, p).value, ParseNull(toks, p).pos)
  {
    hide ParseDt;
    var name := toks[p + 2].name;
    if toks[p + 3] == Comma {
      c := NullOf(name, Some(toks[p + 4].i));
      NullYield(name, toks[p + 4].i);
      assert toks[p..p + 6] == [KwNull, LParen, Ident(name), Comma, toks[p + 4], RParen];
    } else {
      c := NullOf(name, None);
      NullYield(name, 0);
      assert toks[p..p + 4] == [KwNull, LParen, Ident(name), RParen];
    }
  }

  lemma NullYield(name: string, size: int)
    ensures Yield(NullOf(name, None)) == [KwNull, LParen, Ident(name), RParen]
    ensures Yield(NullOf(name, Some(size))) == [KwNull, LParen, Ident(name), Comma, IntTok(size), RParen]
  {
    assert [KwNull, LParen, Ident(name)] + [] + [RParen] == [KwNull, LParen, Ident(name), RParen];
    assert [KwNull, LParen, Ident(name)] + [Comma, IntTok(size)] + [RParen]
        == [KwNull, LParen, Ident(name), Comma, IntTok(size), RParen];
  }

  lemma DerivesLeaf(e: Scope, toks: seq<Tok>, p: nat)
    requires p < |toks| && Atom(e, toks[p]).Some?
    ensures Derives(e, toks, 11, p, Leaf(toks[p]), Atom(e, toks[p]).value, p + 1)
  {
    hide Atom;
    assert toks[p..p + 1] == [toks[p]];
  }

  lemma DerivesCall(e: Scope, toks: seq<Tok>, p: nat, args: seq<Tree>, q: nat)
    requires p + 2 <= q < |toks| && toks[p].Ident? && toks[p + 1] == LParen && toks[q] == RParen
    requires LookupFn(toks[p].name).Some? && |args| == Arity(LookupFn(toks[p].name).value)
    requires AllWellFormed(e, args) && q == p + 2 + |YieldArgs(args)| && Holds(toks, p + 2, YieldArgs(args))
    ensures Derives(e, toks, 11, p, CallOf(toks[p].name, args), Call(LookupFn(toks[p].name).value, Meanings(e, args)), q + 1)
  {
    hide Holds, LookupFn, Arity, AllWellFormed, Meanings;
    var y, c := YieldArgs(args), CallOf(toks[p].name, args);
    HoldsAround(toks, p + 2, y, RParen, []);
    assert y + [RParen] + [] == y + [RParen];
    HoldsFirst(toks, p + 1, LParen, y + [RParen]);
    HoldsFirst(toks, p, toks[p], [LParen] + (y + [RParen]));
    assert Yield(c) == [toks[p]] + ([LParen] + (y + [RParen]));
    HoldsEmpty(toks, q + 1);
  }

  lemma HoldsEmpty(toks: seq<Tok>, p: nat)
    ensures Holds(toks, p, []) <==> p <= |toks|
  {}

  lemma {:induction false} SoundTernary(e: Scope, toks: seq<Tok>, p: nat) returns (c: Tree)
    requires Stream(toks) && p < |toks| && ParseTernary(e, toks, p).Done?
    ensures Derives(e, toks, 0, p, c, ParseTernary(e, toks, p).value, ParseTernary(e, toks, p).pos)
    decreases |toks| - p, 14
  {
    hide Derives, ParseUnary, ParsePrimary, ParseTail;
    var b := SoundBinary(e, toks, 1, p);
    var q := ParseBinary(e, toks, 1, p).pos;
    DerivesParts(e, toks, 1, p, b, ParseBinary(e, toks, 1, p).value, q);
    if toks[q] != QMark {
      c := b;
    } else {
      var m := ParseTernary(e, toks, q + 1).pos;
      var t := SoundTernary(e, toks, q + 1);
      DerivesParts(e, toks, 0, q + 1, t, ParseTernary(e, toks, q + 1).value, m);
      var f := SoundTernary(e, toks, m + 1);
      DerivesParts(e, toks, 0, m + 1, f, ParseTernary(e, toks, m + 1).value, ParseTernary(e, toks, m + 1).pos);
      hide ParseBinary;
      c := Choice(b, t, f);
      DerivesChoice(e, toks, p, b, q, t, m, f, ParseTernary(e, toks, m + 1).pos);
    }
  }

  /** What Derives gives where its definition is out of sight, with a level to spare. */
  lemma DerivesParts(e: Scope, toks: seq<Tok>, level: nat, p: nat, c: Tree, n: Node, q: nat)
    requires Derives(e, toks, level, p, c, n, q)
    ensures WellFormed(e, c) && Meaning(e, c) == n
    ensures forall l: nat :: l <= level ==> Derives(e, toks, l, p, c, n, q)
  {}

  lemma {:induction false} SoundBinary(e: Scope, toks: seq<Tok>, level: nat, p: nat) returns (c: Tree)
    requires Stream(toks) && p < |toks| && 1 <= level <= 10 && ParseBinary(e, toks, level, p).Done?
    ensures Derives(e, toks, level, p, c, ParseBinary(e, toks, level, p).value, ParseBinary(e, toks, level, p).pos)
    decreases |toks| - p, 13 - level
  {
    hide Derives, ParsePrimary, ParseTernary;
    if level == 10 {
      c := SoundUnary(e, toks, p);
    } else {
      var a := SoundBinary(e, toks, level + 1, p);
      var first := ParseBinary(e, toks, level + 1, p);
      DerivesParts(e, toks, level + 1, p, a, first.value, first.pos);
      c := SoundTail(e, toks, level, p, a, first.pos);
    }
  }

  lemma {:induction false} SoundTail(e: Scope, toks: seq<Tok>, level: nat, p0: nat, a: Tree, p: nat) returns (c: Tree)
    requires Stream(toks) && p < |toks| && 1 <= level <= 9 && WellFormed(e, a)
    requires Derives(e, toks, level, p0, a, Meaning(e, a), p)
    requires ParseTail(e, toks, level, Meaning(e, a), p).Done?
    ensures var r := ParseTail(e, toks, level, Meaning(e, a), p); Derives(e, toks, level, p0, c, r.value, r.pos)
    decreases |toks| - p, 0
  {
    hide Derives, ParsePrimary, ParseTernary, ParseUnary, ParseBinary;
    if !IsInfix(toks[p], level) {
      c := a;
    } else {
      var b := SoundBinary(e, toks, level + 1, p + 1);
      var r := ParseBinary(e, toks, level + 1, p + 1);
      DerivesParts(e, toks, level + 1, p + 1, b, r.value, r.pos);
      var ab := Infixed(toks[p].op, a, b);
      DerivesInfix(e, toks, p0, a, p, b, r.pos);
      DerivesParts(e, toks, level, p0, ab, Binop(toks[p].op, Meaning(e, a), r.value), r.pos);
      c := SoundTail(e, toks, level, p0, ab, r.pos);
    }
  }

  lemma {:induction false} SoundUnary(e: Scope, toks: seq<Tok>, p: nat) returns (c: Tree)
    requires Stream(toks) && p < |toks| && ParseUnary(e, toks, p).Done?
    ensures Derives(e, toks, 10, p, c, ParseUnary(e, toks, p).value, ParseUnary(e, toks, p).pos)
    decreases |toks| - p, 2
  {
    hide Derives, ParsePrimary, ParseTernary, ParseBinary;
    match Prefix(toks[p]) {
      case None => c := SoundPrimary(e, toks, p);
      case Some(op) =>
        var a := SoundUnary(e, toks, p + 1);
        var r := ParseUnary(e, toks, p + 1);
        DerivesParts(e, toks, 10, p + 1, a, r.value, r.pos);
        DerivesPrefixed(e, toks, p, op, a, r.pos);
        c := Prefixed(op, a);
    }
  }

  lemma {:induction false} SoundPrimary(e: Scope, toks: seq<Tok>, p: nat) returns (c: Tree)
    requires Stream(toks) && p < |toks| && ParsePrimary(e, toks, p).Done?
    ensures Derives(e, toks, 10, p, c, ParsePrimary(e, toks, p).value, ParsePrimary(e, toks, p).pos)
    decreases |toks| - p, 1
  {
    var r := ParsePrimary(e, toks, p);
    hide Derives, ParseTernary, ParseUnary, Atom, LookupFn, CastAhead, ParseNull;
    if toks[p] == KwNull {
      c := DerivesNull(e, toks, p);
      DerivesParts(e, toks, 11, p, c, r.value, r.pos);
    } else if toks[p] == LParen && CastAhead(toks, p) {
      hide ParseCall, ParseParen;
      c := SoundCast(e, toks, p);
    } else if toks[p] == LParen {
      c := SoundParen(e, toks, p);
      DerivesParts(e, toks, 11, p, c, r.value, r.pos);
    } else if toks[p].Ident? && toks[p + 1] == LParen {
      c := SoundCall(e, toks, p);
      DerivesParts(e, toks, 11, p, c, r.value, r.pos);
    } else {
      c := Leaf(toks[p]);
      DerivesLeaf(e, toks, p);
      DerivesParts(e, toks, 11, p, c, r.value, r.pos);
    }
  }

  lemma {:induction false} SoundCast(e: Scope, toks: seq<Tok>, p: nat) returns (c: Tree)
    requires Stream(toks) && p < |toks| && toks[p] == LParen && CastAhead(toks, p) && ParseCast(e, toks, p).Done?
    ensures Derives(e, toks, 10, p, c, ParseCast(e, toks, p).value, ParseCast(e, toks, p).pos)
    decreases |toks| - p, 0
  {
    hide Derives, ParsePrimary, ParseTernary, ParseBinary, ParseDt, ParseCastSize;
    var size := ParseCastSize(toks, p + 2);
    var a := SoundUnary(e, toks, size.pos);
    var r := ParseUnary(e, toks, size.pos);
    DerivesParts(e, toks, 10, size.pos, a, r.value, r.pos);
    hide ParseUnary;
    DerivesCast(e, toks, p, size.value, size.pos, a, r.pos);
    c := CastTo(toks[p + 1].name, size.value.len, size.value.scale, a);
  }

  lemma {:induction false} SoundParen(e: Scope, toks: seq<Tok>, p: nat) returns (c: Tree)
    requires Stream(toks) && p < |toks| && toks[p] == LParen && !CastAhead(toks, p) && ParseParen(e, toks, p).Done?
    ensures Derives(e, toks, 11, p, c, ParseParen(e, toks, p).value, ParseParen(e, toks, p).pos)
    decreases |toks| - p, 0
  {
    hide Derives, ParsePrimary, ParseBinary, CastAhead;
    var inner := SoundTernary(e, toks, p + 1);
    var r := ParseTernary(e, toks, p + 1);
    DerivesParts(e, toks, 0, p + 1, inner, r.value, r.pos);
    hide ParseTernary;
    DerivesParen(e, toks, p, inner, r.pos);
    c := Paren(inner);
  }

  lemma {:induction false} SoundCall(e: Scope, toks: seq<Tok>, p: nat) returns (c: Tree)
    requires Stream(toks) && p < |toks| && toks[p].Ident? && toks[p + 1] == LParen && LookupFn(toks[p].name).Some?
    requires ParseCall(e, toks, LookupFn(toks[p].name).value, p).Done?
    ensures var r := ParseCall(e, toks, LookupFn(toks[p].name).value, p); Derives(e, toks, 11, p, c, r.value, r.pos)
    decreases |toks| - p, 0
  {
    hide Derives, ParsePrimary, ParseBinary, ParseTernary, LookupFn, Arity;
    var args: seq<Tree> := [];
    var q := p + 2;
    if toks[p + 2] != RParen {
      args := SoundArgs(e, toks, 0, p + 2);
      q := ParseArgs(e, toks, 0, p + 2).pos;
    } else {
      HoldsEmpty(toks, p + 2);
    }
    hide ParseArgs, Holds;
    DerivesCall(e, toks, p, args, q);
    c := CallOf(toks[p].name, args);
  }

  lemma {:induction false} SoundArgs(e: Scope, toks: seq<Tok>, n: nat, p: nat) returns (args: seq<Tree>)
    requires Stream(toks) && p < |toks| && ParseArgs(e, toks, n, p).Done?
    ensures AllWellFormed(e, args) && Meanings(e, args) == ParseArgs(e, toks, n, p).value
    ensures Holds(toks, p, YieldArgs(args)) && ParseArgs(e, toks, n, p).pos == p + |YieldArgs(args)|
    decreases |toks| - p, 15
  {
    hide *;
    ArgsUnfold(e, toks, n, p);
    var a := SoundTernary(e, toks, p);
    var r := ParseTernary(e, toks, p);
    DerivesAll(e, toks, 0, p, a, r.value, r.pos);
    if toks[r.pos] != Comma {
      args := [a];
      ArgsOne(e, a);
    } else {
      var rest := SoundArgs(e, toks, n + 1, r.pos + 1);
      args := [a] + rest;
      ArgsCons(e, a, rest);
      HoldsAround(toks, p, Yield(a), Comma, YieldArgs(rest));
    }
  }

  lemma ArgsUnfold(e: Scope, toks: seq<Tok>, n: nat, p: nat)
    requires Stream(toks) && p < |toks| && ParseArgs(e, toks, n, p).Done?
    ensures ParseTernary(e, toks, p).Done?
    ensures var r := ParseTernary(e, toks, p);
            if toks[r.pos] != Comma then ParseArgs(e, toks, n, p) == Done([r.value], r.pos)
            else
              var rest := ParseArgs(e, toks, n + 1, r.pos + 1);
              rest.Done? && rest.value != [] && ParseArgs(e, toks, n, p) == Done([r.value] + rest.value, rest.pos)
  {
    hide ParseTernary;
  }

  lemma ArgsOne(e: Scope, a: Tree)
    requires WellFormed(e, a)
    ensures AllWellFormed(e, [a]) && Meanings(e, [a]) == [Meaning(e, a)] && YieldArgs([a]) == Yield(a)
  {
    assert [a][1..] == [];
  }

  lemma ArgsCons(e: Scope, a: Tree, rest: seq<Tree>)
    requires WellFormed(e, a) && AllWellFormed(e, rest) && Meanings(e, rest) != []
    ensures AllWellFormed(e, [a] + rest) && Meanings(e, [a] + rest) == [Meaning(e, a)] + Meanings(e, rest)
    ensures YieldArgs([a] + rest) == Yield(a) + [Comma] + YieldArgs(rest)
  {
    assert ([a] + rest)[1..] == rest;
  }

  // ---------------------------------------------------------------- the parser is the grammar

  lemma {:induction false} NoEndInside(e: Scope, c: Tree)
    requires WellFormed(e, c)
    ensures Eof !in Yield(c)
    decreases c
  {
    hide ParseDt, LookupFn, IsDtName, Level, Arity;
    match c
    case Leaf(_) =>
    case NullOf(_, _) =>
    case CallOf(_, args) => NoEndInArgs(e, args);
    case Paren(inner) => NoEndInside(e, inner);
    case Prefixed(_, a) => NoEndInside(e, a);
    case CastTo(_, _, _, a) => NoEndInside(e, a);
    case Infixed(_, l, r) =>
      NoEndInside(e, l);
      NoEndInside(e, r);
    case Choice(b, t, f) =>
      NoEndInside(e, b);
      NoEndInside(e, t);
      NoEndInside(e, f);
  }

  lemma {:induction false} NoEndInArgs(e: Scope, args: seq<Tree>)
    requires AllWellFormed(e, args)
    ensures Eof !in YieldArgs(args)
    decreases args
  {
    if args != [] {
      NoEndInside(e, args[0]);
      NoEndInArgs(e, args[1..]);
    }
  }

  /** Every well-formed tree's tokens parse, and to the tree's meaning. */
  lemma EveryTreeParses(e: Scope, c: Tree)
    requires WellFormed(e, c)
    ensures Stream(Yield(c) + [Eof]) && Parse(e, Yield(c) + [Eof]) == Some(Meaning(e, c))
  {
    hide Yield, Meaning, WellFormed, ParseTernary;
    var toks, n := Yield(c) + [Eof], |Yield(c)|;
    NoEndInside(e, c);
    YieldStarts(e, c);
    EndsOnce(Yield(c));
    assert toks[..n] == Yield(c) && toks[n] == Eof;
    hide Stream;
    Complete(e, toks, c, 0, 0);
  }

  lemma EndsOnce(y: seq<Tok>)
    requires Eof !in y
    ensures Stream(y + [Eof])
  {
    forall i | 0 <= i < |y| ensures (y + [Eof])[i] != Eof { assert y[i] in y; }
  }

  /** Whatever parses is the yield of a well-formed tree that means the result. */
  lemma OnlyTreesParse(e: Scope, toks: seq<Tok>) returns (c: Tree)
    requires Stream(toks) && Parse(e, toks).Some?
    ensures WellFormed(e, c) && toks == Yield(c) + [Eof] && Meaning(e, c) == Parse(e, toks).value
  {
    c := SoundTernary(e, toks, 0);
    hide ParseTernary, Yield, Meaning, WellFormed;
    assert toks == toks[..|toks| - 1] + [Eof];
  }

  /** The grammar is unambiguous: trees with the same tokens mean the same. */
  lemma Unambiguous(e: Scope, c: Tree, d: Tree)
    requires WellFormed(e, c) && WellFormed(e, d) && Yield(c) == Yield(d)
    ensures Meaning(e, c) == Meaning(e, d)
  {
    hide Yield, Meaning, WellFormed, Parse;
    EveryTreeParses(e, c);
    EveryTreeParses(e, d);
  }

  /** A token array parses exactly when it is the yield of a well-formed tree. */
  lemma ParserIsGrammar(e: Scope, toks: seq<Tok>, n: Node)
    requires Stream(toks)
    ensures Parse(e, toks) == Some(n)
       <==> exists c :: WellFormed(e, c) && toks == Yield(c) + [Eof] && Meaning(e, c) == n
  {
    hide Yield, Meaning, WellFormed, Parse;
    if Parse(e, toks) == Some(n) {
      var c := OnlyTreesParse(e, toks);
    }
    forall c | WellFormed(e, c) && toks == Yield(c) + [Eof]
      ensures Parse(e, toks) == Some(Meaning(e, c))
    {
      EveryTreeParses(e, c);
    }
  }

  /** A column whose name is a type name cannot stand alone in parentheses: alone it is refused
      for want of an operand, and with a minus behind it the minus becomes that operand's
      sign. */
  lemma SoleTypeNameIsCast(e: Scope, name: string, i: int)
    requires ParseDt(name).Some?
    ensures Stream([LParen, Ident(name), RParen, Eof]) && Parse(e, [LParen, Ident(name), RParen, Eof]) == None
    ensures var toks := [LParen, Ident(name), RParen, Infix(Sub), IntTok(i), Eof];
            && Stream(toks)
            && Parse(e, toks) == Some(Cast(ParseDt(name).value, None, None, Unary(Neg, LitInt(i))))
  {
    hide ParseDt, LookupFn;
    var alone := [LParen, Ident(name), RParen, Eof];
    CastRefused(e, alone, name);
    var a := Prefixed(Neg, Leaf(IntTok(i)));
    var c := CastTo(name, None, None, a);
    assert WellFormed(e, Leaf(IntTok(i))) && Meaning(e, Leaf(IntTok(i))) == LitInt(i);
    assert WellFormed(e, a) && LevelOf(a) == 10 && Meaning(e, a) == Unary(Neg, LitInt(i));
    assert WellFormed(e, c) && Meaning(e, c) == Cast(ParseDt(name).value, None, None, Unary(Neg, LitInt(i)));
    assert Yield(a) == [Infix(Sub)] + [IntTok(i)];
    assert Yield(c) == [LParen, Ident(name)] + [] + [] + [RParen] + Yield(a);
    assert Yield(c) + [Eof] == [LParen, Ident(name), RParen, Infix(Sub), IntTok(i), Eof];
    EveryTreeParses(e, c);
  }

  /** A cast with nothing behind it. */
  lemma CastRefused(e: Scope, toks: seq<Tok>, name: string)
    requires toks == [LParen, Ident(name), RParen, Eof] && ParseDt(name).Some?
    ensures Stream(toks) && Parse(e, toks) == None
  {
    hide ParseDt, LookupFn;
    assert CastAhead(toks, 0);
    assert ParseCastSize(toks, 2) == Done(CastSize(None, None), 3);
    NothingAtEnd(e, toks, 3);
    assert ParseCast(e, toks, 0) == Fail;
    assert ParsePrimary(e, toks, 0) == Fail;
    assert Prefix(toks[0]) == None;
    BinaryFails(e, toks, 1);
  }

  lemma NothingAtEnd(e: Scope, toks: seq<Tok>, p: nat)
    requires Stream(toks) && p < |toks| && toks[p] == Eof
    ensures ParseUnary(e, toks, p) == Fail
  {
    assert Prefix(toks[p]) == None && ParsePrimary(e, toks, p) == Fail;
  }

  lemma {:induction false} BinaryFails(e: Scope, toks: seq<Tok>, level: nat)
    requires Stream(toks) && 1 <= level <= 10 && Prefix(toks[0]) == None && ParsePrimary(e, toks, 0) == Fail
    ensures ParseBinary(e, toks, level, 0) == Fail
    decreases 10 - level
  {
    if level < 10 { BinaryFails(e, toks, level + 1); }
    hide ParsePrimary, Prefix;
  }
}
