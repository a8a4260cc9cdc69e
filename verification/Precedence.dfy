/**
 The operator precedences of the expression language by name: which of two neighbouring
 operators takes the operand between them, written out as nine groups of operators and
 independent of how the parser numbers its levels. Then the two name tables and the escapes,
 name by name.
 */
module Precedence {
  import opened Text
  import opened Syntax
  import opened Lexer
  import opened Parser
  import opened Grammar
  import opened GrammarTheorems
  import opened Spelling
  import opened RoundTrip

  /** Loosest first; the operators of one group bind alike and group to the left. */
  const GROUPS: seq<set<BinOp>> := [
    {Or}, {And}, {BitOr}, {BitXor}, {BitAnd}, {Equal, NotEqual}, {Less, LessEq, Greater, GreaterEq},
    {Add, Sub}, {Mul, Div, Mod}]

  lemma GroupIsLevel(op: BinOp, i: nat)
    requires i < 9
    ensures op in GROUPS[i] <==> Level(op) == i + 1
  {}

  /** What neither a binary operator nor a choice has at its top: a name, literal, call,
      parenthesis, cast or prefix operator. */
  predicate Operand(e: Scope, c: Tree) { WellFormed(e, c) && !c.Infixed? && !c.Choice? }

  lemma OperandBinds(e: Scope, c: Tree)
    requires Operand(e, c)
    ensures WellFormed(e, c) && LevelOf(c) >= 10
  {
    hide WellFormed;
  }

  /** Two operators between three operands: the tighter one takes the middle operand, and of
      two equally tight ones the left one. */
  lemma TighterTakesMiddle(e: Scope, a: Tree, op1: BinOp, b: Tree, op2: BinOp, c: Tree, i: nat, j: nat)
    requires Operand(e, a) && Operand(e, b) && Operand(e, c)
    requires i < 9 && j < 9 && op1 in GROUPS[i] && op2 in GROUPS[j]
    ensures var toks := Yield(a) + [Infix(op1)] + Yield(b) + [Infix(op2)] + Yield(c) + [Eof];
            var x, y, z := Meaning(e, a), Meaning(e, b), Meaning(e, c);
            Stream(toks) && Parse(e, toks) == Some(
              if i >= j then Binop(op2, Binop(op1, x, y), z) else Binop(op1, x, Binop(op2, y, z)))
  {
    hide *;
    GroupIsLevel(op1, i);
    GroupIsLevel(op2, j);
    OperandBinds(e, a);
    OperandBinds(e, b);
    OperandBinds(e, c);
    if i >= j {
      InfixTree(e, op1, a, b);
      InfixTree(e, op2, Infixed(op1, a, b), c);
      EveryTreeParses(e, Infixed(op2, Infixed(op1, a, b), c));
    } else {
      InfixTree(e, op2, b, c);
      InfixTree(e, op1, a, Infixed(op2, b, c));
      Regroup(Yield(a) + [Infix(op1)], Yield(b), [Infix(op2)], Yield(c), [Eof]);
      EveryTreeParses(e, Infixed(op1, a, Infixed(op2, b, c)));
    }
  }

  lemma Regroup(a: seq<Tok>, b: seq<Tok>, c: seq<Tok>, d: seq<Tok>, f: seq<Tok>)
    ensures a + (b + c + d) + f == a + b + c + d + f
  {}

  lemma InfixTree(e: Scope, op: BinOp, l: Tree, r: Tree)
    requires WellFormed(e, l) && WellFormed(e, r) && LevelOf(l) >= Level(op) && LevelOf(r) > Level(op)
    ensures var c := Infixed(op, l, r);
            && WellFormed(e, c) && LevelOf(c) == Level(op) && Meaning(e, c) == Binop(op, Meaning(e, l), Meaning(e, r))
            && Yield(c) == Yield(l) + [Infix(op)] + Yield(r)
  {
    hide Level, ParseDt, LookupFn, Atom, Arity;
  }

  /** The same for single tokens. */
  lemma TighterTakesMiddleToken(e: Scope, a: Tok, op1: BinOp, b: Tok, op2: BinOp, c: Tok, i: nat, j: nat)
    requires Atom(e, a).Some? && Atom(e, b).Some? && Atom(e, c).Some?
    requires i < 9 && j < 9 && op1 in GROUPS[i] && op2 in GROUPS[j]
    ensures var toks := [a, Infix(op1), b, Infix(op2), c, Eof];
            var x, y, z := Atom(e, a).value, Atom(e, b).value, Atom(e, c).value;
            Stream(toks) && Parse(e, toks) == Some(
              if i >= j then Binop(op2, Binop(op1, x, y), z) else Binop(op1, x, Binop(op2, y, z)))
  {
    LeafMeans(e, a);
    LeafMeans(e, b);
    LeafMeans(e, c);
    hide *;
    TighterTakesMiddle(e, Leaf(a), op1, Leaf(b), op2, Leaf(c), i, j);
    assert [a] + [Infix(op1)] + [b] + [Infix(op2)] + [c] + [Eof] == [a, Infix(op1), b, Infix(op2), c, Eof];
  }

  lemma LeafMeans(e: Scope, t: Tok)
    requires Atom(e, t).Some?
    ensures Operand(e, Leaf(t)) && Meaning(e, Leaf(t)) == Atom(e, t).value && Yield(Leaf(t)) == [t]
  {
    hide Atom;
  }

  /** A prefix operator or a cast takes its operand before any binary operator on either side
      does. */
  lemma PrefixBindsTightest(e: Scope, uop: UnaryOp, name: string, a: Tree, op: BinOp, b: Tree)
    requires Operand(e, a) && Operand(e, b) && ParseDt(name).Some?
    ensures var toks := [PrefixToken(uop)] + Yield(a) + [Infix(op)] + Yield(b) + [Eof];
            Stream(toks) && Parse(e, toks) == Some(Binop(op, Unary(uop, Meaning(e, a)), Meaning(e, b)))
    ensures var toks := Yield(b) + [Infix(op)] + ([PrefixToken(uop)] + Yield(a)) + [Eof];
            Stream(toks) && Parse(e, toks) == Some(Binop(op, Meaning(e, b), Unary(uop, Meaning(e, a))))
    ensures var toks := [LParen, Ident(name), RParen] + Yield(a) + [Infix(op)] + Yield(b) + [Eof];
            Stream(toks) && Parse(e, toks) == Some(
              Binop(op, Cast(ParseDt(name).value, None, None, Meaning(e, a)), Meaning(e, b)))
  {
    hide *;
    OperandBinds(e, a);
    OperandBinds(e, b);
    PrefixTree(e, uop, a);
    CastTree(e, name, a);
    LevelBelowOperands(op);
    InfixTree(e, op, Prefixed(uop, a), b);
    InfixTree(e, op, b, Prefixed(uop, a));
    InfixTree(e, op, CastTo(name, None, None, a), b);
    EveryTreeParses(e, Infixed(op, Prefixed(uop, a), b));
    EveryTreeParses(e, Infixed(op, b, Prefixed(uop, a)));
    EveryTreeParses(e, Infixed(op, CastTo(name, None, None, a), b));
  }

  lemma LevelBelowOperands(op: BinOp)
    ensures 1 <= Level(op) <= 9
  {}

  lemma PrefixTree(e: Scope, uop: UnaryOp, a: Tree)
    requires WellFormed(e, a) && LevelOf(a) >= 10
    ensures var c := Prefixed(uop, a);
            && WellFormed(e, c) && LevelOf(c) == 10 && Meaning(e, c) == Unary(uop, Meaning(e, a))
            && Yield(c) == [PrefixToken(uop)] + Yield(a)
  {
    hide Level, ParseDt, LookupFn, Atom, Arity, PrefixToken;
  }

  lemma CastTree(e: Scope, name: string, a: Tree)
    requires WellFormed(e, a) && LevelOf(a) >= 10 && ParseDt(name).Some?
    ensures var c := CastTo(name, None, None, a);
            && WellFormed(e, c) && LevelOf(c) == 10 && Meaning(e, c) == Cast(ParseDt(name).value, None, None, Meaning(e, a))
            && Yield(c) == [LParen, Ident(name), RParen] + Yield(a)
  {
    hide Level, ParseDt, LookupFn, Atom, Arity;
    assert [LParen, Ident(name)] + [] + [] + [RParen] == [LParen, Ident(name), RParen];
  }

  /** A choice takes what the binary operators around it have put together. */
  lemma ChoiceBindsLoosest(e: Scope, a: Tree, op: BinOp, b: Tree, c: Tree, d: Tree)
    requires Operand(e, a) && Operand(e, b) && Operand(e, c) && Operand(e, d)
    ensures var toks := Yield(a) + [Infix(op)] + Yield(b) + [QMark] + Yield(c) + [Colon] + Yield(d) + [Eof];
            Stream(toks) && Parse(e, toks) == Some(
              Ternary(Binop(op, Meaning(e, a), Meaning(e, b)), Meaning(e, c), Meaning(e, d)))
    ensures var toks := Yield(a) + [QMark] + Yield(b) + [Colon] + (Yield(c) + [Infix(op)] + Yield(d)) + [Eof];
            Stream(toks) && Parse(e, toks) == Some(
              Ternary(Meaning(e, a), Meaning(e, b), Binop(op, Meaning(e, c), Meaning(e, d))))
  {
    hide *;
    OperandBinds(e, a);
    OperandBinds(e, b);
    OperandBinds(e, c);
    OperandBinds(e, d);
    LevelBelowOperands(op);
    InfixTree(e, op, a, b);
    InfixTree(e, op, c, d);
    ChoiceTree(e, Infixed(op, a, b), c, d);
    ChoiceTree(e, a, b, Infixed(op, c, d));
    EveryTreeParses(e, Choice(Infixed(op, a, b), c, d));
    EveryTreeParses(e, Choice(a, b, Infixed(op, c, d)));
  }

  lemma ChoiceParses(e: Scope, a: Tree, b: Tree, t: Tree)
    requires Operand(e, a) && WellFormed(e, b) && WellFormed(e, t)
    ensures var toks := Yield(a) + [QMark] + Yield(b) + [Colon] + Yield(t) + [Eof];
            Stream(toks) && Parse(e, toks) == Some(Ternary(Meaning(e, a), Meaning(e, b), Meaning(e, t)))
  {
    hide *;
    OperandBinds(e, a);
    ChoiceTree(e, a, b, t);
    EveryTreeParses(e, Choice(a, b, t));
  }

  /** A second choice without parentheses belongs to the first one's last branch. */
  lemma ChoicesGroupRight(e: Scope, a: Tree, b: Tree, c: Tree, d: Tree, f: Tree)
    requires Operand(e, a) && Operand(e, b) && Operand(e, c) && Operand(e, d) && Operand(e, f)
    ensures var last := Yield(c) + [QMark] + Yield(d) + [Colon] + Yield(f);
            var toks := Yield(a) + [QMark] + Yield(b) + [Colon] + last + [Eof];
            Stream(toks) && Parse(e, toks) == Some(
              Ternary(Meaning(e, a), Meaning(e, b), Ternary(Meaning(e, c), Meaning(e, d), Meaning(e, f))))
  {
    hide *;
    OperandBinds(e, b);
    OperandBinds(e, c);
    OperandBinds(e, d);
    OperandBinds(e, f);
    ChoiceTree(e, c, d, f);
    ChoiceParses(e, a, b, Choice(c, d, f));
  }

  lemma ChoiceTree(e: Scope, b: Tree, t: Tree, f: Tree)
    requires WellFormed(e, b) && LevelOf(b) >= 1 && WellFormed(e, t) && WellFormed(e, f)
    ensures var c := Choice(b, t, f);
            && WellFormed(e, c) && Meaning(e, c) == Ternary(Meaning(e, b), Meaning(e, t), Meaning(e, f))
            && Yield(c) == Yield(b) + [QMark] + Yield(t) + [Colon] + Yield(f)
  {
    hide Level, ParseDt, LookupFn, Atom, Arity;
  }

  /** From source text: three numbers around two operators. */
  lemma TextPrecedence(e: Scope, l: nat, op1: BinOp, m: nat, op2: BinOp, n: nat, i: nat, j: nat, isFloat: string -> bool)
    requires l <= INT64_MAX && m <= INT64_MAX && n <= INT64_MAX
    requires i < 9 && j < 9 && op1 in GROUPS[i] && op2 in GROUPS[j]
    ensures var text := Padded(l, 1) + " " + OpText(op1) + " " + Padded(m, 1) + " " + OpText(op2) + " " + Padded(n, 1);
            Compile(e, text, isFloat) == Some(
              if i >= j then Binop(op2, Binop(op1, LitInt(l), LitInt(m)), LitInt(n))
              else Binop(op1, LitInt(l), Binop(op2, LitInt(m), LitInt(n))))
  {
    hide *;
    var toks := [IntTok(l), Infix(op1), IntTok(m), Infix(op2), IntTok(n)];
    var text := Padded(l, 1) + " " + OpText(op1) + " " + Padded(m, 1) + " " + OpText(op2) + " " + Padded(n, 1);
    IntsAreAtoms(e, l);
    IntsAreAtoms(e, m);
    IntsAreAtoms(e, n);
    TighterTakesMiddleToken(e, IntTok(l), op1, IntTok(m), op2, IntTok(n), i, j);
    FiveTokens(l, op1, m, op2, n, isFloat);
    assert toks + [Eof] == [IntTok(l), Infix(op1), IntTok(m), Infix(op2), IntTok(n), Eof];
    CompileIs(e, text, toks + [Eof], isFloat);
  }

  lemma IntsAreAtoms(e: Scope, l: nat)
    ensures Atom(e, IntTok(l)) == Some(LitInt(l))
  {}

  lemma CompileIs(e: Scope, text: string, toks: seq<Tok>, isFloat: string -> bool)
    requires Lex(text, isFloat) == Some(toks) && Stream(toks)
    ensures Compile(e, text, isFloat) == Parse(e, toks)
  {
    hide Lex, Parse, Stream;
  }

  lemma FiveTokens(l: nat, op1: BinOp, m: nat, op2: BinOp, n: nat, isFloat: string -> bool)
    requires l <= INT64_MAX && m <= INT64_MAX && n <= INT64_MAX
    ensures Lex(Padded(l, 1) + " " + OpText(op1) + " " + Padded(m, 1) + " " + OpText(op2) + " " + Padded(n, 1), isFloat)
         == Some([IntTok(l), Infix(op1), IntTok(m), Infix(op2), IntTok(n)] + [Eof])
  {
    hide *;
    var toks := [IntTok(l), Infix(op1), IntTok(m), Infix(op2), IntTok(n)];
    var gaps := ["", " ", " ", " ", " ", ""];
    GapsSeparate(l, op1, m, op2, n, isFloat);
    RenderLexes(toks, gaps, isFloat);
    Rendered(IntTok(l), Infix(op1), IntTok(m), Infix(op2), IntTok(n));
    IntText(l);
    IntText(m);
    IntText(n);
    InfixText(op1);
    InfixText(op2);
  }

  lemma IntText(l: nat)
    ensures TokText(IntTok(l)) == Padded(l, 1)
  {}

  lemma InfixText(op: BinOp)
    ensures TokText(Infix(op)) == OpText(op)
  {}

  lemma GapsSeparate(l: nat, op1: BinOp, m: nat, op2: BinOp, n: nat, isFloat: string -> bool)
    requires l <= INT64_MAX && m <= INT64_MAX && n <= INT64_MAX
    ensures var toks := [IntTok(l), Infix(op1), IntTok(m), Infix(op2), IntTok(n)];
            AllWritable(toks, isFloat) && Separates(toks, ["", " ", " ", " ", " ", ""])
  {
    hide TokText, Glues;
  }

  lemma Rendered(a: Tok, b: Tok, c: Tok, d: Tok, f: Tok)
    ensures Render([a, b, c, d, f], ["", " ", " ", " ", " ", ""])
         == TokText(a) + " " + TokText(b) + " " + TokText(c) + " " + TokText(d) + " " + TokText(f)
  {
    hide *;
    RenderLast(f);
    RenderOne(" ", d, [f], [" ", ""]);
    RenderOne(" ", c, [d, f], [" ", " ", ""]);
    RenderOne(" ", b, [c, d, f], [" ", " ", " ", ""]);
    RenderOne("", a, [b, c, d, f], [" ", " ", " ", " ", ""]);
    assert [d] + [f] == [d, f] && [c] + [d, f] == [c, d, f] && [b] + [c, d, f] == [b, c, d, f];
    assert [a] + [b, c, d, f] == [a, b, c, d, f];
    GapLists();
    Glued(TokText(a), TokText(b), TokText(c), TokText(d), TokText(f));
  }

  lemma GapLists()
    ensures [" "] + [" ", ""] == [" ", " ", ""] && [" "] + [" ", " ", ""] == [" ", " ", " ", ""]
    ensures [" "] + [" ", " ", " ", ""] == [" ", " ", " ", " ", ""]
    ensures [""] + [" ", " ", " ", " ", ""] == ["", " ", " ", " ", " ", ""]
  {}

  lemma RenderLast(t: Tok)
    ensures Render([t], [" ", ""]) == " " + TokText(t)
  {
    hide TokText;
    RenderOne(" ", t, [], [""]);
    assert [t] + [] == [t] && [" "] + [""] == [" ", ""];
    assert Render([], [""]) == "";
    assert TokText(t) + "" == TokText(t);
    hide Render;
  }

  lemma Glued(a: string, b: string, c: string, d: string, f: string)
    ensures "" + (a + (" " + (b + (" " + (c + (" " + (d + (" " + f)))))))) == a + " " + b + " " + c + " " + d + " " + f
  {
    Glue(a, b, " " + (c + (" " + (d + (" " + f)))));
    Glue(a + " " + b, c, " " + (d + (" " + f)));
    Glue(a + " " + b + " " + c, d, " " + f);
    assert a + " " + b + " " + c + " " + d + (" " + f) == a + " " + b + " " + c + " " + d + " " + f;
  }

  lemma Glue(a: string, b: string, rest: string)
    ensures a + (" " + (b + rest)) == (a + " " + b) + rest
  {}

  lemma RenderOne(gap: string, t: Tok, toks: seq<Tok>, gaps: seq<string>)
    requires |gaps| == |toks| + 1
    ensures Render([t] + toks, [gap] + gaps) == gap + (TokText(t) + Render(toks, gaps))
  {
    hide TokText;
    assert ([t] + toks)[1..] == toks && ([gap] + gaps)[1..] == gaps;
  }

  // ---------------------------------------------------------------- the name tables

  lemma NamedType(n: string, i: nat)
    requires i < 27
    ensures SameName(n, DtRowAt(i).name) ==> ParseDt(n) == Some(DtRowAt(i).dt)
  {
    hide DtRowAt, DtNames;
    var r := FindName(DtNames(), n);
    if SameName(n, DtRowAt(i).name) && r.Some? { DtNamesDiffer(i, r.value); }
  }

  /** Every type name in any letter case. */
  lemma TypeNames(n: string)
    ensures SameName(n, "DT_I1") ==> ParseDt(n) == Some(I1)
    ensures SameName(n, "DT_I2") ==> ParseDt(n) == Some(I2)
    ensures SameName(n, "DT_I4") ==> ParseDt(n) == Some(I4)
    ensures SameName(n, "DT_I8") ==> ParseDt(n) == Some(I8)
    ensures SameName(n, "DT_UI1") ==> ParseDt(n) == Some(UI1)
    ensures SameName(n, "DT_UI2") ==> ParseDt(n) == Some(UI2)
    ensures SameName(n, "DT_UI4") ==> ParseDt(n) == Some(UI4)
    ensures SameName(n, "DT_UI8") ==> ParseDt(n) == Some(UI8)
    ensures SameName(n, "DT_R4") ==> ParseDt(n) == Some(R4)
    ensures SameName(n, "DT_R8") ==> ParseDt(n) == Some(R8)
    ensures SameName(n, "DT_BOOL") ==> ParseDt(n) == Some(BoolType)
    ensures SameName(n, "DT_WSTR") ==> ParseDt(n) == Some(WStr)
    ensures SameName(n, "DT_NTEXT") ==> ParseDt(n) == Some(WStr)
    ensures SameName(n, "DT_STR") ==> ParseDt(n) == Some(Str)
    ensures SameName(n, "DT_TEXT") ==> ParseDt(n) == Some(Str)
    ensures SameName(n, "DT_DBDATE") ==> ParseDt(n) == Some(DbDate)
    ensures SameName(n, "DT_DBTIMESTAMP") ==> ParseDt(n) == Some(DbTimestamp)
    ensures SameName(n, "DT_DBTIMESTAMP2") ==> ParseDt(n) == Some(DbTimestamp2)
    ensures SameName(n, "DT_DBTIMESTAMPOFFSET") ==> ParseDt(n) == Some(DbTimestamp)
    ensures SameName(n, "DT_DBTIME") ==> ParseDt(n) == Some(DbTime)
    ensures SameName(n, "DT_DBTIME2") ==> ParseDt(n) == Some(DbTime)
    ensures SameName(n, "DT_DATE") ==> ParseDt(n) == Some(OleDate)
    ensures SameName(n, "DT_NUMERIC") ==> ParseDt(n) == Some(Numeric)
    ensures SameName(n, "DT_DECIMAL") ==> ParseDt(n) == Some(Numeric)
    ensures SameName(n, "DT_GUID") ==> ParseDt(n) == Some(Guid)
    ensures SameName(n, "DT_BYTES") ==> ParseDt(n) == Some(Bytes)
    ensures SameName(n, "DT_IMAGE") ==> ParseDt(n) == Some(Bytes)
  {
    hide SameName, ParseDt;
    NamedType(n, 0);
    NamedType(n, 1);
    NamedType(n, 2);
    NamedType(n, 3);
    NamedType(n, 4);
    NamedType(n, 5);
    NamedType(n, 6);
    NamedType(n, 7);
    NamedType(n, 8);
    NamedType(n, 9);
    NamedType(n, 10);
    NamedType(n, 11);
    NamedType(n, 12);
    NamedType(n, 13);
    NamedType(n, 14);
    NamedType(n, 15);
    NamedType(n, 16);
    NamedType(n, 17);
    NamedType(n, 18);
    NamedType(n, 19);
    NamedType(n, 20);
    NamedType(n, 21);
    NamedType(n, 22);
    NamedType(n, 23);
    NamedType(n, 24);
    NamedType(n, 25);
    NamedType(n, 26);
  }

  lemma NamedFunction(n: string, i: nat)
    requires i < 33
    ensures SameName(n, FnRowAt(i).name) ==>
              LookupFn(n) == Some(FnRowAt(i).fn) && Arity(FnRowAt(i).fn) == FnRowAt(i).arity
  {
    hide FnRowAt, FnNames, FnIndex;
    var r := FindName(FnNames(), n);
    if SameName(n, FnRowAt(i).name) && r.Some? { FnNamesDiffer(i, r.value); }
    SoleRow(i);
  }

  lemma SoleRow(i: nat)
    requires i < 33
    ensures FnIndex(FnRowAt(i).fn) == i
  {}

  predicate Takes(n: string, fn: Fn, arity: nat) { LookupFn(n) == Some(fn) && Arity(fn) == arity }

  /** The text functions' names in any letter case, and the one argument count each is called with. */
  lemma StringFunctions(n: string)
    ensures SameName(n, "LEN") ==> Takes(n, Len, 1)
    ensures SameName(n, "SUBSTRING") ==> Takes(n, Substring, 3)
    ensures SameName(n, "LEFT") ==> Takes(n, LeftPart, 2)
    ensures SameName(n, "RIGHT") ==> Takes(n, RightPart, 2)
    ensures SameName(n, "TRIM") ==> Takes(n, Trim, 1)
    ensures SameName(n, "LTRIM") ==> Takes(n, TrimLeft, 1)
    ensures SameName(n, "RTRIM") ==> Takes(n, TrimRight, 1)
    ensures SameName(n, "LOWER") ==> Takes(n, ToLower, 1)
    ensures SameName(n, "UPPER") ==> Takes(n, ToUpper, 1)
    ensures SameName(n, "REPLACE") ==> Takes(n, Replace, 3)
    ensures SameName(n, "FINDSTRING") ==> Takes(n, FindString, 3)
    ensures SameName(n, "REVERSE") ==> Takes(n, Reverse, 1)
    ensures SameName(n, "TOKEN") ==> Takes(n, Token, 3)
    ensures SameName(n, "TOKENCOUNT") ==> Takes(n, TokenCount, 2)
    ensures SameName(n, "HEX") ==> Takes(n, Hex, 1)
    ensures SameName(n, "CODEPOINT") ==> Takes(n, CodePoint, 1)
  {
    hide SameName, LookupFn, Arity, FnIndex;
    NamedFunction(n, 0);
    NamedFunction(n, 1);
    NamedFunction(n, 2);
    NamedFunction(n, 3);
    NamedFunction(n, 4);
    NamedFunction(n, 5);
    NamedFunction(n, 6);
    NamedFunction(n, 7);
    NamedFunction(n, 8);
    NamedFunction(n, 9);
    NamedFunction(n, 10);
    NamedFunction(n, 11);
    NamedFunction(n, 12);
    NamedFunction(n, 13);
    NamedFunction(n, 14);
    NamedFunction(n, 15);
  }

  /** Likewise the null and number functions. */
  lemma NumberFunctions(n: string)
    ensures SameName(n, "ISNULL") ==> Takes(n, IsNull, 1)
    ensures SameName(n, "REPLACENULL") ==> Takes(n, ReplaceNull, 2)
    ensures SameName(n, "ABS") ==> Takes(n, AbsFn, 1)
    ensures SameName(n, "POWER") ==> Takes(n, Power, 2)
    ensures SameName(n, "SQUARE") ==> Takes(n, Square, 1)
    ensures SameName(n, "SQRT") ==> Takes(n, Sqrt, 1)
    ensures SameName(n, "ROUND") ==> Takes(n, Round, 2)
    ensures SameName(n, "CEILING") ==> Takes(n, Ceiling, 1)
    ensures SameName(n, "FLOOR") ==> Takes(n, Floor, 1)
    ensures SameName(n, "SIGN") ==> Takes(n, Sign, 1)
  {
    hide SameName, LookupFn, Arity, FnIndex;
    NamedFunction(n, 16);
    NamedFunction(n, 17);
    NamedFunction(n, 18);
    NamedFunction(n, 19);
    NamedFunction(n, 20);
    NamedFunction(n, 21);
    NamedFunction(n, 22);
    NamedFunction(n, 23);
    NamedFunction(n, 24);
    NamedFunction(n, 25);
  }

  /** Likewise the date functions. */
  lemma DateFunctions(n: string)
    ensures SameName(n, "GETDATE") ==> Takes(n, GetDate, 0)
    ensures SameName(n, "YEAR") ==> Takes(n, YearOf, 1)
    ensures SameName(n, "MONTH") ==> Takes(n, MonthOf, 1)
    ensures SameName(n, "DAY") ==> Takes(n, DayOf, 1)
    ensures SameName(n, "DATEPART") ==> Takes(n, DatePart, 2)
    ensures SameName(n, "DATEADD") ==> Takes(n, DateAddFn, 3)
    ensures SameName(n, "DATEDIFF") ==> Takes(n, DateDiffFn, 3)
  {
    hide SameName, LookupFn, Arity, FnIndex;
    NamedFunction(n, 26);
    NamedFunction(n, 27);
    NamedFunction(n, 28);
    NamedFunction(n, 29);
    NamedFunction(n, 30);
    NamedFunction(n, 31);
    NamedFunction(n, 32);
  }

  const TYPE_WORDS: seq<string> := [
    "DT_I1", "DT_I2", "DT_I4", "DT_I8", "DT_UI1", "DT_UI2", "DT_UI4", "DT_UI8", "DT_R4", "DT_R8", "DT_BOOL",
    "DT_WSTR", "DT_NTEXT", "DT_STR", "DT_TEXT", "DT_DBDATE", "DT_DBTIMESTAMP", "DT_DBTIMESTAMP2",
    "DT_DBTIMESTAMPOFFSET", "DT_DBTIME", "DT_DBTIME2", "DT_DATE", "DT_NUMERIC", "DT_DECIMAL", "DT_GUID",
    "DT_BYTES", "DT_IMAGE"]

  const FUNCTION_WORDS: seq<string> := [
    "LEN", "SUBSTRING", "LEFT", "RIGHT", "TRIM", "LTRIM", "RTRIM", "LOWER", "UPPER", "REPLACE", "FINDSTRING",
    "REVERSE", "TOKEN", "TOKENCOUNT", "HEX", "CODEPOINT", "ISNULL", "REPLACENULL", "ABS", "POWER", "SQUARE",
    "SQRT", "ROUND", "CEILING", "FLOOR", "SIGN", "GETDATE", "YEAR", "MONTH", "DAY", "DATEPART", "DATEADD",
    "DATEDIFF"]

  /** No other text is a type or function name. */
  lemma OnlyTheseNames(n: string)
    ensures ParseDt(n).Some? <==> exists w :: w in TYPE_WORDS && SameName(n, w)
    ensures LookupFn(n).Some? <==> exists w :: w in FUNCTION_WORDS && SameName(n, w)
  {
    hide SameName, DtRowAt, FnRowAt, DtNames, FnNames;
    TypeRows();
    FunctionRows();
    assert DtNames() == TYPE_WORDS && FnNames() == FUNCTION_WORDS;
  }

  lemma TypeRows()
    ensures |TYPE_WORDS| == 27 && forall i :: 0 <= i < 27 ==> DtRowAt(i).name == TYPE_WORDS[i]
  {}

  lemma FunctionRows()
    ensures |FUNCTION_WORDS| == 33 && forall i :: 0 <= i < 33 ==> FnRowAt(i).name == FUNCTION_WORDS[i]
  {}

  // ---------------------------------------------------------------- escapes

  /** In a string literal a backslash stands for what the six letters below name together
      with it and is refused before anything else; any other character is itself. */
  lemma EscapesDecode(c: char, rest: string)
    ensures LexString(['\\', 'n'] + rest) == DecodedBefore("\n", 2, LexString(rest))
    ensures LexString(['\\', 't'] + rest) == DecodedBefore("\t", 2, LexString(rest))
    ensures LexString(['\\', 'r'] + rest) == DecodedBefore("\r", 2, LexString(rest))
    ensures LexString(['\\', '\\'] + rest) == DecodedBefore("\\", 2, LexString(rest))
    ensures LexString(['\\', '\"'] + rest) == DecodedBefore("\"", 2, LexString(rest))
    ensures LexString(['\\', '0'] + rest) == DecodedBefore("\0", 2, LexString(rest))
    ensures c !in "ntr\\\"0" ==> LexString(['\\', c] + rest) == None
    ensures c != '\0' && c != '\"' && c != '\\' ==> LexString([c] + rest) == DecodedBefore([c], 1, LexString(rest))
  {
    hide DecodedBefore;
    EscapedStep('n', rest);
    EscapedStep('t', rest);
    EscapedStep('r', rest);
    EscapedStep('\\', rest);
    EscapedStep('\"', rest);
    EscapedStep('0', rest);
    EscapedStep(c, rest);
    assert ([c] + rest)[1..] == rest;
  }

  lemma EscapedStep(c: char, rest: string)
    ensures LexString(['\\', c] + rest) == match Escape(c) { case None => None case Some(d) => DecodedBefore([d], 2, LexString(rest)) }
  {
    hide Escape, DecodedBefore;
    assert (['\\', c] + rest)[2..] == rest;
  }
}
