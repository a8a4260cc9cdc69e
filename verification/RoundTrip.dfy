/** Printing and compiling an expression gives it back, and everything that compiles prints. */
module RoundTrip {
  import opened Text
  import opened Syntax
  import opened Lexer
  import opened Parser
  import opened Grammar
  import opened GrammarTheorems
  import opened Printer
  import opened Spelling

  predicate AllWritable(toks: seq<Tok>, isFloat: string -> bool) {
    forall i :: 0 <= i < |toks| ==> Writable(toks[i], isFloat)
  }

  // ---------------------------------------------------------------- text to tokens

  lemma {:induction false} BlanksSkip(gap: string, rest: string, isFloat: string -> bool)
    requires Blank(gap)
    ensures Lex(gap + rest, isFloat) == Lex(rest, isFloat)
  {
    if gap == "" {
      assert gap + rest == rest;
    } else {
      BlanksSkip(gap[1..], rest, isFloat);
      assert (gap + rest)[1..] == gap[1..] + rest;
      hide LexToken;
    }
  }

  lemma TokenSkips(t: Tok, rest: string, isFloat: string -> bool)
    requires Writable(t, isFloat) && !Glues(t, At(rest, 0))
    ensures Lex(TokText(t) + rest, isFloat) == Before([t], Lex(rest, isFloat))
  {
    TokenLexes(t, rest, isFloat);
    assert (TokText(t) + rest)[|TokText(t)|..] == rest;
    hide LexToken, TokText, IsSpace, Before;
  }

  lemma SpaceGluesNothing(t: Tok, c: char)
    requires IsSpace(c) || c == '\0'
    ensures !Glues(t, c)
  {}

  lemma SeparatesRest(toks: seq<Tok>, gaps: seq<string>)
    requires |gaps| == |toks| + 1 && toks != [] && Separates(toks, gaps)
    ensures Separates(toks[1..], gaps[1..]) && Blank(gaps[0])
  {
    hide Glues, Blank, TokText;
    var ts, gs := toks[1..], gaps[1..];
    forall i | 0 < i < |ts| && gs[i] == "" ensures !Glues(ts[i - 1], At(TokText(ts[i]), 0)) {
      assert gs[i] == gaps[i + 1] && ts[i] == toks[i + 1] && ts[i - 1] == toks[i];
    }
  }

  /** Nothing that follows a token in a separated text runs into it. */
  lemma NextDoesNotGlue(t: Tok, toks: seq<Tok>, gaps: seq<string>, isFloat: string -> bool)
    requires |gaps| == |toks| + 1 && AllWritable(toks, isFloat) && Blank(gaps[0])
    requires toks != [] && gaps[0] == "" ==> !Glues(t, At(TokText(toks[0]), 0))
    ensures !Glues(t, At(Render(toks, gaps), 0))
  {
    hide Glues, TokText, Writable, IsSpace;
    var r := Render(toks, gaps);
    if gaps[0] != "" {
      assert r[0] == gaps[0][0];
      SpaceGluesNothing(t, r[0]);
    } else if toks == [] {
      SpaceGluesNothing(t, '\0');
    } else {
      TokenStarts(toks[0], isFloat);
    }
  }

  /** Any separated text of writable tokens reads back as those tokens. */
  lemma {:induction false} RenderLexes(toks: seq<Tok>, gaps: seq<string>, isFloat: string -> bool)
    requires |gaps| == |toks| + 1 && AllWritable(toks, isFloat) && Separates(toks, gaps)
    ensures Lex(Render(toks, gaps), isFloat) == Some(toks + [Eof])
    decreases |toks|
  {
    hide Glues, Writable, TokText, IsSpace, LexToken, Blank;
    if toks == [] {
      assert gaps[0] + "" == gaps[0];
      BlanksSkip(gaps[0], "", isFloat);
      assert [] + [Eof] == [Eof];
    } else {
      var t, rest := toks[0], Render(toks[1..], gaps[1..]);
      SeparatesRest(toks, gaps);
      RenderLexes(toks[1..], gaps[1..], isFloat);
      NextDoesNotGlue(t, toks[1..], gaps[1..], isFloat);
      TokenSkips(t, rest, isFloat);
      BlanksSkip(gaps[0], TokText(t) + rest, isFloat);
      assert Render(toks, gaps) == gaps[0] + (TokText(t) + rest);
      hide Lex, Render;
      assert [t] + (toks[1..] + [Eof]) == toks + [Eof];
    }
  }

  // ---------------------------------------------------------------- printed trees can be written

  lemma FnWordsTo8(i: nat)
    requires i < 8
    ensures IsWordText(FnRowAt(i).name)
  {}

  lemma FnWordsTo12(i: nat)
    requires 8 <= i < 12
    ensures IsWordText(FnRowAt(i).name)
  {}

  lemma FnWordsTo16(i: nat)
    requires 12 <= i < 16
    ensures IsWordText(FnRowAt(i).name)
  {}

  lemma FnWordsTo24(i: nat)
    requires 16 <= i < 24
    ensures IsWordText(FnRowAt(i).name)
  {}

  lemma FnWordsTo33(i: nat)
    requires 24 <= i < 33
    ensures IsWordText(FnRowAt(i).name)
  {}

  lemma FirstDtWords(i: nat)
    requires i < 14
    ensures IsWordText(DtRowAt(i).name) && DtRowAt(i).name[0] == 'D'
  {}

  lemma LastDtWords(i: nat)
    requires 14 <= i < 27
    ensures IsWordText(DtRowAt(i).name) && DtRowAt(i).name[0] == 'D'
  {}

  lemma FnKeysAreNoKeyword(i: nat)
    requires i < 33
    ensures !SameKey(FnKey(i), Key(4, 'T', 'U')) && !SameKey(FnKey(i), Key(5, 'F', 'S'))
    ensures !SameKey(FnKey(i), Key(4, 'N', 'L'))
  {}

  /** Function and type names are identifiers, none of them a keyword. */
  lemma FnNameWrites(fn: Fn, isFloat: string -> bool)
    ensures Writable(Ident(FnName(fn)), isFloat)
  {
    var i, w := FnIndex(fn), FnName(fn);
    if i < 8 { FnWordsTo8(i); } else if i < 12 { FnWordsTo12(i); } else if i < 16 { FnWordsTo16(i); } else if i < 24 { FnWordsTo24(i); } else { FnWordsTo33(i); }
    FnKeyIs(i);
    FnKeysAreNoKeyword(i);
    hide FnRowAt, FnKey, FnIndex, Lower;
    NoKeyword(w, "TRUE");
    NoKeyword(w, "FALSE");
    NoKeyword(w, "NULL");
  }

  lemma NoKeyword(w: string, k: string)
    requires |w| >= 2 && |k| >= 2 && !SameKey(Key(|w|, w[0], w[|w| - 2]), Key(|k|, k[0], k[|k| - 2]))
    ensures !SameName(w, k)
  {}

  lemma DtNameWrites(dt: Dt, isFloat: string -> bool)
    ensures Writable(Ident(DtName(dt)), isFloat)
  {
    var i, w := DtIndex(dt), DtName(dt);
    if i < 14 { FirstDtWords(i); } else { LastDtWords(i); }
    hide DtRowAt, DtIndex, IsWord;
    assert SameName(w, "TRUE") ==> Lower(w[0]) == Lower("TRUE"[0]);
    assert SameName(w, "FALSE") ==> Lower(w[0]) == Lower("FALSE"[0]);
    assert SameName(w, "NULL") ==> Lower(w[0]) == Lower("NULL"[0]);
  }

  lemma {:induction false} PrintWrites(e: Scope, n: Node, isFloat: string -> bool)
    requires Printable(e, n, isFloat)
    ensures AllWritable(Yield(Print(e, n)), isFloat)
    decreases n
  {
    hide DtName, FnName, FloatLexeme, Wrap, Writable, ColumnPrints, Level, Arity;
    match n
    case Unary(_, a) =>
      PrintWrites(e, a, isFloat);
      WrapWrites(10, Print(e, a), isFloat);
      SignsWrite(isFloat);
    case Binop(op, l, r) =>
      PrintWrites(e, l, isFloat);
      PrintWrites(e, r, isFloat);
      WrapWrites(Level(op), Print(e, l), isFloat);
      WrapWrites(Level(op) + 1, Print(e, r), isFloat);
      SignsWrite(isFloat);
    case Ternary(c, t, f) =>
      PrintWrites(e, c, isFloat);
      PrintWrites(e, t, isFloat);
      PrintWrites(e, f, isFloat);
      WrapWrites(1, Print(e, c), isFloat);
      SignsWrite(isFloat);
    case Cast(to, len, scale, a) =>
      PrintWrites(e, a, isFloat);
      WrapWrites(10, Print(e, a), isFloat);
      DtNameWrites(to, isFloat);
      SizeWrites(len, isFloat);
      SizeWrites(scale, isFloat);
      SignsWrite(isFloat);
      hide SizeTokens;
    case Call(fn, args) =>
      PrintAllWrites(e, args, isFloat);
      FnNameWrites(fn, isFloat);
      SignsWrite(isFloat);
      hide YieldArgs, PrintAll;
    case LitNull(dt) =>
      DtNameWrites(dt, isFloat);
      SignsWrite(isFloat);
    case _ => LeafWrites(e, n, isFloat);
  }

  lemma LeafWrites(e: Scope, n: Node, isFloat: string -> bool)
    requires Printable(e, n, isFloat) && Print(e, n).Leaf?
    ensures Writable(Print(e, n).tok, isFloat)
  {}

  lemma SignsWrite(isFloat: string -> bool)
    ensures forall t: Tok :: t in {KwNull, LParen, RParen, Comma, QMark, Colon, Bang, Tilde} || t.Infix? ==> Writable(t, isFloat)
  {}

  lemma SizeWrites(len: Option<int>, isFloat: string -> bool)
    requires SizeInRange(len)
    ensures AllWritable(SizeTokens(len), isFloat)
  {}

  lemma WrapWrites(level: nat, c: Tree, isFloat: string -> bool)
    requires AllWritable(Yield(c), isFloat)
    ensures AllWritable(Yield(Wrap(level, c)), isFloat)
  {}

  lemma {:induction false} PrintAllWrites(e: Scope, args: seq<Node>, isFloat: string -> bool)
    requires AllPrintable(e, args, isFloat)
    ensures AllWritable(YieldArgs(PrintAll(e, args)), isFloat)
    decreases args
  {
    if args != [] {
      hide Print, Yield, Writable, Printable;
      PrintWrites(e, args[0], isFloat);
      PrintAllWrites(e, args[1..], isFloat);
      SignsWrite(isFloat);
      var p := PrintAll(e, args);
      assert p[0] == Print(e, args[0]) && p[1..] == PrintAll(e, args[1..]);
    }
  }

  // ---------------------------------------------------------------- the round trip

  /** Printed with the fewest parentheses and any blanks, an expression compiles to itself. */
  lemma CompileInvertsPrint(e: Scope, n: Node, gaps: seq<string>, isFloat: string -> bool)
    requires Printable(e, n, isFloat) && |gaps| == |Yield(Print(e, n))| + 1 && Separates(Yield(Print(e, n)), gaps)
    ensures Compile(e, Render(Yield(Print(e, n)), gaps), isFloat) == Some(n)
  {
    hide Printable, Separates, Render, Yield, Print, WellFormed, Meaning, AllWritable, Parse;
    PrintMeans(e, n, isFloat);
    PrintWrites(e, n, isFloat);
    RenderLexes(Yield(Print(e, n)), gaps, isFloat);
    EveryTreeParses(e, Print(e, n));
  }

  /** One blank around every token always separates. */
  function OneBlankEach(toks: seq<Tok>): (gaps: seq<string>)
    ensures |gaps| == |toks| + 1 && Separates(toks, gaps)
  {
    seq(|toks| + 1, _ => " ")
  }

  function Show(e: Scope, n: Node): string {
    var toks := Yield(Print(e, n));
    Render(toks, OneBlankEach(toks))
  }

  /** Printing is injective on what the language can express. */
  lemma ShowIsInjective(e: Scope, m: Node, n: Node, isFloat: string -> bool)
    requires Printable(e, m, isFloat) && Printable(e, n, isFloat) && Show(e, m) == Show(e, n)
    ensures m == n
  {
    hide Printable, Render, Yield, Print, Compile, Separates;
    CompileInvertsPrint(e, m, OneBlankEach(Yield(Print(e, m))), isFloat);
    CompileInvertsPrint(e, n, OneBlankEach(Yield(Print(e, n))), isFloat);
  }

  // ---------------------------------------------------------------- whatever compiles prints

  lemma NumberNotNegative(s: string)
    requires AllDigits(s)
    ensures NumberOf(s) >= 0
  {
    NumberBound(s);
  }

  lemma {:induction false} HexNotNegative(s: string)
    requires forall i :: 0 <= i < |s| ==> IsHex(s[i])
    ensures HexNumber(s) >= 0
  {
    if s != "" { HexNotNegative(s[..|s| - 1]); }
  }

  lemma NumberTokenWrites(s: string, isFloat: string -> bool)
    requires s != "" && IsDigit(s[0]) && LexNumber(s, isFloat).Lexed?
    ensures Writable(LexNumber(s, isFloat).tok, isFloat)
  {
    if At(s, 0) == '0' && (At(s, 1) == 'x' || At(s, 1) == 'X') {
      HexNotNegative(s[2..RunEnd(s, 2, IsHex)]);
    } else {
      var (a, e) := NumberEnds(s);
      if e > a {
        NumberEndsCut(s);
      } else {
        NumberNotNegative(s[..a]);
      }
    }
  }

  lemma FractionCut(s: string, a: nat, e: nat)
    requires a <= e <= |s| && FractionEnd(s, a) <= e
    ensures FractionEnd(s[..e], a) == FractionEnd(s, a)
  {
    if FractionEnd(s, a) > a { RunCut(s, a + 1, e, IsDigit); }
    assert a < e ==> At(s[..e], a) == At(s, a);
    hide RunEnd;
  }

  lemma ExponentCut(s: string, b: nat)
    requires b <= |s|
    ensures ExponentEnd(s[..ExponentEnd(s, b)], b) == ExponentEnd(s, b)
  {
    var e := ExponentEnd(s, b);
    if b < e {
      RunCut(s, b + 1, e, IsDigit);
      if b + 2 <= e { RunCut(s, b + 2, e, IsDigit); }
      assert At(s[..e], b) == At(s, b);
      assert b + 1 < e ==> At(s[..e], b + 1) == At(s, b + 1);
      hide RunEnd;
    }
  }

  /** A number cut out of the text ends where it did in the text. */
  lemma NumberEndsCut(s: string)
    requires s != "" && IsDigit(s[0])
    ensures var (a, e) := NumberEnds(s); 0 < a <= e <= |s| && NumberEnds(s[..e]) == (a, e)
  {
    var a := RunEnd(s, 0, IsDigit);
    assert a > 0;
    var b := FractionEnd(s, a);
    var e := ExponentEnd(s, b);
    RunCut(s, 0, e, IsDigit);
    FractionCut(s, a, e);
    ExponentCut(s, b);
    hide FractionEnd, ExponentEnd, RunEnd;
  }

  lemma {:induction false} RunCut(s: string, i: nat, e: nat, p: char -> bool)
    requires i <= e <= |s|
    ensures RunEnd(s[..e], i, p) == if RunEnd(s, i, p) <= e then RunEnd(s, i, p) else e
    decreases e - i
  {
    if i < e && p(s[i]) { RunCut(s, i + 1, e, p); }
  }

  /** Every token the lexer makes can be written. */
  lemma TokenWrites(s: string, isFloat: string -> bool)
    requires At(s, 0) != '\0' && LexToken(s, isFloat).Lexed?
    ensures Writable(LexToken(s, isFloat).tok, isFloat)
  {
    hide FloatLexeme, RunEnd, WordToken;
    var c := s[0];
    if IsDigit(c) {
      NumberTokenWrites(s, isFloat);
      hide LexNumber;
    } else if c == '[' || c == '@' {
    } else if IsLetter(c) || c == '_' {
      WordTokenWrites(s[..RunEnd(s, 0, IsWord)], isFloat);
    }
  }

  lemma WordTokenWrites(w: string, isFloat: string -> bool)
    requires IsWordText(w)
    ensures Writable(WordToken(w), isFloat)
  {
    hide SameName;
  }

  lemma {:induction false} LexedWrites(s: string, isFloat: string -> bool)
    requires Lex(s, isFloat).Some?
    ensures var toks := Lex(s, isFloat).value; AllWritable(toks[..|toks| - 1], isFloat)
    decreases |s|
  {
    hide LexToken, Writable, IsSpace;
    if At(s, 0) == '\0' {
    } else if IsSpace(s[0]) {
      LexedWrites(s[1..], isFloat);
    } else {
      TokenWrites(s, isFloat);
      var t := LexToken(s, isFloat);
      LexedWrites(s[t.n..], isFloat);
      var rest := Lex(s[t.n..], isFloat).value;
      hide Lex;
      assert ([t.tok] + rest)[..|rest|] == [t.tok] + rest[..|rest| - 1];
    }
  }

  /** Parameter values are C strings. */
  predicate CStringParams(e: Scope) { forall k :: k in e.params ==> '\0' !in e.params[k] }

  /** A column found by a name the lexer made is first of its name and fits between brackets. */
  lemma FoundColumnPrints(e: Scope, name: string)
    requires Bracketable(name) && FindName(e.cols, name).Some?
    ensures ColumnPrints(e, FindName(e.cols, name).value)
  {
    var col := FindName(e.cols, name).value;
    var c := e.cols[col];
    forall i | 0 <= i < |c| ensures InBrackets(c[i]) {
      assert Lower(name[i]) == Lower(c[i]) && InBrackets(name[i]);
    }
    forall i | 0 <= i < col ensures !SameName(c, e.cols[i]) {
      if SameName(c, e.cols[i]) { SameNameChains(name, c, e.cols[i]); }
    }
  }

  lemma SameNameChains(a: string, b: string, c: string)
    requires SameName(a, b) && SameName(b, c)
    ensures SameName(a, c)
  {
    hide Lower;
  }

  lemma LeafMeaningPrints(e: Scope, t: Tok, isFloat: string -> bool)
    requires CStringParams(e) && Writable(t, isFloat) && Atom(e, t).Some?
    ensures Printable(e, Atom(e, t).value, isFloat)
  {
    hide FloatLexeme, ColumnPrints, WordToken;
    if t.Ident? || t.BrIdent? { FoundColumnPrints(e, t.name); }
  }

  // The parts of a tree whose tokens can be written can be written.

  lemma PartWrites(y: seq<Tok>, a: seq<Tok>, b: seq<Tok>, c: seq<Tok>, isFloat: string -> bool)
    requires AllWritable(y, isFloat) && y == a + b + c
    ensures AllWritable(b, isFloat)
  {
    hide Writable;
    forall i | 0 <= i < |b| ensures Writable(b[i], isFloat) { assert y[|a| + i] == b[i]; }
  }

  lemma CastPartsWrite(c: Tree, isFloat: string -> bool)
    requires c.CastTo? && AllWritable(Yield(c), isFloat)
    ensures AllWritable(Yield(c.a), isFloat) && SizeInRange(c.len) && SizeInRange(c.scale)
  {
    var head, y, len, scale := [LParen, Ident(c.name)], Yield(c.a), SizeTokens(c.len), SizeTokens(c.scale);
    assert Yield(c) == head + len + scale + [RParen] + y;
    hide Writable, Yield, SizeTokens;
    assert Yield(c) == (head + len + scale + [RParen]) + y + [];
    PartWrites(Yield(c), head + len + scale + [RParen], y, [], isFloat);
    assert Yield(c) == head + len + (scale + [RParen] + y);
    PartWrites(Yield(c), head, len, scale + [RParen] + y, isFloat);
    assert Yield(c) == (head + len) + scale + ([RParen] + y);
    PartWrites(Yield(c), head + len, scale, [RParen] + y, isFloat);
    SizeWritten(c.len, isFloat);
    SizeWritten(c.scale, isFloat);
  }

  lemma InfixPartsWrite(c: Tree, isFloat: string -> bool)
    requires c.Infixed? && AllWritable(Yield(c), isFloat)
    ensures AllWritable(Yield(c.l), isFloat) && AllWritable(Yield(c.r), isFloat)
  {
    var l, r, op := Yield(c.l), Yield(c.r), [Infix(c.op)];
    assert Yield(c) == l + op + r;
    hide Writable, Yield;
    assert Yield(c) == [] + l + (op + r) && Yield(c) == (l + op) + r + [];
    PartWrites(Yield(c), [], l, op + r, isFloat);
    PartWrites(Yield(c), l + op, r, [], isFloat);
  }

  lemma ChoicePartsWrite(c: Tree, isFloat: string -> bool)
    requires c.Choice? && AllWritable(Yield(c), isFloat)
    ensures AllWritable(Yield(c.test), isFloat) && AllWritable(Yield(c.yes), isFloat) && AllWritable(Yield(c.no), isFloat)
  {
    var b, t, f := Yield(c.test), Yield(c.yes), Yield(c.no);
    assert Yield(c) == b + [QMark] + t + [Colon] + f;
    hide Writable, Yield;
    assert Yield(c) == [] + b + ([QMark] + t + [Colon] + f);
    PartWrites(Yield(c), [], b, [QMark] + t + [Colon] + f, isFloat);
    assert Yield(c) == (b + [QMark]) + t + ([Colon] + f);
    PartWrites(Yield(c), b + [QMark], t, [Colon] + f, isFloat);
    assert Yield(c) == (b + [QMark] + t + [Colon]) + f + [];
    PartWrites(Yield(c), b + [QMark] + t + [Colon], f, [], isFloat);
  }

  lemma WrappedPartWrites(c: Tree, isFloat: string -> bool)
    requires AllWritable(Yield(c), isFloat)
    ensures c.Paren? ==> AllWritable(Yield(c.inner), isFloat)
    ensures c.Prefixed? ==> AllWritable(Yield(c.a), isFloat)
    ensures c.CallOf? ==> AllWritable(YieldArgs(c.args), isFloat)
  {
    hide Writable;
    if c.Paren? {
      PartWrites(Yield(c), [LParen], Yield(c.inner), [RParen], isFloat);
    } else if c.Prefixed? {
      assert Yield(c) == [PrefixToken(c.uop)] + Yield(c.a) + [];
      PartWrites(Yield(c), [PrefixToken(c.uop)], Yield(c.a), [], isFloat);
    } else if c.CallOf? {
      PartWrites(Yield(c), [Ident(c.name), LParen], YieldArgs(c.args), [RParen], isFloat);
    }
  }

  /** The meaning of a tree whose tokens can be written can be printed. */
  lemma {:induction false} MeaningPrints(e: Scope, c: Tree, isFloat: string -> bool)
    requires CStringParams(e) && WellFormed(e, c) && AllWritable(Yield(c), isFloat)
    ensures Printable(e, Meaning(e, c), isFloat)
    decreases c
  {
    hide ParseDt, LookupFn, Atom, Level, CStringParams, ColumnPrints, FloatLexeme, Yield, AllWritable, LevelOf, Arity;
    match c
    case Leaf(t) =>
      LeafTokenWrites(t, isFloat);
      LeafMeaningPrints(e, t, isFloat);
    case NullOf(_, _) =>
    case CallOf(name, args) =>
      WrappedPartWrites(c, isFloat);
      AllMeaningsPrint(e, args, isFloat);
    case Paren(inner) =>
      WrappedPartWrites(c, isFloat);
      MeaningPrints(e, inner, isFloat);
    case Prefixed(uop, a) =>
      WrappedPartWrites(c, isFloat);
      MeaningPrints(e, a, isFloat);
    case CastTo(name, len, scale, a) =>
      CastPartsWrite(c, isFloat);
      MeaningPrints(e, a, isFloat);
    case Infixed(op, l, r) =>
      InfixPartsWrite(c, isFloat);
      MeaningPrints(e, l, isFloat);
      MeaningPrints(e, r, isFloat);
    case Choice(b, t, f) =>
      ChoicePartsWrite(c, isFloat);
      MeaningPrints(e, b, isFloat);
      MeaningPrints(e, t, isFloat);
      MeaningPrints(e, f, isFloat);
  }

  lemma LeafTokenWrites(t: Tok, isFloat: string -> bool)
    requires AllWritable(Yield(Leaf(t)), isFloat)
    ensures Writable(t, isFloat)
  {
    hide Writable;
    assert Writable(Yield(Leaf(t))[0], isFloat);
  }

  lemma SizeWritten(len: Option<int>, isFloat: string -> bool)
    requires AllWritable(SizeTokens(len), isFloat)
    ensures SizeInRange(len)
  {
    if len.Some? { assert Writable(SizeTokens(len)[1], isFloat); }
  }

  lemma {:induction false} AllMeaningsPrint(e: Scope, args: seq<Tree>, isFloat: string -> bool)
    requires CStringParams(e) && AllWellFormed(e, args) && AllWritable(YieldArgs(args), isFloat)
    ensures AllPrintable(e, Meanings(e, args), isFloat)
    decreases args
  {
    if args != [] {
      hide WellFormed, Meaning, Yield, Printable, CStringParams;
      var a, rest := args[0], args[1..];
      ArgPartsWrite(args, isFloat);
      MeaningPrints(e, a, isFloat);
      AllMeaningsPrint(e, rest, isFloat);
      var ms := Meanings(e, args);
      assert ms[0] == Meaning(e, a) && ms[1..] == Meanings(e, rest);
    }
  }

  lemma ArgPartsWrite(args: seq<Tree>, isFloat: string -> bool)
    requires args != [] && AllWritable(YieldArgs(args), isFloat)
    ensures AllWritable(Yield(args[0]), isFloat) && AllWritable(YieldArgs(args[1..]), isFloat)
  {
    hide Writable, Yield;
    var y, a, rest := YieldArgs(args), Yield(args[0]), YieldArgs(args[1..]);
    if |args| == 1 {
      assert args[1..] == [];
    } else {
      assert y == a + [Comma] + rest;
      assert y == [] + a + ([Comma] + rest) && y == (a + [Comma]) + rest + [];
      PartWrites(y, [], a, [Comma] + rest, isFloat);
      PartWrites(y, a + [Comma], rest, [], isFloat);
    }
  }

  /** Whatever source text compiles, its tree prints, and the printed text compiles to the
      same tree: printing normalises and loses nothing. */
  lemma WhateverCompilesPrints(e: Scope, source: string, isFloat: string -> bool)
    requires CStringParams(e) && Compile(e, source, isFloat).Some?
    ensures var n := Compile(e, source, isFloat).value;
            Printable(e, n, isFloat) && Compile(e, Show(e, n), isFloat) == Some(n)
  {
    hide Lex, Parse, Yield, WellFormed, Meaning, AllWritable, Printable, Separates, Render, Print, CStringParams;
    var toks := Lex(source, isFloat).value;
    var c := OnlyTreesParse(e, toks);
    LexedWrites(source, isFloat);
    assert toks[..|toks| - 1] == Yield(c);
    MeaningPrints(e, c, isFloat);
    CompileInvertsPrint(e, Meaning(e, c), OneBlankEach(Yield(Print(e, Meaning(e, c)))), isFloat);
  }
}
