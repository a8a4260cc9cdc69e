/**
 Printing an expression tree with the fewest parentheses, and the tokens as source text with
 any blanks between them: both read back.
 */
module Printer {
  import opened Text
  import opened Syntax
  import opened Lexer
  import opened Parser
  import opened Grammar

  // ---------------------------------------------------------------- trees

  /** Parentheses only where the level asks for them. */
  function Wrap(level: nat, c: Tree): Tree { if LevelOf(c) < level then Paren(c) else c }

  function ColumnToken(e: Scope, col: nat): Tok { BrIdent(if col < |e.cols| then e.cols[col] else "") }

  function Print(e: Scope, n: Node): Tree
    decreases n
  {
    match n
    case LitInt(i) => Leaf(IntTok(i))
    case LitFloat(x) => Leaf(FloatTok(x))
    case LitStr(s) => Leaf(StrTok(s))
    case LitBool(b) => Leaf(if b then KwTrue else KwFalse)
    case LitNull(dt) => NullOf(DtName(dt), None)
    case ColRef(col) => Leaf(ColumnToken(e, col))
    case Unary(op, a) => Prefixed(op, Wrap(10, Print(e, a)))
    case Binop(op, l, r) => Infixed(op, Wrap(Level(op), Print(e, l)), Wrap(Level(op) + 1, Print(e, r)))
    case Ternary(c, t, f) => Choice(Wrap(1, Print(e, c)), Print(e, t), Print(e, f))
    case Cast(to, len, scale, a) => CastTo(DtName(to), len, scale, Wrap(10, Print(e, a)))
    case Call(fn, args) => CallOf(FnName(fn), PrintAll(e, args))
  }

  function PrintAll(e: Scope, args: seq<Node>): (r: seq<Tree>)
    ensures |r| == |args|
    decreases args
  {
    if args == [] then [] else [Print(e, args[0])] + PrintAll(e, args[1..])
  }

  predicate InRange(i: int) { 0 <= i <= INT64_MAX }

  predicate SizeInRange(i: Option<int>) { i.Some? ==> InRange(i.value) }

  /** A number with a fraction or an exponent, as lex_number delimits it and strtod takes it. */
  predicate FloatLexeme(x: string, isFloat: string -> bool) {
    && 0 < |x| < 64 && IsDigit(x[0]) && At(x, 1) != 'x' && At(x, 1) != 'X'
    && NumberEnds(x).0 < NumberEnds(x).1 == |x| && isFloat(x)
  }

  predicate Bracketable(name: string) { forall i :: 0 <= i < |name| ==> InBrackets(name[i]) }

  /** A column that is the first of its name, and whose name fits between brackets. */
  predicate ColumnPrints(e: Scope, col: nat) {
    && col < |e.cols| && Bracketable(e.cols[col])
    && forall i :: 0 <= i < col ==> !SameName(e.cols[col], e.cols[i])
  }

  /** What the language can express: see the fields each case constrains. */
  predicate Printable(e: Scope, n: Node, isFloat: string -> bool)
    decreases n
  {
    match n
    case LitInt(i) => InRange(i)
    case LitFloat(x) => FloatLexeme(x, isFloat)
    case LitStr(s) => '\0' !in s
    case LitBool(_) => true
    case LitNull(_) => true
    case ColRef(col) => ColumnPrints(e, col)
    case Unary(_, a) => Printable(e, a, isFloat)
    case Binop(_, l, r) => Printable(e, l, isFloat) && Printable(e, r, isFloat)
    case Ternary(c, t, f) => Printable(e, c, isFloat) && Printable(e, t, isFloat) && Printable(e, f, isFloat)
    case Cast(_, len, scale, a) =>
      SizeInRange(len) && SizeInRange(scale) && (scale.Some? ==> len.Some?) && Printable(e, a, isFloat)
    case Call(fn, args) => |args| == Arity(fn) && AllPrintable(e, args, isFloat)
  }

  predicate AllPrintable(e: Scope, args: seq<Node>, isFloat: string -> bool)
    decreases args
  {
    args == [] || (Printable(e, args[0], isFloat) && AllPrintable(e, args[1..], isFloat))
  }

  lemma ColumnTokenMeans(e: Scope, col: nat)
    requires ColumnPrints(e, col)
    ensures Atom(e, ColumnToken(e, col)) == Some(ColRef(col))
  {
    assert SameName(e.cols[col], e.cols[col]);
  }

  lemma StrTokMeans(e: Scope, s: string)
    requires '\0' !in s
    ensures Atom(e, StrTok(s)) == Some(LitStr(s))
  {}

  lemma WrapMeans(e: Scope, level: nat, c: Tree)
    requires WellFormed(e, c) && level <= 11
    ensures WellFormed(e, Wrap(level, c)) && LevelOf(Wrap(level, c)) >= level && Meaning(e, Wrap(level, c)) == Meaning(e, c)
  {
    hide ParseDt, LookupFn, Level, Arity, Atom;
  }

  /** The printed tree belongs to the grammar and means the expression printed. */
  lemma {:induction false} PrintMeans(e: Scope, n: Node, isFloat: string -> bool)
    requires Printable(e, n, isFloat)
    ensures WellFormed(e, Print(e, n)) && Meaning(e, Print(e, n)) == n
    decreases n
  {
    hide ParseDt, LookupFn, Arity, DtName, FnName, ColumnPrints, ColumnToken, FloatLexeme, Wrap;
    match n
    case LitInt(_) =>
    case LitFloat(_) =>
    case LitStr(s) => StrTokMeans(e, s);
    case LitBool(_) =>
    case LitNull(dt) => DtNameParses(dt);
    case ColRef(col) =>
      ColumnTokenMeans(e, col);
      hide Atom;
    case Unary(_, a) =>
      hide Atom;
      PrintMeans(e, a, isFloat);
      WrapMeans(e, 10, Print(e, a));
    case Binop(op, l, r) =>
      hide Atom;
      PrintMeans(e, l, isFloat);
      PrintMeans(e, r, isFloat);
      WrapMeans(e, Level(op), Print(e, l));
      WrapMeans(e, Level(op) + 1, Print(e, r));
    case Ternary(c, t, f) =>
      hide Atom;
      PrintMeans(e, c, isFloat);
      PrintMeans(e, t, isFloat);
      PrintMeans(e, f, isFloat);
      WrapMeans(e, 1, Print(e, c));
    case Cast(to, _, _, a) =>
      hide Atom;
      DtNameParses(to);
      PrintMeans(e, a, isFloat);
      WrapMeans(e, 10, Print(e, a));
    case Call(fn, args) =>
      hide Atom;
      FnNameParses(fn);
      PrintAllMeans(e, args, isFloat);
  }

  lemma {:induction false} PrintAllMeans(e: Scope, args: seq<Node>, isFloat: string -> bool)
    requires AllPrintable(e, args, isFloat)
    ensures AllWellFormed(e, PrintAll(e, args)) && Meanings(e, PrintAll(e, args)) == args
    decreases args
  {
    if args != [] {
      hide WellFormed, Meaning, Print, Printable;
      PrintMeans(e, args[0], isFloat);
      PrintAllMeans(e, args[1..], isFloat);
      var c, rest := Print(e, args[0]), PrintAll(e, args[1..]);
      assert ([c] + rest)[1..] == rest;
    }
  }

  // ---------------------------------------------------------------- no shorter spelling

  lemma WrapLength(level: nat, c: Tree)
    ensures |Yield(c)| <= |Yield(Wrap(level, c))| <= |Yield(c)| + 2
    ensures level <= LevelOf(c) ==> Wrap(level, c) == c
  {}

  /** Of all the trees that mean the same, the printed one has the fewest tokens, also among
      those that stand where a level is asked for. */
  lemma {:induction false} PrintIsShortest(e: Scope, c: Tree, level: nat)
    requires WellFormed(e, c) && level <= LevelOf(c)
    ensures |Yield(Wrap(level, Print(e, Meaning(e, c))))| <= |Yield(c)|
    decreases c
  {
    hide ParseDt, LookupFn, Arity, DtName, FnName, Wrap;
    WrapLength(level, Print(e, Meaning(e, c)));
    match c
    case Leaf(t) =>
    case NullOf(_, _) => hide Atom;
    case CallOf(_, args) =>
      hide Atom, Level;
      PrintAllIsShortest(e, args);
    case Paren(inner) =>
      hide Atom, Level;
      WrapLength(0, Print(e, Meaning(e, inner)));
      PrintIsShortest(e, inner, 0);
    case Prefixed(_, a) =>
      hide Atom, Level;
      PrintIsShortest(e, a, 10);
    case CastTo(_, _, _, a) =>
      hide Atom, Level;
      PrintIsShortest(e, a, 10);
    case Infixed(op, l, r) =>
      hide Atom, Level;
      PrintIsShortest(e, l, Level(op));
      PrintIsShortest(e, r, Level(op) + 1);
    case Choice(b, t, f) =>
      hide Atom, Level;
      WrapLength(0, Print(e, Meaning(e, t)));
      WrapLength(0, Print(e, Meaning(e, f)));
      PrintIsShortest(e, b, 1);
      PrintIsShortest(e, t, 0);
      PrintIsShortest(e, f, 0);
  }

  lemma {:induction false} PrintAllIsShortest(e: Scope, args: seq<Tree>)
    requires AllWellFormed(e, args)
    ensures |YieldArgs(PrintAll(e, Meanings(e, args)))| <= |YieldArgs(args)|
    decreases args
  {
    if args != [] {
      hide WellFormed, Meaning, Yield, Print;
      var a, rest := args[0], args[1..];
      PrintIsShortest(e, a, 0);
      WrapLength(0, Print(e, Meaning(e, a)));
      PrintAllIsShortest(e, rest);
      var ms := Meanings(e, args);
      assert ms[0] == Meaning(e, a) && ms[1..] == Meanings(e, rest);
      var p := PrintAll(e, ms);
      assert p[0] == Print(e, ms[0]) && p[1..] == PrintAll(e, ms[1..]);
    }
  }
}
