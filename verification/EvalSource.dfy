/**
 From source text to value: what a literal, a column and an operator between two numbers
 evaluate to when they are compiled first.
 */
module EvalSource {
  import opened Text
  import opened Syntax
  import Lexer
  import Parser
  import Grammar
  import GrammarTheorems
  import Spelling
  import RoundTrip
  import Precedence
  import opened Eval
  import EvalValues
  import CInt

  /** Compile, then evaluate on one row. */
  function Run<F>(m: Machine<F>, e: Scope, text: string, isFloat: string -> bool): Option<Value<F>> {
    match Parser.Compile(e, text, isFloat)
    case None => None
    case Some(n) => EvalNode(m, n)
  }

  lemma OneToken(e: Scope, t: Tok, isFloat: string -> bool)
    requires Spelling.Writable(t, isFloat) && Parser.Atom(e, t).Some?
    ensures Parser.Compile(e, Spelling.TokText(t), isFloat) == Parser.Atom(e, t)
  {
    hide *;
    OneTokenLexes(t, isFloat);
    Precedence.LeafMeans(e, t);
    Precedence.OperandBinds(e, Grammar.Leaf(t));
    GrammarTheorems.EveryTreeParses(e, Grammar.Leaf(t));
    Precedence.CompileIs(e, Spelling.TokText(t), [t] + [Eof], isFloat);
  }

  lemma OneTokenLexes(t: Tok, isFloat: string -> bool)
    requires Spelling.Writable(t, isFloat)
    ensures Lexer.Lex(Spelling.TokText(t), isFloat) == Some([t] + [Eof])
  {
    hide Spelling.TokText, Spelling.Writable, Lexer.Lex, Spelling.Glues;
    RoundTrip.RenderLexes([t], ["", ""], isFloat);
    assert [""] + [""] == ["", ""] && [t] + [] == [t];
    Precedence.RenderOne("", t, [], [""]);
    assert Spelling.Render([], [""]) == "";
    assert "" + (Spelling.TokText(t) + "") == Spelling.TokText(t);
  }

  lemma TokenTexts(n: nat, s: string, w: string, isFloat: string -> bool)
    ensures Spelling.TokText(IntTok(n)) == Padded(n, 1) && Spelling.TokText(StrTok(s)) == "\"" + Spelling.EscapeAll(s) + "\""
    ensures Spelling.TokText(KwTrue) == "TRUE" && Spelling.TokText(KwFalse) == "FALSE"
    ensures Spelling.TokText(BrIdent(w)) == "[" + w + "]"
    ensures n <= INT64_MAX ==> Spelling.Writable(IntTok(n), isFloat)
    ensures Spelling.Writable(StrTok(s), isFloat) && Spelling.Writable(KwTrue, isFloat) && Spelling.Writable(KwFalse, isFloat)
    ensures (forall i :: 0 <= i < |w| ==> w[i] != ']' && w[i] != '\0') ==> Spelling.Writable(BrIdent(w), isFloat)
  {
    hide Spelling.EscapeAll;
  }

  lemma AtomsOf(e: Scope, n: nat, s: string)
    ensures Parser.Atom(e, IntTok(n)) == Some(LitInt(n))
    ensures '\0' !in s ==> Parser.Atom(e, StrTok(s)) == Some(LitStr(s))
    ensures Parser.Atom(e, KwTrue) == Some(LitBool(true)) && Parser.Atom(e, KwFalse) == Some(LitBool(false))
  {}

  lemma LiteralNodes<F>(m: Machine<F>, n: nat, s: string)
    requires n <= INT64_MAX
    ensures CInt.IsInt64(n) && EvalNode(m, LitInt(n)) == Some(VInt(n)) && EvalNode(m, LitStr(s)) == Some(VStr(s))
    ensures EvalNode(m, LitBool(true)) == Some(VBool(true)) && EvalNode(m, LitBool(false)) == Some(VBool(false))
  {}

  /** A written number, a quoted text and the two truth values evaluate to what they spell. */
  lemma LiteralsEvaluate<F>(m: Machine<F>, e: Scope, n: nat, s: string, isFloat: string -> bool)
    requires n <= INT64_MAX && '\0' !in s
    ensures CInt.IsInt64(n) && Run(m, e, Padded(n, 1), isFloat) == Some(VInt(n))
    ensures Run(m, e, "\"" + Spelling.EscapeAll(s) + "\"", isFloat) == Some(VStr(s))
    ensures Run(m, e, "TRUE", isFloat) == Some(VBool(true)) && Run(m, e, "FALSE", isFloat) == Some(VBool(false))
  {
    LiteralNodes(m, n, s);
    hide Padded, Spelling.EscapeAll, EvalNode, Parser.Compile, Parser.Atom, Spelling.Writable, Spelling.TokText;
    TokenTexts(n, s, "", isFloat);
    AtomsOf(e, n, s);
    OneToken(e, IntTok(n), isFloat);
    OneToken(e, StrTok(s), isFloat);
    OneToken(e, KwTrue, isFloat);
    OneToken(e, KwFalse, isFloat);
  }

  /** A name in brackets reads the first column of that name, in any letter case. */
  lemma ColumnEvaluates<F>(m: Machine<F>, e: Scope, w: string, i: nat, isFloat: string -> bool)
    requires forall k :: 0 <= k < |w| ==> w[k] != ']' && w[k] != '\0'
    requires i < |e.cols| && SameName(w, e.cols[i]) && forall k :: 0 <= k < i ==> !SameName(w, e.cols[k])
    ensures Run(m, e, "[" + w + "]", isFloat) == m.cell(i)
  {
    TokenTexts(0, "", w, isFloat);
    ColumnAtom(e, w, i);
    hide Parser.Compile, Parser.Atom, Spelling.Writable, Spelling.TokText, SameName;
    OneToken(e, BrIdent(w), isFloat);
  }

  lemma ColumnAtom(e: Scope, w: string, i: nat)
    requires i < |e.cols| && SameName(w, e.cols[i]) && forall k :: 0 <= k < i ==> !SameName(w, e.cols[k])
    ensures Parser.Atom(e, BrIdent(w)) == Some(ColRef(i))
  {
    hide SameName;
    var r := FindName(e.cols, w);
  }

  lemma TwoNumbers(e: Scope, l: nat, op: BinOp, r: nat, isFloat: string -> bool)
    requires l <= INT64_MAX && r <= INT64_MAX
    ensures Parser.Compile(e, Padded(l, 1) + " " + Spelling.OpText(op) + " " + Padded(r, 1), isFloat)
         == Some(Binop(op, LitInt(l), LitInt(r)))
  {
    hide *;
    var a, b := Grammar.Leaf(IntTok(l)), Grammar.Leaf(IntTok(r));
    NumberLeaf(e, l);
    NumberLeaf(e, r);
    Precedence.OperandBinds(e, a);
    Precedence.OperandBinds(e, b);
    Precedence.LevelBelowOperands(op);
    Precedence.InfixTree(e, op, a, b);
    GrammarTheorems.EveryTreeParses(e, Grammar.Infixed(op, a, b));
    ThreeTokens(l, op, r, isFloat);
    assert [IntTok(l)] + [Infix(op)] + [IntTok(r)] == [IntTok(l), Infix(op), IntTok(r)];
    Precedence.CompileIs(e, Padded(l, 1) + " " + Spelling.OpText(op) + " " + Padded(r, 1),
      [IntTok(l), Infix(op), IntTok(r)] + [Eof], isFloat);
  }

  lemma NumberLeaf(e: Scope, n: nat)
    ensures Precedence.Operand(e, Grammar.Leaf(IntTok(n))) && Grammar.Meaning(e, Grammar.Leaf(IntTok(n))) == LitInt(n)
    ensures Grammar.Yield(Grammar.Leaf(IntTok(n))) == [IntTok(n)]
  {}

  lemma ThreeTokens(l: nat, op: BinOp, r: nat, isFloat: string -> bool)
    requires l <= INT64_MAX && r <= INT64_MAX
    ensures Lexer.Lex(Padded(l, 1) + " " + Spelling.OpText(op) + " " + Padded(r, 1), isFloat)
         == Some([IntTok(l), Infix(op), IntTok(r)] + [Eof])
  {
    hide *;
    var a, b, c := IntTok(l), Infix(op), IntTok(r);
    ThreeGaps(l, op, r, isFloat);
    RoundTrip.RenderLexes([a, b, c], ["", " ", " ", ""], isFloat);
    Precedence.RenderLast(c);
    Precedence.RenderOne(" ", b, [c], [" ", ""]);
    Precedence.RenderOne("", a, [b, c], [" ", " ", ""]);
    assert [b] + [c] == [b, c] && [a] + [b, c] == [a, b, c];
    assert [" "] + [" ", ""] == [" ", " ", ""] && [""] + [" ", " ", ""] == ["", " ", " ", ""];
    Precedence.IntText(l);
    Precedence.IntText(r);
    Precedence.InfixText(op);
    ThreeGlued(Padded(l, 1), Spelling.OpText(op), Padded(r, 1));
  }

  lemma ThreeGlued(a: string, b: string, c: string)
    ensures "" + (a + (" " + (b + (" " + c)))) == a + " " + b + " " + c
  {
    Precedence.Glue(a, b, " " + c);
    assert a + " " + b + (" " + c) == a + " " + b + " " + c;
  }

  lemma ThreeGaps(l: nat, op: BinOp, r: nat, isFloat: string -> bool)
    requires l <= INT64_MAX && r <= INT64_MAX
    ensures var toks := [IntTok(l), Infix(op), IntTok(r)];
            RoundTrip.AllWritable(toks, isFloat) && Spelling.Separates(toks, ["", " ", " ", ""])
  {
    hide Spelling.TokText, Spelling.Glues;
  }

  predicate TellsNumbers(op: BinOp, l: int, r: int, b: bool) {
    match op
    case Less => b == (l < r)
    case LessEq => b == (l <= r)
    case Greater => b == (l > r)
    case GreaterEq => b == (l >= r)
    case Equal => b == (l == r)
    case NotEqual => b == (l != r)
    case _ => false
  }

  lemma ComparedTells<F>(m: Machine<F>, op: BinOp, l: nat, r: nat)
    requires IsComparison(op) && EvalValues.Compared(m, LitInt(l), LitInt(r), l < r, l == r)
    ensures exists b :: EvalNode(m, Binop(op, LitInt(l), LitInt(r))) == Some(VBool(b)) && TellsNumbers(op, l, r, b)
  {
    hide EvalNode;
    assert TellsNumbers(Less, l, r, l < r) && TellsNumbers(LessEq, l, r, l <= r) && TellsNumbers(Greater, l, r, l > r);
    assert TellsNumbers(GreaterEq, l, r, l >= r) && TellsNumbers(Equal, l, r, l == r) && TellsNumbers(NotEqual, l, r, l != r);
  }

  lemma RunOfTwo<F>(m: Machine<F>, e: Scope, l: nat, op: BinOp, r: nat, isFloat: string -> bool)
    requires l <= INT64_MAX && r <= INT64_MAX
    ensures Run(m, e, Padded(l, 1) + " " + Spelling.OpText(op) + " " + Padded(r, 1), isFloat)
         == EvalNode(m, Binop(op, LitInt(l), LitInt(r)))
  {
    hide Padded, EvalNode, Spelling.OpText, Parser.Compile;
    TwoNumbers(e, l, op, r, isFloat);
  }

  /** A comparison written between two numbers tells how they compare. */
  lemma NumbersCompare<F>(m: Machine<F>, e: Scope, l: nat, op: BinOp, r: nat, isFloat: string -> bool)
    requires l <= INT64_MAX && r <= INT64_MAX && IsComparison(op)
    ensures exists b ::
              && Run(m, e, Padded(l, 1) + " " + Spelling.OpText(op) + " " + Padded(r, 1), isFloat) == Some(VBool(b))
              && TellsNumbers(op, l, r, b)
  {
    hide *;
    LiteralNodes(m, l, "");
    LiteralNodes(m, r, "");
    EvalValues.IntegersCompare(m, LitInt(l), l, LitInt(r), r);
    ComparedTells(m, op, l, r);
    RunOfTwo(m, e, l, op, r, isFloat);
  }
}
