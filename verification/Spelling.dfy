/**
 Tokens as source text. Any blanks may stand between tokens, none are needed except where two
 tokens would be read as one; the lexer reads every such text back.
 */
module Spelling {
  import opened Text
  import opened Syntax
  import opened Lexer
  import opened Printer

  function EscapeOne(c: char): string {
    if c == '\0' then "\\0" else if c == '\"' then "\\\"" else if c == '\\' then "\\\\" else [c]
  }

  function EscapeAll(s: string): string {
    if s == "" then "" else EscapeOne(s[0]) + EscapeAll(s[1..])
  }

  function OpText(op: BinOp): (s: string)
    ensures 1 <= |s| <= 2
  {
    match op
    case Or => "||"
    case And => "&&"
    case BitOr => "|"
    case BitXor => "^"
    case BitAnd => "&"
    case Equal => "=="
    case NotEqual => "!="
    case Less => "<"
    case LessEq => "<="
    case Greater => ">"
    case GreaterEq => ">="
    case Add => "+"
    case Sub => "-"
    case Mul => "*"
    case Div => "/"
    case Mod => "%"
  }

  function TokText(t: Tok): string {
    match t
    case Eof => ""
    case IntTok(i) => if i >= 0 then Padded(i, 1) else ""
    case FloatTok(x) => x
    case StrTok(s) => "\"" + EscapeAll(s) + "\""
    case Ident(w) => w
    case BrIdent(w) => "[" + w + "]"
    case VarRef(w) => "@[" + w + "]"
    case KwTrue => "TRUE"
    case KwFalse => "FALSE"
    case KwNull => "NULL"
    case Infix(op) => OpText(op)
    case Bang => "!"
    case Tilde => "~"
    case LParen => "("
    case RParen => ")"
    case Comma => ","
    case QMark => "?"
    case Colon => ":"
  }

  predicate IsWordText(w: string) {
    w != "" && !IsDigit(w[0]) && forall i :: 0 <= i < |w| ==> IsWord(w[i])
  }

  /** Tokens that lex_all can produce, the end marker aside. */
  predicate Writable(t: Tok, isFloat: string -> bool) {
    match t
    case Eof => false
    case IntTok(i) => InRange(i)
    case FloatTok(x) => FloatLexeme(x, isFloat)
    case Ident(w) => IsWordText(w) && WordToken(w) == t
    case BrIdent(w) => Bracketable(w)
    case VarRef(w) => w != "" && Bracketable(w)
    case _ => true
  }

  /** The character cannot follow the token's text directly. */
  predicate Glues(t: Tok, c: char) {
    match t
    case IntTok(i) => IsDigit(c) || c == '.' || c == 'e' || c == 'E' || (i == 0 && (c == 'x' || c == 'X'))
    case FloatTok(x) =>
      || IsDigit(c) || c == '.' || c == 'e' || c == 'E'
      || ((c == '+' || c == '-') && x != "" && (x[|x| - 1] == 'e' || x[|x| - 1] == 'E'))
    case Ident(_) => IsWord(c)
    case KwTrue => IsWord(c)
    case KwFalse => IsWord(c)
    case KwNull => IsWord(c)
    case Bang => c == '='
    case Infix(Less) => c == '='
    case Infix(Greater) => c == '='
    case Infix(BitAnd) => c == '&'
    case Infix(BitOr) => c == '|'
    case _ => false
  }

  predicate Blank(gap: string) { forall i :: 0 <= i < |gap| ==> IsSpace(gap[i]) }

  /** Token texts with a gap before each and one at the end. */
  function Render(toks: seq<Tok>, gaps: seq<string>): string
    requires |gaps| == |toks| + 1
  {
    if toks == [] then gaps[0] else gaps[0] + (TokText(toks[0]) + Render(toks[1..], gaps[1..]))
  }

  /** Gaps are blank, and not empty where the tokens around one would run together. */
  predicate Separates(toks: seq<Tok>, gaps: seq<string>)
    requires |gaps| == |toks| + 1
  {
    && (forall i :: 0 <= i < |gaps| ==> Blank(gaps[i]))
    && (forall i :: 0 < i < |toks| && gaps[i] == "" ==> !Glues(toks[i - 1], At(TokText(toks[i]), 0)))
  }

  // ---------------------------------------------------------------- one token

  lemma {:induction false} RunOver(w: string, i: nat, rest: string, p: char -> bool)
    requires i <= |w| && (forall k :: i <= k < |w| ==> p(w[k])) && (rest != "" ==> !p(rest[0]))
    ensures RunEnd(w + rest, i, p) == |w|
    decreases |w| - i
  {
    if i < |w| { RunOver(w, i + 1, rest, p); }
  }

  /** A run inside `x` ends where it ends in a longer text that goes on with something else. */
  lemma {:induction false} RunStops(x: string, i: nat, rest: string, p: char -> bool)
    requires i <= |x| && (rest != "" ==> !p(rest[0]))
    ensures RunEnd(x + rest, i, p) == RunEnd(x, i, p)
    decreases |x| - i
  {
    if i < |x| && p(x[i]) { RunStops(x, i + 1, rest, p); }
  }

  lemma EscapeReads(c: char, tail: string)
    ensures LexString(EscapeOne(c) + tail) == DecodedBefore([c], |EscapeOne(c)|, LexString(tail))
  {
    var x := EscapeOne(c) + tail;
    assert x[|EscapeOne(c)|..] == tail;
    hide DecodedBefore;
    if |EscapeOne(c)| == 2 { assert x[0] == '\\' && Escape(x[1]) == Some(c); }
  }

  /** `q` is a closing quote and what follows it. */
  lemma {:induction false} EscapedReads(s: string, q: string)
    requires LexString(q) == Some(("", 1))
    ensures LexString(EscapeAll(s) + q) == Some((s, |EscapeAll(s)| + 1))
  {
    hide LexString, EscapeOne;
    if s == "" {
      assert EscapeAll(s) + q == q;
    } else {
      EscapedReads(s[1..], q);
      EscapeReads(s[0], EscapeAll(s[1..]) + q);
      assert EscapeAll(s) + q == EscapeOne(s[0]) + (EscapeAll(s[1..]) + q);
      assert s == [s[0]] + s[1..];
    }
  }

  lemma QuoteCloses(rest: string)
    ensures LexString("\"" + rest) == Some(("", 1))
  {}

  lemma QuotedLexes(text: string, s: string, n: nat, isFloat: string -> bool)
    requires text != "" && text[0] == '\"' && LexString(text[1..]) == Some((s, n))
    ensures LexToken(text, isFloat) == Lexed(StrTok(s), n + 1)
  {
    hide LexString, LexNumber, LexSign, LexBracketed, RunEnd;
  }

  lemma StringLexes(s: string, rest: string, isFloat: string -> bool)
    ensures LexToken(TokText(StrTok(s)) + rest, isFloat) == Lexed(StrTok(s), |TokText(StrTok(s))|)
  {
    hide LexString, EscapeAll, LexToken;
    var q, x := "\"" + rest, EscapeAll(s);
    var text := TokText(StrTok(s)) + rest;
    QuoteCloses(rest);
    EscapedReads(s, q);
    assert text == "\"" + (x + q);
    assert text[1..] == x + q;
    QuotedLexes(text, s, |x| + 1, isFloat);
  }

  lemma BracketLexes(w: string, rest: string)
    requires Bracketable(w)
    ensures LexBracketed("[" + w + "]" + rest, 1) == Some((w, |w| + 2))
    ensures LexBracketed("@[" + w + "]" + rest, 2) == Some((w, |w| + 3))
  {
    RunOver("[" + w, 1, "]" + rest, InBrackets);
    RunOver("@[" + w, 2, "]" + rest, InBrackets);
    assert "[" + w + "]" + rest == "[" + w + ("]" + rest);
    assert "@[" + w + "]" + rest == "@[" + w + ("]" + rest);
    assert ("[" + w + "]" + rest)[1..1 + |w|] == w;
    assert ("@[" + w + "]" + rest)[2..2 + |w|] == w;
  }

  lemma WordLexes(t: Tok, w: string, rest: string, isFloat: string -> bool)
    requires IsWordText(w) && WordToken(w) == t && !IsWord(At(rest, 0))
    ensures LexToken(w + rest, isFloat) == Lexed(t, |w|)
  {
    RunOver(w, 0, rest, IsWord);
    assert (w + rest)[..|w|] == w;
    hide WordToken, LexNumber, LexString, LexBracketed;
  }

  lemma LoneZero(i: nat)
    ensures |Padded(i, 1)| == 1 && Padded(i, 1)[0] == '0' ==> i == 0
  {
    if i < 10 { assert Padded(i, 1) == [DigitChar(i)]; }
  }

  lemma IntLexes(i: int, rest: string, isFloat: string -> bool)
    requires InRange(i) && !Glues(IntTok(i), At(rest, 0))
    ensures LexToken(Padded(i, 1) + rest, isFloat) == Lexed(IntTok(i), |Padded(i, 1)|)
  {
    var x := Padded(i, 1);
    IntLength(i);
    NumberOfPadded(i, 1);
    LoneZero(i);
    hide *;
    DigitsFollowed(x, rest, i);
    WholeNumberLexes(x + rest, |x|, i, isFloat);
  }

  lemma DigitsFollowed(x: string, rest: string, i: int)
    requires x != "" && AllDigits(x) && !Glues(IntTok(i), At(rest, 0)) && (|x| == 1 && x[0] == '0' ==> i == 0)
    ensures var y := x + rest;
            && IsDigit(y[0]) && !(y[0] == '0' && (At(y, 1) == 'x' || At(y, 1) == 'X'))
            && NumberEnds(y) == (|x|, |x|) && y[..|x|] == x
  {
    RunOver(x, 0, rest, IsDigit);
    assert At(x + rest, |x|) == At(rest, 0);
    assert At(x + rest, 0) == x[0] && At(x + rest, 1) == if |x| > 1 then x[1] else At(rest, 0);
  }

  lemma WholeNumberLexes(y: string, a: nat, i: int, isFloat: string -> bool)
    requires y != "" && IsDigit(y[0]) && !(y[0] == '0' && (At(y, 1) == 'x' || At(y, 1) == 'X'))
    requires NumberEnds(y) == (a, a) && a < 64 && NumberOf(y[..a]) == i && InRange(i)
    ensures LexToken(y, isFloat) == Lexed(IntTok(i), a)
  {
    hide NumberOf, RunEnd, NumberEnds, LexString, LexBracketed, LexHex, LexSign, WordToken;
  }

  lemma IntLength(i: int)
    requires InRange(i)
    ensures |Padded(i, 1)| <= 19
  {
    assert Pow10(19) == 10_000_000_000_000_000_000 by { assert Pow10(10) == 10_000_000_000; }
    PaddedLength(i, 19);
    PaddedMonotone(i, 1, 19);
  }

  lemma FractionStops(x: string, a: nat, rest: string)
    requires a <= |x| && !IsDigit(At(rest, 0)) && At(rest, 0) != '.'
    ensures FractionEnd(x + rest, a) == FractionEnd(x, a)
  {
    if a < |x| { RunStops(x, a + 1, rest, IsDigit); }
    assert At(x + rest, a) == if a < |x| then x[a] else At(rest, 0);
  }

  lemma ExponentStops(x: string, b: nat, rest: string)
    requires b <= |x| && !Glues(FloatTok(x), At(rest, 0))
    ensures ExponentEnd(x + rest, b) == ExponentEnd(x, b)
  {
    if b == |x| {
      assert At(x + rest, b) == At(rest, 0);
    } else {
      assert At(x + rest, b) == x[b];
      assert At(x + rest, b + 1) == if b + 1 < |x| then x[b + 1] else At(rest, 0);
      RunStops(x, b + 1, rest, IsDigit);
      if b + 2 <= |x| { RunStops(x, b + 2, rest, IsDigit); }
      hide RunEnd;
    }
  }

  /** A number's ends do not move when something that cannot extend it follows. */
  lemma NumberEndsStop(x: string, rest: string)
    requires x != "" && !Glues(FloatTok(x), At(rest, 0))
    ensures NumberEnds(x + rest) == NumberEnds(x)
  {
    var a := RunEnd(x, 0, IsDigit);
    RunStops(x, 0, rest, IsDigit);
    FractionStops(x, a, rest);
    ExponentStops(x, FractionEnd(x, a), rest);
    hide FractionEnd, ExponentEnd, RunEnd;
  }

  lemma FloatLexes(x: string, rest: string, isFloat: string -> bool)
    requires FloatLexeme(x, isFloat) && !Glues(FloatTok(x), At(rest, 0))
    ensures LexToken(x + rest, isFloat) == Lexed(FloatTok(x), |x|)
  {
    NumberEndsStop(x, rest);
    assert (x + rest)[..|x|] == x;
    hide NumberEnds, NumberOf, LexString, LexBracketed, LexHex;
    assert At(x + rest, 0) == x[0];
    assert |x| > 1 && At(x + rest, 1) == x[1];
  }

  lemma SignLexes(t: Tok, rest: string, isFloat: string -> bool)
    requires t.Infix? || t.Bang? || t.Tilde? || t.LParen? || t.RParen? || t.Comma? || t.QMark? || t.Colon?
    requires !Glues(t, At(rest, 0))
    ensures LexToken(TokText(t) + rest, isFloat) == Lexed(t, |TokText(t)|)
  {
    var x, y := TokText(t), TokText(t) + rest;
    assert y[0] == x[0] && At(y, 1) == if |x| == 2 then x[1] else At(rest, 0);
    SignText(t, At(rest, 0));
    hide LexNumber, LexString, LexBracketed, RunEnd, WordToken, TokText, LexSign, Glues;
  }

  lemma SignText(t: Tok, next: char)
    requires t.Infix? || t.Bang? || t.Tilde? || t.LParen? || t.RParen? || t.Comma? || t.QMark? || t.Colon?
    requires !Glues(t, next)
    ensures var x := TokText(t);
            && 1 <= |x| <= 2 && LexSign(x[0], if |x| == 2 then x[1] else next) == Lexed(t, |x|)
            && !IsDigit(x[0]) && !IsLetter(x[0]) && x[0] != '_' && x[0] != '\"' && x[0] != '[' && x[0] != '@' && x[0] != '\0'
  {}

  lemma KeywordLexes(t: Tok, rest: string, isFloat: string -> bool)
    requires t.KwTrue? || t.KwFalse? || t.KwNull?
    requires !IsWord(At(rest, 0))
    ensures LexToken(TokText(t) + rest, isFloat) == Lexed(t, |TokText(t)|)
  {
    assert WordToken(TokText(t)) == t by {
      if t.KwNull? { assert |TokText(t)| == 4 && Lower("NULL"[0]) != Lower("TRUE"[0]); }
    }
    WordLexes(t, TokText(t), rest, isFloat);
  }

  /** A token's text reads back as the token, whatever follows that does not run into it. */
  lemma TokenLexes(t: Tok, rest: string, isFloat: string -> bool)
    requires Writable(t, isFloat) && !Glues(t, At(rest, 0))
    ensures TokText(t) != "" && !IsSpace(TokText(t)[0]) && TokText(t)[0] != '\0'
    ensures LexToken(TokText(t) + rest, isFloat) == Lexed(t, |TokText(t)|)
  {
    TokenStarts(t, isFloat);
    hide LexToken, Padded, EscapeAll, Bracketable, FloatLexeme, WordToken, OpText;
    match t
    case IntTok(i) => IntLexes(i, rest, isFloat);
    case FloatTok(x) => FloatLexes(x, rest, isFloat);
    case StrTok(s) => StringLexes(s, rest, isFloat);
    case Ident(w) => WordLexes(t, w, rest, isFloat);
    case BrIdent(w) => BracketTokenLexes(t, rest, isFloat);
    case VarRef(w) => BracketTokenLexes(t, rest, isFloat);
    case KwTrue => KeywordLexes(t, rest, isFloat);
    case KwFalse => KeywordLexes(t, rest, isFloat);
    case KwNull => KeywordLexes(t, rest, isFloat);
    case _ => SignLexes(t, rest, isFloat);
  }

  lemma BracketTokenLexes(t: Tok, rest: string, isFloat: string -> bool)
    requires (t.BrIdent? || (t.VarRef? && t.name != "")) && Bracketable(t.name)
    ensures LexToken(TokText(t) + rest, isFloat) == Lexed(t, |TokText(t)|)
  {
    BracketLexes(t.name, rest);
    var x := TokText(t) + rest;
    assert t.VarRef? ==> x[0] == '@' && x[1] == '[';
    hide LexNumber, LexString, LexBracketed, RunEnd, WordToken, Bracketable;
  }

  lemma TokenStarts(t: Tok, isFloat: string -> bool)
    requires Writable(t, isFloat)
    ensures TokText(t) != "" && !IsSpace(TokText(t)[0]) && TokText(t)[0] != '\0'
  {
    hide EscapeAll, Bracketable, WordToken, NumberEnds;
    if t.IntTok? { assert IsDigit(Padded(t.i, 1)[0]); }
  }

  // ---------------------------------------------------------------- hexadecimal literals

  /** A number in lower-case hexadecimal. */
  function HexText(n: nat): (s: string)
    ensures s != "" && forall i :: 0 <= i < |s| ==> IsHex(s[i])
  {
    if n < 16 then [HexDigit(n)] else HexText(n / 16) + [HexDigit(n % 16)]
  }

  lemma {:induction false} HexTextDenotes(n: nat)
    ensures HexNumber(HexText(n)) == n
    decreases n
  {
    var s := HexText(n);
    if n < 16 {
      assert s[..0] == "";
    } else {
      HexTextDenotes(n / 16);
      assert s[..|s| - 1] == HexText(n / 16);
    }
  }

  /** A hexadecimal literal of up to 31 digits reads as its number, or as 2^63-1 when the
      number is larger; a longer one is refused. */
  lemma HexLexes(n: nat, rest: string, isFloat: string -> bool)
    requires !IsHex(At(rest, 0))
    ensures LexToken("0x" + HexText(n) + rest, isFloat)
         == if |HexText(n)| < 32 then Lexed(IntTok(if n > INT64_MAX then INT64_MAX else n), |HexText(n)| + 2) else Bad
  {
    var x := "0x" + HexText(n);
    HexTextDenotes(n);
    RunOver(x, 2, rest, IsHex);
    assert (x + rest)[2..|x|] == HexText(n);
    assert (x + rest)[0] == '0' && At(x + rest, 1) == 'x';
    hide HexText, HexNumber;
  }
}
