/**
 lex_all (providers/betl-ssisexpr/ssisexpr_provider.c): each function reads one token off the
 front of the rest of the source text, whose end is the C string's NUL.
 */
module Lexer {
  import opened Text
  import opened Syntax

  predicate IsSpace(c: char) { c == ' ' || '\t' <= c <= '\r' }

  predicate IsWord(c: char) { IsLetter(c) || IsDigit(c) || c == '_' }

  function HexNumber(s: string): int {
    if s == "" then 0 else 16 * HexNumber(s[..|s| - 1]) + HexValue(s[|s| - 1])
  }

  /** A token and how many characters it took. */
  datatype Lexed = Bad | Lexed(tok: Tok, n: nat)

  function LexHex(s: string): Lexed
    requires |s| >= 2
  {
    var e := RunEnd(s, 2, IsHex);
    if e == 2 || e - 2 >= 32 then Bad
    else
      // strtoll saturates and its range error is not looked at here
      var v := HexNumber(s[2..e]);
      Lexed(IntTok(if v > INT64_MAX then INT64_MAX else v), e)
  }

  function FractionEnd(s: string, a: nat): (b: nat)
    requires a <= |s|
    ensures a <= b <= |s|
  {
    if At(s, a) == '.' then RunEnd(s, a + 1, IsDigit) else a
  }

  function ExponentEnd(s: string, b: nat): (e: nat)
    requires b <= |s|
    ensures b <= e <= |s|
  {
    if At(s, b) != 'e' && At(s, b) != 'E' then b
    else
      var signed := At(s, b + 1) == '+' || At(s, b + 1) == '-';
      RunEnd(s, if signed then b + 2 else b + 1, IsDigit)
  }

  /** End of the integer part, and of the whole number. */
  function NumberEnds(s: string): (r: (nat, nat))
    requires s != ""
    ensures r.0 <= r.1 <= |s|
  {
    var a := RunEnd(s, 0, IsDigit);
    (a, ExponentEnd(s, FractionEnd(s, a)))
  }

  /** lex_number. Whether strtod accepts a lexeme is the parameter `isFloat`. */
  function LexNumber(s: string, isFloat: string -> bool): Lexed
    requires s != ""
  {
    if At(s, 0) == '0' && (At(s, 1) == 'x' || At(s, 1) == 'X') then LexHex(s)
    else
      var (a, e) := NumberEnds(s);
      if e >= 64 then Bad
      else if e > a then (if isFloat(s[..e]) then Lexed(FloatTok(s[..e]), e) else Bad)
      else if NumberOf(s[..a]) > INT64_MAX then Bad
      else Lexed(IntTok(NumberOf(s[..a])), a)
  }

  /** decode_escape. */
  function Escape(c: char): Option<char> {
    if c == 'n' then Some('\n')
    else if c == 't' then Some('\t')
    else if c == 'r' then Some('\r')
    else if c == '\\' then Some('\\')
    else if c == '\"' then Some('\"')
    else if c == '0' then Some('\0')
    else None
  }

  /** The rest of a string literal: its decoded characters and the length up to and
      including the closing quote. */
  function LexString(s: string): (r: Option<(string, nat)>)
    ensures r.Some? ==> 0 < r.value.1 <= |s|
  {
    if At(s, 0) == '\0' then None
    else if s[0] == '\"' then Some(("", 1))
    else if s[0] == '\\' then
      match Escape(At(s, 1))
      case None => None
      case Some(c) => DecodedBefore([c], 2, LexString(s[2..]))
    else DecodedBefore([s[0]], 1, LexString(s[1..]))
  }

  function WordToken(w: string): Tok {
    if SameName(w, "TRUE") then KwTrue
    else if SameName(w, "FALSE") then KwFalse
    else if SameName(w, "NULL") then KwNull
    else Ident(w)
  }

  predicate InBrackets(c: char) { c != ']' && c != '\0' }

  /** Text up to the closing bracket, starting at `i`. */
  function LexBracketed(s: string, i: nat): (r: Option<(string, nat)>)
    requires i <= |s|
    ensures r.Some? ==> i < r.value.1 <= |s|
  {
    var e := RunEnd(s, i, InBrackets);
    if At(s, e) == ']' then Some((s[i..e], e + 1)) else None
  }

  /** Operators and punctuation, longest first. */
  function LexSign(c: char, d: char): Lexed {
    match c
    case '(' => Lexed(LParen, 1)
    case ')' => Lexed(RParen, 1)
    case ',' => Lexed(Comma, 1)
    case '+' => Lexed(Infix(Add), 1)
    case '-' => Lexed(Infix(Sub), 1)
    case '*' => Lexed(Infix(Mul), 1)
    case '/' => Lexed(Infix(Div), 1)
    case '%' => Lexed(Infix(Mod), 1)
    case '~' => Lexed(Tilde, 1)
    case '?' => Lexed(QMark, 1)
    case ':' => Lexed(Colon, 1)
    case '!' => if d == '=' then Lexed(Infix(NotEqual), 2) else Lexed(Bang, 1)
    case '=' => if d == '=' then Lexed(Infix(Equal), 2) else Bad
    case '<' => if d == '=' then Lexed(Infix(LessEq), 2) else Lexed(Infix(Less), 1)
    case '>' => if d == '=' then Lexed(Infix(GreaterEq), 2) else Lexed(Infix(Greater), 1)
    case '&' => if d == '&' then Lexed(Infix(And), 2) else Lexed(Infix(BitAnd), 1)
    case '|' => if d == '|' then Lexed(Infix(Or), 2) else Lexed(Infix(BitOr), 1)
    case '^' => Lexed(Infix(BitXor), 1)
    case _ => Bad
  }

  /** The token at the front of a text that starts with neither blank nor NUL. */
  function LexToken(s: string, isFloat: string -> bool): (r: Lexed)
    requires At(s, 0) != '\0'
    ensures r.Lexed? ==> 0 < r.n <= |s| && r.tok != Eof
  {
    var c := s[0];
    if IsDigit(c) then LexNumber(s, isFloat)
    else if c == '\"' then
      (match LexString(s[1..]) case None => Bad case Some(r) => Lexed(StrTok(r.0), r.1 + 1))
    else if c == '[' then
      (match LexBracketed(s, 1) case None => Bad case Some(r) => Lexed(BrIdent(r.0), r.1))
    else if c == '@' then
      if At(s, 1) != '[' then Bad
      else (match LexBracketed(s, 2)
            case None => Bad
            case Some(r) => if r.0 == "" then Bad else Lexed(VarRef(r.0), r.1))
    else if IsLetter(c) || c == '_' then
      var e := RunEnd(s, 0, IsWord);
      Lexed(WordToken(s[..e]), e)
    else LexSign(c, At(s, 1))
  }

  function Before(toks: seq<Tok>, rest: Option<seq<Tok>>): Option<seq<Tok>> {
    match rest case None => None case Some(r) => Some(toks + r)
  }

  lemma BeforeTwice(toks: seq<Tok>, t: Tok, rest: Option<seq<Tok>>)
    ensures Before(toks, Before([t], rest)) == Before(toks + [t], rest)
    ensures Before([], rest) == rest
  {
    if rest.Some? {
      assert toks + ([t] + rest.value) == toks + [t] + rest.value;
      assert [] + rest.value == rest.value;
    }
  }

  /** The token array lex_all leaves: one end marker, at the end. */
  predicate Stream(toks: seq<Tok>) {
    toks != [] && toks[|toks| - 1] == Eof && forall i :: 0 <= i < |toks| - 1 ==> toks[i] != Eof
  }

  lemma StreamBefore(t: Tok, rest: Option<seq<Tok>>)
    requires t != Eof
    ensures rest.Some? && Stream(rest.value) ==> Stream([t] + rest.value)
  {}

  /** lex_all: every token of the text, then the end marker. */
  function Lex(s: string, isFloat: string -> bool): (r: Option<seq<Tok>>)
    ensures r.Some? ==> Stream(r.value)
    decreases |s|
  {
    hide LexToken, IsSpace, Stream;
    EofStream();
    if At(s, 0) == '\0' then Some([Eof])
    else if IsSpace(s[0]) then Lex(s[1..], isFloat)
    else
      match LexToken(s, isFloat)
      case Bad => None
      case Lexed(tok, n) =>
        StreamBefore(tok, Lex(s[n..], isFloat));
        Before([tok], Lex(s[n..], isFloat))
  }

  lemma EofStream()
    ensures Stream([Eof])
  {}
}
