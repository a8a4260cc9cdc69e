/**
 The lexer and the parser as the engine runs them: a cursor that only moves forward, a token
 array that grows, and one loop per precedence level. Each method computes its function.
 */
module ParserState {
  import opened Text
  import opened Syntax
  import opened Lexer
  import opened Parser

  // ---------------------------------------------------------------- lexer

  class Lex {
    var p: string           // the source text from the cursor on
    var toks: seq<Tok>
    const isFloat: string -> bool

    constructor (source: string, isFloat: string -> bool)
      ensures p == source && toks == [] && this.isFloat == isFloat
    {
      p, toks := source, [];
      this.isFloat := isFloat;
    }

    /** What a token method must do when the reference reads `r` off the front of `start`. */
    ghost predicate Takes(r: Lexed, start: string, before: seq<Tok>, ok: bool)
      reads this
    {
      match r
      case Bad => !ok
      case Lexed(t, n) => ok && n <= |start| && p == start[n..] && toks == before + [t]
    }

    method SkipDigits() returns (n: nat)
      modifies this`p
      ensures n == RunEnd(old(p), 0, IsDigit) && p == old(p)[n..]
    {
      n := 0;
      while p != "" && IsDigit(p[0])
        invariant n <= |old(p)| && p == old(p)[n..]
        invariant RunEnd(old(p), 0, IsDigit) == RunEnd(old(p), n, IsDigit)
        decreases |p|
      {
        p := p[1..];
        n := n + 1;
      }
    }

    method ReadHex() returns (ok: bool)
      requires |p| >= 2
      modifies this
      ensures Takes(LexHex(old(p)), old(p), old(toks), ok)
    {
      ghost var start := p;
      p := p[2..];
      var digits, n, v := p, 0, 0;
      while p != "" && IsHex(p[0])
        invariant n <= |digits| && p == digits[n..] && digits == start[2..] && toks == old(toks)
        invariant RunEnd(start, 2, IsHex) == RunEnd(start, 2 + n, IsHex)
        invariant v == HexNumber(digits[..n])
        decreases |p|
      {
        HexNumberGrows(digits, n);
        v := 16 * v + HexValue(p[0]);
        p := p[1..];
        n := n + 1;
      }
      assert start[2..2 + n] == digits[..n];
      if n == 0 || n >= 32 { return false; }
      toks := toks + [IntTok(if v > INT64_MAX then INT64_MAX else v)];
      return true;
    }

    method SkipFraction(ghost start: string, a: nat) returns (b: nat)
      requires a <= |start| && p == start[a..]
      modifies this`p
      ensures b == FractionEnd(start, a) && p == start[b..]
    {
      b := a;
      if At(p, 0) == '.' {
        p := p[1..];
        RunFrom(start, a + 1, IsDigit);
        var d := SkipDigits();
        b := a + 1 + d;
      }
    }

    method SkipExponent(ghost start: string, b: nat) returns (n: nat)
      requires b <= |start| && p == start[b..]
      modifies this`p
      ensures n == ExponentEnd(start, b) && p == start[n..]
    {
      n := b;
      hide RunEnd;
      if At(p, 0) == 'e' || At(p, 0) == 'E' {
        p := p[1..];
        n := n + 1;
        if At(p, 0) == '+' || At(p, 0) == '-' {
          p := p[1..];
          n := n + 1;
        }
        RunFrom(start, n, IsDigit);
        var d := SkipDigits();
        n := n + d;
      }
    }

    method ReadNumber() returns (ok: bool)
      requires p != ""
      modifies this
      ensures Takes(LexNumber(old(p), isFloat), old(p), old(toks), ok)
    {
      var start := p;
      if At(p, 0) == '0' && (At(p, 1) == 'x' || At(p, 1) == 'X') {
        ok := ReadHex();
        return;
      }
      var a := SkipDigits();
      var b := SkipFraction(start, a);
      var n := SkipExponent(start, b);
      assert NumberEnds(start) == (a, n);
      hide NumberEnds, FractionEnd, ExponentEnd, NumberOf, RunEnd;
      if n >= 64 { return false; }
      if n > a {
        if !isFloat(start[..n]) { return false; }
        toks := toks + [FloatTok(start[..n])];
      } else {
        if NumberOf(start[..n]) > INT64_MAX { return false; }
        toks := toks + [IntTok(NumberOf(start[..n]))];
      }
      return true;
    }

    method ReadString() returns (ok: bool)
      requires p != "" && p[0] == '\"'
      modifies this
      ensures Takes(LexToken(old(p), isFloat), old(p), old(toks), ok)
    {
      p := p[1..];
      ghost var start, n := p, 0;
      var buf := "";
      DecodedTwice("", 0, "", 0, LexString(p));
      while At(p, 0) != '\0' && p[0] != '\"'
        invariant n <= |start| && p == start[n..] && toks == old(toks)
        invariant LexString(start) == DecodedBefore(buf, n, LexString(p))
        decreases |p|
      {
        hide DecodedBefore;
        if p[0] == '\\' {
          var c := Escape(At(p, 1));
          if c == None { return false; }
          DecodedTwice(buf, n, [c.value], 2, LexString(p[2..]));
          p := p[2..];
          buf := buf + [c.value];
          n := n + 2;
        } else {
          DecodedTwice(buf, n, [p[0]], 1, LexString(p[1..]));
          buf := buf + [p[0]];
          p := p[1..];
          n := n + 1;
        }
      }
      if At(p, 0) == '\0' { return false; }
      assert buf + "" == buf;
      p := p[1..];
      toks := toks + [StrTok(buf)];
      return true;
    }

    method ReadWord() returns (ok: bool)
      requires p != "" && (IsLetter(p[0]) || p[0] == '_')
      modifies this
      ensures Takes(LexToken(old(p), isFloat), old(p), old(toks), ok)
    {
      var start, n := p, 0;
      while p != "" && IsWord(p[0])
        invariant n <= |start| && p == start[n..] && toks == old(toks)
        invariant RunEnd(start, 0, IsWord) == RunEnd(start, n, IsWord)
        decreases |p|
      {
        p := p[1..];
        n := n + 1;
      }
      toks := toks + [WordToken(start[..n])];
      return true;
    }

    /** The text up to the closing bracket, for `[...]` and `@[...]`. */
    method ReadBracketed() returns (r: Option<string>)
      modifies this`p
      ensures match LexBracketed(old(p), 0)
              case None => r == None
              case Some(x) => r == Some(x.0) && p == old(p)[x.1..]
    {
      var start, n := p, 0;
      while At(p, 0) != '\0' && p[0] != ']'
        invariant n <= |start| && p == start[n..]
        invariant RunEnd(start, 0, InBrackets) == RunEnd(start, n, InBrackets)
        decreases |p|
      {
        p := p[1..];
        n := n + 1;
      }
      if At(p, 0) != ']' { return None; }
      p := p[1..];
      return Some(start[..n]);
    }

    method ReadBracketIdent() returns (ok: bool)
      requires p != "" && p[0] == '['
      modifies this
      ensures Takes(LexToken(old(p), isFloat), old(p), old(toks), ok)
    {
      BracketedFrom(p, 1);
      p := p[1..];
      var name := ReadBracketed();
      if name == None { return false; }
      toks := toks + [BrIdent(name.value)];
      return true;
    }

    method ReadVarRef() returns (ok: bool)
      requires p != "" && p[0] == '@'
      modifies this
      ensures Takes(LexToken(old(p), isFloat), old(p), old(toks), ok)
    {
      if At(p, 1) != '[' { return false; }
      BracketedFrom(p, 2);
      p := p[2..];
      var name := ReadBracketed();
      if name == None || name.value == "" { return false; }
      toks := toks + [VarRef(name.value)];
      return true;
    }

    method ReadToken() returns (ok: bool)
      requires At(p, 0) != '\0'
      modifies this
      ensures Takes(LexToken(old(p), isFloat), old(p), old(toks), ok)
    {
      var c := p[0];
      if IsDigit(c) {
        ok := ReadNumber();
      } else if c == '\"' {
        ok := ReadString();
      } else if c == '[' {
        ok := ReadBracketIdent();
      } else if c == '@' {
        ok := ReadVarRef();
      } else if IsLetter(c) || c == '_' {
        ok := ReadWord();
      } else {
        match LexSign(c, At(p, 1)) {
          case Bad => ok := false;
          case Lexed(t, n) =>
            p, toks, ok := p[n..], toks + [t], true;
        }
      }
    }

    /** lex_all. */
    method ReadAll() returns (ok: bool)
      requires toks == []
      modifies this
      ensures ok == Lexer.Lex(old(p), isFloat).Some?
      ensures ok ==> toks == Lexer.Lex(old(p), isFloat).value
    {
      hide LexToken, IsSpace;
      BeforeTwice([], Eof, Lexer.Lex(p, isFloat));
      while At(p, 0) != '\0'
        invariant Lexer.Lex(old(p), isFloat) == Before(toks, Lexer.Lex(p, isFloat))
        decreases |p|
      {
        if IsSpace(p[0]) {
          p := p[1..];
        } else {
          ghost var start, before := p, toks;
          ok := ReadToken();
          if !ok { return; }
          BeforeTwice(before, toks[|before|], Lexer.Lex(p, isFloat));
        }
      }
      toks := toks + [Eof];
      return true;
    }
  }

  lemma HexNumberGrows(digits: string, n: nat)
    requires n < |digits|
    ensures HexNumber(digits[..n + 1]) == 16 * HexNumber(digits[..n]) + HexValue(digits[n])
  {
    assert digits[..n + 1][..n] == digits[..n];
  }

  /** Runs and brackets read the same from a later start. */
  lemma {:induction false} RunShift(s: string, k: nat, i: nat, p: char -> bool)
    requires k + i <= |s|
    ensures RunEnd(s, k + i, p) == k + RunEnd(s[k..], i, p)
    decreases |s| - i
  {
    if k + i < |s| && p(s[k + i]) { RunShift(s, k, i + 1, p); }
  }

  lemma RunFrom(s: string, k: nat, p: char -> bool)
    requires k <= |s|
    ensures RunEnd(s, k, p) == k + RunEnd(s[k..], 0, p)
  {
    RunShift(s, k, 0, p);
  }

  lemma BracketedFrom(s: string, k: nat)
    requires k <= |s|
    ensures LexBracketed(s, k) == (match LexBracketed(s[k..], 0)
                                   case None => None
                                   case Some(r) => Some((r.0, k + r.1)))
  {
    RunFrom(s, k, InBrackets);
    var e := RunEnd(s[k..], 0, InBrackets);
    assert s[k..][0..e] == s[k..k + e];
  }

  // ---------------------------------------------------------------- parser

  class Par {
    const e: Scope
    const toks: seq<Tok>
    var pos: nat

    constructor (e: Scope, toks: seq<Tok>)
      ensures this.e == e && this.toks == toks && pos == 0
    {
      this.e, this.toks, pos := e, toks, 0;
    }

    predicate Ready()
      reads this
    {
      Stream(toks) && pos < |toks|
    }

    /** The cursor stands where the reference stopped, or there is no node. */
    ghost predicate Agrees<T>(want: Parsed<T>, got: Option<T>)
      reads this
    {
      match want
      case Fail => got == None
      case Done(n, q) => got == Some(n) && pos == q && Ready()
    }

    method Match(t: Tok) returns (ok: bool)
      requires Ready() && t != Eof
      modifies this`pos
      ensures Ready() && ok == (toks[old(pos)] == t) && pos == if ok then old(pos) + 1 else old(pos)
    {
      ok := toks[pos] == t;
      if ok { pos := pos + 1; }
    }

    method PTernary() returns (r: Option<Node>)
      requires Ready()
      modifies this`pos
      ensures Agrees(ParseTernary(e, toks, old(pos)), r)
      decreases |toks| - pos, 14
    {
      var c := PBinary(1);
      if c == None { return None; }
      var asks := Match(QMark);
      if !asks { return c; }
      var t := PTernary();
      if t == None { return None; }
      var colon := Match(Colon);
      if !colon { return None; }
      var f := PTernary();
      if f == None { return None; }
      return Some(Ternary(c.value, t.value, f.value));
    }

    /** p_or, p_and, p_bor, p_bxor, p_band, p_eq, p_rel, p_add and p_mul, by level. */
    method PBinary(level: nat) returns (r: Option<Node>)
      requires Ready() && 1 <= level <= 10
      modifies this`pos
      ensures Agrees(ParseBinary(e, toks, level, old(pos)), r)
      decreases |toks| - pos, 13 - level
    {
      if level == 10 {
        r := PUnary();
        return;
      }
      ghost var start := pos;
      r := PBinary(level + 1);
      if r == None { return; }
      while IsInfix(toks[pos], level)
        invariant Ready() && start < pos && r.Some?
        invariant ParseBinary(e, toks, level, start) == ParseTail(e, toks, level, r.value, pos)
        decreases |toks| - pos
      {
        var op := toks[pos].op;
        pos := pos + 1;
        var b := PBinary(level + 1);
        if b == None { return None; }
        r := Some(Binop(op, r.value, b.value));
      }
    }

    method PUnary() returns (r: Option<Node>)
      requires Ready()
      modifies this`pos
      ensures Agrees(ParseUnary(e, toks, old(pos)), r)
      decreases |toks| - pos, 2
    {
      var op := Prefix(toks[pos]);
      if op == None {
        r := PPrimary();
        return;
      }
      pos := pos + 1;
      var a := PUnary();
      if a == None { return None; }
      return Some(Unary(op.value, a.value));
    }

    method PPrimary() returns (r: Option<Node>)
      requires Ready()
      modifies this`pos
      ensures Agrees(ParsePrimary(e, toks, old(pos)), r)
      decreases |toks| - pos, 1
    {
      var t := toks[pos];
      if t == Eof { return None; }
      if t == KwNull {
        r := PNull();
        return;
      }
      if t == LParen {
        r := PParenOrCast();
        return;
      }
      if t.Ident? && toks[pos + 1] == LParen {
        var fn := LookupFn(t.name);
        if fn == None { return None; }
        r := PCallArgs(fn.value);
        return;
      }
      r := Atom(e, t);
      if r != None { pos := pos + 1; }
    }

    method PNull() returns (r: Option<Node>)
      requires Ready() && toks[pos] == KwNull
      modifies this`pos
      ensures Agrees(ParseNull(toks, old(pos)), r)
    {
      hide ParseDt;
      pos := pos + 1;
      var open := Match(LParen);
      if !open || !IsDtName(toks[pos]) { return None; }
      var dt := ParseDt(toks[pos].name).value;
      pos := pos + 1;
      var comma := Match(Comma);
      if comma {
        if !toks[pos].IntTok? { return None; }
        pos := pos + 1;
      }
      var close := Match(RParen);
      if !close { return None; }
      return Some(LitNull(dt));
    }

    method PCastSize() returns (r: Option<CastSize>)
      requires Ready()
      modifies this`pos
      ensures Agrees(ParseCastSize(toks, old(pos)), r)
    {
      var len, scale: Option<int> := None, None;
      var first := Match(Comma);
      if first {
        if !toks[pos].IntTok? { return None; }
        len := Some(toks[pos].i);
        pos := pos + 1;
        var second := Match(Comma);
        if second {
          if !toks[pos].IntTok? { return None; }
          scale := Some(toks[pos].i);
          pos := pos + 1;
        }
      }
      var close := Match(RParen);
      if !close { return None; }
      return Some(CastSize(len, scale));
    }

    method PParenOrCast() returns (r: Option<Node>)
      requires Ready() && toks[pos] == LParen
      modifies this`pos
      ensures Agrees(if CastAhead(toks, old(pos)) then ParseCast(e, toks, old(pos)) else ParseParen(e, toks, old(pos)), r)
      decreases |toks| - pos, 0
    {
      hide ParseBinary, ParsePrimary, ParseDt, ParseCastSize;
      var cast := CastAhead(toks, pos);
      pos := pos + 1;
      if cast {
        var dt := ParseDt(toks[pos].name).value;
        pos := pos + 1;
        var size := PCastSize();
        if size == None { return None; }
        var a := PUnary();
        if a == None { return None; }
        return Some(Cast(dt, size.value.len, size.value.scale, a.value));
      }
      var inner := PTernary();
      if inner == None { return None; }
      var close := Match(RParen);
      return if close then inner else None;
    }

    /** The comma-separated arguments, at least one. */
    method PArgs() returns (r: Option<seq<Node>>)
      requires Ready()
      modifies this`pos
      ensures Agrees(ParseArgs(e, toks, 0, old(pos)), r)
      decreases |toks| - pos, 15
    {
      hide ParseTernary;
      ghost var start := pos;
      var args: seq<Node> := [];
      var more := true;
      WithArgsTwice([], [], ParseArgs(e, toks, 0, pos));
      while more
        invariant Ready() && start <= pos && (pos == start ==> more)
        invariant more ==> ParseArgs(e, toks, 0, start) == WithArgs(args, ParseArgs(e, toks, |args|, pos))
        invariant !more ==> ParseArgs(e, toks, 0, start) == Done(args, pos)
        decreases more, |toks| - pos
      {
        if |args| >= MAX_ARGS { return None; }
        var a := PTernary();
        if a == None { return None; }
        ghost var before := args;
        args := args + [a.value];
        more := Match(Comma);
        if more { WithArgsTwice(before, [a.value], ParseArgs(e, toks, |args|, pos)); }
      }
      return Some(args);
    }

    method PCallArgs(fn: Fn) returns (r: Option<Node>)
      requires Ready() && pos < |toks| - 1 && toks[pos + 1] == LParen
      modifies this`pos
      ensures Agrees(ParseCall(e, toks, fn, old(pos)), r)
      decreases |toks| - pos, 0
    {
      hide ParseArgs, Arity;
      pos := pos + 2;
      var args: seq<Node> := [];
      if toks[pos] != RParen {
        var some := PArgs();
        if some == None { return None; }
        args := some.value;
      }
      var close := Match(RParen);
      if !close || |args| != Arity(fn) { return None; }
      return Some(Call(fn, args));
    }
  }

  lemma WithArgsTwice(args: seq<Node>, more: seq<Node>, rest: Parsed<seq<Node>>)
    ensures WithArgs(args, WithArgs(more, rest)) == WithArgs(args + more, rest)
    ensures WithArgs([], rest) == rest
  {
    if rest.Done? {
      assert args + (more + rest.value) == args + more + rest.value;
      assert [] + rest.value == rest.value;
    }
  }

  /** ssisexpr_compile, from source text to expression tree. */
  method CompileSource(e: Scope, source: string, isFloat: string -> bool) returns (r: Option<Node>)
    ensures r == Compile(e, source, isFloat)
  {
    var l := new Lex(source, isFloat);
    var ok := l.ReadAll();
    if !ok { return None; }
    var par := new Par(e, l.toks);
    var root := par.PTernary();
    if root == None { return None; }
    return if par.toks[par.pos] == Eof then root else None;
  }
}
