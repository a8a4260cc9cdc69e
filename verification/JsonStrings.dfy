/**
 JSON string text between two components: the pipeline writes it (src/pipeline/pipeline.c) and
 the Lua provider decodes it into a buffer sized from the input (providers/betl-lua/lua_provider.c).
 Characters are bytes.
 */
module JsonStrings {
  import opened Text
  import opened JsonWalk

  // ---------------------------------------------------------------- writing

  function EscapeByte(c: char): string {
    if c == '\"' || c == '\\' then ['\\', c]
    else if c == '\n' then "\\n"
    else if c == '\r' then "\\r"
    else if c == '\t' then "\\t"
    else if c == '\U{0008}' then "\\b"
    else if c == '\U{000C}' then "\\f"
    else if c < ' ' then "\\u00" + [HexDigit(c as int / 16), HexDigit(c as int % 16)]
    else [c]
  }

  /** What json_escape_string puts between the quotes. */
  function EscapeBody(s: string): string {
    if s == "" then "" else EscapeByte(s[0]) + EscapeBody(s[1..])
  }

  // ---------------------------------------------------------------- reading

  function HexAt(s: string, i: nat): (r: Option<int>)
    ensures r.Some? ==> 0 <= r.value < 16 && i < |s|
  {
    if IsHex(At(s, i)) then Some(HexValue(At(s, i))) else None
  }

  /** The four hexadecimal digits from `i` on. */
  function CodeUnit(s: string, i: nat): (r: Option<int>)
    ensures r.Some? ==> 0 <= r.value < 0x10000 && i + 4 <= |s|
  {
    match (HexAt(s, i), HexAt(s, i + 1), HexAt(s, i + 2), HexAt(s, i + 3))
    case (Some(a), Some(b), Some(c), Some(d)) => Some(((a * 16 + b) * 16 + c) * 16 + d)
    case _ => None
  }

  /** UTF-8, one to three bytes. */
  function Utf8(cp: int): (u: string)
    requires 0 <= cp < 0x10000
    ensures 1 <= |u| <= 3
  {
    if cp < 0x80 then [cp as char]
    else if cp < 0x800 then [(0xC0 + cp / 64) as char, (0x80 + cp % 64) as char]
    else [(0xE0 + cp / 4096) as char, (0x80 + cp / 64 % 64) as char, (0x80 + cp % 64) as char]
  }

  /** Reading UTF-8 by its bit layout (RFC 3629, section 3): the payload of a lead byte, then
      six bits of each continuation byte. */
  function CodeOf(u: string): Option<int> {
    if |u| == 1 && u[0] as int < 0x80 then Some(u[0] as int)
    else if |u| == 2 && 0xC0 <= u[0] as int < 0xE0 && IsContinuation(u[1]) then
      Some((u[0] as int - 0xC0) * 64 + (u[1] as int - 0x80))
    else if |u| == 3 && 0xE0 <= u[0] as int < 0xF0 && IsContinuation(u[1]) && IsContinuation(u[2]) then
      Some((u[0] as int - 0xE0) * 4096 + (u[1] as int - 0x80) * 64 + (u[2] as int - 0x80))
    else None
  }

  predicate IsContinuation(c: char) { 0x80 <= c as int < 0xC0 }

  /** The bytes written for a code unit are its UTF-8 form, the shortest one. */
  lemma Utf8Encodes(cp: int)
    requires 0 <= cp < 0x10000
    ensures CodeOf(Utf8(cp)) == Some(cp)
    ensures |Utf8(cp)| == if cp < 0x80 then 1 else if cp < 0x800 then 2 else 3
  {
    assert cp == cp / 64 * 64 + cp % 64;
    assert cp / 64 == cp / 4096 * 64 + cp / 64 % 64;
  }

  function SimpleEscape(c: char): Option<char> {
    match c
    case '\"' => Some('\"')
    case '\\' => Some('\\')
    case '/' => Some('/')
    case 'n' => Some('\n')
    case 't' => Some('\t')
    case 'r' => Some('\r')
    case 'b' => Some('\U{0008}')
    case 'f' => Some('\U{000C}')
    case _ => None
  }

  /** Bytes one character or escape decodes to, and how many it took. */
  function DecodeOne(s: string): (r: Option<(string, nat)>)
    requires At(s, 0) != '\0'
    ensures r.Some? ==> 1 <= |r.value.0| <= r.value.1 <= |s|
  {
    if s[0] != '\\' then Some(([s[0]], 1))
    else if At(s, 1) == 'u' then
      match CodeUnit(s, 2)
      case None => None
      case Some(cp) => if 0xD800 <= cp <= 0xDFFF then None else Some((Utf8(cp), 6))
    else
      match SimpleEscape(At(s, 1))
      case None => None
      case Some(c) => Some(([c], 2))
  }

  /** A backslash, `u` and four hexadecimal digits decode to the UTF-8 bytes of the number they
      spell; a surrogate is refused. */
  lemma UnicodeEscapeDecodes(a: char, b: char, c: char, d: char, rest: string)
    requires IsHex(a) && IsHex(b) && IsHex(c) && IsHex(d)
    ensures var cp := HexValue(a) * 4096 + HexValue(b) * 256 + HexValue(c) * 16 + HexValue(d);
            var r := DecodeOne(['\\', 'u', a, b, c, d] + rest);
            if 0xD800 <= cp <= 0xDFFF then r == None
            else
              && r.Some? && r.value.1 == 6 && CodeOf(r.value.0) == Some(cp)
              && |r.value.0| == (if cp < 0x80 then 1 else if cp < 0x800 then 2 else 3)
  {
    var s := ['\\', 'u', a, b, c, d] + rest;
    var cp := HexValue(a) * 4096 + HexValue(b) * 256 + HexValue(c) * 16 + HexValue(d);
    assert s[0] == '\\' && At(s, 1) == 'u' && At(s, 2) == a && At(s, 3) == b && At(s, 4) == c && At(s, 5) == d;
    assert CodeUnit(s, 2) == Some(cp);
    hide HexValue, IsHex, At, CodeUnit;
    if 0 <= cp < 0x10000 { Utf8Encodes(cp); }
    hide Utf8, CodeOf;
  }

  /** The eight short escapes; before any other character but `u` a backslash is refused. */
  lemma ShortEscapesDecode(c: char, rest: string)
    ensures DecodeOne(['\\', '\"'] + rest) == Some(("\"", 2)) && DecodeOne(['\\', '\\'] + rest) == Some(("\\", 2))
    ensures DecodeOne(['\\', '/'] + rest) == Some(("/", 2)) && DecodeOne(['\\', 'n'] + rest) == Some(("\n", 2))
    ensures DecodeOne(['\\', 't'] + rest) == Some(("\t", 2)) && DecodeOne(['\\', 'r'] + rest) == Some(("\r", 2))
    ensures DecodeOne(['\\', 'b'] + rest) == Some(("\U{0008}", 2)) && DecodeOne(['\\', 'f'] + rest) == Some(("\U{000C}", 2))
    ensures c !in "\"\\/ntrbfu" ==> DecodeOne(['\\', c] + rest) == None
  {
    hide CodeUnit, Utf8;
  }

  /** The bytes of the string whose text begins after its opening quote, and the length up
      to and including the closing one. */
  function Decode(s: string): (r: Option<(string, nat)>)
    ensures r.Some? ==> |r.value.0| < r.value.1 <= |s|
  {
    if At(s, 0) == '\0' then None
    else if s[0] == '\"' then Some(("", 1))
    else
      match DecodeOne(s)
      case None => None
      case Some(one) => DecodedBefore(one.0, one.1, Decode(s[one.1..]))
  }

  // ---------------------------------------------------------------- the decoder and its buffer

  predicate Holds(buf: array<char>, i: nat, text: string)
    reads buf
  {
    i == |text| <= buf.Length && buf[..i] == text
  }

  method Put(buf: array<char>, i: nat, bytes: string, ghost text: string) returns (j: nat)
    requires Holds(buf, i, text) && i + |bytes| <= buf.Length
    modifies buf
    ensures Holds(buf, j, text + bytes) && j == i + |bytes| == |text + bytes|
  {
    j := i;
    while j < i + |bytes|
      invariant i <= j <= i + |bytes| && Holds(buf, j, text + bytes[..j - i])
    {
      buf[j] := bytes[j - i];
      assert bytes[..j + 1 - i] == bytes[..j - i] + [bytes[j - i]];
      assert buf[..j + 1] == buf[..j] + [bytes[j - i]];
      j := j + 1;
    }
    assert bytes[..|bytes|] == bytes;
  }

  lemma DecodeTurn(s: string)
    requires At(s, 0) != '\0' && s[0] != '\"'
    ensures Decode(s) == (match DecodeOne(s)
                          case None => None
                          case Some(one) => DecodedBefore(one.0, one.1, Decode(s[one.1..])))
  {
    hide DecodeOne, DecodedBefore;
  }

  /** What the rest of the text says about the whole, one character or escape further on. */
  lemma DecodeMoves(whole: Option<(string, nat)>, p: string, text: string, n: nat)
    requires At(p, 0) != '\0' && p[0] != '\"' && whole == DecodedBefore(text, n, Decode(p))
    ensures match DecodeOne(p)
            case None => whole == None
            case Some(one) => whole == DecodedBefore(text + one.0, n + one.1, Decode(p[one.1..]))
  {
    DecodeTurn(p);
    match DecodeOne(p)
    case None => NothingJoined(text, n);
    case Some(one) => DecodedTwice(text, n, one.0, one.1, Decode(p[one.1..]));
    hide *;
  }

  lemma EndOrQuote(s: string)
    ensures s == "" ==> Decode(s) == None
    ensures s != "" && s[0] == '\"' ==> Decode(s) == Some(("", 1))
    ensures '\0' !in s && s != "" ==> At(s, 0) == s[0] != '\0'
  {}

  /** json_decode_string: the buffer of strlen + 1 bytes is never overrun, whatever the input.
      The result is the bytes written before the terminator; a C reader stops at an earlier
      NUL, which only the escape `\u0000` can put there. */
  method DecodeString(s: string) returns (r: Option<string>)
    requires '\0' !in s
    ensures r == (match Decode(s) case None => None case Some(d) => Some(d.0))
  {
    var buf := new char[|s| + 1];
    var p, i: nat := s, 0;
    ghost var n: nat, text := 0, "";
    DecodedTwice("", 0, "", 0, Decode(s));
    assert Holds(buf, 0, "");
    hide *;
    while p != "" && p[0] != '\"'
      invariant n <= |s| && p == s[n..] && i == |text| <= n && Holds(buf, i, text)
      invariant Decode(s) == DecodedBefore(text, n, Decode(p))
      decreases |p|
    {
      EndOrQuote(p);
      var one := DecodeOne(p);
      DecodeMoves(Decode(s), p, text, n);
      if one == None { return None; }
      i := Put(buf, i, one.value.0, text);
      p := p[one.value.1..];
      text := text + one.value.0;
      n := n + one.value.1;
    }
    NothingJoined(text, n);
    EndOrQuote(p);
    if p == "" { return None; }
    r := Terminate(buf, i, text);
  }

  method Terminate(buf: array<char>, i: nat, ghost text: string) returns (r: Option<string>)
    requires Holds(buf, i, text) && i < buf.Length
    modifies buf
    ensures r == Some(text)
  {
    buf[i] := '\0';
    return Some(buf[..i]);
  }

  lemma NothingJoined(text: string, n: nat)
    ensures DecodedBefore(text, n, None) == None
    ensures DecodedBefore(text, n, Some(("", 1))) == Some((text, n + 1))
  {
    assert text + "" == text;
  }

  // ---------------------------------------------------------------- the round trip

  lemma EscapeDecodes(c: char, tail: string)
    requires c != '\0'
    ensures At(EscapeByte(c) + tail, 0) != '\0' && (EscapeByte(c) + tail)[0] != '\"'
    ensures DecodeOne(EscapeByte(c) + tail) == Some(([c], |EscapeByte(c)|))
    ensures (EscapeByte(c) + tail)[|EscapeByte(c)|..] == tail
  {
    var e, t := EscapeByte(c), EscapeByte(c) + tail;
    assert t[0] == e[0] && (|e| >= 2 ==> At(t, 1) == e[1]);
    if |e| == 6 {
      ControlDecodes(c as int);
      assert At(t, 2) == e[2] && At(t, 3) == e[3] && At(t, 4) == e[4] && At(t, 5) == e[5];
      hide Utf8, HexDigit, IsHex, HexValue;
    } else {
      hide CodeUnit, Utf8, HexDigit;
    }
  }

  lemma ControlDecodes(n: int)
    requires 0 < n < 0x20
    ensures IsHex('0') && HexValue('0') == 0
    ensures IsHex(HexDigit(n / 16)) && IsHex(HexDigit(n % 16))
    ensures HexValue(HexDigit(n / 16)) * 16 + HexValue(HexDigit(n % 16)) == n
    ensures Utf8(n) == [n as char]
  {}

  lemma DecodeSteps(c: char, tail: string)
    requires c != '\0'
    ensures Decode(EscapeByte(c) + tail) == DecodedBefore([c], |EscapeByte(c)|, Decode(tail))
  {
    EscapeDecodes(c, tail);
    hide DecodeOne, EscapeByte, DecodedBefore;
  }

  lemma {:induction false} EscapedDecodes(s: string, q: string)
    requires '\0' !in s && Decode(q) == Some(("", 1))
    ensures Decode(EscapeBody(s) + q) == Some((s, |EscapeBody(s)| + 1))
  {
    hide Decode, EscapeByte;
    if s == "" {
      assert EscapeBody(s) + q == q;
    } else {
      assert s[0] in s && '\0' !in s[1..];
      EscapedDecodes(s[1..], q);
      DecodeSteps(s[0], EscapeBody(s[1..]) + q);
      assert EscapeBody(s) + q == EscapeByte(s[0]) + (EscapeBody(s[1..]) + q);
      assert s == [s[0]] + s[1..];
    }
  }

  /** Decoding what the pipeline wrote gives back the very bytes, for every C string. */
  lemma DecodeInvertsEscape(s: string, rest: string)
    requires '\0' !in s
    ensures Decode(EscapeBody(s) + ("\"" + rest)) == Some((s, |EscapeBody(s)| + 1))
  {
    assert Decode("\"" + rest) == Some(("", 1));
    hide *;
    EscapedDecodes(s, "\"" + rest);
  }

  // ---------------------------------------------------------------- the standard's strings

  /** The escapes of RFC 8259 section 7: a backslash and one of eight characters, or `u` and
      four hexadecimal digits. */
  predicate EscapeAt(s: string)
    ensures EscapeAt(s) ==> |s| >= 2
  {
    && At(s, 0) == '\\'
    && (SimpleEscape(At(s, 1)).Some? || (At(s, 1) == 'u' && CodeUnit(s, 2).Some?))
  }

  function EscapeLength(s: string): (n: nat)
    requires EscapeAt(s)
    ensures 2 <= n <= |s|
  {
    if At(s, 1) == 'u' then 6 else 2
  }

  /** RFC 8259 section 7: characters other than quote, backslash and controls, and escapes. */
  predicate StrictBody(body: string)
    decreases |body|
  {
    body == "" ||
    if body[0] == '\\' then EscapeAt(body) && StrictBody(body[EscapeLength(body)..])
    else body[0] != '\"' && body[0] >= ' ' && StrictBody(body[1..])
  }

  /** What the pipeline writes is a JSON string by the standard's own grammar. */
  lemma {:induction false} EscapedIsValid(s: string)
    requires '\0' !in s
    ensures StrictBody(EscapeBody(s))
  {
    if s != "" {
      assert s[0] in s && '\0' !in s[1..];
      EscapedIsValid(s[1..]);
      EscapeKeepsStrict(s[0], EscapeBody(s[1..]));
      hide EscapeByte;
    }
  }

  lemma EscapeKeepsStrict(c: char, tail: string)
    requires c != '\0' && StrictBody(tail)
    ensures StrictBody(EscapeByte(c) + tail)
  {
    var e, t := EscapeByte(c), EscapeByte(c) + tail;
    if |e| == 1 {
      assert t[1..] == tail;
    } else if |e| == 2 {
      assert t[2..] == tail;
    } else {
      ControlDecodes(c as int);
      assert t[6..] == tail && At(t, 1) == 'u';
      assert At(t, 2) == '0' && At(t, 3) == '0' && At(t, 4) == e[4] && At(t, 5) == e[5];
    }
  }

  /** The value skipper takes more than the standard's strings: any character from the blank
      on may stand behind a backslash. */
  lemma {:induction false} StrictIsValid(body: string)
    requires StrictBody(body)
    ensures ValidBody(body)
    decreases |body|
  {
    if body != "" {
      if body[0] == '\\' {
        var n := EscapeLength(body);
        StrictIsValid(body[n..]);
        if n == 6 { HexPasses(body[2..]); }
      } else {
        StrictIsValid(body[1..]);
      }
    }
  }

  lemma HexPasses(t: string)
    requires CodeUnit(t, 0).Some? && ValidBody(t[4..])
    ensures ValidBody(t)
  {
    assert t[1..][1..] == t[2..] && t[2..][1..] == t[3..] && t[3..][1..] == t[4..];
    assert IsHex(t[0]) && IsHex(t[1]) && IsHex(t[2]) && IsHex(t[3]);
    HexPass(t[3..]);
    HexPass(t[2..]);
    HexPass(t[1..]);
    HexPass(t);
    hide ValidBody;
  }

  lemma HexPass(t: string)
    requires t != "" && IsHex(t[0]) && ValidBody(t[1..])
    ensures ValidBody(t)
  {}

  /** Some `u` escape names a code unit in this range. */
  predicate AnyEscape(body: string, lo: int, hi: int)
    requires StrictBody(body)
    decreases |body|
  {
    body != "" &&
    if body[0] == '\\' then
      || (At(body, 1) == 'u' && lo <= CodeUnit(body, 2).value <= hi)
      || AnyEscape(body[EscapeLength(body)..], lo, hi)
    else AnyEscape(body[1..], lo, hi)
  }

  /** Of the standard's strings the decoder accepts exactly those without an escaped
      surrogate, and takes each to its closing quote. What it decodes holds a NUL, and so is
      cut short as a C string, exactly when the NUL was written as an escape. */
  lemma {:induction false} StrictDecodes(body: string, rest: string)
    requires StrictBody(body)
    ensures Decode(body + ("\"" + rest)).Some? <==> !AnyEscape(body, 0xD800, 0xDFFF)
    ensures Decode(body + ("\"" + rest)).Some? ==>
              var d := Decode(body + ("\"" + rest)).value;
              d.1 == |body| + 1 && ('\0' in d.0 <==> AnyEscape(body, 0, 0))
    decreases |body|
  {
    var q := "\"" + rest;
    if body == "" {
      assert body + q == q;
    } else {
      var n := if body[0] == '\\' then EscapeLength(body) else 1;
      StrictDecodes(body[n..], rest);
      OneDecodes(body, q, n);
      DecodeTurn(body + q);
      hide Decode, DecodeOne, Utf8;
    }
  }

  /** Decoding one character or escape takes `n` characters unless refused. */
  predicate Takes(t: string, n: nat, refused: bool, nul: bool)
    requires At(t, 0) != '\0'
  {
    && (DecodeOne(t).Some? <==> !refused)
    && (DecodeOne(t).Some? ==> DecodeOne(t).value.1 == n && ('\0' in DecodeOne(t).value.0 <==> nul))
  }

  lemma PlainTaken(t: string)
    requires At(t, 0) != '\0' && t[0] != '\\'
    ensures Takes(t, 1, false, false)
  {}

  lemma SimpleTaken(t: string)
    requires At(t, 0) == '\\' && SimpleEscape(At(t, 1)).Some?
    ensures Takes(t, 2, false, false)
  {}

  lemma UnitTaken(t: string)
    requires At(t, 0) == '\\' && At(t, 1) == 'u' && CodeUnit(t, 2).Some?
    ensures var cp := CodeUnit(t, 2).value; Takes(t, 6, 0xD800 <= cp <= 0xDFFF, cp == 0)
  {
    Utf8HasNul(CodeUnit(t, 2).value);
    hide CodeUnit, Utf8;
  }

  /** One character or escape of a strict body, whatever follows. */
  lemma OneDecodes(body: string, q: string, n: nat)
    requires body != "" && StrictBody(body) && n == if body[0] == '\\' then EscapeLength(body) else 1
    ensures n <= |body| && At(body + q, 0) == body[0] != '\0' && body[0] != '\"' && (body + q)[n..] == body[n..] + q
    ensures var u := body[0] == '\\' && At(body, 1) == 'u';
            Takes(body + q, n, u && 0xD800 <= CodeUnit(body, 2).value <= 0xDFFF, u && CodeUnit(body, 2).value == 0)
  {
    StrictParts(body);
    CutBody(body, q, n);
    hide *;
    if body[0] != '\\' {
      PlainTaken(body + q);
    } else if At(body, 1) == 'u' {
      SameUnit(body, q);
      UnitTaken(body + q);
    } else {
      SimpleTaken(body + q);
    }
  }

  lemma StrictParts(body: string)
    requires body != "" && StrictBody(body)
    ensures body[0] != '\"' && body[0] != '\0'
    ensures body[0] == '\\' ==>
              && EscapeAt(body)
              && if At(body, 1) == 'u' then EscapeLength(body) == 6 && CodeUnit(body, 2).Some?
                 else EscapeLength(body) == 2 && SimpleEscape(At(body, 1)).Some?
  {
    assert SimpleEscape('u').None?;
    hide CodeUnit, SimpleEscape;
  }

  lemma CutBody(body: string, q: string, n: nat)
    requires n <= |body|
    ensures (body + q)[n..] == body[n..] + q
    ensures body != "" ==> At(body + q, 0) == At(body, 0) == body[0] == (body + q)[0]
    ensures |body| > 1 ==> At(body + q, 1) == At(body, 1)
  {}

  lemma SameUnit(body: string, q: string)
    requires CodeUnit(body, 2).Some?
    ensures CodeUnit(body + q, 2) == CodeUnit(body, 2)
  {
    assert forall i: nat :: i < |body| ==> At(body + q, i) == At(body, i);
  }

  lemma Utf8HasNul(cp: int)
    requires 0 <= cp < 0x10000
    ensures '\0' in Utf8(cp) <==> cp == 0
  {
    if cp == 0 { assert Utf8(cp)[0] == '\0'; }
  }

  /** The decoder and the value skipper agree where every string they accept ends. */
  lemma {:induction false} DecoderAndSkipperAgree(s: string)
    requires Decode(s).Some?
    ensures SkipQuote(s) == Some(Decode(s).value.1)
    decreases |s|
  {
    if s[0] != '\"' {
      var n := DecodeOne(s).value.1;
      DecoderAndSkipperAgree(s[n..]);
      if s[0] == '\\' {
        assert At(s, 1) != '\0';
        if n == 6 { FourMore(s[2..]); }
      }
    }
  }

  /** Four hexadecimal digits are passed over one by one. */
  lemma FourMore(t: string)
    requires CodeUnit(t, 0).Some?
    ensures SkipQuote(t) == Plus(4, SkipQuote(t[4..]))
  {
    PassHex(t);
    PassHex(t[1..]);
    PassHex(t[2..]);
    PassHex(t[3..]);
    assert t[1..][1..] == t[2..] && t[2..][1..] == t[3..] && t[3..][1..] == t[4..];
    assert At(t[1..], 0) == At(t, 1) && At(t[2..], 0) == At(t, 2) && At(t[3..], 0) == At(t, 3);
    hide SkipQuote;
  }

  lemma PassHex(t: string)
    ensures IsHex(At(t, 0)) ==> SkipQuote(t) == Plus(1, SkipQuote(t[1..]))
  {}
}
