/**
 The bracket-counting JSON skipper and array walker of the Lua provider
 (providers/betl-lua/lua_provider.c). The skipper counts only the kind of bracket it started
 on; on well-formed JSON that is enough.
 */
module JsonWalk {
  import opened Text

  // ---------------------------------------------------------------- the walker

  predicate IsWs(c: char) { c == ' ' || c == '\t' || c == '\n' || c == '\r' }

  /** sc_skip_ws: what is left after leading blanks. */
  function SkipWs(s: string): (r: string)
    ensures |r| <= |s| && r == s[|s| - |r|..] && (r != "" ==> !IsWs(r[0]))
  {
    if s != "" && IsWs(s[0]) then SkipWs(s[1..]) else s
  }

  function Plus(n: nat, r: Option<nat>): Option<nat> {
    match r case None => None case Some(k) => Some(n + k)
  }

  lemma PlusTwice(n: nat, m: nat, r: Option<nat>)
    ensures Plus(n, Plus(m, r)) == Plus(n + m, r) && Plus(0, r) == r
  {}

  /** Characters up to and including the quote that closes a string. */
  function SkipQuote(s: string): (r: Option<nat>)
    ensures r.Some? ==> 0 < r.value <= |s|
  {
    if At(s, 0) == '\0' then None
    else if s[0] == '\"' then Some(1)
    else if s[0] == '\\' && At(s, 1) != '\0' then Plus(2, SkipQuote(s[2..]))
    else Plus(1, SkipQuote(s[1..]))
  }

  /** Characters up to and including the bracket that brings `depth` to zero. */
  function SkipNest(s: string, open: char, close: char, depth: int): (r: Option<nat>)
    ensures r.Some? ==> 0 < r.value <= |s|
    decreases |s|
  {
    if At(s, 0) == '\0' then None
    else if s[0] == '\"' then
      match SkipQuote(s[1..])
      case None => None
      case Some(k) => Plus(1 + k, SkipNest(s[1 + k..], open, close, depth))
    else if s[0] == open then Plus(1, SkipNest(s[1..], open, close, depth + 1))
    else if s[0] == close then
      if depth == 1 then Some(1) else Plus(1, SkipNest(s[1..], open, close, depth - 1))
    else Plus(1, SkipNest(s[1..], open, close, depth))
  }

  predicate InWord(c: char) { c != '\0' && c != ',' && c != ']' && c != '}' && !IsWs(c) }

  /** sc_skip_value on a text without leading blanks: the length of the value. */
  function SkipValue(s: string): (r: Option<nat>)
    ensures r.Some? ==> r.value <= |s|
  {
    if At(s, 0) == '\0' then None
    else if s[0] == '{' then SkipNest(s, '{', '}', 0)
    else if s[0] == '[' then SkipNest(s, '[', ']', 0)
    else if s[0] == '\"' then Plus(1, SkipQuote(s[1..]))
    else Some(RunEnd(s, 0, InWord))
  }

  /** What a walk showed its callback, and whether it ended well. */
  datatype Walk = Walk(seen: seq<string>, ok: bool)

  function Saw(seen: seq<string>, w: Walk): Walk { Walk(seen + w.seen, w.ok) }

  lemma SawTwice(a: seq<string>, b: seq<string>, w: Walk)
    ensures Saw(a, Saw(b, w)) == Saw(a + b, w) && Saw([], w) == w
  {
    assert a + (b + w.seen) == a + b + w.seen;
    assert [] + w.seen == w.seen;
  }

  /** The loop of sc_walk_array; the callback can refuse an element. */
  function WalkFrom(s: string, accept: string -> bool): Walk
    decreases |s|, 1
  {
    WalkAt(SkipWs(s), accept)
  }

  /** One turn of it, from where a value starts. */
  function WalkAt(p: string, accept: string -> bool): Walk
    decreases |p|, 0
  {
    match SkipValue(p)
    case None => Walk([], false)
    case Some(n) =>
      if !accept(p[..n]) then Walk([p[..n]], false)
      else
        var q := SkipWs(p[n..]);
        if At(q, 0) == ',' then Saw([p[..n]], WalkFrom(q[1..], accept))
        else Walk([p[..n]], At(q, 0) == ']')
  }

  /** sc_walk_array. */
  function WalkArray(s: string, accept: string -> bool): Walk {
    var p := SkipWs(s);
    if At(p, 0) != '[' then Walk([], false)
    else if At(SkipWs(p[1..]), 0) == ']' then Walk([], true)
    else WalkFrom(SkipWs(p[1..]), accept)
  }

  // ---------------------------------------------------------------- the loops

  method SkipBlanks(s: string) returns (p: string)
    ensures p == SkipWs(s)
  {
    p := s;
    while p != "" && IsWs(p[0])
      invariant SkipWs(s) == SkipWs(p)
      decreases |p|
    {
      p := p[1..];
    }
  }

  /** The inner loop over a string: `n` characters up to the closing quote, None at the end. */
  method SkipQuoted(s: string) returns (n: Option<nat>)
    ensures n == SkipQuote(s)
  {
    var p, k := s, 0;
    PlusTwice(0, 0, SkipQuote(s));
    while At(p, 0) != '\0' && p[0] != '\"'
      invariant k <= |s| && p == s[k..]
      invariant SkipQuote(s) == Plus(k, SkipQuote(p))
      decreases |p|
    {
      var step := if p[0] == '\\' && At(p, 1) != '\0' then 2 else 1;
      PlusTwice(k, step, SkipQuote(p[step..]));
      p := p[step..];
      k := k + step;
    }
    return if At(p, 0) == '\0' then None else Some(k + 1);
  }

  method SkipNested(s: string, open: char, close: char) returns (n: Option<nat>)
    requires open != '\"' && close != '\"' && open != close
    ensures n == SkipNest(s, open, close, 0)
  {
    var p, k, depth := s, 0, 0;
    PlusTwice(0, 0, SkipNest(s, open, close, 0));
    while At(p, 0) != '\0'
      invariant k <= |s| && p == s[k..]
      invariant SkipNest(s, open, close, 0) == Plus(k, SkipNest(p, open, close, depth))
      decreases |p|
    {
      ghost var here := p;
      var step := 1;
      if p[0] == '\"' {
        var q := SkipQuoted(p[1..]);
        if q == None { return None; }
        step := 1 + q.value;
      } else if p[0] == open {
        depth := depth + 1;
      } else if p[0] == close {
        depth := depth - 1;
        if depth == 0 { return Some(k + 1); }
      }
      p := p[step..];
      PlusTwice(k, step, SkipNest(p, open, close, depth));
      k := k + step;
    }
    return None;
  }

  method SkipOneValue(s: string) returns (n: Option<nat>)
    ensures n == SkipValue(s)
  {
    if At(s, 0) == '\0' { return None; }
    if s[0] == '{' || s[0] == '[' {
      n := SkipNested(s, s[0], if s[0] == '{' then '}' else ']');
    } else if s[0] == '\"' {
      var q := SkipQuoted(s[1..]);
      n := if q == None then None else Some(1 + q.value);
    } else {
      var k := 0;
      while k < |s| && InWord(s[k])
        invariant k <= |s| && RunEnd(s, 0, InWord) == RunEnd(s, k, InWord)
      {
        k := k + 1;
      }
      n := Some(k);
    }
  }

  lemma WalkTurn(s: string, accept: string -> bool)
    ensures var p := SkipWs(s);
            WalkFrom(s, accept)
            == match SkipValue(p)
               case None => Walk([], false)
               case Some(n) =>
                 if !accept(p[..n]) then Walk([p[..n]], false)
                 else
                   var q := SkipWs(p[n..]);
                   if At(q, 0) == ',' then Saw([p[..n]], WalkFrom(q[1..], accept))
                   else Walk([p[..n]], At(q, 0) == ']')
  {
    hide SkipWs, SkipValue;
  }

  /** The elements from a point inside the array on. */
  method WalkRest(start: string, accept: string -> bool) returns (w: Walk)
    ensures w == WalkFrom(start, accept)
  {
    hide *;
    var p := start;
    var seen: seq<string> := [];
    SawTwice([], [], WalkFrom(p, accept));
    while true
      invariant WalkFrom(start, accept) == Saw(seen, WalkFrom(p, accept))
      decreases |p|
    {
      WalkTurn(p, accept);
      p := SkipBlanks(p);
      var n := SkipOneValue(p);
      if n == None { return Saw(seen, Walk([], false)); }
      var element := p[..n.value];
      if !accept(element) { return Saw(seen, Walk([element], false)); }
      var q := SkipBlanks(p[n.value..]);
      if q == "" || q[0] != ',' {
        EndOrMore(q);
        return Saw(seen, Walk([element], At(q, 0) == ']'));
      }
      EndOrMore(q);
      SawTwice(seen, [element], WalkFrom(q[1..], accept));
      seen := seen + [element];
      p := q[1..];
    }
  }

  lemma EndOrMore(q: string)
    ensures At(q, 0) == ',' <==> q != "" && q[0] == ','
  {}

  method WalkElements(s: string, accept: string -> bool) returns (w: Walk)
    ensures w == WalkArray(s, accept)
  {
    hide WalkFrom, SkipWs;
    var p := SkipBlanks(s);
    if At(p, 0) != '[' { return Walk([], false); }
    p := SkipBlanks(p[1..]);
    if At(p, 0) == ']' { return Walk([], true); }
    w := WalkRest(p, accept);
  }

  // ---------------------------------------------------------------- well-formed JSON

  /** RFC 8259 section 3, with the blanks section 2 allows. A Word is a number or a literal
      name; a string's body is kept as written. */
  datatype Json =
    | Word(w: string)
    | Quoted(body: string)
    | Arr(pad: string, items: seq<Item>)
    | Obj(pad: string, fields: seq<Field>)

  datatype Item = Item(before: string, value: Json, after: string)

  datatype Field = Field(before: string, key: string, colon: string, item: Item)

  function Spelled(j: Json): string
    decreases j
  {
    match j
    case Word(w) => w
    case Quoted(body) => "\"" + body + "\""
    case Arr(pad, items) => "[" + (if items == [] then pad else SpelledItems(items)) + "]"
    case Obj(pad, fields) => "{" + (if fields == [] then pad else SpelledFields(fields)) + "}"
  }

  function SpelledItem(i: Item): string
    decreases i
  {
    i.before + Spelled(i.value) + i.after
  }

  function SpelledItems(items: seq<Item>): string
    requires items != []
    decreases items
  {
    if |items| == 1 then SpelledItem(items[0]) else SpelledItem(items[0]) + "," + SpelledItems(items[1..])
  }

  function SpelledField(f: Field): string
    decreases f
  {
    f.before + ("\"" + f.key + "\"") + f.colon + ":" + SpelledItem(f.item)
  }

  function SpelledFields(fields: seq<Field>): string
    requires fields != []
    decreases fields
  {
    if |fields| == 1 then SpelledField(fields[0]) else SpelledField(fields[0]) + "," + SpelledFields(fields[1..])
  }

  predicate AllWs(s: string) { forall i :: 0 <= i < |s| ==> IsWs(s[i]) }

  predicate IsWordChar(c: char) { IsDigit(c) || IsLetter(c) || c == '-' || c == '+' || c == '.' }

  /** RFC 8259 section 7: no bare quote, no control character, every backslash escapes. */
  predicate ValidBody(body: string)
    decreases |body|
  {
    body == "" ||
    if body[0] == '\\' then |body| >= 2 && body[1] >= ' ' && ValidBody(body[2..])
    else body[0] != '\"' && body[0] >= ' ' && ValidBody(body[1..])
  }

  predicate Valid(j: Json)
    decreases j
  {
    match j
    case Word(w) => w != "" && forall i :: 0 <= i < |w| ==> IsWordChar(w[i])
    case Quoted(body) => ValidBody(body)
    case Arr(pad, items) => AllWs(pad) && ValidItems(items)
    case Obj(pad, fields) => AllWs(pad) && ValidFields(fields)
  }

  predicate ValidItem(i: Item)
    decreases i
  {
    AllWs(i.before) && Valid(i.value) && AllWs(i.after)
  }

  predicate ValidItems(items: seq<Item>)
    decreases items
  {
    items == [] || (ValidItem(items[0]) && ValidItems(items[1..]))
  }

  predicate ValidField(f: Field)
    decreases f
  {
    AllWs(f.before) && ValidBody(f.key) && AllWs(f.colon) && ValidItem(f.item)
  }

  predicate ValidFields(fields: seq<Field>)
    decreases fields
  {
    fields == [] || (ValidField(fields[0]) && ValidFields(fields[1..]))
  }
}
