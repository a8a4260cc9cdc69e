/** On well-formed JSON the skipper ends exactly at the value's end and the walker sees exactly
    the array's elements. */
module JsonTheorems {
  import opened Text
  import opened JsonWalk

  /** The two bracket pairs the skipper is started on. */
  predicate Pair(open: char, close: char) { (open == '[' && close == ']') || (open == '{' && close == '}') }

  // ---------------------------------------------------------------- passing over pieces

  /** Characters that are no quote, no bracket of the counted kind and no NUL. */
  predicate Plain(s: string, open: char, close: char) {
    forall i :: 0 <= i < |s| ==> s[i] != '\"' && s[i] != '\0' && s[i] != open && s[i] != close
  }

  lemma {:induction false} PassPlain(s: string, rest: string, open: char, close: char, depth: int)
    requires Plain(s, open, close)
    ensures SkipNest(s + rest, open, close, depth) == Plus(|s|, SkipNest(rest, open, close, depth))
    decreases |s|
  {
    PlusTwice(0, 0, SkipNest(rest, open, close, depth));
    if s == "" {
      assert s + rest == rest;
    } else {
      PassPlain(s[1..], rest, open, close, depth);
      PlusTwice(1, |s| - 1, SkipNest(rest, open, close, depth));
      assert (s + rest)[1..] == s[1..] + rest;
    }
  }

  /** The inner loop stops at the closing quote of a valid string body. */
  lemma {:induction false} BodyEnds(body: string, rest: string)
    requires ValidBody(body)
    ensures SkipQuote(body + ("\"" + rest)) == Some(|body| + 1)
    decreases |body|
  {
    var s := body + ("\"" + rest);
    if body == "" {
      assert s[0] == '\"';
    } else if body[0] == '\\' {
      BodyEnds(body[2..], rest);
      assert s[2..] == body[2..] + ("\"" + rest);
      assert At(s, 1) == body[1];
    } else {
      BodyEnds(body[1..], rest);
      assert s[1..] == body[1..] + ("\"" + rest);
    }
  }

  lemma PassQuoted(body: string, rest: string, open: char, close: char, depth: int)
    requires ValidBody(body) && Pair(open, close)
    ensures SkipNest("\"" + body + "\"" + rest, open, close, depth) == Plus(|body| + 2, SkipNest(rest, open, close, depth))
  {
    var s := "\"" + body + "\"" + rest;
    BodyEnds(body, rest);
    assert s[1..] == body + ("\"" + rest);
    assert s[1 + (|body| + 1)..] == rest;
    PlusTwice(1 + |body| + 1, 0, SkipNest(rest, open, close, depth));
    hide SkipQuote, ValidBody;
  }

  /** Passing two pieces one after the other. */
  lemma PassBoth(a: string, b: string, rest: string, open: char, close: char, d: int, e: int, f: int)
    requires SkipNest(a + (b + rest), open, close, d) == Plus(|a|, SkipNest(b + rest, open, close, e))
    requires SkipNest(b + rest, open, close, e) == Plus(|b|, SkipNest(rest, open, close, f))
    ensures SkipNest(a + b + rest, open, close, d) == Plus(|a + b|, SkipNest(rest, open, close, f))
  {
    hide SkipNest;
    assert a + b + rest == a + (b + rest);
    PlusTwice(|a|, |b|, SkipNest(rest, open, close, f));
  }

  /** One character at the front. */
  lemma PassOne(c: char, rest: string, open: char, close: char, depth: int)
    requires Pair(open, close) && c != '\"' && c != '\0' && (c == close ==> depth != 1)
    ensures SkipNest([c] + rest, open, close, depth)
         == Plus(1, SkipNest(rest, open, close, if c == open then depth + 1 else if c == close then depth - 1 else depth))
  {
    assert ([c] + rest)[1..] == rest;
  }

  lemma WsIsPlain(s: string, open: char, close: char)
    requires AllWs(s) && Pair(open, close)
    ensures Plain(s, open, close)
  {}

  lemma WordIsPlain(s: string, open: char, close: char)
    requires (forall i :: 0 <= i < |s| ==> IsWordChar(s[i])) && Pair(open, close)
    ensures Plain(s, open, close)
  {}

  // ---------------------------------------------------------------- passing over values

  /** `piece` leaves the depth as it found it, whatever follows, as long as some bracket of
      the counted kind is open around it. */
  ghost predicate Neutral(piece: string, open: char, close: char) {
    forall rest: string, depth: int :: depth >= 1 ==>
      SkipNest(piece + rest, open, close, depth) == Plus(|piece|, SkipNest(rest, open, close, depth))
  }

  lemma NeutralAt(piece: string, rest: string, open: char, close: char, depth: int)
    requires Neutral(piece, open, close) && depth >= 1
    ensures SkipNest(piece + rest, open, close, depth) == Plus(|piece|, SkipNest(rest, open, close, depth))
  {}

  lemma NeutralBoth(a: string, b: string, open: char, close: char)
    requires Neutral(a, open, close) && Neutral(b, open, close)
    ensures Neutral(a + b, open, close)
  {
    forall rest: string, depth: int | depth >= 1
      ensures SkipNest(a + b + rest, open, close, depth) == Plus(|a + b|, SkipNest(rest, open, close, depth))
    {
      NeutralAt(a, b + rest, open, close, depth);
      NeutralAt(b, rest, open, close, depth);
      PassBoth(a, b, rest, open, close, depth, depth, depth);
    }
    hide SkipNest;
  }

  lemma PlainIsNeutral(s: string, open: char, close: char)
    requires Plain(s, open, close)
    ensures Neutral(s, open, close)
  {
    forall rest: string, depth: int | depth >= 1
      ensures SkipNest(s + rest, open, close, depth) == Plus(|s|, SkipNest(rest, open, close, depth))
    {
      PassPlain(s, rest, open, close, depth);
    }
  }

  lemma QuotedIsNeutral(body: string, open: char, close: char)
    requires ValidBody(body) && Pair(open, close)
    ensures Neutral("\"" + body + "\"", open, close)
  {
    forall rest: string, depth: int | depth >= 1
      ensures SkipNest("\"" + body + "\"" + rest, open, close, depth) == Plus(|body| + 2, SkipNest(rest, open, close, depth))
    {
      PassQuoted(body, rest, open, close, depth);
    }
    hide SkipNest;
  }

  /** Brackets of either kind around a neutral middle. */
  lemma BracketsAreNeutral(l: char, middle: string, r: char, open: char, close: char)
    requires Pair(open, close) && Pair(l, r) && Neutral(middle, open, close)
    ensures Neutral([l] + middle + [r], open, close)
  {
    forall rest: string, depth: int | depth >= 1
      ensures SkipNest([l] + middle + [r] + rest, open, close, depth)
           == Plus(|[l] + middle + [r]|, SkipNest(rest, open, close, depth))
    {
      BracketsPass(l, middle, r, rest, open, close, depth);
    }
    hide SkipNest;
  }

  lemma BracketsPass(l: char, middle: string, r: char, rest: string, open: char, close: char, depth: int)
    requires Pair(open, close) && Pair(l, r) && Neutral(middle, open, close) && depth >= 1
    ensures SkipNest([l] + middle + [r] + rest, open, close, depth)
         == Plus(|[l] + middle + [r]|, SkipNest(rest, open, close, depth))
  {
    var inner := if l == open then depth + 1 else depth;
    BracketSteps(l, r, middle + ([r] + rest), rest, open, close, depth);
    hide *;
    NeutralAt(middle, [r] + rest, open, close, inner);
    PassBoth([l], middle, [r] + rest, open, close, depth, inner, inner);
    PassBoth([l] + middle, [r], rest, open, close, depth, inner, depth);
  }

  lemma BracketSteps(l: char, r: char, after: string, rest: string, open: char, close: char, depth: int)
    requires Pair(open, close) && Pair(l, r) && depth >= 1
    ensures var inner := if l == open then depth + 1 else depth;
            && inner >= 1
            && SkipNest([l] + after, open, close, depth) == Plus(|[l]|, SkipNest(after, open, close, inner))
            && SkipNest([r] + rest, open, close, inner) == Plus(|[r]|, SkipNest(rest, open, close, depth))
  {
    hide SkipNest;
    PassOne(l, after, open, close, depth);
    PassOne(r, rest, open, close, if l == open then depth + 1 else depth);
  }

  /** No value, whatever brackets of either kind it holds, disturbs the count. */
  lemma {:induction false} ValueIsNeutral(j: Json, open: char, close: char)
    requires Valid(j) && Pair(open, close)
    ensures Neutral(Spelled(j), open, close)
    decreases j
  {
    hide Neutral, ValidBody;
    match j
    case Word(w) =>
      WordIsPlain(w, open, close);
      PlainIsNeutral(w, open, close);
    case Quoted(body) => QuotedIsNeutral(body, open, close);
    case Arr(pad, items) =>
      WsIsPlain(pad, open, close);
      PlainIsNeutral(pad, open, close);
      if items != [] { ItemsAreNeutral(items, open, close); }
      BracketsAreNeutral('[', if items == [] then pad else SpelledItems(items), ']', open, close);
    case Obj(pad, fields) =>
      WsIsPlain(pad, open, close);
      PlainIsNeutral(pad, open, close);
      if fields != [] { FieldsAreNeutral(fields, open, close); }
      BracketsAreNeutral('{', if fields == [] then pad else SpelledFields(fields), '}', open, close);
  }

  lemma {:induction false} ItemIsNeutral(i: Item, open: char, close: char)
    requires ValidItem(i) && Pair(open, close)
    ensures Neutral(SpelledItem(i), open, close)
    decreases i
  {
    hide Neutral, Valid, Spelled;
    ValueIsNeutral(i.value, open, close);
    WsIsPlain(i.before, open, close);
    WsIsPlain(i.after, open, close);
    PlainIsNeutral(i.before, open, close);
    PlainIsNeutral(i.after, open, close);
    NeutralBoth(i.before, Spelled(i.value), open, close);
    NeutralBoth(i.before + Spelled(i.value), i.after, open, close);
  }

  lemma CommaIsNeutral(open: char, close: char)
    requires Pair(open, close)
    ensures Neutral(",", open, close) && Neutral(":", open, close)
  {
    PlainIsNeutral(",", open, close);
    PlainIsNeutral(":", open, close);
  }

  lemma {:induction false} ItemsAreNeutral(items: seq<Item>, open: char, close: char)
    requires items != [] && ValidItems(items) && Pair(open, close)
    ensures Neutral(SpelledItems(items), open, close)
    decreases items
  {
    hide Neutral, ValidItem, SpelledItem;
    ItemIsNeutral(items[0], open, close);
    if |items| > 1 {
      CommaIsNeutral(open, close);
      ItemsAreNeutral(items[1..], open, close);
      NeutralBoth(SpelledItem(items[0]), ",", open, close);
      NeutralBoth(SpelledItem(items[0]) + ",", SpelledItems(items[1..]), open, close);
    }
  }

  lemma {:induction false} FieldIsNeutral(f: Field, open: char, close: char)
    requires ValidField(f) && Pair(open, close)
    ensures Neutral(SpelledField(f), open, close)
    decreases f
  {
    hide Neutral, ValidItem, SpelledItem, ValidBody;
    var key := "\"" + f.key + "\"";
    WsIsPlain(f.before, open, close);
    WsIsPlain(f.colon, open, close);
    PlainIsNeutral(f.before, open, close);
    PlainIsNeutral(f.colon, open, close);
    QuotedIsNeutral(f.key, open, close);
    CommaIsNeutral(open, close);
    ItemIsNeutral(f.item, open, close);
    NeutralBoth(f.before, key, open, close);
    NeutralBoth(f.before + key, f.colon, open, close);
    NeutralBoth(f.before + key + f.colon, ":", open, close);
    NeutralBoth(f.before + key + f.colon + ":", SpelledItem(f.item), open, close);
  }

  lemma {:induction false} FieldsAreNeutral(fields: seq<Field>, open: char, close: char)
    requires fields != [] && ValidFields(fields) && Pair(open, close)
    ensures Neutral(SpelledFields(fields), open, close)
    decreases fields
  {
    hide Neutral, ValidField, SpelledField;
    FieldIsNeutral(fields[0], open, close);
    if |fields| > 1 {
      CommaIsNeutral(open, close);
      FieldsAreNeutral(fields[1..], open, close);
      NeutralBoth(SpelledField(fields[0]), ",", open, close);
      NeutralBoth(SpelledField(fields[0]) + ",", SpelledFields(fields[1..]), open, close);
    }
  }

  // ---------------------------------------------------------------- the skipper is exact

  /** What may follow a value: a separator, a blank or the end. */
  predicate Separated(rest: string) { !InWord(At(rest, 0)) }

  lemma NestEnds(l: char, middle: string, r: char, rest: string)
    requires Pair(l, r) && Neutral(middle, l, r)
    ensures SkipNest([l] + middle + [r] + rest, l, r, 0) == Some(|middle| + 2)
  {
    var s := [l] + middle + [r] + rest;
    assert s == [l] + (middle + ([r] + rest));
    PassOne(l, middle + ([r] + rest), l, r, 0);
    NeutralAt(middle, [r] + rest, l, r, 1);
    assert SkipNest([r] + rest, l, r, 1) == Some(1);
    hide SkipNest, Neutral;
  }

  /** The skipper finds the exact end of every well-formed value followed by a separator,
      although it counts only the kind of bracket the value starts with. */
  lemma SkipIsExact(j: Json, rest: string)
    requires Valid(j) && Separated(rest)
    ensures SkipValue(Spelled(j) + rest) == Some(|Spelled(j)|)
  {
    match j
    case Word(w) =>
      RunOverWord(w, rest);
    case Quoted(body) =>
      BodyEnds(body, rest);
      assert ("\"" + body + "\"" + rest)[1..] == body + ("\"" + rest);
    case Arr(pad, items) =>
      var middle := if items == [] then pad else SpelledItems(items);
      if items == [] {
        WsIsPlain(pad, '[', ']');
        PlainIsNeutral(pad, '[', ']');
      } else {
        ItemsAreNeutral(items, '[', ']');
      }
      NestEnds('[', middle, ']', rest);
      assert Spelled(j) == ['['] + middle + [']'];
      hide SkipNest, SpelledItems, Neutral;
    case Obj(pad, fields) =>
      var middle := if fields == [] then pad else SpelledFields(fields);
      if fields == [] {
        WsIsPlain(pad, '{', '}');
        PlainIsNeutral(pad, '{', '}');
      } else {
        FieldsAreNeutral(fields, '{', '}');
      }
      NestEnds('{', middle, '}', rest);
      assert Spelled(j) == ['{'] + middle + ['}'];
      hide SkipNest, SpelledFields, Neutral;
  }

  lemma RunOverWord(w: string, rest: string)
    requires w != "" && (forall i :: 0 <= i < |w| ==> IsWordChar(w[i])) && Separated(rest)
    ensures SkipValue(w + rest) == Some(|w|)
  {
    assert forall i :: 0 <= i < |w| ==> InWord((w + rest)[i]);
    var e := RunEnd(w + rest, 0, InWord);
    assert e < |w + rest| ==> !InWord((w + rest)[e]);
    assert |rest| > 0 ==> (w + rest)[|w|] == rest[0];
  }

  // ---------------------------------------------------------------- the walker sees the elements

  function ElementTexts(items: seq<Item>): (t: seq<string>)
    ensures |t| == |items|
  {
    if items == [] then [] else [Spelled(items[0].value)] + ElementTexts(items[1..])
  }

  /** What a walk of these elements shows a callback that stops at the first it refuses, when
      `last` is what comes after them. */
  function Expected(texts: seq<string>, accept: string -> bool, last: Walk): Walk {
    if texts == [] then last
    else if !accept(texts[0]) then Walk([texts[0]], false)
    else Saw([texts[0]], Expected(texts[1..], accept, last))
  }

  lemma {:induction false} WsSkips(s: string, rest: string)
    requires AllWs(s) && (rest != "" ==> !IsWs(rest[0]))
    ensures SkipWs(s + rest) == rest
    decreases |s|
  {
    if s == "" {
      assert s + rest == rest;
    } else {
      WsSkips(s[1..], rest);
      SkipOneBlank(s, rest);
    }
  }

  lemma SkipOneBlank(s: string, rest: string)
    requires s != "" && IsWs(s[0])
    ensures SkipWs(s + rest) == SkipWs(s[1..] + rest)
  {
    assert (s + rest)[1..] == s[1..] + rest;
  }

  lemma ValueStarts(j: Json)
    requires Valid(j)
    ensures Spelled(j) != "" && !IsWs(Spelled(j)[0]) && Spelled(j)[0] != ']'
  {
    hide ValidBody;
  }

  /** One turn of the walker's loop over an element and the separator behind it. */
  lemma ElementSteps(i: Item, rest: string)
    requires ValidItem(i) && rest != "" && (rest[0] == ',' || rest[0] == ']')
    ensures var p := SkipWs(SpelledItem(i) + rest);
            && SkipValue(p) == Some(|Spelled(i.value)|) && p[..|Spelled(i.value)|] == Spelled(i.value)
            && SkipWs(p[|Spelled(i.value)|..]) == rest
  {
    var v := Spelled(i.value);
    var tail := i.after + rest;
    ValueStarts(i.value);
    assert SpelledItem(i) + rest == i.before + (v + tail);
    assert (v + tail)[..|v|] == v && (v + tail)[|v|..] == tail && !IsWs((v + tail)[0]) && !IsWs(rest[0]);
    assert AllWs(i.before) && AllWs(i.after) && Valid(i.value);
    hide *;
    WsSkips(i.before, v + tail);
    AfterSeparates(i.after, rest);
    SkipIsExact(i.value, tail);
    WsSkips(i.after, rest);
  }

  lemma AfterSeparates(after: string, rest: string)
    requires AllWs(after) && rest != "" && (rest[0] == ',' || rest[0] == ']')
    ensures Separated(after + rest)
  {
    assert after != "" ==> (after + rest)[0] == after[0];
    assert after == "" ==> after + rest == rest;
  }

  /** One turn of the walker when a comma follows the element. */
  lemma TurnGoesOn(i: Item, more: string, accept: string -> bool)
    requires ValidItem(i)
    ensures WalkFrom(SpelledItem(i) + ("," + more), accept)
         == if accept(Spelled(i.value)) then Saw([Spelled(i.value)], WalkFrom(more, accept))
            else Walk([Spelled(i.value)], false)
  {
    var rest := "," + more;
    assert rest[1..] == more && At(rest, 0) == ',';
    hide *;
    ElementSteps(i, rest);
    WalkTurn(SpelledItem(i) + rest, accept);
  }

  /** The last turn: the bracket closes the array. */
  lemma TurnEnds(i: Item, rest: string, accept: string -> bool)
    requires ValidItem(i)
    ensures WalkFrom(SpelledItem(i) + ("]" + rest), accept) == Walk([Spelled(i.value)], accept(Spelled(i.value)))
  {
    var tail := "]" + rest;
    assert At(tail, 0) == ']';
    hide *;
    ElementSteps(i, tail);
    WalkTurn(SpelledItem(i) + tail, accept);
  }

  lemma ItemsUnfold(items: seq<Item>, tail: string)
    requires items != [] && ValidItems(items)
    ensures ValidItem(items[0]) && ValidItems(items[1..])
    ensures |items| == 1 ==> SpelledItems(items) == SpelledItem(items[0]) && ElementTexts(items) == [Spelled(items[0].value)]
    ensures |items| > 1 ==>
              && SpelledItems(items) + tail == SpelledItem(items[0]) + ("," + (SpelledItems(items[1..]) + tail))
              && ElementTexts(items) == [Spelled(items[0].value)] + ElementTexts(items[1..])
  {
    hide Spelled, SpelledItem, ValidItem;
    assert |items| == 1 ==> ElementTexts(items[1..]) == [];
    if |items| > 1 {
      Regroup(SpelledItem(items[0]), SpelledItems(items[1..]), tail);
      assert SpelledItems(items) == SpelledItem(items[0]) + "," + SpelledItems(items[1..]);
    }
  }

  lemma Regroup(a: string, b: string, c: string)
    ensures a + "," + b + c == a + ("," + (b + c))
  {}

  lemma ExpectedUnfold(text: string, rest: seq<string>, accept: string -> bool, last: Walk)
    ensures Expected([text] + rest, accept, last)
         == if accept(text) then Saw([text], Expected(rest, accept, last)) else Walk([text], false)
    ensures Expected([text], accept, last) == if accept(text) then Saw([text], last) else Walk([text], false)
  {
    assert ([text] + rest)[1..] == rest;
    assert [text][1..] == [] && Expected([], accept, last) == last;
  }

  lemma {:induction false} WalkSeesItems(items: seq<Item>, rest: string, accept: string -> bool)
    requires items != [] && ValidItems(items)
    ensures WalkFrom(SpelledItems(items) + ("]" + rest), accept) == Expected(ElementTexts(items), accept, Walk([], true))
    decreases |items|
  {
    hide *;
    var i := items[0];
    ItemsUnfold(items, "]" + rest);
    ExpectedUnfold(Spelled(i.value), ElementTexts(items[1..]), accept, Walk([], true));
    if |items| == 1 {
      TurnEnds(i, rest, accept);
      SawNothing(Spelled(i.value));
    } else {
      WalkSeesItems(items[1..], rest, accept);
      TurnGoesOn(i, SpelledItems(items[1..]) + ("]" + rest), accept);
    }
  }

  lemma SawNothing(text: string)
    ensures Saw([text], Walk([], true)) == Walk([text], true)
  {}

  lemma ItemsStart(items: seq<Item>, rest: string)
    requires items != [] && ValidItems(items)
    ensures At(SkipWs(SpelledItems(items) + rest), 0) != ']'
  {
    hide Spelled, Valid;
    var i := items[0];
    var v := Spelled(i.value);
    ValueStarts(i.value);
    var tail := i.after + (if |items| == 1 then "" else "," + SpelledItems(items[1..])) + rest;
    assert SpelledItems(items) + rest == i.before + (v + tail);
    WsSkips(i.before, v + tail);
  }

  /** The walker shows exactly the array's elements, in order, up to the first the callback
      refuses, and succeeds exactly when it refuses none. */
  lemma WalkSeesElements(before: string, pad: string, items: seq<Item>, rest: string, accept: string -> bool)
    requires AllWs(before) && Valid(Arr(pad, items))
    ensures WalkArray(before + Spelled(Arr(pad, items)) + rest, accept) == Expected(ElementTexts(items), accept, Walk([], true))
  {
    var s := before + Spelled(Arr(pad, items)) + rest;
    var middle := if items == [] then pad else SpelledItems(items);
    var inner := middle + ("]" + rest);
    assert s == before + ("[" + inner);
    WsSkips(before, "[" + inner);
    assert ("[" + inner)[1..] == inner;
    hide Spelled, SpelledItems, SkipWs;
    if items == [] {
      WsSkips(pad, "]" + rest);
    } else {
      ItemsStart(items, "]" + rest);
      WalkSeesItems(items, rest, accept);
      WalkIgnoresBlanks(inner, accept);
    }
  }

  lemma {:induction false} SkipWsTwice(s: string)
    ensures SkipWs(SkipWs(s)) == SkipWs(s)
    decreases |s|
  {
    if s != "" && IsWs(s[0]) { SkipWsTwice(s[1..]); }
  }

  lemma WalkIgnoresBlanks(s: string, accept: string -> bool)
    ensures WalkFrom(SkipWs(s), accept) == WalkFrom(s, accept)
  {
    SkipWsTwice(s);
    hide SkipWs, WalkAt;
  }

  /** Such a walk succeeds exactly when every element is accepted, and then shows them all. */
  lemma {:induction false} ExpectedSucceeds(texts: seq<string>, accept: string -> bool)
    ensures var w := Expected(texts, accept, Walk([], true));
            && (w.ok <==> forall i :: 0 <= i < |texts| ==> accept(texts[i]))
            && (w.ok ==> w.seen == texts) && w.seen <= texts
    decreases |texts|
  {
    if texts != [] {
      ExpectedSucceeds(texts[1..], accept);
      assert texts == [texts[0]] + texts[1..];
      assert forall i :: 0 < i < |texts| ==> texts[i] == texts[1..][i - 1];
      if !Expected(texts[1..], accept, Walk([], true)).ok {
        var i :| 0 <= i < |texts[1..]| && !accept(texts[1..][i]);
        assert !accept(texts[i + 1]);
      }
    }
  }

  // ---------------------------------------------------------------- and one more after a trailing comma

  lemma {:induction false} WalkGoesOn(items: seq<Item>, more: string, accept: string -> bool)
    requires items != [] && ValidItems(items)
    ensures WalkFrom(SpelledItems(items) + ("," + more), accept)
         == Expected(ElementTexts(items), accept, WalkFrom(more, accept))
    decreases |items|
  {
    hide *;
    var i := items[0];
    ItemsUnfold(items, "," + more);
    ExpectedUnfold(Spelled(i.value), ElementTexts(items[1..]), accept, WalkFrom(more, accept));
    if |items| == 1 {
      TurnGoesOn(i, more, accept);
    } else {
      WalkGoesOn(items[1..], more, accept);
      TurnGoesOn(i, SpelledItems(items[1..]) + ("," + more), accept);
    }
  }

  lemma NothingBeforeBracket(rest: string, accept: string -> bool)
    ensures WalkFrom("]" + rest, accept) == Walk([""], accept(""))
  {
    var s := "]" + rest;
    assert SkipWs(s) == s && s[0..] == s && s[..0] == "";
    assert RunEnd(s, 0, InWord) == 0;
    hide SkipNest, SkipQuote;
  }

  /** Behind the opening bracket of an array that is not empty the walk begins. */
  lemma WalkOpens(inner: string, accept: string -> bool)
    requires At(SkipWs(inner), 0) != ']'
    ensures WalkArray("[" + inner, accept) == WalkFrom(inner, accept)
  {
    BracketIsNoBlank(inner);
    hide SkipWs, WalkFrom;
    WalkIgnoresBlanks(inner, accept);
  }

  lemma BracketIsNoBlank(inner: string)
    ensures var s := "[" + inner; SkipWs(s) == s && At(s, 0) == '[' && s[1..] == inner
  {}

  lemma CommaBracket(middle: string, rest: string)
    ensures "[" + middle + ",]" + rest == "[" + (middle + ("," + ("]" + rest)))
  {
    assert ",]" + rest == "," + ("]" + rest);
  }

  /** Outside well-formed JSON the walker is lenient: behind a trailing comma it shows the
      callback one more element, of no characters, instead of refusing the array. */
  lemma TrailingCommaShowsNothing(items: seq<Item>, rest: string, accept: string -> bool)
    requires items != [] && ValidItems(items)
    ensures WalkArray("[" + SpelledItems(items) + ",]" + rest, accept)
         == Expected(ElementTexts(items), accept, Walk([""], accept("")))
  {
    hide *;
    CommaBracket(SpelledItems(items), rest);
    ItemsStart(items, "," + ("]" + rest));
    WalkOpens(SpelledItems(items) + ("," + ("]" + rest)), accept);
    WalkGoesOn(items, "]" + rest, accept);
    NothingBeforeBracket(rest, accept);
  }
}
