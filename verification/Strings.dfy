/**
 REPLACE, FINDSTRING, TOKEN and TOKENCOUNT (providers/betl-ssisexpr/ssisexpr_provider.c): the
 loops, and what they agree on.
 */
module Strings {
  import opened Text

  // ---------------------------------------------------------------- occurrences

  predicate MatchAt(s: string, f: string, i: nat) { i + |f| <= |s| && s[i..i + |f|] == f }

  /** The positions from `i` on at which the loops of REPLACE and FINDSTRING stop: leftmost
      first, none overlapping the one before. */
  predicate Occurrences(s: string, f: string, i: nat, ps: seq<nat>)
    decreases |ps|
  {
    if ps == [] then forall j :: i <= j <= |s| ==> !MatchAt(s, f, j)
    else
      && i <= ps[0] && MatchAt(s, f, ps[0]) && (forall j :: i <= j < ps[0] ==> !MatchAt(s, f, j))
      && Occurrences(s, f, ps[0] + |f|, ps[1..])
  }

  function Positions(s: string, f: string, i: nat): (ps: seq<nat>)
    requires f != "" && i <= |s|
    ensures Occurrences(s, f, i, ps)
    decreases |s| - i
  {
    if i == |s| then []
    else if MatchAt(s, f, i) then [i] + Positions(s, f, i + |f|)
    else
      var rest := Positions(s, f, i + 1);
      rest
  }

  /** There is one such list. */
  lemma {:induction false} OccurrencesAreUnique(s: string, f: string, i: nat, ps: seq<nat>, qs: seq<nat>)
    requires Occurrences(s, f, i, ps) && Occurrences(s, f, i, qs)
    ensures ps == qs
    decreases |ps|
  {
    var first := if ps == [] then |s| + 1 else ps[0];
    var other := if qs == [] then |s| + 1 else qs[0];
    assert MatchAt(s, f, first) || ps == [];
    assert MatchAt(s, f, other) || qs == [];
    assert first == other;
    if ps != [] {
      OccurrencesAreUnique(s, f, ps[0] + |f|, ps[1..], qs[1..]);
      assert ps == [ps[0]] + ps[1..] && qs == [qs[0]] + qs[1..];
    }
  }

  // ---------------------------------------------------------------- what the functions return

  /** Stretches of `n` characters at these positions fit behind each other from `i` to `len`. */
  predicate Laid(len: nat, i: nat, ps: seq<nat>, n: nat)
    decreases |ps|
  {
    if ps == [] then i <= len else i <= ps[0] && Laid(len, ps[0] + n, ps[1..], n)
  }

  lemma {:induction false} LaidBounds(len: nat, i: nat, ps: seq<nat>, n: nat)
    requires Laid(len, i, ps, n)
    ensures i <= len && (ps != [] ==> ps[0] + n <= len)
    decreases |ps|
  {
    if ps != [] { LaidBounds(len, ps[0] + n, ps[1..], n); }
  }

  /** `s` from `i` on with `r` in place of the `n` characters at each position. */
  function Spliced(s: string, i: nat, ps: seq<nat>, n: nat, r: string): string
    requires Laid(|s|, i, ps, n)
    decreases |ps|
  {
    LaidBounds(|s|, i, ps, n);
    if ps == [] then s[i..] else s[i..ps[0]] + (r + Spliced(s, ps[0] + n, ps[1..], n, r))
  }

  lemma {:induction false} OccurrencesAreLaid(s: string, f: string, i: nat, ps: seq<nat>)
    requires Occurrences(s, f, i, ps) && i <= |s|
    ensures Laid(|s|, i, ps, |f|)
    decreases |ps|
  {
    if ps != [] { OccurrencesAreLaid(s, f, ps[0] + |f|, ps[1..]); }
  }

  function Replace(s: string, f: string, r: string): string {
    if f == "" then s
    else
      OccurrencesAreLaid(s, f, 0, Positions(s, f, 0));
      Spliced(s, 0, Positions(s, f, 0), |f|, r)
  }

  /** One-based position of the `occurrence`-th, zero when there are fewer; None is the error. */
  function FindString(s: string, f: string, occurrence: int): Option<int> {
    if occurrence < 1 then None
    else if f == "" || |Positions(s, f, 0)| < occurrence then Some(0)
    else Some(Positions(s, f, 0)[occurrence - 1] + 1)
  }

  // ---------------------------------------------------------------- the loops

  /** realloc: the first `n` characters survive. */
  method Grow(buf: array<char>, n: nat, cap: nat) returns (bigger: array<char>)
    requires n <= buf.Length <= cap + 1
    ensures fresh(bigger) && bigger.Length == cap + 1 && bigger[..n] == buf[..n]
  {
    bigger := new char[cap + 1];
    for k := 0 to n
      invariant bigger[..k] == buf[..k]
    {
      bigger[k] := buf[k];
    }
  }

  method Append(buf: array<char>, n: nat, piece: string, ghost text: string) returns (m: nat)
    requires n == |text| && n + |piece| <= buf.Length && buf[..n] == text
    modifies buf
    ensures m == n + |piece| && buf[..m] == text + piece
  {
    m := n;
    for k := 0 to |piece|
      invariant m == n + k && buf[..m] == text + piece[..k]
    {
      buf[m] := piece[k];
      assert piece[..k + 1] == piece[..k] + [piece[k]];
      assert buf[..m + 1] == buf[..m] + [piece[k]];
      m := m + 1;
    }
    assert piece[..|piece|] == piece;
  }

  /** What is still to be written when the loop stands at `i`. */
  function ReplacedFrom(s: string, f: string, r: string, i: nat): string
    requires f != "" && i <= |s|
  {
    OccurrencesAreLaid(s, f, i, Positions(s, f, i));
    Spliced(s, i, Positions(s, f, i), |f|, r)
  }

  lemma ReplaceStep(s: string, f: string, r: string, i: nat)
    requires f != "" && i < |s|
    ensures MatchAt(s, f, i) ==> i + |f| <= |s| && ReplacedFrom(s, f, r, i) == r + ReplacedFrom(s, f, r, i + |f|)
    ensures !MatchAt(s, f, i) ==> ReplacedFrom(s, f, r, i) == [s[i]] + ReplacedFrom(s, f, r, i + 1)
  {
    OccurrencesAreLaid(s, f, i, Positions(s, f, i));
    if MatchAt(s, f, i) {
      var ps := Positions(s, f, i + |f|);
      assert Positions(s, f, i) == [i] + ps && ([i] + ps)[1..] == ps;
      assert s[i..i] == "";
    } else {
      var ps := Positions(s, f, i + 1);
      OccurrencesAreLaid(s, f, i + 1, ps);
      assert Positions(s, f, i) == ps;
      SpliceShift(s, i, ps, |f|, r);
    }
  }

  lemma SpliceShift(s: string, i: nat, ps: seq<nat>, n: nat, r: string)
    requires i < |s| && Laid(|s|, i, ps, n) && Laid(|s|, i + 1, ps, n)
    ensures Spliced(s, i, ps, n, r) == [s[i]] + Spliced(s, i + 1, ps, n, r)
  {
    LaidBounds(|s|, i, ps, n);
    if ps == [] {
      assert s[i..] == [s[i]] + s[i + 1..];
    } else {
      var rest := r + Spliced(s, ps[0] + n, ps[1..], n, r);
      assert s[i..ps[0]] == [s[i]] + s[i + 1..ps[0]];
      PieceMoves([s[i]], s[i + 1..ps[0]], rest);
    }
  }

  lemma PieceMoves(written: string, piece: string, rest: string)
    ensures written + (piece + rest) == written + piece + rest && written + "" == written
  {}

  /** Doubling the buffer until the piece fits, then writing it. */
  method Write(buf: array<char>, n: nat, cap: nat, piece: string, ghost text: string)
    returns (grown: array<char>, m: nat, room: nat)
    requires cap >= 16 && Buffered(buf, n, cap, text)
    modifies buf
    ensures grown == buf || fresh(grown)
    ensures room >= 16 && Buffered(grown, m, room, text + piece)
  {
    grown, room := buf, cap;
    if n + |piece| > cap {
      while n + |piece| > room
        invariant room >= cap
        decreases n + |piece| - room
      {
        room := room * 2;
      }
      grown := Grow(buf, n, room);
    }
    m := Append(grown, n, piece, text);
  }

  /** fn_replace: the growing buffer is never overrun. */
  method ReplaceLoop(s: string, f: string, r: string) returns (result: string)
    ensures result == Replace(s, f, r)
  {
    hide *;
    if f == "" {
      ReplaceNothing(s, r);
      return s;
    }
    var cap, n: nat := |s| + 16, 0;
    var buf := new char[cap + 1];
    var i: nat := 0;
    ghost var written := "";
    NothingBuffered(buf, cap);
    StartReplacing(s, f, r);
    while i < |s|
      invariant i <= |s| && cap >= 16 && Buffered(buf, n, cap, written) && fresh(buf)
      invariant written + ReplacedFrom(s, f, r, i) == Replace(s, f, r)
      decreases |s| - i
    {
      var piece, step := Turn(s, f, r, i);
      TurnMoves(s, f, r, i, written, piece, step);
      buf, n, cap := Write(buf, n, cap, piece, written);
      written := written + piece;
      i := i + step;
    }
    NothingLeft(s, f, r, written);
    BufferedText(buf, n, cap, written);
    return buf[..n];
  }

  predicate Buffered(buf: array<char>, n: nat, cap: nat, text: string)
    reads buf
  {
    buf.Length == cap + 1 && n == |text| <= cap && buf[..n] == text
  }

  lemma NothingBuffered(buf: array<char>, cap: nat)
    requires buf.Length == cap + 1
    ensures Buffered(buf, 0, cap, "")
  {}

  lemma ReplaceNothing(s: string, r: string)
    ensures Replace(s, "", r) == s
  {}

  lemma BufferedText(buf: array<char>, n: nat, cap: nat, text: string)
    requires Buffered(buf, n, cap, text)
    ensures n <= buf.Length && buf[..n] == text
  {}

  /** What one turn writes, and how far it moves. */
  method Turn(s: string, f: string, r: string, i: nat) returns (piece: string, step: nat)
    requires f != "" && i < |s|
    ensures 0 < step && i + step <= |s| && ReplacedFrom(s, f, r, i) == piece + ReplacedFrom(s, f, r, i + step)
  {
    ReplaceStep(s, f, r, i);
    hide ReplacedFrom;
    if i + |f| <= |s| && s[i..i + |f|] == f { return r, |f|; }
    return [s[i]], 1;
  }

  lemma StartReplacing(s: string, f: string, r: string)
    requires f != ""
    ensures "" + ReplacedFrom(s, f, r, 0) == Replace(s, f, r)
  {
    hide Spliced, Positions;
    assert "" + ReplacedFrom(s, f, r, 0) == ReplacedFrom(s, f, r, 0);
  }

  lemma TurnMoves(s: string, f: string, r: string, i: nat, written: string, piece: string, step: nat)
    requires f != "" && i + step <= |s| && written + ReplacedFrom(s, f, r, i) == Replace(s, f, r)
    requires ReplacedFrom(s, f, r, i) == piece + ReplacedFrom(s, f, r, i + step)
    ensures written + piece + ReplacedFrom(s, f, r, i + step) == Replace(s, f, r)
  {
    PieceMoves(written, piece, ReplacedFrom(s, f, r, i + step));
    hide *;
  }

  lemma NothingLeft(s: string, f: string, r: string, written: string)
    requires f != "" && written + ReplacedFrom(s, f, r, |s|) == Replace(s, f, r)
    ensures written == Replace(s, f, r)
  {
    assert ReplacedFrom(s, f, r, |s|) == "";
    hide *;
    PieceMoves(written, "", "");
  }

  /** fn_findstring. */
  method FindLoop(s: string, f: string, occurrence: int) returns (r: Option<int>)
    ensures r == FindString(s, f, occurrence)
  {
    if occurrence < 1 { return None; }
    if f == "" { return Some(0); }
    var found, i := 0, 0;
    ghost var all := Positions(s, f, 0);
    while i + |f| <= |s|
      invariant i <= |s| && 0 <= found < occurrence && found <= |all| && all[found..] == Positions(s, f, i)
      decreases |s| - i
    {
      if s[i..i + |f|] == f {
        assert all[found] == all[found..][0] == i;
        found := found + 1;
        if found == occurrence { return Some(i + 1); }
        assert all[found..] == all[found - 1..][1..];
        i := i + |f|;
      } else {
        i := i + 1;
      }
    }
    NoRoomLeft(s, f, i);
    return Some(0);
  }

  lemma {:induction false} NoRoomLeft(s: string, f: string, i: nat)
    requires f != "" && i <= |s| < i + |f|
    ensures Positions(s, f, i) == []
    decreases |s| - i
  {
    if i < |s| { NoRoomLeft(s, f, i + 1); }
  }

  // ---------------------------------------------------------------- what they agree on

  /** REPLACE substitutes exactly where FINDSTRING finds the first, second, ... occurrence,
      and FINDSTRING finds no more. */
  lemma ReplaceFollowsFindString(s: string, f: string, r: string, ps: seq<nat>)
    requires f != ""
    requires forall k :: 0 <= k < |ps| ==> FindString(s, f, k + 1) == Some(ps[k] + 1)
    requires FindString(s, f, |ps| + 1) == Some(0)
    ensures Occurrences(s, f, 0, ps)
    ensures Laid(|s|, 0, ps, |f|) && Replace(s, f, r) == Spliced(s, 0, ps, |f|, r)
  {
    var qs := Positions(s, f, 0);
    assert |qs| < |ps| + 1;
    assert |ps| > 0 ==> FindString(s, f, |ps|) == Some(ps[|ps| - 1] + 1);
    assert ps == qs;
    OccurrencesAreLaid(s, f, 0, qs);
  }

  lemma {:induction false} SplicedLength(s: string, i: nat, ps: seq<nat>, n: nat, r: string)
    requires Laid(|s|, i, ps, n)
    ensures |Spliced(s, i, ps, n, r)| == |s| - i + |ps| * (|r| - n)
    decreases |ps|
  {
    LaidBounds(|s|, i, ps, n);
    if ps != [] {
      SplicedLength(s, ps[0] + n, ps[1..], n, r);
      OneMore(|ps| - 1, |r| - n);
    }
  }

  lemma OneMore(k: nat, d: int)
    ensures (k + 1) * d == k * d + d
  {}

  /** The result is longer by the difference of the two texts for each occurrence. */
  lemma ReplaceLength(s: string, f: string, r: string)
    requires f != ""
    ensures |Replace(s, f, r)| == |s| + |Positions(s, f, 0)| * (|r| - |f|)
  {
    OccurrencesAreLaid(s, f, 0, Positions(s, f, 0));
    SplicedLength(s, 0, Positions(s, f, 0), |f|, r);
  }

  lemma {:induction false} SplicedSame(s: string, f: string, i: nat, ps: seq<nat>)
    requires i <= |s| && Occurrences(s, f, i, ps) && Laid(|s|, i, ps, |f|)
    ensures Spliced(s, i, ps, |f|, f) == s[i..]
    decreases |ps|
  {
    hide *;
    SameStep(s, f, i, ps);
    if ps != [] {
      SplicedSame(s, f, ps[0] + |f|, ps[1..]);
      CutTwice(s, i, ps[0], ps[0] + |f|);
    }
  }

  lemma SameStep(s: string, f: string, i: nat, ps: seq<nat>)
    requires i <= |s| && Occurrences(s, f, i, ps) && Laid(|s|, i, ps, |f|)
    ensures ps == [] ==> Spliced(s, i, ps, |f|, f) == s[i..]
    ensures ps != [] ==>
              && i <= ps[0] && ps[0] + |f| <= |s| && s[ps[0]..ps[0] + |f|] == f
              && Occurrences(s, f, ps[0] + |f|, ps[1..]) && Laid(|s|, ps[0] + |f|, ps[1..], |f|)
              && Spliced(s, i, ps, |f|, f) == s[i..ps[0]] + (f + Spliced(s, ps[0] + |f|, ps[1..], |f|, f))
  {
    LaidBounds(|s|, i, ps, |f|);
  }

  lemma CutTwice(s: string, i: nat, j: nat, k: nat)
    requires i <= j <= k <= |s|
    ensures s[i..] == s[i..j] + (s[j..k] + s[k..])
  {}

  /** Replacing a text by itself changes nothing. */
  lemma ReplaceBySame(s: string, f: string)
    ensures Replace(s, f, f) == s
  {
    if f != "" {
      OccurrencesAreLaid(s, f, 0, Positions(s, f, 0));
      SplicedSame(s, f, 0, Positions(s, f, 0));
      assert s[0..] == s;
    }
  }

  // ---------------------------------------------------------------- tokens

  predicate Delimiter(c: char, d: string) { c in d }

  function SkipDelims(s: string, d: string, i: nat): (k: nat)
    requires i <= |s|
    ensures i <= k <= |s| && (k < |s| ==> !Delimiter(s[k], d)) && forall j :: i <= j < k ==> Delimiter(s[j], d)
    decreases |s| - i
  {
    if i < |s| && Delimiter(s[i], d) then SkipDelims(s, d, i + 1) else i
  }

  function SkipToken(s: string, d: string, i: nat): (k: nat)
    requires i <= |s|
    ensures i <= k <= |s| && (k < |s| ==> Delimiter(s[k], d)) && forall j :: i <= j < k ==> !Delimiter(s[j], d)
    decreases |s| - i
  {
    if i < |s| && !Delimiter(s[i], d) then SkipToken(s, d, i + 1) else i
  }

  /** The runs of other characters between delimiters, from `i` on. */
  function Tokens(s: string, d: string, i: nat): seq<string>
    requires i <= |s|
    decreases |s| - i
  {
    var start := SkipDelims(s, d, i);
    if start == |s| then []
    else
      var end := SkipToken(s, d, start);
      assert end > start;
      [s[start..end]] + Tokens(s, d, end)
  }

  /** fn_token_split: an empty delimiter list makes the whole text one token. */
  function TokensOf(s: string, d: string): seq<string> {
    if d == "" then if s == "" then [] else [s] else Tokens(s, d, 0)
  }

  /** TOKEN; None is the error. */
  function Token(s: string, d: string, n: int): Option<string> {
    if n < 1 then None else if n <= |TokensOf(s, d)| then Some(TokensOf(s, d)[n - 1]) else Some("")
  }

  method SkipDelimsLoop(s: string, d: string, i: nat) returns (k: nat)
    requires i <= |s|
    ensures k == SkipDelims(s, d, i)
  {
    k := i;
    while k < |s| && s[k] in d
      invariant i <= k <= |s| && SkipDelims(s, d, i) == SkipDelims(s, d, k)
    {
      k := k + 1;
    }
  }

  method SkipTokenLoop(s: string, d: string, i: nat) returns (k: nat)
    requires i <= |s|
    ensures k == SkipToken(s, d, i)
  {
    k := i;
    while k < |s| && s[k] !in d
      invariant i <= k <= |s| && SkipToken(s, d, i) == SkipToken(s, d, k)
    {
      k := k + 1;
    }
  }

  /** The splitting loop: the wanted token, if there, and how many there are. */
  method SplitLoop(s: string, d: string, want: int) returns (token: Option<string>, count: nat)
    ensures count == |TokensOf(s, d)|
    ensures token == if 1 <= want <= count then Some(TokensOf(s, d)[want - 1]) else None
  {
    if d == "" {
      return if want == 1 && s != "" then Some(s) else None, if s != "" then 1 else 0;
    }
    var i: nat := 0;
    ghost var all := Tokens(s, d, 0);
    token, count := None, 0;
    hide Tokens;
    while i < |s|
      invariant i <= |s| && count <= |all| && all[count..] == Tokens(s, d, i)
      invariant token == if 1 <= want <= count then Some(all[want - 1]) else None
      decreases |s| - i
    {
      TokensStep(s, d, i);
      var start := SkipDelimsLoop(s, d, i);
      if start >= |s| {
        NoTokensLeft(s, d);
        i := |s|;
        break;
      }
      i := SkipTokenLoop(s, d, start);
      assert all[count] == all[count..][0] && all[count + 1..] == all[count..][1..];
      count := count + 1;
      if count == want { token := Some(s[start..i]); }
    }
    NoTokensLeft(s, d);
    assert all[count..] == [];
  }

  lemma NoTokensLeft(s: string, d: string)
    ensures Tokens(s, d, |s|) == []
  {}

  function Kept(s: string, d: string): string {
    if s == "" then "" else (if Delimiter(s[0], d) then "" else [s[0]]) + Kept(s[1..], d)
  }

  function Joined(ts: seq<string>): string { if ts == [] then "" else ts[0] + Joined(ts[1..]) }

  lemma {:induction false} KeptConcat(a: string, b: string, d: string)
    ensures Kept(a + b, d) == Kept(a, d) + Kept(b, d)
  {
    hide *;
    if a == "" {
      assert a + b == b;
      KeptNothing(d);
      assert "" + Kept(b, d) == Kept(b, d);
    } else {
      KeptConcat(a[1..], b, d);
      KeptStep(a, d);
      KeptStep(a + b, d);
      assert (a + b)[1..] == a[1..] + b && (a + b)[0] == a[0];
      PieceMoves(if Delimiter(a[0], d) then "" else [a[0]], Kept(a[1..], d), Kept(b, d));
    }
  }

  lemma KeptNothing(d: string)
    ensures Kept("", d) == ""
  {}

  lemma KeptStep(s: string, d: string)
    requires s != ""
    ensures Kept(s, d) == (if Delimiter(s[0], d) then "" else [s[0]]) + Kept(s[1..], d)
  {}

  lemma {:induction false} KeptRun(s: string, d: string, keep: bool)
    requires forall j :: 0 <= j < |s| ==> Delimiter(s[j], d) == !keep
    ensures Kept(s, d) == if keep then s else ""
  {
    if s != "" {
      KeptRun(s[1..], d, keep);
      assert s == [s[0]] + s[1..];
    }
  }

  /** No token is empty or holds a delimiter, and together the tokens are the text without
      its delimiters: nothing is lost, doubled or reordered. */
  lemma {:induction false} TokensPartition(s: string, d: string, i: nat)
    requires i <= |s|
    ensures Joined(Tokens(s, d, i)) == Kept(s[i..], d)
    ensures forall k :: 0 <= k < |Tokens(s, d, i)| ==>
              Tokens(s, d, i)[k] != "" && forall j :: 0 <= j < |Tokens(s, d, i)[k]| ==> !Delimiter(Tokens(s, d, i)[k][j], d)
    decreases |s| - i
  {
    var start := SkipDelims(s, d, i);
    if start == |s| {
      KeptRun(s[i..], d, false);
    } else {
      var end := SkipToken(s, d, start);
      TokensPartition(s, d, end);
      TokenKept(s, d, i, start, end);
      TokensStep(s, d, i);
      hide Tokens, SkipDelims, SkipToken, Kept;
      var ts := Tokens(s, d, i);
      assert ts[0] == s[start..end] && ts[1..] == Tokens(s, d, end);
      assert forall k :: 0 < k < |ts| ==> ts[k] == ts[1..][k - 1];
    }
  }

  lemma TokensStep(s: string, d: string, i: nat)
    requires i <= |s|
    ensures var start := SkipDelims(s, d, i);
            if start == |s| then Tokens(s, d, i) == []
            else var end := SkipToken(s, d, start); end > start && Tokens(s, d, i) == [s[start..end]] + Tokens(s, d, end)
  {}

  lemma TokenKept(s: string, d: string, i: nat, start: nat, end: nat)
    requires i <= start <= end <= |s|
    requires (forall j :: i <= j < start ==> Delimiter(s[j], d)) && (forall j :: start <= j < end ==> !Delimiter(s[j], d))
    ensures Kept(s[i..], d) == s[start..end] + Kept(s[end..], d)
  {
    KeptRun(s[i..start], d, false);
    KeptRun(s[start..end], d, true);
    CutTwice(s, i, start, end);
    hide Kept;
    KeptConcat(s[i..start], s[start..end] + s[end..], d);
    KeptConcat(s[start..end], s[end..], d);
  }

  /** TOKEN is empty exactly past TOKENCOUNT. */
  lemma TokenEndsAtCount(s: string, d: string, n: int)
    requires n >= 1
    ensures Token(s, d, n) == Some("") <==> n > |TokensOf(s, d)|
  {
    TokensPartition(s, d, 0);
  }
}
