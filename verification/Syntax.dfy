/**
 Expression trees, tokens and the name tables of the SSIS expression engine
 (providers/betl-ssisexpr/ssisexpr_provider.c).
 */
module Syntax {
  import opened Text

  datatype UnaryOp = Neg | Not | BitNot

  datatype BinOp =
    | Or | And | BitOr | BitXor | BitAnd | Equal | NotEqual | Less | LessEq | Greater | GreaterEq
    | Add | Sub | Mul | Div | Mod

  datatype Dt =
    | I1 | I2 | I4 | I8 | UI1 | UI2 | UI4 | UI8 | R4 | R8 | BoolType | WStr | Str | DbDate
    | DbTimestamp | DbTimestamp2 | DbTime | OleDate | Numeric | Guid | Bytes

  datatype Fn =
    | Len | Substring | LeftPart | RightPart | Trim | TrimLeft | TrimRight | ToLower | ToUpper
    | Replace | FindString | Reverse | Token | TokenCount | Hex | CodePoint | IsNull | ReplaceNull
    | AbsFn | Power | Square | Sqrt | Round | Ceiling | Floor | Sign | GetDate | YearOf | MonthOf
    | DayOf | DatePart | DateAddFn | DateDiffFn

  datatype Node =
    | LitInt(i: int)
    | LitFloat(lexeme: string)
    | LitStr(s: string)
    | LitBool(b: bool)
    | LitNull(dt: Dt)
    | ColRef(col: nat)
    | Unary(uop: UnaryOp, a: Node)
    | Binop(op: BinOp, l: Node, r: Node)
    | Ternary(c: Node, t: Node, f: Node)
    | Cast(to: Dt, len: Option<int>, scale: Option<int>, a: Node)
    | Call(fn: Fn, args: seq<Node>)

  /** A binary operator's token is Infix of it; T_MINUS alone is also a prefix operator. */
  datatype Tok =
    | Eof
    | IntTok(i: int)
    | FloatTok(lexeme: string)
    | StrTok(s: string)
    | Ident(name: string)
    | BrIdent(name: string)
    | VarRef(name: string)
    | KwTrue | KwFalse | KwNull
    | Infix(op: BinOp)
    | Bang | Tilde
    | LParen | RParen | Comma | QMark | Colon

  const INT64_MAX := 0x7FFF_FFFF_FFFF_FFFF

  // ---------------------------------------------------------------- names

  function Lower(c: char): char {
    if 'A' <= c <= 'Z' then c + 32 as char else c
  }

  /** strcasecmp on NUL-free names. */
  predicate SameName(a: string, b: string) {
    |a| == |b| && forall i :: 0 <= i < |a| ==> Lower(a[i]) == Lower(b[i])
  }

  /** Index of the first name in the table that matches ignoring case. */
  function FindName(table: seq<string>, name: string): (r: Option<nat>)
    ensures r.Some? ==> r.value < |table| && SameName(name, table[r.value])
    ensures r.Some? ==> forall i :: 0 <= i < r.value ==> !SameName(name, table[i])
    ensures r.None? ==> forall i :: 0 <= i < |table| ==> !SameName(name, table[i])
  {
    FindFrom(table, name, 0)
  }

  function FindFrom(table: seq<string>, name: string, i: nat): (r: Option<nat>)
    requires i <= |table| && forall k :: 0 <= k < i ==> !SameName(name, table[k])
    ensures r.Some? ==> r.value < |table| && SameName(name, table[r.value])
    ensures r.Some? ==> forall k :: 0 <= k < r.value ==> !SameName(name, table[k])
    ensures r.None? ==> forall k :: 0 <= k < |table| ==> !SameName(name, table[k])
    decreases |table| - i
  {
    if i == |table| then None else if SameName(name, table[i]) then Some(i) else FindFrom(table, name, i + 1)
  }

  /** The columns and pipeline parameters a compilation can see. */
  datatype Scope = Scope(cols: seq<string>, params: map<string, string>)

  // ---------------------------------------------------------------- type names

  datatype DtRow = DtRow(name: string, dt: Dt)

  /** parse_dt's names in order, six of them aliases. */
  function DtRowAt(i: nat): DtRow
    requires i < 27
  {
    match i
    case 0 => DtRow("DT_I1", I1)
    case 1 => DtRow("DT_I2", I2)
    case 2 => DtRow("DT_I4", I4)
    case 3 => DtRow("DT_I8", I8)
    case 4 => DtRow("DT_UI1", UI1)
    case 5 => DtRow("DT_UI2", UI2)
    case 6 => DtRow("DT_UI4", UI4)
    case 7 => DtRow("DT_UI8", UI8)
    case 8 => DtRow("DT_R4", R4)
    case 9 => DtRow("DT_R8", R8)
    case 10 => DtRow("DT_BOOL", BoolType)
    case 11 => DtRow("DT_WSTR", WStr)
    case 12 => DtRow("DT_NTEXT", WStr)
    case 13 => DtRow("DT_STR", Str)
    case 14 => DtRow("DT_TEXT", Str)
    case 15 => DtRow("DT_DBDATE", DbDate)
    case 16 => DtRow("DT_DBTIMESTAMP", DbTimestamp)
    case 17 => DtRow("DT_DBTIMESTAMP2", DbTimestamp2)
    case 18 => DtRow("DT_DBTIMESTAMPOFFSET", DbTimestamp)
    case 19 => DtRow("DT_DBTIME", DbTime)
    case 20 => DtRow("DT_DBTIME2", DbTime)
    case 21 => DtRow("DT_DATE", OleDate)
    case 22 => DtRow("DT_NUMERIC", Numeric)
    case 23 => DtRow("DT_DECIMAL", Numeric)
    case 24 => DtRow("DT_GUID", Guid)
    case 25 => DtRow("DT_BYTES", Bytes)
    case _ => DtRow("DT_IMAGE", Bytes)
  }

  function DtNames(): (t: seq<string>)
    ensures |t| == 27 && forall i :: 0 <= i < 27 ==> t[i] == DtRowAt(i).name
  {
    seq(27, i requires 0 <= i < 27 => DtRowAt(i).name)
  }

  function ParseDt(name: string): Option<Dt> {
    match FindName(DtNames(), name)
    case None => None
    case Some(i) => Some(DtRowAt(i).dt)
  }

  /** Where a type's own name stands. */
  function DtIndex(dt: Dt): (i: nat)
    ensures i < 27 && DtRowAt(i).dt == dt
  {
    match dt
    case I1 => 0
    case I2 => 1
    case I4 => 2
    case I8 => 3
    case UI1 => 4
    case UI2 => 5
    case UI4 => 6
    case UI8 => 7
    case R4 => 8
    case R8 => 9
    case BoolType => 10
    case WStr => 11
    case Str => 13
    case DbDate => 15
    case DbTimestamp => 16
    case DbTimestamp2 => 17
    case DbTime => 19
    case OleDate => 21
    case Numeric => 22
    case Guid => 24
    case Bytes => 25
  }

  function DtName(dt: Dt): string { DtRowAt(DtIndex(dt)).name }

  // ---------------------------------------------------------------- function names

  /** Least and greatest argument count coincide in every row of g_fns. */
  datatype FnRow = FnRow(name: string, fn: Fn, arity: nat)

  function FnRowAt(i: nat): FnRow
    requires i < 33
  {
    match i
    case 0 => FnRow("LEN", Len, 1)
    case 1 => FnRow("SUBSTRING", Substring, 3)
    case 2 => FnRow("LEFT", LeftPart, 2)
    case 3 => FnRow("RIGHT", RightPart, 2)
    case 4 => FnRow("TRIM", Trim, 1)
    case 5 => FnRow("LTRIM", TrimLeft, 1)
    case 6 => FnRow("RTRIM", TrimRight, 1)
    case 7 => FnRow("LOWER", ToLower, 1)
    case 8 => FnRow("UPPER", ToUpper, 1)
    case 9 => FnRow("REPLACE", Replace, 3)
    case 10 => FnRow("FINDSTRING", FindString, 3)
    case 11 => FnRow("REVERSE", Reverse, 1)
    case 12 => FnRow("TOKEN", Token, 3)
    case 13 => FnRow("TOKENCOUNT", TokenCount, 2)
    case 14 => FnRow("HEX", Hex, 1)
    case 15 => FnRow("CODEPOINT", CodePoint, 1)
    case 16 => FnRow("ISNULL", IsNull, 1)
    case 17 => FnRow("REPLACENULL", ReplaceNull, 2)
    case 18 => FnRow("ABS", AbsFn, 1)
    case 19 => FnRow("POWER", Power, 2)
    case 20 => FnRow("SQUARE", Square, 1)
    case 21 => FnRow("SQRT", Sqrt, 1)
    case 22 => FnRow("ROUND", Round, 2)
    case 23 => FnRow("CEILING", Ceiling, 1)
    case 24 => FnRow("FLOOR", Floor, 1)
    case 25 => FnRow("SIGN", Sign, 1)
    case 26 => FnRow("GETDATE", GetDate, 0)
    case 27 => FnRow("YEAR", YearOf, 1)
    case 28 => FnRow("MONTH", MonthOf, 1)
    case 29 => FnRow("DAY", DayOf, 1)
    case 30 => FnRow("DATEPART", DatePart, 2)
    case 31 => FnRow("DATEADD", DateAddFn, 3)
    case _ => FnRow("DATEDIFF", DateDiffFn, 3)
  }

  function FnNames(): (t: seq<string>)
    ensures |t| == 33 && forall i :: 0 <= i < 33 ==> t[i] == FnRowAt(i).name
  {
    seq(33, i requires 0 <= i < 33 => FnRowAt(i).name)
  }

  function LookupFn(name: string): Option<Fn> {
    match FindName(FnNames(), name)
    case None => None
    case Some(i) => Some(FnRowAt(i).fn)
  }

  function FnIndex(fn: Fn): (i: nat)
    ensures i < 33 && FnRowAt(i).fn == fn
  {
    match fn
    case Len => 0
    case Substring => 1
    case LeftPart => 2
    case RightPart => 3
    case Trim => 4
    case TrimLeft => 5
    case TrimRight => 6
    case ToLower => 7
    case ToUpper => 8
    case Replace => 9
    case FindString => 10
    case Reverse => 11
    case Token => 12
    case TokenCount => 13
    case Hex => 14
    case CodePoint => 15
    case IsNull => 16
    case ReplaceNull => 17
    case AbsFn => 18
    case Power => 19
    case Square => 20
    case Sqrt => 21
    case Round => 22
    case Ceiling => 23
    case Floor => 24
    case Sign => 25
    case GetDate => 26
    case YearOf => 27
    case MonthOf => 28
    case DayOf => 29
    case DatePart => 30
    case DateAddFn => 31
    case DateDiffFn => 32
  }

  function FnName(fn: Fn): string { FnRowAt(FnIndex(fn)).name }

  function Arity(fn: Fn): nat { FnRowAt(FnIndex(fn)).arity }

  // ---------------------------------------------------------------- both tables have distinct names

  datatype Key = Key(length: nat, c: char, d: char)

  predicate SameKey(a: Key, b: Key) {
    a.length == b.length && Lower(a.c) == Lower(b.c) && Lower(a.d) == Lower(b.d)
  }

  /** Length, last and next to last character of each type name. */
  function DtKey(i: nat): Key {
    match i
    case 0 => Key(5, '1', 'I')
    case 1 => Key(5, '2', 'I')
    case 2 => Key(5, '4', 'I')
    case 3 => Key(5, '8', 'I')
    case 4 => Key(6, '1', 'I')
    case 5 => Key(6, '2', 'I')
    case 6 => Key(6, '4', 'I')
    case 7 => Key(6, '8', 'I')
    case 8 => Key(5, '4', 'R')
    case 9 => Key(5, '8', 'R')
    case 10 => Key(7, 'L', 'O')
    case 11 => Key(7, 'R', 'T')
    case 12 => Key(8, 'T', 'X')
    case 13 => Key(6, 'R', 'T')
    case 14 => Key(7, 'T', 'X')
    case 15 => Key(9, 'E', 'T')
    case 16 => Key(14, 'P', 'M')
    case 17 => Key(15, '2', 'P')
    case 18 => Key(20, 'T', 'E')
    case 19 => Key(9, 'E', 'M')
    case 20 => Key(10, '2', 'E')
    case 21 => Key(7, 'E', 'T')
    case 22 => Key(10, 'C', 'I')
    case 23 => Key(10, 'L', 'A')
    case 24 => Key(7, 'D', 'I')
    case 25 => Key(8, 'S', 'E')
    case _ => Key(8, 'E', 'G')
  }

  /** Length, first and next to last character of each function name. */
  function FnKey(i: nat): Key {
    match i
    case 0 => Key(3, 'L', 'E')
    case 1 => Key(9, 'S', 'N')
    case 2 => Key(4, 'L', 'F')
    case 3 => Key(5, 'R', 'H')
    case 4 => Key(4, 'T', 'I')
    case 5 => Key(5, 'L', 'I')
    case 6 => Key(5, 'R', 'I')
    case 7 => Key(5, 'L', 'E')
    case 8 => Key(5, 'U', 'E')
    case 9 => Key(7, 'R', 'C')
    case 10 => Key(10, 'F', 'N')
    case 11 => Key(7, 'R', 'S')
    case 12 => Key(5, 'T', 'E')
    case 13 => Key(10, 'T', 'N')
    case 14 => Key(3, 'H', 'E')
    case 15 => Key(9, 'C', 'N')
    case 16 => Key(6, 'I', 'L')
    case 17 => Key(11, 'R', 'L')
    case 18 => Key(3, 'A', 'B')
    case 19 => Key(5, 'P', 'E')
    case 20 => Key(6, 'S', 'R')
    case 21 => Key(4, 'S', 'R')
    case 22 => Key(5, 'R', 'N')
    case 23 => Key(7, 'C', 'N')
    case 24 => Key(5, 'F', 'O')
    case 25 => Key(4, 'S', 'G')
    case 26 => Key(7, 'G', 'T')
    case 27 => Key(4, 'Y', 'A')
    case 28 => Key(5, 'M', 'T')
    case 29 => Key(3, 'D', 'A')
    case 30 => Key(8, 'D', 'R')
    case 31 => Key(7, 'D', 'D')
    case _ => Key(8, 'D', 'F')
  }

  lemma DtKeyIs(i: nat)
    requires i < 27
    ensures var n := DtRowAt(i).name; |n| >= 2 && DtKey(i) == Key(|n|, n[|n| - 1], n[|n| - 2])
  {}

  lemma FnKeyIs(i: nat)
    requires i < 33
    ensures var n := FnRowAt(i).name; |n| >= 2 && FnKey(i) == Key(|n|, n[0], n[|n| - 2])
  {}

  lemma DtKeysDiffer(i: nat, j: nat)
    requires i < 27 && j < 27 && SameKey(DtKey(i), DtKey(j))
    ensures i == j
  {}

  lemma FnKeysDiffer(i: nat, j: nat)
    requires i < 33 && j < 33 && SameKey(FnKey(i), FnKey(j))
    ensures i == j
  {
    if i < 17 { FirstFnKeys(i, j); } else { LastFnKeys(i, j); }
    hide FnKey;
  }

  lemma FirstFnKeys(i: nat, j: nat)
    requires i < 17 && j < 33 && SameKey(FnKey(i), FnKey(j))
    ensures i == j
  {}

  lemma LastFnKeys(i: nat, j: nat)
    requires 17 <= i < 33 && j < 33 && SameKey(FnKey(i), FnKey(j))
    ensures i == j
  {}

  lemma DtNamesDiffer(i: nat, j: nat)
    requires i < 27 && j < 27 && SameName(DtRowAt(i).name, DtRowAt(j).name)
    ensures i == j
  {
    DtKeyIs(i);
    DtKeyIs(j);
    hide DtRowAt, DtKey;
    DtKeysDiffer(i, j);
  }

  lemma FnNamesDiffer(i: nat, j: nat)
    requires i < 33 && j < 33 && SameName(FnRowAt(i).name, FnRowAt(j).name)
    ensures i == j
  {
    FnKeyIs(i);
    FnKeyIs(j);
    hide FnRowAt, FnKey;
    FnKeysDiffer(i, j);
  }

  lemma DtNameParses(dt: Dt)
    ensures ParseDt(DtName(dt)) == Some(dt)
  {
    hide DtRowAt, DtIndex, DtNames;
    var r := FindName(DtNames(), DtName(dt));
    if r.Some? { DtNamesDiffer(DtIndex(dt), r.value); }
  }

  lemma FnNameParses(fn: Fn)
    ensures LookupFn(FnName(fn)) == Some(fn)
  {
    hide FnRowAt, FnIndex, FnNames;
    var r := FindName(FnNames(), FnName(fn));
    if r.Some? { FnNamesDiffer(FnIndex(fn), r.value); }
  }
}
