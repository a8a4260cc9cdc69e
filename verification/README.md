# betl: a verified model

This project models the parts of betl whose correctness is hard to see by reading one function, and proves what each part promises. `dafny verify dfyconfig.toml` checks all of it.

| part | repository files | modules |
|---|---|---|
| bounded-queue edge between two pipeline steps | `src/runtime/async_stream.c` | `AsyncQueue` (the ring as an object), `AsyncProtocol` (threads as steps), `AsyncTheorems`, `AsyncRuns` |
| SSIS expressions: text to tree and back | `providers/betl-ssisexpr/ssisexpr_provider.c` | `Syntax`, `Lexer`, `Parser`, `ParserState` (the same as cursor objects), `Grammar`, `GrammarTheorems`, `Printer`, `Spelling`, `RoundTrip`, `Precedence` |
| SSIS expressions: evaluation and output columns | same | `Eval`, `EvalTheorems`, `IntegerLaws`, `EvalValues`, `EvalSource` (from source text to value), `Columns`, `ColumnValues` |
| SSIS expressions: string functions | same | `Strings` |
| calendar, date and time text, DATEADD and DATEDIFF | `src/runtime/date_util.c` and the engine's copy | `Calendar`, `IsoText`, `IsoTheorems`, `IsoFields`, `DateArith`, `DateUnits` |
| 128-bit decimals | `src/runtime/decimal_util.c` and the engine | `Decimal`, `DecimalText`, `DecimalArith` |
| JSON skipping, walking and strings | `providers/betl-lua/lua_provider.c`, `src/pipeline/pipeline.c` | `JsonWalk`, `JsonTheorems`, `JsonStrings` |
| one-port script stream | `providers/betl-lua/lua_provider.c` | `LuaScript` |
| row staging and two output ports | `providers/betl-dotnet/dotnet_provider.c` | `Staging`, `StagedColumn` (a column as an object), `Ports`, `PortsTheorems`, `StagedRows`, `StagedLeaves`, `RoutedRows`, `RoutedRuns` |
| provider registry | `src/loader/registry.c` | `Registry`, `RegistryTheorems` |

`CInt` holds C's fixed-width arithmetic, `Text` digits, scanning and byte order.

Where the source updates state, the model does too: the ring, the lexer and parser cursors, the digit stack and output buffers, the bitmaps and column buffers of both engines and the registry are objects or arrays whose methods are proved against functions on their contents; the theorems are about those functions. Where the source is expression-style, so is the model. The date and decimal algorithms exist twice in the repository with the same bodies; they are modelled once, and the rows below cite either copy.

The step system of the queue edge takes each critical section as one step, keeps the room check and the push apart as the source does, and lets a sleeping thread be woken spuriously. A run is any interleaving of enabled steps.

The grammar is stated without reference to the parser: concrete trees, their tokens and their meaning. The printer writes the fewest tokens that mean the tree. Whether `strtod` accepts a float lexeme is a parameter throughout, as are floating point, casts, column reads and the function library in the evaluator.

## Where the code differs from what one would expect

The model follows the code. Each of these is stated as a theorem, with the exact condition under which things go right or the family of inputs on which they do not.

- A host cancellation sets only `stop`, which the consumer's wait does not test, so a cancelled `get_next` is sure to return exactly when a batch or the terminal is queued (`AsyncRuns.GetNextReturnsExactly`); otherwise it hangs for good (`StuckExactlyOnCancel`, `StuckForever`, `CancelHangs`).
- The comment on decimal division says half away from zero; the doubled remainder overflows for remainders from 2^126 on, and the numerator or divisor -2^127 cannot be negated (`DecimalArith.QuotientIsNearest` and `DivIsNearest` give the exact condition for all operands; `LargeDivisorRoundsDown`, `MostNegativeNumeratorFlips`).
- Decimal comparison scales one operand without an overflow check (`DecimalArith.CompareIsExact` gives the exact condition, `UnfittingCompareIsWrong` a pair on either side of it).
- -2^127 is formatted as minus zero, and text denotes at most 10*floor(2^126/10)+9 units (`DecimalText.PrintedDenotes`, `DecimalRoundTrip`).
- Date text accepts day 31 in every month, and timestamps accept `T` and short fractions; such text is accepted but prints differently (`IsoTheorems.TsReprints`, `Calendar.SurplusDays`). Years outside 0..9999 are formatted but not read back.
- A date so far out that its midnight has no 64-bit microsecond count wraps when it is compared with a timestamp (`EvalValues.MidnightCompares` gives the exact condition, `FarMidnightIsEarly` a pair) or stored in a timestamp column.
- DATEADD with the weekday part adds months; DATEDIFF refuses it (`DateArith.WeekdayAddsMonths`).
- A name in parentheses that is also a type name always starts a cast, so a column with such a name needs brackets there (`GrammarTheorems.ParenIsCastExactly`, `SoleTypeNameIsCast`).
- A hexadecimal literal above 2^63-1 saturates silently, a decimal one is refused (`Spelling.HexLexes`).
- Comparing a GUID or byte string with a number is not refused and not antisymmetric; next to a decimal, a date, time, GUID or byte string counts as zero (`EvalTheorems.ComparisonMirrors`, `DecimalTakesDateAsZero`).
- A string column stores decimals, GUIDs and byte strings as empty text (`ColumnValues.UnprintableBecomesEmpty`).
- Behind a trailing comma the array walker shows an empty element (`JsonTheorems.TrailingCommaShowsNothing`).
- A flush frees the column buffers but keeps the flags that say a cell is set, which is sound exactly for code that commits whole rows (`PortsTheorems.FlushIsSoundForWholeRows`); the managed side does (`Ports.WholeRowsClose`).
- The row after a tagged one reuses its slot without taking back null flags and bytes (`StagedLeaves.RowAfterTagged`); so a later row, tagged or not, may read null for a number that was set, or text behind earlier text (`RoutedRows.After` and `Seen` say what is read).
- Nulls in byte string, GUID and decimal columns of the .NET component record no end and no bytes. A GUID or decimal behind a null is read from the wrong place, a byte string behind a null depends on what memory held (`StagedLeaves.LeafReads`, `ReadableAnyway`, `NullThenGuid`, `NullThenBytes`). Their bytes are not copied to the error output at all (`ErrorBytesAreLost`).
- The JSON decoder refuses escaped surrogates, and an escaped NUL cuts its result short as a C string (`JsonStrings.StrictDecodes`).

## Model

| member | source | states |
|---|---|---|
| AsyncRuns.WrapperRefinesUpstream | src/runtime/async_stream.c:91-199 | For every depth, every interleaving and every number of calls, the i-th answer of `get_next` is the upstream's i-th batch, and from then on its end or its failure; no terminal is seen while a pulled batch is undelivered |
| AsyncRuns.DepthIsInvisible | src/runtime/async_stream.c:259-297 | Two runs at any two depths that answered equally often answered the same |
| AsyncRuns.BatchesHaveOneOwner | src/runtime/async_stream.c:91-253 | At every moment of every run each pulled batch is in exactly one place, in order: with the consumer, drained, queued, in the producer's hand, or released by the producer |
| AsyncRuns.ReleaseLeavesNothing | src/runtime/async_stream.c:221-253 | After `release` every pulled batch was handed over or released exactly once, every ring slot is empty, the producer is gone and the upstream was released once |
| AsyncRuns.PushFindsItsSlotEmpty | src/runtime/async_stream.c:95-149 | Although the lock is dropped between the room check and the push, the push always finds room and an empty slot |
| AsyncRuns.SleepersHaveReasons | src/runtime/async_stream.c:95-98 | A sleeping producer faces a full ring and no stop; a sleeping consumer an empty ring with no terminal and, without cancellation, a live producer; they never sleep together |
| AsyncRuns.GetNextReturnsExactly | src/runtime/async_stream.c:95-198 | From every reachable state within a `get_next`, the call is sure to return the right answer within 196 steps of the two threads, whatever their order, exactly when a batch or the terminal is queued or the host has not cancelled; and sure to even if the host cancels from now on exactly when one is queued or in the producer's hand |
| AsyncRuns.ReleaseReturnsAlways | src/runtime/async_stream.c:221-232 | From every reachable state within a `release`, cancelled or not, it finishes within 456 steps, whatever their order |
| AsyncRuns.StuckExactlyOnCancel | src/runtime/async_stream.c:103-110 | During a `get_next` neither thread can move exactly when the producer left on a host cancellation and the consumer sleeps: cancellation sets only `stop`, which the consumer's wait does not test |
| AsyncRuns.StuckForever | src/runtime/async_stream.c:181-184 | With the producer gone and nothing queued a `get_next` never answers, whatever steps follow, spurious wakeups included |
| AsyncRuns.CancelHangs | src/runtime/async_stream.c:103-110 | A concrete run that hangs: depth 1, cancelled before the first pull |
| AsyncTheorems.StepKeeps | src/runtime/async_stream.c:91-253 | Every enabled step of either thread keeps the protocol invariant (contents, flags, sleepers, phases) |
| AsyncQueue.PushAppends | src/runtime/async_stream.c:145-147 | A push with room lands on an empty slot of the circular ring and appends to the queued batches |
| AsyncQueue.PopTakesFirst | src/runtime/async_stream.c:185-189 | A pop hands out the oldest batch, empties its slot and keeps the others in order |
| AsyncQueue.AsyncStream.constructor | src/runtime/async_stream.c:259-276 | A new queue is empty, with the requested depth clamped to 1..64 |
| AsyncQueue.AsyncStream.ProducerPushes | src/runtime/async_stream.c:139-149 | The push section appends the batch, or stores nothing once `stop` is set |
| AsyncQueue.AsyncStream.ConsumerTakes | src/runtime/async_stream.c:181-198 | One pass of the wait loop takes the oldest batch; only an empty queue yields the terminal or a wait |
| AsyncQueue.AsyncStream.Drain | src/runtime/async_stream.c:234-241 | The drain releases exactly the queued batches, oldest first, and leaves every slot empty |
| AsyncQueue.AsyncStream.ProducerPostsEof | src/runtime/async_stream.c:130-133 | Posting the end changes one flag and no batch |
| AsyncQueue.AsyncStream.ProducerPostsError | src/runtime/async_stream.c:120-125 | Posting an error changes one flag and no batch |
| AsyncQueue.AsyncStream.SetStop | src/runtime/async_stream.c:105-108 | Stopping changes one flag and no batch |
| Calendar.DaysInvertCivil | src/runtime/date_util.c:5-25 | For every day number the closed form yields a real date whose day number is the day again |
| Calendar.CivilInvertsDays | src/runtime/date_util.c:5-25 | Every real date survives conversion to a day number and back |
| Calendar.CivilSuccessor | src/runtime/date_util.c:14-25 | The date of day z+1 is the calendar successor of the date of day z under the 4/100/400 leap rule |
| Calendar.CivilRefinesNaive | src/runtime/date_util.c:14-25 | The closed form computes what stepping day by day from the epoch computes |
| Calendar.CivilEpoch | src/runtime/date_util.c:14-25 | Day zero is 1970-01-01 |
| Calendar.DaysOfNextDay | providers/betl-ssisexpr/ssisexpr_provider.c:1779-1786 | Stepping the calendar one day adds one to the day number |
| Calendar.DaysOrderDates | src/runtime/date_util.c:5-12 | Day numbers order real dates exactly as year, month, day do |
| Calendar.SurplusDays | src/runtime/date_util.c:5-12 | Days past the end of a short month are the first days of the next month |
| Calendar.NamedDay | providers/betl-ssisexpr/ssisexpr_provider.c:1788-1799 | Month 1..12 and day 1..31 name a day of that year, and that very date exactly when it is real |
| Calendar.ConversionsFitInt32 | src/runtime/date_util.c:5-25 | All intermediate values of both conversions fit a 32-bit int exactly when z + 719468 does |
| IsoText.ReadDate | src/runtime/date_util.c:36-53 | The date parser's loop accepts and computes what the text format says |
| IsoText.ReadTime | src/runtime/date_util.c:105-134 | Likewise for times of day, with the optional fraction of one to six digits |
| IsoText.ReadFraction | src/runtime/date_util.c:120-131 | The fraction loop scales one to six digits (or none) to micros |
| IsoText.ReadTs | src/runtime/date_util.c:162-194 | Likewise for timestamps with blank or `T` |
| IsoText.ReadTsTz | src/runtime/date_util.c:55-103 | Likewise for timestamps with a zone suffix |
| IsoText.SplitTs | src/runtime/date_util.c:27-34 | Whole days round down, so the time of day of a negative timestamp is still within the day |
| IsoTheorems.DateRoundTrip | providers/betl-ssisexpr/ssisexpr_provider.c:1812-1828 | A formatted date reads back exactly when its year has four digits |
| IsoTheorems.TimeRoundTrip | src/runtime/date_util.c:105-149 | Exactly the times within a day are formatted, and all of them read back |
| IsoTheorems.TsRoundTrip | providers/betl-ssisexpr/ssisexpr_provider.c:1830-1925 | A formatted timestamp, negative ones included, reads back exactly when its civil year is 0..9999 |
| IsoTheorems.TsTextIsOrdered | providers/betl-ssisexpr/ssisexpr_provider.c:1622-1630 | Byte-wise comparison of two formatted timestamps agrees with the timestamps, although a zero fraction is omitted |
| IsoTheorems.TsReprints | src/runtime/date_util.c:162-194 | An accepted timestamp text is what formatting its value prints exactly when it names a real date, uses the blank, and has no fraction or six digits not all zero |
| IsoFields.TsSpelled | providers/betl-ssisexpr/ssisexpr_provider.c:1830-1925 | Every position of a formatted timestamp: which digits spell year, month, day, hour, minute, second and fraction of a microsecond count, and the separators between them |
| IsoFields.TimeIsWorth | src/runtime/date_util.c:105-134 | A written time of day is worth its hours, minutes and seconds in literal microseconds and its fraction of one to six digits as a decimal fraction of a second |
| IsoTheorems.DateReprintsOnlyReal | src/runtime/date_util.c:36-53 | Every accepted date text has a four-digit year and prints as written only if the date is real |
| IsoTheorems.ZonedTsReads | src/runtime/date_util.c:55-160 | Local time with any of the zone spellings (none, Z, +HH, +HHMM, +HH:MM, either sign) reads as the UTC instant |
| DateArith.DateDiffUndoesDateAdd | providers/betl-ssisexpr/ssisexpr_provider.c:3023-3131 | DATEDIFF(u, x, DATEADD(u, n, x)) = n for every part except the weekday, every date or timestamp and every signed n whose result is representable |
| DateArith.DateAddMovesDays | providers/betl-ssisexpr/ssisexpr_provider.c:3023-3085 | Units of a day or more move the day by the exact amount and keep the kind of value and the time of day |
| DateArith.DateAddClampsDay | providers/betl-ssisexpr/ssisexpr_provider.c:3056-3080 | Year, quarter and month shifts land that many months away on the same day, or on the month's last day when it is shorter |
| DateArith.DateAddReachesMonth | providers/betl-ssisexpr/ssisexpr_provider.c:3023-3131 | Shifting by the month difference of two values reaches the other value's month |
| DateArith.MonthShiftsCompose | providers/betl-ssisexpr/ssisexpr_provider.c:3056-3084 | Two year, quarter or month shifts by DATEADD of a date or timestamp equal the shift by their sum exactly when the month passed through does not cut the day below where the single shift puts it |
| DateArith.WeekdayAddsMonths | providers/betl-ssisexpr/ssisexpr_provider.c:3023-3131 | For the weekday part DATEADD shifts months while DATEDIFF refuses it |
| DateUnits.HoursAreMicros | providers/betl-ssisexpr/ssisexpr_provider.c:3040-3049 | Adding n hours, minutes or seconds to a timestamp adds n * 3600000000, 60000000 or 1000000 microseconds, modulo 2^64 past the range; on a date it is refused |
| DateUnits.LongerPartsMove | providers/betl-ssisexpr/ssisexpr_provider.c:3051-3085 | Within range n days, weeks, months, quarters or years are n days, 7n days, n, 3n or 12n calendar months |
| DateUnits.ElapsedUnits | providers/betl-ssisexpr/ssisexpr_provider.c:3122-3130 | DATEDIFF below a day of any two values is the elapsed microseconds over the same literals, rounded toward zero |
| DateUnits.LongerPartsDiffer | providers/betl-ssisexpr/ssisexpr_provider.c:3105-3121 | From a day up it is the difference of days or of calendar months, in whole weeks, quarters and years rounded toward zero |
| DateUnits.DayOfInstant | providers/betl-ssisexpr/ssisexpr_provider.c:3028-3037 | The day of a value is the one of 86400000000 microseconds that its instant lies in |
| Decimal.ReadDecimal | src/runtime/decimal_util.c:20-59 | The parsing loop computes the parse function, sign, point, surplus zeros and overflow guard included |
| Decimal.StackDigits | src/runtime/decimal_util.c:64-81 | The digit loop fills at most 40 slots with the digits of the value, padded to one more than the scale |
| Decimal.WriteDecimal | src/runtime/decimal_util.c:61-95 | The formatter writes exactly the text and its terminator, or refuses a buffer too small without touching it |
| DecimalText.NumeralParses | src/runtime/decimal_util.c:20-59 | A numeral parses exactly when its value is a whole number of units at the target scale within the limit, and to that number of units |
| DecimalText.OnlyNumeralsParse | providers/betl-ssisexpr/ssisexpr_provider.c:1956-1987 | Nothing but an optional sign, digits and at most one point is accepted |
| DecimalText.PrintedDenotes | src/runtime/decimal_util.c:61-95 | Printed text has exactly `scale` fraction digits and denotes the value, except that -2^127 prints as minus zero |
| DecimalText.DecimalRoundTrip | providers/betl-ssisexpr/ssisexpr_provider.c:1948-2015 | A formatted decimal reads back exactly when its magnitude is at most 10*floor(2^126/10)+9 |
| DecimalText.TextFits | src/runtime/decimal_util.c:61-95 | 42 bytes always hold the text and its terminator |
| DecimalArith.AddIsExact | providers/betl-ssisexpr/ssisexpr_provider.c:2107-2132 | A sum or difference that is delivered is exact; it is refused exactly when an operand or the result does not fit 128 bits at the common scale |
| DecimalArith.Multiply | providers/betl-ssisexpr/ssisexpr_provider.c:2134-2145 | The digit-by-digit cutting loop of the product truncates once at the end |
| DecimalArith.MulIsTruncated | providers/betl-ssisexpr/ssisexpr_provider.c:2134-2145 | A product is refused exactly on overflow, exact up to 38 fraction digits, and past that cut toward zero by less than one last unit |
| DecimalArith.DivIsNearest | providers/betl-ssisexpr/ssisexpr_provider.c:2147-2169 | A quotient is delivered exactly when the divisor is not zero and the scaled dividend fits, has scale max(scale of a, 6), and is the nearest one, ties away from zero, exactly when rounding goes right for the scaled dividend and the divisor |
| DecimalArith.ModestOperandsRoundRight | providers/betl-ssisexpr/ssisexpr_provider.c:2147-2169 | For divisors up to 2^126 and dividends other than -2^127 rounding goes right |
| DecimalArith.QuotientIsNearest | providers/betl-ssisexpr/ssisexpr_provider.c:2160-2166 | For all 128-bit operands the rounded quotient is the nearest integer exactly when: for numerator -2^127 the divisor is 1; else for divisor -2^127 the numerator is at least 2^126 in size; else the remainder is below 2^126 |
| DecimalArith.LargeDivisorRoundsDown | providers/betl-ssisexpr/ssisexpr_provider.c:2160-2166 | A concrete quotient the overflowing doubling rounds the wrong way |
| DecimalArith.MostNegativeNumeratorFlips | providers/betl-ssisexpr/ssisexpr_provider.c:2160-2166 | A dividend that scales to -2^127 divides right by 1 only; every other divisor gives a quotient that is not the nearest and, except for -2^127, has the wrong sign |
| DecimalArith.ShiftIsUp | providers/betl-ssisexpr/ssisexpr_provider.c:2147-2155 | The shift of a division is never negative, so the digit-dropping branch is dead |
| DecimalArith.RemainderIsTruncating | providers/betl-ssisexpr/ssisexpr_provider.c:2171-2180 | The remainder is what is left after taking the divisor away a number of times rounded toward zero, smaller than the divisor and with the dividend's sign |
| DecimalArith.PowerOfTen | providers/betl-ssisexpr/ssisexpr_provider.c:2097-2105 | Powers up to 38 are computed without overflow, others refused |
| DecimalArith.CompareIsExact | providers/betl-ssisexpr/ssisexpr_provider.c:2065-2095 | Integers are compared exactly when the scales differ by at most 37, and then the exact order results exactly when the scaled operand fits 128 bits or its wrapped value falls on the side its sign says |
| DecimalArith.UnfittingCompareIsWrong | providers/betl-ssisexpr/ssisexpr_provider.c:2065-2095 | An overflowing pair that compares wrong, the largest decimal below zero, and one that compares right |
| Syntax.FindName | providers/betl-ssisexpr/ssisexpr_provider.c:588-593 | A column is the first whose name matches ignoring case, and none is found only if none matches |
| Syntax.DtNameParses | providers/betl-ssisexpr/ssisexpr_provider.c:556-586 | Every type's own name is recognised as that type: no name shadows another |
| Syntax.FnNameParses | providers/betl-ssisexpr/ssisexpr_provider.c:463-508 | Likewise for the 33 functions |
| ParserState.Lex.ReadNumber | providers/betl-ssisexpr/ssisexpr_provider.c:285-328 | The number reader advances the cursor over and pushes exactly the reference's token, or fails with it |
| ParserState.Lex.ReadString | providers/betl-ssisexpr/ssisexpr_provider.c:249-283 | Likewise for string literals and their escapes |
| ParserState.Lex.ReadWord | providers/betl-ssisexpr/ssisexpr_provider.c:330-346 | Likewise for words and keywords |
| ParserState.Lex.ReadBracketIdent | providers/betl-ssisexpr/ssisexpr_provider.c:348-362 | Likewise for bracketed names |
| ParserState.Lex.ReadVarRef | providers/betl-ssisexpr/ssisexpr_provider.c:367-384 | Likewise for parameter references |
| ParserState.Lex.ReadAll | providers/betl-ssisexpr/ssisexpr_provider.c:386-443 | The token loop produces exactly the reference token array, with one end marker at its end |
| ParserState.Par.PTernary | providers/betl-ssisexpr/ssisexpr_provider.c:595-610 | The ternary method leaves the cursor and the node where the reference does, never past the end marker |
| ParserState.Par.PBinary | providers/betl-ssisexpr/ssisexpr_provider.c:619-735 | Likewise for the nine loops over binary operators, at the levels that `Precedence.TighterTakesMiddle` spells out |
| ParserState.Par.PUnary | providers/betl-ssisexpr/ssisexpr_provider.c:737-763 | Likewise for prefix operators |
| ParserState.Par.PPrimary | providers/betl-ssisexpr/ssisexpr_provider.c:829-954 | Likewise for primaries |
| ParserState.Par.PNull | providers/betl-ssisexpr/ssisexpr_provider.c:865-890 | Likewise for typed nulls |
| ParserState.Par.PParenOrCast | providers/betl-ssisexpr/ssisexpr_provider.c:768-827 | Likewise for parentheses and casts, with the two-token lookahead in bounds |
| ParserState.Par.PCallArgs | providers/betl-ssisexpr/ssisexpr_provider.c:958-995 | Likewise for calls: at most eight arguments, exact arity |
| ParserState.CompileSource | providers/betl-ssisexpr/ssisexpr_provider.c:3385-3426 | Lexer and parser objects together compute the compile function |
| Parser.ParseTernary | providers/betl-ssisexpr/ssisexpr_provider.c:595-610 | Parsing terminates by remaining tokens and level, consumes at least one token and stays before the end marker |
| GrammarTheorems.ParserIsGrammar | providers/betl-ssisexpr/ssisexpr_provider.c:595-995 | A token array parses to a node exactly when it is the yield of a well-formed tree of the stratified grammar meaning that node; which operator stands on which level is pinned by the `Precedence` rows |
| Precedence.TighterTakesMiddle | providers/betl-ssisexpr/ssisexpr_provider.c:619-735 | Of two binary operators around an operand, written out as nine groups from OR to the multiplicative ones, the tighter one takes it, and of two of one group the left one; operands are any names, literals, calls, parentheses, casts and prefix forms |
| Precedence.TighterTakesMiddleToken | providers/betl-ssisexpr/ssisexpr_provider.c:619-735 | The same for single tokens: `a op1 b op2 c` parses as the one or the other tree |
| Precedence.TextPrecedence | providers/betl-ssisexpr/ssisexpr_provider.c:3385-3426 | The same from source text, for any three numbers and any two operators as they are written |
| Precedence.PrefixBindsTightest | providers/betl-ssisexpr/ssisexpr_provider.c:737-806 | A prefix operator or a cast takes its operand before a binary operator on either side does |
| Precedence.ChoiceBindsLoosest | providers/betl-ssisexpr/ssisexpr_provider.c:595-610 | A choice takes what the binary operators around it have put together, on every branch |
| Precedence.ChoicesGroupRight | providers/betl-ssisexpr/ssisexpr_provider.c:595-610 | A second choice without parentheses belongs to the last branch of the first |
| Precedence.TypeNames | providers/betl-ssisexpr/ssisexpr_provider.c:556-585 | Each of the 27 type names, in any letter case, names its type, the six aliases included |
| Precedence.StringFunctions | providers/betl-ssisexpr/ssisexpr_provider.c:462-479 | Each text function's name, in any letter case, with its one argument count |
| Precedence.NumberFunctions | providers/betl-ssisexpr/ssisexpr_provider.c:480-491 | Likewise the null and number functions |
| Precedence.DateFunctions | providers/betl-ssisexpr/ssisexpr_provider.c:492-499 | Likewise the date functions |
| Precedence.OnlyTheseNames | providers/betl-ssisexpr/ssisexpr_provider.c:462-585 | No other text is a type or function name |
| Precedence.EscapesDecode | providers/betl-ssisexpr/ssisexpr_provider.c:232-283 | In a string literal the six escapes stand for newline, tab, return, backslash, quote and NUL, any other escape is refused, and every other character stands for itself |
| GrammarTheorems.EveryTreeParses | providers/betl-ssisexpr/ssisexpr_provider.c:595-995 | Every well-formed tree's tokens parse, to its meaning |
| GrammarTheorems.OnlyTreesParse | providers/betl-ssisexpr/ssisexpr_provider.c:595-995 | Whatever parses is exactly the yield of a well-formed tree that means the result |
| GrammarTheorems.Complete | providers/betl-ssisexpr/ssisexpr_provider.c:619-763 | At any place in any token array, and at any level, an operand is read whole and nothing beyond it |
| GrammarTheorems.Unambiguous | providers/betl-ssisexpr/ssisexpr_provider.c:595-995 | Trees with the same tokens mean the same |
| GrammarTheorems.ParenIsCastExactly | providers/betl-ssisexpr/ssisexpr_provider.c:768-781 | The lookahead takes a parenthesised expression for a cast exactly when it is a sole name that is also a type name |
| GrammarTheorems.SoleTypeNameIsCast | providers/betl-ssisexpr/ssisexpr_provider.c:768-827 | A column named like a type, alone in parentheses, is refused, and in front of a minus it turns into a cast of the negated operand |
| Printer.PrintMeans | providers/betl-ssisexpr/ssisexpr_provider.c:595-995 | The minimally parenthesised tree belongs to the grammar and means the expression printed |
| Printer.PrintIsShortest | providers/betl-ssisexpr/ssisexpr_provider.c:595-995 | Among all trees that mean the same, the printed one has the fewest tokens |
| Spelling.TokenLexes | providers/betl-ssisexpr/ssisexpr_provider.c:386-443 | A token's text reads back as the token, whatever follows that cannot extend it |
| Spelling.HexLexes | providers/betl-ssisexpr/ssisexpr_provider.c:285-300 | A hexadecimal literal of up to 31 digits reads as its number, saturating at 2^63-1; a longer one is refused |
| RoundTrip.RenderLexes | providers/betl-ssisexpr/ssisexpr_provider.c:386-443 | Any text of tokens separated by blanks where needed lexes to those tokens |
| RoundTrip.CompileInvertsPrint | providers/betl-ssisexpr/ssisexpr_provider.c:3385-3426 | Printed with the fewest parentheses and any blanks, every expressible tree compiles to itself |
| RoundTrip.ShowIsInjective | providers/betl-ssisexpr/ssisexpr_provider.c:3385-3426 | Different trees print differently |
| RoundTrip.LexedWrites | providers/betl-ssisexpr/ssisexpr_provider.c:386-443 | Every token the lexer makes can be written back |
| RoundTrip.WhateverCompilesPrints | providers/betl-ssisexpr/ssisexpr_provider.c:3385-3426 | Whatever source compiles, its tree prints, and the print compiles to the same tree |
| EvalTheorems.LazyRefinesEager | providers/betl-ssisexpr/ssisexpr_provider.c:3204-3274 | Whenever evaluating every operand with Kleene tables succeeds, lazy evaluation gives the same value |
| EvalTheorems.EagerExactlyWhenNothingFails | providers/betl-ssisexpr/ssisexpr_provider.c:3135-3274 | The eager reference succeeds exactly when no part of the tree fails and every second operand of AND and OR is logical |
| EvalSource.LiteralsEvaluate | providers/betl-ssisexpr/ssisexpr_provider.c:3204-3214 | Compiled and evaluated, a written number, a quoted text and TRUE and FALSE give the value they spell |
| EvalSource.ColumnEvaluates | providers/betl-ssisexpr/ssisexpr_provider.c:588-593 | A name in brackets reads the first column of that name in any letter case |
| EvalSource.NumbersCompare | providers/betl-ssisexpr/ssisexpr_provider.c:1711-1730 | A comparison written between two numbers tells how the numbers compare |
| EvalValues.IntegersCompare | providers/betl-ssisexpr/ssisexpr_provider.c:1702-1704 | For any two 64-bit integers the six comparisons are true exactly when the integers compare so |
| EvalValues.CalendarCompares | providers/betl-ssisexpr/ssisexpr_provider.c:1670-1693 | Dates compare by day, timestamps and times of day by microsecond |
| EvalValues.MidnightCompares | providers/betl-ssisexpr/ssisexpr_provider.c:1682-1693 | A date next to a timestamp, on either side, stands for its midnight exactly when that has a 64-bit microsecond count or the wrapped count lies on the same side |
| EvalValues.FarMidnightIsEarly | providers/betl-ssisexpr/ssisexpr_provider.c:1685-1686 | A far date whose midnight wraps and compares as earlier than 1970 |
| EvalValues.TextCompares | providers/betl-ssisexpr/ssisexpr_provider.c:1623-1651 | Strings, GUIDs and byte strings each compare in byte order: the first difference decides, and a prefix comes first |
| EvalValues.BooleansCompare | providers/betl-ssisexpr/ssisexpr_provider.c:1631-1634 | False comes before true |
| EvalValues.DecimalsCompare | providers/betl-ssisexpr/ssisexpr_provider.c:2065-2095 | Decimals compare as the rationals they stand for exactly where the scaled operand compares right; 38 digits of scale apart as floats |
| EvalValues.MixedNumbersCompare | providers/betl-ssisexpr/ssisexpr_provider.c:1655-1709 | Any other two numbers compare as floats |
| EvalValues.ComparableExactly | providers/betl-ssisexpr/ssisexpr_provider.c:1622-1730 | A comparison has a result exactly between values of one family (text, truth, time of day, date or timestamp, everything else), and every operator but AND and OR is null next to a null |
| EvalValues.TruthTables | providers/betl-ssisexpr/ssisexpr_provider.c:1742-1771 | The tables of AND, OR and NOT over true, false and null |
| EvalValues.ChoiceTakesBranch | providers/betl-ssisexpr/ssisexpr_provider.c:3257-3263 | A choice gives its first branch for true, its second for false, null for null |
| EvalValues.NullFunctions | providers/betl-ssisexpr/ssisexpr_provider.c:3135-3170 | ISNULL tells null, REPLACENULL replaces it, any other function and any cast of a null is null |
| EvalValues.IntegersWrap | providers/betl-ssisexpr/ssisexpr_provider.c:1581-1593 | Sums, differences, products and negations of any two 64-bit integers are the exact ones modulo 2^64, in range; the complement is -x-1 |
| EvalValues.IntegersDivide | providers/betl-ssisexpr/ssisexpr_provider.c:1594-1607 | Quotients truncate toward zero and remainders take the dividend's sign; division by zero fails and the one quotient out of range wraps |
| EvalValues.AndsCombine | providers/betl-ssisexpr/ssisexpr_provider.c:1495-1511 | The two's complement word of x & y is the bitwise AND of the operands' words |
| EvalValues.OrsCombine | providers/betl-ssisexpr/ssisexpr_provider.c:1495-1511 | Likewise for OR |
| EvalValues.XorsCombine | providers/betl-ssisexpr/ssisexpr_provider.c:1495-1511 | Likewise for exclusive OR |
| EvalValues.TextAdds | providers/betl-ssisexpr/ssisexpr_provider.c:1520-1534 | Concatenation holds the first text, then the second |
| EvalValues.ArithmeticRefuses | providers/betl-ssisexpr/ssisexpr_provider.c:1520-1579 | Text next to anything else, booleans, and dates and the like without a decimal are refused in arithmetic |
| EvalValues.FloatsCompute | providers/betl-ssisexpr/ssisexpr_provider.c:1545-1555 | Arithmetic in which a float takes part is floating point on both operands |
| EvalValues.DecimalsAdd | providers/betl-ssisexpr/ssisexpr_provider.c:2114-2132 | Sums and differences of decimals, or a decimal and an integer, are exact at the larger scale and fail exactly when an operand or the result does not fit 128 bits there |
| EvalValues.DecimalsMultiply | providers/betl-ssisexpr/ssisexpr_provider.c:2134-2145 | Products are exact up to 38 fraction digits, beyond that cut toward zero by less than one unit, and fail exactly when the unscaled product does not fit |
| EvalValues.DecimalsDivide | providers/betl-ssisexpr/ssisexpr_provider.c:2147-2169 | Quotients at scale max(6, the dividend's) are nearest with halves away from zero exactly where rounding goes right, and fail exactly for a zero divisor or a dividend that does not fit |
| EvalValues.DecimalsLeave | providers/betl-ssisexpr/ssisexpr_provider.c:2171-2180 | Remainders are the dividend less a whole multiple of the divisor, smaller than it and with the dividend's sign, and fail exactly for a zero divisor or an operand that does not fit |
| EvalTheorems.LogicAssociates | providers/betl-ssisexpr/ssisexpr_provider.c:1742-1771 | Regrouping a chain of AND or of OR changes neither value nor error |
| EvalTheorems.DeMorgan | providers/betl-ssisexpr/ssisexpr_provider.c:1742-1771 | De Morgan's laws hold, errors and short circuits included |
| EvalTheorems.LogicCommutes | providers/betl-ssisexpr/ssisexpr_provider.c:1742-1771 | Swapping operands never changes a result, only whether there is one |
| EvalTheorems.ComparisonsComplement | providers/betl-ssisexpr/ssisexpr_provider.c:1711-1730 | Each comparison is the negation of its complement, for nulls and errors too |
| EvalTheorems.ComparisonMirrors | providers/betl-ssisexpr/ssisexpr_provider.c:1622-1709 | Swapping operands swaps the sign of a comparison exactly unless an integer other than zero meets a GUID or byte string |
| EvalTheorems.DecimalTakesDateAsZero | providers/betl-ssisexpr/ssisexpr_provider.c:1540-1571 | Next to a decimal, on either side of every arithmetic operator, a date, time, GUID or byte string counts as zero instead of being refused |
| EvalTheorems.IntDivisionReconstructs | providers/betl-ssisexpr/ssisexpr_provider.c:1594-1607 | Quotient and remainder give the dividend back, also for the most negative integer divided by -1 |
| IntegerLaws.IntegersFormARing | providers/betl-ssisexpr/ssisexpr_provider.c:1581-1593 | Integer +, -, * and negation wrap around to the ring of integers modulo 2^64 |
| Eval.DecimalsStayValid | providers/betl-ssisexpr/ssisexpr_provider.c:2097-2180 | Every decimal operation yields a 128-bit value at a scale of at most 38 |
| JsonTheorems.SkipIsExact | providers/betl-lua/lua_provider.c:1547-1577 | On every well-formed JSON value followed by a separator the skipper finds its exact end, although it counts only the opening bracket's own kind |
| JsonTheorems.ValueIsNeutral | providers/betl-lua/lua_provider.c:1550-1567 | No well-formed value disturbs the bracket count of a value around it |
| JsonTheorems.WalkSeesElements | providers/betl-lua/lua_provider.c:1579-1597 | The walker shows exactly the array's elements, in order, up to the first its callback refuses |
| JsonTheorems.ExpectedSucceeds | providers/betl-lua/lua_provider.c:1579-1597 | Such a walk succeeds exactly when every element is accepted, and then has shown them all |
| JsonTheorems.TrailingCommaShowsNothing | providers/betl-lua/lua_provider.c:1579-1597 | Outside well-formed JSON: behind a trailing comma the walker shows one more element of no characters |
| JsonWalk.SkipOneValue | providers/betl-lua/lua_provider.c:1547-1577 | The skipping loops compute the skip function |
| JsonWalk.SkipNested | providers/betl-lua/lua_provider.c:1550-1567 | The bracket loop finds where the counted depth returns to zero, strings skipped |
| JsonWalk.WalkElements | providers/betl-lua/lua_provider.c:1579-1597 | The walking loop computes the walk, element by element |
| JsonStrings.DecodeString | providers/betl-lua/lua_provider.c:63-119 | The decoder computes the decoding function, and its buffer of strlen + 1 bytes is never overrun, whatever the input |
| JsonStrings.DecodeInvertsEscape | src/pipeline/pipeline.c:159-185 | Decoding what the pipeline escaped gives back the very bytes of every C string |
| JsonStrings.UnicodeEscapeDecodes | providers/betl-lua/lua_provider.c:86-110 | `u` and four hexadecimal digits decode to bytes that the bit layout of UTF-8 reads back as the number they spell, the shortest form of one, two or three bytes; a surrogate is refused |
| JsonStrings.ShortEscapesDecode | providers/betl-lua/lua_provider.c:78-85 | The eight short escapes decode to the character each stands for, every other one is refused |
| JsonStrings.EscapedIsValid | src/pipeline/pipeline.c:159-185 | What the pipeline writes is a string of RFC 8259 section 7: the eight simple escapes or `u` and four hexadecimal digits, no raw quote, backslash or control character |
| JsonStrings.StrictIsValid | providers/betl-lua/lua_provider.c:1568-1572 | Every such string is among those the value skipper is proved exact for |
| JsonStrings.StrictDecodes | providers/betl-lua/lua_provider.c:63-119 | Of such strings the decoder accepts exactly those without an escaped surrogate, each to its closing quote, and the result holds a NUL exactly when one was escaped |
| JsonStrings.DecoderAndSkipperAgree | providers/betl-lua/lua_provider.c:63-119 | Where the decoder accepts a string, the value skipper ends it at the same quote |
| LuaScript.Stream.Next | providers/betl-lua/lua_provider.c:2245-2307 | The pulling loop computes the one-port step function |
| LuaScript.GetNextKeeps | providers/betl-lua/lua_provider.c:2245-2307 | One call keeps emitted rows = delivered then buffered rows in order, hands out no empty batch, and ends only with nothing buffered |
| LuaScript.RunsAreGood | providers/betl-lua/lua_provider.c:2245-2307 | However often the stream is asked, also past failures, the same holds |
| LuaScript.EndIsFinal | providers/betl-lua/lua_provider.c:2245-2307 | The end is final and by then every emitted row was handed out |
| LuaScript.RunsConsume | providers/betl-lua/lua_provider.c:2245-2307 | However often the stream is asked, the rows emitted are those of the upstream batches taken so far, each once and in order, and at the end those of all batches and then of on_eof |
| RegistryTheorems.StepIsTransaction | src/loader/registry.c:152-343 | A failed load or registration leaves what is registered unchanged; a successful one appends one provider that passed every check |
| RegistryTheorems.AcceptedExactly | src/loader/registry.c:152-292 | A descriptor is registered exactly when its ABI version is 1, it is identified, its component names are present, new and different, its engine is complete with a new language, its hook succeeds and memory suffices; otherwise the code names the first obstacle |
| RegistryTheorems.RunKeepsNamesUnique | src/loader/registry.c:180-240 | After any sequence of calls no two components share a name and no two engines a language |
| RegistryTheorems.LookupsAreStable | src/loader/registry.c:87-101 | A lookup that succeeded gives the same answer after any further call |
| RegistryTheorems.RegisteredIsFound | src/loader/registry.c:270-286 | Every component of an accepted provider is found, as that provider's |
| RegistryTheorems.RunBalances | src/loader/registry.c:152-343 | After any run every opened handle is closed or held, and every started provider is shut down or stored, counted exactly |
| RegistryTheorems.EverythingIsReturned | src/loader/registry.c:131-146 | After any run and destroy, handles are closed as often as opened and providers with a hook shut down as often as started |
| RegistryTheorems.DestroyReversesLoads | src/loader/registry.c:131-146 | Destroy shuts stored providers down in reverse load order |
| Registry.BetlRegistry.CheckComponents | src/loader/registry.c:180-206 | The nested name loops accept exactly names that are present, new and pairwise different |
| Registry.BetlRegistry.CheckEngine | src/loader/registry.c:208-234 | The engine check accepts exactly a complete engine of a new, non-empty language |
| Registry.BetlRegistry.Reserve | src/loader/registry.c:245-268 | Growing any of the three tables may fail half-way without changing what is registered |
| Registry.BetlRegistry.Commit | src/loader/registry.c:279-291 | The commit appends the provider and all its entries to the three tables |
| Registry.BetlRegistry.TryRegister | src/loader/registry.c:152-292 | Registration changes tables and outside world exactly as the transaction says, on every failure path |
| Registry.BetlRegistry.LoadPath | src/loader/registry.c:294-328 | Likewise for loading by path |
| Registry.BetlRegistry.RegisterInProcess | src/loader/registry.c:330-343 | Likewise for in-process registration |
| Registry.BetlRegistry.TearDown | src/loader/registry.c:131-146 | The destroy loop emits exactly the destroy events |
| Staging.ActKeepsSound | providers/betl-dotnet/dotnet_provider.c:1421-1615 | Every setter, tag and commit, in any order, keeps both stagings shaped, with equal row counts in all columns |
| Staging.ActRoutes | providers/betl-dotnet/dotnet_provider.c:1560-1615 | Only a commit adds a row, and in exactly one place: main output, error output, or dropped |
| Ports.Component.PullUntilRow | providers/betl-dotnet/dotnet_provider.c:2655-2696 | The pulling loop computes the fill function |
| Ports.Component.Next | providers/betl-dotnet/dotnet_provider.c:2644-2702 | One `get_next` on either port computes the step function |
| Ports.WholeRowsClose | providers/betl-dotnet/shim/pipelinecomponent/PipelineBuffer.cs:766-805 | User code that writes whole rows leaves no cell open |
| PortsTheorems.FlushSucceeds | providers/betl-dotnet/dotnet_provider.c:2596-2642 | The row count mismatch branch is unreachable: a flush hands out the whole staging of its port and leaves the other port alone |
| PortsTheorems.FlushIsSoundForWholeRows | providers/betl-dotnet/dotnet_provider.c:2634-2641 | A flush leaves a sound staging exactly when no cell is open, since set flags outlive the buffers |
| PortsTheorems.RunsAreGood | providers/betl-dotnet/dotnet_provider.c:2644-2702 | Under any interleaving of the two ports rows are conserved, PostExecute and Cleanup run at most once and only after the upstream's end, and all columns agree on the row count |
| PortsTheorems.GetNextKeepsGood | providers/betl-dotnet/dotnet_provider.c:2644-2702 | One call keeps that, and a batch handed out is never empty |
| PortsTheorems.FillConserves | providers/betl-dotnet/dotnet_provider.c:2655-2696 | The pulling loop conserves committed rows |
| PortsTheorems.EndIsFinal | providers/betl-dotnet/dotnet_provider.c:2656-2675 | A port that reported its end is over and stays over, whatever either port is asked |
| PortsTheorems.NoRowsAfterTheEnd | providers/betl-dotnet/dotnet_provider.c:2644-2702 | In any run, after a port reported its end it reports nothing else |
| PortsTheorems.EverythingIsDelivered | providers/betl-dotnet/dotnet_provider.c:2644-2702 | Once both ports ended, every committed row was delivered or, without a reader of the error output, dropped |
| PortsTheorems.RunsConsume | providers/betl-dotnet/dotnet_provider.c:2655-2696 | In any run user code sees the upstream's batches in order, each once and none left out, and PostExecute after the last |
| PortsTheorems.OverMeansAll | providers/betl-dotnet/dotnet_provider.c:2655-2696 | When a port has ended, the calls made are those for all upstream batches and then PostExecute's |
| StagedRows.ScriptStages | providers/betl-dotnet/dotnet_provider.c:1468-1615 | A script that tags no row and sets each cell at most once leaves exactly its rows in the buffers of columns of every kind: null flags, values, bytes, and ends where the source records them |
| StagedRows.RunsHoldTheRows | providers/betl-dotnet/dotnet_provider.c:2644-2702 | However the ports are asked, the buffers port 0 handed out, then those staged, hold exactly the rows written, in order |
| StagedLeaves.RunsDeliverTheRows | providers/betl-dotnet/dotnet_provider.c:2644-2702 | What a consumer reads in a column of port 0's batches is exactly the rows written, up to those still staged, when and only when every batch is readable; numbers and text always are |
| StagedLeaves.FreshRunsDeliverAll | providers/betl-dotnet/dotnet_provider.c:2644-2702 | For a new component, once port 0 has ended, all rows ever written were read, under the same condition |
| StagedLeaves.LeafReads | providers/betl-dotnet/dotnet_provider.c:1695-1795 | A leaf reads as its column's rows exactly when: byte strings, memory left where nulls record no end does not exceed the start of a later row that is not empty; GUIDs and decimals, only nulls follow a null |
| StagedLeaves.ReadableAnyway | providers/betl-dotnet/dotnet_provider.c:1764-1785 | Whatever memory held, a column reads back exactly when it holds numbers or text or no cell with bytes follows a null |
| StagedLeaves.NullThenGuid | providers/betl-dotnet/dotnet_provider.c:1764-1777 | A GUID behind one null: its bytes are the first sixteen handed out, the reader looks for the second sixteen |
| StagedLeaves.NullThenBytes | providers/betl-dotnet/dotnet_provider.c:1781-1785 | A byte string behind one null reads back exactly if memory held nothing above zero where the null recorded no end |
| StagedLeaves.SmoothOffsets | providers/betl-dotnet/dotnet_provider.c:1781-1785 | The smoothing loop raises each offset to the largest before it |
| StagedLeaves.OverwritingShows | providers/betl-dotnet/dotnet_provider.c:1468-1515 | A slot that still holds an uncommitted cell reads as the cell written over it under an exact condition for each kind of column |
| StagedLeaves.RowAfterTagged | providers/betl-dotnet/dotnet_provider.c:1573-1612 | The cell set in the row after a tagged one reads as set under that condition: null flags and bytes of the reused slot are not taken back |
| StagedLeaves.ErrorBytesAreLost | providers/betl-dotnet/dotnet_provider.c:1532-1558 | No byte of a byte string, GUID or decimal column ever reaches the error output |
| StagedLeaves.ErrorCellsAreMissing | providers/betl-dotnet/dotnet_provider.c:1532-1558 | So its cells that are not null are missing there, or read as empty |
| RoutedRows.CopySlot | providers/betl-dotnet/dotnet_provider.c:1532-1558 | Copied to the error output, a cell of numbers or text stands there as it stood at the main output's next row: null flag, value, bytes and their end |
| RoutedRows.CarriedReads | providers/betl-dotnet/dotnet_provider.c:1695-1795 | Whatever memory held before, a column of numbers or text reads, row by row, as what was written to its cells: null once null, else the last number or all text |
| RoutedRuns.ActsAgree | providers/betl-dotnet/dotnet_provider.c:1468-1615 | Any calls of user code, tags and repeated setters included, leave both stagings as a component of plain row lists: a commit appends the open cells to the main rows, or with its code and column to the error rows |
| RoutedRuns.OnceCommitted | providers/betl-dotnet/dotnet_provider.c:1560-1615 | A row whose cells were set at most once reads in either output exactly as set, unset cells as null |
| RoutedRuns.RunsRouteTheRows | providers/betl-dotnet/dotnet_provider.c:2644-2702 | However both ports are asked and whatever user code does, every batch of either port reads in its columns of numbers and text as the list component's batch; the last two columns of an error batch read the code and the column of each row's tag |
| RoutedRuns.BeginAgrees | providers/betl-dotnet/dotnet_provider.c:2644-2702 | A new component agrees with empty lists |
| StagedColumn.OutCol.Reserve | providers/betl-dotnet/dotnet_provider.c:1421-1454 | Growing the buffers in place keeps what was written, clears new null flags and leaves the rest undefined |
| StagedColumn.OutCol.SetInt | providers/betl-dotnet/dotnet_provider.c:1468-1474 | The in-place setter does to the column's contents what the staging function says |
| StagedColumn.OutCol.SetBytes | providers/betl-dotnet/dotnet_provider.c:1489-1505 | Likewise for text and bytes |
| StagedColumn.OutCol.SetNull | providers/betl-dotnet/dotnet_provider.c:1506-1515 | Likewise for nulls |
| StagedColumn.OutCol.CopyFrom | providers/betl-dotnet/dotnet_provider.c:1532-1558 | Likewise for copying a cell of another column |
| Strings.ReplaceLoop | providers/betl-ssisexpr/ssisexpr_provider.c:2645-2689 | The growing buffer of REPLACE is never overrun and ends up with the result |
| Strings.FindLoop | providers/betl-ssisexpr/ssisexpr_provider.c:2691-2712 | The search loop of FINDSTRING computes the position |
| Strings.OccurrencesAreUnique | providers/betl-ssisexpr/ssisexpr_provider.c:2691-2712 | There is one list of leftmost non-overlapping occurrences |
| Strings.ReplaceFollowsFindString | providers/betl-ssisexpr/ssisexpr_provider.c:2645-2712 | REPLACE substitutes at exactly the positions FINDSTRING reports for 1, 2, ... and nowhere else |
| Strings.ReplaceLength | providers/betl-ssisexpr/ssisexpr_provider.c:2645-2689 | The result is longer by the difference of the two texts for each occurrence |
| Strings.ReplaceBySame | providers/betl-ssisexpr/ssisexpr_provider.c:2645-2689 | REPLACE(s, f, f) = s, the empty f included |
| Strings.SplitLoop | providers/betl-ssisexpr/ssisexpr_provider.c:2721-2754 | The splitting loop finds the wanted token and the token count |
| Strings.TokensPartition | providers/betl-ssisexpr/ssisexpr_provider.c:2721-2754 | No token is empty or holds a delimiter, and together they are the text without its delimiters |
| Strings.TokenEndsAtCount | providers/betl-ssisexpr/ssisexpr_provider.c:2756-2786 | TOKEN is empty exactly past TOKENCOUNT |
| ColumnValues.Evaluate | providers/betl-ssisexpr/ssisexpr_provider.c:3612-3687 | The column exists exactly when every row evaluates to a value its type does not refuse, and then every cell read back holds that row's value |
| ColumnValues.CoercedHolds | providers/betl-ssisexpr/ssisexpr_provider.c:3481-3607 | What a cell of each type holds, told from the value: integers within the type's literal range keep their value, truth is true or not zero, a date in a timestamp column is 86400000000 times its day, text reads back as the number, date, timestamp or time it was, True and False; all else is refused |
| ColumnValues.MidnightSplits | providers/betl-ssisexpr/ssisexpr_provider.c:3576-3587 | A date in a timestamp column splits into that day and no time of day |
| Columns.BuildColumn | providers/betl-ssisexpr/ssisexpr_provider.c:3650-3687 | Likewise for any list of row values |
| Columns.RowReadsBack | providers/betl-ssisexpr/ssisexpr_provider.c:1345-1449 | A row staged and finalized reads back as what it was coerced to |
| Columns.BufferKeeps | providers/betl-ssisexpr/ssisexpr_provider.c:3543-3549 | A value in its type's range survives the buffer that signed and unsigned types of a width share |
| Columns.PackValidity | providers/betl-ssisexpr/ssisexpr_provider.c:1165-1176 | The validity bitmap has a zero exactly at the nulls |
| Columns.PackBools | providers/betl-ssisexpr/ssisexpr_provider.c:1250-1257 | The value bitmap has a one exactly at the trues |
| Columns.LmCol.Store | providers/betl-ssisexpr/ssisexpr_provider.c:3496-3607 | Storing a value stages exactly its coercion, whose cell `ColumnValues.CoercedHolds` describes, or is refused exactly when there is none |
| Columns.LmCol.StoreNull | providers/betl-ssisexpr/ssisexpr_provider.c:3667-3669 | A null marks the row and repeats the text offset |
| Columns.LmCol.Smooth | providers/betl-ssisexpr/ssisexpr_provider.c:1235-1241 | The smoothing pass leaves rising offsets alone |
| Columns.LmCol.Finalize | providers/betl-ssisexpr/ssisexpr_provider.c:1164-1267 | The leaf's nulls, values, bits and offsets are those of the buffers |
| ColumnValues.UnprintableBecomesEmpty | providers/betl-ssisexpr/ssisexpr_provider.c:3588-3606 | A decimal, GUID or byte string in a string column is stored as no characters |

## Left out

- Floating point: `%g`, `strtod`, POWER, ROUND, OLE dates, conversions of decimals to double and the double fallback of decimal comparison are parameters; locale-aware number parsing is not part of this model.
- Casts and most library functions: the evaluator takes them as parameters; only REPLACE, FINDSTRING, TOKEN, TOKENCOUNT, DATEADD and DATEDIFF are modelled, on their own. GETDATE is a constant of the row. The part names that DATEADD and DATEDIFF read (`hour`, `hh` and so on) are a table that would only add an easy member.
- Integer literals outside 64 bits, which no source text produces, are an evaluation error.
- Character classes: those of the C locale; UTF-8 and other locales are not considered.
- Error messages: which error occurred is modelled only in the registry; elsewhere an error is one value.
- Out of memory: only in the registry, where every growth can fail; elsewhere allocation succeeds.
- AsyncRuns.GetNextReturnsExactly: an upstream call that never returns and spurious wakeups without end are not considered.
- The environment switches that turn the queue edge on and set its depth, `get_schema`, and error texts of the queue edge.
- Decimal comparison at scales 38 apart, which goes through floating point. Signed 128-bit overflow, which C leaves undefined, is taken to wrap around.
- DateArith.DateDiffUndoesDateAdd: while the result is representable; outside that range the C code overflows.
- `p_or` down to `p_mul` are one function and one method indexed by level, since their bodies differ only in the operators; the lexer's cursor is the rest of the text.
- ColumnValues.Evaluate: cells are compared while a text column stays below 2^31 bytes, which is what its 32-bit offsets can name; float columns, decimal columns and leaves read at an offset other than zero are not part of this model. Buffers of every integer width are one sequence with the width's wrap-around written out.
- Staging: fixed-width columns of all widths, booleans and floats are one sequence, and their narrowing and bit packing at finalization is not part of this model. Offsets are unbounded, as they are for columns of less than 2^31 bytes.
- PortsTheorems.RunsAreGood: for user code that makes only the calls its wrapper has and commits whole rows.
- StagedLeaves.RunsDeliverTheRows: for runs that tag no row and set each cell at most once per row, and for GUIDs and decimals of sixteen bytes, which their own setters always write and the raw byte setter does not check; `RowAfterTagged` covers the row after a tagged one. Columns of numbers and text need none of this: `RoutedRuns.RunsRouteTheRows` is for any calls.
- LuaScript: a row is one value; the conversion of Lua values to column cells and an `emit` that fails half-way through a row are not part of this model, nor is cancellation between rows.
- JSON key search in configuration text (`json_value_after`).
- UUID and hexadecimal text (`src/runtime/binary_util.c`) and the parameter list (`src/runtime/context.c`): short codecs and a linear lookup that would only add easy members.
- Dynamic loading, the Lua and .NET virtual machines, generated C#, the compile cache, the command line, benchmarks and fuzzers.
