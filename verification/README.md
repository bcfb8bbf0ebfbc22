# A verified model of libical's core

libical reads and writes iCalendar data (RFC 5545). This project models its C core in
Dafny and proves what that core is for: text that is printed comes back when it is parsed,
dates and durations convert both ways, and the structures that the library updates in place
keep their invariants over every run.

Each module follows a part of the C code. Code that works by updating fields, buffers or
loop variables is a class or a method with loops here; it is proved against specification
functions, and the main results are lemmas about those functions.

| file | models |
|---|---|
| `CText.dfy`, `Lists.dfy`, `StringOrder.dfy` | C strings, linked lists as sequences, `strcmp` |
| `LineReader.dfy`, `Unfolding.dfy` | the chunked line reader with its look-ahead, the line generator for strings, and what both make of line breaks |
| `LineFolding.dfy`, `PrintedLines.dfy`, `Utf8.dfy` | the folding of content lines, also on UTF-8 text |
| `ParameterEncoding.dfy` | RFC 6868 encoding of parameter values and the in-place decoder |
| `ContentLine.dfy`, `TokenRoundTrip.dfy`, `EndOfValues.dfy`, `ZoneWorkaround.dfy` | the tokeniser of content lines, the property printer, their round trip, and time zone identifiers with a colon |
| `ComponentKinds.dfy` | the table of component kinds |
| `ParserStack.dfy`, `LineEffects.dfy`, `Gathering.dfy`, `ParserRuns.dfy` | the stack machine of the parser, what each kind of line does, and what holds over whole runs |
| `RoundTrip.dfy`, `Arrangement.dfy` | printing a component tree and parsing it back, end to end |
| `Components.dfy`, `ComponentTrees.dfy`, `CalendarMerge.dfy`, `ErrorProperties.dfy` | component objects: children, iterators, time zone cache, merging, error properties |
| `QsortGen.dfy`, `IcalArray.dfy`, `BufferRing.dfy` | the sort with its explicit stack, the chunked array, the ring of temporary buffers |
| `Caldate.dfy`, `Duration.dfy` | Julian day conversions, durations |

## Main results

- **Round trip of component trees.** For every tree whose kinds and properties can be read
  back, printing it (assembly, folding) and parsing the text (chunked reader, tokeniser,
  stack machine) gives the same tree with the VTIMEZONE children of every component moved
  to the front in reverse order. One round trip changes nothing exactly for a tree that is its
  own mirror image. A second round trip gives the first tree back exactly when its VTIMEZONEs
  came first everywhere, and every run of the parser, on any input, delivers components for
  which that is true.
- **Reader.** For every input the reader returns the lines of a simple specification
  (split, unfold, strip), wherever the 79-octet chunk boundaries fall. Said of the text alone: a
  line break before a blank or tab vanishes with that octet wherever it stands, and one before
  anything else ends a content line.
- **Tokeniser.** Name, parameters and value of a property come back exactly under five
  conditions that can be read off the property; one of them is that the TZID workaround does
  not set in. The only properties not covered have a TZID parameter that ends in a backslash
  and stands before another parameter.
- **Parser runs.** The level and the stack agree after every line, a component is returned
  exactly when an END closes depth one, and finished and open components together hold exactly
  the properties of the lines and the first 101 errors that the lines report. What a line does
  is also stated from its text: BEGIN and END in any case, and which error each malformed line
  leaves. The delivered root holds everything that was finished.
- **Error properties.** Converting the errors of a tree gives, for every text, one more status
  of the code that belongs to the type of each error, and keeps everything else in order.
- **Time zone cache and merge.** As long as the cache holds exactly the VTIMEZONE children,
  lookup finds a zone if and only if there is one. Removing a child and looking up keep it so;
  adding a child, adding a property and removing a property keep it so exactly under conditions
  that can be checked before the call. Merging resolves what either calendar resolved while
  both loops remove from the list they walk.
- **Calendar.** Both day number functions agree with a calendar that counts day by day from
  the start of the Julian period; the exact exceptions are stated.

## Where the code does not do what it seems to promise

- `icalcomponent_kind_is_valid` compares the end of its table too, so the kind "none" passes
  (`KindIsValid`). A component with an unknown name gets that kind, and the parser's fallback
  to an X-LIC-UNKNOWN component with an error is never taken (`KindNamedInTable`,
  `Parser.AddLine`).
- Five kinds of the enumeration have no entry in the table: they are not valid and have no name
  (`KindToString`, `KindRoundTrip`).
- A component name is matched by prefix and every name that starts with an X is an
  X-component, so the private kinds are printed but never read back (`KindRoundTrip`).
- The encoder of RFC 6868 does not escape a caret, so `^n` in a value becomes a line break
  (`CaretExample`, exact condition in `ParameterEncoding.RoundTrip`).
- A TZID that is the last parameter reads on to the last colon of the line. The round trip
  fails if the scan sees a colon in the value that is not its last character, or a colon and a
  semicolon (`WorkaroundExample`, `ColonExamples`, exact condition in `WorkaroundSetsIn`).
- When a TZID is read on, its text is split again from place 6 of the line, whatever the line
  starts with. The identifier is wrong if an earlier parameter has its equals sign behind that
  place, or the property name has one letter (`EarlierExample`, exact condition in `ZoneReadOn`).
- A parameter value that ends in a backslash swallows the separator behind it
  (`BackslashExample`, exact condition in `TokeniseExactly`).
- The error limit of 100 lets 101 errors through (`ErrorLimitExample`), exactly when more than
  100 are reported (`RunConserves`).
- `juldat_int` is one day off in January and February of year 0 (`YearZeroExample`, exact
  conditions in `DateRoundTrip` and `DayNumberRoundTrip`), and the day of the year is off after
  the reform in 1582 and in common centuries (`DayOfYearExamples`, `DayOfYearIsOrdinal`).
- The cache of time zones is filled when a VTIMEZONE is attached and not when its properties
  change. A zone that gets its TZID later is not found (`LateIdentifier`), and one that loses it
  is still found (`LostIdentifier`). The cache goes wrong exactly when the first TZID property
  of an attached VTIMEZONE is added, or removing a property changes its first TZID value
  (`AddProperty`, `RemoveProperty`).
- A child that still has a parent is accepted by another one and stays in the list of the first
  (`TwoParents`, exact condition in `AddComponent`).
- A duration that amounts to 0 modulo 2^32 prints as `PT0S` whatever its fields are
  (`ZeroExamples`), and a field that holds 2^32 - 1 loses its first digit (`LargestExample`);
  `DurationRoundTrip` has the exact condition.
- Input whose last lines end in CR alone is not delivered as it is (`CarriageReturnExample`,
  exact condition in `DeliveredIsInput`). The CRs become LFs, but in a line of more than 78 octets
  every 79th octet is overwritten (`LongLineLosesOctet`, exact condition in `CrDelivered`).

## Model

| member | source | states |
|---|---|---|
| LineReader.Reader.constructor | src/libical/icalparser.c:1352-1364 | a new reader holds nothing and has the whole input before it |
| LineReader.Reader.Generate | src/libical/icalparser.c:1296-1350 | delivers the next chunk of at most 79 octets and leaves the rest of the input; a byte order mark is skipped once |
| LineReader.Reader.GetLine | src/libical/icalparser.c:487-603 | the first call returns an empty line; every later call returns the first logical line of what is pending, built from chunks, and keeps the look-ahead invariant |
| LineReader.EraseLineEnd | src/libical/icalparser.c:586-595 | erases LF or CRLF as the line's specification does |
| LineReader.StripBackwards | src/libical/icalparser.c:597-600 | strips white space from the end but keeps the first octet |
| LineReader.DeliveredIsInput | src/libical/icalparser.c:1318-1345 | the chunks add up to the input if and only if no CR follows the last LF |
| LineReader.CarriageReturnExample | src/libical/icalparser.c:1318-1345 | a text that ends in CR alone is delivered with an LF |
| LineReader.FlattenPhysical | src/libical/icalparser.c:487-603 | the physical lines add up to the text |
| LineReader.JoinIsRawLine | src/libical/icalparser.c:502-584 | unfolding octet by octet is the same as joining whole physical lines |
| LineReader.NextRemaining | src/libical/icalparser.c:487-603 | each call takes exactly the first remaining line, and signals the end exactly when none remains |
| LineReader.ReadLines | src/libical/icalparser.c:655-695 | for every input the calls return an empty line and then the content lines of the delivered text |
| LineReader.ReadTerminatedLines | src/libical/icalparser.c:487-603 | for LF and CRLF input these are the content lines of the input itself |
| Unfolding.UnfoldsAnywhere | src/libical/icalparser.c:502-584 | a CRLF and a blank or tab behind it vanish from any text, wherever they stand, except behind a line feed or at the start: the same lines are returned as without them |
| Unfolding.UnfoldsAfterLf | src/libical/icalparser.c:502-584 | so do an LF alone and a blank or tab, unless a CR stands before or a blank is alone on its line |
| Unfolding.LoneBlankExample | src/libical/icalparser.c:566-584 | behind an empty line, such a blank keeps the LF from vanishing |
| Unfolding.OtherwiseNewLine | src/libical/icalparser.c:566-584 | a line break before any other octet ends a content line |
| Unfolding.AfterEmptyLine | src/libical/icalparser.c:566-584 | an LF alone on its line is a line of its own, whatever comes next |
| Unfolding.LineWithoutPadding | src/libical/icalparser.c:586-600 | text without a line feed is one line, without line end and without the six kinds of white space at its end |
| Unfolding.DeliveredUpToLf | src/libical/icalparser.c:1318-1347 | everything up to the last line feed is delivered as it is |
| Unfolding.CrDelivered | src/libical/icalparser.c:1318-1347 | text without line feeds is delivered with CRs turned into LFs if and only if no line that ends in a CR has more than 78 octets before it |
| Unfolding.LongLineLosesOctet | src/libical/icalparser.c:1333-1345 | in a longer one the 79th octet is overwritten by a line feed |
| Unfolding.MarkSkippedOnce | src/libical/icalparser.c:1303-1312 | a byte order mark at the start is skipped, and nothing else |
| LineFolding.GetNextLineStart | src/libical/icalproperty.c:223-264 | finds the break after the last separator among octets 1 to 73, else a code point boundary, else the limit |
| LineFolding.CutAfterSeparator | src/libical/icalproperty.c:233-242 | a long line ends right after its last separator |
| LineFolding.CutBeforeCharacter | src/libical/icalproperty.c:243-258 | without a separator it ends before the last octet that starts a character |
| LineFolding.CutAnywhere | src/libical/icalproperty.c:260-264 | without either it has 74 octets |
| LineFolding.FoldCuts | src/libical/icalproperty.c:272-317 | a text under 75 octets is left alone; a longer one goes on after CRLF and a blank |
| PrintedLines.PrintedShort | src/libical/icalcomponent.c:247-306 | whatever components hold, the printed text consists of whole lines of at most 75 octets |
| LineFolding.FoldPropertyLine | src/libical/icalproperty.c:272-317 | returns the folded text and leaves the text unchanged although it writes NULs into it |
| LineFolding.FoldLayout | src/libical/icalproperty.c:272-317 | for every text, inner line feeds or not: the pieces add up to it and every physical line of the folded text has at most 75 octets |
| LineFolding.LinesOfFolded | src/libical/icalproperty.c:272-317 | the pieces of one line are folded into exactly these physical lines, whatever follows |
| LineFolding.ContentOfFolded | src/libical/icalproperty.c:272-317 | the reader sees folded pieces as one line, also when the break falls between CR and LF |
| LineFolding.FoldReadBack | src/libical/icalparser.c:502-602 | folding a body and reading it back gives the body without trailing white space, whatever follows |
| LineFolding.FoldAndRead | src/libical/icalproperty.c:272-317 | the folding function and the chunked reader one after the other: every body comes back as one line, without trailing white space and without a byte order mark at its start |
| LineFolding.FallbackUnreachable | src/libical/icalproperty.c:246-263 | on UTF-8 text a boundary is always found, so the last resort is not needed |
| LineFolding.CutBetweenCodePoints | src/libical/icalproperty.c:223-264 | on UTF-8 text every cut is between code points |
| LineFolding.PiecesAreUtf8 | src/libical/icalproperty.c:272-317 | all pieces of UTF-8 text are UTF-8 text |
| ParameterEncoding.AppendEncodedValue | src/libical/icalparameter.c:221-262 | appends the encoded value, quoted if need be |
| ParameterEncoding.BodyIsSafe | src/libical/icalparameter.c:194-262 | an encoded value holds only safe characters: no quotation mark, and unquoted no separator |
| ParameterEncoding.DecodeInPlace | src/libical/icalparser.c:220-253 | the in-place decoder leaves the recursively decoded value, a cleared tail, and nothing else changed |
| ParameterEncoding.RoundTrip | src/libical/icalparser.c:220-253 | decoding the encoding gives the value, with blanks for what cannot be encoded, if and only if no caret starts an escape |
| ParameterEncoding.ValueSurvives | src/libical/icalparameter.c:221-262 | a value comes back unchanged if and only if it is encodable and no caret starts an escape |
| ParameterEncoding.EncodableCodes | src/libical/icalparameter.c:194-219 | the codes of the characters that the encoder can express |
| ParameterEncoding.EncodeOne | src/libical/icalparameter.c:221-262 | the text of a value of one character, for every character |
| ParameterEncoding.CaretExample | src/libical/icalparameter.c:229-257 | a caret followed by n is printed as it is and read as a line break |
| ContentLine.GetNextChar | src/libical/icalparser.c:149-173 | finds the first unescaped occurrence outside quotes, or nothing |
| ContentLine.MakeSegment | src/libical/icalparser.c:176-192 | a copy without trailing white space |
| ContentLine.StripBoth | src/libical/icalparser.c:72-99 | removes white space at both ends |
| ContentLine.FindLastColon | src/libical/icalparser.c:970-981 | finds the last colon outside quotes, or nothing if the scan sees none |
| ContentLine.LastColonIsLast | src/libical/icalparser.c:970-981 | searching again from each colon ends on the last colon that one scan of the whole text sees |
| ContentLine.TakeParam | src/libical/icalparser.c:889-1130 | one round takes one parameter or reports one error, and always advances |
| ContentLine.GetParams | src/libical/icalparser.c:889-1130 | the loop returns the parameters, the text left for the value and the errors of the recursive specification, TZID workaround included |
| ContentLine.AssembleProperty | src/libical/icalproperty.c:401-457 | the buffer is the name, the encoded parameters, the value and CRLF |
| TokenRoundTrip.Separators | src/libical/icalparser.c:194-217 | in printed text the scan sees the separator after each part and none before it |
| TokenRoundTrip.SplitPrinted | src/libical/icalparser.c:255-339 | both routines that split a parameter agree on printed parameters, whatever their length |
| TokenRoundTrip.ParamsOfPrinted | src/libical/icalparser.c:461-485 | printed parameters come back in order, as many as the loop accepts, and the others count as value |
| TokenRoundTrip.TokeniseAny | src/libical/icalparser.c:702-1240 | the tokens of a printed property, for any number of parameters and any value |
| TokenRoundTrip.WorkaroundSetsIn | src/libical/icalparser.c:957-1004 | the TZID workaround reads on if and only if the scan sees a colon in the value and, should that be the last character, also a semicolon |
| TokenRoundTrip.TokeniseReadOn | src/libical/icalparser.c:957-1022 | when the TZID workaround sets in, a different value comes back |
| TokenRoundTrip.TokeniseRoundTrip | src/libical/icalproperty.c:401-457 | with parameter values that end well, the property comes back if and only if it has at most 100 parameters, they survive the encoding, the workaround does not set in and the value is there without blanks at its ends |
| TokenRoundTrip.CleanEndsWell | src/libical/icalparameter.c:221-262 | a value that ends in an encodable character other than a backslash or a blank ends well once it is encoded |
| EndOfValues.BadEnd | src/libical/icalparser.c:149-339 | a parameter whose encoded value ends in a backslash, or in white space without being quoted and short, is not given back, or the loop reads past its end; the second only for a TZID that is the last parameter or ends in a backslash |
| EndOfValues.DecodeMore | src/libical/icalparser.c:220-253 | no value is given back with more text behind its encoding, however carets are mistaken for escapes |
| EndOfValues.TokeniseExactly | src/libical/icalparser.c:461-485 | a property comes back if and only if it has at most 100 parameters, every value survives the encoding and ends well, the TZID workaround does not set in, and the value is there without blanks at its ends |
| EndOfValues.BlanksBeforeEquals | src/libical/icalparser.c:255-339 | blanks before the equals sign stay in the name if name and value fit the stack, and are removed otherwise |
| ZoneWorkaround.SeenIsTaken | src/libical/icalparser.c:461-485 | the loop goes on if and only if the scan still sees a colon |
| ZoneWorkaround.ReadsTo | src/libical/icalparser.c:957-1004 | reading on stops at the first semicolon, or else at the last colon |
| ZoneWorkaround.SplitZone | src/libical/icalparser.c:996-1022 | the second split gives the identifier if and only if TZID's equals sign is the first one behind place 6 |
| ZoneWorkaround.ZoneReadOn | src/libical/icalparser.c:889-1130 | the tokens of a property whose TZID holds a colon, with other parameters before and behind it: all come back if and only if the line up to TZID's equals sign has more than six characters and no equals sign behind the seventh |
| ZoneWorkaround.ZoneFirst | src/libical/icalparser.c:957-1022 | with the TZID in front they come back if and only if the property name has two characters or more |
| ZoneWorkaround.GoogleExample | src/libical/icalparser.c:957-965 | the line for which the workaround was made |
| ZoneWorkaround.EarlierExample | src/libical/icalparser.c:996-1003 | an earlier parameter spoils the identifier |
| EndOfValues.BackslashExample | src/libical/icalparser.c:149-173 | a parameter value that ends in a backslash does not come back |
| TokenRoundTrip.WorkaroundExample | src/libical/icalparser.c:957-1022 | a property whose value does not come back |
| TokenRoundTrip.ColonExamples | src/libical/icalparser.c:957-1004 | a colon inside a value sets the workaround off, one at its end alone does not |
| ComponentKinds.StringToKind | src/libical/icalcomponent.c:1172-1187 | the first entry of the table whose name starts the string |
| ComponentKinds.KindToString | src/libical/icalcomponent.c:1159-1170 | the name of every kind with an entry, and nothing for the others |
| ComponentKinds.KindIsValid | src/libical/icalcomponent.c:1146-1157 | a kind is valid if and only if it stands in the table, whose end counts; five kinds do not |
| ComponentKinds.KindOfName | src/libical/icalcomponent.c:1103-1187 | a name has a kind if and only if the kind's entry starts it, whatever the order of the table, except that a leading X decides first |
| ComponentKinds.NoKindOfName | src/libical/icalcomponent.c:1172-1187 | nothing is found if and only if no entry starts the name |
| ComponentKinds.FoundStarts | src/libical/icalcomponent.c:1172-1187 | what is found stands in the table, and its name starts the string |
| ComponentKinds.KindRoundTrip | src/libical/icalenums.h:31-67 | over the whole enumeration: a kind has a name that is read back as the kind if and only if it is not one of three private kinds, the kind "none", or one of the five without an entry |
| ComponentKinds.ReadByName | src/libical/icalcomponent.c:1103-1144 | the kinds that can be read, by the texts that name them |
| ParserStack.LineIsBlank | src/libical/icalparser.c:627-640 | decides whether a line holds only blanks, tabs and line feeds |
| ParserStack.GetComponentName | src/libical/icalparser.c:388-459 | the name after BEGIN, cut at a comma as the source does |
| ParserStack.KindNamedInTable | src/libical/icalparser.c:763-771 | every component name is given a valid kind, so the fallback for an invalid one is never taken |
| ParserStack.InsertAllIs | src/libical/icalparser.c:605-625 | errors arrive in order until the limit, and each is counted |
| ParserStack.Parser.constructor | src/libical/icalparser.c:101-121 | a new parser is the machine at its start |
| ParserStack.Parser.InsertError | src/libical/icalparser.c:605-625 | adds an error to the innermost component unless there are too many |
| ParserStack.Parser.AddPropertyLine | src/libical/icalparser.c:842-1251 | a property arrives with its value or is removed again and an error takes its place |
| ParserStack.Parser.EndComponentLine | src/libical/icalparser.c:781-830 | END attaches the innermost component to its parent, or returns it, or fails; the cleanup branch is never taken |
| ParserStack.Parser.AddLine | src/libical/icalparser.c:702-1251 | the parser object, with its level and root, does what the plain stack machine does; level and stack agree after every line |
| LineEffects.NameOfLine | src/libical/icalparser.c:194-217 | the name of a line ends at its separator, blanks before that not counted |
| LineEffects.QuoteAtStart | src/libical/icalparser.c:149-173 | a quotation mark at the start of a line hides nothing |
| LineEffects.BeginOpens | src/libical/icalparser.c:755-779 | BEGIN, in any case, pushes exactly one empty component of the kind that the text behind it names |
| LineEffects.EndCloses | src/libical/icalparser.c:781-830 | END, in any case, returns the outermost component or gives the innermost to its parent, a VTIMEZONE in front and others behind; without a component it fails |
| LineEffects.OthersKeep | src/libical/icalparser.c:832-1251 | a line with any other name opens, closes and returns nothing; only properties of the innermost component change |
| LineEffects.BeginNothing | src/libical/icalparser.c:755-779 | nothing behind BEGIN opens a component of no kind |
| LineEffects.NoNameLeft | src/libical/icalparser.c:727-746 | a line without a separator leaves a component error with the line |
| LineEffects.NoNameOutside | src/libical/icalparser.c:727-746 | outside of components such a line only fails |
| LineEffects.BlankName | src/libical/icalparser.c:727-746 | so does a separator with only blanks before it |
| LineEffects.BlankDoesNothing | src/libical/icalparser.c:719-721 | a line of blanks, tabs and line feeds does nothing |
| LineEffects.UnknownName | src/libical/icalparser.c:842-883 | an unknown name leaves a property error with the name |
| LineEffects.NoValue | src/libical/icalparser.c:1132-1251 | a line that ends at its colon leaves a value error and no property |
| LineEffects.BadValueLeft | src/libical/icalparser.c:1132-1251 | a value that cannot be parsed leaves a value error and no property |
| LineEffects.GoodValue | src/libical/icalparser.c:1132-1251 | any other value leaves the property |
| LineEffects.BadParameter | src/libical/icalparser.c:910-925 | a parameter without an equals sign leaves a parameter name error; all text behind it counts as the value |
| LineEffects.BadZone | src/libical/icalparser.c:1072-1084 | when the second split of a TZID fails, a parameter value error is left and the property has no TZID |
| LineEffects.NameWithoutComma | src/libical/icalparser.c:388-459 | behind BEGIN, text without a comma is the name |
| LineEffects.NameEndsAtComma | src/libical/icalparser.c:388-459 | otherwise the name ends at the first comma |
| LineEffects.QuotedName | src/libical/icalparser.c:388-459 | in quotes it does not |
| LineEffects.PassedComma | src/libical/icalparser.c:388-459 | nor when a backslash stands three characters before the comma |
| ParserRuns.RunDepth | src/libical/icalparser.c:755-830 | over any lines the stack is as high as BEGIN and END say, and a component is returned exactly for each END that closes depth one |
| ParserRuns.StepKeeps | src/libical/icalparser.c:702-1251 | a line adds its property, and of the errors it reports as many as there is room for, once, and loses nothing |
| ParserRuns.RunConserves | src/libical/icalparser.c:605-625 | over any run the components hold exactly the properties of the lines and the first 101 errors that the lines report; the limit of 100 is kept if and only if at most 100 are reported |
| ParserRuns.ErrorLimitExample | src/libical/icalparser.c:605-625 | one BEGIN and 101 lines without a name leave 101 errors |
| ParserRuns.StepNoRoots | src/libical/icalparser.c:664-684 | no parsed component has the kind of the container, so the test for it is right |
| ParserRuns.AddRoot | src/libical/icalparser.c:667-684 | one component stands for itself, more are gathered under a container |
| Gathering.RootedWhole | src/libical/icalparser.c:667-684 | one component stands for itself; two or more come under a container without properties, VTIMEZONEs last to first and then the others; no property is lost or doubled |
| ParserRuns.ParseString | src/libical/icalparser.c:1352-1375 | the result holds everything that the machine finishes on the lines of the specification: nothing, the one component, or a container with all of them |
| RoundTrip.PrintProperty | src/libical/icalproperty.c:365-466 | prints the folded line of the property |
| RoundTrip.AsIcalString | src/libical/icalcomponent.c:247-306 | prints BEGIN, the properties, the subcomponents and END, recursively |
| RoundTrip.TextsContent | src/libical/icalcomponent.c:247-306 | the reader returns the unfolded lines of a printed tree, whatever follows |
| RoundTrip.ReadLine | src/libical/icalparser.c:842-1251 | the line of a readable property adds exactly that property |
| RoundTrip.RunNode | src/libical/icalparser.c:755-830 | the lines of a component put it, arranged, where it belongs, whatever is open around it |
| RoundTrip.ParsePrinted | src/libical/icalparser.c:642-700 | parsing printed components gives each of them, arranged, without an error and with nothing left open |
| Gathering.GatherChildren | src/libical/icalcomponent.c:463-479 | children end up with the VTIMEZONEs reversed in front and the others in order |
| Arrangement.ArrangeTwice | src/libical/icalcomponent.c:463-479 | arranging twice changes nothing if and only if VTIMEZONEs came first everywhere |
| Arrangement.ArrangedSettled | src/libical/icalcomponent.c:463-479 | arranged trees have their VTIMEZONEs first everywhere |
| Arrangement.StepSettled | src/libical/icalparser.c:702-1251 | one line, whatever it holds, keeps VTIMEZONEs first in all open and finished components |
| Arrangement.RunSettled | src/libical/icalparser.c:642-700 | so does every run over any lines |
| Arrangement.ArrangeOnce | src/libical/icalcomponent.c:463-479 | with at most one VTIMEZONE per component, arranging changes nothing |
| Arrangement.ArrangeEverything | src/libical/icalcomponent.c:463-479 | arranging keeps every property, once |
| Arrangement.ArrangedAt | src/libical/icalcomponent.c:463-479 | with VTIMEZONEs first, arranging moves each of them to the opposite place among them and leaves the others where they are |
| Arrangement.MirrorIsArranged | src/libical/icalcomponent.c:463-479 | the mirror image of a tree, defined place by place, is what arranging gives if VTIMEZONEs come first everywhere |
| Arrangement.ArrangedIsSame | src/libical/icalcomponent.c:463-479 | arranging changes nothing if and only if the tree is its own mirror image |
| Arrangement.PrintAndParse | src/libical/icalcomponent.c:247-306 | printing and parsing gives the component, arranged; it comes back unchanged if and only if it is its own mirror image |
| Arrangement.PrintAndParseAll | src/libical/icalparser.c:642-700 | two or more components printed one after the other come back under a container, each arranged, and no property is lost |
| Arrangement.PrintAndParseTwice | src/libical/icalparser.c:1352-1375 | two round trips give a component back if and only if VTIMEZONEs came first everywhere |
| Arrangement.ParsedIsStable | src/libical/icalparser.c:1352-1375 | for every input the parser delivers a tree with VTIMEZONEs first everywhere, which comes back from two round trips if it can be read back |
| Components.Component.constructor | src/libical/icalcomponent.c:87-110 | a new component is empty and valid |
| Components.Component.ParentAfter | src/libical/icalcomponent.c:337-381 | when only properties of a child change, the cache of its parent stays right if and only if the child is no VTIMEZONE or keeps its identifier |
| Components.Component.AddProperty | src/libical/icalcomponent.c:337-350 | appends the property; a valid parent stays valid unless, and only unless, this is the first TZID of a VTIMEZONE |
| Components.Component.RemoveProperty | src/libical/icalcomponent.c:352-381 | removes the property, and an iterator that stood on it moves on; a valid parent stays valid if and only if this is no VTIMEZONE or its first TZID value stays the same |
| Components.Component.GetFirstProperty | src/libical/icalcomponent.c:410-425 | the first property of the kind |
| Components.Component.GetNextProperty | src/libical/icalcomponent.c:427-447 | the next property of the kind after the current one |
| Components.FirstPropertyAt | src/libical/icalcomponent.c:410-447 | what the iterator functions find is the first property of the kind |
| Components.FirstComponentAt | src/libical/icalcomponent.c:551-589 | the same for components; nothing is found if there is none of the kind |
| Components.FirstTzidIsFound | src/libical/icaltimezone.c:297-333 | the identifier of a zone is that of the TZID property which the iterator functions find first |
| Components.Component.AddComponent | src/libical/icalcomponent.c:451-480 | VTIMEZONEs go to the front and into the cache, others to the end; the parent stays valid if and only if the child is new to its list and not the parent itself, and any other valid component if and only if the child is not in its list |
| Components.Component.RemoveComponent | src/libical/icalcomponent.c:482-521 | removes the child and its zone, clears its parent, and moves an iterator that stood on it |
| Components.Component.GetFirstComponent | src/libical/icalcomponent.c:551-568 | the first child of the kind |
| Components.Component.GetNextComponent | src/libical/icalcomponent.c:570-589 | the next child of the kind after the current one |
| Components.Component.GetTimezone | src/libical/icalcomponent.c:2150-2187 | a zone with the identifier is found if and only if the cache holds one, and on a valid component if and only if such a child exists; the cache is only rearranged |
| Components.LateIdentifier | src/libical/icalcomponent.c:337-350 | a VTIMEZONE that gets its TZID after it was attached is not found |
| Components.LostIdentifier | src/libical/icalcomponent.c:352-381 | a VTIMEZONE whose TZID was removed after it was attached is still found |
| Components.TwoParents | src/libical/icalcomponent.c:451-480 | a child added to two parents is in both lists, and the first parent is no longer valid |
| Components.Bisect | src/libical/icalcomponent.c:2166-2184 | the bisection finds an identifier in a sorted array if it is there |
| Components.SortByTzid | src/libical/icalcomponent.c:2192-2205 | sorts the zones by identifier and keeps them all |
| CalendarMerge.CompareVtimezones | src/libical/icalcomponent.c:2210-2236 | without a TZID property in either component the comparison returns -1 |
| CalendarMerge.MergeVtimezone | src/libical/icalcomponent.c:1921-1972 | a zone moves if and only if it has an identifier that the calendar cannot resolve; renaming is never reached |
| CalendarMerge.MergeZones | src/libical/icalcomponent.c:1879-1894 | the zones that move are the first of each unknown identifier, although the loop removes from the list it walks |
| CalendarMerge.MovedExactly | src/libical/icalcomponent.c:1879-1972 | a zone moves if and only if its identifier is unknown to the calendar and no zone before it has the same |
| CalendarMerge.MovedFacts | src/libical/icalcomponent.c:1921-1972 | the moved zones have distinct identifiers, all new, and cover every identifier of the source |
| CalendarMerge.MergedZones | src/libical/icalcomponent.c:1868-1919 | the merged calendar resolves exactly what either did, and unique identifiers stay unique |
| CalendarMerge.MergeComponent | src/libical/icalcomponent.c:1868-1919 | the children after a merge, in order; every identifier of either calendar resolves; only VTIMEZONEs stay behind |
| ErrorProperties.StripOwn | src/libical/icalcomponent.c:1004-1013 | leaves exactly the properties that are not errors, in order |
| ErrorProperties.ConvertOwn | src/libical/icalcomponent.c:1027-1076 | for every text and each of the five types of error: as many more of the status that belongs to the type as there were errors; no such error remains, everything else stays in order, and the statuses come behind it in the order of the errors, although the loop appends to the list it walks |
| ErrorProperties.ConversionTurns | src/libical/icalcomponent.c:1032-1074 | the same of the lists of contents |
| ErrorProperties.CountErrors | src/libical/icalcomponent.c:970-994 | the number of errors in the component and everything below it |
| ErrorProperties.CountedOnce | src/libical/icalcomponent.c:970-994 | each is counted once: without the errors the tree has so many properties fewer |
| ErrorProperties.StripErrors | src/libical/icalcomponent.c:996-1019 | strips the component and everything below it, and nothing else |
| ErrorProperties.StripAll | src/libical/icalcomponent.c:996-1019 | the count of errors is 0 afterwards, nothing else goes, and time zone identifiers stay |
| ErrorProperties.ConversionFacts | src/libical/icalcomponent.c:1032-1074 | one status for each convertible error, the number of properties stays, nothing is left to convert |
| ErrorProperties.ConversionKeeps | src/libical/icalcomponent.c:1022-1083 | over the tree every component keeps its number of properties and its time zone identifier |
| ErrorProperties.TzidOfContents | src/libical/icaltimezone.c:297-333 | the time zone identifier of a component is that of its first TZID property |
| ComponentTrees.LeafIsTree | src/libical/icalcomponent.c:87-110 | a new component is a tree by itself |
| ComponentTrees.BelowInTree | src/libical/icalcomponent.c:970-994 | everything below a component belongs to the tree |
| ComponentTrees.AddToTree | src/libical/icalcomponent.c:451-480 | adding a component to one that is not below it keeps a tree |
| ComponentTrees.RemoveFromTree | src/libical/icalcomponent.c:482-521 | removing a component keeps a tree |
| ErrorProperties.ConvertErrors | src/libical/icalcomponent.c:1022-1083 | the same as `ConvertOwn` for the component and everything below it, and nothing for any other, walking with the components' own iterators |
| QsortGen.MedianToFront | src/libical/qsort_gen.c:78-94 | the pivot lands at the front with a smaller and a greater element as sentinels |
| QsortGen.Partition | src/libical/qsort_gen.c:78-114 | splits the part around the pivot and only rearranges it |
| QsortGen.InsertionSort | src/libical/qsort_gen.c:126-134 | sorts a short part and only rearranges it |
| QsortGen.DepthBound | src/libical/qsort_gen.c:113-124 | pushing the larger part keeps the explicit stack within 64 words |
| QsortGen.Sort | src/libical/qsort_gen.c:65-144 | the result is sorted and a permutation, and the stack never overflows |
| StringOrder.Antisymmetric | src/libical/icalcomponent.c:2192-2205 | the comparison is antisymmetric, and 0 only for equal strings |
| StringOrder.FirstDifference | src/libical/icalcomponent.c:2192-2205 | the first octets that differ decide |
| StringOrder.ShorterFirst | src/libical/icalcomponent.c:2192-2205 | without a difference the shorter string comes first |
| StringOrder.Transitive | src/libical/icalcomponent.c:2192-2205 | the comparison is transitive |
| IcalArray.Array.constructor | src/libical/icalarray.c:32-49 | a new array is empty |
| IcalArray.Array.ElementAt | src/libical/icalarray.c:118-124 | reads the element of the sequence at the position |
| IcalArray.Array.Expand | src/libical/icalarray.c:171-200 | adds enough chunks, keeps the elements; the space stays chunks times increment |
| IcalArray.Array.Append | src/libical/icalarray.c:106-116 | appends to the sequence |
| IcalArray.Array.RemoveElementAt | src/libical/icalarray.c:126-135 | removes one element and closes the gap; a position past the end removes the last |
| IcalArray.Array.Copy | src/libical/icalarray.c:61-89 | a copy with the same elements in chunks of its own |
| BufferRing.Ring.constructor | src/libical/icalmemory.c:120-132 | an empty ring |
| BufferRing.Ring.AddTmpBuffer | src/libical/icalmemory.c:182-198 | over any adds a buffer is freed when the 2500th buffer after it arrives, and not before |
| BufferRing.Ring.FreeRing | src/libical/icalmemory.c:71-81 | in all, every buffer that was ever added is freed as often as it was added |
| BufferRing.FreedOnce | src/libical/icalmemory.c:182-198 | distinct buffers are freed once each |
| Caldate.Instant.CalDatInt | src/libical/caldate.c:225-271 | sets date, weekday and day of the year from the day number |
| Caldate.Instant.JulDatInt | src/libical/caldate.c:289-327 | sets day number and weekday from the date |
| Caldate.JulDatIsDayNumber | src/libical/caldate.c:289-327 | the day number of every date, one too many in January and February of year 0 |
| Caldate.NextDayCountsOne | src/libical/caldate.c:297-325 | the closed form of the day number goes up by one from each day to the next, leap years and the reform included |
| Caldate.CalDatOfDayNumber | src/libical/caldate.c:225-259 | the date of the day number of a date is that date, and the repair branches for February never change it |
| Caldate.CalDatIsCalendar | src/libical/caldate.c:225-259 | the date of every day number is the one that counting day by day reaches |
| Caldate.JulDatIsCalendar | src/libical/caldate.c:289-327 | the day number of every date is how many days are counted to it, except in January and February of year 0 |
| Caldate.DateIsReached | src/libical/caldate.c:289-327 | counting day by day reaches every date of the calendar |
| Caldate.DateRoundTrip | src/libical/caldate.c:225-327 | date to number to date is the identity if and only if the date is not in January or February of year 0 |
| Caldate.YearZeroNumbers | src/libical/caldate.c:289-327 | the dates of January and February of year 0 are those with day numbers 1721057 to 1721116 |
| Caldate.DayNumberRoundTrip | src/libical/caldate.c:225-327 | number to date to number is the identity if and only if the number is not one of 1721057 to 1721116 |
| Caldate.NextDayNumber | src/libical/caldate.c:297-326 | number and weekday advance by one with each day, with the two exceptions stated |
| Caldate.DayOfYearIsOrdinal | src/libical/caldate.c:261-270 | the day of the year is the ordinal, ten more after the reform in 1582, one more after February in common centuries |
| Caldate.WeekdayExamples | src/libical/caldate.c:289-327 | 15 October 1582 is a Friday and 1 January 2000 a Saturday |
| Caldate.YearZeroExample | src/libical/caldate.c:289-327 | 1 January of year 0 comes back as 2 January |
| Caldate.DayOfYearExamples | src/libical/caldate.c:261-270 | 1 March 1900 and 31 December 1582 get the wrong day of the year |
| Duration.FromInt | src/libical/icalduration.c:32-60 | the duration amounts to the given time, in whole weeks or in mixed units below their bounds |
| Duration.AsIcalString | src/libical/icalduration.c:220-267 | prints the sign, the units that are not 0 and the T before the time |
| Duration.FromString | src/libical/icalduration.c:62-198 | the parsing loop computes what the step function says, for every string |
| Duration.ParsePrinted | src/libical/icalduration.c:62-267 | a duration that does not amount to 0 is parsed back from its printed form, field by field, for all unsigned fields; only 2^32 - 1 is misread, and a sign flag other than 1 comes back as 0 |
| Duration.DurationRoundTrip | src/libical/icalduration.c:62-277 | for all unsigned fields and sign flags: printing and parsing is the identity if and only if the total is not 0 modulo 2^32, no field holds 2^32 - 1 and the sign flag is 0 or 1, or all are 0 |
| Duration.Signs | src/libical/icalduration.c:79-101 | for every text: a plus sign changes nothing, and a minus sign sets the flag of what is accepted |
| Duration.MisplacedIsBad | src/libical/icalduration.c:76-192 | text is refused if a sign or a P stands too late, a number comes before the P, a unit has no number, a unit of time comes before the T or one of date behind it, weeks come after days, or any other character occurs |
| Duration.TenDigitsCount | src/libical/icalduration.c:121-138 | of a longer number only the first ten digits count |
| Duration.TwiceIsBad | src/libical/icalduration.c:140-186 | a unit that already has a number is refused |
| Duration.PrintExamples | src/libical/icalduration.c:220-267 | units from the largest to the smallest, with the T before those of time |
| Duration.ZeroExamples | src/libical/icalduration.c:220-277 | a negative duration of nothing and one of 2^32 seconds do not come back |
| Duration.LargestExample | src/libical/icalduration.c:121-135 | 4294967295 seconds come back as 294967295 |

## Left out

- TokenRoundTrip.TokeniseRoundTrip: every parameter value ends well; `EndOfValues.TokeniseExactly` shows that this is needed.
- EndOfValues.TokeniseExactly: no TZID parameter before another parameter ends in a backslash, because there the workaround can go on with parameters from inside a quoted value.
- Unfolding.UnfoldsAfterLf: asks for text in which no blank alone on its line comes before the LF; `LoneBlankExample` shows that this can matter, but not every such blank does.
- ZoneWorkaround.ZoneReadOn: the identifier and the text before it hold no quotes, backslashes, carets or, in the identifier, white space.
- ContentLine.TakeParam: every parameter is of a known kind with an acceptable value; unknown names and VALUE parameters are not distinguished.
- ContentLine.GetParams: the same.
- ContentLine.AssembleProperty: no VALUE parameter is added, and a property has a value.
- ParserStack.Parser.AddLine: components on the stack are values, not objects, so aliasing between the parser and a caller that keeps a component is not captured.
- ParserStack.Parser.AddPropertyLine: every property has one value and every parameter is accepted; the generated tables of kinds are a parameter of the model, and splitting at commas, VALUE parameters and unknown parameter names are not modelled.
- ParserStack.GetComponentName: the two characters before the value, which the source may read, are never backslashes after BEGIN and are not looked at.
- RoundTrip.PrintProperty: the value of a property is its text as printed, without a VALUE parameter.
- RoundTrip.AsIcalString: the value of a property is its text as printed; escaping of text values and the printing of a VALUE parameter are not modelled, and X-components, which print a name of their own, are left out.
- Components.Component.GetTimezone: asks for fewer than 2^35 zones, which is what the 64 words of the sort's stack are enough for.
- CalendarMerge.MergeVtimezone: the calendar has no TZID property of its own, so zones with a known identifier stay behind and renaming of conflicting zones is not reached.
- CalendarMerge.CompareVtimezones: with identifiers on both sides the result is left open, because the printed zones are not compared.
- CalendarMerge.MergeZones: the same domain.
- CalendarMerge.MergeComponent: the same domain, and together fewer than 2^35 children.
- QsortGen.Sort: works on a sequence with swaps, not in place, and its comparison is given by a rank.
- IcalArray.Array.RemoveElementAt: an empty array is outside its domain, because the source would wrap around below 0.
- Duration.FromString: a number of ten digits that does not fit an int is reduced modulo 2^32, which is one choice for what C leaves open; what is said of fields above 2^31 - 1 depends on it.
- Reading a TZID moves the property iterator of a VTIMEZONE; that side effect is not modelled.
- `icalparser_clean` called by a user, freeing of memory, allocation failure, thread-local rings, error states and warnings.
- The growing buffer of `icalmemory.c`: printing appends to strings instead.
- Recurrence rules, times and time zone transitions, values, MIME, restrictions, and the language bindings.
