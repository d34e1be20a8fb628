# Verified model of the capture system

This project models, in Dafny, the parts of the packet-capture service in which a mistake is hard to see by
reading one function, and proves what they promise:

* **The PDEF filter language.** Source text is lexed and parsed, nested structs are flattened to absolute
  offsets, filter rules are compiled to jump code in two byte orders, and an accumulator machine runs the code
  on a packet, possibly at a sliding offset, possibly learning the byte order on the way.
* **Writing a byte order back.** The text of a definition is rewritten with the detected order, when no capture
  uses the definition any more, and is read again by later captures.
* **The capture manager.** A table of task objects with three indexes and status counters, deferred deletion,
  and the admission check that sits on top, inside a system of clients, manager, workers and filter threads.
* **The packet ring.** One producer and one consumer, whose loads, copies and publications interleave.
* **Timers and the inter-thread channel.** Two-buffer structures that are switched while handlers add to them.

Code that works by changing things step by step is written as methods and classes here as well. Each such
method is tied to a function of its inputs or of the old state, and the properties are proved of that function.
Values are unbounded except where the width matters: bytes and 64-bit operands are subset types, and 32-bit
truncation is written out in the parser and in the rounding to a power of two.

## How the files fit together

| files | source | content |
|---|---|---|
| `Pdef`, `ByteOrder`, `Sets` | `src/pdef/pdef_types.h`, `src/utils/endian.h` | the data of a compiled definition; numbers as bytes; a fact about sets |
| `Tokens`, `Lexers`, `Spelling` | `src/pdef/lexer.c` | cutting text into tokens; the lexer object; writing tokens and reading them back |
| `Grammar`, `Parsers`, `Syntax`, `RoundTrip`, `Source`, `PdefString` | `src/pdef/parser.c` | what parsing computes; the parser object; written definitions; the round trip; text to compiled rules |
| `Leniency`, `Rejections` | `src/pdef/lexer.c`, `src/pdef/parser.c` | what is accepted beyond the plain way of writing, and what is reported as an error |
| `Flatten`, `Layout`, `Arrays`, `Overlap` | `src/pdef/parser.c` | flattening structs; the recursive reference layout it agrees with; the elements of arrays; when fields overlap |
| `Compiler`, `Emitter`, `Meaning`, `CompilerCorrect` | `src/pdef/parser.c` | the code of a rule; the loops that emit it; what conditions mean; correctness |
| `Executor` | `src/runtime/executor.c` | the machine |
| `Mirror`, `Definition`, `Protocol` | `src/pdef/parser.c`, `src/runtime/protocol.c` | the two byte orders; whole definitions; end-to-end meaning |
| `Matcher`, `Stream`, `Detection` | `src/runtime/protocol.c`, `src/rxfilterthread.cpp` | matching one packet, a file of packets, and concurrent detection |
| `TextSearch`, `Writeback`, `PdefUsage` | `src/rxcapturemanagerthread.cpp` | rewriting a definition's text, and when it happens |
| `Splice`, `Places`, `Reload`, `OrderBlind`, `WritebackEffects` | `src/rxcapturemanagerthread.cpp`, `src/pdef/parser.c` | taking texts apart and together again, and what rewriting does to the definition that is read |
| `Elsewhere`, `Insertion`, `Damage` | `src/rxcapturemanagerthread.cpp`, `src/pdef/parser.c` | exactly when an inserted setting takes effect, and what a replacement can take away |
| `TaskTable`, `TaskIndex`, `TaskMgr` | `src/rxsafetaskmgr.h` | the task manager on values, its indexes, and as objects |
| `Admission`, `CaptureManager`, `Lifecycle` | `src/rxcapturemanagerthread.cpp`, `src/rxcapturethread.cpp` | admission, the handlers, and runs of the whole system |
| `PowerOfTwo`, `Ring`, `PacketQueue`, `Wraparound` | `src/rxlockfreequeue.c` | capacity and masking, the interleaved protocol, the queue object, and positions that wrap |
| `Timers`, `TimerRuns`, `BaseTimer`, `Channel` | `core/legacy_core_net.cpp` | timers on values, in runs by their requests, and as an object; the channel |

## What the proofs found

These are statements about the code as it is; each is a lemma.

* A definition that sets `endian = little` before its structs is matched in big-endian order: the setting takes
  effect once when the loads are chosen and again when the program is chosen
  (`Definition.ProgramsReadOrders`, `PdefString.LittleReadsOther`). `docs/endian-auto-detection-design.md`
  intends the label and the loads to agree.
* As a consequence, whichever order is detected and written back before the structs, what is loaded from the new
  text reads packets in big-endian order, while what detected the order read them in that order
  (`WritebackEffects.WrittenBackReadsBig`). Written behind all structs, the order is read as detected
  (`WritebackEffects.WrittenBehindReadsRight`).
* An inserted setting takes effect if and only if the place of insertion is in a gap between two entries of a
  `@protocol` block, before the first or behind the last (`Insertion.InsertionExactly`). The search for the place
  does not see to that: on one line with the start of a struct the setting goes into the struct
  (`WritebackEffects.WritebackCanBreak`), and it can go into a string literal that has a line end. Everywhere else the
  new text cannot be parsed or is still in mode auto, and success is reported.
* Replacing does what it should when the `=` and the `;` that are found are those of an `endian` entry
  (`Reload.ReplacedIsRead`, `WritebackEffects.EntryIsFound`). When both are in one gap, only comments change
  and success is reported (`WritebackEffects.CommentIsRewritten`). A comment that says "endian" can also reach what
  comes after it, and rewriting reports success all the same: a constant gets a word for its value and the text
  cannot be parsed any more (`WritebackEffects.CommentReachesConstant`); a definition is given another name
  (`Damage.NameIsReplaced`); or a field is removed, and every later one moves, while the mode stays what it was
  (`Damage.FieldIsLost`; `Damage.ExampleLost` is the text `S{`, `//endian=`, `uint8 a;`, `uint8 b;}` on four lines,
  which becomes `S{`, `//endian= big;`, `uint8 b;}`).
* The flattened fields of all structs tile their space if and only if no struct that takes space is used in itself
  or before its definition (`Overlap.TilesExactly`, `PdefString.LoadedTiles`); a struct used too early takes no
  space, so the following fields are laid over it (`Layout.ForwardReferenceOverlaps`).
* The numbered name of an array element can be too long where the field's name is not, and then the definition is
  rejected (`Layout.LongElementRejected`); with the longest type name the number is cut off instead
  (`Layout.LongestNamesLoseIndex`).
* In a struct whose fields tile their space, the byte-order mirror holds for everything that can be asked of a
  field, the first of its name, if and only if the field is not one that takes no space (such as `bytes[0]`) at the
  offset of a multi-byte integer (`Definition.MirrorsExactly`). `PdefString.LoadedTiles` says when fields tile.
* A string literal is read back if and only if it does not end in a backslash (`Spelling.LiteralReadBack`).
* `add_task` keeps the indexes in agreement if and only if the id is new or the new contents fit the old entries
  (`TaskIndex.AddTaskIndexed`); an update does if and only if it does not revive a task whose signature was taken
  (`TaskIndex.UpdateIndexed`). Both conditions hold in every run of the system (`Lifecycle.AdmissionSafe`).
* A handler that throws ends its batch: exactly the messages behind the one it was given are lost, and the channel
  with them (`Channel.ThrowLosesRest`, `Channel.NothingAfterDestroy`); until then nothing is (`Channel.FirstInFirstOut`).
* A pop takes a filled ring for empty exactly while the 64-bit write position has wrapped and the read position has
  not (`Wraparound.EmptyTestExactly`); masking and the test for a full ring survive the wrap.
* Several error branches of flattening and compiling cannot be reached from text that parses
  (`PdefString.RemainingErrors`).
* A requested queue size above 2^31 wraps to zero (`PowerOfTwo.NextPowerOf2`).

## Model

| member | source | states |
|---|---|---|
| `Tokens.Span` | src/pdef/lexer.c:76-82 | the longest run of characters of a class that fits the token buffer: all in the class, and a following character that is not, unless the buffer is full |
| `Tokens.ScanAdvances` | src/pdef/lexer.c:193-379 | every token takes at least one character, except the end of file and an unknown character, where the position may stay |
| `Lexers.Lexer.PeekChar` | src/pdef/lexer.c:36-38 | looking one character ahead is only done before the terminator, and sees at most the terminator |
| `Lexers.Lexer.Advance` | src/pdef/lexer.c:40-48 | moves one character on, never past the terminator, and keeps line and column those of the new position |
| `Lexers.Lexer.SkipWhitespaceAndComments` | src/pdef/lexer.c:65-74 | the loop leaves the text without its leading blanks and comments, in bounds and in finitely many steps |
| `Lexers.Lexer.ReadIdentifier` | src/pdef/lexer.c:76-121 | the loop over the text buffer reads the longest word that fits, with the keyword's kind |
| `Lexers.Lexer.ReadNumber` | src/pdef/lexer.c:123-159 | reads decimal and hexadecimal numbers, saturated to 64 bits; a bare "0x" is an error that still yields a number token |
| `Lexers.Lexer.ReadString` | src/pdef/lexer.c:161-191 | reads a literal with its escaped quotes; without a closing quote it is an error |
| `Lexers.Lexer.NextToken` | src/pdef/lexer.c:193-379 | the token, the rest of the text and the error of the scanner specification, and the line and column at which the token starts |
| `Lexers.Lexer.PeekToken` | src/pdef/lexer.c:381-392 | reports the next token and leaves position, line, column and error as they were |
| `Lexers.LineExactly` | src/pdef/lexer.c:40-48 | the line is one more than the number of line ends before the position |
| `Lexers.ColumnExactly` | src/pdef/lexer.c:40-48 | the column is one more than the number of characters since the last line end |
| `Spelling.SkipGap` | src/pdef/lexer.c:50-74 | any sequence of spaces and comments before a token is skipped |
| `Spelling.ScanSpelled` | src/pdef/lexer.c:193-379 | every token that is written and not run into by the next character is read back exactly, with nothing else consumed |
| `Spelling.LexText` | src/pdef/lexer.c:193-379 | lexing undoes writing: any tokens with any gaps between them are read back in order, without an error |
| `Spelling.OneSpaceSuffices` | src/pdef/lexer.c:50-54 | a single space between tokens is always enough |
| `Spelling.LiteralReadBack` | src/pdef/lexer.c:161-191 | a literal that fits the buffer is read back if and only if it does not end in a backslash |
| `Source.NumbersReadBack` | src/pdef/lexer.c:123-159 | numbers written in decimal or hexadecimal are read as themselves, or as the largest 64-bit number when they do not fit |
| `Source.HexDigitsExactly` | src/pdef/lexer.c:123-146 | the hexadecimal digits are those of the lower-case and the upper-case alphabet, each with its place as its value |
| `Source.HexReadBack` | src/pdef/lexer.c:123-146 | a number after "0x" or "0X", of any digits in lower, upper or mixed case, is read as the number the digits denote, or as the largest 64-bit number |
| `Leniency.NamesExactly` | src/pdef/lexer.c:76-121 | the names that can be given, by their characters, their length and the twelve reserved words |
| `Leniency.SpacesExactly` | src/pdef/lexer.c:50-54 | the six characters that count as spaces |
| `Leniency.LookupExactly` | src/pdef/parser.c:250-271 | a name means the constant defined last under it, and nothing if there is none |
| `Leniency.UndefinedRejected` | src/pdef/parser.c:520-655 | a condition whose value names no constant is an error, wherever it is in a filter |
| `Leniency.SlidingNumber` | src/pdef/parser.c:440-478 | a sliding setting written as a number is false for zero and true for every other number |
| `Leniency.BareConstant` | src/pdef/parser.c:373-408 | the semicolon after a constant may be left out |
| `Leniency.BareOrder` | src/pdef/parser.c:302-323 | so may that after a byte order |
| `Leniency.BareName` | src/pdef/parser.c:289-301 | so may that after a name, which is cut to 63 characters |
| `Leniency.BareField` | src/pdef/parser.c:710-820 | so may that after a field |
| `Rejections.UnclosedLiteral` | src/pdef/lexer.c:161-191 | a literal without a closing quote is an error |
| `Rejections.LongLiteral` | src/pdef/lexer.c:161-191 | so is one of more than 255 characters |
| `Rejections.UnknownKeyword` | src/pdef/lexer.c:193-379 | after '@' exactly three words are known |
| `Rejections.LoneAt` | src/pdef/lexer.c:193-379 | an '@' without a word is a token of its own, without an error |
| `Rejections.StrayCharacter` | src/pdef/lexer.c:193-379 | a character that starts no token is an error and is not passed |
| `Rejections.BareHex` | src/pdef/lexer.c:123-146 | "0x" without a digit is an error that still gives the number zero |
| `Rejections.UnknownKeyRejected` | src/pdef/parser.c:279-357 | an entry with another key than the three is an error that names the key |
| `Rejections.UnknownOrderRejected` | src/pdef/parser.c:302-323 | a byte order that is none of the three words is an error |
| `Rejections.NoTruthValueRejected` | src/pdef/parser.c:440-478 | a sliding setting that is neither a number nor "true" nor "false" is an error |
| `Rejections.MissingLengthRejected` | src/pdef/parser.c:710-820 | a bytes or string field without a length is an error |
| `Rejections.SeventeenthFilterRejected` | src/pdef/parser.c:410-430 | sixteen filters are taken and the next one is an error |
| `Rejections.TopLevelRejected` | src/pdef/parser.c:846-869 | anything but a block or a struct at the top level is an error |
| `Grammar.NextShrinks` | src/pdef/parser.c:77-90 | advancing never increases what is left to parse and, past a real token, decreases it: the measure by which parsing of every text ends |
| `Parsers.Parser.constructor` | src/pdef/parser.c:187-223 | starts with an empty definition, mode auto, default big, and the first two tokens of the text |
| `Parsers.Parser.ExpectToken` | src/pdef/parser.c:82-88 | accepts exactly the wanted token, and fails as well when the token after the next cannot be read |
| `Parsers.Parser.ParseFieldPath` | src/pdef/parser.c:131-185 | reads a path with indexes and dots into one name of at most 127 characters, as the grammar says, with every error case |
| `Parsers.Parser.ParseProtocol` | src/pdef/parser.c:273-371 | the block loop updates the definition as the grammar says: name, byte order, ignored ports, unknown keys rejected |
| `Parsers.Parser.ParseConst` | src/pdef/parser.c:373-408 | constants are added in front, so that a later definition of a name is found first |
| `Parsers.Parser.Lookup` | src/pdef/parser.c:269-271 | the search loop finds the value that the grammar's lookup does |
| `Parsers.Parser.ParseConditionTest` | src/pdef/parser.c:520-655 | the operator and operands of a condition, with its mask and list forms and every error case |
| `Parsers.Parser.ParseValueList` | src/pdef/parser.c:559-613 | the loop collects one or more values, resolving constants |
| `Parsers.Parser.ParseFilter` | src/pdef/parser.c:410-668 | the loop over settings and conditions adds exactly one rule, the last setting winning, at most sixteen rules in all |
| `Parsers.Parser.ParseStructField` | src/pdef/parser.c:710-820 | one field with its truncated names and sizes, the default byte order of that moment, and every error case |
| `Parsers.Parser.ParseStructDef` | src/pdef/parser.c:688-824 | the field loop adds exactly one struct, in which nothing follows a field of variable length |
| `Parsers.Parser.ParseAll` | src/pdef/parser.c:846-869 | for every text the loop ends, with the definition or the error of the grammar |
| `Parsers.ParseString` | src/pdef/parser.c:830-869 | parsing from text to the definition, for every text |
| `RoundTrip.ValuesRead` | src/pdef/parser.c:559-613 | a written list of values, of any length, is read as the values it denotes |
| `RoundTrip.PathFromRead` | src/pdef/parser.c:131-185 | a written path of any depth, with any indexes, is read as the name of the flattened field |
| `RoundTrip.TestRead` | src/pdef/parser.c:520-655 | tests with all nine operators, equality in both spellings, are read as the condition they denote |
| `RoundTrip.FilterRead` | src/pdef/parser.c:410-668 | a written filter block adds the rule it denotes and leaves the parser behind it |
| `RoundTrip.FieldRead` | src/pdef/parser.c:710-820 | a written field of every kind adds the field it denotes |
| `RoundTrip.StructRead` | src/pdef/parser.c:688-824 | a written struct adds the struct it denotes |
| `RoundTrip.MetadataRead` | src/pdef/parser.c:279-357 | each entry of the @protocol block has its effect and no other |
| `RoundTrip.ConstantsRead` | src/pdef/parser.c:373-408 | written constants become visible in lookup order |
| `RoundTrip.ItemsRead` | src/pdef/parser.c:846-869 | a written definition of any length is read to its end as what it denotes |
| `Source.ParseWritten` | src/pdef/parser.c:830-869 | the round trip: lexing and parsing any well-formed written definition, with any spaces and comments, gives exactly what it defines |
| `Source.WrittenPlainly` | src/pdef/parser.c:830-869 | every well-formed definition has a text that is parsed to it |
| `Source.SpacingDoesNotMatter` | src/pdef/lexer.c:65-74 | two spacings of one definition are parsed alike |
| `PdefString.ParsedWellFormed` | src/pdef/parser.c:688-824 | whatever the text, parsed fields have the size of their type and one byte order per struct, only a last field varies, lists are not empty, paths fit |
| `PdefString.RemainingErrors` | src/pdef/parser.c:909-1083 | a text that parses can fail to build only by a missing or misplaced nested struct, by a numbered element name that does not fit, or by a rule without struct or field |
| `PdefString.PdefParseString` | src/pdef/parser.c:830-896 | the whole loading of a definition: its parse error, its build error, or its compiled rules |
| `PdefString.LoadedMeaning` | src/pdef/parser.c:830-896 | end to end, for every text that loads: the matcher accepts exactly the packets the parsed definition describes, each struct read in the order it was parsed with or, by the programs for little, in the other |
| `PdefString.LoadedUnknown` | src/runtime/protocol.c:31-82 | end to end in mode auto, for every text that loads: while the order is unknown the matcher accepts exactly the packets the parsed definition describes in one of the orders, and learns an order in which it describes the packet |
| `PdefString.LoadedUniformly` | src/pdef/parser.c:1357-1369 | when all structs were parsed under one default, everything is read in the known order, or in the other one if the default was little |
| `PdefString.LoadedTiles` | src/pdef/parser.c:961-1083 | for every text that loads: the structs tile their space if and only if none that takes space is used in itself or before its definition |
| `PdefString.LittleReadsOther` | src/pdef/parser.c:1357-1369 | in mode little the packets are read in big-endian order exactly when the structs were parsed after the setting |
| `ByteOrder.BitAndIsBitwise` | src/runtime/executor.c:169-172 | the masking operation is the bitwise and |
| `ByteOrder.Reads16` | src/utils/endian.h:17-26 | the two-byte readers give the positional value of the bytes in either order |
| `ByteOrder.Reads32` | src/utils/endian.h:29-42 | the same for four bytes |
| `ByteOrder.Reads64` | src/utils/endian.h:45-66 | the same for eight bytes |
| `Flatten.SplitJoined` | src/pdef/parser.c:92-116 | splitting "Type.field" at its first dot undoes the joining that the struct parser does, and fails exactly when one of the names does not fit its buffer |
| `Flatten.Flattener.FindStructByName` | src/pdef/parser.c:899-906 | the first struct with the name |
| `Flatten.Flattener.ExpandNestedField` | src/pdef/parser.c:909-959 | appends the renamed and moved fields of the named struct, or reports a bad or too long name or a missing struct |
| `Flatten.Flattener.ExpandElements` | src/pdef/parser.c:1020-1036 | the loop over the elements of a nested field appends the fields of all of them, or reports the first numbered name that is too long |
| `Flatten.Flattener.FlattenStructs` | src/pdef/parser.c:961-1083 | flattening in place, struct by struct: the specification's result or its first error |
| `Layout.FlattenedIsLayout` | src/pdef/parser.c:909-1083 | with structs defined before use, flattening succeeds exactly on acceptable definitions and gives every struct the recursive layout: paths with array indexes, types, offsets, and as many elements as each array says |
| `Arrays.ArrayTakes` | src/pdef/parser.c:984-1043 | an array field stands for its declared number of copies of the inner struct's fields and takes that many times its space |
| `Arrays.SingleTakes` | src/pdef/parser.c:984-1043 | a nested field that is no array stands for one copy |
| `Arrays.ArraySizes` | src/pdef/parser.c:984-1043 | the number of fields and the minimum size of a flattened struct with an array field |
| `Arrays.ArrayElement` | src/pdef/parser.c:1020-1043 | field j of element k of an array in a flattened struct: its path, and its offset k sizes behind where the array starts |
| `Arrays.ElementsExactly` | src/pdef/parser.c:1020-1036 | a flattened array field has paths that start with its name and [k] if and only if k is below its declared number |
| `Layout.ElementNameExactly` | src/pdef/parser.c:1025-1028 | the numbered name of an element is cut to what the type's name leaves of the room |
| `Layout.LongElementRejected` | src/pdef/parser.c:1025-1035 | an array field whose numbered name does not fit makes the definition fail, although its own name fits |
| `Layout.LongestNamesLoseIndex` | src/pdef/parser.c:1025-1028 | with the longest type and field names the elements are accepted under the unnumbered name |
| `Layout.FlattenedTiles` | src/pdef/parser.c:961-1083 | the fields of a flattened struct tile the range from 0 to its minimum size, and only the last may vary |
| `Layout.TilesDisjoint` | src/pdef/parser.c:961-1083 | tiled fields do not overlap and stay inside |
| `Layout.ForwardReferenceTakesNoSpace` | src/pdef/parser.c:909-959 | a field whose struct is not flattened yet adds nothing to the size |
| `Layout.ForwardReferenceOverlaps` | src/pdef/parser.c:909-1043 | a concrete definition with a forward reference is accepted and has two fields on the same bytes |
| `Overlap.AddFieldSpace` | src/pdef/parser.c:979-1074 | a field never counts more space than its leaves take, and counts less when its struct takes space and is used too early |
| `Overlap.TilesExactly` | src/pdef/parser.c:961-1083 | the exact condition: all flattened structs tile their space if and only if no struct that takes space is used in itself or before its definition, and each struct that does so fails to |
| `Compiler.FindFieldByPath` | src/pdef/parser.c:1086-1095 | the search loop finds the first field with the path |
| `Compiler.CondsCodeLength` | src/pdef/parser.c:1188-1261 | the sizes computed beforehand are the lengths of the code that is emitted, so the labels are right |
| `Compiler.EmptyListsReported` | src/pdef/parser.c:1188-1235 | an error is reported exactly when some value list is empty |
| `Emitter.MeasureConditions` | src/pdef/parser.c:1188-1235 | the first pass: the size of every condition and the total, or the first empty list |
| `Emitter.LabelConditions` | src/pdef/parser.c:1246-1261 | the second pass: where each condition's code starts |
| `Emitter.EmitIn` | src/pdef/parser.c:1287-1309 | the chain of tests of a list, written in place from its start label |
| `Emitter.EmitNotIn` | src/pdef/parser.c:1310-1330 | the chain of tests of a negated list |
| `Emitter.EmitConditions` | src/pdef/parser.c:1264-1347 | the third pass fills the buffer with the code of all conditions, or reports the first field that the struct does not have |
| `Emitter.FindTargetStruct` | src/pdef/parser.c:1168-1183 | the first struct with the first condition's field |
| `Emitter.SwappedProgram` | src/pdef/parser.c:1357-1369 | a copy in which every multi-byte load reads the other order and nothing else differs |
| `Emitter.CompileFilterRules` | src/pdef/parser.c:1155-1376 | compiles all rules, or reports the first error |
| `CompilerCorrect.LoadReadsField` | src/pdef/parser.c:1098-1119 | the opcode chosen for a field reads its value, sign-extended if it is signed, first byte if it is no integer, and fails exactly when the packet ends before |
| `CompilerCorrect.InChainRuns` | src/pdef/parser.c:1287-1309 | the code of a list goes on exactly when the value is in the list, for lists of any length |
| `CompilerCorrect.NotInChainRuns` | src/pdef/parser.c:1310-1330 | the code of a negated list goes on exactly when the value is not in it |
| `CompilerCorrect.CondRuns` | src/pdef/parser.c:1264-1347 | the code of a condition goes on to the next exactly when the field is in bounds and the condition holds of it |
| `CompilerCorrect.RuleCodeForward` | src/pdef/parser.c:1246-1354 | every jump of a compiled rule goes strictly forward and stays in range |
| `CompilerCorrect.RuleCodeCorrect` | src/pdef/parser.c:1188-1354 | compiler correctness: the program answers true exactly when every field is in bounds and every condition holds, within as many steps as it has instructions |
| `Executor.HaltsWithinLength` | src/runtime/executor.c:28-210 | forward-only code reaches its verdict within its length |
| `Executor.BackwardJumpNeverHalts` | src/runtime/executor.c:176-192 | a backward jump can run for ever, so the condition is needed |
| `Executor.OneVerdict` | src/runtime/executor.c:28-210 | a verdict does not depend on how many steps are allowed |
| `Executor.ForwardHalts` | src/runtime/executor.c:28-210 | code without backward jumps halts on every packet |
| `Executor.ExecuteBytecode` | src/runtime/executor.c:28-210 | on any code that halts on the packet the loop gives the verdict of the step-by-step machine; a load out of bounds makes it false |
| `Executor.ExecuteFilter` | src/runtime/executor.c:14-26 | packets shorter than the minimum are rejected, others get the program's verdict |
| `Mirror.SwapTwice` | src/pdef/parser.c:1122-1139 | exchanging the byte orders twice gives the program back |
| `Mirror.SwapRuleCode` | src/pdef/parser.c:1357-1369 | the swapped program is the program of the rule over the fields in the other order |
| `Mirror.BothProgramsCorrect` | src/pdef/parser.c:1357-1369 | what both programs decide: the rule read in the fields' order and in the other |
| `Mirror.MirrorValue` | src/utils/endian.h:17-101 | an isolated field reads in the mirrored packet as it reads in the other order in the packet |
| `Mirror.MirrorTheorem` | src/pdef/parser.c:1357-1369 | the swapped program accepts a packet exactly when the original accepts it with the bytes of every multi-byte integer field reversed |
| `Definition.FlattenedParsed` | src/pdef/parser.c:961-1083 | flattening keeps the sizes the parser gave, with forward references or not |
| `Definition.FlattenedKeeps` | src/pdef/parser.c:961-1083 | whatever all parsed fields have, however they are named and placed, all flattened fields have, for every definition |
| `Definition.GateCoversIntegers` | src/runtime/executor.c:14-26 | where the fields of a struct tile, no integer field is cut off in a packet of at least the minimum size |
| `Definition.IsolatedExactly` | src/pdef/parser.c:961-1083 | where fields tile, a flattened field shares no byte with the multi-byte integers, exactly unless it takes no space and lies at the offset of one |
| `Definition.CompiledRuleIff` | src/pdef/parser.c:1155-1345 | a rule compiles if and only if it has a condition, a struct has its first field, no list is empty and that struct has all its fields |
| `Definition.TargetIsFirst` | src/pdef/parser.c:1168-1183 | the rule's struct has the first condition's field and no earlier struct has |
| `Definition.ProgramsReadOrders` | src/pdef/parser.c:1357-1369 | code_be reads the default order at parse time and code_le the other: the labels are right exactly for the default big; for every definition, with forward references or not |
| `Definition.RuleMirror` | src/pdef/parser.c:1357-1369 | where fields tile, the mirror for every compiled rule that compares no field without space on an integer |
| `Definition.MirrorsExactly` | src/pdef/parser.c:1112-1119 | the exact condition, in every struct whose fields tile, with forward references or not: all programs about a field mirror on all packets if and only if it is isolated, that is, unless it takes no space and lies at the offset of a multi-byte integer |
| `Definition.MirrorFails` | src/pdef/parser.c:1112-1119 | for every definition with such a field, a compiled rule about it and a packet on which the two programs disagree with the mirror |
| `Definition.MirrorFailsForZeroLength` | src/pdef/parser.c:1112-1119 | the smallest such definition, flattened and compiled, with its packet |
| `Matcher.WindowsFromExact` | src/runtime/protocol.c:100-119 | the offsets tried are exactly those inside the packet, below the limit if it is not zero, that leave the minimum size: the early break loses nothing |
| `Matcher.AttemptsMeaning` | src/runtime/protocol.c:85-130 | some attempt succeeds in an order exactly when some rule matches in that order |
| `Matcher.MatchFixed` | src/runtime/protocol.c:85-130 | with the order known a packet is accepted exactly when some rule matches it, and the cell keeps its value |
| `Matcher.MatchUnknown` | src/runtime/protocol.c:31-82 | while the order is unknown a packet is accepted exactly when it matches in one of the orders; the cell learns the order of the first accepted attempt, big preferred at that attempt; a rejected packet teaches nothing |
| `Matcher.ProtocolDef.TryMatchWithEndian` | src/runtime/protocol.c:8-83 | one attempt with its compare-and-swap: verdict and new cell |
| `Matcher.ProtocolDef.PacketFilterMatch` | src/runtime/protocol.c:85-130 | the nested loops over rules and offsets: verdict and new cell of the whole match |
| `Protocol.Build` | src/pdef/parser.c:872-884 | flattening and then compiling, with the first error of either |
| `Protocol.AcceptsMeans` | src/runtime/protocol.c:8-46 | for every compiled rule, one accepted attempt means that the rule's conditions hold of the window over the fields as that program reads them |
| `Protocol.RuleMatchesMeans` | src/runtime/protocol.c:96-127 | a rule matches exactly when it holds at offset 0 or, sliding, at some offset inside the packet, below its limit if that is not zero, with the minimum size left |
| `Protocol.BuiltMatches` | src/runtime/protocol.c:85-130 | the compiled rules match in an order exactly when the structs and rules describe the packet in it |
| `Protocol.MatcherMeaning` | src/runtime/protocol.c:85-130 | end to end from structs and rules, for all that can be built: the matcher accepts exactly the packets they describe |
| `Protocol.UnknownMeaning` | src/runtime/protocol.c:31-82 | while the order is unknown, accepted is what is described in one of the two orders, and an order in which the packet is described is learned |
| `Protocol.UniformMeaning` | src/runtime/protocol.c:22-29 | when all structs were parsed under one default, that is reading in the known order, or in the other one if the default was little |
| `Stream.FilterPackets` | src/rxfilterthread.cpp:340-374 | the packet loop with its retry keeps the specified packets, in order, and counts them right |
| `Stream.AutoIsFixed` | src/rxfilterthread.cpp:340-374 | detecting the order on the way keeps exactly the packets that one fixed order keeps of the whole file |
| `Stream.LoadedKeeps` | src/rxfilterthread.cpp:340-374 | end to end in mode auto: of every file exactly the packets are kept that the loaded definition describes in one order, which is the order learned |
| `Stream.LoadedKeepsKnown` | src/rxfilterthread.cpp:340-374 | the same with the order known from the mode or an earlier file |
| `Stream.DetectionMovesOnce` | src/runtime/protocol.c:31-82 | along a file the cell changes at most once, and only with an accepted packet |
| `Stream.RetryChangesNothing` | src/rxfilterthread.cpp:348-362 | trying a rejected packet again with the other port rejects it again and leaves the cell alone |
| `Detection.DetectionSafe` | src/runtime/protocol.c:35-82 | for any number of threads and any interleaving the cell is written at most once and every finished attempt is justified by one of the two programs |
| `Detection.DetectedForGood` | src/runtime/protocol.c:35-82 | a detected order is never overwritten |
| `Detection.WriteJustified` | src/runtime/protocol.c:48-80 | the cell is written only by a thread whose attempt was accepted in the order it writes, and little only where big was not accepted |
| `Writeback.SettingExactly` | src/rxcapturemanagerthread.cpp:2486-2508 | the value that is replaced: behind the first '=' after "endian" within 20 characters, and before the first ';' after that within 50 |
| `Writeback.InsertExactly` | src/rxcapturemanagerthread.cpp:2516-2540 | where a setting is inserted: behind the first line end after the first brace after the first "@protocol", or right behind the brace when no line ends |
| `Writeback.LastWriteWins` | src/rxcapturemanagerthread.cpp:2482-2543 | writing b over a written a gives what writing b at first gives; writing is idempotent |
| `Writeback.SucceedsAlike` | src/rxcapturemanagerthread.cpp:2482-2543 | whether rewriting succeeds does not depend on the order written |
| `PdefUsage.UsageTracker.TryWriteback` | src/rxcapturemanagerthread.cpp:2427-2462 | writes only when needed, not done, unused and the file operations succeed, and then marks it done |
| `PdefUsage.UsageTracker.HandleRawFile` | src/rxcapturemanagerthread.cpp:2064-2123 | a use begins, and ends again at once when there are no filter threads |
| `PdefUsage.UsageTracker.HandleFilteredFile` | src/rxcapturemanagerthread.cpp:2166-2170 | the use ends and writing back is tried |
| `PdefUsage.UsageTracker.HandleOrderDetected` | src/rxcapturemanagerthread.cpp:2351-2394 | the first reported order is kept, later ones are ignored |
| `PdefUsage.FilesOfRun` | src/rxcapturemanagerthread.cpp:2351-2462 | over every run each file is the original, or the original with the first reported order written to it |
| `PdefUsage.WritesAreSafe` | src/rxcapturemanagerthread.cpp:2427-2462 | a file changes only when no capture uses it and it was not written before, and no other file changes with it |
| `PdefUsage.FilesExactly` | src/rxcapturemanagerthread.cpp:2351-2462 | over every run a file has the first reported order written to it if and only if some filtered file or report found the definition unused, an order known and the file writable, and is the original otherwise |
| `PdefUsage.LastUserWrites` | src/rxcapturemanagerthread.cpp:2166-2170 | when the last user is done, or an order is reported while there is no user, and the file can be rewritten, it is |
| `Splice.SplitGap` | src/pdef/lexer.c:50-74 | behind a line end a gap can be split into two |
| `Splice.SpliceGap` | src/pdef/lexer.c:50-74 | replacing what is between an '=' and a ';' of one gap gives a gap |
| `Places.PlaceSplits` | src/pdef/parser.c:273-371 | a definition is written as what comes before a place in a @protocol block, the entries there, and the rest |
| `Places.SettingTakesEffect` | src/pdef/parser.c:302-323 | with one setting the mode is that of the setting; structs after it are parsed in its order, structs before it in big-endian order |
| `Reload.PlaceIsFound` | src/rxcapturemanagerthread.cpp:2512-2543 | the place of insertion is in the gap with the first line end behind the brace, or right behind the brace when no line ends |
| `Reload.InsertedIsRead` | src/rxcapturemanagerthread.cpp:2512-2543 | when the place of insertion is in a gap between the entries of a @protocol block, before the first or behind the last, the new text is read as the definition with the setting there, whatever else is in it |
| `Elsewhere.ListOnlyThere` | src/pdef/parser.c:273-371 | a setting put into the tokens of a list of entries is between two of them, or the list cannot be parsed |
| `Elsewhere.BlockPasses` | src/pdef/parser.c:373-824 | a struct, @const or @filter block that can be parsed leaves the mode alone and a setting inside it behind |
| `Elsewhere.OnlyThere` | src/pdef/parser.c:846-869 | a setting put anywhere into the tokens of a definition without one: if what is read is in another mode, the setting is between two entries of a @protocol block |
| `Insertion.Locate` | src/rxcapturemanagerthread.cpp:2516-2540 | every place where a setting can be inserted into the text of a definition is in a gap or inside a string literal |
| `Insertion.InsertionExactly` | src/rxcapturemanagerthread.cpp:2512-2543 | the exact condition, for every text without "endian" that has a place of insertion: the new text is read in the mode of the written order if and only if the place is between two entries of a @protocol block; everywhere else it cannot be parsed or is in mode auto |
| `Reload.ReplacedIsRead` | src/rxcapturemanagerthread.cpp:2486-2508 | when the '=' and the ';' that are found are those of an entry with one value, the new text is read as the definition with the written word for it: for an endian entry the written order |
| `Damage.NameIsReplaced` | src/rxcapturemanagerthread.cpp:2486-2508 | when they are those of a name, rewriting succeeds and the new text is the same definition under the written word, in its old mode |
| `Damage.TokensAreLost` | src/rxcapturemanagerthread.cpp:2486-2508 | when the '=' is in a gap and the ';' ends some tokens that are the last of their line, the new text is that of the other tokens |
| `Damage.FieldIsLost` | src/rxcapturemanagerthread.cpp:2486-2508 | when the '=' is in a comment before a field and the ';' is the field's, rewriting succeeds and the new text is the definition without the field, in its old mode |
| `Damage.ExampleLost` | src/rxcapturemanagerthread.cpp:2486-2508 | a text of two fields that is rewritten to one with the second field only |
| `OrderBlind.BuiltAlike` | src/pdef/parser.c:961-1376 | definitions that differ only in the byte order of fields are built alike, or fail alike |
| `OrderBlind.HoldsAlike` | src/pdef/parser.c:961-1376 | read in one order, they describe the same packets |
| `WritebackEffects.EntryIsFound` | src/rxcapturemanagerthread.cpp:2486-2503 | when no '=' comes between the first "endian" and that of an entry, no ';' before the entry's own, and both are near, it is that entry that is rewritten |
| `WritebackEffects.InsertingWritesBack` | src/rxcapturemanagerthread.cpp:2512-2543 | inserting between entries is one of the two ways to which the results below apply |
| `WritebackEffects.ReplacingWritesBack` | src/rxcapturemanagerthread.cpp:2486-2508 | replacing an entry that says auto is the other |
| `WritebackEffects.NewTextLoads` | src/rxcapturemanagerthread.cpp:2464-2572 | if the old text could be loaded, so can the new one, with the same structs but for their byte order |
| `WritebackEffects.DetectedReadsRight` | src/runtime/protocol.c:31-46 | before writing back, with the order detected, packets are read in that order |
| `WritebackEffects.WrittenBackReadsBig` | src/rxcapturemanagerthread.cpp:2464-2572 | inserted or replaced before the structs, whichever order was written: before, packets are read in the detected order; loaded from the new text, in big-endian order |
| `WritebackEffects.WrittenBehindReadsRight` | src/rxcapturemanagerthread.cpp:2464-2572 | written behind all structs, the order is read as it was detected |
| `WritebackEffects.CommentIsRewritten` | src/rxcapturemanagerthread.cpp:2482-2508 | wherever the first "endian" is: when the '=' and the ';' that are found are in one gap, rewriting succeeds and the definition is what it was |
| `WritebackEffects.CommentReachesConstant` | src/rxcapturemanagerthread.cpp:2482-2508 | a family of texts with "endian" in a comment whose rewriting reaches the constant on the next line, and makes a text that cannot be parsed |
| `WritebackEffects.WritebackCanBreak` | src/rxcapturemanagerthread.cpp:2512-2543 | a family of texts that can be parsed and that rewriting turns into texts that cannot |
| `TaskTable.AddTaskCounts` | src/rxsafetaskmgr.h:585-653 | every addition, whatever it displaces, keeps each counter equal to the number of tasks with that status |
| `TaskTable.UpdateCounts` | src/rxsafetaskmgr.h:674-767 | so does every update |
| `TaskTable.EvictCounts` | src/rxsafetaskmgr.h:655-672 | so does every removal |
| `TaskTable.AddTaskOwned` | src/rxsafetaskmgr.h:585-653 | after an addition each object ever handed in is in exactly one of the table, the list of pending deletions and the freed set |
| `TaskTable.UpdateOwned` | src/rxsafetaskmgr.h:719-767 | the same after a copy-on-write update |
| `TaskTable.EvictOwned` | src/rxsafetaskmgr.h:655-672 | the same after a removal |
| `TaskTable.CleanupOwned` | src/rxsafetaskmgr.h:769-775 | the same after deleting what is pending |
| `TaskIndex.LookupsAgree` | src/rxsafetaskmgr.h:225-250 | lookups by key, sid and active signature answer as the plain map from ids to tasks does, in both directions |
| `TaskIndex.RemovedIndexed` | src/rxsafetaskmgr.h:155-183 | removal keeps the indexes in agreement |
| `TaskIndex.AddTaskIndexed` | src/rxsafetaskmgr.h:585-653 | an addition keeps them in agreement if and only if its id is new or its contents fit the entries of the task that had the id |
| `TaskIndex.UpdateIndexed` | src/rxsafetaskmgr.h:674-767 | an update keeps them in agreement if and only if it does not revive a task whose signature was taken meanwhile |
| `TaskMgr.TaskManager.AddTask` | src/rxsafetaskmgr.h:585-653 | on the two tables, counters and objects: the state is that of the specified addition, after the switch of tables |
| `TaskMgr.TaskManager.RemoveTask` | src/rxsafetaskmgr.h:655-672 | the same for removal |
| `TaskMgr.TaskManager.UpdateTask` | src/rxsafetaskmgr.h:719-767 | the same for an update: a new object takes the slot, the old one waits for deletion; an unknown id changes nothing |
| `TaskMgr.TaskManager.UpdateStatus` | src/rxsafetaskmgr.h:674-717 | the same for a change of status |
| `TaskMgr.TaskManager.QueryTask` | src/rxsafetaskmgr.h:438-444 | the snapshot of the task with the id, if there is one |
| `TaskMgr.TaskManager.QueryTaskByKey` | src/rxsafetaskmgr.h:446-450 | the snapshot the key index leads to |
| `TaskMgr.TaskManager.QueryActiveTaskBySignature` | src/rxsafetaskmgr.h:476-485 | the snapshot of the active task with the signature, if there is one |
| `TaskMgr.TaskManager.QueryTaskBySid` | src/rxsafetaskmgr.h:487-491 | the snapshot the sid index leads to |
| `TaskMgr.TaskManager.CleanupPendingDeletes` | src/rxsafetaskmgr.h:769-775 | frees what is waiting, no object twice |
| `TaskMgr.TaskManager.Destroy` | src/rxsafetaskmgr.h:423-436 | the destructor frees every object ever handed in or copied, and none twice |
| `Admission.AcceptedMeetsNoActive` | src/rxcapturemanagerthread.cpp:1494-1547 | an accepted request meets no active task with its key, its signature or its sid |
| `Admission.AcceptedEvictsNoActive` | src/rxcapturemanagerthread.cpp:1226-1301 | an accepted request evicts finished tasks at most, although adding a task can evict |
| `Admission.RunningCountIsBusy` | src/rxcapturemanagerthread.cpp:1170-1178 | the counters used for the limit count the running and resolving tasks |
| `Admission.AcceptedConsistent` | src/rxcapturemanagerthread.cpp:1494-1547 | accepting keeps counters and indexes in agreement and the limit respected |
| `Admission.AdvancedConsistent` | src/rxcapturemanagerthread.cpp:1988-2062 | so does a status report that does not revive a finished task |
| `Admission.OneActiveEach` | src/rxcapturemanagerthread.cpp:1494-1547 | at most one active task has a given key and at most one a given signature |
| `Admission.DecisionExactly` | src/rxcapturemanagerthread.cpp:1498-1540 | the exact decision over the table: a duplicate of the unfinished task with the signature, or else with the key; or else at capacity exactly when as many tasks resolve or run as may; or else accepted |
| `Admission.ReportShown` | src/rxsafetaskmgr.h:674-767 | after a report, lookups show the task with the reported status and details, and every other task as it was |
| `CaptureManager.Manager.CheckStart` | src/rxcapturemanagerthread.cpp:1494-1531 | the decision in the order the checks are made: an active task with the signature, an active task with the key, the limit |
| `CaptureManager.Manager.DispatchTaskToWorker` | src/rxcapturemanagerthread.cpp:1303-1352 | the task gets a worker and becomes resolving; without workers it stays pending |
| `CaptureManager.Manager.HandleStartCapture` | src/rxcapturemanagerthread.cpp:1494-1547 | a rejected request changes nothing; an accepted one is added under the next id and dispatched |
| `CaptureManager.Manager.HandleCaptureStarted` | src/rxcapturemanagerthread.cpp:1879-1901 | the report sets the details and then the status, nothing for an unknown task |
| `CaptureManager.Manager.HandleCaptureFinished` | src/rxcapturemanagerthread.cpp:1988-2036 | the result code decides between completed, stopped and failed |
| `CaptureManager.Manager.HandleCaptureFailed` | src/rxcapturemanagerthread.cpp:2038-2062 | the task fails with the message, or with the code's text when there is none |
| `Lifecycle.StepKeepsInv` | src/rxcapturethread.cpp:90-199 | every step of clients, manager, workers and filter threads keeps the invariant |
| `Lifecycle.ReportSetsStatus` | src/rxcapturemanagerthread.cpp:1879-2062 | in every reachable state a message about a capture finds it in the status that goes before, sets the status it reports, and changes no other capture's |
| `Lifecycle.AdmissionSafe` | src/rxcapturemanagerthread.cpp:1494-1547 | in every run: the limit is never exceeded, at most one active task per key and per signature, and counters, indexes and ownership agree |
| `Lifecycle.StatusForward` | src/rxcapturethread.cpp:116-199 | in every run a status only moves forward: no finished task becomes active again, and no id that left the table comes back |
| `Lifecycle.ActiveStays` | src/rxcapturemanagerthread.cpp:1494-1547 | in every run a task stays in the table as long as it is active |
| `PowerOfTwo.NextPowerOf2` | src/rxlockfreequeue.c:11-20 | the least power of two at or above the request, 1 for 0, and 0 above 2^31 |
| `PowerOfTwo.MaskIsRemainder` | src/rxlockfreequeue.c:74-75 | masking with capacity - 1 is the remainder by the capacity |
| `Ring.DifferentSlots` | src/rxlockfreequeue.c:60-136 | positions less than a capacity apart use different slots |
| `Ring.ProducerStep` | src/rxlockfreequeue.c:60-97 | every single step of a push keeps the invariant |
| `Ring.ConsumerStep` | src/rxlockfreequeue.c:99-136 | every single step of a pop keeps the invariant |
| `Ring.RingSafe` | src/rxlockfreequeue.c:60-136 | in every interleaving the popped items are a prefix of the pushed, at most `capacity` are outstanding, and no slot is written while unread or being read |
| `PacketQueue.CopyView` | src/rxlockfreequeue.c:78-91 | a copied packet node shows a reader what the original shows |
| `PacketQueue.ViewsExactly` | src/rxlockfreequeue.c:78-91 | what a reader sees of a node is everything but the bytes behind the packet and the place of invalid application data |
| `PacketQueue.UnreadPush` | src/rxlockfreequeue.c:60-97 | a node written at the write position joins the unread ones at the end and changes none |
| `PacketQueue.LockFreeQueue.constructor` | src/rxlockfreequeue.c:22-49 | an empty queue of the rounded capacity |
| `PacketQueue.LockFreeQueue.Push` | src/rxlockfreequeue.c:60-97 | succeeds exactly when there is room, and appends |
| `PacketQueue.LockFreeQueue.Pop` | src/rxlockfreequeue.c:99-136 | succeeds exactly when something is there, and removes the oldest |
| `Wraparound.MaskSurvives` | src/rxlockfreequeue.c:74-75 | masking a position that has wrapped at 64 bits still finds its slot |
| `Wraparound.FullTestSurvives` | src/rxlockfreequeue.c:69-71 | the difference of wrapped positions is that of the positions |
| `Wraparound.EmptyTestExactly` | src/rxlockfreequeue.c:108-110 | comparing wrapped positions is right if and only if the queue is empty or both have wrapped equally often |
| `Timers.CheckedKeeps` | core/legacy_core_net.cpp:323-371 | a check fires exactly the due timers of the old list, in order, and keeps the invariant while handlers add timers |
| `TimerRuns.RequestHasTimer` | core/legacy_core_net.cpp:306-321 | in every run each accepted request has exactly one timer, pending or fired, due at the request's clock plus its length and for its target |
| `TimerRuns.FiresNotBefore` | core/legacy_core_net.cpp:323-371 | no check made before a request's clock plus its length fires its timer |
| `TimerRuns.FiresByTheSecond` | core/legacy_core_net.cpp:323-371 | two consecutive checks made at or after a request's clock plus its length fire its timer, with its target |
| `TimerRuns.FiresInOrder` | core/legacy_core_net.cpp:323-371 | a check fires timers in the order of their times, and of their requests among equal times |
| `Timers.NeverEarly` | core/legacy_core_net.cpp:323-371 | nothing fires before its time |
| `Timers.FiresWithinTwo` | core/legacy_core_net.cpp:323-371 | a pending timer fires within two consecutive checks at or after its time, whatever is added meanwhile |
| `Timers.ExactlyOnce` | core/legacy_core_net.cpp:291-371 | in every run an accepted timer is either pending once or fired once, and the reserved ids are those of the pending timers, without duplicates |
| `BaseTimer.BaseTimerList.GenTimerId` | core/legacy_core_net.cpp:291-304 | the loop finds an id that is free and reserves it, whenever there is one |
| `BaseTimer.SearchEndsExactly` | core/legacy_core_net.cpp:291-304 | the loop ends if and only if some id is free |
| `BaseTimer.BaseTimerList.AddTimer` | core/legacy_core_net.cpp:306-321 | an accepted timer joins the current list in time order under a free id; a refused one changes nothing |
| `BaseTimer.BaseTimerList.CheckTimer` | core/legacy_core_net.cpp:323-371 | the loops over the multimap compute the specified check, also when handlers add timers or throw; the failed targets are those whose handlers threw, in the order of firing |
| `BaseTimer.DueErased` | core/legacy_core_net.cpp:360-369 | erasing by time removes exactly the fired timers, also where several have the same time |
| `Channel.StepRefines` | core/legacy_core_net.cpp:385-435 | each critical section and each handled message is a step of one first-in-first-out queue or no change of it, the current queue is empty between critical sections, and only a throwing handler or a destroyed object loses what was taken out |
| `Channel.FirstInFirstOut` | core/legacy_core_net.cpp:385-435 | in every run, with handlers that throw, the handled messages are the first ones sent, in order and none doubled; none is lost while the channel's object is there, or held for a batch |
| `Channel.NothingAfterDestroy` | core/legacy_core_net.cpp:402-409 | when the object is gone and not held, nothing is handled any more |
| `Channel.ThrowLosesRest` | core/legacy_core_net.cpp:393-410 | when a handler throws, exactly the messages behind it in its batch are lost |
| `Channel.OneBatchHandlesAll` | core/legacy_core_net.cpp:385-419 | one wake-up of the receiver whose handlers return handles everything sent before it |
| `Channel.ChannelDataProcess.PutMsg` | core/legacy_core_net.cpp:421-435 | the message joins the waiting ones at the end |
| `Channel.ChannelDataProcess.ProcessRecvBuf` | core/legacy_core_net.cpp:385-419 | handles all that waited, in order, up to a message whose handler throws, or none without the object; what was put in meanwhile is left waiting and nothing else |

## Left out

- Layout.FlattenedIsLayout: only for structs defined before use, since otherwise a struct has no recursive layout that the code follows; `Overlap.TilesExactly` says for all definitions when the fields tile.
- Definition.MirrorsExactly: where fields overlap because of a forward reference that takes space, the mirrored packet is not defined by the fields alone, and there is no statement.
- Definition.GateCoversIntegers: where fields do not tile, a field can lie beyond the minimum size.
- Source.ParseWritten: a written definition ends every entry with a semicolon, writes numbers in decimal (`NumbersReadBack` has both bases) and comments with their line end; other spellings are in the parser's specification, not in the round trip.
- Reload.ReplacedIsRead: there is no exact condition for replacement as for insertion; other places of the '=' and the ';' are covered by `CommentIsRewritten`, `CommentReachesConstant`, `NameIsReplaced` and `FieldIsLost`.
- Insertion.InsertionExactly: for texts of well-formed definitions, in the sense of `ParseWritten`.
- WritebackEffects.WrittenBackReadsBig: for definitions with one setting, and all structs behind it; `Places.SettingTakesEffect` says in which order the structs on each side of a setting are parsed.
- Parsers.Parser.ParseStructDef: does not model the fixed room for sixteen structs, which the code does not check.
- Matcher.ProtocolDef.PacketFilterMatch: the atomic cell is read and written in one step here; the interleaved steps are in `Detection`.
- PacketQueue.LockFreeQueue.Push: one thread at a time; the interleaved steps are in `Ring`, where memory ordering weaker than sequential consistency is not modelled.
- Ring.RingSafe: positions are unbounded; what wrapping at 64 bits does to the masks and tests is in `Wraparound`.
- BaseTimer.BaseTimerList.GenTimerId: requires that some id is free; otherwise the code's loop does not end (`BaseTimer.SearchEndsExactly`), which no method can do here.
- BaseTimer.BaseTimerList.CheckTimer: handlers do not call the check themselves, and each timer object is added once.
- Timers.FiresWithinTwo: the clock is a parameter of the check; how often checks are made is not modelled.
- TaskMgr.TaskManager.Destroy: visits the ids between given bounds, in order, in place of the map's iterator.
- TaskMgr.TaskManager.UpdateTask: an updater is a function from old to new contents; it gives the signature and sid back unchanged wherever the indexes are claimed to agree.
- CaptureManager.Manager.HandleStartCapture: begins with the admission checks; resolving target processes, defaults from the configuration and building replies come before or after it and are not modelled.
- Lifecycle.AdmissionSafe: each message is handled atomically and the limit does not change during a run; the unused message that sets an arbitrary status (`handle_task_update`) has no sender and is not modelled.
- Channel.ChannelDataProcess.ProcessRecvBuf: it counts messages in place of wake-up bytes, and the event timer is not modelled; destroying the object after a handler threw (core/legacy_core_net.cpp:571-578 and 793-798) is part of the throwing step of `Channel.Next`.
- PdefUsage.UsageTracker.WritebackEndianToFile: reading, writing and renaming the file either all succeed or count as failed; the temporary file is not modelled.
- Sizes and offsets of flattened structs are unbounded: the 32-bit wrap of sums of sizes is not modelled.
- Shifts and ors that combine bytes are written as weighted sums.
- Allocation failure, null arguments and error message texts are not modelled; errors are data.
- Concurrent readers of the task table, for which the code gives no guarantee about freed objects.
- Parsing packet headers and pcap files, sockets, HTTP, JSON configuration, archives, logging and the printing of definitions and programs.
- The older write-back of `src/rxreloadthread.cpp`, whose syntax the lexer does not accept.
