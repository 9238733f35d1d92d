# Owl front end: character buffer, shell dispatcher, batch entry

A Dafny model of the front end of the Owl scripting tool chain:

- `filebuffer.dfy` (module `FileBuffer`): the line store `FileReader` and the
  character cursor `SourceBuffer` of `src/tools/filebuffer.hpp`. The cursor is a
  class with the C++ fields (`textLines`, `lineNum`, `inPosition`, `readChar`,
  `eofChar`, the `scanner` line store). Each method is specified by a pure
  function over `BufState`, a value holding the same five fields: `Init`
  (initSourceBuffer), `Advance` (GetChar), `Retreat` (UnGetChar) and `Fetch` (the
  `textLines.at(lineNum).at(inPosition)` read every operation ends with). The
  lemmas about those functions carry the properties. A `std::out_of_range` thrown
  by `at()` is the outcome `OutOfRange`. The fields are left as the code leaves
  them when it throws. GetChar's unchecked `textLines[lineNum]` and the index it
  then compares become the precondition `Placed`. The accessors `Char`, `IsEof`,
  `EofMarker` and `LineNumber` are plain reads of `readChar`, of
  `readChar == eofChar`, of `eofChar` and of `lineNum`.
- `shell.dfy` (module `Shell`): `OwlShell::tokenizeInput` as a method with a loop,
  specified by the function `Words` and its inverse `Join`. `OwlShell::parseCommand`
  is a method over the session fields `ts` and `ast`, specified by the function
  `Dispatch`. The method returns an `Effect`: what is handed to the printing,
  freeing, evaluating or exiting collaborators. The lexer and the parser are
  function values fixed when the shell is built. `Token` and `Tree` are abstract
  types. The `ast` pointer is `Uninitialised` (the constructor never sets it),
  `Null`, or a `Node` whose tree is live or freed.
- `cli.dfy` (module `OwlCli`): `main` of `cli/owl_cli.cpp` as the pure function
  `SelectMode` from the argument vector to usage, verbose or quiet mode and the
  exit status.
- `wrappers.dfy`: the `Option` type shared by the other modules.

The model follows the code as written, including where it differs from what the tool is meant to do:

- `run` without a loaded script executes whatever `ast` holds: an uninitialised
  pointer, or a freed one after `reset`. There is no "no script loaded" report.
- `reset` frees the tree but leaves `ast` pointing at it, since `freeTree`
  receives the pointer by value. A later `list ast` prints the freed tree,
  because the pointer is not null.
- `load` overwrites `ast` without freeing the previous tree.
- Words are split at every single space, so a run of spaces is not the same as
  one space: `list  tokens` does nothing (`DoubledSpaceChangesCommand`).
- `UnGetChar` at column 0 or 1 goes to column 0 of the previous line, not to the
  end of the previous line. At line 0 it throws.
- `loadString("")` throws in `initSourceBuffer`. So do a file that `readFile`
  reports as read but that yields no lines, and one whose first line is empty.
  Whether `readFile` reports success for an empty file is not known.
  Reaching an empty line later makes `GetChar` throw.

## Model

| member | source | states |
|---|---|---|
| FileBuffer.Fetch | src/tools/filebuffer.hpp:93 | the read succeeds exactly when (lineNum, inPosition) is inside the buffer, and then exposes and returns that character; otherwise it throws and nothing changes |
| FileBuffer.Init | src/tools/filebuffer.hpp:45-51 | installs the lines with the cursor at (0, 0) and sentinel 0x7F; it succeeds exactly when there is a first line and it is non-empty, and then the state is valid and exposes its first character |
| FileBuffer.Advance | src/tools/filebuffer.hpp:82-95 | inside a line: next column, returns that character; at the end of a non-last line: column 0 of the next line, returns its first character, throws if it is empty; at the last character of the last line: no movement, the sentinel is exposed and returned; never throws when all lines are non-empty |
| FileBuffer.Retreat | src/tools/filebuffer.hpp:96-104 | from column 2 or later one column back on the same line; from column 0 or 1 column 0 of the previous line; it throws exactly when the new position is outside the buffer |
| FileBuffer.AdvanceKeepsValid | src/tools/filebuffer.hpp:82-95 | a successful GetChar keeps the cursor inside the buffer, the sentinel 0x7F, and the exposed character equal to the one under the cursor or to the sentinel |
| FileBuffer.AdvanceAtEndIsFixedPoint | src/tools/filebuffer.hpp:83-87 | at the last character of the last line GetChar returns the sentinel without moving, and every further call does the same |
| FileBuffer.RetreatKeepsValid | src/tools/filebuffer.hpp:96-104 | a successful UnGetChar keeps the buffer invariant; from line 0, column 0 or 1 it always throws; elsewhere, with non-empty lines, it never throws |
| FileBuffer.RestStep | src/tools/filebuffer.hpp:82-95 | one GetChar consumes exactly the first character still to be read, across line ends; at the end nothing is left to read |
| FileBuffer.ReadsFollowText | src/tools/filebuffer.hpp:82-95 | n successive GetChar calls return the characters after the cursor in order, then the sentinel for ever |
| FileBuffer.LoadedCursorSeesWholeText | src/tools/filebuffer.hpp:45-51 | after loading lines whose first is non-empty, the exposed character followed by the characters still to be read is the whole text |
| FileBuffer.LoadStringReads | src/tools/filebuffer.hpp:67-72 | loadString(s), s non-empty: one line, cursor (0, 0), Char() is s[0], sentinel 0x7F, then GetChar returns s[1..] and the sentinel for ever |
| FileBuffer.TwoLinesReadInOrder | src/tools/filebuffer.hpp:82-95 | for lines "ab", "cd" the exposed 'a' is followed by b, c, d, sentinel, sentinel |
| FileBuffer.RetreatUndoesAdvanceInsideLine | src/tools/filebuffer.hpp:96-104 | from column 1 or later, not at the end of the line, UnGetChar after GetChar comes back to the same character |
| FileBuffer.RetreatAfterAdvanceFromColumnZeroThrows | src/tools/filebuffer.hpp:97-99 | after loading "ab", GetChar then UnGetChar moves to line -1 and throws |
| FileBuffer.RetreatIntended | src/tools/filebuffer.hpp:96-104 | the intended pushback: one column back, or from column 0 the last column of the previous line |
| FileBuffer.RetreatIntendedUndoesAdvance | src/tools/filebuffer.hpp:96-104 | with non-empty lines, the intended pushback after any GetChar that moved the cursor returns to the character before the move |
| FileBuffer.FileReader.constructor | src/tools/filebuffer.hpp:21-23 | the line counter is 0 and the line store and the current line are empty |
| FileBuffer.FileReader.Reset | src/tools/filebuffer.hpp:28-32 | the line store and the current line are empty and the line counter is 0, whatever the state before; hence it is idempotent |
| FileBuffer.FileReader.ReadFile | src/tools/filebuffer.hpp:24 | reports success exactly when the file's lines were obtained, and then holds them; on failure the line store is unchanged |
| FileBuffer.SourceBuffer.constructor | src/tools/filebuffer.hpp:53-55 | the buffer has no lines and a fresh, empty line store; the other fields are unconstrained |
| FileBuffer.SourceBuffer.LineNumber | src/tools/filebuffer.hpp:56-58 | the current line, an index into the lines whenever the cursor is placed |
| FileBuffer.SourceBuffer.IsEof | src/tools/filebuffer.hpp:73-75 | true exactly when the exposed character is the sentinel; otherwise, on a valid buffer, the exposed character is the one under the cursor |
| FileBuffer.SourceBuffer.EofMarker | src/tools/filebuffer.hpp:76-78 | the sentinel, which is 0x7F on every valid buffer |
| FileBuffer.SourceBuffer.Char | src/tools/filebuffer.hpp:79-81 | the exposed character, which on a valid buffer is the one under the cursor or the sentinel |
| FileBuffer.SourceBuffer.ReadAt | src/tools/filebuffer.hpp:93 | the fields and the outcome are those of Fetch |
| FileBuffer.SourceBuffer.InitSourceBuffer | src/tools/filebuffer.hpp:45-51 | the fields and whether it threw are those of Init |
| FileBuffer.SourceBuffer.LoadFile | src/tools/filebuffer.hpp:59-66 | the line store is reset and then holds the file's lines; an unreadable file changes only readChar, to the sentinel, so IsEof() holds; otherwise the buffer is as Init leaves it |
| FileBuffer.SourceBuffer.LoadString | src/tools/filebuffer.hpp:67-72 | the line store is reset; the buffer is as Init leaves it for the single line str; it throws exactly when str is empty, and otherwise the cursor is at (0, 0), Char() is str[0] and the sentinel is 0x7F |
| FileBuffer.SourceBuffer.GetChar | src/tools/filebuffer.hpp:82-95 | the new fields and the returned character are those of Advance |
| FileBuffer.SourceBuffer.UnGetChar | src/tools/filebuffer.hpp:96-104 | the new fields and whether it threw are those of Retreat |
| Shell.Words | cli/interactive_interpreter.cpp:84-97 | there is always at least one word |
| Shell.WordsUpTo | cli/interactive_interpreter.cpp:87-95 | the finished words and the current word after the loop has read n characters: never an empty list |
| Shell.Extend | cli/interactive_interpreter.cpp:88-93 | one loop step adds one word for a space and none for any other character, so the list is never empty |
| Shell.JoinExtend | cli/interactive_interpreter.cpp:88-93 | each loop step adds exactly its character to the joined line: a space as a separator, any other character at the end of the current word |
| Shell.ExtendAppend | cli/interactive_interpreter.cpp:88-93 | a loop step changes only the current word and leaves the finished ones alone |
| Shell.JoinWords | cli/interactive_interpreter.cpp:87-95 | joining the words with single spaces gives the input back |
| Shell.WordsSpaceless | cli/interactive_interpreter.cpp:87-95 | no word contains a space |
| Shell.WordsCount | cli/interactive_interpreter.cpp:87-95 | there is one word more than there are spaces in the input |
| Shell.WordsOfWord | cli/interactive_interpreter.cpp:87-95 | an input without spaces is its own only word |
| Shell.WordsAroundSpace | cli/interactive_interpreter.cpp:87-95 | the words of a + " " + b are the words of a followed by the words of b |
| Shell.WordsJoin | cli/interactive_interpreter.cpp:87-95 | splitting undoes joining for any non-empty list of space-free words |
| Shell.LeadingSpaceWord | cli/interactive_interpreter.cpp:87-95 | the empty input yields [""]; a leading space yields an empty first word |
| Shell.TrailingSpaceWord | cli/interactive_interpreter.cpp:87-95 | a trailing space yields an empty last word |
| Shell.DoubledSpaceWord | cli/interactive_interpreter.cpp:87-95 | a doubled space yields an empty word between its neighbours |
| Shell.TwoWords | cli/interactive_interpreter.cpp:87-95 | two space-free words separated by one space split into those two, by two spaces into those two with an empty word between |
| Shell.TokenizeInput | cli/interactive_interpreter.cpp:84-97 | the result is Words(input): space-free words that join back to the input, one more than the spaces in it |
| Shell.Dispatch | cli/interactive_interpreter.cpp:56-82 | only load and reset change the session; load, and only load, sets ts to the lexer's tokens of tokens[1] and ast to the parser's tree of them, freeing nothing; reset, and only reset, empties ts and frees the tree, keeping the pointer; quit/exit and only they exit with status 0; an unknown first word and only it gives "? word"; run and only it executes ast, unchecked; list tokens and only it prints ts; list ast prints ast exactly when ast is not null; spy memory and only it reports memory; help and ? and only they show the help; every other list or spy does nothing |
| Shell.DispatchIgnoresExtraWords | cli/interactive_interpreter.cpp:56-82 | a command depends only on its first word, and on the second for load, list and spy |
| Shell.ResetLeavesDanglingPointer | cli/interactive_interpreter.cpp:59-72 | after load and reset, ts is empty and ast still points at the freed tree, which list ast prints and run executes |
| Shell.RunBeforeLoadUsesUninitialisedPointer | cli/interactive_interpreter.cpp:15-22 | in a new shell, run executes the never-assigned pointer; list ast prints it, on the assumption that this pointer is not null |
| Shell.Released | cli/interactive_interpreter.cpp:72 | freeTree marks a tree freed and keeps the pointer to it; a null or never-assigned pointer stays as it is |
| Shell.DoubledSpaceChangesCommand | cli/interactive_interpreter.cpp:62-67 | "list tokens" prints the tokens, while "list  tokens" splits into ["list", "", "tokens"], which does nothing |
| Shell.OwlShell.constructor | cli/interactive_interpreter.cpp:20-22 | ts is empty and ast is uninitialised |
| Shell.OwlShell.ParseCommand | cli/interactive_interpreter.cpp:56-82 | the effect and the new ts and ast are those of Dispatch |
| OwlCli.SelectMode | cli/owl_cli.cpp:18-31 | status is always 0; usage exactly when argc < 2; verbose exactly when argv[1] starts with "-v", with argv[1] passed verbatim and argv[2], null when argc is 2; otherwise quiet on argv[1] |
| OwlCli.IsVerboseFlag | cli/owl_cli.cpp:25 | the C test of argv[1][0] and argv[1][1] holds exactly when the argument starts with "-v" |
| OwlCli.VerboseFlagNotValidated | cli/owl_cli.cpp:25-26 | any argument starting with "-v" selects the verbose run with that flag unchanged |
| OwlCli.VerboseWithoutPathReadsNull | cli/owl_cli.cpp:25-26 | with only a flag, the verbose run receives argv[2], the null pointer |
| OwlCli.OtherDashArgumentsArePaths | cli/owl_cli.cpp:25-28 | "-" and "-x" are run quietly as paths |
| OwlCli.QuietIgnoresLaterArguments | cli/owl_cli.cpp:27-28 | on the quiet path the arguments after argv[1] make no difference |

## Findings

| source | as written | input that shows it | evidently intended | confidence | as-written member | corrected member |
|---|---|---|---|---|---|---|
| src/tools/filebuffer.hpp:97-99 | `inPosition - 1 <= 0` treats column 1 like column 0 and goes to column 0 of the previous line | `loadString("ab")`, `GetChar()`, `UnGetChar()`: lineNum becomes -1 and `at` throws std::out_of_range instead of exposing 'a' again | from column 1 or later one column back; from column 0 the last column of the previous line | not executed; medium | FileBuffer.RetreatAfterAdvanceFromColumnZeroThrows | FileBuffer.RetreatIntendedUndoesAdvance |

`SourceBuffer.UnGetChar` itself keeps the code's behaviour (`Retreat`). The
corrected pushback is `RetreatIntended`.

## Left out

- `FileReader::readFile`, `nextchar` and the file stream: the body of readFile is not part of this model. `ReadFile` takes what reading produced (the lines, or None) as a parameter and changes only the line store. Whether the real readFile also moves `linenum` or `line` is not known.
- `FileReader`'s unused `readChar` and `infile` fields, which only readFile and nextchar use.
- The shell's prompt loop (`start`, `promptInput`, `getline`, the prompt) and the help and usage texts: console I/O.
- The lexer, the parser, the interpreter, `printTokens`, `printTree` and `freeTree`. They are left uninterpreted. The lexer and the parser are function values. The others appear only as the pointer or tokens they get in an `Effect`. Whether `freeTree` accepts a null or uninitialised pointer is not known, so `Released` leaves those values unchanged.
- `exit(0)` is the effect `Exit(0)`. Ending the process is not modelled.
- `OwlCLI::runVerbose`, `OwlCLI::runQuiet` and `srand(time(0))`: their bodies are not part of this model, and the seed is randomness.
- Shell.RunBeforeLoadUsesUninitialisedPointer and Shell.Dispatch: the never-assigned `ast` of a new shell is treated as a non-null pointer, so `list ast` prints it. In C++ the test `ast != nullptr` on that indeterminate value is undefined behaviour, so the code does not decide whether `printTree` is reached.
- Shell.Released, Shell.Dispatch and Shell.ResetLeavesDanglingPointer: the declaration of `freeTree` is not part of this model. The model assumes it receives the pointer by value, so `reset` leaves `ast` unchanged and pointing at the freed tree. A `freeTree` that took the pointer by reference could null it.
- Shell.OwlShell.ParseCommand: requires a second word for load, list and spy, because the code reads `tokens[1]` unchecked. A bare `load` typed at the prompt is undefined behaviour in the code and is outside the model.
- FileBuffer.SourceBuffer.GetChar: requires the cursor to be inside the buffer, because `textLines[lineNum]` is unchecked. On a new buffer, or after a failed first load, GetChar is undefined behaviour.
- What happens after an exception (who catches it) is not modelled. The outcome only records the state at the throw.
- 32-bit overflow of `lineNum` and `inPosition` is not modelled. It would take more than 2^31 lines or columns.
- Characters are Dafny `char`, not C++ bytes. A source character equal to 0x7F cannot be told apart from the sentinel. The model keeps this: `IsEof()` is then true.
- Program arguments cannot contain NUL in C. `CharAt` reads the terminator past the end of a string, which is all that the `argv[1][0]`, `argv[1][1]` tests need.
