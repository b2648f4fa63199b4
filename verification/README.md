# Commander: a verified model of the command interpreter

`js/commander.js` is a small command-line interpreter for a browser game. A
`CommandEngine` holds a registry of value types (`number`, `bool`, `symbol`,
`string`, `variable`, ordered by priority), a table of registered commands,
a variable environment and a batch of lines with a cursor. For each line it

1. **interprets** it: trims it, skips blank and `#` comment lines, reads the
   first word as the command name, then reads typed argument tokens with a
   one-pass character state machine driven by each type's `begin`, `end` and
   `parse`;
2. **executes** it: looks the command up, checks the arguments against the
   command's syntax (optional `?` entries, `|` unions, `any`, substitution of
   variables by their stored value) and calls the handler with the mapped
   arguments;
3. in `manage`, moves on to the next line until a non-zero code or the end
   of the batch. `runBatch` and `runLine` guard all of this with the `done`
   flag.

The Dafny project models that core as pure functions over immutable
datatypes and proves what it does:

- the state machine never returns the "shouldn't ever happen" code 0xF1;
- every argument it produces carries a registered, non-error type and its
  literal;
- the command is the upper-cased first word;
- a line written from canonical argument literals reads back as those same
  values;
- the argument check maps exactly when every position passes, and it
  refuses with the first failing position's code;
- the type registry stays sorted by priority;
- with the corrections listed under "## Findings", `manage` never crashes;
- more fuel never changes a finished run.

Modules, one file each:

| file | module | models |
|---|---|---|
| common.dfy | `Common` | `Option` |
| text.dfy | `Text` | `trim`, ASCII `toUpperCase`/`toLowerCase`, `join`/`split` on one character |
| types.dfy | `Types` | `Value`, `Type`, the built-in `begin`/`end`/`parse` rules, the character classes and `operators` |
| registry.dfy | `Registry` | `typedef` and the constructor's five registrations |
| tokenizer.dfy | `Tokenizer`, `TokenizerFacts` | `interpret` and facts about it |
| encoding.dfy | `Encoding` | rendering argument values as a line; the round trip through `interpret`; the string quirks |
| environment.dfy | `Environment` | `exists`, `setvar`, `getvar` |
| binder.dfy | `Binder` | the argument check of `execute` |
| engine.dfy | `CommandEngine` | `registerCommand`, `execute`, `manage`, `runBatch`, `runLine`, `getErrorDescription` |
| token_errors.dfy | `TokenErrors` | the codes 0x7 and 0x5 of `interpret` |
| scenarios.dfy | `Scenarios` | whole batches: no-op lines, the first failing line, a handler that jumps back |

Modelling choices:

- **Handlers.** A handler is a total Dafny function from the mapped
  arguments and a context (the variables and the cursor `current_line`) to a
  code and a new context. That is how a `goto` handler moves the cursor.
- **Promises.** They run to completion in sequence. `manage` takes a fuel
  bound, and running out of fuel is its own outcome.
- **Thrown errors.** A throw out of `execute` is the outcome `Threw`, and it
  leaves `done` false, as the unhandled rejection does.
- **Corrections.** The engine is built from the corrected definitions of
  "## Findings": `RegisterCommand` stores the syntax given by `Normalize`, and
  `Execute` checks arguments with `Check`. The code as written is modelled
  alongside, by `NormalizeAsWritten`, `CheckAsWritten` and
  `TypedefAsWritten`. The lemmas about it are `EmptySyntaxAsWritten`,
  `SubstitutionThrows`, `AsWrittenBreaksOrder` and
  `AsWrittenPriorityLandsLate`. The claims that no turn throws and that
  `manage`, `runBatch` and `runLine` never leave the engine stuck hold for
  the corrected engine only.

## Model

| member | source | states |
|---|---|---|
| Text.Upper | js/commander.js:230 | `toUpperCase`: the same length, each character mapped by the ASCII case map |
| Text.UpperIs | js/commander.js:675-679 | comparing the upper-cased text with a word is the same as comparing character by character |
| Text.Lower | js/commander.js:299 | `toLowerCase`: the same length, each character lower-cased |
| Text.TrimStart | js/commander.js:322 | what is removed is trim whitespace, and what is left does not start with it |
| Text.TrimEnd | js/commander.js:322 | what is removed is trim whitespace, and what is left does not end with it |
| Text.TrimStartSuffix | js/commander.js:322 | the trimmed text is a suffix of the input |
| Text.TrimEndPrefix | js/commander.js:322 | the trimmed text is a prefix of the input |
| Text.TrimOfTrimmed | js/commander.js:391 | trimming text with no whitespace at either end changes nothing |
| Text.Split | js/commander.js:299 | `split` yields at least one piece, and no piece holds the separator |
| Text.JoinSplit | js/commander.js:299 | joining the pieces of a split gives back the text |
| Text.SplitJoin | js/commander.js:299 | splitting a non-empty join of separator-free pieces gives back the pieces |
| Text.LowerJoin | js/commander.js:299 | lower-casing a join is joining the lower-cased pieces |
| Text.LowerAppend | js/commander.js:299 | lower-casing distributes over concatenation |
| Types.NewType | js/commander.js:70-73 | a type's priority defaults to -1 |
| Types.Begins | js/commander.js:650-691 | the `begin` of each built-in type; none of them accepts a blank, so blanks always separate tokens |
| Types.End | js/commander.js:651-701 | the `end` of each built-in type; only the string rule writes flags, and once a backslash is seen the string never ends |
| Types.OperatorsAre | js/commander.js:181-184 | a text is in `operators` exactly when it is one operator character, optionally followed by `=` |
| Types.OnBegin | js/commander.js:685-691 | only `string.begin` writes a flag: the opening quote |
| Types.LeadingDigits | js/commander.js:652-653 | counts exactly the leading decimal digits |
| Types.NumberPrefix | js/commander.js:652-658 | the text `parseFloat` reads is a non-empty prefix of the literal holding at least one digit |
| Types.Unquote | js/commander.js:702-704 | `slice(1, -1)`: the literal is its first character, the result and its last character |
| Types.Parse | js/commander.js:652-704 | every parse yields its own type's tag or `error`; a variable holds its text |
| Types.DigitsArePrefix | js/commander.js:652-653 | a run of digits is read whole by `parseFloat` |
| Types.NumberParseSucceeds | js/commander.js:652-656 | a number parses exactly when, after an optional minus, it starts with a digit or with a point and a digit |
| Registry.FirstNotAbove | js/commander.js:264-267 | the first position whose priority is not above the new one; every earlier entry is above it |
| Registry.InsertAt | js/commander.js:269 | `splice(i, 0, t)`: `t` at `i`, the rest in order around it |
| Registry.Typedef | js/commander.js:259-275 | a negative priority appends; otherwise `t` is inserted just before the first entry whose priority is at or below its own, or appended when there is none, and every entry before it has a higher priority, in any registry |
| Registry.TypedefTiesNewestFirst | js/commander.js:264-269 | the search stops at an equal priority too, so the new type lands in front of every type registered earlier with the same priority |
| Registry.TypedefAsWritten | js/commander.js:259-275 | as written: a negative priority, or no entry of priority at or below the new one, appends; a first such entry at position i > 0 puts the type at i - 1; a first such entry at position 0 (`splice(-1, …)`) puts it before the last entry |
| Registry.AsWrittenNegativeAgrees | js/commander.js:259-275 | for a negative priority the source's `typedef` and the corrected one give the same registry, the old one with the type appended |
| Registry.ConstructorAsWritten | js/commander.js:213-218 | the constructor's five calls through `typedef` as written also build number, bool, symbol, string, variable of priority -1, so the engine's registry is the source's |
| Registry.AfterFirstNotAbove | js/commander.js:264-267 | in a sorted registry, every entry from that position on has priority at most the new one |
| Registry.InsertKeepsOrder | js/commander.js:269 | inserting there keeps a registry sorted |
| Registry.TypedefKeepsOrder | js/commander.js:259-275 | `typedef` keeps a registry of non-negative priorities sorted by descending priority |
| Registry.TypedefPosition | js/commander.js:259-275 | when the registry is `Ordered`, every entry after the new type has a priority at or below its own, so it sits between the higher and the rest |
| Registry.ConstructorRegistry | js/commander.js:213-218 | the constructor leaves number, bool, symbol, string, variable in that order, all of priority -1 |
| Registry.AsWrittenPriorityLandsLate | js/commander.js:269 | as written, a priority-0 string type lands fifth of six, just before `variable`, instead of first |
| Registry.AsWrittenBreaksOrder | js/commander.js:269 | as written, a sorted registry becomes unsorted |
| Tokenizer.ChooseIsFirstMatch | js/commander.js:424-435 | no type is chosen exactly when no `begin` accepts the character; otherwise the earliest in registry order that accepts it |
| Tokenizer.Choose | js/commander.js:424-435 | a chosen type's `begin` accepts the character |
| Tokenizer.Finish | js/commander.js:386-405 | a finished token halts with 0x7 exactly when its parse is tagged error; otherwise it appends one argument carrying the parsed tag and the trimmed literal, keeps the earlier arguments and resets the word |
| Tokenizer.Gap | js/commander.js:437-464 | a blank after a separator is skipped; a blank otherwise either completes a token or halts with 0xF1, 0xB or 0x7; arguments are only appended |
| Tokenizer.Step | js/commander.js:351-468 | one character only appends arguments; once the name is read it stays and the loop can no longer return 0; before that only `#` returns |
| Tokenizer.Run | js/commander.js:351-468 | the loop over a line only appends arguments to those it started with |
| Tokenizer.Interpret | js/commander.js:316-474 | codes are only 0x0, 0x5, 0x7, 0xB; an error leaves no command and no arguments; every argument is tokenizer-produced |
| Tokenizer.StepKeepsValid | js/commander.js:351-468 | one character keeps the loop invariant, and it never returns 0xF1 |
| Tokenizer.FinishKeepsValid | js/commander.js:386-405 | a finished token either fails with 0x7 or appends a produced argument |
| Tokenizer.RunKeepsValid | js/commander.js:351-468 | the whole loop keeps the invariant and returns only the four codes |
| TokenizerFacts.RunConcat | js/commander.js:351-468 | the loop over `a + b` is the loop over `b` after the loop over `a` |
| TokenizerFacts.RunKeepsCmd | js/commander.js:355-367 | once the name is read, it never changes, and a halt after that is an error |
| TokenizerFacts.ReadName | js/commander.js:356-367 | non-blank characters before the name is set are collected into the word |
| TokenizerFacts.BlankIndex | js/commander.js:357-364 | the first blank, with no blank before it |
| TokenizerFacts.BlankOrCommentLine | js/commander.js:321-323 | a blank or `#` line is a successful no-op without a command |
| TokenizerFacts.NameThenRest | js/commander.js:355-367 | the first word becomes the name and the loop goes on after the blank that ends it |
| TokenizerFacts.CommandIsFirstWord | js/commander.js:470 | on success, the command is the upper-cased first word of the trimmed line |
| TokenizerFacts.ParseFailureOrigin | js/commander.js:433-435 | 0xB comes only from a non-blank character that no `begin` accepts |
| TokenizerFacts.InterpretParseFailure | js/commander.js:424-435 | `interpret` returns 0xB only when some character of the line is accepted by no type |
| TokenizerFacts.SkipBlanks | js/commander.js:438 | blanks after a separator are skipped |
| TokenizerFacts.UnknownFirstArgument | js/commander.js:433-435 | an argument starting with a character no type accepts fails with 0xB |
| TokenizerFacts.NameBlank | js/commander.js:357-364 | a name followed by a blank ends the name |
| TokenizerFacts.AfterName | js/commander.js:357-366 | the loop continues from the state after the name |
| TokenizerFacts.UnknownAfterName | js/commander.js:433-435 | after the name and blanks, an unaccepted character halts with 0xB |
| Encoding.JoinedSpaced | js/commander.js:327 | the rendered arguments plus the appended space are each argument followed by a space |
| Encoding.DefaultTypesChoose | js/commander.js:213-218 | the built-in registry picks types for a first character in the order number, bool, symbol, string, variable |
| Encoding.BlankEndedToken | js/commander.js:383-405 | a token whose rule ends on the blank after it is parsed and appended |
| Encoding.QuotedToken | js/commander.js:685-704 | a closed quoted string reads back as its contents |
| Encoding.CanonicalChoice | js/commander.js:650-671 | each canonical literal's first character selects its own type |
| Encoding.AfterAllArgs | js/commander.js:400-405 | after every token the loop holds those arguments, in order |
| Encoding.NumberToken | js/commander.js:650-658 | a canonical number literal followed by a blank is read back as that number |
| Encoding.BoolToken | js/commander.js:671-682 | `t`, `true`, `f` or `false` followed by a blank is read back as that boolean |
| Encoding.SymbolToken | js/commander.js:661-663 | an operator followed by a blank is read back as that symbol |
| Encoding.VariableToken | js/commander.js:665-667 | `$` and variable characters followed by a blank are read back as that variable, `$` included |
| Encoding.CanonicalToken | js/commander.js:378-468 | any canonical literal followed by a blank appends exactly its value; a string also leaves its quote in the flags |
| Encoding.OpenString | js/commander.js:685-701 | an opened string without its quote or a backslash keeps reading |
| Encoding.Escaped | js/commander.js:693-698 | after a backslash the string rule accepts every following character |
| Encoding.CanonicalTokens | js/commander.js:378-468 | the canonical literals, each followed by a space, read back as the arguments |
| Encoding.LitEnds | js/commander.js:391 | a canonical literal is non-empty and does not end in whitespace |
| Encoding.JoinedEnds | js/commander.js:322 | a rendered argument list neither starts nor ends with whitespace |
| Encoding.InterpretHaltAfterName | js/commander.js:316-474 | when the loop halts on the text after the name, `interpret` returns that code with no command and no arguments |
| Encoding.InterpretName | js/commander.js:355-367 | a line of just a name gives that name upper-cased and no arguments |
| Encoding.RenderInterpret | js/commander.js:316-474 | `interpret` of a line written from a name and canonical arguments returns success, the upper-cased name and exactly those arguments |
| Encoding.UnclosedStringDropped | js/commander.js:378-412 | a string never closed reads to the end of the line and is dropped: success with no arguments |
| Encoding.EscapeSwallowsLine | js/commander.js:692-701 | after a backslash the string never closes: the rest of the line is swallowed and the string is dropped |
| TokenErrors.MisparsedSymbol | js/commander.js:389-399 | symbol characters that do not form an operator make `interpret` return 0x7 |
| TokenErrors.GluedAfterString | js/commander.js:408-420 | a non-blank character after a closed string halts the loop with 0x5 |
| TokenErrors.TextAfterString | js/commander.js:415-420 | a string followed directly by more text makes `interpret` return 0x5 |
| TokenErrors.FinishedParseError | js/commander.js:383-457 | a token finished by a blank halts the loop with 0x7 exactly when its rule's parse is tagged error, for every rule |
| TokenErrors.EndClosesToken | js/commander.js:383-412 | a rule ending on a non-blank character closes the token, which waits for a blank |
| TokenErrors.GluedHalts | js/commander.js:415-421 | a non-blank character while a closed token waits halts with 0x5, for every rule |
| TokenErrors.GluedAfterEnd | js/commander.js:383-421 | the character that ends a rule followed by another non-blank character halts with 0x5 |
| TokenErrors.MisparsedToken | js/commander.js:383-399 | a first argument read up to the blank makes `interpret` return 0x7 exactly when its parse fails, and succeed otherwise |
| TokenErrors.MisparsedClosedToken | js/commander.js:437-457 | a first argument closed on its last character makes `interpret` return 0x7 when the parse of its text fails |
| TokenErrors.TextAfterToken | js/commander.js:415-421 | a first argument whose rule ended, followed directly by more text, makes `interpret` return 0x5 |
| TokenErrors.NumberGlued | js/commander.js:650-651 | `5ab` gives 0x5 |
| TokenErrors.BoolMisparsed | js/commander.js:671-682 | `tx` gives 0x7 |
| TokenErrors.MinusNeverSymbol | js/commander.js:650 | the minus selects the number rule, so the operator `-` gives 0x7 |
| TokenErrors.MinusAssignNeverSymbol | js/commander.js:650-656 | the operator `-=` gives 0x7 too |
| TokenErrors.ClosesOn | js/commander.js:383-412 | a non-blank character that ends the active rule is appended, and the token then waits for a blank |
| TokenErrors.ClosedBlankFinishes | js/commander.js:436-463 | a blank after a closed token completes it under its rule |
| TokenErrors.ClosedThenBlank | js/commander.js:383-463 | the closing character and then a blank complete the token, with the closing character in its text |
| TokenErrors.ClosedToBlankParsed | js/commander.js:351-468 | a first argument closed on a non-blank character and then a blank is finished with the whole text, the closing character included |
| TokenErrors.ParsedClosedToken | js/commander.js:316-474 | such an argument, when its parse succeeds, is the one argument `interpret` returns, with the trimmed text as its literal |
| TokenErrors.AstralNumberText | js/commander.js:650-658 | the number rule starts on `5` and ends on U+1F600, and `parseFloat` reads `5😀` as 5 |
| TokenErrors.AstralAfterNumber | js/commander.js:316-474 | `X 5😀` gives code 0 and the number 5 in the model, where the source's UTF-16 walk returns 0x5 |
| TokenErrors.AstralVariableText | js/commander.js:665-667 | the variable rule starts on `$`, keeps `a` and ends on U+1F600 |
| TokenErrors.AstralAfterVariable | js/commander.js:316-474 | `X $a😀` gives code 0 and the variable `$a😀` in the model, where the source returns 0x5 |
| TokenErrors.AstralAfterSymbol | js/commander.js:316-474 | `X +😀` gives 0x7 in the model, where the source returns 0x5 |
| Environment.Setvar | js/commander.js:240-242 | `setvar` adds exactly the upper-cased name to the keys |
| Environment.Exists | js/commander.js:229-231 | `exists`: the upper-cased name is a key |
| Environment.Getvar | js/commander.js:250-252 | `getvar` finds a value exactly when `exists` holds |
| Environment.CaseInsensitive | js/commander.js:229-252 | a name and its upper-cased form denote the same variable |
| Environment.SetThenGet | js/commander.js:240-252 | after `setvar`, any name that upper-cases alike reads back the new untyped-literal value |
| Environment.SetLeavesOthers | js/commander.js:240-252 | `setvar` leaves every other variable as it was |
| Environment.SetTwice | js/commander.js:240-242 | a second `setvar` of the same variable replaces the first |
| Binder.Union | js/commander.js:513-524 | the union of a syntax entry has at least one member |
| Binder.Check | js/commander.js:526-561 | a taken value's type is admitted by the union; a refusal is 0x2 or 0xA |
| Binder.SlotAt | js/commander.js:505-518 | a position is skipped exactly when it is optional with no argument; a taken one has both an entry and an argument |
| Binder.BindFromMapped | js/commander.js:505-562 | the loop maps exactly when every position passes, and it hands on the taken values in order |
| Binder.BindFromStops | js/commander.js:505-562 | a loop that does not map returns what its first non-passing position returns |
| Binder.FirstStopFrom | js/commander.js:505-562 | the first non-passing position decides the result |
| Binder.BindFrom | js/commander.js:505-562 | the loop from a position refuses only with 0x2, 0x3, 0x4 or 0xA, and when it maps it hands on one value per remaining argument |
| Binder.Bind | js/commander.js:498-565 | the check refuses only with 0x2, 0x3, 0x4 or 0xA, and when it maps the handler gets one value per argument |
| Binder.BindSpec | js/commander.js:498-565 | the handler runs exactly when arguments do not outnumber entries, every missing one is optional, and each argument passes its check; it then gets one checked value per argument |
| Binder.RefusalCodes | js/commander.js:505-561 | every refusal is 0x2, 0x3, 0x4 or 0xA |
| Binder.TooManyArguments | js/commander.js:508 | more arguments than entries, with every entry passing, is refused with 0x3 |
| Binder.MissingRequired | js/commander.js:512-518 | a missing required entry after passing positions is refused with 0x4 |
| Binder.CheckDirect | js/commander.js:548-561 | a non-substituted argument is taken when its type or `any` is in the union, else refused with 0x2 |
| Binder.CheckVariable | js/commander.js:530-545 | a variable for a union without `variable`: unknown name 0xA, inadmissible stored type 0x2, else the stored value |
| Binder.DollarKeyMisses | js/commander.js:533-536 | `$x` is looked up under `$X`, so `setvar("x")` is not found |
| Binder.SubstitutionThrows | js/commander.js:543 | as written, a substitution that passes every check throws |
| Binder.CheckAsWritten | js/commander.js:526-561 | as written, only a direct argument ever reaches the handler, and only when the union admits its type |
| Binder.AsWrittenElsewhereAgrees | js/commander.js:526-561 | away from that statement, the as-written check and the corrected one agree |
| CommandEngine.NewEngine | js/commander.js:189-219 | a new engine is idle, with no commands, no variables, an empty batch and the five built-in types |
| CommandEngine.Normalize | js/commander.js:299 | each syntax entry lower-cased, the length kept |
| CommandEngine.NormalizeAsWritten | js/commander.js:299 | as written, the normalised syntax is never empty |
| CommandEngine.LowerKeepsNul | js/commander.js:299 | lower-casing introduces no NUL |
| CommandEngine.NormalizeAgrees | js/commander.js:299 | for a non-empty syntax without NULs, join-lower-split equals lower-casing each entry |
| CommandEngine.NulEntrySplitAsWritten | js/commander.js:299 | as written, the entry `a\0b` becomes the two entries `a` and `b`, where `Normalize` keeps it as one |
| CommandEngine.EmptySyntaxAsWritten | js/commander.js:299 | as written, an empty syntax becomes `[""]` and then refuses a call without arguments with 0x4 |
| CommandEngine.RegisterCommand | js/commander.js:290-308 | the command is stored under its upper-cased name with lower-cased syntax and result type defaulting to `any`; it is listed unless `enumerated` is false; nothing else changes |
| CommandEngine.InterpretLine | js/commander.js:316-474 | only `current_cmd` and `current_args` change, both reset on error |
| CommandEngine.Execute | js/commander.js:481-566 | no command gives 0x0, an unlisted one 0x9, and only the variables and the cursor can change |
| CommandEngine.ExecuteBinds | js/commander.js:496-565 | the handler runs exactly on a mapped check, with the mapped values; a refusal returns its code unchanged |
| CommandEngine.HiddenCommandIsUnknown | js/commander.js:295-297 | a command registered with `enumerated: false` is unknown to `execute` |
| CommandEngine.ProducedNeverThrows | js/commander.js:530-533 | arguments from `interpret` never make the check throw |
| CommandEngine.Turn | js/commander.js:579-590 | one turn keeps the batch, the commands, the registry and `done`; what the handler sees is stated by `HandlerTurn` |
| CommandEngine.HandlerTurn | js/commander.js:579-590 | a line naming a listed command whose arguments pass runs the handler with the cursor already past the line, and the turn returns the handler's code, variables and cursor |
| CommandEngine.TurnNeverThrows | js/commander.js:579-590 | with the corrected check, a turn on lines from the batch never throws |
| CommandEngine.ManageAfterTurn | js/commander.js:579-590 | a turn that returns 0 hands the rest of the run to the engine it left |
| CommandEngine.ManageStopsAfterTurn | js/commander.js:585-589 | a turn that returns a non-zero code ends the run with that code |
| CommandEngine.Manage | js/commander.js:572-593 | `manage` keeps the batch, the commands, the registry and `done`; ending with 0 means the cursor reached the end |
| CommandEngine.FuelMonotone | js/commander.js:572-593 | more fuel never changes a run that finished |
| CommandEngine.ManageNeverCrashes | js/commander.js:572-593 | with the corrected check, `manage` never ends in a throw |
| CommandEngine.RunBatch | js/commander.js:607-618 | busy exactly when not idle; a report leaves the engine idle with the new batch; a stuck engine stays busy |
| CommandEngine.RunLine | js/commander.js:625-642 | busy exactly when not idle; a report leaves the engine idle with the batch untouched; it always completes |
| CommandEngine.NeverStuck | js/commander.js:607-642 | with the corrected check, neither entry point ever leaves the engine busy for good |
| CommandEngine.EmptyBatch | js/commander.js:607-618 | an empty batch reports 0 at once |
| CommandEngine.Describe | js/commander.js:136-164 | a description exists exactly for codes 0x0 to 0xB, and it is that code's message |
| CommandEngine.CodesDescribed | js/commander.js:136-164 | every code `interpret` and the check produce has a description, and none is 0x6 |
| Scenarios.NoOpTurn | js/commander.js:579-590 | a blank or comment line is a turn that returns 0 and moves the cursor by one |
| Scenarios.RejectedTurn | js/commander.js:581-585 | a line `interpret` rejects is a turn that returns its code with the cursor past it |
| Scenarios.UnknownTurn | js/commander.js:587-589 | a line naming an unlisted command is a turn that returns 0x9 |
| Scenarios.TurnIgnoresCommand | js/commander.js:318-319 | a turn does not depend on the command and arguments the previous line left |
| Scenarios.NoOpsThenStop | js/commander.js:579-590 | after no-op lines, the first turn with a non-zero code ends the batch with it |
| Scenarios.NoOpBatch | js/commander.js:572-593 | a batch of no-op lines finishes with 0 and the cursor at the end |
| Scenarios.StopsAtParseError | js/commander.js:581-585 | the first line `interpret` rejects ends the batch with its code, the cursor just past it |
| Scenarios.StopsAtUnknownCommand | js/commander.js:587-589 | the first line naming an unlisted command ends the batch with 0x9 |
| Scenarios.JumpBackNeverEnds | js/commander.js:577-581 | a handler, callable without arguments, that sets the cursor back onto its own line keeps `manage` running whatever the fuel |

## Left out

- Characters are Unicode scalar values, not the UTF-16 code units that the
  source's `line[i]` loop walks. A character above U+FFFF is one character
  in the model but a surrogate pair in the source. When a rule's end test
  fires on such a character, the source appends the high surrogate and then
  meets the low one with the rule still set, and returns 0x5 (the "different
  type" branch). The model instead closes the token with the whole character
  in it. So `X 5😀` and `X $a😀` succeed in the model, with the arguments
  `5` and `$a😀`, and `X +😀` gives 0x7 (`TokenErrors.AstralAfterNumber`,
  `TokenErrors.AstralAfterVariable`, `TokenErrors.AstralAfterSymbol`).
  Lines whose characters are all at or below U+FFFF are walked the same way
  in both.
- Host-defined types (subclasses of `Type` with their own `begin`, `end`
  and `parse`). The registry holds only the five built-in rules. They are
  `Kind` values, and they read and write only the flags that the built-in
  rules use.
- Types.Parse: the number payload is the decimal text that `parseFloat`
  reads. Its conversion to an IEEE double, exponents and `Infinity` are not
  modelled.
- Text.Upper: case mapping covers ASCII letters only. Unicode case mapping is
  not modelled.
- Text.Lower: as for `Text.Upper`, ASCII letters only.
- The promises of `execute`, `manage`, `runBatch` and `runLine` run to
  completion in sequence. Interleaving with other browser events is not
  modelled.
- A handler that throws, and what `onerror` does. `onerror` is an empty hook
  and is replaced by the reported code.
- Handlers change only the variables and the cursor, not the commands, the
  batch or the type registry.
- A handler's return value is an integer code. Non-numeric returns are not
  modelled.
- The cursor is a natural number. A handler setting a negative line, which
  makes `batch[-1]` undefined and `trim` throw, is not modelled.
- `error_code`, `whitespace` and `comment` as instance fields. The first is
  never read. The other two are fixed to their static defaults.
- CommandEngine.Manage: a fuel bound stands in for unbounded looping. Running
  out of fuel is an outcome of its own (`OutOfFuel`) and is reported as
  `Pending` by `RunBatch`.
- CommandEngine.RegisterCommand: stores the corrected `Normalize` syntax.
  As written, an empty syntax becomes `[""]` (see "## Findings"), and an
  entry holding a NUL is split at it into several entries. Each case is
  stated separately, by `EmptySyntaxAsWritten` and `NulEntrySplitAsWritten`.
  The two normalisations agree on every other syntax (`NormalizeAgrees`).
- CommandEngine.Execute: checks arguments with the corrected `Check`. As
  written, a variable substitution that passes its checks throws (see
  "## Findings"), so the source's `execute` rejects there, and `runBatch` and
  `runLine` then leave `done` false. `TurnNeverThrows`, `ManageNeverCrashes`
  and `NeverStuck` do not hold for the code as written.
- The minus is accepted by both the number rule and the symbol rule, and the
  number rule is tried first, so the operators `-` and `-=` never reach the
  symbol rule and a line using them fails with 0x7
  (`TokenErrors.MinusNeverSymbol`, `TokenErrors.MinusAssignNeverSymbol`).
  The model keeps this behaviour, because the intended one is not evident
  from the source.
- `vector.js`, `physics.js`, `sprite.js` and `main.js` are not part of this
  model.
- Some quirks are modelled as written, because they are not clearly
  unintended:
  - an unclosed string is dropped silently (`Encoding.UnclosedStringDropped`);
  - a backslash makes a string swallow the rest of the line
    (`Encoding.EscapeSwallowsLine`);
  - a variable keeps its `$` when looked up (`Binder.DollarKeyMisses`).
- Types are tried in registry order, highest priority first, which is what
  `typedef` builds. The model follows the code here rather than the
  documented "ascending priority".
- Registry.Typedef: among equal non-negative priorities the newest type
  comes first, because the search at js:267 skips only strictly higher
  entries. This is not the documented "ties in registration order"
  (`Registry.TypedefTiesNewestFirst`). The correction moves the insertion
  point but keeps that comparison.
- Registry.TypedefKeepsOrder: `Ordered` constrains priorities only and says
  nothing about the order of ties; `TypedefTiesNewestFirst` states it.

## Findings

| source | as written | input that shows it | evidently intended | confidence | as-written member | corrected member |
|---|---|---|---|---|---|---|
| js/commander.js:269 | `splice(i - 1, 0, type)` inserts one place before the first entry of lower or equal priority, and, when that entry is the first one, `splice(-1, …)` inserts before the last entry | registry [number 5, bool 3] and a symbol type of priority 7 gives [number 5, symbol 7, bool 3] | insert at `i`, before the first entry of priority not above the new one, so the registry stays sorted | not executed | Registry.AsWrittenBreaksOrder | Registry.TypedefKeepsOrder |
| js/commander.js:299 | `[].join('\0').toLowerCase().split('\0')` is `[""]`, so a command declared with no parameters gets one required parameter of type "" | `registerCommand({syntax: []})`, then the command with no arguments, is refused with 0x4 | the empty syntax stays empty and the call runs its handler | not executed | CommandEngine.EmptySyntaxAsWritten | CommandEngine.Normalize |
| js/commander.js:543 | `env_vars[id]` names an undeclared variable and throws a ReferenceError | an argument `$X` with `X` set, for a syntax entry `number`, after `setvar("$x", 1, "number")` | `this.env_vars[id]`: the stored value is passed to the handler | not executed | Binder.SubstitutionThrows | Binder.CheckVariable |
