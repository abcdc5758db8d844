# A verified model of tabnas/jsonl

JSON Lines is read, rendered and streamed by three small machines that are
meant to agree: `ts/src/jsonl.ts` adds two rules to a strict-JSON rule engine,
`alchemy/render.alc` writes a tree's events as lines, and
`alchemy/transduce.alc` turns the reader's rule passes back into events. Beside
them the repository holds a C library's value walk and handle registry
(`go/clib/core.go`), a dependency checker with its own TOML reader
(`tools/port-deps.cjs`) and two exact text transformations
(`ts/scripts/vale-counts.cjs`, `ts/embed-translate.js`). This project models
those parts in Dafny and proves what they promise.

`dafny verify dfyconfig.toml` verifies everything.

## What is where

**The JSON Lines pipeline.** `Text` and `Trees` hold text (UTF-16 code units),
trees, their events and their compact print. `Render` is the pushdown machine of
`render.alc`; `RenderProofs` relates it, event by event, to the part of a
document read so far, and `RenderTheorems` draws the conclusions: which event
lists render, to what, what a writer has released when a run stops part way,
and which stacks occur. `Lexer` is the token level with `#LN` significant;
`LexerProofs` shows where lexing splits. `Grammar` is the rule engine (ordered
alternates, two tokens of lookahead, push against replace, node building);
`Descent` is an independent reading of tokens as trees, proved sound and
complete; `Machine` and `Documents` show the engine runs exactly as the descent
does; `DocumentLines` and `Sources` derive line splitting from it, though no
alternate mentions a newline inside a value; `ErrorPlaces` locates errors;
`Stacks` bounds the rule stack; `Transduce` maps passes to events; `RoundTrip`
closes the diagram text, tree, events, text. `JsonText` relates the lexer and
grammar to RFC 8259 stated as a relation, and `Reader` is the imperative parser,
a class proved against `Grammar`. `LineEndings` and `SourceTexts` say which
characters end lines, separate tokens and spell values, by their codes and on
whole sources.

**The C library.** `GoValues` is a finite heap of containers that may be shared
and may be cyclic; `Walks` gives the walk's answer as a function and compares it
with the unfolding of the value, spot by spot; `MapOrder` and `MapReasons` say
exactly when Go's map order can show, and when it is the encoder's own reason
that shows; `UnsafeWalk` is the walk as it runs, with one `onPath` set that is
extended and restored. `Utf8` says which bytes are UTF-8 by encoding scalar values,
and `WalkLaws` what the walk answers at each kind of value, apart from how it is
walked. `Registry` is the protocol of loads, parses and frees, one
lock operation, variable access or engine call per step, for any number of
threads, with a panic's unwinding and recovery as steps of their own;
`RegistryProofs` holds its invariants and guarantees, `RegistryRuns` what holds
over whole runs and which runs there are, `RegistryCalls` what each call is
answered with.

**The dependency checker.** `TomlText` says how the reader moves through text;
`TomlReader` is the reader as it runs (cursor, line counter, tree changed in
between), and `TomlBreaks` says on which texts its counter is one short when it
throws. `TomlGrammar` is the language it reads, as a relation by character between
a text and its statements; `TomlAccepts` and `TomlYields` show that the reader
reads exactly that, and `TomlComments` that comments and blank lines change
nothing. `TomlTrees` is what statements do to the tree, and `TomlRules` exactly
which statements it takes. `TomlStrings` and
`TomlPrint` write strings, keys, values and statements out as text and show that
the reader reads them back, up to lines; `TomlLines` shows that lines do not
matter to what is built; `TomlNormal` joins the two into a normal form for every
text that is read. `TomlBindings` and `TomlSpelling` relate statements to the tree
they leave, `TomlForms` and `TomlTexts` apply that to the three ways of writing
one binding, as statements and as texts, and `TomlGrowth` covers arrays of tables
too. `PortFold` and `Cargo` read dependencies; `CargoLaws`, `CargoPorts`
and `CargoTexts` say what a manifest declares and what its port's lists are, by key
paths, by bindings and on texts. `Compare` is the comparison with the register and
`CompareLaws` its pass condition in the file's own words; `GoHeader` is the
build-constraint scan, `GoHeaderLaws` and `GoHeaderFiles` its lines and whole files. `Orders` is the string
order both languages use.

**The text transformations.** `ValeJoin` and `ValeCounts` are the joined-text map
and the right-to-left edits, `ValeJoinLaws` the joined text itself; `Embed` is the
template-literal escaper (`EmbedLaws` by character), with a
reading of template literals after sections 12.9.4 and 12.9.6 of ECMA-262
(14th edition).

## What was found

- A map whose keys are not strings is walked in the order Go gives its keys, so
  the reason the walk reports can depend on that order
  (`MapOrder.OtherKeysKeepTheOrder`); the comment at go/clib/core.go:431-433 holds
  for string keys (`MapOrder.ReasonIgnoresOrder`). For one map it holds exactly
  when all its offending entries offend alike (`MapOrder.OtherKeysExactly`), and
  for a whole value exactly when one reason can reach the top
  (`MapReasons.ReasonSettled`), which is also exactly when the reason is sure to be
  that of the encoder's own order (`MapReasons.EncoderReason`). Whether a value is
  let through never depends on the order (`MapOrder.AcceptanceIgnoresOrder`).
- A lookup after a free can succeed when the free came before the load that was
  given the handle (`RegistryRuns.FreeBeforeLoad`); `RegistryProofs.LookupExact`
  says exactly when a lookup succeeds, and `RegistryRuns.FreedIsGone` that
  nothing is found after a free until a load is given that handle again.
- Handles are 64-bit, so two loads are answered with the same one exactly when a
  multiple of 2^64 loads lies between them (`RegistryProofs.HandlesRepeat`), and
  there are runs in which this happens (`RegistryRuns.HandleRepeats`).
- The TOML reader's line counter is one more than the line feeds passed when it
  ends or throws, save in one case: it takes the line feed after a backslash in a
  one-line basic string without counting it, and then throws
  (`TomlReader.Reader.Read`, `TomlBreaks.BreakExample`). The line it reports is
  then the backslash's own.
- Two edits of one column come out as intended when the one listed later takes
  nothing (`ValeCounts.EditLines`); listed the other way round, one edit takes what
  the other has just put there (`ValeCounts.TakesTheInserted`). No caller makes an edit that takes nothing
  (ts/scripts/vale-counts.cjs:192-224).
- A text embedded as a template literal reads back as itself exactly when it has
  no carriage return (`Embed.TsStringReadsBack`); otherwise each carriage return,
  with a line feed after it or not, comes back as one line feed.

## Assumptions

- The engine, its strict-JSON rules and alchemy's library are not part of the
  repository. The rule machine follows the alternates' own notation; the base
  rules have the shape ts/test/debug-model.test.ts:79-89 states, for the values
  of sections 2 to 7 of RFC 8259. `@push$` with no child built adds nothing. On
  failure the offending token is the first token of the lookahead that no
  alternate matched. An empty source is refused, as `lex.empty` is off.
- `quoted` writes a string as section 7 of RFC 8259 allows, escaping the quote,
  the backslash and control characters; a finite number prints its own lexeme.
- Object members are kept as ordered lists, repeats included.
- In the walk, a path key (address, length, type) determines a container's
  contents, and `utf8.Valid` is section 4 of RFC 3629. An entry of a map whose keys
  are not strings carries the text the encoder writes for its key.
- `sort` and `Set` of the languages' libraries are taken by what they return; a
  file's lines, where a scan works on lines, are its text split at line feeds.

## Model

| member | source | states |
|---|---|---|
| RenderTheorems.RenderAccepts | alchemy/render.alc:159-204 | An event list renders exactly when it is the events of some array-rooted tree |
| RenderTheorems.TreesRender | alchemy/render.alc:159-204 | The text is each root element's compact print and a line feed, or one line feed for none |
| RenderTheorems.LinearInjective | alchemy/render.alc:164-199 | The tree behind accepted events is unique |
| RenderTheorems.RefusalCode | alchemy/render.alc:151-181 | The refusal is unrepresentable exactly when the first event is an object start or a scalar |
| RenderTheorems.ScanReads | alchemy/render.alc:86-193 | After any events, also ones that then fail, the machine has read their longest beginning that begins a document; the writer has released exactly the completed elements' lines, with one more record end than elements |
| RenderTheorems.ReachableStacks | alchemy/render.alc:37-193 | Every reachable stack is empty, root-done, or lines at the bottom with only containers in use below the top, as high as the containers are open |
| RenderTheorems.DocumentAbsorbed | alchemy/render.alc:164-199 | A tree's events, taken one by one, complete exactly that tree |
| RenderProofs.StepFollows | alchemy/render.alc:75-193 | A step accepts an event exactly when it fits the tree so far, and then writes, holds back and pushes what that tree says |
| RenderProofs.AbsorbLinear | alchemy/render.alc:164-193 | The part of a document read so far has exactly the events taken |
| Transduce.TreePassesLinear | alchemy/transduce.alc:21-29 | The rule passes of a value map to the value's events, repeated members as written |
| Documents.DocumentRuns | ts/src/jsonl.ts:95-153 | The engine accepts exactly what the descent reads, with that array, its passes mapping to that array's events however often record replaced itself; otherwise both stop at the same token |
| Documents.RecordsRun | ts/src/jsonl.ts:124-153 | From any record, with any records before it, the machine does what the descent over records does |
| Machine.ValueRuns | ts/test/debug-model.test.ts:79-89 | A value's rules push, replace and build exactly the tree the descent reads, above any stack |
| Machine.ItemsRun | ts/test/debug-model.test.ts:79-89 | Replacing elem by elem appends each item to the same array |
| Machine.MembersRun | ts/test/debug-model.test.ts:79-89 | Replacing pair by pair sets each member of the same object, in order |
| Descent.ParseValueSound | ts/test/debug-model.test.ts:79-89 | What is read as a tree is that tree's tokens |
| Descent.ParseValueComplete | ts/test/debug-model.test.ts:79-89 | Every tree's tokens are read as it, whatever follows them |
| Descent.TreeTokensInjective | ts/test/debug-model.test.ts:79-89 | Tokens determine the tree |
| Descent.ParseValueStuck | ts/test/debug-model.test.ts:79-89 | A refusal leaves a place inside or at the end of the tokens |
| Grammar.StepDecreases | ts/src/jsonl.ts:95-153 | Every pass takes a token or lowers a phase weight, so every run ends |
| Stacks.StackIsBounded | ts/src/jsonl.ts:115-152 | At the start of every record the rule stack has height two; in one it is linear in the record's nesting |
| Stacks.StepKeeps | ts/src/jsonl.ts:95-153 | Every pass of every rule keeps the stack well stacked |
| Stacks.HeightIsLinear | ts/src/jsonl.ts:115-152 | The height depends on the open containers and the top rule only |
| DocumentLines.RecordsAreLines | ts/src/jsonl.ts:124-153 | An accepted document's filled token lines are its records, one value each |
| DocumentLines.LinesAreRecords | ts/src/jsonl.ts:124-153 | A document whose filled lines are all values is accepted |
| DocumentLines.StuckOnFirstBad | ts/src/jsonl.ts:124-153 | A rejected document is stuck on its first line that is no value, or at its end |
| LexerProofs.LexAtBoundary | ts/src/jsonl.ts:48-59 | With #LN significant, texts on the two sides of a line boundary lex independently |
| LexerProofs.PlaceAtBoundary | ts/src/jsonl.ts:48-59 | Token places on the two sides are independent too |
| Sources.RefinesLineSplitting | ts/src/jsonl.ts:95-153 | A non-empty source is accepted exactly when every non-blank line is one value by itself, and gives those values in order |
| Sources.LineAlone | ts/src/jsonl.ts:115-140 | One non-blank line is accepted exactly when it is a record, as that one record |
| Sources.ReadOfRecords | ts/src/jsonl.ts:95-153 | The result depends on the non-blank lines alone |
| Sources.Concatenation | ts/src/jsonl.ts:125-152 | Two non-empty sources joined by a line break are accepted exactly when both are, with the records of one and then the other |
| Sources.BlankLinesChangeNothing | ts/src/jsonl.ts:125-139 | Any mix of blank and whitespace-only lines at a line boundary changes nothing |
| Sources.BlankLinesAtStart | ts/src/jsonl.ts:106-139 | Nor do such lines at the very start of a source; before the empty text they make an accepted source without records |
| Sources.BlankLinesAtEnd | ts/src/jsonl.ts:125-152 | Nor do they after a last line, whether or not it had a line break of its own |
| LineEndings.LineEndingsAgree | ts/src/jsonl.ts:89-94 | A source without carriage returns reads the same with every line feed written as a carriage return and a line feed, or as a carriage return |
| LineEndings.LineEndsExactly | ts/src/jsonl.ts:48-59 | A character between two values makes them two records exactly if it is 10 or 13 |
| LineEndings.SpacesExactly | ts/src/jsonl.ts:48-59 | A character before a value is passed over exactly if it is 32, 9, 10 or 13 |
| SourceTexts.CrLfSource | test/spec/separators.tsv:8 | Two objects on lines that end in CR LF read as two records |
| SourceTexts.MemberRead | test/spec/values.tsv:15 | An object with one member, by its characters |
| SourceTexts.ListRead | test/spec/values.tsv:14 | An array of two digits, by its characters |
| ErrorPlaces.ErrorLocality | ts/src/jsonl.ts:230-235 | The offending token is on, or ends, the first line that is no record; its row is one plus the line feeds before it; every earlier non-blank line is a record |
| ErrorPlaces.RowCounts | ts/src/jsonl.ts:230-235 | The row counted token by token is one plus the line feeds before the place |
| LineEndings.LineFeedsCounted | ts/src/jsonl.ts:230-235 | The line feeds counted are the characters 10 |
| ErrorPlaces.FirstBadUnique | ts/src/jsonl.ts:124-153 | The first bad line is one line |
| Reader.Choose | ts/src/jsonl.ts:95-152 | Ordered choice finds the first alternate that matches, or none where none does |
| Reader.Parser.Process | ts/src/jsonl.ts:95-153 | One pass, done in place, is the machine's step |
| Reader.Parser.ParseAll | ts/src/jsonl.ts:95-153 | The loop is the machine's run and ends |
| Reader.ParseSource | ts/src/jsonl.ts:233-235 | parse gives the records exactly when every non-blank line is one value, and refuses the empty source |
| JsonText.RecordsAreJson | ts/src/jsonl.ts:42-47 | A line is a record of a tree exactly when it is a JSON text of it by RFC 8259 |
| JsonText.ReadsJsonLines | ts/src/jsonl.ts:115-153 | A non-empty source reads to some values exactly when its non-blank lines are JSON texts of them, in order |
| JsonText.LexedIsSpelled | ts/src/jsonl.ts:42-59 | What the lexer takes is a spelling of its tokens by RFC 8259 |
| JsonText.SpelledIsLexed | ts/src/jsonl.ts:42-59 | Every spelling of a tree's tokens is lexed as them |
| SourceTexts.NumbersExactly | ts/src/jsonl.ts:42-47 | A text is a number exactly if its characters are those of section 6 of RFC 8259, spelled by code, and then it reads as that number |
| SourceTexts.EscapesExactly | ts/src/jsonl.ts:42-47 | A string of a backslash and one character reads as one character exactly by the eight rows of section 7 of RFC 8259 |
| Lexer.NumberSizeSound | ts/src/jsonl.ts:44-47 | The number matcher takes a number of section 6 of RFC 8259 |
| RoundTrip.PrintLexed | alchemy/render.alc:123-149 | A tree's print lexes to the tokens of the tree with its non-finite numbers null |
| RoundTrip.RenderThenRead | alchemy/render.alc:159-204 | Rendering any array-rooted tree and reading the text gives its elements back, non-finite numbers null, the empty array through a lone line feed |
| RoundTrip.ReadThenRender | alchemy/transduce.alc:21-29 | Reading, transducing and rendering a source gives a document that reads to the same records |
| Walks.WalkAccepts | go/clib/core.go:304-315 | The walk reports nothing exactly when the unfolding ends and every string, key and raw fragment is UTF-8 and no number is big |
| Walks.WalkReports | go/clib/core.go:335-484 | Otherwise its reason is that of the first offending spot in encoder order |
| Walks.WalkQuiet | go/clib/core.go:335-484 | A walk that reports nothing has passed over every spot of the unfolding |
| Walks.CycleIsEndless | go/clib/core.go:366-387 | A value is a reference to itself somewhere exactly when its unfolding has no end, so a shared acyclic part never is |
| Walks.Smaller | go/clib/core.go:366-395 | Each step down leaves fewer containers off the path or less inline, so the walk ends on any finite heap |
| Utf8.Utf8Exactly | go/clib/core.go:335-353 | The bytes the walk lets through are exactly the concatenated encodings of lists of scalar values, one to four bytes each |
| WalkLaws.LeafLaw | go/clib/core.go:335-364 | A string or raw fragment is let through exactly if it is UTF-8; a big number never is |
| WalkLaws.ArrayLaw | go/clib/core.go:451-458 | An array answers its first element that reports anything |
| WalkLaws.StructLaw | go/clib/core.go:463-484 | A struct answers the first of its fields that is not tagged away, is exported or an embedded struct, and reports anything |
| WalkLaws.RefLaw | go/clib/core.go:368-449 | A reference: nil, bytes and an empty slice pass, one on the path is a cycle, any other answers the first report of what it holds, a map's string keys in ascending byte order and each before its value |
| MapOrder.SortForgetsOrder | go/clib/core.go:434-439 | Sorting distinct keys forgets the order they came in |
| MapOrder.ReasonIgnoresOrder | go/clib/core.go:431-449 | With string keys only, the reason does not depend on map order |
| MapOrder.AcceptanceIgnoresOrder | go/clib/core.go:434-449 | Whether a value is let through never depends on map order |
| MapOrder.OtherKeysKeepTheOrder | go/clib/core.go:434-449 | With other keys the reason can depend on it: two orders of one map, two reasons |
| MapOrder.OtherKeysExactly | go/clib/core.go:434-449 | The reason for one map with other keys is the same in every order exactly when all entries that offend below it offend with one reason |
| MapOrder.EncoderOrder | go/clib/core.go:431-449 | It is that of the encoder's order, whatever Go's, exactly under the same condition |
| MapReasons.ReasonsExactly | go/clib/core.go:335-449 | The reasons the walk can give over all orders of all maps are exactly those found by choosing any offending entry of each map with other keys |
| MapReasons.ReasonSettled | go/clib/core.go:335-449 | A whole value's reason does not depend on map order exactly when there is only one such reason |
| MapReasons.EncoderReason | go/clib/core.go:431-449 | The reason is that of the encoder's order for every map, whatever Go's, exactly then |
| UnsafeWalk.Walker.Value | go/clib/core.go:335-364 | The answer for a value, with onPath as it was before |
| UnsafeWalk.Walker.Container | go/clib/core.go:368-395 | A container is put on the path around its walk and taken off on every return |
| UnsafeWalk.Walker.OrderedNode | go/clib/core.go:419-429 | The object node is walked as it is emitted: each key, then its value |
| UnsafeWalk.Walker.Entries | go/clib/core.go:434-449 | A map's entries, string keys sorted and each before its value |
| UnsafeWalk.Walker.Elems | go/clib/core.go:451-458 | Elements in order |
| UnsafeWalk.Walker.Fields | go/clib/core.go:463-484 | Exactly the fields that are emitted, in order |
| UnsafeWalk.JsonUnsafe | go/clib/core.go:304-315 | The whole check, from an empty path |
| UnsafeWalk.AcceptDoc | go/clib/core.go:247-266 | The reply has the value only if walk and encoder let it through, the reason otherwise, never both |
| Registry.Wrap | go/clib/core.go:60-63 | A load's number in 64 bits |
| RegistryProofs.StepKeeps | go/clib/core.go:60-63 | Every step of every thread keeps locks, holders, numbers, table and choices consistent |
| RegistryProofs.OneParseEach | go/clib/core.go:229-231 | At most one thread is inside an instance's parse |
| RegistryProofs.WritersAlone | go/clib/core.go:181-185 | Nobody writes the table while anybody else reads or writes it |
| RegistryProofs.HandlesRepeat | go/clib/core.go:181-185 | In every reachable state, of the handles loads have been answered with, two are the same exactly when a multiple of 2^64 loads lies between them, and none are while there have been no more than 2^64 |
| RegistryProofs.EachHandleReturned | go/clib/core.go:181-186 | Every load's answer is the handle of its own issue in the history, in 64 bits |
| RegistryRuns.LoadsReach | go/clib/core.go:163-186 | There are runs with any number of loads answered |
| RegistryRuns.HandleRepeats | go/clib/core.go:181-185 | A reachable state in which the first handle has been given again |
| RegistryProofs.LookupExact | go/clib/core.go:221-224 | A lookup finds exactly the instance last issued under the handle, and nothing once it has been freed |
| RegistryProofs.ParseUsesItsOwn | go/clib/core.go:221-231 | A parse past its lookup uses the instance its handle named then and the parser it was made with, even if freed meanwhile |
| RegistryProofs.MutexReleased | go/clib/core.go:229-231 | The engine can come back or panic at any time; a panic is recovered in the next step, and the step after a return or a recovery is open and releases the mutex |
| RegistryProofs.NoMutexOutside | go/clib/core.go:229-231 | In every reachable state a thread holds an instance's mutex only while parsing with, unwinding from or leaving that instance |
| RegistryProofs.NoDeadlock | go/clib/core.go:163-231 | While a call is under way some call can take a step, also where waiting writers go before new readers |
| RegistryRuns.FreedIsGone | go/clib/core.go:495-499 | After a free no lookup finds the handle until a load is given it again |
| RegistryRuns.FreeBeforeLoad | go/clib/core.go:495-499 | A free before the load that is given the handle does not count |
| RegistryCalls.LoadStarts | go/clib/core.go:163-180 | A load is refused as usage exactly if its options are given and are not an empty object, else as grammar exactly if that cannot be built, and a refused load touches nothing |
| RegistryCalls.ParseReplies | go/clib/core.go:229-240 | Whatever other threads do, the reply is accepted for a value, not accepted for a rejection, an internal failure for an internal error or a panic |
| RegistryCalls.ParseWithout | go/clib/core.go:221-227 | A parse under a handle with no instance is answered so and leaves all as it was |
| RegistryCalls.ParseWith | go/clib/core.go:221-229 | A parse under a handle comes to parse with the instance it names, holding that instance's mutex and no lock |
| TomlReader.Reader.Read | tools/port-deps.cjs:476-489 | The reader throws exactly where the text is no document or its statements build no tree; else it ends at the end with that tree. Ending or throwing, the counter is one more than the line feeds passed, and one short of that exactly where the text breaks in a one-line string |
| TomlComments.ReadsExactly | tools/port-deps.cjs:265-490 | The reader reads a text as some statements exactly if the grammar, stated by character, relates the two, but for lines |
| TomlComments.RefusedExactly | tools/port-deps.cjs:265-490 | It refuses a text as a document exactly if the grammar relates it to no statements |
| TomlAccepts.Accepts | tools/port-deps.cjs:265-490 | Every text of the grammar is read as its statements |
| TomlYields.Yields | tools/port-deps.cjs:265-490 | What is read is a text of the grammar for those statements |
| TomlComments.CommentChangesNothing | tools/port-deps.cjs:275-283 | A comment line before a document changes neither whether it parses nor its tree, but for lines |
| TomlComments.GapChangesNothing | tools/port-deps.cjs:275-291 | Nor do any blank lines and comments |
| TomlComments.StatementLayout | tools/port-deps.cjs:275-291 | Nor do other ones before a statement and at the end of its line |
| TomlComments.LaidReads | tools/port-deps.cjs:275-291 | Statements laid out with any blank lines and comments before each and any comment at the end of each one's line read as those statements |
| TomlComments.ItemLayout | tools/port-deps.cjs:388-400 | Nor around an item of a list |
| TomlComments.PairLayout | tools/port-deps.cjs:401-417 | Nor around a pair of an inline table |
| TomlComments.CommentsEverywhere | tools/port-deps.cjs:275-291 | A text with the same comment before a statement, at its line's end, at a list's start and after an item parses as the text without |
| TomlBreaks.BreaksRefused | tools/port-deps.cjs:268-308 | A text that breaks, by a backslash and a line feed in a one-line basic string where the reader comes to it, is refused |
| TomlBreaks.BreakExample | tools/port-deps.cjs:293-308 | A quote, a backslash and a line feed break |
| TomlReader.Reader.Value | tools/port-deps.cjs:384-430 | A value is read and built in step, the cursor moving on |
| TomlReader.Reader.ListItems | tools/port-deps.cjs:388-400 | An array's loop, items built as they are read |
| TomlReader.Reader.InlinePairs | tools/port-deps.cjs:401-417 | An inline table's loop, pairs assigned as they are read |
| TomlReader.Reader.Key | tools/port-deps.cjs:346-363 | A dotted key's parts |
| TomlReader.Reader.String | tools/port-deps.cjs:310-344 | A string of either quote, on one line or several |
| TomlReader.Reader.LongString | tools/port-deps.cjs:313-334 | Line feeds inside a string and in swallowed line ends are counted |
| TomlReader.Reader.Escape | tools/port-deps.cjs:293-308 | An escape; where it is refused the cursor passes the end by at most one, and the counter is one short exactly when a line feed followed the backslash |
| TomlReader.Reader.Gap | tools/port-deps.cjs:277-283 | Whitespace, comments and newlines, each newline counted |
| TomlReader.Reader.EndOfLine | tools/port-deps.cjs:284-291 | Nothing but a comment before the line's end |
| TomlReader.Reader.Header | tools/port-deps.cjs:434-474 | A header opens its table and makes it the current one |
| TomlReader.Reader.Bind | tools/port-deps.cjs:480-488 | A statement's value goes to the current table |
| TomlStrings.PlainString | tools/port-deps.cjs:310-344 | A string of either quote without escapes is exactly what stands between its quotes |
| TomlStrings.EscapedString | tools/port-deps.cjs:293-344 | Every text, lone surrogates included, has a spelling that reads back as it |
| TomlPrint.KeyReads | tools/port-deps.cjs:346-363 | A printed key, bare or quoted part by part, is read as its parts |
| TomlPrint.ValueReads | tools/port-deps.cjs:310-430 | A printed value, wherever it stands and however deep, is read as that value and no further |
| TomlPrint.PrintReads | tools/port-deps.cjs:277-489 | Printed statements are read as those statements, but for lines |
| TomlPrint.PrintParses | tools/port-deps.cjs:265-490 | Parsing a print gives the tree the statements build, or refuses where they build none |
| TomlNormal.SpelledExactly | tools/port-deps.cjs:277-489 | Statements are read from some text exactly when their bare values have the shape the reader takes and their keys have parts |
| TomlNormal.PrintKeeps | tools/port-deps.cjs:265-490 | Printing what a text was read as changes neither its statements nor its tree, and printing again gives the same text |
| TomlNormal.SpellingsParseAlike | tools/port-deps.cjs:265-490 | Texts read as the same statements, however laid out, are refused together or parse to one tree, but for lines |
| TomlLines.BuildAlike | tools/port-deps.cjs:367-489 | Lines do not matter to what statements build, or to whether they do |
| TomlReader.BuildStuck | tools/port-deps.cjs:476-489 | A document whose statements fail so far fails whatever follows, so reading and building in step is the same as one after the other |
| TomlRules.AssignExactly | tools/port-deps.cjs:367-382 | A key is set exactly where nothing stands yet, through tables that are not inline |
| TomlRules.HeaderExactly | tools/port-deps.cjs:434-474 | A header opens its table exactly where nothing stands yet, where a table stands that nothing has defined, or for an array's header where an array stands; on its way stand only tables that are not inline and last tables of arrays |
| TomlRules.AssignAtExactly | tools/port-deps.cjs:480-488 | A binding is taken exactly where the table of the last header, or its array's last one, takes it |
| TomlRules.SecondHeader | tools/port-deps.cjs:434-474 | The same header is refused the second time unless both are an array's |
| TomlRules.KeyMarks | tools/port-deps.cjs:367-382 | A dotted key defines the tables it makes |
| TomlRules.WayMarks | tools/port-deps.cjs:434-474 | A header leaves the tables it makes on its way undefined |
| TomlRules.InlineSealed | tools/port-deps.cjs:401-417 | An inline table is never opened again |
| TomlBindings.BuildHolds | tools/port-deps.cjs:367-489 | A document that reads leaves exactly the bindings its statements write: each value where it is written, tables at and on the way to everything else |
| TomlBindings.LookAssign | tools/port-deps.cjs:367-382 | An assignment adds what it assigns and the tables on the way, changes nothing else, and nothing stood where it goes |
| TomlBindings.LookHeader | tools/port-deps.cjs:434-474 | A header makes tables only, and no value stood on its way |
| TomlBindings.LookAssignAt | tools/port-deps.cjs:432-487 | Statements go to the table of the last header |
| TomlSpelling.SpellingIndependence | tools/port-deps.cjs:367-489 | Two documents without arrays of tables leave the same tree, up to lines and flags, exactly when they bind the same values and empty tables to the same key paths |
| TomlForms.ThreeSpellings | tools/port-deps.cjs:367-489 | The statements of a binding under a header, as a dotted key and in an inline table all build, to one tree |
| TomlTexts.ThreeTexts | tools/port-deps.cjs:256-261 | Any texts of the three spellings parse, to one tree |
| TomlTexts.ThreeLiteralTexts | tools/port-deps.cjs:256-261 | For bare keys p and q and a plain string s, so do `[p]` over `q = "s"`, `p.q = "s"` and `p = { q = "s" }`, character by character |
| TomlGrowth.StepGrows | tools/port-deps.cjs:434-487 | A statement, arrays of tables included, only adds; inline tables are never reopened; its value stands in the current table |
| TomlGrowth.BuildGrows | tools/port-deps.cjs:476-489 | The final tree holds all that any of the first statements built |
| PortFold.Fold | tools/port-deps.cjs:142-158 | The four lists, sorted without repeats: runtime ids but the port's own, those optional in every declaration, development ids not among them, names outside the org |
| PortFold.FoldIsOneResult | tools/port-deps.cjs:122-158 | The lists depend on the declarations and not on their order |
| PortFold.GatherNext | tools/port-deps.cjs:145-152 | One declaration more: optional stays only while every declaration is |
| Orders.Uniq | tools/port-deps.cjs:122-124 | A list's elements once each, in string order |
| Orders.OneList | tools/port-deps.cjs:121-124 | A set has one such list |
| Orders.LessExactly | tools/port-deps.cjs:121-124 | One text is below another exactly if it is a proper beginning of it or is below it where they first part |
| Cargo.Reader.Dependency | tools/port-deps.cjs:524-545 | One dependency by its spelling: version string or table, renamed or optional, else refused |
| Cargo.Reader.TableEntries | tools/port-deps.cjs:522-548 | A dependency table's declarations, in whatever order its entries come |
| Cargo.Reader.ScopeTables | tools/port-deps.cjs:551-559 | The three tables of a scope, with the older spelling where it applies |
| Cargo.Reader.TargetTables | tools/port-deps.cjs:561-569 | The same under every target |
| Cargo.ReadRs | tools/port-deps.cjs:502-573 | The port a manifest describes, and exactly which manifests are refused |
| Cargo.SameBindingsSamePort | tools/port-deps.cjs:502-573 | Two manifest texts that bind the same give the same dependencies, however they are spelled |
| CargoLaws.ManifestReads | tools/port-deps.cjs:502-573 | A manifest is refused exactly by what stands at its key paths: a package without a name, a table that is none, an entry that is neither a string nor a table, one inherited, one with a package or optional of another kind, or an underscore table from the 2024 edition on |
| CargoLaws.ManifestLaw | tools/port-deps.cjs:502-573 | A name is declared for run time or development exactly by an entry of a dependency table that counts, at the root or under a target: a version string under that key, or a table that names it by `package`, or has the key and no `package`; it is optional exactly if `optional = true` stands there |
| CargoPorts.CrateLaw | tools/port-deps.cjs:80-86 | A crate names a repository exactly if it is `tabnas-` and one or more characters, none a slash or white space |
| CargoPorts.TextLaw | tools/port-deps.cjs:502-573 | From the text: the port's four lists are exactly the repositories and names declared at the tree's key paths |
| CargoPorts.BindingsLaw | tools/port-deps.cjs:502-573 | The same by what the text's statements bind, without arrays of tables |
| CargoTexts.ManifestReadsSo | tools/port-deps.cjs:522-559 | A manifest's text, character by character, with one dependency in any of the three tables, plain, renamed or renamed and optional, reads as that declaration |
| CargoTexts.PortOfText | tools/port-deps.cjs:142-158 | Its port has that one repository as runtime, optional or development dependency and nothing else |
| Compare.Compare | tools/port-deps.cjs:894-996 | Exactly the problems that are due are reported, and none exactly when ports and register agree; the rows are all runtime ids with their holders, the differences those held by some but not all |
| Compare.NothingDue | tools/port-deps.cjs:894-996 | No problem is due exactly when all ports name one repository, the register is well formed, its ids are those held by some but not all ports, and each entry lists the holders with a reason and a repair |
| Compare.FewerHold | tools/port-deps.cjs:942-943 | Fewer holders than ports means some have it and some do not |
| Compare.IdProblems | tools/port-deps.cjs:945-993 | The problems of one id |
| Compare.NameProblems | tools/port-deps.cjs:900-913 | The problems of the ports' names |
| Compare.RegisterProblems | tools/port-deps.cjs:914-932 | The problems of the register's shape |
| CompareLaws.HoldersExactly | tools/port-deps.cjs:936-940 | The ports listed with an id are exactly those that are there and have it at run time, those listed as optional have it as optional too, both in the order of their names |
| CompareLaws.EntryExactly | tools/port-deps.cjs:964-990 | An entry is right exactly if its keys are ports, reason and repair, its ports are the ascending list of the holders' names, and the other two say something besides white space |
| CompareLaws.AgreedExactly | tools/port-deps.cjs:894-996 | The pass condition is that of the two files as they are written, key by key |
| GoHeader.GoIgnored | tools/port-deps.cjs:661-701 | The one-pass scan answers as the header's definition does |
| GoHeader.OneAnswer | tools/port-deps.cjs:649-660 | The definition of the header gives a file one answer |
| GoHeader.ScanComments | tools/port-deps.cjs:676-691 | The inner loop, with its trimming and searching, classifies a line as a character-by-character reading does |
| GoHeader.OnlyTheHeaderCounts | tools/port-deps.cjs:649-660 | The answer depends only on the lines up to the first text that is no comment |
| GoHeader.StarEnded | tools/port-deps.cjs:666-676 | A block comment can be open only after the leading line comments have ended |
| GoHeaderLaws.TrimExactly | tools/port-deps.cjs:663 | Trimming leaves the one middle part between white space that begins and ends with none |
| GoHeaderLaws.GoBuildExactly | tools/port-deps.cjs:671 | A line is a `//go:build` line exactly if it is that text alone or with a space or tab and anything after it |
| GoHeaderLaws.GoBuildIgnoresExactly | tools/port-deps.cjs:693 | It says ignore exactly if only white space stands around that word |
| GoHeaderLaws.PlusBuildExactly | tools/port-deps.cjs:694-699 | A line is a `// +build ignore` line exactly by its parts and the white space between them |
| GoHeaderFiles.GoBuildDecides | tools/port-deps.cjs:649-701 | A file with one such line before its code is ignored exactly if it says ignore, whatever follows |
| GoHeaderFiles.TwoRefused | tools/port-deps.cjs:671-674 | With two it is refused |
| GoHeaderFiles.PlusBuildCounts | tools/port-deps.cjs:657-660 | A comment line and a blank line before the code: ignored exactly if it is a `// +build ignore` line |
| GoHeaderFiles.DocCommentKept | tools/port-deps.cjs:657-660 | Without the blank line it is kept |
| GoHeaderFiles.BlockCommentKept | tools/port-deps.cjs:676-691 | A line inside a block comment does not count |
| ValeCounts.EditLines | ts/scripts/vale-counts.cjs:149-154 | Applied right to left in place, edits that are apart, or share a column the later-listed takes nothing of, give each line with all its spans replaced at once |
| ValeCounts.TakesTheInserted | ts/scripts/vale-counts.cjs:149-154 | Listed the other way round, an edit takes the text another has just put at its column |
| ValeCounts.SortKeepsPlace | ts/scripts/vale-counts.cjs:150 | The sort keeps edits of one place in the order they were listed |
| ValeCounts.OneEdit | ts/scripts/vale-counts.cjs:150-152 | With the later edits of a line made, the next to the left finds its span where it was |
| ValeCounts.FromAlike | ts/scripts/vale-counts.cjs:150 | The order edits are listed in does not matter, save among edits of one column |
| ValeJoin.Join | ts/scripts/vale-counts.cjs:107-118 | The text and its map, entry by entry |
| ValeJoin.PointsAtItself | ts/scripts/vale-counts.cjs:104-118 | Every entry of the map that is not null points at its own character in its line |
| ValeJoin.EntryStands | ts/scripts/vale-counts.cjs:107-118 | Every character of every line's body is in the text |
| ValeJoin.Landing | ts/scripts/vale-counts.cjs:104-106 | A stretch without spaces stands whole in one line at the place its first character points at, so a rewrite lands on it |
| ValeJoinLaws.JoinedText | ts/scripts/vale-counts.cjs:107-118 | The text is that of the lines' bodies, a space between them once there is any: what follows a leading number sign and one space or tab |
| Embed.OnePass | ts/embed-translate.js:52-57 | The three replacements in turn are one pass |
| Embed.ReadsBack | ts/embed-translate.js:52-57 | Escaped text reads back with no substitution, early close or refused escape |
| Embed.TsStringReadsBack | ts/embed-translate.js:52-57 | The literal reads back as the text exactly when the text has no carriage return |
| EmbedLaws.UnitEscaped | ts/embed-translate.js:52-57 | By itself exactly a backslash and a backtick get a backslash before them |
| EmbedLaws.DollarEscaped | ts/embed-translate.js:52-57 | A dollar sign does exactly before a brace |

## Left out

- Reader.Parser.Process: frames and nodes are values, so the aliasing of a node's array between frames is not captured.
- Walks.WalkReports: for maps whose keys are not strings the order is the one Go gave the keys in that walk; MapReasons says when that is the encoder's.
- UnsafeWalk.JsonUnsafe: a panic of the reflection library, and the answer for it, are not modelled.
- RegistryProofs.NoDeadlock: fairness is not modelled, so a call may wait for ever while others go on.
- TomlReader.Reader.Read: which message a refusal carries, and whether it names the counter's line or the line a string or statement began on, is not stated.
- TomlSpelling.SpellingIndependence: arrays of tables are outside it, as their items have no key path; TomlGrowth covers them.
- Cargo.ReadRs: which of several refusals comes first, and the manifest's path in messages, are not modelled; which manifests are refused is CargoLaws.ManifestReads.
- Compare.Compare: the wording and the order of problems are not stated; JSON.stringify is taken to tell lists of strings apart.
- The engine, the strict-JSON plugin, alchemy's library, and grammar options other than the ignore set: outside the repository or settled in one place.
- `go/jsonl.go`, `rs/src/lib.rs` and the generated translation copies: the same alternates and text again.
- `assertStrictJsonBase`, version constants, manifests, error wording, option plumbing: each is one branch.
- The C shim, `MarshalJSON` methods, `errPayload` and `isInternal`: foreign calls.
- `readTs`, `parseGoMod`, `goImports`, file walking and the table output of the dependency checker: lists read from JSON, tokens of two simple formats and input or output.
- Running Vale, finding claims by regular expression and inserting missing counts.
