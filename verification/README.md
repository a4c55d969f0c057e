# Yasumu: verified models

Yasumu is an API workbench. Its workspaces are stored as text in a small language (YSL), its requests are filled in from
environments, executed with user scripts in worker threads, and answered over HTTP or as server-sent event streams. This project
models seven parts of it and proves what each of them is for.

Every part that the source writes as updates in place is here twice: as an imperative method or class of the same shape, and as a
function or a step relation that the method is proved to implement. The properties are lemmas about the functions and hold for all
inputs, all runs and all interleavings. Where the source does not keep a property, a lemma names the case that fails and another states,
as an equivalence, exactly when the property does hold.

| part | modules |
|---|---|
| The YSL language: lexer, scanner, parser, serializer, embedded code blocks | `CodeUnits`, `YslScanner`, `YslTokens`, `YslCode`, `YslSchema`, `YslRoundTrip`, `YslMachine` |
| Three-way reconciliation: canonical text, hash, recursive merge | `JsonText`, `StableHash`, `Reconciliation` |
| Interpolation and redaction | `JsonTree`, `Replacing`, `Interpolation`, `Redaction` |
| Server-sent events: the incremental parser and the reconnecting consumer | `Sse`, `SseStream` |
| Script sessions: the Node session and the script worker | `NodeSession`, `NodeSessionMachine`, `ScriptWorker`, `ScriptWorkerMachine` |
| Workspaces and executions: group forests, stored workspaces, lifecycle events of executions side by side | `Groups`, `Workspaces`, `WorkspaceServices`, `Lifecycle`, `LifecycleRuns`, `LifecycleService` |
| Cookies: Set-Cookie, the repository, the Cookie header | `Cookies`, `CookieJar` |
| Shared by several of them | `Wrappers` |

Text is a sequence of UTF-16 code units. JavaScript's 32-bit arithmetic in the hash is written out. Clocks, generated ids, date parsing,
collation order, sockets, timers and workers are parameters or events that may come at any time.

In the two session classes every handler is a method whose contract is the step of the same name in the state machine; the table lists
those with a loop or with several branches, and the lemmas about the steps.

`dafny verify dfyconfig.toml` covers the whole project.

## Where the code keeps less than one might expect

Each of these is a lemma of the model, with the exact condition beside it.

- A required object member of the null type whose value is null is skipped by the serializer, and the text it wrote is refused by the parser
  (`YslRoundTrip.RequiredNullIsLost`). `YslRoundTrip.ScriptReadsBack` states exactly which scripts come back.
- The numeric string escapes accept decimal digits only, so a string that JSON quoting writes with a hexadecimal letter
  (section 7 of RFC 8259) is not read back (`YslTokens.QuoteReadsBack`).
- A line end of two units that arrives in two chunks counts as two line ends (`Sse.CutLineEndIsSeen`; `Sse.ChunksDoNotMatter` says what any
  cutting does). Such a cut is never seen, whatever follows, if and only if no event is open there: `Sse.CutIsHarmlessExactly` for one cut
  behind harmless ones, `Sse.CutsAreUnseenExactly` for all cuts of a stream.
- Against section 9.2.6 of the HTML Living Standard an unfinished last event is dispatched (`Sse.UnfinishedIsDispatched`), and the event name
  outlives a blank line without data (`Sse.NameOutlivesBlock`). `Sse.PrescribedExactly` states which texts are read as the standard
  prescribes.
- A secret that goes on where the marker ends, or that the marker continues, can be spelled again by its own redaction.
  `Redaction.SingleSecretIsExact` states for which secrets of any shape that happens; an overlap alone is not enough
  (`Redaction.OverlapMayBeHarmless`).
- A Node session that is disposed while a call is past its checks and has a worker that may serve it runs that call afterwards
  (`NodeSession.DisposeIsFinal`). The exit of a worker settles the running request whether or not it runs on that worker, and a clean exit
  never does (`NodeSession.ExitSettlesExactly`, `NodeSession.StaleExitHappens`). A signal that fires during the start is not noticed
  (`NodeSession.AbortEndsExactly`).
- Terminating a script worker that is starting leaves its callers waiting for good (`ScriptWorker.ResetStrands`,
  `ScriptWorker.WaitsForeverUnlessCurrent`), and a late message or caller can leave the terminated mode without a worker
  (`ScriptWorker.HasWorkerExactly`).
- A workspace service writes back its whole snapshot and so loses concurrent updates (`Workspaces.FinishForgets`,
  `Workspaces.FinishLosesExactly`); a group may change its kind under its entities, or take the id of one
  (`Workspaces.KindChangeIsAccepted`, `Workspaces.UpsertKeepsModelExactly`).
- An execution whose history cannot be saved after its completion emits a second terminal event (`Lifecycle.EmittedFollowsExactly`). Nothing
  waits for the host calls of a hook: a nested execution can be announced and reported under the id of an execution that has ended
  (`LifecycleRuns.ReportsTooLate`, `LifecycleRuns.FinishedFollowsExactly`, `LifecycleRuns.EveryRunFollowsExactly`).
- A host-only cookie of a host that begins with a dot never matches its own URL (`Cookies.OwnUrlMatchesExactly`). Of two responses that set
  the same new cookie at the same time the second is refused (`CookieJar.SecondIsRefused`, `CookieJar.UpsertRefusedExactly`).

## Model

| member | source | states |
|---|---|---|
| `YslTokens.QuoteReadsBack` | packages/schema/src/scanner.ts:113-202 | A string written by JSON quoting is read back as that string, with nothing behind it consumed, exactly if none of its units needs an escape with a hexadecimal letter; otherwise the token is illegal |
| `YslTokens.QuoteBodyReadsBack` | packages/schema/src/parsable/string.ts:15-26 | The same for the rest of a string whose beginning was read already, for every suffix of the string |
| `YslTokens.UnicodeEscapeReadsBack` | packages/schema/src/scanner.ts:135-158 | A numeric escape of a control unit or a surrogate is understood exactly if its digits are all decimal |
| `YslTokens.IdentifierReadsBack` | packages/schema/src/serializer.ts:24-29 | A key, bare or between backticks, is read back as an identifier with that name exactly if it holds no backtick and is no reserved word, whatever follows it |
| `YslTokens.IdentifiersHoldNoBacktick` | packages/schema/src/scanner.ts:221-246 | No text at all scans to an identifier with a backtick in it, so such a key cannot be written in any way |
| `YslTokens.BareWordReadsBack` | packages/schema/src/scanner.ts:204-219 | A word of identifier units scans to its keyword, inherited or identifier token and leaves exactly the text behind it |
| `YslTokens.IntReadsBack` | packages/schema/src/scanner.ts:62-95 | The decimal text of every integer is one number token with that literal |
| `YslTokens.AnnotationReadsBack` | packages/schema/src/scanner.ts:248-261 | An annotation is read back exactly if it consists of identifier units |
| `YslTokens.WhiteSkipped` | packages/schema/src/scanner.ts:13-25 | Whitespace in front of a token changes neither the token nor the text behind it |
| `YslScanner.ReadTokenShrinks` | packages/schema/src/scanner.ts:13-60 | Every token but the end of the text takes at least one unit, and the end is reported only when nothing is left |
| `YslCode.CodeBlockReadsBack` | packages/schema/src/parsable/code.ts:10-144 | The seven-mode scan of a serialized block stops at the brace that the serializer wrote, with exactly the serializer's text in hand, if and only if the trimmed body with a newline leads from the clean state back to code mode at depth 0 without an unmatched closing brace |
| `YslCode.IndentSimulation` | packages/schema/src/parsable/code.ts:20-139 | On the re-indented text the scan mirrors the scan of the original in mode, depth, template stack and escapes, and stops inside the body exactly if the original does |
| `YslCode.RegexVerdictIgnoresIndent` | packages/schema/src/parsable/code.ts:146-154 | Whether a slash starts a regular expression does not change when spaces are put behind newlines |
| `YslCode.ReadBackIsReindented` | packages/schema/src/parsable/code.ts:156-165 | The body that comes back is, trimmed, the trimmed original with every later line shifted by the indentation |
| `YslCode.LinesAreShifted` | packages/schema/src/parsable/code.ts:159-161 | Writing the lines one by one with an indentation is the same as putting the indentation behind every newline of the whole text |
| `YslCode.CodeRunSplits` | packages/schema/src/parsable/code.ts:20-139 | The scan loses, adds and reorders nothing: what it has taken, followed by what it left, is its input |
| `YslRoundTrip.ScriptReadsBack` | packages/schema/src/parsable/script.ts:35-104 | For every well-typed script, deserializing its serialized text gives the reloaded blocks if and only if the blocks are printable and the annotation consists of identifier units |
| `YslRoundTrip.ReloadIsSame` | packages/schema/src/parsable/script.ts:46-55 | The reloaded value is the written one up to re-indented code: same lists in order, same records with their keys in order, same object members, absent nullable members null, absent optional members absent |
| `YslRoundTrip.RequiredNullIsLost` | packages/schema/src/parsable/object.ts:89-94 | A concrete well-typed script with a required null member that does not come back |
| `YslRoundTrip.ValueReadsBack` | packages/schema/src/actions.ts:23-33 | For every schema and value of its type, at every depth and before every delimited rest: parsing the written text returns the reloaded value and stops right behind it if and only if the value is printable |
| `YslRoundTrip.CodeReadsBack` | packages/schema/src/parsable/code.ts:10-165 | The same for code blocks, where printable means a clean body; the parser resumes at the token behind the block |
| `YslRoundTrip.ListReadsBack` | packages/schema/src/parsable/list.ts:19-52 | The same for lists, with the trailing comma that the serializer writes |
| `YslRoundTrip.ItemsReadBack` | packages/schema/src/parsable/list.ts:23-26 | The same in the middle of the list loop, for every list of items read before |
| `YslRoundTrip.RecordReadsBack` | packages/schema/src/parsable/record.ts:21-59 | The same for records; a key that is not good makes the text fail or give something else |
| `YslRoundTrip.EntriesReadBack` | packages/schema/src/parsable/record.ts:24-32 | The same in the middle of the record loop, for every set of distinct keys read before |
| `YslRoundTrip.ObjectReadsBack` | packages/schema/src/parsable/object.ts:33-105 | The same for objects with required, nullable and optional members |
| `YslRoundTrip.MembersReadBack` | packages/schema/src/parsable/object.ts:38-54 | The same in the middle of the member loop, for the members of an object and for the blocks of a script |
| `YslRoundTrip.FillCompletes` | packages/schema/src/parsable/object.ts:45-54 | Completing the members that were written gives exactly the reloaded object if no required member was skipped, and an error otherwise |
| `YslMachine.Lexer.Advance` | packages/schema/src/lexer.ts:18-27 | Takes exactly the first unread unit |
| `YslMachine.Lexer.SkipWhitespace` | packages/schema/src/lexer.ts:29-33 | Leaves exactly the unread text without its leading whitespace |
| `YslMachine.Scanner.ReadToken` | packages/schema/src/scanner.ts:13-60 | Returns the token, and leaves the text, of the token function about which the read-back lemmas are proved |
| `YslMachine.Scanner.ReadString` | packages/schema/src/scanner.ts:113-202 | The loop with its escape flag ends with the token and the rest of the string function, illegal endings included |
| `YslMachine.Scanner.ReadNumber` | packages/schema/src/scanner.ts:62-95 | Digits, fraction and exponent as the number function takes them, and not a unit more |
| `YslMachine.Scanner.ReadRawIdentifier` | packages/schema/src/scanner.ts:221-246 | The identifier between backticks, or an illegal token when the closing one is missing |
| `YslMachine.Parser.Advance` | packages/schema/src/parser.ts:21-25 | Hands out the held token and holds the next one of the unread text |
| `YslMachine.Parser.Consume` | packages/schema/src/parser.ts:48-51 | Moves on over an expected token; on any other token fails and leaves the parser where it was |
| `YslMachine.Parser.ParseCode` | packages/schema/src/parsable/code.ts:10-144 | The block that the code function reads from the raw text behind the held token, after which lexer and parser are in step again |
| `YslMachine.Parser.ScanCode` | packages/schema/src/parsable/code.ts:20-139 | The loop over the raw units takes and leaves what the code machine takes and leaves |
| `YslMachine.TakeTurn` | packages/schema/src/parsable/code.ts:24-138 | One turn of the loop: the branches on mode, escape, character class, depth and template stack give the turn of the code machine |
| `YslMachine.Parser.Parse` | packages/schema/src/parser.ts:17-19 | For every schema the outcome and the new state of the parser are those of the parse function |
| `YslMachine.Parser.ParseList` | packages/schema/src/parsable/list.ts:19-29 | The loop with its flag parses the list that the function parses, or fails with its error |
| `YslMachine.Parser.ParseRecord` | packages/schema/src/parsable/record.ts:21-35 | The loop parses the record that the function parses, duplicate keys refused |
| `YslMachine.Parser.ParseObject` | packages/schema/src/parsable/object.ts:33-56 | Parses the object that the function parses |
| `YslMachine.Parser.ParseMembers` | packages/schema/src/parsable/object.ts:35-44 | The loop over the members and the completion after it, for objects and for scripts |
| `YslMachine.Parser.ParseEntry` | packages/schema/src/parsable/object.ts:58-70 | One member: duplicate and unknown keys refused, then colon and value |
| `YslMachine.Parser.FillMissing` | packages/schema/src/parsable/object.ts:45-54 | The loop over the keys that are left: null for nullable, an error for required, nothing for optional members |
| `YslMachine.Parser.ParseScript` | packages/schema/src/parsable/script.ts:35-57 | Annotation, blocks and completion as the script function reads them |
| `YslMachine.Serializer.Serialize` | packages/schema/src/serializer.ts:12-22 | Writes the text of the serialize function and puts depth and key path back |
| `YslMachine.Serializer.SerializeCode` | packages/schema/src/parsable/code.ts:156-165 | The loop over the lines writes the block whose scan is proved to come back |
| `YslMachine.Serializer.SerializeList` | packages/schema/src/parsable/list.ts:35-52 | Writes the list text of the serialize function and puts depth and key path back |
| `YslMachine.Serializer.SerializeRecord` | packages/schema/src/parsable/record.ts:41-59 | Writes the record text of the serialize function and puts depth and key path back |
| `YslMachine.Serializer.SerializeObject` | packages/schema/src/parsable/object.ts:76-105 | Writes the object text of the serialize function, absent members skipped, and puts depth and key path back |
| `YslMachine.Serializer.SerializeScript` | packages/schema/src/parsable/script.ts:83-104 | Writes the annotation and the blocks that are present |
| `YslMachine.Deserialize` | packages/schema/src/actions.ts:23-28 | The whole pipeline on a text has the outcome of the deserialize function that the round trip is proved about |
| `YslMachine.SerializeText` | packages/schema/src/actions.ts:30-33 | A fresh serializer writes the text that the round trip is proved about |
| `JsonText.StringifyUnique` | packages/headless/src/reconciliation.ts:136-144 | The canonical text determines the value: equal texts, up to whatever may follow a value, come from equal values, for all nested arrays, objects and escaped strings |
| `JsonText.IsEqualDecidesEquality` | packages/headless/src/reconciliation.ts:118-120 | Comparing canonical texts decides equality of the values; a present value never has the text of an absent one |
| `StableHash.ComputeHash` | packages/headless/src/reconciliation.ts:122-134 | The loop over the units returns the hash function of the text, the 32-bit signed arithmetic written out |
| `StableHash.StepIsIndependent` | packages/headless/src/reconciliation.ts:126-132 | The carry of a step is always 0, so neither word ever depends on the other |
| `StableHash.StepIsInjective` | packages/headless/src/reconciliation.ts:127-131 | A step of the low word is injective in the word and in the unit |
| `StableHash.HighDependsOnLength` | packages/headless/src/reconciliation.ts:130-130 | The high word depends only on how many units were read |
| `StableHash.RunKeepsDifference` | packages/headless/src/reconciliation.ts:126-132 | Low words that differ stay different under any further equal input |
| `StableHash.PaddedHexIsFixed` | packages/headless/src/reconciliation.ts:133-133 | Padding the shortest hexadecimal form on the left gives exactly the fixed number of digits of the word |
| `StableHash.HashIsFixed` | packages/headless/src/reconciliation.ts:133-133 | The hash is the two words in sixteen hexadecimal digits |
| `StableHash.OneUnitNeverCollides` | packages/headless/src/reconciliation.ts:122-134 | Two texts of the same length that differ in exactly one unit have different hashes |
| `Reconciliation.MergeInto` | packages/headless/src/reconciliation.ts:89-112 | The recursive merge that fills one shared conflict list returns the merged value of the merge function and appends exactly its conflicts |
| `Reconciliation.MergeIsRight` | packages/headless/src/reconciliation.ts:89-112 | A merge without conflicts is right at every key path of any depth: the source's value where base and database agree, the database's where base and source agree, the common one where both sides agree |
| `Reconciliation.ConflictsAreReal` | packages/headless/src/reconciliation.ts:96-110 | Every reported conflict sits where all three values differ pairwise and are not all records, below records only, and carries the three values found there |
| `Reconciliation.ConflictingIsReported` | packages/headless/src/reconciliation.ts:100-110 | Every such path is reported |
| `Reconciliation.ConflictsAreInOrder` | packages/headless/src/reconciliation.ts:100-106 | Conflicts come in key order, so that no path is reported twice |
| `Reconciliation.SwapSides` | packages/headless/src/reconciliation.ts:89-112 | Swapping source and database leaves the merged value alone and swaps the two roles in the conflicts |
| `Reconciliation.ReconcileThreeWay` | packages/headless/src/reconciliation.ts:28-70 | The method with all its shortcuts returns the status, value, conflicts and revisions of the reconcile function |
| `Reconciliation.ShortcutsAreSound` | packages/headless/src/reconciliation.ts:37-54 | If the hashes of the compared values do not collide, no shortcut changes the outcome: value and conflicts are those of the plain recursive merge |
| `Reconciliation.ReconcileIsExact` | packages/headless/src/reconciliation.ts:28-112 | Under the same condition the reported conflicts are exactly the conflicting paths, in order, and a result without conflicts is right at every path |
| `Reconciliation.ReconcileSwaps` | packages/headless/src/reconciliation.ts:28-112 | Swapping source and database swaps the roles in the conflicts and keeps the merged value |
| `Interpolation.TextIsFinal` | packages/headless/src/interpolation.ts:61-82 | Whatever text interpolation returns holds no remaining expression, for texts and values that hold no NUL and no backslash before a brace or at the end, and missing names not preserved |
| `Interpolation.FixedPoint` | packages/headless/src/interpolation.ts:72-81 | A text that expands to itself holds no expression: the test that ends the recursion can succeed for no other reason |
| `Interpolation.InterpolateTextTwice` | packages/headless/src/interpolation.ts:39-41 | Interpolating a returned text again, even with other values, changes nothing |
| `Interpolation.InterpolateValueTwice` | packages/headless/src/interpolation.ts:35-37 | Interpolating a returned value again changes nothing, keys included, at every depth |
| `Interpolation.ValueIsSettled` | packages/headless/src/interpolation.ts:43-59 | Every text and every key of a returned value is free of expressions, however deep it sits |
| `Interpolation.InterpolateRecord` | packages/headless/src/interpolation.ts:47-56 | The loop that fills the result object gives the value of the interpolation function, later entries with an equal key included |
| `Interpolation.EscapedTextComesBack` | packages/headless/src/interpolation.ts:61-82 | A text whose openings are all escaped comes back as it was before the escaping, whatever the values are |
| `Interpolation.MatchHasShape` | packages/headless/src/interpolation.ts:6-6 | A match of the expression is two braces, blanks, a name, blanks and two braces, and yields that name |
| `Interpolation.MatchStays` | packages/headless/src/interpolation.ts:6-6 | A match does not depend on the text behind it |
| `Interpolation.FinalIsFixed` | packages/headless/src/interpolation.ts:61-82 | A text without expressions and escapes is returned as it is, by every interpolator |
| `JsonTree.FromEntriesUnique` | packages/headless/src/interpolation.ts:139-142 | Entries with equal keys collapse to one |
| `JsonTree.FromEntriesIdentity` | packages/headless/src/interpolation.ts:48-55 | Entries with distinct keys are a record's own entries, in their order |
| `Redaction.SingleSecretIsExact` | packages/headless/src/interpolation.ts:130-134 | For a secret of any shape: every text is redacted clean if and only if neither of secret and marker holds the other, the secret does not go on where a marker ends, and every end of it that is a beginning of the marker is a beginning of the secret too |
| `Redaction.SecretIsGone` | packages/headless/src/interpolation.ts:132-132 | Under that condition no occurrence of the secret is left, inside, before or behind any marker |
| `Redaction.SecretReturns` | packages/headless/src/interpolation.ts:132-132 | Without it there is a text whose redaction holds the secret, in each of the four ways |
| `Redaction.RedactValueIsClean` | packages/headless/src/interpolation.ts:136-145 | If every secret is apart from the marker, or holds a secret that is, then no key and no string at any depth holds any secret after redaction |
| `Redaction.RedactionIsExact` | packages/headless/src/interpolation.ts:126-134 | For every list in which each secret is a part of the marker or holds one that is apart from it: every text is redacted clean if and only if no secret is a part of the marker |
| `Redaction.PartOfMarkerShows` | packages/headless/src/interpolation.ts:126-134 | Whatever the other secrets are: with a secret that is a part of the marker some text is not redacted clean |
| `Redaction.BracketFreeIsExact` | packages/headless/src/interpolation.ts:126-134 | In particular, for secrets without brackets: if and only if none is a part of the word in the marker |
| `Redaction.ReplacingIsClean` | packages/headless/src/interpolation.ts:132-132 | Replacing one secret creates no occurrence of a text that is apart from the marker, and leaves none of the secret itself if it is apart |
| `Redaction.RedactTwice` | packages/headless/src/interpolation.ts:136-145 | Redacting a redacted value changes nothing |
| `Redaction.SecretsAreOrdered` | packages/headless/src/interpolation.ts:126-128 | Secrets are kept once each, longest first, none empty |
| `Redaction.SecretRedactor.RedactText` | packages/headless/src/interpolation.ts:130-134 | The loop that reassigns the text gives the redaction function of all secrets |
| `Redaction.BracketedSecretReturns` | packages/headless/src/interpolation.ts:130-134 | An instance: a secret that begins with the last unit of the marker comes back in some text |
| `Redaction.OrderMatters` | packages/headless/src/interpolation.ts:126-134 | The same two secrets of equal length: replaced in one order they are gone from every text, in the other one comes back |
| `Redaction.OverlapMayBeHarmless` | packages/headless/src/interpolation.ts:130-134 | An instance: a secret that ends where the marker begins, and yet is always redacted clean |
| `Sse.ChunksDoNotMatter` | packages/headless/src/sse.ts:131-195 | However a text is cut into chunks, the parser hands out the events and retries of the joined text, in which a line end that a cut separates counts as two |
| `Sse.SameTextSameEvents` | packages/headless/src/sse.ts:131-195 | Two ways of cutting the same text, none inside a line end, give the same events and retries, those of the whole text in one chunk |
| `Sse.ReadIsLookBack` | packages/headless/src/sse.ts:145-194 | The parser reads every text as a reference reading does that composes every event by looking back over the lines from its end |
| `Sse.CutLineEndIsSeen` | packages/headless/src/sse.ts:166-168 | A two-unit line end cut in two turns one event of two lines into two events |
| `Sse.CutIsHarmlessExactly` | packages/headless/src/sse.ts:166-168 | A line feed cut off from its carriage return makes no difference, whatever comes after it, if and only if no event is open at the cut; the chunks before may be cut in any harmless way |
| `Sse.CutsAreUnseenExactly` | packages/headless/src/sse.ts:131-195 | For every cutting of a stream: none of its cut line ends is ever seen, whatever follows each of them, if and only if no event is open at any of them |
| `Sse.CutsAreHarmless` | packages/headless/src/sse.ts:131-195 | A stream cut anywhere, also inside line ends where no event is open, gives the events and retries of the whole text |
| `Sse.PrescribedExactly` | packages/headless/src/sse.ts:145-194 | The parser reads a text as section 9.2.6 of the HTML Living Standard prescribes if and only if no event is open at its end, the piece behind the last line end is neither data nor a retry, and no event takes its name across a blank line without data |
| `Sse.UnfinishedIsDispatched` | packages/headless/src/sse.ts:190-194 | An instance: one data line that nothing ends is handed out as an event, where the standard prescribes none |
| `Sse.NameOutlivesBlock` | packages/headless/src/sse.ts:145-158 | For every name: a block with that name and no data gives the name to the event of the next block, which the standard does not prescribe |
| `Sse.SplitOn` | packages/headless/src/sse.ts:167-168 | Splitting goes on from the last line: lines kept so far, then the lines of the last line with the new text |
| `Sse.SplitJoin` | packages/headless/src/sse.ts:166-168 | The buffer and the next chunk give the lines that the joined text gives |
| `Sse.UncutJoins` | packages/headless/src/sse.ts:166-168 | Chunks that cut no line end join to their plain concatenation |
| `SseStream.Parser.ReadLine` | packages/headless/src/sse.ts:169-189 | One line changes the fields of the parser and hands out events and retries as the line function says |
| `SseStream.Parser.DispatchEvent` | packages/headless/src/sse.ts:145-158 | A dispatch without data changes nothing, not even the event name; with data it hands out the event and clears data, name and retry |
| `SseStream.ReadLines` | packages/headless/src/sse.ts:169-189 | The loop over the lines of a chunk, left early when the consumer is full, has received exactly what the lines so far deliver |
| `SseStream.Consumer.Take` | packages/headless/src/sse.ts:92-101 | Retries are recorded in order, unwanted events skipped, wanted ones kept |
| `SseStream.ConsumeResponse` | packages/headless/src/sse.ts:82-103 | Over all chunks: what is received are the first wanted events of the joined text, up to the limit, with the retries seen until then |
| `SseStream.ReceivesFirst` | packages/headless/src/sse.ts:92-101 | The events received are the wanted ones in order, cut at the limit |
| `SseStream.ConsumeSse` | packages/headless/src/sse.ts:31-80 | The reconnect loop leaves the log of the run function: events, ids handed over, waits, retries, ending |
| `SseStream.RunIsSafe` | packages/headless/src/sse.ts:39-71 | Over any sequence of connections: never more events than wanted, all of wanted types, the last id and the last retry remembered |
| `SseStream.RunIsComplete` | packages/headless/src/sse.ts:61-69 | No event is lost, repeated or reordered across connections: they are the first ones offered, up to the limit |
| `SseStream.OpenedWithLastId` | packages/headless/src/sse.ts:62-67 | Every attempt is handed the id of the last event delivered before it |
| `SseStream.WaitedAsTold` | packages/headless/src/sse.ts:56-70 | Every wait lasts what the last retry seen before it says, or the configured time |
| `SseStream.ReadIsSticky` | packages/headless/src/sse.ts:140-184 | Once there is an id, every later event of the stream carries one |
| `NodeSession.EveryRunKeepsInv` | packages/runtime-node/src/runtime.ts:100-309 | In every run: at most one request is pending and the head of the queue runs it, registered ids are the disjoint settled and pending ones, calls settle in call order, timers and listeners exist exactly for the pending request as its call asked |
| `NodeSession.EachRequestOnce` | packages/runtime-node/src/runtime.ts:291-309 | In every run each registered request is pending or settled, never both, and settled at most once |
| `NodeSession.StepSettlesNext` | packages/runtime-node/src/runtime.ts:230-309 | A step settles no call but the one at the head of the queue, with all its logs, and only by its own result, error, timeout or abort, by dispose, by an exit that ends requests, or by the failed start that it awaited |
| `NodeSession.OutcomesStay` | packages/runtime-node/src/runtime.ts:291-300 | What has settled stays settled as it is, whatever happens later |
| `NodeSession.HostResultsArePending` | packages/runtime-node/src/runtime.ts:258-275 | A host result is posted only to the current worker and only for a request still pending on it; an invoke goes to the awaited worker; a cancel goes out for the request it settles |
| `NodeSession.CurrentWorkerServes` | packages/runtime-node/src/runtime.ts:170-173 | A call that found the current worker registers its request, whatever became of the start of that worker |
| `NodeSession.LateReadyServes` | packages/runtime-node/src/runtime.ts:187-203 | A run to such a call: the worker became ready after its start was given up; disposed in between, the session still runs the call |
| `NodeSession.DisposeIsFinal` | packages/runtime-node/src/runtime.ts:109-123 | After a dispose no request is ever pending again if and only if no call was then past its checks with a worker that is current or whose start has not failed |
| `NodeSession.RegistersAfterDispose` | packages/runtime-node/src/runtime.ts:125-168 | In the other case there is a run that registers a request on the disposed session |
| `NodeSession.ExitSettlesExactly` | packages/runtime-node/src/runtime.ts:213-224 | The exit of a worker settles the running request if and only if that worker was ready and had not exited, the session is active and the code is not 0; whether the request runs on it makes no difference |
| `NodeSession.StaleExitRejects` | packages/runtime-node/src/runtime.ts:213-224 | In particular the failing exit of a worker that was given up rejects the request of its successor and leaves the successor current |
| `NodeSession.StaleExitHappens` | packages/runtime-node/src/runtime.ts:213-224 | A run from the beginning in which it does: a timeout, a second worker, the late exit of the first |
| `NodeSession.CleanExitLeavesPending` | packages/runtime-node/src/runtime.ts:213-224 | The exit of the current worker with code 0 forgets the worker and leaves its request pending |
| `NodeSession.AbortEndsExactly` | packages/runtime-node/src/runtime.ts:125-149 | A signal that fires before its call has settled can still end it as aborted in some continuation if and only if the call runs, or is in the queue of a session that is active |
| `NodeSession.EarlyAbortIsLost` | packages/runtime-node/src/runtime.ts:127-149 | In particular a signal that fires while the call waits for its worker is never noticed |
| `NodeSessionMachine.NodeRuntimeSession.TakePending` | packages/runtime-node/src/runtime.ts:291-300 | Removes the request together with its timer and listener, or changes nothing |
| `NodeSessionMachine.NodeRuntimeSession.CancelHard` | packages/runtime-node/src/runtime.ts:277-289 | Settles the request with the given cause, aborts its controller, and drops and notifies the current worker |
| `NodeSessionMachine.NodeRuntimeSession.RejectPending` | packages/runtime-node/src/runtime.ts:302-309 | The loop over the pending requests settles all of them, oldest first |
| `NodeSessionMachine.NodeRuntimeSession.FindWorker` | packages/runtime-node/src/runtime.ts:170-228 | The current worker, told apart from the one that is starting and from a new one |
| `NodeSessionMachine.NodeRuntimeSession.BeginInvocation` | packages/runtime-node/src/runtime.ts:125-131 | The head of the queue up to its await: refused when disposed or aborted, else it awaits a worker |
| `NodeSessionMachine.NodeRuntimeSession.ResumeInvocation` | packages/runtime-node/src/runtime.ts:131-168 | After the await: the request is registered with listener and timer as asked and posted, or the call fails with the start that it awaited |
| `NodeSessionMachine.NodeRuntimeSession.OnWorkerExit` | packages/runtime-node/src/runtime.ts:213-224 | Forgets the worker if it is current; rejects its start, or all requests on a failing exit of an active session |
| `NodeSessionMachine.NodeRuntimeSession.DisposeNow` | packages/runtime-node/src/runtime.ts:109-123 | The first dispose rejects all requests, forgets both workers and says farewell |
| `ScriptWorker.EveryRunKeepsInv` | packages/tanxium/src/workers/script-worker.ts:123-472 | In every run: a terminated worker has no pending request in either map, every registered request and every call is accounted for exactly once, timers and listeners belong to pending requests exactly as asked, a starting worker has an unsettled ready promise |
| `ScriptWorker.EachRequestOnce` | packages/tanxium/src/workers/script-worker.ts:134-188 | In every run a registered request is pending in one of the two maps, or settled once and pending in neither |
| `ScriptWorker.EachCallOnce` | packages/tanxium/src/workers/script-worker.ts:285-382 | In every run a call waits for the worker, or has one pending request, or has settled once |
| `ScriptWorker.SettledIsDeaf` | packages/tanxium/src/workers/script-worker.ts:134-192 | A message about a request that has settled changes nothing at all |
| `ScriptWorker.StepCauses` | packages/tanxium/src/workers/script-worker.ts:196-453 | A request settles only by its own answer, timeout or abort, or because its worker ends or is reset for another request |
| `ScriptWorker.OutcomesStay` | packages/tanxium/src/workers/script-worker.ts:421-439 | What has settled stays settled as it is |
| `ScriptWorker.HostResultsArePending` | packages/tanxium/src/workers/script-worker.ts:384-401 | A host result is posted only for a hook request still pending on a worker that is not terminated |
| `ScriptWorker.WaitsForeverUnlessCurrent` | packages/tanxium/src/workers/script-worker.ts:95-121 | A call that waits for a ready promise can go on in some continuation if and only if the promise has settled or is still the current one |
| `ScriptWorker.ResetStrands` | packages/tanxium/src/workers/script-worker.ts:441-472 | Terminating or disposing a worker that is starting strands those who wait for it; an error or an exit rejects them |
| `ScriptWorker.HasWorkerExactly` | packages/tanxium/src/workers/script-worker.ts:129-132 | Every step keeps a worker behind every mode that needs one, except exactly a late ready message and a late caller after termination |
| `ScriptWorkerMachine.Worker.RejectRequests` | packages/tanxium/src/workers/script-worker.ts:442-446 | The loop rejects all execute requests in order and clears their timers |
| `ScriptWorkerMachine.Worker.RejectHooks` | packages/tanxium/src/workers/script-worker.ts:432-439 | The loop rejects all hook requests in order, aborts their controllers and clears timers and listeners |
| `ScriptWorkerMachine.Worker.TakeHook` | packages/tanxium/src/workers/script-worker.ts:421-430 | Removes the hook request together with its timer and listener, or changes nothing |
| `ScriptWorkerMachine.Worker.ResetWorker` | packages/tanxium/src/workers/script-worker.ts:441-453 | Rejects both maps, and terminates and reports once unless terminated already |
| `ScriptWorkerMachine.Worker.FindWorker` | packages/tanxium/src/workers/script-worker.ts:95-121 | The current ready promise, or a new start with its own, which fails at once if the strategy throws |
| `ScriptWorkerMachine.Worker.BeginCall` | packages/tanxium/src/workers/script-worker.ts:285-292 | A call up to its await: refused if aborted, else it awaits the worker |
| `ScriptWorkerMachine.Worker.ContinueCall` | packages/tanxium/src/workers/script-worker.ts:294-382 | A call after its await: fails with the start, is refused if aborted, else is registered and posted |
| `ScriptWorkerMachine.Worker.CancelHard` | packages/tanxium/src/workers/script-worker.ts:403-419 | Settles the hook request with the given cause, posts the cancel and resets the worker |
| `ScriptWorkerMachine.Worker.OnTimer` | packages/tanxium/src/workers/script-worker.ts:297-303 | The timer settles its execute request, or cancels its hook request hard |
| `ScriptWorkerMachine.Worker.DisposeNow` | packages/tanxium/src/workers/script-worker.ts:459-472 | Says farewell to a worker that is not terminated and resets it |
| `Groups.ValidateGroupGraph` | packages/headless/src/crud.ts:161-177 | The nested loops with their set of seen ids return the verdict of the graph function, with the kind of the first error |
| `Groups.ValidateIsExact` | packages/headless/src/crud.ts:161-177 | For unique ids the list is accepted if and only if following parents from every group ends at a root |
| `Groups.LoaderReports` | packages/headless/src/workspace-loader.ts:588-609 | The loader's walk reports nothing if and only if it accepts every group |
| `Groups.CheckersAgree` | packages/headless/src/workspace-loader.ts:588-609 | The loader's walk and the group validation accept the same lists of groups with unique ids |
| `Groups.GroupLineage` | packages/headless/src/execution.ts:844-858 | The loop that grows the list at the front returns the lineage function, looping included |
| `Groups.LineageIsWhole` | packages/headless/src/execution.ts:844-858 | On an accepted graph the lineage never loops and is the whole chain from a root to the group, parent by parent, without repetition |
| `Groups.LineageIsUnique` | packages/headless/src/execution.ts:844-858 | There is only one such chain |
| `Groups.UnknownHasNoLineage` | packages/headless/src/execution.ts:845-850 | No group, or an unknown one, has the empty lineage |
| `Workspaces.EveryRunKeepsInv` | packages/headless/src/crud.ts:29-142 | From valid workspaces every interleaving of all operations at their awaits leaves only valid ones stored: unique entity and group ids, group and dependency references that exist, an acyclic parent forest |
| `Workspaces.StepKeepsInv` | packages/headless/src/crud.ts:29-142 | Each half of an operation, before or after its await, keeps every stored workspace and every snapshot in flight valid |
| `Workspaces.StoredLineagesAreWhole` | packages/headless/src/execution.ts:844-858 | So the lineage of every group of every stored workspace is whole, in every run |
| `Workspaces.CreateKeepsValid` | packages/headless/src/repository.ts:38-49 | An entity that is created keeps the stored workspace valid, although it was validated against an older snapshot |
| `Workspaces.UpdateKeepsValid` | packages/headless/src/repository.ts:51-75 | The same for an update |
| `Workspaces.DeleteKeepsValid` | packages/headless/src/repository.ts:77-86 | The same for a deletion: no dependency is left dangling |
| `Workspaces.ModelIsValid` | packages/headless/src/crud.ts:151-159 | A workspace that passes the model validation is valid |
| `Workspaces.UpsertGroupKeepsValid` | packages/headless/src/crud.ts:96-114 | An accepted group keeps the workspace valid |
| `Workspaces.DeleteGroupKeepsValid` | packages/headless/src/crud.ts:116-128 | A group that may be deleted leaves a valid workspace |
| `Workspaces.LeafRemovalKeepsForest` | packages/headless/src/crud.ts:118-125 | Taking a leaf out of a forest leaves a forest |
| `Workspaces.FinishForgets` | packages/headless/src/crud.ts:112-112 | What a workspace service stores does not depend on what was stored in the meantime: concurrent updates are lost |
| `Workspaces.FinishLosesExactly` | packages/headless/src/crud.ts:73-142 | An operation that writes leaves everything that it is not about as it is stored, if and only if it goes through the entity repository or nothing of that has changed since it took its snapshot |
| `Workspaces.KindChangeIsAccepted` | packages/headless/src/crud.ts:179-188 | A group may change its kind under its entities; the result is stored, and the model validation refuses it |
| `Workspaces.UpsertKeepsModelExactly` | packages/headless/src/crud.ts:96-114 | An accepted group leaves a workspace that passes the model validation if and only if its id is a group's already or nobody's, and every entity in it is of its kind |
| `WorkspaceServices.CheckUniqueIds` | packages/headless/src/repository.ts:174-184 | The loop with its growing set accepts exactly the lists without a repeated id |
| `WorkspaceServices.CheckModel` | packages/headless/src/crud.ts:151-159 | The loops return the first error of the model validation, in the order of the code |
| `WorkspaceServices.Repository.Save` | packages/headless/src/repository.ts:22-25 | Stores the whole workspace under its id, or refuses a repeated entity id and changes nothing |
| `WorkspaceServices.Repository.Create` | packages/headless/src/repository.ts:38-49 | Appends the entity to the stored workspace, or fails with the error of the first failing condition and changes nothing |
| `WorkspaceServices.Repository.Update` | packages/headless/src/repository.ts:51-75 | Replaces the entity in its place, or fails and changes nothing |
| `WorkspaceServices.Repository.Delete` | packages/headless/src/repository.ts:77-86 | Removes the entity unless another depends on it |
| `WorkspaceServices.Services.BeginOperation` | packages/headless/src/crud.ts:29-30 | Takes a snapshot of the stored workspace, or fails |
| `WorkspaceServices.Services.FinishOperation` | packages/headless/src/crud.ts:31-142 | Validates and stores as the step of the interleaving model says, for every operation |
| `WorkspaceServices.Services.SaveWorkspace` | packages/headless/src/crud.ts:67-71 | Stores a workspace that passes the model validation and changes nothing otherwise |
| `WorkspaceServices.Services.DeleteEntity` | packages/headless/src/crud.ts:45-48 | Deletes as the step of the interleaving model says |
| `Lifecycle.EmittedFollowsExactly` | packages/headless/src/execution.ts:157-537 | For any behaviour of hooks, transport, streams and saving: what an execution emits itself follows the lifecycle grammar as one whole if and only if it does not complete and then fail to save its history |
| `Lifecycle.ExecutionIsOrderly` | packages/headless/src/execution.ts:239-512 | Then there is exactly one terminal event, at the end; at most one response; a request is sent only if no hook mocked it; response and test hooks start only behind the response, all hooks in source order; and this holds after every event |
| `Lifecycle.FollowsInOrder` | packages/headless/src/execution.ts:239-512 | Every text of the grammar, and every beginning of it, has these properties |
| `Lifecycle.AttemptFollows` | packages/headless/src/execution.ts:189-449 | The attempt alone never leaves the grammar, and one that succeeds may be completed |
| `Lifecycle.HooksFollow` | packages/headless/src/execution.ts:288-302 | The loop over the sources of a hook goes from the first to the last, in list order, and stops early only at a mock or a failure |
| `Lifecycle.HookFollows` | packages/headless/src/execution.ts:577-692 | One invocation starts its source, emits its logs and tests inside the hook, and completes it or fails |
| `Lifecycle.SourcesFromRootToLeaf` | packages/headless/src/execution.ts:835-842 | On an accepted group graph the hook sources are the workspace's, those of the whole lineage from the root down, then the entity's |
| `LifecycleRuns.EveryRunKeepsInv` | packages/headless/src/execution.ts:157-763 | In every run of any number of executions side by side, nested ones included: what each emitted itself is a beginning of its script, host calls emit under its id only after the start of a hook, ids are active exactly from beginning to end, nested executions are one level deeper, and nothing is emitted above the limit |
| `LifecycleRuns.FinishedFollowsExactly` | packages/headless/src/execution.ts:157-763 | In every run, for every execution that has ended: its own events follow the grammar if and only if it did not complete and then fail to save; together with those of its host calls if and only if besides each of them came while a hook was open |
| `LifecycleRuns.EveryRunFollowsExactly` | packages/headless/src/execution.ts:712-763 | All events under the id of an execution follow the grammar in all runs if and only if it does not complete and then fail to save, and starts no hook |
| `LifecycleRuns.InOrderThroughout` | packages/headless/src/execution.ts:239-512 | At every moment of every run, whatever host calls emit in between, the own events of every execution whose completion can be saved are in order; when it has ended, exactly one of them is terminal, the last |
| `LifecycleRuns.ActiveExactly` | packages/headless/src/execution.ts:161-173 | In every run an id is active exactly while an execution within the limit has begun and not ended, every event belongs to an execution within the limit, and a nested one is one level below the one that asked for it |
| `LifecycleRuns.NestedAreAccounted` | packages/headless/src/execution.ts:712-763 | At every moment the nested executions announced under an id are those that its host calls asked for, and those announced as completed the ones among them that ended without rejecting and were reported |
| `LifecycleRuns.FollowsWithAsides` | packages/headless/src/execution.ts:712-784 | A log follows the grammar if and only if it does so without the events of host calls, and each of these comes while a hook is open |
| `LifecycleRuns.ReportsTooLate` | packages/headless/src/execution.ts:742-761 | For any two plans and any point after the start of a hook: the nested execution can start there and be reported after the execution that asked for it has ended, while every other event stays where it was; behind the last hook of an aborted attempt the nested one must be stopped at its start, as the shared signal makes it |
| `LifecycleRuns.AsksTooLate` | packages/headless/src/runtime-host.ts:57-79 | A host call that waits for its entity can announce the nested execution after the terminal event |
| `LifecycleRuns.OthersSpare` | packages/headless/src/execution.ts:787-793 | No step but its own adds an event of its own to an execution; the others add only those of its host calls |
| `LifecycleService.HeadlessExecutionService.Emit` | packages/headless/src/execution.ts:787-793 | Appends one event of an active execution and waits; whatever others do meanwhile, of its own events there is exactly one more |
| `LifecycleService.HeadlessExecutionService.InvokeOne` | packages/headless/src/execution.ts:577-692 | For any doings of others at its awaits the own events are those of one invocation, and its outcome is the one that the control flow reaches |
| `LifecycleService.HeadlessExecutionService.RunSources` | packages/headless/src/execution.ts:288-302 | The loop over the sources, with its early exit |
| `LifecycleService.HeadlessExecutionService.SendRequest` | packages/headless/src/execution.ts:287-420 | From the prepared request to the response, mocked or sent, with the events of a stream |
| `LifecycleService.HeadlessExecutionService.RunAftermath` | packages/headless/src/execution.ts:422-446 | The response hooks, then in test mode the test hooks |
| `LifecycleService.HeadlessExecutionService.RunAttempt` | packages/headless/src/execution.ts:189-449 | The whole body of the attempt, branch by branch |
| `LifecycleService.HeadlessExecutionService.ExecuteInternal` | packages/headless/src/execution.ts:157-537 | For any doings of others at its awaits: the own events are those of one execution, the id is active from beginning to end and not afterwards, and it rejects exactly when it is too deep or a failure cannot be saved |
| `LifecycleService.HeadlessExecutionService.HostExecute` | packages/headless/src/execution.ts:712-763 | Announces the nested execution first; reports it only if it does not reject, and then after all its own events; adds none of the own events of the one that asked |
| `Cookies.ParseHeader` | packages/headless/src/cookies.ts:202-260 | The loop over the attributes returns the cookie or the refusal of the header function |
| `Cookies.OwnUrlMatchesExactly` | packages/headless/src/cookies.ts:262-269 | An accepted, unexpired cookie without a Path attribute, not Secure over http, matches its own response URL if and only if it names a domain or the host does not begin with a dot (sections 5.1.3, 5.1.4 and 5.3 of RFC 6265) |
| `Cookies.DefaultPathMatches` | packages/headless/src/cookies.ts:284-294 | The default path of a URL is a beginning of its path, begins with a slash and matches it |
| `Cookies.NormalizeTwice` | packages/headless/src/cookies.ts:271-277 | Normalizing a normalized domain changes nothing |
| `Cookies.AttributesKeep` | packages/headless/src/cookies.ts:223-246 | Whatever attributes come in whatever order: without one that sets the path it is the default path; the cookie is host-only exactly if none sets a domain; a domain that is set matches the response host |
| `CookieJar.EveryJarIsUnique` | packages/headless/src/repository.ts:123-171 | Every sequence of repository operations leaves at most one cookie per id and per workspace, name, domain and path |
| `CookieJar.HeaderIsExact` | packages/headless/src/cookies.ts:114-122 | The cookies of a request are exactly the unexpired matching ones of the workspace, each once, longer paths first and older ones first among equal paths (section 5.4 of RFC 6265) |
| `CookieJar.ResponseCookieComesBack` | packages/headless/src/cookies.ts:124-159 | A response cookie without a Path attribute is stored, and is then due to its own URL if and only if it names a domain or the host does not begin with a dot |
| `CookieJar.StoreOneStores` | packages/headless/src/cookies.ts:136-151 | When nobody stores between listing and upsert, an accepted cookie that is not expired is always stored, under the id of the cookie it replaces or a new one |
| `CookieJar.UpsertRefusedExactly` | packages/headless/src/repository.ts:134-152 | When others may: the upsert is refused if and only if by then a cookie of its identity is there under another id, or its id is that of a cookie of another workspace; otherwise the cookie is stored and the jar kept |
| `CookieJar.SecondIsRefused` | packages/headless/src/cookies.ts:136-151 | Of two responses that set the same new cookie after listing the same store, the second is refused |
| `CookieJar.StoringKeepsJar` | packages/headless/src/cookies.ts:133-155 | Storing the headers of a response, good or bad, leaves a jar |
| `CookieJar.Jar.GetCookieHeader` | packages/headless/src/cookies.ts:114-122 | Removes the expired cookies of the workspace and joins the pairs of the due ones in order, or returns none |
| `CookieJar.Jar.StoreHeader` | packages/headless/src/cookies.ts:134-154 | The try statement for one header leaves the store of the storing function and tells whether it was refused |
| `CookieJar.Jar.StoreResponse` | packages/headless/src/cookies.ts:124-159 | The loop over the headers leaves the jar and the number of refusals of the storing function |

## Left out

Language and values:

- The union schema; token positions and error texts; changing the indentation width.
- Numbers with a fraction or an exponent are scanned as the code scans them, but only integer literals are given a value.
- `YslRoundTrip.ScriptReadsBack`: names of schema fields and enum members must be good keys, since a schema with any other name cannot be written at all.
- `YslRoundTrip.ReloadIsSame`: does not fix the indentation after repeated saving and loading, because the code adds to it every time.
- Keys that look like array indices, which JavaScript moves to the front of an object, and names inherited from `Object.prototype` used as lookup keys; as words they are tokens of their own in the scanner.
- Bounds of safe integers: retry and Max-Age values are unbounded integers.
- `Reconciliation.ShortcutsAreSound`: assumes that the hashes of the three compared values do not collide; nothing is claimed about collisions in general beyond `StableHash.OneUnitNeverCollides`.
- `Interpolation.TextIsFinal`: is stated for texts and values that hold no NUL (the sentinel is made of it) and no backslash before a brace or at their end, which are those that the escaping does not touch, and not for preserved missing names, which the code is meant to leave in place.
- `Redaction.RedactionIsExact`: does not decide lists of two or more secrets in which one overlaps the marker at an end and holds no secret that is apart from it; for a single secret `Redaction.SingleSecretIsExact` decides them all. Of such lists the order decides too (`Redaction.OrderMatters`), which no condition on the single secrets tells.
- `Interpolation.InterpolateValueTwice`: is stated for scalar values; an expression that is a whole text may return an object, which is not interpolated further.

Streams:

- Decoding of bytes and the byte order mark at the decoder; the time of receipt; aborts and errors in the middle of a stream; the snapshot response.

Sessions:

- Real workers, messages and timers are events that may come at any time; progress of a worker is not claimed.
- Listeners and termination callbacks that call back into the session; module registration; publishing messages; the strategies that start a worker.
- The worker side of host calls (packages/runtime-node/src/execution-state.ts) and the buffered event queue (crates/tanxium/src/runtime/common.ts): a map and a list that are filled and emptied, whose properties follow from their bodies.

Workspaces and executions:

- Arrays of a stored workspace are values that are reassigned; copies are not distinguished from what they copy, because the repository clones on both sides.
- Unique ids of environments, and of groups and environments across lists, beyond what the model validation refuses; domain events.
- Execution ids are unique: in runs they are the numbers of the executions, in the class they are given; ids supplied by a user that collide are not modelled. Of the host calls of a hook only those that emit events are modelled, nested executions and permission requests.
- The signal of an execution stops the nested ones that start after its terminal event; that it may also reach those under way is not tied to their outcomes, so the runs include more than the code has.
- Request building, snapshots, redaction of events and answers to permission requests, other than as outcomes that may fail.

Cookies:

- URL and date parsing: a parsed URL has a lower-case printable host and a path that begins with a slash; the date parser is a parameter. The IP-address rule of RFC 6265 is not in the code.
- One reading of the clock stands for the several that storing a response makes.
- Collation order of ids is a rank; case mapping of letters outside ASCII; splitting a combined header; listing and editing of cookies by a user.
