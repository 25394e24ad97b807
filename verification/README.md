# Verified models of OAuth2-plugin-example

Dafny models of the hand-written machinery of the OAuth2 example server and its tools: a YAML
parser and the baseline gate built on it, schema migration runs, a Markdown rewriter, the
device authorization grant, fan-out joins, generated UPDATE statements, account lockout,
configuration overrides, one-shot tokens, consent and the browser's token store. Code that
works by changing things is modelled by methods and classes with the same loops and fields;
each method is proved against a specification function or a state machine, and the promises
are proved about that. Check everything with `dafny verify dfyconfig.toml`.

How the interleavings are modelled: every SQL statement, every awaited call and every callback
is one atomic step of a state machine `Step`; a run is any sequence of actions. A step that is
not possible in a state leaves it unchanged, so a statement about all action sequences is a
statement about all interleavings. Clocks, database faults, fresh random values and response
bodies are part of the actions.

| file | module | source |
|---|---|---|
| `Text.dfy`, `Order.dfy` | string and order helpers | the parts of Python's `str` and `sorted` and of C++ streams that are used |
| `MiniYaml.dfy`, `YamlScalars.dfy`, `YamlRoundTrip.dfy`, `YamlLayout.dfy` | `Yaml`, `YamlScalars`, `YamlRoundTrip`, `YamlLayout` | `_MiniYaml` |
| `EndpointRows.dfy`, `EndpointFields.dfy`, `EndpointGate.dfy`, `BaselineFields.dfy` | `EndpointRows`, `EndpointFields`, `EndpointGate`, `BaselineFields` | the endpoint extractor and the baseline diff |
| `SchemaMigrations.dfy`, `MigrationRuns.dfy` | `SchemaMigrations`, `MigrationRuns` | `SchemaManager` |
| `MarkdownPaths.dfy`, `MarkdownTwice.dfy`, `MarkdownRules.dfy` | `MarkdownPaths`, `MarkdownTwice`, `MarkdownRules` | `refactor-doc-paths.py` |
| `DeviceGrant.dfy`, `DeviceRequests.dfy`, `DevicePairs.dfy`, `UserCode.dfy` | `DeviceGrant`, `DeviceRequests`, `DevicePairs`, `UserCode` | the device authorization grant |
| `FanOutJoin.dfy`, `FanOutAnswers.dfy`, `UpdateBuilder.dfy` | `FanOutJoin`, `FanOutAnswers`, `UpdateBuilder` | `AdminController` |
| `Lockout.dfy`, `LockoutOverlap.dfy` | `Lockout`, `LockoutOverlap` | `AuthService::validateUser` |
| `ConfigOverrides.dfy`, `DotEnv.dfy` | `ConfigOverrides`, `DotEnv` | `ConfigManager` |
| `OneShotTokens.dfy`, `Sessions.dfy` | `OneShotTokens`, `Sessions` | password reset, e-mail verification, password change |
| `Consent.dfy` | `Consent` | scope splitting and consent |
| `TokenStore.dfy` | `TokenStore` | `http.ts` |

## What the proofs found

- The gate passes a document against its own baseline only if no field holds a tab
  (`BaselineFields.OnlyTabsMatter`, in both directions; the parser lets no line break through).
  A document with a tab in its path fails (`BaselineFields.TabbedPathFails`).
- "`migrate` returned true, so everything is applied" holds for every directory whose non-empty
  files have distinct versions and for no other one: with two files of one version, retrying
  ends in `true` with one of them never applied (`SchemaMigrations.TrueMeansCompleteExactly`).
- One device code can be turned into any number of token pairs: the row is deleted after the
  tokens are saved and nobody waits for it (`DevicePairs.BoundIsAttained`). At any moment, the
  most that can still follow is known exactly: any number while the row is there and not
  expired, and afterwards one for each poll that has already read an approved row in time or
  is saving (`DevicePairs.PairsStayWithinExactly`). With the bound 1 this says exactly when a
  code is good for at most one pair.
- A success answer of the fan-out may list fewer names than were asked for
  (`FanOutAnswers.PartialSuccess`). It lists all of them exactly when every insert added its
  row, and the answer is an error exactly when the insert of the callback that took the counter
  to zero failed (`FanOutAnswers.SuccessIsCompleteExactly`, `FanOutAnswers.ErrorExactly`).
- In `http.ts` the type says that a refresh brings a string; the response is not looked at.
  Memory and storage hold the same refresh token after every step exactly when every login and
  every refresh that takes effect brings a string, and a present access token has a present
  refresh token exactly when that is so of the tokens they bring (`TokenStore.InSyncExactly`,
  `TokenStore.AccessHasRefreshExactly`); `TokenStore.IncompleteRefreshLosesBoth` is a run that
  breaks both.
- The bound on failing logins is one for attempts that do not overlap. Attempts that read the
  row before the first of them writes it are all looked at and counted once
  (`LockoutOverlap.OverlappingCountOnce`); every failure is counted exactly when each write
  finds the count that its attempt has read (`LockoutOverlap.CountedExactly`).
- An attempt that has read the users row writes it later, whatever has happened meanwhile. Such
  a write can lift an hour's lock (`LockoutOverlap.LateWriteLiftsLock`), undo `disableUser`
  (`LateWriteUndoesDisable`) and lock an account right after `enableUser`
  (`LateWriteUndoesEnable`). A lock holds exactly when every write under way leaves one that
  lasts as long (`LockHoldsExactly`); disabling holds exactly when no write is under way
  (`DisableHoldsExactly`); enabling holds exactly when no write under way locks, and clears the
  count exactly when every attempt under way had the right password (`EnableOpensExactly`,
  `EnableClearsExactly`).
- A refresh that is under way when the user logs out logs the user in again. The store stays
  empty after a logout exactly when none is (`TokenStore.LogoutLastsExactly`).
- Rewriting the Markdown paths twice is not the same as once: one pass can join an old name out
  of what stands around a replaced one (`MarkdownRules.SecondPassGoesOn`). A pass changes nothing
  exactly when no old name stands outside the code, because no rule undoes another
  (`MarkdownTwice.PassChangesNothingExactly`, `MarkdownRules.RepositoryTwiceIsOnceExactly`).
- `refactor-doc-paths.py` gives its rules as regular expressions; each is a literal text with
  its dots escaped, and is modelled as that text.
- The comments of `_parse_seq` speak of keys at `indent + 2`; the code absorbs every line
  indented deeper than the dash, and so does the model. Its branch for an empty item cannot be
  reached (`Yaml.DashNodeIsNeverRead`).

## Model

| member | source | states |
|---|---|---|
| Yaml.MiniYaml.constructor | tools/refactor-baseline/parse_endpoints.py:77-83 | the parser starts at the first of the right-stripped lines that are neither blank nor comments |
| Yaml.MiniYaml.ParseText | tools/refactor-baseline/parse_endpoints.py:118-119 | the value, and the lines left unread, are those of the specification at indentation 0 |
| Yaml.MiniYaml.Peek | tools/refactor-baseline/parse_endpoints.py:121-122 | the line at the cursor, or nothing at the end |
| Yaml.MiniYaml.ParseNode | tools/refactor-baseline/parse_endpoints.py:124-134 | from any cursor, value and lines left are those of `Node`; terminates by lines left and call rank |
| Yaml.MiniYaml.ParseMap | tools/refactor-baseline/parse_endpoints.py:136-174 | the mapping loop gives the entries of `Mapping`, the last of equal keys winning in place, and leaves its lines |
| Yaml.MiniYaml.ParseSeq | tools/refactor-baseline/parse_endpoints.py:176-232 | the sequence loop gives the items of `Sequence` and leaves its lines |
| Yaml.MiniYaml.AbsorbLines | tools/refactor-baseline/parse_endpoints.py:206-230 | the inner loop collects exactly the lines that continue a mapping element |
| Yaml.Node | tools/refactor-baseline/parse_endpoints.py:124-134 | a node that is not null has read at least one line and is a list or a dictionary |
| Yaml.Mapping | tools/refactor-baseline/parse_endpoints.py:136-174 | a mapping that is entered reads at least one line, and none is given back |
| Yaml.Sequence | tools/refactor-baseline/parse_endpoints.py:176-232 | a sequence that is entered reads at least one line, and none is given back |
| Yaml.DashNodeIsNeverRead | tools/refactor-baseline/parse_endpoints.py:78-82 | for every text, no kept line is a dash with nothing behind it: the empty-item branch is unreachable |
| Yaml.PutLooksUp | tools/refactor-baseline/parse_endpoints.py:136-174 | setting a key of a mapping changes what is found under it and nothing else |
| Yaml.PutKeepsOrder | tools/refactor-baseline/parse_endpoints.py:136-174 | a key keeps the place where it was first set, and a new one is the last |
| Yaml.IgnoredExactly | tools/refactor-baseline/parse_endpoints.py:77-82 | a line is dropped if and only if it is white space, or the first other character is a hash sign |
| Yaml.ScalarMatchExactly | tools/refactor-baseline/parse_endpoints.py:73-75 | a key is the stripped text in front of the first colon, if it holds no hash sign, and the value the stripped text behind it |
| YamlScalars.SpellsExactly | tools/refactor-baseline/parse_endpoints.py:85-101 | any trimmed text is read as a value if and only if it spells it: the words in any case, the tilde, digits worth their places with or without a minus, a string in quotes, and every other text for itself |
| YamlScalars.CoerceByKind | tools/refactor-baseline/parse_endpoints.py:85-101 | what every non-empty text is read as, by its kind |
| YamlScalars.WorthIsRead | tools/refactor-baseline/parse_endpoints.py:99-100 | digits are read as the sum of what they are worth by their places |
| YamlRoundTrip.RoundTrip | tools/refactor-baseline/parse_endpoints.py:73-232 | parsing what was printed of any document returns its meaning and leaves no line: nested mappings, flow lists, lists of scalars and lists of mappings; every scalar in any of its spellings, plain, quoted or a word in any case; children indented by any amount from two on; unreadable lines between the keys |
| YamlRoundTrip.NodeParses | tools/refactor-baseline/parse_endpoints.py:124-134 | the same inside any surrounding document: what follows a block is left exactly as it is |
| YamlRoundTrip.FieldsAbsorbed | tools/refactor-baseline/parse_endpoints.py:206-230 | the keys below the first one of a list element, at any indentation deeper than the dash, are all absorbed, nested children included, and nothing more |
| YamlRoundTrip.RowReads | tools/refactor-baseline/parse_endpoints.py:73-134 | every printed line survives the constructor's filter and is read as what it was printed for, an unreadable one as that |
| YamlRoundTrip.BlockItemExact | tools/refactor-baseline/parse_endpoints.py:190-231 | any text after a dash is read as a scalar if and only if its first colon, unless behind a hash sign, has nothing in front or nothing behind; otherwise a mapping starts in it |
| YamlRoundTrip.FlowItemExact | tools/refactor-baseline/parse_endpoints.py:103-112 | a scalar in any spelling comes back from a flow list if and only if its text holds no comma |
| YamlRoundTrip.SequenceEnds | tools/refactor-baseline/parse_endpoints.py:176-232 | a sequence hands back at the first line that is less deep or has no dash, and takes a dash that is deeper |
| YamlRoundTrip.NothingNested | tools/refactor-baseline/parse_endpoints.py:160-172 | a key with nothing two deeper below it has the empty mapping, and the next line is left |
| YamlLayout.IndentInvariance | tools/refactor-baseline/parse_endpoints.py:77-232 | for any two texts, whatever their line ends: if the lines of one are those of the other indented by the same number of spaces, the values are equal |
| YamlLayout.IndentedText | tools/refactor-baseline/parse_endpoints.py:77-232 | for every text there is such an indented one, and it parses to the same value |
| YamlLayout.CommentInvariance | tools/refactor-baseline/parse_endpoints.py:77-82 | for any two texts, whatever their line ends: if the lines of one are those of the other with blank and comment lines interspersed anywhere, the values are equal |
| YamlLayout.CommentedText | tools/refactor-baseline/parse_endpoints.py:77-82 | such a line can be put at every place of every text, and the value is the same |
| EndpointRows.ExtractEndpoints | tools/refactor-baseline/parse_endpoints.py:240-267 | the nested loops return the rows of `Extract`, or the error of a tag list that cannot be iterated over |
| EndpointRows.ExtractOrdered | tools/refactor-baseline/parse_endpoints.py:246-267 | rows have six fields, one of the eight methods, and are strictly ordered by path and method, so no key occurs twice |
| EndpointRows.ParsedIsTidy | tools/refactor-baseline/parse_endpoints.py:77-232 | for every text: no dictionary the parser returns has a key twice, and no key or string holds a line break |
| EndpointRows.ParsedRowsOrdered | tools/refactor-baseline/parse_endpoints.py:77-267 | for every text, the extracted rows are strictly ordered |
| EndpointFields.RowDescribes | tools/refactor-baseline/parse_endpoints.py:253-293 | the row of an operation, column by column from the document: the method and the path; the keys of the responses by length and code points; the keys of the content dictionaries, sorted, each once; the tags, sorted, each once; and `yes` if and only if some element or value of security is not empty |
| EndpointFields.RowsAreOperations | tools/refactor-baseline/parse_endpoints.py:240-267 | every extracted row is the row of an operation of the document |
| EndpointFields.OperationsHaveRows | tools/refactor-baseline/parse_endpoints.py:240-267 | every operation of the document has its row |
| EndpointFields.ExtractFailsExactly | tools/refactor-baseline/parse_endpoints.py:240-254 | the extraction fails if and only if the document is a non-empty value other than a mapping, or some operation has tags that are a number or true |
| EndpointFields.SortedSetIs | tools/refactor-baseline/parse_endpoints.py:254-283 | a sorted set is ascending and holds exactly the strings it was made of |
| EndpointFields.ListingSplits | tools/refactor-baseline/parse_endpoints.py:282-283 | for strings without commas, the pieces of a column are the listed strings |
| EndpointGate.RenderRoundTrip | tools/refactor-baseline/parse_endpoints.py:296-299 | splitting the rendered rows returns them if and only if no field holds a tab or a line break |
| EndpointGate.Index | tools/diff-endpoint-baseline.py:59-63 | the loop builds the index in which later rows win |
| EndpointGate.IndexIsLast | tools/diff-endpoint-baseline.py:54-63 | under a method and a path the index has the last row with both |
| EndpointGate.RemarksAreSkipped | tools/diff-endpoint-baseline.py:66-71 | a baseline file with empty lines and comments anywhere is read as its records alone |
| EndpointGate.KeyBeforeExactly | tools/diff-endpoint-baseline.py:74-80 | keys are sorted by the code points of the method, then of the path |
| EndpointGate.Changes | tools/diff-endpoint-baseline.py:80-82 | the changes are exactly the common keys with different rows, in order |
| EndpointGate.Diff | tools/diff-endpoint-baseline.py:74-83 | additions, removals and changes are the sorted set differences and the differing common keys |
| EndpointGate.DeltaPatches | tools/diff-endpoint-baseline.py:74-83 | applied to the baseline index, any diff gives the current index |
| EndpointGate.ReportIsEquality | tools/diff-endpoint-baseline.py:101-124 | the report is 0 if and only if the two indexes are equal |
| EndpointGate.OrderedRowsFromIndex | tools/diff-endpoint-baseline.py:59-63 | rows in the extractor's order have equal indexes if and only if the lists are equal |
| EndpointGate.Gate | tools/diff-endpoint-baseline.py:253-255 | the gate answers 0 if and only if the baseline text and the rows have the same index, fails on a line without a tab, and answers 1 otherwise |
| EndpointGate.GateIsExact | tools/diff-endpoint-baseline.py:66-83 | for the rows of any two texts with fields that can be written, the gate on a rendered baseline reports 0 if and only if the lists of rows are equal |
| EndpointGate.OwnBaselinePasses | tools/diff-endpoint-baseline.py:66-71 | the rows of any text match the baseline rendered from them if and only if no field holds a tab or a line break |
| BaselineFields.FieldsHoldNoLineBreak | tools/refactor-baseline/parse_endpoints.py:240-293 | no field of the rows of any text holds a line break |
| BaselineFields.OnlyTabsMatter | tools/diff-endpoint-baseline.py:66-83 | so the rows of any text match their own baseline if and only if no field holds a tab |
| BaselineFields.OnePathPassesExactly | tools/diff-endpoint-baseline.py:66-83 | the document with any one path passes against its own baseline if and only if the path holds no tab |
| BaselineFields.TabbedPathFails | tools/diff-endpoint-baseline.py:66-83 | a document that fails against its own baseline |
| SchemaMigrations.PrefixAlways | OAuth2Server/SchemaManager.cc:20-79 | over any interleaving of any number of runs that fail anywhere, the committed versions are a prefix of the non-empty migrations and the schema is the fold of that prefix |
| SchemaMigrations.ScanAscends | OAuth2Server/SchemaManager.cc:134-137 | sorting a directory of distinct versions gives all its files, the version of each greater than that of every one before it |
| SchemaMigrations.CommitsAscend | OAuth2Server/SchemaManager.cc:20-137 | over any interleaving of any runs on a directory of distinct versions, the versions are committed in increasing order, whatever the order of the listing |
| SchemaMigrations.TrueMeansComplete | OAuth2Server/SchemaManager.cc:45-79 | after a run that returned true, every migration is applied, in order, and no later step of any run changes the database |
| SchemaMigrations.TableAlways | OAuth2Server/SchemaManager.cc:185-201 | without any assumption on the versions, no version is ever committed twice, and each belongs to a non-empty file |
| SchemaMigrations.RetriesSucceed | OAuth2Server/SchemaManager.cc:45-67 | from every reachable state, finitely many new runs that meet no fault end in one that returns true |
| SchemaMigrations.TrueMeansCompleteExactly | OAuth2Server/SchemaManager.cc:45-79 | that true means complete in every interleaving holds if and only if the non-empty files have distinct versions |
| SchemaMigrations.Migrator.ApplyMigration | OAuth2Server/SchemaManager.cc:160-210 | commits the text and its version together or nothing; an empty file succeeds without a record; a recorded version fails |
| SchemaMigrations.Migrator.ApplyAll | OAuth2Server/SchemaManager.cc:45-67 | the loop that skips, applies and stops is a run of the state machine, step by step |
| SchemaMigrations.Migrator.Migrate | OAuth2Server/SchemaManager.cc:20-79 | one call is the state machine's run of its steps with nothing in between, with the same result and database |
| MigrationRuns.OneRun | OAuth2Server/SchemaManager.cc:45-79 | one run applies the files that are neither recorded nor empty in order, up to the first one that cannot be opened or fails or is recorded by then; it returns true if and only if there is none; a table that cannot be read counts as empty |
| MigrationRuns.RunWithoutWork | OAuth2Server/SchemaManager.cc:25-43 | a run without its table fails, one without files succeeds, and neither changes the database |
| MarkdownPaths.SegmentAt | tools/refactor-doc-paths.py:71-107 | the body of the loop finds the end and the kind of the segment at the cursor |
| MarkdownPaths.SplitMarkdownSegments | tools/refactor-doc-paths.py:58-109 | the cursor loop computes `Split` |
| MarkdownPaths.NextIsFirstTick | tools/refactor-doc-paths.py:93-105 | the smaller of the next fence and the next backtick is always the first backtick |
| MarkdownPaths.SplitIsSegmentation | tools/refactor-doc-paths.py:58-109 | for every text, the segments concatenate to it, non-code segments are not empty, hold no backtick and are never adjacent, and only the last may be open |
| MarkdownPaths.SplitIsTheSegmentation | tools/refactor-doc-paths.py:58-109 | a list of segments is a segmentation of a text if and only if it is what splitting computes |
| MarkdownPaths.ReplaceAllPieces | tools/refactor-doc-paths.py:122-123 | a replacement is the text cut at the first and each following occurrence and joined again with the replacement |
| MarkdownPaths.ApplyReplacements | tools/refactor-doc-paths.py:112-126 | the two loops compute the concatenation of the segments, the rules applied in order to those that are not code |
| MarkdownPaths.SplitCommutesWithRewriting | tools/refactor-doc-paths.py:58-126 | for every text and all rules that leave some text without backticks, splitting the rewritten text gives the rewritten segments of the text |
| MarkdownPaths.CodeSurvives | tools/refactor-doc-paths.py:112-126 | the rewritten text has the same number of segments with the same flags, code identical and the rest rewritten by the rules |
| MarkdownRules.ReplacementsGood | tools/refactor-doc-paths.py:22-55 | every rule of the repository leaves some text and no backtick, and none undoes another |
| MarkdownRules.RepositoryRulesKeepCode | tools/refactor-doc-paths.py:22-126 | with the repository's own rules the code structure of every text survives |
| MarkdownTwice.ReplaceAllRises | tools/refactor-doc-paths.py:122-123 | a rule changes exactly the texts in which its pattern occurs, and makes them heavier |
| MarkdownTwice.PassChangesNothingExactly | tools/refactor-doc-paths.py:112-126 | a pass over any text changes nothing if and only if no pattern occurs outside the code |
| MarkdownTwice.TwiceIsOnceExactly | tools/refactor-doc-paths.py:112-126 | two passes over a text are one if and only if the first leaves no pattern outside the code |
| MarkdownRules.RepositoryTwiceIsOnceExactly | tools/refactor-doc-paths.py:22-126 | the same for the repository's rules |
| MarkdownRules.SecondPassGoesOn | tools/refactor-doc-paths.py:22-126 | a text that the repository's rules rewrite in the first pass and again in the second |
| DeviceGrant.PairsAreBacked | OAuth2Plugin/src/controllers/OAuth2StandardController.cc:1351-1498 | in every interleaving a token pair has the client and scope of its row and the single approving user, is issued after the approval and before the expiry, with the stated lifetimes |
| DeviceRequests.PairsAreRequested | OAuth2Plugin/src/controllers/OAuth2StandardController.cc:1315-1498 | in every interleaving a token pair has the code, client and scope of an insert among the actions and the user of an approval of its user code, is issued within 600 seconds of the insert, and lasts an hour and thirty days |
| DeviceRequests.AnswersFollowHistory | OAuth2Plugin/src/controllers/OAuth2StandardController.cc:1356-1462 | in every interleaving a poll is answered by the history of its code up to its select: invalid, of another client, expired, pending, or the tokens |
| DeviceRequests.AnswersByStatus | OAuth2Plugin/src/controllers/OAuth2StandardController.cc:1388-1450 | a row found for its client in time is answered by its status, `denied` and unknown ones included |
| DeviceRequests.GrantGoesThrough | OAuth2Plugin/src/controllers/OAuth2StandardController.cc:1315-1498 | from every reachable state, insert, approval and poll within 600 seconds give the tokens asked for, and from then on the expiry |
| DeviceRequests.LateApprovalIsRefused | OAuth2Server/controllers/DeviceAuthController.cc:232-265 | an approval after the 600 seconds or with another user code changes nothing |
| DeviceGrant.PairsAreBounded | OAuth2Plugin/src/controllers/OAuth2StandardController.cc:1464-1482 | the pairs issued for a code never exceed the selects that landed between its approval and its first deletion |
| DevicePairs.PairsStayWithinExactly | OAuth2Plugin/src/controllers/OAuth2StandardController.cc:1351-1498 | after any run, the pairs of a code stay within a bound in every continuation if and only if its row can serve no further poll and the bound has room for the polls that are ready |
| DevicePairs.FurtherPairExactly | OAuth2Plugin/src/controllers/OAuth2StandardController.cc:1351-1498 | after any run, some continuation issues a further pair if and only if the row can still serve a poll, or a poll is ready or saving |
| DevicePairs.AnyNumberOfPairs | OAuth2Plugin/src/controllers/OAuth2StandardController.cc:1464-1482 | from any state with an approved, unexpired row, any number of further pairs can be issued before a deletion |
| DevicePairs.BoundIsAttained | OAuth2Plugin/src/controllers/OAuth2StandardController.cc:1464-1482 | for every code, user code, client and n, some run that starts with their insert issues n pairs with n selects between approval and deletion |
| DeviceGrant.StatusMovesForward | OAuth2Server/controllers/DeviceAuthController.cc:232-265 | every step moves a code only forward through pending, approved and deleted, and the row's status is what the history says |
| DeviceGrant.ApprovalHitsOneRow | OAuth2Server/controllers/DeviceAuthController.cc:232-235 | in every reachable table a user code names at most one row, so the approving UPDATE changes at most one |
| DeviceGrant.InvAlways | OAuth2Server/controllers/DeviceAuthController.cc:139-184 | the invariant that ties rows, polls and history holds in every reachable state |
| DeviceGrant.DeviceCodes.DeviceAuthorization | OAuth2Server/controllers/DeviceAuthController.cc:100-184 | the insert of a pending row with ten minutes to live, refused without a client or for a taken user code |
| DeviceGrant.DeviceCodes.ApproveDevice | OAuth2Server/controllers/DeviceAuthController.cc:194-265 | succeeds if and only if a pending, unexpired row has the user code; changes status and user of that row only |
| DeviceGrant.DeviceCodes.SelectRow | OAuth2Plugin/src/controllers/OAuth2StandardController.cc:1315-1354 | a poll without a device code or a client is refused before the select, any other reads the row as it is |
| DeviceGrant.DeviceCodes.AnswerPoll | OAuth2Plugin/src/controllers/OAuth2StandardController.cc:1356-1462 | the refusals in the source's order, then the pair to save with the row's scope and user |
| DeviceGrant.DeviceCodes.DeleteRow | OAuth2Plugin/src/controllers/OAuth2StandardController.cc:1467-1480 | the deletion that is not awaited, which may fail |
| UserCode.GenerateUserCode | OAuth2Server/controllers/DeviceAuthController.cc:66-91 | the loop maps each random byte, or each character of the UUID, to its letter, eight at most |
| UserCode.CodesAreEquallyLikely | OAuth2Server/controllers/DeviceAuthController.cc:47-90 | every code of n letters is given by exactly 8^n of the byte strings, and by no other, for every n |
| FanOutJoin.OneCompleteResponse | OAuth2Server/controllers/AdminController.cc:1225-1276 | in every interleaving at most one response is sent, only after every insert has completed, and a success lists exactly the multiset of names whose insert took effect |
| FanOutAnswers.ErrorExactly | OAuth2Server/controllers/AdminController.cc:1243-1273 | in every interleaving the response is an error if and only if the insert of the task that took the counter from 1 to 0 failed |
| FanOutAnswers.SuccessIsCompleteExactly | OAuth2Server/controllers/AdminController.cc:1225-1276 | in every interleaving a success lists all the names asked for if and only if every insert added its row |
| FanOutAnswers.EveryOutcomeIsReached | OAuth2Server/controllers/AdminController.cc:1225-1276 | whatever the outcomes of the inserts and whichever is last, some run ends with them and an answer |
| FanOutAnswers.PartialSuccess | OAuth2Server/controllers/AdminController.cc:1225-1276 | for any two of the names, a run with a success although one insert failed, the other last |
| FanOutJoin.QuietMeansAnswered | OAuth2Server/controllers/AdminController.cc:1225-1276 | a run that can go no further has sent exactly one response |
| FanOutJoin.SomeStepIsEnabled | OAuth2Server/controllers/AdminController.cc:1225-1276 | as long as a task has not finished, some step changes the state |
| FanOutJoin.StepsUseUpWork | OAuth2Server/controllers/AdminController.cc:1225-1276 | every step that changes the state brings the end nearer |
| FanOutJoin.InvAlways | OAuth2Server/controllers/AdminController.cc:838-884 | the counter is the number of open tasks, the list is the names pushed, and the last task and the response exclude each other |
| FanOutJoin.Join.IssueInserts | OAuth2Server/controllers/AdminController.cc:1230-1276 | the loop issues the inserts in order, with any steps of the database and of the callbacks between two of them, and that is a run of the state machine |
| FanOutJoin.Join.RunCallbacks | OAuth2Server/controllers/AdminController.cc:1234-1273 | any sequence of callback steps is a run of the state machine and issues nothing |
| FanOutJoin.Join.AddName | OAuth2Server/controllers/AdminController.cc:1237-1241 | the locked part appends the name of an insert that added a row |
| FanOutJoin.Join.FetchSub | OAuth2Server/controllers/AdminController.cc:1243-1243 | the counter goes down by one, and its old value alone says who is last |
| FanOutJoin.Join.Answer | OAuth2Server/controllers/AdminController.cc:1244-1273 | the last callback answers with the list or, when its own insert failed, with an error |
| UpdateBuilder.BuildUpdate | OAuth2Server/controllers/AdminController.cc:554-597 | the loops give the statement and parameters of `Build`, or a bad request without fields |
| UpdateBuilder.QueryParses | OAuth2Server/controllers/AdminController.cc:586-597 | the generated text parses to the table, the assignments with their placeholders, and the key with the last placeholder |
| UpdateBuilder.UpdateIsPlain | OAuth2Server/controllers/AdminController.cc:554-597 | for every list of optional fields, running the text with the parameters sets exactly the supplied fields on exactly the rows with the id |
| UpdateBuilder.EveryChoiceIsServed | OAuth2Server/controllers/AdminController.cc:3004-3093 | every non-empty choice of fields of the four updates reaches a dispatch arm that passes all its parameters |
| UpdateBuilder.FourUpdates | OAuth2Server/controllers/AdminController.cc:554-597 | the same by the names of the four tables, their columns and their keys |
| LockoutOverlap.User.ReadRow | OAuth2Server/AuthService.cc:49-154 | an attempt up to its answer: rejected under a lock, accepted or refused, with the write it sends and does not await |
| LockoutOverlap.User.WriteRow | OAuth2Server/AuthService.cc:75-154 | the later write: a success clears count and lock, a failure sets the count it has read plus one, and the lock for it |
| LockoutOverlap.User.ValidateUser | OAuth2Server/AuthService.cc:49-154 | an attempt that nothing overlaps is the one step of the lockout machine |
| LockoutOverlap.FreshWritesSerialize | OAuth2Server/AuthService.cc:49-154 | in every interleaving whose writes find the row as it was read, the row is that of the attempts made one after the other |
| LockoutOverlap.CountedExactly | OAuth2Server/AuthService.cc:124-154 | in every interleaving of failing attempts, each is counted after every step if and only if each write finds the count that its attempt has read |
| LockoutOverlap.OverlappingCountOnce | OAuth2Server/AuthService.cc:49-154 | any number of attempts that read before the first writes are all looked at and counted once |
| LockoutOverlap.LockHoldsExactly | OAuth2Server/AuthService.cc:49-154 | in every interleaving, a lock in force at a time stays in force at that time if and only if every write under way leaves a lock beyond it |
| LockoutOverlap.LateWriteLiftsLock | OAuth2Server/AuthService.cc:124-154 | a run of twenty failures locks for an hour, and the write of an attempt that had read before them takes lock and count away |
| LockoutOverlap.DisableHoldsExactly | OAuth2Server/controllers/AdminController.cc:1120-1120 | after disabling, every attempt before the far date is rejected in every continuation without enabling if and only if no attempt that has read the row is still to write it |
| LockoutOverlap.DisabledRowStays | OAuth2Server/controllers/AdminController.cc:1120-1120 | with no attempt under way, every such continuation leaves the row exactly as disabling left it |
| LockoutOverlap.LateWriteUndoesDisable | OAuth2Server/controllers/AdminController.cc:1120-1120 | a run in which the late write of one attempt opens a disabled account |
| LockoutOverlap.EnableOpensExactly | OAuth2Server/controllers/AdminController.cc:2418-2418 | after enabling, an attempt at a time is looked at in every continuation without new wrong passwords if and only if no write under way leaves a lock beyond that time |
| LockoutOverlap.EnableClearsExactly | OAuth2Server/controllers/AdminController.cc:2418-2418 | after enabling, the count stays at zero in every such continuation if and only if every attempt under way had the right password |
| LockoutOverlap.LateWriteUndoesEnable | OAuth2Server/controllers/AdminController.cc:2418-2418 | a run in which the late write of one attempt locks an account right after it was enabled |
| LockoutOverlap.User.DisableUser | OAuth2Server/controllers/AdminController.cc:1120-1120 | the lock until the far date, the count unchanged |
| LockoutOverlap.User.EnableUser | OAuth2Server/controllers/AdminController.cc:2418-2418 | lock and count back to zero |
| Lockout.FailuresAreCounted | OAuth2Server/AuthService.cc:124-154 | after any run without success or enabling, the row counts the failures looked at, holds the lock of the last one or the administrator's, and each failure waited for the lock before it |
| Lockout.ThreeHoursForTwenty | OAuth2Server/AuthService.cc:124-137 | from the first to the n-th failure of such a run pass at least the locks between, so at least 10800 + 3600 (n - 20) seconds for n >= 20 |
| Lockout.BoundIsMet | OAuth2Server/AuthService.cc:49-137 | the bound is tight for every n: attempts made the moment each lock ends are all looked at |
| Lockout.LockAfterFailures | OAuth2Server/AuthService.cc:49-154 | after any run of n failures, the last at t, an attempt is rejected if and only if it comes before t + 60 for n from 5, t + 300 from 10, t + 1800 from 15 and t + 3600 from 20 |
| Lockout.SuccessStartsOver | OAuth2Server/AuthService.cc:70-90 | after a success, whatever was before, failures are counted from zero, and the next one leaves the count 1 and no lock |
| Lockout.DisabledStays | OAuth2Server/controllers/AdminController.cc:1120-1120 | for attempts that do not overlap and none under way: after disabling, every attempt before 9999999999 is rejected and leaves the row unchanged, over any run without enabling |
| Lockout.EnableStartsOver | OAuth2Server/controllers/AdminController.cc:2418-2418 | for attempts that do not overlap and none under way: after enabling, the next attempt is looked at and any run of failures is counted from zero |
| ConfigOverrides.GetJsonPointer | OAuth2Plugin/src/config/ConfigManager.cc:173-217 | the moving pointer stops at the node the path leads to, or nowhere |
| ConfigOverrides.ApplyEnvOverrides | OAuth2Plugin/src/config/ConfigManager.cc:150-171 | the loop applies the rules in order, those without a value or a node not at all |
| ConfigOverrides.AssignLooksUp | OAuth2Plugin/src/config/ConfigManager.cc:158-167 | after one assignment a path leads to the value, nowhere below it, still somewhere above it, and otherwise to what it led to before |
| ConfigOverrides.OverridesDecide | OAuth2Plugin/src/config/ConfigManager.cc:150-171 | after any list of rules, the last one that applied at or above a path decides: the path leads to its integer or its text, and below it nowhere; other paths are unchanged unless something below them was overridden |
| ConfigOverrides.NothingIsCreated | OAuth2Plugin/src/config/ConfigManager.cc:150-217 | a path that led nowhere still leads nowhere |
| ConfigOverrides.DottedPathLeads | OAuth2Plugin/src/config/ConfigManager.cc:173-217 | a dotted path leads to a node if and only if its parts lead there one after the other, digits into arrays and any other part into objects |
| ConfigOverrides.ParseIntReads | OAuth2Plugin/src/config/ConfigManager.cc:219-229 | blanks, a sign and digits read as the number they stand for if it fits 32 bits, and as 0 otherwise, whatever follows |
| ConfigOverrides.OnlyNumeralsAreRead | OAuth2Plugin/src/config/ConfigManager.cc:219-229 | every text that is read as another number than 0 has that form |
| DotEnv.ParseLine | OAuth2Plugin/src/config/ConfigManager.cc:63-96 | the trimming loops and the split give what the line defines, or nothing |
| DotEnv.LoadDotEnv | OAuth2Plugin/src/config/ConfigManager.cc:60-99 | the line loop gives the map of the file |
| DotEnv.RoundTrip | OAuth2Plugin/src/config/ConfigManager.cc:60-99 | reading a written file returns every setting, the last of equal keys winning, in double, single or no quotes and with any blanks around key and value; lines that set nothing are skipped |
| DotEnv.LastLineReads | OAuth2Plugin/src/config/ConfigManager.cc:60-99 | the same when the last line has no line feed |
| DotEnv.LineReadsBack | OAuth2Plugin/src/config/ConfigManager.cc:63-96 | one setting in any quotes and blanks comes back from its line |
| DotEnv.SetsNothingExactly | OAuth2Plugin/src/config/ConfigManager.cc:63-96 | a line defines nothing if and only if it has no equals sign, or the first thing on it is one or a hash sign |
| DotEnv.SettingReadsBackExactly | OAuth2Plugin/src/config/ConfigManager.cc:63-96 | a setting written in double quotes comes back if and only if its key is not empty, has no equals sign and no outer blanks, and starts no comment |
| DotEnv.ReadKeysAreOk | OAuth2Plugin/src/config/ConfigManager.cc:68-96 | no line defines any other key |
| DotEnv.FileComesFirst | OAuth2Plugin/src/config/ConfigManager.cc:111-122 | a variable has the last value written for it when that is not empty, and the system's otherwise |
| OneShotTokens.TokensWorkOnce | OAuth2Server/controllers/PasswordResetController.cc:208-262 | in every interleaving a token brings at most one change, to its own user, and only when taken once before its expiry |
| OneShotTokens.ChangesAreBounded | OAuth2Server/controllers/EmailVerificationController.cc:114-152 | the changes to a user never exceed the tokens issued to that user |
| OneShotTokens.UsableExactly | OAuth2Server/controllers/PasswordResetController.cc:208-262 | in every interleaving a token can be taken if and only if it was issued, was not taken and has not expired |
| OneShotTokens.IssuedAsRequested | OAuth2Server/controllers/PasswordResetController.cc:98-139 | in every interleaving an issued token was requested for its user, 900 seconds before its expiry for a reset and 86400 for a verification |
| OneShotTokens.ConfirmationGoesThrough | OAuth2Server/controllers/EmailVerificationController.cc:114-152 | taking a usable token and the change it allows go through for its user, and it is usable no more |
| OneShotTokens.TokenTable.Issue | OAuth2Server/controllers/PasswordResetController.cc:98-139 | a fresh unused token with its lifetime |
| OneShotTokens.TokenTable.Consume | OAuth2Server/controllers/EmailVerificationController.cc:114-133 | the atomic consume returns the user if and only if the token is there, unused and unexpired |
| Sessions.RevokedStays | OAuth2Server/controllers/UserSelfServiceController.cc:235-255 | in every interleaving a revoked token stays revoked, and none disappears or changes hands |
| Sessions.AllRevokedIsTrue | OAuth2Server/controllers/UserSelfServiceController.cc:230-290 | in every interleaving, an answer that says all sessions have been revoked means that every token the user had when the password was set is revoked |
| Sessions.RevocationIsTheUsers | OAuth2Server/controllers/UserSelfServiceController.cc:235-255 | each statement of the chain revokes all tokens of its user in one table if it goes through, and leaves those of others as they are |
| Sessions.ChainAnswers | OAuth2Server/controllers/UserSelfServiceController.cc:235-290 | the chain answers after both statements, and promises everything if and only if both went through |
| Sessions.TokenTables.RevokeSessions | OAuth2Server/controllers/UserSelfServiceController.cc:235-290 | the chain revokes what each statement reached, and promises everything only if both went through |
| Consent.SplitScopes | OAuth2Server/controllers/SessionController.cc:594-603 | the loop gives the pieces between blanks without the empty ones |
| Consent.ScopesAreTheTokens | OAuth2Plugin/src/controllers/OAuth2StandardController.cc:892-901 | a token is in the split if and only if it stands in the string between blanks or ends |
| Consent.ScopesInOrder | OAuth2Plugin/src/controllers/OAuth2StandardController.cc:892-901 | whatever blanks stand around them, the tokens are split in their order, in which they are checked |
| Consent.CodeIffConsented | OAuth2Plugin/src/controllers/OAuth2StandardController.cc:1607-1707 | a code is issued if and only if every scope is consented to when it is checked; otherwise the consent page follows at the first that is not |
| Consent.ConsentCovers | OAuth2Server/controllers/SessionController.cc:593-644 | once all saves of a consent have landed and none is withdrawn, every scope string made of its tokens proceeds to a code |
| Consent.NothingElseIsCovered | OAuth2Server/controllers/SessionController.cc:593-644 | a scope that was not consented to before, and whose save is not part of the consent or has not landed, stops the request |
| TokenStore.InSyncExactly | OAuth2Frontend/src/services/http.ts:12-86 | in every interleaving the refresh token in memory is the stored one after every step if and only if every login and every refresh that takes effect brings a string |
| TokenStore.AccessHasRefreshExactly | OAuth2Frontend/src/services/http.ts:12-86 | in every interleaving a present access token has a present refresh token after every step if and only if that is so of the tokens every login and every effective refresh brings |
| TokenStore.IncompleteRefreshLosesBoth | OAuth2Frontend/src/services/http.ts:35-52 | a run of one restore after which the store holds the access token, `undefined` and its name, so that neither holds |
| TokenStore.LogoutLastsExactly | OAuth2Frontend/src/services/http.ts:22-86 | after a logout, the store stays empty in every continuation without a login if and only if no restore and no request's refresh is under way |
| TokenStore.AtMostOneRetry | OAuth2Frontend/src/services/http.ts:63-86 | in every interleaving each request is sent at most twice and causes at most one refresh |
| TokenStore.StoreAfter | OAuth2Frontend/src/services/http.ts:15-86 | every step sets the new tokens, clears the store at a logout or a refused refresh, or leaves it as it is |
| TokenStore.Http.SetBoth | OAuth2Frontend/src/services/http.ts:15-20 | both variables and the stored item, as a string |
| TokenStore.Http.Clear | OAuth2Frontend/src/services/http.ts:22-26 | everything gone |
| TokenStore.Http.TryRestoreSession | OAuth2Frontend/src/services/http.ts:35-38 | the restore up to its await: true with an access token, false without a refresh token, otherwise a refresh under way |
| TokenStore.Http.FinishRestore | OAuth2Frontend/src/services/http.ts:40-51 | behind the await, whatever happened meanwhile: the new tokens are set, or everything is cleared |
| TokenStore.Http.OnResponse | OAuth2Frontend/src/services/http.ts:63-68 | a first 401 with a refresh token at hand starts a refresh, anything else settles the request |
| TokenStore.Http.OnRefreshed | OAuth2Frontend/src/services/http.ts:69-82 | the request is sent again with the new tokens, or everything is cleared |

## Left out

- PyYAML, which the tools use when it is installed; HTTP, JSON bodies, logging, metrics, audit, e-mail and the storage plug-in behind `saveTokenPair`, `hasUserConsent` and `saveUserConsent`.
- Digits in `_coerce` are the ASCII ones; Python's `\d` also takes other decimal digits.
- EndpointRows.ExtractEndpoints: how Python prints a tag that is no string is the parameter `str`; an error is returned as no rows, without its message.
- EndpointGate.GateIsExact: is for fields without tabs and line breaks; EndpointGate.OwnBaselinePasses says that this is exactly what is needed.
- BaselineFields.OnlyTabsMatter: the rendering `str` of a tag that is no string adds no line break of its own.
- The text of the gate's report; its exit code is modelled.
- SchemaMigrations.Migrator.Migrate: the directory is given as the versions and texts of its matching files; the file name pattern and a number too large for `stoi` are not modelled. A missing database client is the case of the table that cannot be created.
- The commit of a migration happens when its transaction object goes away, just before `applyMigration` returns true; a commit that fails at that point is not modelled.
- `std::sort` and `sorted` are a sorting function, proved to order and to permute.
- Reading and writing the Markdown files, and the table-pipe helper of the tool.
- DeviceGrant.DeviceCodes.DeviceAuthorization: the device code is fresh (a precondition), since it is a generated secure token, and stands for its hash, which is taken as injective. The check that the client exists is not modelled.
- DevicePairs.PairsStayWithinExactly: a code that is not inserted yet can be inserted with a user code of any length, also one that the generator or the column would not allow; DevicePairs.AnyNumberOfPairs and DevicePairs.BoundIsAttained do not depend on that.
- The poll interval of RFC 8628 section 3.5 and `slow_down`: the source does not enforce them. The status `denied` is read but never written by the modelled code.
- UserCode.CodesAreEquallyLikely: is about the random bytes; codes from the UUID fallback are not uniform.
- FanOutJoin.OneCompleteResponse: is about the join; what an aborted transaction undoes in `updateClientScopes` is not modelled.
- UpdateBuilder.UpdateIsPlain: the statement has the grammar the builder can produce, and values are strings; SQL's types and conversions are not modelled.
- LockoutOverlap.User.WriteRow: a failing UPDATE, older schemas without the columns and the password rehash are not modelled.
- Lockout.DisabledStays: is for attempts that do not overlap; LockoutOverlap.DisableHoldsExactly says when it holds for others.
- Lockout.EnableStartsOver: is for attempts that do not overlap; LockoutOverlap.EnableOpensExactly and LockoutOverlap.EnableClearsExactly say when it holds for others.
- LockoutOverlap.DisableHoldsExactly: is for attempts under way that have read the row more than an hour before 9999999999; LockoutOverlap.LockHoldsExactly has no such bound.
- Lockout.ThreeHoursForTwenty: is for attempts that do not overlap, or whose writes find the row as it was read (LockoutOverlap.FreshWritesSerialize). With `disableUser` in the run, the attempts are before 9999999999; beyond that date disabling could shorten a lock.
- ConfigOverrides.GetJsonPointer: returns the node as a value; assigning through the pointer is the tree update `Assign`. An index too large for `std::stoul` is an index out of range.
- The search for the `.env` file; a line is a character sequence without an encoding.
- OneShotTokens.TokenTable.Issue: the token is fresh (a precondition), for the same reason as device codes; cleaning up old rows is not modelled.
- Sessions.AllRevokedIsTrue: token rows are never deleted in the model. The revocation chain after a password reset is not modelled: it revokes by the internal id, and which id the rows hold is decided by code that is not part of this model.
- Consent.CodeIffConsented: is for a known internal user; without one the source issues a code unchecked. Failing saves and code generation end in errors that are not modelled.
- TokenStore.InSyncExactly: is about one browser tab; other tabs share the storage.
- The Google, WeChat, GitHub and WebAuthn controllers, the Vue routers and stores, the generated ORM classes, the log filters, the authorization and request filters, and the other parsing tools.
