# Lumogis verification model

A Dafny model of the self-contained logic of Lumogis Core: text splicing of Compose overrides, the
tool-calling session loop, limiters and caches, visibility filters, and the traversals and ledgers of
its operational scripts. `dafny verify dfyconfig.toml` checks the whole project.

Code that the repository writes as loops and objects is modelled as methods and classes, each proved
against a specification function; the laws are lemmas about those functions, over every input and every
run. Code that is an expression there is a function here.

## What is modelled

- **Compose override splicing** (`IngestBinds*`, `BindSources`, `Splicing`, `Splitting`, `Text`). The managed block
  between two marker lines, inserted, replaced, stripped and validated by `find` and slicing, on
  strings character by character, with Python's `strip`, `splitlines`, `find` and `join`.
- **The `COMPOSE_FILE` chain** (`ComposeEnv*`). Printed by the orchestrator with a multi-line regex,
  parsed by stack-control with its own line parser.
- **The session loop** (`Session*`, `Stream*`). One bounded protocol in a sync and a stream form, the
  shared chain budget, the observer, and the accumulator that rebuilds tool calls from stream deltas.
  `MAX_TOOL_ROUNDS` is a parameter; provider and tools are arbitrary functions of the call number.
- **Limiters and caches** (`SlidingWindow`, `RateLimit`, `Login*`, `LimiterCounts`, `Ttl*`, `CachedReads`, `Token*`,
  `Sid*`). Classes with ghost histories; step systems that interleave freely for logins and for reads
  through a cache, the latter for any table and value and then for token versions and session verdicts.
- **Visibility** (`Visibility*`, `SqlText`, `Qdrant*`). One access rule in SQL, Cypher and Qdrant form, a
  parser for the SQL and Cypher conditions, and the compiler from portable dictionaries to Qdrant filters.
- **Compose policy, Pass A** (`ComposePolicy*`). The recursive include walk and the report it produces.
- **Egress allow files** (`Egress*`). Host normalisation, the printed file, and the parser that reads it.
- **Migrations** (`Migration*`). Boots over a transactional store, with a failure or a lost connection
  possible at every point of a file.
- **Injected chat context** (`ContextFit`). Fragments, hints and citations in parallel lists cut to budgets.

## What the proofs found

These are properties one would expect that do not hold on every input. Each is stated as a lemma that says
exactly when the code has the property.

- Merging ingest binds twice is not always the same as merging once: on a text with services whose markers
  are not a BEGIN followed later by an END, a stray END makes every merge append one more block and a stray
  BEGIN makes the second merge swallow text (`MergeOverMerge`, `EndFirstAppends`, `BeginOnlySwallows`;
  `StrayMarkersExist` has two short texts).
- Dropping the extra paths, which strips the block, does not undo adding them unless there was a block before or
  the text had the three section lines and ended in one newline (`ShortMergeOverMerge`); dropping and adding them
  again moves the block unless it stood last behind such a text (`MergeOverShortMerge`).
- Strip undoes merge only when the text already had all three section lines; otherwise the scaffold that
  merge added stays (`StripUndoesMerge`).
- After chaining, stack-control runs with the chain and the override if and only if no line in front of the
  assignment gives it other files and the old value is one line for it (`StackReadsChain`, for every text). A form
  feed breaks it: in front of an assignment it hides it from the regex only (`FormFeedHidesAssignment`), inside
  the value it cuts the override off (`FormFeedInValueLosesOverride`).
- Chaining adds just the override to the files stack-control runs with if and only if no such line is in front and
  it ran with the files of the old chain, or of a value with a line break reads all of them and the override
  (`ChainExtendsStack`, for every text). It does not when the first assignment has a blank before `=`
  (`ChainCanReplaceFiles`), when it is empty, after which the override runs alone
  (`EmptyAssignmentLosesFiles`), or when there is none and stack-control was started with another default
  (`UnassignedLosesFallback`).
- Sync and stream sessions part when a reply carries calls with another stop reason, or when the forced
  last answer carries calls (`ModesAgree`, `ModesCanPart`); a stream that ends without a finish reason drops its calls
  (`StreamDecomposesWhole`).
- A cached token version is the live one if and only if no commit of that user came after the read behind it
  (`CachedAnswerIsLiveIff`, for versions that only rise). An invalidate does not rule that out: one that runs
  between the commit and a delayed put leaves the old version in the cache for up to the time-to-live
  (`OvertakenInvalidate`).
- A closed session whose verdict is then dropped stays denied if and only if no request is under way that looked it
  up before and holds an allow (`ClosedStaysDeniedIff`). Deleting a user drops the verdicts first, so that one whole
  request in between is enough to keep a deleted session allowed for up to the time-to-live (`DropBeforePurge`).
  Verdicts are cached by session alone: a cached allow is right if and only if the session is still open and belongs
  to the asking user (`CachedAllowIsRightIff`).
- The Qdrant form of a refused shared scope matches rows of the sentinel user (`BackEndsAgree`). The export
  rule is documented as narrower than visibility (`orchestrator/visibility.py:286-298`); it is not for a user
  without shared access (`AuthoredIsVisibleIff`), and its graph form ignores the scope
  (`AuthoredCypherIgnoresScope`).
- A `must` beside a `should` is dropped from a portable filter, at any depth. The filter then means the
  dictionary exactly for payloads that meet every dropped `must` whenever it accepts them
  (`MustBesideShouldIsDropped`, `MixedMeaning`); what reaches Qdrant of an arbitrary dictionary is `Kept`, in
  which an empty `should` restricts nothing (`BuildMeansKept`).
- The limit of 5 failures per minute holds for logins one after the other. With at most c logins of an address
  under way at once it is 4 + c, and that is reached (`InterleavedFailureBound`, `InterleavedBoundIsReached`).
- A declared host with a newline before an inner dot is accepted and printed, and the printed file is then
  refused (`AllowFileRoundTrip`, `NewlineEntryIsAccepted`).

The context hook has a contract, that listeners append (`orchestrator/events.py:18`); the code does not
enforce it. Citations and hints belong to the fragments beside them if and only if the listeners left the
retrieved texts in place (`CitationsMatchIff`, `SectionsAreAlignedIff`), which appending does
(`AppendingIsInPlace`).

## Model

| member | source | states |
|---|---|---|
| IngestBinds.BuildExtraVolumeLines | orchestrator/compose_ingest_binds.py:43-50 | the loop yields one line per path after the first: a read-only mount at the container path of its index, from the host directory its form gives (below `/host`, on a drive, the root, or the path itself) |
| IngestBinds.RenderManagedVolumesBlock | orchestrator/compose_ingest_binds.py:53-62 | the BEGIN line, one list item per path after the first with the mount of that path, and the END line, each with its newline, or nothing for fewer than two paths |
| BindSources.OneSource | orchestrator/compose_ingest_binds.py:28-40 | the rules on `/host/`, drives, `/host` and other paths give every path one host directory |
| BindSources.SourceMounts | orchestrator/compose_ingest_binds.py:28-40 | the mapped source is that directory, for every path and system |
| BindSources.TargetsDiffer | orchestrator/compose_ingest_binds.py:21-25 | two indexes have two container paths |
| Text.DecimalReads | orchestrator/compose_ingest_binds.py:21-25 | a printed index reads back as itself and has no leading zero |
| IngestBinds.ValidateOverrideStructure | orchestrator/compose_ingest_binds.py:185-208 | the structural checks return the verdict of the specification, error by error |
| IngestBindsLaws.MergeIsFramed | orchestrator/compose_ingest_binds.py:75-110 | every merge result is an unchanged text in front, the block, and an unchanged text behind; only a text without a services line loses its content |
| IngestBindsLaws.MergeMounts | orchestrator/compose_ingest_binds.py:75-110 | in every merged text stands one block with the mount of every path but the first |
| IngestBindsLaws.FreshFile | orchestrator/compose_ingest_binds.py:65-85 | a missing or blank file becomes the scaffold, spelled out, with the block behind it |
| IngestBindsLines.KeywordLineIff | orchestrator/compose_ingest_binds.py:75-110 | the multi-line regex for a keyword matches exactly when some line, stripped, is the keyword |
| IngestBindsLines.VolumesSectionIff | orchestrator/compose_ingest_binds.py:75-110 | a text has the section lines exactly when three of its lines, stripped, are the three keywords |
| IngestBindsLines.HasTargetIff | orchestrator/compose_ingest_binds.py:185-208 | a line mounts a container path exactly when some piece of it is that path but for blanks |
| IngestBindsMerge.MergeReplaces | orchestrator/compose_ingest_binds.py:75-110 | a second merge overrides the first, and the text before BEGIN and after the END line is kept character for character |
| IngestBindsMerge.MergeOverMerge | orchestrator/compose_ingest_binds.py:75-110 | for all texts, for lists of at least two paths and a first list p without spaces in its paths, merging q over merging p equals merging q if and only if the text is blank, has a block, has no marker, or has no services line |
| IngestBindsMerge.EndFirstAppends | orchestrator/compose_ingest_binds.py:75-110 | with an END and no BEGIN before it, every merge appends one more block |
| IngestBindsMerge.BeginOnlySwallows | orchestrator/compose_ingest_binds.py:75-110 | with a BEGIN and no END, the second merge loses text |
| IngestBindsMerge.StrayMarkersExist | orchestrator/compose_ingest_binds.py:75-110 | a services line followed by END alone, or by BEGIN alone, is a text on which merging twice goes wrong |
| IngestBindsShort.ShortMergeOverMerge | orchestrator/compose_ingest_binds.py:75-131 | for q of fewer than two paths, which strips, merging q over merging p equals merging q if and only if the text has a block, or is marker-free with all three section lines and ends in exactly one newline |
| IngestBindsShort.MergeOverShortMerge | orchestrator/compose_ingest_binds.py:75-131 | for p of fewer than two paths, merging q over it equals merging q if and only if the text has no block, or its block stands last behind a text with all three section lines that ends in exactly one newline |
| IngestBindsShort.ShortMergeTwice | orchestrator/compose_ingest_binds.py:75-131 | with both lists shorter than two the law holds if and only if stripping brings no second block to light |
| IngestBindsStrip.StripIgnoresMerge | orchestrator/compose_ingest_binds.py:113-131 | stripping a text whose block was replaced gives what stripping the old text gives |
| IngestBindsStrip.StripUndoesMerge | orchestrator/compose_ingest_binds.py:113-131 | on marker-free text strip after merge is the text up to trailing whitespace if and only if it had all three section lines |
| IngestBindsValidate.MergedTextIsValid | orchestrator/compose_ingest_binds.py:185-208 | on every text where merging overrides, the checks accept a merge result exactly for one less than the number of paths, and name the actual count otherwise |
| IngestBindsValidate.BadTargetIs | orchestrator/compose_ingest_binds.py:185-208 | of the bind lines the first that lacks its container path is reported, by its number |
| IngestBindsVerdict.MergedTextVerdict | orchestrator/compose_ingest_binds.py:185-208 | for paths that may contain line breaks, the checks judge the first lines of the list items, and accept a merge for the number of extra paths if and only if every mount is whole on the first line of its item |
| IngestBindsVerdict.BrokenPathIsRefused | orchestrator/compose_ingest_binds.py:185-208 | a source with a line break and no colon in front of it is never whole on its first line |
| IngestBindsStray.StrayEndIsInvalid | orchestrator/compose_ingest_binds.py:185-208 | over a stray END that comes first, every merge is refused for missing markers |
| IngestBindsStray.StrayBeginVerdict | orchestrator/compose_ingest_binds.py:185-208 | over a stray BEGIN, the verdict counts the list items after it as well; with one less than the number of paths the merge is accepted if and only if there are none |
| ComposeEnvChain.ChainTwice | orchestrator/compose_ingest_binds.py:145-163 | chaining is idempotent and appends the override, once, to the files |
| ComposeEnvChain.UnchainUndoesChain | orchestrator/compose_ingest_binds.py:166-182 | unchaining restores the files in order and touches no other line |
| ComposeEnvLaws.PartsOfJoin | orchestrator/compose_ingest_binds.py:166-182 | printing parts with colons and parsing them back gives the same parts |
| ComposeEnvEdits.AssignedIff | orchestrator/compose_ingest_binds.py:145-182 | the regex takes a value from a line exactly when the line is the name and `=` with blanks around the name, then the value |
| ComposeEnvEdits.FirstOrNone | orchestrator/compose_ingest_binds.py:145-182 | every text has a first line that assigns, or none |
| ComposeEnvEdits.ChainAt | orchestrator/compose_ingest_binds.py:145-163 | for every text with an assignment, chaining changes nothing if the override is listed, else writes it behind the old value and keeps the rest |
| ComposeEnvEdits.ChainNowhere | orchestrator/compose_ingest_binds.py:145-163 | for every text without one, chaining appends a line with default and override |
| ComposeEnvEdits.UnchainAt | orchestrator/compose_ingest_binds.py:166-182 | for every text with an assignment, unchaining changes nothing if the override is not listed, else writes the other names, or the default, and keeps the rest |
| ComposeEnvEdits.UnchainNowhere | orchestrator/compose_ingest_binds.py:166-182 | a text without an assignment is left alone |
| ComposeEnvEdits.PartsArePieces | orchestrator/compose_ingest_binds.py:145-163 | the parts of a value are its pieces between colons, stripped, the blank ones left out |
| ComposeEnvEdits.WithoutDrops | orchestrator/compose_ingest_binds.py:166-182 | dropping a name drops every occurrence and keeps the others in order |
| ComposeEnv.CurrentComposeFile | stack-control/main.py:75-87 | the search loop returns the value of the first visible assignment, or the fallback |
| ComposeEnvEdits.ReadIff | stack-control/main.py:75-87 | a line is read exactly when only whitespace stands before the name and `=`, and its value is the stripped rest |
| ComposeEnvEdits.FirstReadIs | stack-control/main.py:75-87 | the first line with a non-empty value decides, and the fallback when there is none |
| ComposeEnvEdits.FlagsAre | stack-control/main.py:101-112 | every file stands behind a flag of its own, in order |
| Text.SplitlinesAre | stack-control/main.py:75-87 | the lines a text is cut into have no break inside and, with their breaks, make up the text |
| ComposeEnv.ComposeCmd | stack-control/main.py:101-112 | the command lists every file of the chain with its flag, in order, before the arguments |
| ComposeEnvReadBack.StackAfterChain | stack-control/main.py:75-112 | for every env text, the files stack-control runs with after a reported change: those of a line in front, or the chain and the override, or the part of the old chain in front of a line break, which is no longer than the chain |
| ComposeEnvReadBack.StackReadsChain | stack-control/main.py:75-112 | for every env text, after a reported change stack-control runs with the files of the chain in order and then the override if and only if no line in front gives it other files and the old chain is one line for it |
| ComposeEnvReadBack.StackReadBefore | stack-control/main.py:75-87 | for every env text, the files stack-control ran with before the edit, by the lines in front of the assignment and from it on |
| ComposeEnvReadBack.ChainExtendsStack | orchestrator/compose_ingest_binds.py:145-163 | for every env text, chaining adds exactly the override to the files stack-control runs with if and only if no line in front of the assignment is read and the old chain was in use, or what is read of a broken old chain is those files and the override |
| ComposeEnvReadBack.FormFeedInValueLosesOverride | stack-control/main.py:75-87 | for any two names, a form feed between them in the value makes stack-control run the first alone, before and after the edit |
| ComposeEnvStack.PlainChainIsRead | stack-control/main.py:75-112 | with no whitespace but blank, tab and newline, chaining is always read back in full |
| ComposeEnvStack.PlainReadBefore | stack-control/main.py:75-87 | for such texts, which files stack-control ran with before the edit, in terms of what the regex matches |
| ComposeEnvStack.PlainChainExtends | orchestrator/compose_ingest_binds.py:145-163 | for such texts, chaining only adds the override if and only if the default of stack-control is the written one (no assignment), or it sees the first assignment, or it reads the same files further down |
| ComposeEnvStack.ReadIsAssigned | stack-control/main.py:75-87 | what stack-control reads on a plain line the regex reads too, with the same value |
| ComposeEnvStack.ChainCanReplaceFiles | orchestrator/compose_ingest_binds.py:145-163 | for any two names, a text with a blank before `=` where chaining swaps the files stack-control uses |
| ComposeEnvStack.EmptyAssignmentLosesFiles | orchestrator/compose_ingest_binds.py:145-163 | after chaining an empty assignment stack-control runs the override alone, whatever it ran before |
| ComposeEnvStack.UnassignedLosesFallback | stack-control/main.py:53-87 | without an assignment, chaining replaces the default stack-control was started with by the default of the orchestrator |
| ComposeEnvStack.FormFeedHidesAssignment | stack-control/main.py:75-87 | for any name, behind a form feed only stack-control sees the assignment, and goes on with it after the edit |
| SessionLoop.Session.DispatchToolUnderCap | orchestrator/loop.py:76-106 | one dispatch counts, trips and blocks as the specification says, on the shared budget object |
| SessionLoop.Session.DispatchCalls | orchestrator/loop.py:179-194 | the dispatch loop of one round yields the tool messages and the ledger of the specification |
| SessionLoop.Session.SyncRound | orchestrator/loop.py:158-209 | one sync round either advances or finishes the session as specified |
| SessionLoop.Session.ReadStream | orchestrator/loop.py:211-234 | reading a stream yields every text at once and collects texts and calls in order |
| SessionLoop.Session.StreamRound | orchestrator/loop.py:211-281 | one stream round either advances, with a blank line streamed, or finishes the session as specified |
| SessionLoop.Session.ForcedAnswer | orchestrator/loop.py:284-322 | the last answer is asked for without tools and ends the session |
| SessionLoop.Session.RunSessionLoop | orchestrator/loop.py:145-322 | the round loop, in both modes, ends in the state, dispatches, events and stream of the specification run |
| SessionLaws.DispatchAnswers | orchestrator/loop.py:179-194 | a dispatch round yields one tool message per call, in order, with the id of its call |
| SessionLaws.RunTranscript | orchestrator/loop.py:145-322 | messages only grow; what a run adds is rounds of an assistant message followed by exactly its tool results, then one assistant message; provider calls are rounds plus one |
| SessionResults.RunTrace | orchestrator/loop.py:145-322 | the observer sees MODEL_CALL TOOL_DISPATCH TURN_ADVANCE per round and then MODEL_CALL TERMINATE, and every snapshot extends the initial messages |
| SessionSnapshots.RunSnapshots | orchestrator/loop.py:145-322 | every snapshot names its event, counts the turns before it and holds the messages of the rounds before it, with its own from the dispatch on; only the last says how the session ended |
| SessionResults.RunStreams | orchestrator/loop.py:211-266 | the streamed text is the texts of the rounds with a blank line after each dispatch round; a sync run streams nothing |
| SessionResults.DispatchUnderCap | orchestrator/loop.py:76-106 | under a positive cap, whatever the counter says, exactly the calls that fit run, and the trip event fires on the first one that does not |
| SessionResults.DispatchUnlimited | orchestrator/loop.py:76-106 | without a budget or a positive cap every call runs and neither counter nor event moves |
| SessionResults.SessionWithoutCap | orchestrator/loop.py:179-194 | over a whole session without a cap every requested dispatch runs, in order, and is answered by its tool |
| SessionResults.SessionCap | orchestrator/loop.py:179-194 | over a whole session exactly the first cap dispatches run, observed is the smaller of both numbers, the event fires once iff more were asked, and the rest are answered with the stub |
| SessionResults.WholeSession | orchestrator/loop.py:325-348 | from the initial state turn count is the number of rounds, at most MAX_TOOL_ROUNDS + 1, and bounds provider calls, trace and terminal state |
| SessionResults.ModesAgree | orchestrator/loop.py:145-322 | sync and stream end in the same state with the same dispatches and events if and only if every reply with calls stops for them and the forced answer has none |
| SessionResults.ModesCanPart | orchestrator/loop.py:145-322 | with a provider whose replies carry a call but stop for another reason the two modes end differently in every session |
| StreamAccumulator.ParseResponse | orchestrator/adapters/openai_llm.py:196-213 | the reply has the message's text, its calls in order with their ids and names and decoded arguments (`{}` when there are none), and stops for them exactly when the message does |
| StreamAccumulator.AbsorbDeltas | orchestrator/adapters/openai_llm.py:80-95 | the inner loop folds the deltas of one chunk into the accumulator |
| StreamAccumulator.EmitCalls | orchestrator/adapters/openai_llm.py:97-110 | one call per accumulated entry, in order, with its id and name and decoded arguments |
| StreamAccumulator.ChatStream | orchestrator/adapters/openai_llm.py:58-115 | the streaming loop emits the events of the specification, whose fields `StreamReportsSpelled` gives |
| StreamLaws.FoldSpells | orchestrator/adapters/openai_llm.py:69-98 | accumulating deltas in any interleaving spells every call, in order of first appearance |
| StreamLaws.StreamDecomposesWhole | orchestrator/adapters/openai_llm.py:69-115 | text and calls of a stream are those of the whole message, the calls if and only if it finished or had none, with one end event, last |
| StreamLaws.FinishedStreamIsFaithful | orchestrator/adapters/openai_llm.py:69-115 | a finished stream gives text, calls and stop reason of the parsed whole message |
| StreamLaws.StreamReportsSpelled | orchestrator/adapters/openai_llm.py:97-115 | a finished stream reports one call per index with the id, name and decoded arguments its deltas spell, and every stream stops for calls exactly when it says so |
| StreamLaws.SplitInvariant | orchestrator/adapters/openai_llm.py:80-95 | cutting a call's arguments anywhere changes nothing |
| StreamLaws.InterleavingInvariant | orchestrator/adapters/openai_llm.py:80-95 | neighbouring deltas of two calls commute if and only if one of the calls has begun |
| SlidingWindow.Prune | orchestrator/rate_limit.py:17-39 | dropping old entries from the front leaves the bucket without its old prefix |
| SlidingWindow.PrunedIsFrom | orchestrator/rate_limit.py:17-39 | front pruning of a bucket that keeps part of a sorted history equals filtering the whole history |
| RateLimit.RequestRateLimiter.Check | orchestrator/rate_limit.py:106-116 | refuses exactly when the window holds max admitted requests of the key in the full history |
| RateLimit.RequestRateLimiter.Clear | orchestrator/rate_limit.py:118-120 | forgets every admission |
| RateLimit.WindowBound | orchestrator/rate_limit.py:106-116 | over every run, every closed window of the configured length holds at most max admissions per key |
| LimiterCounts.AdmitsIff | orchestrator/rate_limit.py:106-116 | a request is admitted if and only if fewer than max requests of its key were admitted since the start of its window |
| LimiterCounts.AdmittedNext | orchestrator/rate_limit.py:106-116 | over every run each check adds its request exactly then |
| LimiterCounts.AdmittedBound | orchestrator/rate_limit.py:106-116 | at most max admitted requests of a key in any stretch of the window's length |
| LimiterCounts.AllowsIff | orchestrator/rate_limit.py:17-39 | a login is let through if and only if fewer than 5 failures of its address, and fewer than 5 of its email with no success behind them, are at most 60 seconds old |
| LimiterCounts.LoginIs | orchestrator/routes/auth.py:202-218 | over the limit it is refused and nothing noted, else the credentials decide: wrong ones are noted for both keys, right ones clear the email |
| LimiterCounts.FailedBound | orchestrator/routes/auth.py:202-218 | over sequential logins at most 5 failures of an address, and of an email since its last success, in any 60 seconds |
| LimiterCounts.InterleavedFailedBound | orchestrator/routes/auth.py:202-218 | with at most c logins of a key under way at once, at most 4 + c |
| LoginLimiter.FailureRateLimiter.Check | orchestrator/rate_limit.py:17-39 | answers fewer than 5 address failures and fewer than 5 email failures since the last success, although the early return leaves the email bucket unpruned |
| LoginLimiter.FailureRateLimiter.RecordFailure | orchestrator/rate_limit.py:42-54 | one failure is added to the history of both keys |
| LoginLimiter.FailureRateLimiter.RecordSuccess | orchestrator/rate_limit.py:57-65 | a success clears the email history and leaves the address history |
| LoginLimiter.FailureRateLimiter.Clear | orchestrator/rate_limit.py:91-94 | forgets every failure |
| LoginLimiter.Login | orchestrator/routes/auth.py:202-218 | check, verify, record: refused logins record nothing, others record their outcome |
| LoginLimiter.FailureBound | orchestrator/routes/auth.py:202-218 | over sequential logins, every closed 60 second window holds at most 5 failures of an address |
| LoginInterleaving.InterleavedFailureBound | orchestrator/routes/auth.py:202-218 | under every interleaving of checks and records with at most c logins of a key under way at once, every closed 60 second window holds at most 4 + c failures of it |
| LoginInterleaving.InterleavedBoundIsReached | orchestrator/routes/auth.py:202-218 | for every positive c some run has exactly 4 + c failures in one window |
| TtlCache.TtlLru.Get | orchestrator/auth.py:121-134 | a fresh hit moves to the back, an expired entry is dropped, a miss changes nothing |
| TtlCache.TtlLru.PutNow | orchestrator/auth.py:136-141 | a put stamps, moves to the back and evicts from the front |
| TtlCache.TtlLru.Drop | orchestrator/auth.py:143-145 | removes the entry of one key and no other |
| TtlCacheLaws.RunBounded | orchestrator/auth.py:136-141 | over every run at most maxsize entries, with distinct keys |
| TtlCacheLaws.HitIsLastPut | orchestrator/auth.py:121-145 | a hit returns the latest put since the last invalidate, at most ttl old |
| TtlCacheLaws.HitExact | orchestrator/auth.py:121-134 | a get hits if and only if the key is resident and its last put at most ttl old, and then with that value |
| TtlCacheLaws.RecentKeysStay | orchestrator/auth.py:121-145 | a touched key stays resident while fewer than maxsize other keys were put or hit since |
| TtlCacheLaws.ResidentWasTouched | orchestrator/auth.py:121-145 | a resident key was touched and not removed since |
| CachedReads.CachedAnswerIsRecent | orchestrator/auth.py:251-294 | for any table and cached value, under every interleaving of gets, reads, puts, commits and invalidates, a cached answer was live at the read of a put at most ttl before it, with no invalidate of the key since that put |
| CachedReads.UncachedAnswer | orchestrator/auth.py:251-294 | any other answer is what the request's own read found, or the answer to its failed read |
| TokenVersions.CachedVersionIsRecent | orchestrator/auth.py:280-294 | under every interleaving a cached version was live at the read of a put at most ttl before the answer, with no invalidate of the user since that put |
| TokenVersions.CachedAnswerIsLiveIff | orchestrator/auth.py:280-294 | when versions of a user only rise, a cached answer is the live version if and only if no commit of the user came after the read behind it; every invalidate so far ran before the put |
| TokenVersions.UncachedVersion | orchestrator/auth.py:280-294 | any other answer was live at the request's own read |
| TokenVersions.OvertakenInvalidate | orchestrator/auth.py:241-249 | for any two versions and any ttl, a trace where a put overtakes commit and invalidate and the old version is answered |
| SidVerdicts.CachedAllowIsRightIff | orchestrator/auth.py:251-277 | under every interleaving a cached allow was looked up by a put at most ttl ago, and is right if and only if that lookup was for the same user and no revoke or deletion closed the session since |
| SidVerdicts.CachedDenyIsRight | orchestrator/auth.py:251-277 | a cached deny of an existing session stays right for the user it was looked up for |
| SidVerdicts.UncachedVerdict | orchestrator/auth.py:251-277 | any other answer is the verdict at the request's own lookup, or a deny for its failed lookup that leaves the cache alone |
| SidVerdicts.FailedLookup | orchestrator/auth.py:251-277 | a failed lookup answers its request with a deny, ends it and caches nothing |
| SidVerdicts.ClosedStaysDeniedIff | orchestrator/auth.py:246-277 | closing a session and then dropping its verdict denies it in every later run if and only if no request under way holds an allow of it |
| SidVerdicts.DropBeforePurge | orchestrator/services/users.py:363-372 | for any claim, a run in which one request between the drop and the deletion leaves a deleted session allowed for up to ttl |
| TokenLookup.ResolveCurrentTokenVersion | orchestrator/auth.py:280-294 | the method answers and leaves the cache as the specification says |
| TokenLookup.AtomicAnswerIsLive | orchestrator/auth.py:280-294 | with uninterrupted requests and writers every answer equals the live version |
| TokenLookup.ResolveRemembers | orchestrator/auth.py:280-294 | after a miss the version read is the next answer for ttl seconds, a missing row is not remembered, and without a positive ttl nothing is |
| SidLookup.SidMustDenyAccess | orchestrator/auth.py:251-277 | a fresh verdict is answered, else the looked-up one, else a failed lookup denies |
| SidLookup.FailedLookupDenies | orchestrator/auth.py:251-277 | a failed lookup denies, adds nothing to the cache, and the next request asks again; the cache is unchanged if and only if there was no expired verdict to drop |
| SidLookup.VerdictIsRemembered | orchestrator/auth.py:251-277 | after a miss the looked-up verdict is the next answer for ttl seconds, and without a positive ttl the cache is left alone |
| SidLookup.AtomicVerdictIsRight | orchestrator/auth.py:251-277 | with uninterrupted requests and closes that drop their verdicts, every answer is whether the session must be denied now, for every ttl; a failed lookup denies |
| QdrantFilterLaws.BuildNeverNarrows | orchestrator/adapters/qdrant_store.py:364-410 | whatever dictionary translates, its filter accepts all that the dictionary allows |
| QdrantFilterErrors.BuildFollows | orchestrator/adapters/qdrant_store.py:364-410 | a dictionary translates if and only if every entry that is read has a key and a value or any match; else the error is that of the first one that has not |
| QdrantFilterLaws.BuildPreservesMeaning | orchestrator/adapters/qdrant_store.py:364-410 | every well-formed nested dictionary translates to a filter accepting the same payloads |
| QdrantFilterLaws.MustBesideShouldIsDropped | orchestrator/adapters/qdrant_store.py:390-410 | for every dictionary with both keys the filter means the `should` alone, and the whole exactly for payloads that meet the `must` whenever they meet the `should` |
| QdrantFilterLaws.DroppedMustCanMatter | orchestrator/adapters/qdrant_store.py:390-410 | a dictionary that no payload meets and whose filter accepts one |
| QdrantFilterKept.KeptTranslates | orchestrator/adapters/qdrant_store.py:364-410 | every dictionary that translates has a well-formed part with the same filter |
| QdrantFilterKept.BuildMeansKept | orchestrator/adapters/qdrant_store.py:364-410 | for every dictionary that translates, the filter accepts exactly what the kept part allows, and all that the whole allows |
| QdrantFilterKept.MixedMeaning | orchestrator/adapters/qdrant_store.py:383-410 | with a `must` beside a `should` at any depth the filter translates, and is exact if and only if accepted payloads meet every dropped `must` |
| SqlText.SpliceIsConjunction | orchestrator/visibility.py:100-123 | spliced behind any AND-level text, a bracketed clause parses as the conjunction |
| SqlText.UnbracketedSplice | orchestrator/visibility.py:100-123 | without the brackets the text before would guard the first arm only |
| SqlText.SpliceEvaluates | orchestrator/services/document_scope.py:22-26 | placeholders line up with the concatenated parameters, and the spliced text accepts a row exactly when both parts do |
| VisibilityLaws.SqlIsRule | orchestrator/visibility.py:81-123 | the Postgres clause accepts exactly the visible rows, for every user, stored flag, scope and row |
| VisibilityLaws.CypherIsRule | orchestrator/visibility.py:232-270 | the Cypher fragment accepts exactly the visible rows |
| VisibilityLaws.QdrantIsRule | orchestrator/visibility.py:144-213 | the compiled Qdrant filter accepts exactly the visible rows if and only if the row is not the sentinel case |
| VisibilityLaws.BackEndsAgree | orchestrator/visibility.py:81-270 | the three forms agree on every row if and only if it is not the sentinel case |
| VisibilityAccess.SqlShows | orchestrator/visibility.py:42-123 | in terms of the user's role, authentication and flags and the row's scope and owner: the Postgres clause finds exactly the rows the user may see, and an unknown scope is an error |
| VisibilityAccess.CypherShows | orchestrator/visibility.py:42-270 | so does the Cypher fragment, with the user bound exactly when personal rows are asked for |
| VisibilityAccess.CypherReadsItsNode | orchestrator/visibility.py:232-270 | the fragment accepts nothing on the columns of another node |
| VisibilityAccess.QdrantShows | orchestrator/visibility.py:42-213 | so does the Qdrant filter, but when shared rows are asked for and closed it finds those of the sentinel user |
| VisibilityAccess.DocumentQueryShows | orchestrator/services/document_scope.py:17-26 | the document query finds the row of that id exactly when the user may see it |
| VisibilityLaws.ScopesUnion | orchestrator/visibility.py:62-123 | the default view is the union of the three narrowed scopes |
| VisibilityLaws.DocumentQueryIsScoped | orchestrator/services/document_scope.py:17-26 | the document query accepts the row of that id exactly when the user may see it |
| VisibilityLaws.AuthoredFormsAgree | orchestrator/visibility.py:304-332 | the SQL and Qdrant export forms accept exactly the authored rows |
| VisibilityLaws.AuthoredCypherIgnoresScope | orchestrator/visibility.py:335-343 | the graph export form checks the owner only, and when that agrees with the rule |
| VisibilityLaws.AuthoredIsVisibleIff | orchestrator/visibility.py:286-298 | every authored row is visible if and only if the user has shared access |
| ComposePolicy.DocViolationsExact | scripts/check_compose_policy.py:145-170 | the report of a document lists exactly its offending services and keys |
| ComposePolicy.OffendsIff | scripts/check_compose_policy.py:145-170 | a document is reported exactly when a service outside the allowlist has env_file or a forbidden key |
| ComposePolicyKeys.OneKey | scripts/check_compose_policy.py:83-99 | an item sets exactly one key: what stands in front of its first `=`, or all of it, stripped |
| ComposePolicyKeys.BreaksIff | scripts/check_compose_policy.py:41-170 | a report line is justified if and only if a service outside the allowlist has env_file, or sets one of the eight keys or one with the prefix |
| ComposePolicyKeys.AssignedKeyBreaks | scripts/check_compose_policy.py:83-170 | `key=value` with a forbidden key in the list of a scanned service is reported under that key |
| ComposePolicyKeys.BrokenIff | scripts/check_compose_policy.py:83-142 | the scan gives up on a file exactly when it is missing or unreadable, or a document of it has one of five wrong shapes |
| ComposePolicyKeys.IncludesIff | scripts/check_compose_policy.py:102-142 | a file includes what the include lists of its documents name |
| ComposePolicyScan.NormalizeRawEnvKeys | scripts/check_compose_policy.py:83-99 | the keys of a mapping, or one per string item of a list, in order: what stands before its first `=`, stripped; other shapes fail |
| ComposePolicyScan.CollectIncludePaths | scripts/check_compose_policy.py:102-117 | the include loop lists the targets, or fails on a malformed entry |
| ComposePolicyScan.Scan.ScanService | scripts/check_compose_policy.py:157-170 | one service adds exactly its report lines, or fails on an unknown environment |
| ComposePolicyScan.Scan.ScanServices | scripts/check_compose_policy.py:151-170 | the service loop adds exactly the report of the document, and succeeds exactly when its services are fine |
| ComposePolicyScan.Scan.ScanDoc | scripts/check_compose_policy.py:135-142 | a document is scanned first and then what it includes is walked |
| ComposePolicyScan.Scan.ScanFile | scripts/check_compose_policy.py:120-142 | one walk step: terminates on cycles, walks each new file to its end, hands over each of its documents once, and fails only if a reachable file is broken |
| ComposePolicyScan.Scan.ScanFiles | scripts/check_compose_policy.py:150-151 | walking a list of files ends with all of them seen, each new one walked to its end |
| ComposePolicyScan.PassAScan | scripts/check_compose_policy.py:145-170 | no tool error iff all reachable files are fine; the seen files are the reachable ones; each document is scanned once; the report lists exactly what reachable documents break, keys and prefix spelled out, and is empty iff none offends |
| ComposePolicyWalk.SeenIsReachable | scripts/check_compose_policy.py:120-142 | a finished walk saw the reachable files and no other |
| ComposePolicyWalk.ReportIsExact | scripts/check_compose_policy.py:145-170 | a line is in the report exactly when a reachable document justifies it |
| ComposePolicyWalk.NoReportIffClean | scripts/check_compose_policy.py:145-170 | the report is empty exactly when no reachable document offends |
| Egress.NormaliseExternalEndpoints | orchestrator/models/capability.py:42-82 | the loop with its seen set returns the specified list or refusal |
| Egress.HostsFromAllowFile | scripts/gen_capability_egress_acl.py:115-128 | the line loop reads the hosts of the specification |
| Egress.AllowDir.Generate | scripts/gen_capability_egress_acl.py:81-112 | a refused declaration writes nothing; an accepted one replaces the file of its capability only |
| Egress.AllowDir.Check | scripts/gen_capability_egress_acl.py:131-157 | matches, diverges, missing or raised, by the sets of declared and written hosts |
| EgressLaws.NormaliseLists | orchestrator/models/capability.py:42-82 | success exactly on at most 32 acceptable entries; the list has no repeats and keeps the order of first appearance |
| EgressLaws.NormaliseTwice | orchestrator/models/capability.py:42-82 | normalising is idempotent |
| EgressHosts.AcceptedIff | orchestrator/models/capability.py:22-82 | an entry is accepted if and only if its stripped lower-case form is 1 to 253 letters, digits, hyphens and dots in names of at most 63, none of which starts or ends in a hyphen, a newline being allowed before an inner dot |
| EgressHosts.RefusalIs | orchestrator/models/capability.py:42-82 | more than 32 entries are refused as too many, else the first bad entry for the first of six things that is wrong with it |
| EgressHosts.HostPartIs | scripts/gen_capability_egress_acl.py:115-128 | a line names what stands before its first `#`, stripped |
| EgressHosts.IdIsFileName | scripts/gen_capability_egress_acl.py:81-112 | an id that gets a file has no slash and is not hidden |
| EgressLaws.AllowTextIs | scripts/gen_capability_egress_acl.py:101-112 | the printed file is three lines that name no host, the first with the capability id, and one line per host |
| EgressLaws.AllowFileRoundTrip | scripts/gen_capability_egress_acl.py:81-128 | the parser reads back what generate prints if and only if no entry has an inner newline, and refuses the file otherwise |
| EgressLaws.NewlineEntryIsAccepted | orchestrator/models/capability.py:22-39 | the label pattern accepts an entry with an inner newline |
| EgressLaws.CheckAfterGenerate | scripts/gen_capability_egress_acl.py:81-157 | check right after an accepted generate matches if and only if no entry has an inner newline, and raises otherwise |
| Migrations.Connection.ApplyFile | orchestrator/db_migrations.py:229-247 | one file in one transaction: both effect and ledger row, or neither, for every way it can end |
| Migrations.Connection.Record | orchestrator/db_migrations.py:173-179 | exactly the given name joins the ledger; every earlier row keeps its checksum, its own included |
| Migrations.Connection.Run | orchestrator/db_migrations.py:182-256 | a boot ends in the specified store with the specified exit, and counts what it committed |
| MigrationLaws.BootCommitsPrefix | orchestrator/db_migrations.py:229-256 | a boot commits exactly a prefix of the pending files; success outside dry run leaves none pending; a failing file is the next pending one |
| MigrationLaws.BootEnds | orchestrator/db_migrations.py:182-256 | how a boot ends: without files, without a connection, in dry run, and by the first pending file that does not apply |
| MigrationLaws.RunsAreSound | orchestrator/db_migrations.py:182-256 | after any boots no effect was committed twice and the ledger is exactly the committed set with its checksums |
| MigrationLaws.RecordsStay | orchestrator/db_migrations.py:173-179 | later boots never change what was recorded, even when a file reads differently |
| MigrationLaws.EffectsArePrefix | orchestrator/db_migrations.py:182-256 | while releases only add files at the end, the effects are at every moment a prefix of the sorted files |
| MigrationLaws.GoodBootCompletes | orchestrator/db_migrations.py:182-256 | one good boot after any history brings the database to exactly the files of the release |
| ContextFit.FitPlaintextBundle | orchestrator/routes/chat.py:309-331 | keeps the prefix up to which, and only up to which, prefixes are within the budget, with the hints padded or cut to it |
| ContextFit.FitsGrows | orchestrator/routes/chat.py:309-331 | there is one such prefix, and a larger budget never keeps less |
| ContextFit.CostIsSum | orchestrator/routes/chat.py:309-331 | the cost of a section is the sum of its fragments' estimates, empty ones free |
| ContextFit.ShareIs | orchestrator/routes/chat.py:452-456 | a document's share is the largest that fits the budget once per document, at least 8 |
| ContextFit.ShortenedTexts | orchestrator/routes/chat.py:452-456 | every document text is cut to that share, and none without a budget |
| ContextFit.PiecesAre | orchestrator/routes/chat.py:427-450 | hit by hit, a blank text gives nothing and any other its stripped text with its own origin |
| ContextFit.SliceIs | orchestrator/routes/chat.py:494-507 | a section is its stretch of the list, cut to the length of the list |
| ContextFit.AppendHits | orchestrator/routes/chat.py:427-450 | every non-blank hit adds its stripped text and its own origin, at the same index |
| ContextFit.Assemble | orchestrator/routes/chat.py:427-492 | the two lists before cutting: session, shortened documents, what listeners made of them, graph fragments without hints |
| ContextFit.BuildInjectedContext | orchestrator/routes/chat.py:414-512 | the result is three sections, each a longest prefix of its own slice with its own hints, for any listener |
| ContextFit.SectionsAreAlignedIff | orchestrator/routes/chat.py:494-507 | hints of all sections are right for any listener; texts match them under every budget if and only if the listener left the retrieved texts in place |
| ContextFit.SectionsAreAligned | orchestrator/routes/chat.py:494-507 | with listeners that only append, every slice holds exactly its fragments with their own hints |
| ContextFit.BuildScopedContext | orchestrator/routes/chat.py:578-635 | the pinned-document variant, with its hits cut to the number of kept fragments |
| ContextFit.CitationsMatchIff | orchestrator/routes/chat.py:614-651 | a citation and its hint are always of one hit; every citation is of its fragment, under every budget, if and only if the listeners left the retrieved texts in place |
| ContextFit.AppendingIsInPlace | orchestrator/events.py:15-19 | listeners that keep the documented contract leave the retrieved texts in place |

## Left out

- Characters: upper and lower case are ASCII only, plus the one other character that lowers into ASCII.
- YAML parsing: policy documents arrive parsed; the YAML check at the end of the override validation is not modelled.
- A backslash in a chained value makes `re.sub` interpret its template; the model only marks that such an edit is not the literal text.
- SQL and Cypher conditions are token sequences; lexing and SQL's three-valued logic on nulls are not modelled.
- Each limiter's clock does not run backwards, and each limiter or cache call is one step.
- Provider and tool exceptions, the JSON text of the blocked stub, and JSON decoding of arguments (a parameter).
- Files and Docker are maps and parameters; include targets are already resolved paths.
- Several processes with their own caches, and two migration runners at once.
- Migration files that commit inside their own SQL; waiting for Postgres is one flag.
- Passes B and C of the policy check, admin filters, and the wiring snippet: single loops or constants over the same parts.
- Building citations, acknowledgement messages and history trimming in chat; token estimates and truncation are arbitrary functions.
- IngestBindsValidate.MergedTextIsValid: for paths without spaces, which the path validator refuses, and without line breaks; `MergedTextVerdict` is the result with line breaks.
- IngestBindsStray.StrayBeginVerdict: for paths without line breaks.
- ComposeEnvStack.PlainChainExtends: for env texts whose only whitespace is blank, tab and newline; `ComposeEnvReadBack.ChainExtendsStack` is the result for every text.
- SidVerdicts.CachedDenyIsRight: not for a verdict looked up before the session existed or for another user, which a later row can contradict.
- TokenVersions.CachedAnswerIsLiveIff: for versions above all earlier ones of the user, which adding one to the live version gives as long as a deleted user's id is not used again.
- LoginLimiter.FailureBound: for logins that run one after the other; `InterleavedFailureBound` gives the bound for concurrent ones.
