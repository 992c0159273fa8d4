# Verified model of Clara

Clara drives a Prolog engine and a CLIPS engine through shared mailboxes. It
translates terms and rules between them, exchanges messages with peer evaluators
over a log-structured topic, and keeps what must outlive a run in a store. This
project models that machinery in Dafny and proves what it is meant to keep.
`dafny verify dfyconfig.toml` checks everything.

| file | what it holds |
|---|---|
| `Text`, `Terms` | characters, scanning, numerals; the term tree and its Prolog printer |
| `PrologSyntax`, `PrologRoundTrip` | the term reader, and which printed terms come back |
| `ClauseSyntax`, `ClauseRoundTrip`, `RuleParser` | the clause reader with error recovery, as functions and as the cursor that runs; which clauses come back |
| `ClipsSyntax`, `ClipsRoundTrip` | CLIPS facts, and which facts survive the crossing in either direction |
| `Coloring` | truth propagation over the rules, and why its result is the least one |
| `Transduction`, `TransductionMeaning` | Prolog rules to CLIPS rules, and what the emitted text evaluates to |
| `EmittedRules`, `PublishedHeads`, `GoalsAsRead` | what an emitted rule matches and binds, when it runs, exactly when it publishes the printed head of its clause, and exactly when Prolog reads that from it |
| `EmittedText` | the emitted program read back, comments and rule names included |
| `Mailbox`, `Relay` | the event table and its consumers; the relays between the two mailboxes |
| `RitualTopic`, `Registry` | the topic and its handles; the write-through registry and restarts |
| `Offers` | the offer protocol for many controllers on one topic |
| `CycleSteps`, `DeductionRuns`, `Controller` | the stages of a deduction cycle, runs of it state by state, and the controller that performs them |
| `Refinement`, `MailRuns` | a whole deduction as a run of the offer protocol, and as a run of the engines and relays over the mailboxes |
| `Storage`, `Resuming`, `CarrionPicker` | saved mailboxes; what resuming brings back; snapshots, sources and the garbage-collection sweep |
| `LspFraming`, `LspClient` | header-framed messages; the table of waiting requests |
| `Calendar` | dates from day counts |

How it is put together:

- Readers are functions from a text and a position to a result and the position
  after it, so that a statement can put a printed term anywhere in a text. The
  cursor classes and their loops are proved equal to these functions, and the
  theorems are about the functions.
- The two engines, the peers, the clock and the answers of engine queries are
  parameters (`CycleSteps.CycleInput`). An engine pass may consume any events and
  emit any others, so what is proved of a cycle holds for every engine.
- Random identifiers are counters that never repeat.
- A converging cycle is judged on the counts taken before the root goal is asked
  again, as the program does it; that last query may emit events, and nothing is
  claimed about them.
- `Offers.System` is many controllers on one topic. `Refinement` shows that every
  cycle of a controller, and so its whole deduction, is a run of it among any steps of
  the others, so that what holds of every run of the protocol holds of the controllers;
  `MailRuns` does the same for the mailboxes.
- A character is a byte. The program reads bytes as characters and prints characters,
  so the round trips between printing and reading are statements about ASCII text.

Where the code and what is said about it differ, the model follows the code:

- The printer leaves an atom that starts with `_` bare, and it comes back as a
  variable (`PrologRoundTrip.UnderscoreAtomIsLost`); the round trip is proved to
  hold exactly when no such name occurs.
- An integer as the last goal of a clause, or as a fact's head, is read together
  with the final point and is lost (`ClauseRoundTrip.PrintedClauseReadsBackIff`
  gives the exact condition).
- `transduce` skips a rule whose trigger does not have the head's variables, but it
  looks for them anywhere in the trigger, while a pattern binds only variables at the
  top level whose names do not start with `_`. `EmittedRules.RuleRunsIff` says exactly
  which emitted rules have a value; `PublishedHeads` has one rule from each family that
  does not do what its clause says (`h(_X) :- t(_X)`, `h(X) :- t(f(X))`,
  `h(f(X)) :- t(X)`, `greet(X, "hi") :- visitor(X)`).
- The head expression writes functors and literals without escaping, and values without
  their quotes. `PublishedHeads.RulePublishesTheHeadIff` says exactly when what is
  published is the printed instance of the head, which has no variables.
- That instance need not be read back: `h(X) :- t(X)` on the fact `(t _x)` publishes
  `h(_x)`, and Prolog reads a free variable, which is what the covering test is there to
  prevent (`GoalsAsRead.UnderscoreValueIsReadAsVariable`).
  `GoalsAsRead.PublishedGoalReadsIff` says exactly when the instance is read.
- A rule is named after the functor of its head as it stands. If that is no symbol, CLIPS
  reads the same name for all rules with such a head
  (`EmittedText.OddFunctorsShareOneName`); otherwise the names tell the rules apart.
- A restored session also brings back what an earlier save of the same session left in
  the store, or fails at it. `Resuming.ResumesExactlyIff` says exactly when neither
  happens, and `Resuming.ResumesOrFailsInTime` what a failing restore may still give.
- The comment on the second pass of the sweep speaks of sessions without a snapshot;
  the query does not look at snapshots, and neither does the model.

## Model

| member | source | states |
|---|---|---|
| PrologRoundTrip.PrintedTermReadsBackIff | clara-cycle/src/transpile.rs:101-283 | wherever a printed float-free term stands in a text, followed by anything that neither extends its last token nor opens an argument list, reading it gives back the term and the right position if and only if no unquoted name in it starts with `_` and its variables are well formed |
| PrologRoundTrip.PrintedArgumentReadsBackIff | clara-cycle/src/transpile.rs:257-282 | before a comma, a closing parenthesis or the end of input the same equivalence holds, and exactly the rest is left |
| PrologRoundTrip.PrintedTextReadsBackIff | clara-cycle/src/transpile.rs:77-80 | the equivalence for a printed term standing alone, through the entry point that trims its input |
| PrologRoundTrip.PrintingIsInjective | clara-cycle/src/transpile.rs:500-551 | two readable terms with the same text are the same term |
| PrologRoundTrip.UnderscoreAtomIsLost | clara-cycle/src/transpile.rs:539-551 | the witness of the failing family: the atom `_x` prints bare and reads back as a variable |
| PrologRoundTrip.QuotedBodyReadsEscape | clara-cycle/src/transpile.rs:138-167 | escaping a name for single quotes and reading it gives the name back, for every name |
| PrologRoundTrip.StringBodyReadsEscape | clara-cycle/src/transpile.rs:169-188 | the same for double-quoted strings |
| PrologRoundTrip.IntegerReads | clara-cycle/src/transpile.rs:200-222 | a printed 64-bit integer, negative ones and the smallest included, reads back |
| ClauseRoundTrip.PrintedClauseReadsBackIff | clara-cycle/src/transduction.rs:1408-1419 | a printed float-free clause, whatever follows it, reads back exactly if its terms are readable, no positive goal is `not/1`, and neither a bodiless head nor the last goal is an integer |
| ClauseRoundTrip.ProgramReadsInPlaceIff | clara-cycle/src/transduction.rs:139-149 | of any printed float-free program the reader finds each clause where it is printed, and nothing else, if and only if all its clauses are readable |
| RuleReading.ReadRules | clara-cycle/src/transduction.rs:139-149 | the reading loop terminates on every text, through errors and recovery, and collects exactly the clauses that the clause grammar finds |
| RuleReading.RuleParser.ReadClause | clara-cycle/src/transduction.rs:1493-1518 | the cursor stops where the grammar says, on success and on error, since recovery resumes there |
| RuleReading.RuleParser.ReadArgList | clara-cycle/src/transduction.rs:1705-1728 | the argument loop collects the grammar's argument list, and leaves the cursor at the same place on error |
| RuleReading.RuleParser.RecoverAtPeriod | clara-cycle/src/transduction.rs:1482-1491 | recovery moves to just after the next point, or to the end |
| ClauseSyntax.SkipToPeriod | clara-cycle/src/transduction.rs:1482-1491 | recovery always consumes something unless the input is at its end |
| ClauseSyntax.ParseClause | clara-cycle/src/transduction.rs:1493-1518 | a clause or an error never leaves the input, a clause consumes something, and an error happens only before the end |
| ClipsSyntax.ClipsParser.ReadFact | clara-cycle/src/transpile.rs:315-343 | the fact reader's cursor computes the fact grammar, errors and positions included |
| ClipsSyntax.ClipsParser.ReadFields | clara-cycle/src/transpile.rs:325-341 | the field loop collects the grammar's fields up to the closing parenthesis |
| ClipsRoundTrip.PrintedFactReadsBackIff | clara-cycle/src/transpile.rs:436-473 | a float-free fact printed for CLIPS reads back unchanged if and only if it is flat, its functor is one CLIPS symbol, its atoms are simple and do not look like numbers, and its variables are capitalised and named |
| ClipsRoundTrip.FactPrintingIsInjective | clara-cycle/src/transpile.rs:436-473 | on those facts the CLIPS printer is injective |
| ClipsRoundTrip.FactReadsAs | clara-cycle/src/transpile.rs:315-405 | what any printed fact is read as, argument by argument, if its functor is one symbol and no atom looks like a number: other names and nested compounds become strings, a `_` variable loses its name, all else stays |
| ClipsRoundTrip.RelayTextIff | clara-cycle/src/transpile.rs:52-74 | the text of every readable term crosses to CLIPS as its printed fact, and that comes back as the same text if and only if the fact is flat, its functor is one symbol, and each argument is kept or is the bare `_` |
| ClipsRoundTrip.RelayRoundTrip | clara-cycle/src/transpile.rs:52-74 | the text of a kept fact that is also readable Prolog crosses to Prolog and comes back as it was; in the other direction `RelayTextIff` says exactly when |
| ClipsRoundTrip.NestedCompoundIsFlattened | clara-cycle/src/transpile.rs:466-472 | wherever a nested compound stands among the arguments, the string of its flattened text comes back in its place |
| Coloring.PropagateRuleColoring | clara-cycle/src/transduction.rs:967-998 | the in-place iteration terminates on every rule list with the least set of true functors that contains the initial ones and is closed under the rules; other functors keep their values; only heads become true |
| Coloring.MarkOnce | clara-cycle/src/transduction.rs:970-992 | one pass marks nothing that a closed set could do without, and a pass that marks nothing has reached a closed set |
| Coloring.LeastClosedIsUnique | clara-cycle/src/transduction.rs:967-998 | there is one such set |
| Coloring.RuleOrderIsIrrelevant | clara-cycle/src/transduction.rs:967-998 | reordering or repeating rules does not change the result |
| Coloring.PropagationIsMonotone | clara-cycle/src/transduction.rs:967-998 | more rules or more initial truths never make fewer functors true |
| Coloring.LeastClosedIsAStage | clara-cycle/src/transduction.rs:954-966 | every true functor has a derivation of at most as many rounds as there are heads |
| Coloring.NewTruthHasARule | clara-cycle/src/transduction.rs:973-990 | a functor that became true is the head of a rule whose body was satisfied in an earlier round |
| Transduction.Transduce | clara-cycle/src/transduction.rs:170-240 | the loop writes exactly the texts of the emitted rules, in program order, each named with its goal's position among the goals that have a trigger |
| Transduction.RenderHeadGoalExpr | clara-cycle/src/transduction.rs:770-807 | the buffer loop merges literals and references into the specified expression |
| Transduction.GoalIsTransducedIff | clara-cycle/src/transduction.rs:197-233 | a rule is emitted for a body goal if and only if the goal has a trigger (it is negative, or neither a meta-predicate nor a bare variable) whose variables include the head's |
| Transduction.CandidatesExactly | clara-cycle/src/transduction.rs:174-207 | the counter runs over exactly the goals that have a trigger |
| Transduction.NamesTellCounters | clara-cycle/src/transduction.rs:182-214 | as texts, rules with different counters have different names, whatever their functors |
| EmittedText.EmittedTextReadsBack | clara-cycle/src/transduction.rs:170-240 | the emitted text, with its comments and blank lines, is read as exactly the emitted rules in program order, each with its own name, its trigger as CLIPS reads it and the parts of its goal expression, if in every emitted rule the head's functor is a symbol, the trigger is a fact CLIPS reads, the head survives being written unescaped, and the printed clause has no newline |
| EmittedText.NameIsSymbolIff | clara-cycle/src/transduction.rs:182-214 | a rule name is one symbol if and only if both functors in it have symbol characters only |
| EmittedText.OddFunctorsShareOneName | clara-cycle/src/transduction.rs:182-214 | if the functor of the head is no symbol, the name that is read depends on neither the goal nor the counter |
| EmittedRules.PatternMeaning | clara-cycle/src/transduction.rs:170-240 | the emitted pattern is read as the trigger with nested terms as strings and `_` variables anonymous; a match binds exactly the variables at the top level of the trigger that do not start with `_`, and the fact agrees with the pattern in every field |
| EmittedRules.RuleRunsIff | clara-cycle/src/transduction.rs:197-233 | for a head without double quotes and backslashes, the emitted right-hand side has a value on a matching fact if and only if every top-level variable of the head stands at the top level of the trigger and does not start with `_` |
| EmittedRules.EmittedRuleMeaning | clara-cycle/src/transduction.rs:170-240 | a head that survives being written unescaped and whose variables stand at its top level and are bound by the pattern: its instance has no variables and something is published on every matching fact, namely the printed instance if and only if functor and values need no quoting; and from that text Prolog reads the instance if and only if it is readable |
| PublishedHeads.RulePublishesTheHeadIff | clara-cycle/src/transduction.rs:170-240 | for every emitted rule and every matching fact without double quotes and backslashes: what is published is the print of the head's instance, and that has no variables, if and only if the head has neither of these characters, all its variables stand at the top level of head and trigger and do not start with `_`, and functor and values need no quoting; and the print is read back as the instance if and only if that is readable |
| PublishedHeads.PublishesTheHeadIff | clara-cycle/src/transduction.rs:770-845 | the first of the two about the head expression, for every head and every binding of such values |
| GoalsAsRead.PublishedGoalReadsIff | clara-cycle/src/transduction.rs:170-240 | for a head that survives being written unescaped, on every matching fact, whatever the characters of its values: Prolog reads the instance of the head, without variables, from what is published, if and only if every variable argument is bound by the pattern to a value that survives splicing (a name that needs no quotes and does not start with `_`, or `[]`; no string), and functor and other arguments survive too |
| GoalsAsRead.SplicedGoalReadsIff | clara-cycle/src/transduction.rs:770-807 | the same about the text alone, for every head and every binding |
| GoalsAsRead.ValueReadsIff | clara-cycle/src/transduction.rs:785-800 | a value whose text is spliced in among arguments, whatever its characters, is read back as itself exactly if it survives: no text is the quoted name or the string that would stand for it |
| GoalsAsRead.PrintedReadsGroundIff | clara-cycle/src/transpile.rs:101-283 | a printed term is read as a term without variables if and only if it has none and is readable |
| GoalsAsRead.UnderscoreValueIsReadAsVariable | clara-cycle/src/transduction.rs:166-168 | `h(X) :- t(X)` is emitted; on the fact `(t _x)` it publishes `h(_x)`, the print of an instance without variables, and Prolog reads a variable |
| PublishedHeads.UncleanIsLost | clara-cycle/src/transduction.rs:772-803 | a head with a double quote or a backslash anywhere, as every string argument has, is never published as printed when the bound values have neither |
| PublishedHeads.AnonymousVariableNeverRuns | clara-cycle/src/transduction.rs:197-233 | `h(_X) :- t(_X)` is emitted with the pattern `(t ?)` and has no value on any matching fact |
| PublishedHeads.NestedTriggerNeverRuns | clara-cycle/src/transduction.rs:197-233 | nor has `h(X) :- t(f(X))` |
| PublishedHeads.NestedHeadIsPublishedOpen | clara-cycle/src/transduction.rs:197-233 | `h(f(X)) :- t(X)` is emitted and publishes `h(f(X))` on every matching fact, which Prolog reads with X free |
| PublishedHeads.StringArgumentIsNotPublished | clara-cycle/src/transduction.rs:197-233 | nor does `greet(X, "hi") :- visitor(X)` publish its printed head on any matching fact |
| TransductionMeaning.PublishedGoalIff | clara-cycle/src/transduction.rs:770-845 | for a head that survives being written unescaped, with all its variables at the top level and bound, and any values at all, evaluating the expression gives the printed head under the substitution if and only if functor and values need no quoting |
| TransductionMeaning.HeadEvaluates | clara-cycle/src/transduction.rs:770-807 | for any head without double quotes and backslashes, the expression text, read token by token as CLIPS does, evaluates to the head with each reference replaced by its value |
| TransductionMeaning.LiteralEvaluatesIff | clara-cycle/src/transduction.rs:772-779 | a literal survives evaluation exactly if it has neither quotes nor backslashes |
| TransductionMeaning.MatchBinds | clara-cycle/src/transduction.rs:813-822 | matching any pattern, anonymous fields included, binds exactly the variables it names, and each field of the fact agrees with it |
| Mailbox.Coire.Poll | clara-coire/src/coire.rs:182-242 | a poll hands out the selected pending events in order of creation, and marks exactly those |
| Mailbox.Coire.WriteEvent | clara-coire/src/coire.rs:45-69 | a write adds one row, or fails and changes nothing if the identifier is taken |
| Mailbox.Coire.MarkProcessed | clara-coire/src/coire.rs:139-152 | marking succeeds exactly for a pending event, and changes only that |
| Mailbox.OrderingByTime | clara-coire/src/coire.rs:81-137 | what a poll returns is ordered by time, with nothing lost or added |
| Mailbox.HandedOutOnce | clara-coire/src/coire.rs:139-302 | over any run of writes, polls, marks, drains and clears, an event that one poll handed out is handed out by no later poll, unless its identifier is written again after a clear in between |
| Mailbox.GoneForever | clara-coire/src/coire.rs:139-302 | an identifier that is not pending does not become pending while it is not written |
| Mailbox.GoneUntilCleared | clara-coire/src/coire.rs:139-302 | if its row is in the table it does not even then, up to a clear, because writing under a taken identifier fails |
| Mailbox.HandedOutDistinct | clara-coire/src/coire.rs:182-242 | one poll hands out no event twice |
| Mailbox.ComplementaryPolls | clara-coire/src/coire.rs:154-180 | a poll with a prefix and one with its complement, in either order, together hand out every pending event of the session exactly once and leave none |
| Relay.RelayEvents | clara-cycle/src/relay.rs:32-101 | a relay marks exactly what the engine emitted and posts one translated copy of each, in order, to the other mailbox |
| Relay.RelaysNeverLoop | clara-cycle/src/relay.rs:32-101 | over any run of both relays and any engines, each event is relayed at most once and no copy is ever relayed on |
| MailRuns.CycleIsAMailRun | clara-cycle/src/controller.rs:337-405 | what a whole deduction cycle does to the mailboxes, evaluator pass and check included, is such a run, step by step |
| MailRuns.DeductionNeverLoops | clara-cycle/src/controller.rs:337-430 | after every cycle of a deduction the mailboxes are as such a run leaves them: no event was relayed twice, no copy relayed on, and nothing that was relayed is pending |
| MailRuns.GoneOverRuns | clara-coire/src/coire.rs:139-302 | in such runs identifiers are new, so an event that is no longer pending never is again, without any assumption |
| MailRuns.PublishedOnce | clara-cycle/src/controller.rs:938-1018 | over a whole deduction no evaluator event is published by two cycles |
| Relay.StepKeepsSound | clara-cycle/src/relay.rs:32-101 | the invariant behind it: each relayed source has left Pending, and each copy has a relay origin |
| Relay.SelectorsAreDisjoint | clara-cycle/src/controller.rs:940-943 | the relay, the publisher of evaluator events and the convergence count never claim the same event of the Prolog mailbox |
| Relay.AssertionSurvivesTheRoundTrip | clara-cycle/src/relay.rs:105-166 | an assertion whose term is readable Prolog and kept as text by CLIPS (`ClipsRoundTrip.RelayTextIff`), translated for CLIPS and echoed back, is the payload it was |
| RitualTopic.RitualHandle.PollIncoming | clara-ritual/src/handle.rs:105-110 | a poll reads from the offset to the end, moves the offset to the end, and drops what has expired |
| RitualTopic.InMemoryBroker.Poll | clara-ritual/src/broker.rs:81-92 | what is fetched is the log from the offset on, clamped to the log |
| RitualTopic.EveryHandleReadsTheLog | clara-ritual/src/handle.rs:105-110 | over any interleaving of publishers and handles, what a handle read is the log from where it joined to its offset, each position once and in order, and what it received is that minus what had expired when read |
| RitualTopic.OffsetsOnlyGrow | clara-ritual/src/broker.rs:70-104 | offsets never decrease or pass the end, join offsets stay, the log is only appended to |
| Registry.RitualRegistry.CreateRitual | clara-ritual/src/registry.rs:72-113 | a ritual is created, in memory and in the store alike, if its topic has a legal name, and otherwise nothing changes |
| Registry.RitualRegistry.TerminateRitual | clara-ritual/src/registry.rs:178-194 | termination marks the ritual in memory and in the store, or reports that there is none |
| Registry.RestartRegistry | clara-ritual/src/registry.rs:251-312 | a new registry over the same store has exactly the stored rituals |
| Registry.RitualRegistry.Join | clara-ritual/src/registry.rs:115-172 | a join replies and changes memory and store as specified, and its handle starts at the end of the topic |
| Registry.RitualRegistry.RestoreFromStore | clara-ritual/src/registry.rs:251-312 | the restore loop puts exactly the rows with a known state over the rituals already there, and counts them |
| Registry.StoreRoundTrip | clara-ritual/src/registry.rs:251-312 | restoring what was stored gives the same rituals |
| Registry.ServingKeepsTheMirror | clara-ritual/src/registry.rs:72-194 | every call keeps the store a mirror of memory |
| Registry.RestartsAreInvisible | clara-ritual/src/registry.rs:251-312 | restarts inserted anywhere change no ritual and no reply |
| Registry.RitualPersists | clara-ritual/src/registry.rs:72-194 | over any later calls and restarts a ritual keeps its topic and configuration, a key keeps its performance, and a terminated ritual never changes |
| Registry.KeyedJoinsAgree | clara-ritual/src/registry.rs:141-157 | two joins under one key give the same performance, whatever happens in between |
| Registry.TerminatedRefusesJoins | clara-ritual/src/registry.rs:178-194 | after termination every join is refused |
| Offers.OffersAreConserved | clara-cycle/src/controller.rs:638-848 | over every run of many controllers on one topic, with arbitrary peers and fresh correlation ids: registered offers are exactly those pending, answered and timed out, each exactly one of these with at most one outcome; every answer is a reply in the log to the same performance that names the offer or names none; no reply answers two offers; no two controllers share an offer |
| Offers.StepKeepsSound | clara-cycle/src/controller.rs:783-848 | every step of the protocol keeps all of this |
| Offers.OthersAreUntouched | clara-cycle/src/controller.rs:783-800 | no step of one controller, and no message, touches another's offers or outcomes |
| Offers.UncorrelatedTakesTheOldest | clara-cycle/src/controller.rs:818-847 | a reply without a correlation id removes one uncorrelated offer, and none that has waited longer is left |
| Offers.WaitingCountsChecks | clara-cycle/src/controller.rs:1148-1156 | an offer still pending has waited one for each convergence check since |
| Offers.OffersDoNotOutstayPatience | clara-cycle/src/controller.rs:1140-1176 | after as many checks as the patience (one if it is zero) an offer is gone, so a silent peer blocks convergence only so long |
| DeductionRuns.NoOfferOutstaysPatience | clara-cycle/src/controller.rs:337-430 | the same about every chain of cycles: an offer that is not registered again is gone after as many cycles, whatever engines and peers do |
| Offers.LateRepliesAreDropped | clara-cycle/src/controller.rs:667-695 | once an offer was answered or timed out, no reply to it enters a mailbox, however the run goes on |
| Controller.CycleController.ResolvePendingOffer | clara-cycle/src/controller.rs:783-848 | a reply removes the offer it names, the oldest uncorrelated one if it names none, and nothing if it is another performance's |
| Controller.CycleController.OldestUncorrelated | clara-cycle/src/controller.rs:824-829 | the search over the table finds an uncorrelated offer that has waited longest, or that there is none |
| Controller.CycleController.IngestAll | clara-cycle/src/controller.rs:602-764 | a batch resolves and admits, envelope by envelope and in order, exactly what the protocol allows; what is admitted goes to both mailboxes with its routing |
| Controller.CycleController.PublishEvaluatorEvents | clara-cycle/src/controller.rs:938-1018 | the evaluator events leave the Prolog mailbox, their envelopes are appended to the topic in order without the transport block, and exactly those that expect a reply are registered |
| Controller.CycleController.RitualPass | clara-cycle/src/controller.rs:587-620 | the whole pass: what has been posted by now and is unexpired is taken in, then the evaluator events are published |
| Controller.CycleController.AgeOffers | clara-cycle/src/controller.rs:1148-1176 | each offer ages by one; the late ones, and only they, leave the table, each with one time-out message to each engine carrying its id if it was correlated |
| Controller.CycleController.HasConverged | clara-cycle/src/controller.rs:1109-1213 | a check converges if and only if the counts before it are zero, the agenda is empty, nothing was pending before it, and the tableau is stable or the root goal resolved; and the mailboxes afterwards, with what the repeated query and the time-outs put there |
| Controller.CycleController.RunCycle | clara-cycle/src/controller.rs:337-405 | the whole new state of mailboxes, offers, topic and offset after a cycle, stage by stage, for any engines and peers; a cycle that publishes an event expecting a reply, takes in an envelope, relays an event to Prolog or times an offer out does not converge |
| DeductionRuns.ConvergingIsQuiet | clara-cycle/src/controller.rs:1109-1195 | each of these four things shows in the counts or in the table that the check looks at; and a converging cycle leaves no offer pending |
| CycleSteps.PassIsSeen | clara-cycle/src/controller.rs:587-620 | a pass raises the CLIPS count by one for each envelope taken in, lowers no count, and leaves an offer pending if it published an event that expects a reply |
| Controller.CycleController.RunCycles | clara-cycle/src/controller.rs:337-430 | the run is a chain of such cycles from its first state to its last; it stops at the first converging cycle, or after the first interrupted one, or after all allowed; and when it has converged, every offer registered in it or pending before it was resolved by an envelope or timed out in one of its cycles |
| DeductionRuns.ConvergedRunSettledAll | clara-cycle/src/controller.rs:337-430 | the same about any chain of cycles |
| DeductionRuns.RunAccounts | clara-cycle/src/controller.rs:783-1176 | after any chain of cycles the registered offers are exactly those pending and those that its cycles resolved or timed out |
| DeductionRuns.IngestAccounts | clara-cycle/src/controller.rs:783-848 | a batch removes from the table exactly the offers it resolved, all of them pending |
| CycleSteps.NothingLeftMeansNothingThere | clara-cycle/src/controller.rs:1148-1195 | a check leaves nothing pending and times nothing out exactly when nothing was pending before |
| CycleSteps.RelayedAreSeen | clara-cycle/src/controller.rs:1089-1103 | every event relayed to Prolog is in the count that convergence looks at |
| CycleSteps.IngestedAreSeen | clara-cycle/src/controller.rs:720-763 | every envelope taken in raises the CLIPS count by one, and lowers none |
| CycleSteps.PublishingIsUnseen | clara-cycle/src/controller.rs:938-1003 | publishing lowers neither count, forgets no registered id, and leaves an offer pending if an event expected a reply |
| Refinement.PassIsARun | clara-cycle/src/controller.rs:587-620 | with fresh correlation ids, a controller's evaluator pass is the run of the many-controller protocol made of the others' steps, one read for each new position of the log and one step for each envelope published; it ends in the controller's own table and log, leaves every other controller alone, and keeps every invariant |
| Refinement.DeductionIsARun | clara-cycle/src/controller.rs:337-430 | so is every chain of cycles, each with its pass and its check, among any steps of peers and other controllers |
| Refinement.ConvergedDeductionHasOutcomes | clara-cycle/src/controller.rs:337-430 | when a deduction converges, every offer its controller ever registered has exactly one outcome, a genuine answer or a time-out |
| Refinement.CheckIsAStep | clara-cycle/src/controller.rs:1148-1176 | a convergence check is the protocol's check, and keeps the same |
| Refinement.ReadingRuns | clara-cycle/src/controller.rs:596-612 | taking in a polled batch is reading the log position by position, expired envelopes included |
| Refinement.PublishingRuns | clara-cycle/src/controller.rs:953-1003 | publishing a batch is registering its offers one by one |
| Storage.CoireStore.SaveSession | clara-coire/src/store.rs:253-268 | saving writes exactly the pending events of the session over whatever had their identifiers |
| Storage.CoireStore.RestoreSessionAs | clara-coire/src/store.rs:352-371 | restoring appends the stored events under the new session in order, up to the first identifier that is taken, and reports whether there was one |
| Storage.CoireStore.RestoreFrom | clara-cycle/src/controller.rs:289-305 | both sessions are restored, the second only if no write of the first failed |
| Storage.CoireStore.SaveAndEvict | clara-cycle/src/controller.rs:511-536 | both mailboxes are saved before either is emptied |
| Storage.UpsertAllMembers | clara-coire/src/store.rs:962-987 | after a save the store holds the events given, and of the old ones exactly those with other identifiers |
| Resuming.SaveAndResume | clara-coire/src/store.rs:253-371 | save, clear and restore under a new session: the mailbox as `Resumed` says, and the next statement about it |
| Resuming.ResumesExactlyIff | clara-coire/src/store.rs:253-371 | the restore succeeds and the new session has exactly the events pending at save time if and only if nothing stale of the session was in the store |
| Resuming.ResumesOrFailsInTime | clara-coire/src/store.rs:352-371 | whether or not it succeeds, the new session has exactly those events if and only if nothing stale was stored, or the pending events come first among those stored and the next is under an identifier that another session still has |
| Resuming.EndAndResume | clara-cycle/src/controller.rs:289-305 | one deduction saves and empties both mailboxes and another restores them: the mailboxes as `ResumedBoth` says, and the next statement about them |
| Resuming.BothResumeExactlyIff | clara-cycle/src/controller.rs:289-305 | all writes succeed and both new sessions have exactly what was pending in the old ones if and only if nothing stale of either was stored |
| Resuming.ResumingDisturbsNothing | clara-coire/src/store.rs:352-371 | whatever was stored and however far the restore gets, no identifier occurs twice and all other sessions keep their events |
| Sweeping.CarrionPicker.Sweep | clara-coire/src/carrion_picker.rs:128-231 | one sweep removes exactly the sessions that do not survive exactly the expired snapshots with no running session, and exactly the cache entries that are old or charged to a reaped deduction, and counts all three; sources and artifacts as below |
| Storage.SweepKeepsSurvivors | clara-coire/src/carrion_picker.rs:128-205 | after a sweep an event is stored exactly if it was before and its session is running, or is owned by no reaped snapshot and has an event no older than the cutoff |
| Storage.PassesLeaveSurvivors | clara-coire/src/store.rs:376-402 | the second pass, which looks only at what the first left, together with it removes exactly those sessions |
| Sweeping.CarrionPicker.ReapSnapshots | clara-coire/src/carrion_picker.rs:135-177 | deleting the expired snapshots one by one, each with both its sessions and its cache entries, removes all of those and nothing else |
| Sweeping.SweptCache | clara-toolbox/src/ffi.rs:174-190 | after a sweep an entry is cached exactly if it was before, is not too old, and no reaped snapshot's deduction is charged with it |
| Storage.SourceRegistry.SweepExpired | clara-coire/src/source.rs:324-359 | the four deletions keep exactly the unexpired sources and the unexpired artifacts of kept sources, and the number returned is that of the rows removed |
| Storage.FourDeletions | clara-coire/src/source.rs:327-357 | what the deletions, in their order, leave of both tables |
| LspFraming.FramesReadBack | clara-pitsnake/src/lsp_client.rs:247-260 | reading the concatenation of the writer's frames gives exactly the bodies, for every sequence of bodies of any bytes |
| LspFraming.MessagesReadBack | clara-pitsnake/src/lsp_client.rs:272-352 | the same when a peer puts any other header lines before and after the length |
| LspFraming.LengthIsMeasured | clara-pitsnake/src/lsp_client.rs:341-347 | the length line is recognised, and its value is the length written |
| LspClient.WriterTask | clara-pitsnake/src/lsp_client.rs:247-260 | the writer's loop sends each body framed, in order |
| LspClient.Reader.ReadContentLength | clara-pitsnake/src/lsp_client.rs:317-352 | the header loop finds the length the header grammar says, and stops after the blank line |
| LspClient.Client.ReaderTask | clara-pitsnake/src/lsp_client.rs:266-313 | for any input the reader dispatches the messages of exactly the framed bodies, in order, and then drains |
| LspClient.Client.Request | clara-pitsnake/src/lsp_client.rs:96-133 | a request gets an identifier never used before and is registered before it is sent |
| LspClient.Client.DispatchMessage | clara-pitsnake/src/lsp_client.rs:354-409 | a response completes the waiting request with its identifier, if any; a diagnostics message replaces that file's; all else changes nothing |
| LspClient.RunKeepsSound | clara-pitsnake/src/lsp_client.rs:96-133 | over every interleaving of requests, messages and the reader's exit, each request is waiting and not completed, or was completed exactly once |
| LspClient.CompletedByItsOwnResponse | clara-pitsnake/src/lsp_client.rs:354-389 | a request is completed by the first response with its own identifier or by the final drain, whichever comes first, and by nothing else |
| LspClient.NobodyIsLeftWaiting | clara-pitsnake/src/lsp_client.rs:266-313 | after the reader has run to the end of any input, every request that waited has been completed once |
| Calendar.DaysToYmd | clara-baloroptik/src/list_mode.rs:94-112 | the loops end with a valid Gregorian date whose closed-form distance from the epoch is the day count, and the month loop stops by December |
| Calendar.DatesFollowDays | clara-baloroptik/src/list_mode.rs:94-116 | valid dates are ordered as their day counts, so the date of a day count is unique and later days have later dates |
| Calendar.NextYear | clara-baloroptik/src/list_mode.rs:114-116 | the leap rule agrees with the closed form's 4/100/400 terms |

## Left out

- EmittedRules.RuleRunsIff: for heads that survive being written unescaped, because the text of another head is not the expression it was meant to be; `PublishedHeads.UncleanIsLost` says that such a head is never published.
- TransductionMeaning.HeadEvaluates: for such heads as well, and TransductionMeaning.PublishedGoalIff for those of them whose variables are at the top level; `PublishedHeads.PublishesTheHeadIff` is about all heads.
- GoalsAsRead.PublishedGoalReadsIff: for such heads as well; nothing is said of what Prolog reads from the text that another head leads to.
- EmittedText.EmittedTextReadsBack: one direction; a newline in a clause, for one, does no harm if a comment follows it. The reader takes rules of the emitted form only, and a symbol is what the program's own fact reader takes for one.
- CLIPS expressions: a concatenation of strings and variables; a symbol between them, which only an unescaped quote leads to, counts as no value.
- PublishedHeads.UncleanIsLost: for bound values without double quotes and backslashes, for the reason given next.
- PublishedHeads.RulePublishesTheHeadIff: for facts whose fields have no double quotes and backslashes; a value with such characters could repair an expression that the head has broken. For flat heads `EmittedRules.EmittedRuleMeaning` has no such condition.
- EmittedRules.PatternMeaning: for triggers whose functor is one CLIPS symbol and whose atoms do not look like numbers; no other pattern is read as a fact of that functor.
- Offers.OffersAreConserved: an offer is registered under an identifier that no controller used before; a rule that reuses one overwrites its entry, and then two requests share one answer. `Controller.CycleController.RunCycles` does not assume this.
- Refinement.PassIsARun: assumes the same of the identifiers published in the pass.
- ClauseRoundTrip.ProgramReadsInPlaceIff: about the clauses together with their places; what is read after a clause that is not readable is not said, because the reader resumes at the next point, which may lie inside a quoted text.
- Floats: a float carries the text it was read from; its rounding and its printing are not modelled, and the round trips are for terms without floats.
- PrologRoundTrip.PrintedTermReadsBackIff: about ASCII text, because the program prints characters and reads bytes.
- Error messages: an error is a position only.
- The term methods of `PrologParser`: the program has them twice, in the term parser and in the rule parser; they are modelled as a cursor once, in `RuleParser`, and as functions in `PrologSyntax`.
- Retraction: `RenderRetract` models the text; nothing is proved about what CLIPS does with it.
- Random identifiers: they are counters, so that two never coincide is built in.
- ClipsRoundTrip.RelayRoundTrip: one direction; the exact condition is proved of the way from Prolog to CLIPS and back, in `ClipsRoundTrip.RelayTextIff`.
- Order among events with equal creation times: the query that orders by time fixes none, the model keeps the order of the table.
- MailRuns.PublishedOnce: from mailboxes that a run of the engines and relays can leave, such as empty ones.
- JSON, SQL and the database: payloads are records of the fields this code uses, tables are sequences and maps, and statements succeed.
- The payload of a message without transport block: the program wraps the whole event, the model keeps its payload.
- Encryption of envelopes: only that encrypted ones are skipped.
- The first Offering a caller supplies, the tableau, tracing and root-goal bindings: they change no offer and no relay; tableau stability is an input of the cycle.
- `session.rs` and the Dagda tableau: a keyed table with upserts, whose answers enter the cycle as inputs.
- The pause while replies are outstanding, and the numbers that a failed count falls back to.
- Concurrent polls through clones of one handle: each poll is one step.
- The Kafka client: only the in-memory broker is modelled.
- `register`, `get_or_create_artifact` and `delete` of the source registry: single insertions and deletions; a hash that never collides would have to be assumed.
- The order in which expired snapshots and stale sessions are deleted: the result does not depend on it.
- Timeouts of language-server requests: the caller stops waiting, and the table is not touched. The request counter does not wrap.
- `format_ms`: truncating arithmetic around the day count.
- `transduce_graph`, `decorate_source`, `generate_dot`, `coloring_from_entries`: text layout.
