# Robotest: a verified model of its coordination code

Robotest installs, resizes and breaks Gravity clusters on cloud machines.  Almost everything it does is input and
output; what holds the input and output together is a small amount of code with real invariants, and that code is
modelled here in Dafny and proved, for all inputs and all interleavings.

`dafny verify dfyconfig.toml` checks the whole project.

## What is modelled

* **Agent commands** (`AgentLexer`, `AgentParser`, `AgentRoundTrip`, `AgentWords`, `AgentLiterals`, `AgentUrl`,
  `AgentQuery`, `AgentRewrite`, `AgentCommands`).  The lexer works on characters: identifier runes that depend on
  their position, quoted, raw and character literals with escapes, comments, white space.  On top of it are the
  recursive parser with its error list, the printer that quotes some values, the download URL as a base, a query
  multimap (section 3.4 of RFC 3986) and a fragment, and the rewrite of the `curl` stage of a pipeline.  The parser is
  a class over the lexer's state, tied to a function on token sequences; that function accepts exactly a small
  language, panics exactly on an empty name, and undoes the printer.  Arguments without double quotes survive printing
  and parsing if and only if all are well-formed.  The rewrite changes one URL, in its query, in the key `bg`; if the
  curl arguments can be printed so that they are read back, everything else stays and a second rewrite changes
  nothing.  `AgentWords`, `AgentLiterals` and `AgentQuery` say on their own texts which characters make up words,
  literals, comments, escapes and queries, and `AgentCommands` puts this together for the documented command.
* **Output streaming** (`Streaming`).  Two pipe readers, a waiter, a writer and the caller, with an unbuffered
  channel, a buffered one, a wait group and a done signal, as a step system with twenty kinds of steps.  One inductive
  invariant gives safety of every run, progress, an explicit bound on the length of a run, and the functional result:
  the output is an interleaving of both pipes, every interleaving is the output of some run, and every run of a
  started command can be finished.
* **Fan-out and fan-in** (`FanIn`).  `Collect` as a loop over what its select statement delivers, and the protocol of
  n senders around it with a context that may end at any time.  Sent, buffered and received messages are conserved,
  nobody blocks, and the verdict lists exactly what was received.  `ProtocolRunsCollect` ties the protocol back to the
  loop; `ClockSync` and `Roles` use it.
* **Retrying** (`Retry`, `TestBudget`, `SuiteRun`).  `Retryer.Do` with its 64-bit delay; the budget that counts
  failures and preemptions, with a tight bound on the attempts; and the step system of concurrent attempts with their
  statuses while the suite is cancelled: why a test gives up, and that it does not before.  The backoff library is a
  loop: reset, run, stop on nil or on a permanent error, ask the interval, stop on a finished context.
* **File copies** (`FileCopy`).  A file system in which any step may fail; a file is replaced through a temporary file
  and a rename, a tree is copied entry by entry in any order.  Every state on the way is recorded, so that atomicity
  is a statement about all of them.  A file system may also be `reliable` (nothing fails without a reason in the
  tree); then the copies succeed exactly under a stated condition.
* **Bookkeeping** (`TestNaming`, `NodePool`, `Roles`, `LossRecovery`, `Locator`, `ClockSync`).  Names and tags of
  scheduled tests, the node pool, the roles of nodes, membership through loss and recovery, package locators, and the
  clock check.

`Common` and `Text` hold facts about sequences and strings, `Infra` the node type.

Random choices, map iteration order, faults and the interleaving of processes are nondeterministic or are parameters
(scripts, lookups, events).  A method that mirrors one of the repository's is tied by its `ensures` to a function or
predicate, and what the repository promises is then proved about that.

## What the proofs found

* The clock check accepts or rejects the same clocks depending on which report arrives first
  (`ClockSync.VerdictDependsOnOrder`).
* With the default delay of five seconds the 64-bit delay is negative before the 33rd of 100 attempts, so that attempt
  follows at once (`Retry.DefaultDelayOverflows`).  A whole schedule has the promised delays, and only positive ones,
  exactly when the last product fits in 63 bits (`Retry.ScheduleIsIdealIff`).  The conversion of too large a power of
  two to a 64-bit integer is the one amd64 makes.
* The rewrite of the documented download command drops the space before the next pipe sign, which the comment on
  `ConfigureAgentCommandRunDetached` (infra/agents.go:33-39) keeps; the model follows the code
  (`AgentCommands.DocumentedCommand`).
* A URL without quotes is refused: its colon is no argument, and the two slashes begin a comment
  (`AgentLiterals.UnquotedUrlFails`).  A raw literal is refused too (`AgentLiterals.RawIsNoPiece`), and a value
  assigned to a quoted name is dropped (`AgentLiterals.LiteralDropsValue`).
* A hyphen after the second rune ends an identifier, so `--retry-delay=5` comes back from a rewrite as `--retry
  -delay=5` (`AgentRewrite.RetryDelayCommand`, for any simple URL).  A word with a leading hyphen is read as one
  option exactly when all its runes may stand where they do (`AgentRoundTrip.OptionSurvivesIff`), and a text is
  printed back unchanged exactly when it is a printed one (`AgentRoundTrip.TextSurvivesExactlyWhenPrinted`).
* The parser panics on an empty literal in the place of a name, in double quotes (`AgentParser.EmptyLiteralCrashes`)
  or in single ones (`AgentParser.EmptyCharCrashes`), and exactly then (`AgentParser.CrashesExactlyOnEmptyNames`).
* A test function that panics while the suite is failing fast counts as a success, whatever error it recorded
  (`SuiteRun.CancelledAttemptSucceeds`), and exactly then (`SuiteRun.PanicIsHiddenIff`).
* An empty directory copied onto a file leaves the file and reports success (`FileCopy.EmptyDirMeetsFile`); the exact
  condition is in `FileCopy.CopiedIsOverlay` and `FileCopy.CompatibleExactly`.
* Copying a directory onto one above it can overwrite source files before they are copied: with the files `a/b/b/c`
  and `a/b/c`, copying `a/b` onto `a` leaves the first one's content at `a/c` (`FileCopy.NestedLosesFile`).  When a
  copy does not change what it reads is said in `FileCopy.NoFeedbackMeans`; what becomes of an entry that is changed
  first and read later, in `FileCopy.ChangedSourceIsCopied`, and for files, with the exact condition, in
  `FileCopy.FeedbackBreaksOverlay`.  These cover every changed entry that lies outside the way back to dst; an entry
  on it is changed by the copy of a child, to which the same applies.  A destination that is made inside the source is
  copied into itself level by level (`FileCopy.SelfCopyDescends`).
* A cluster in which two nodes have a ready first pod has a node without a role (`Roles.RolesPartitionIff`,
  `Roles.SecondReadyNodeHidesFirst`); without a ready pod the removal of the cluster master panics
  (`LossRecovery.NoReadyPodPanics`).
* Log collection starts fewer senders than it waits for when two nodes share the address of the API server
  (`Roles.StartLogCollection`, `Roles.SharedAddressLosesSender`), and then ends only by its context
  (`Roles.CollectLogs`).

## Model

| member | source | states |
|---|---|---|
| AgentLexer.ScanIdentifier | infra/agents.go:106-122 | An identifier is read as one token up to the first rune that may not stand at its position. |
| AgentLexer.ScanQuoted | infra/agents.go:118-122 | A value without quote, backslash or newline, put between quotes, is read as one string token. |
| AgentLexer.QuotedValue | infra/agents.go:145-152 | Unquoting such a token gives the value back. |
| AgentWords.WordCharsExactly | infra/agents.go:106-116 | Among the printable ASCII characters exactly the letters, digits, `_` and `.` continue a word, and a hyphen stands only first or second. |
| AgentWords.OptionIsOneArgument | infra/agents.go:106-143 | One or two hyphens and a word of these characters are read as one option. |
| AgentWords.WordEndsBefore | infra/agents.go:106-122 | No other printable ASCII character continues a word. |
| AgentWords.QuotedExactly | infra/agents.go:229-237 | A value is printed between quotes exactly when it has a space or one of `:/@?&#`. |
| AgentWords.ValueSurvives | infra/agents.go:83-237 | Every value made of word characters and of these seven is printed so that it is read back. |
| AgentLiterals.EveryValueCanBeQuoted | infra/agents.go:118-152 | Any text, with its quotes, backslashes and newlines escaped, is one token whose value is the text. |
| AgentLiterals.LetterEscapes | infra/agents.go:145-152 | The seven escapes of one letter have their values, and an escaped single quote is not understood. |
| AgentLiterals.NumericEscapes | infra/agents.go:145-152 | Two, four or eight hexadecimal digits, or three octal ones, after a backslash are the character with that number, in any literal. |
| AgentLiterals.CharacterIsNoPiece | infra/agents.go:118-166 | Text between single quotes is one token that is no argument. |
| AgentLiterals.RawIsNoPiece | infra/agents.go:124-166 | Text between back quotes is refused, and makes the parser panic when it is empty but for carriage returns. |
| AgentLiterals.LineCommentIsSkipped | infra/agents.go:118-122 | Two slashes hide the rest of the line. |
| AgentLiterals.BlockCommentIsSkipped | infra/agents.go:118-122 | A slash and a star hide everything up to the first star and slash. |
| AgentLiterals.BlanksAreSkipped | infra/agents.go:118-122 | Blanks before a token do not matter. |
| AgentLiterals.UnquotedUrlFails | infra/agents.go:97-166 | A URL without quotes is refused at its colon. |
| AgentLiterals.AssignedValue | infra/agents.go:124-143 | Any quotable value after `=` belongs to the name before it; an option with an empty value is an option without. |
| AgentLiterals.LiteralDropsValue | infra/agents.go:137-143 | A value assigned to a quoted name is dropped. |
| AgentLiterals.TrimmedIsInside | infra/agents.go:48 | Trimming takes the blanks on both sides of a text away, and nothing else. |
| AgentParser.Parser.constructor | infra/agents.go:91-95 | The new parser has exactly the tokens of the command ahead of it and no errors. |
| AgentParser.Parser.Next | infra/agents.go:118-122 | Moving on drops the current token; at the end nothing changes. |
| AgentParser.Parser.ExpectPiece | infra/agents.go:161-166 | A token that is neither identifier nor string is recorded as an error, and is skipped all the same. |
| AgentParser.Parser.ParseIdentOrLiteral | infra/agents.go:145-152 | The value is the unquoted text, or the text itself when it cannot be unquoted; exactly one token goes. |
| AgentParser.Parser.ParseArg | infra/agents.go:124-143 | One call consumes the tokens, adds the errors and returns the argument that the token-level step says, or panics when it does. |
| AgentParser.ParseCommandLine | infra/agents.go:91-104 | The loop ends on every command and returns what the token-level parser says: the arguments, the errors, or a panic. |
| AgentParser.AcceptedLanguage | infra/agents.go:91-143 | Accepted are exactly the sequences of pieces, each optionally followed by `=` and a piece, with non-empty names; the arguments are their meanings in order. |
| AgentParser.CrashesExactlyOnEmptyNames | infra/agents.go:124-137 | The parser panics if and only if accepted items are followed by a token that stands for the empty string. |
| AgentParser.FailureReportsTokens | infra/agents.go:97-104 | A failure reports at least one token, and only tokens that are no piece. |
| AgentParser.EmptyLiteralCrashes | infra/agents.go:132 | `curl ""` makes the parser panic. |
| AgentParser.EmptyCharCrashes | infra/agents.go:132 | `curl ''` makes the parser panic too, before the token that is no piece is reported. |
| AgentParser.FormatCommandLine | infra/agents.go:83-89 | The loop and join print what the recursive printer prints. |
| AgentParser.ParseUndoesFormat | infra/agents.go:83-152 | Parsing the printed form of any list of well-formed arguments returns exactly that list. |
| AgentRoundTrip.LexIsSound | infra/agents.go:106-122 | Every identifier token is an identifier, a string token needs a double quote in the text, and the tokens are together no longer than the text. |
| AgentRoundTrip.LexIsPrinted | infra/agents.go:145-152 | In a text with a quotable character between any two double quotes, every literal without a double quote in its value has a value that the printer quotes. |
| AgentRoundTrip.SurvivesExactlyWhenWellFormed | infra/agents.go:83-237 | A list of arguments without double quotes survives printing and parsing if and only if all arguments are well-formed. |
| AgentRoundTrip.TextSurvivesExactlyWhenPrinted | infra/agents.go:83-104 | A text whose arguments have no double quotes is parsed and printed back unchanged if and only if it is the printed form of well-formed arguments. |
| AgentRoundTrip.OptionSurvivesIff | infra/agents.go:106-143 | A word with a leading hyphen and no double quote is read as one option if and only if every rune may stand at its position. |
| AgentUrl.ChangeMeaning | infra/agents.go:68-70 | Adding to or setting a key keeps the query ordered, gives that key the old values plus the new one or the new one alone, and leaves every other key alone. |
| AgentUrl.UnescapeEscape | infra/agents.go:68-70 | Percent-decoding undoes percent-encoding of any octets. |
| AgentUrl.ParseUndoesEncode | infra/agents.go:68-70 | Parsing an encoded query returns the query, for every ordered multimap of octet strings. |
| AgentUrl.ParseUndoesPrint | infra/agents.go:64-71 | Parsing a printed URL returns its base, query and fragment. |
| AgentUrl.BackgroundMeaning | infra/agents.go:64-71 | The rewritten URL keeps base and fragment, has `bg` exactly once and equal to "true", and keeps the values of every other key. |
| AgentUrl.BackgroundTwice | infra/agents.go:64-71 | Rewriting a rewritten URL changes nothing. |
| AgentQuery.LessIsLexicographic | infra/agents.go:68-70 | Keys are printed in lexicographic order of their octets. |
| AgentQuery.EscapedOctet | infra/agents.go:68-70 | Letters, digits and `-_.~` stay, a space becomes a plus, any other octet a percent sign and two upper-case digits. |
| AgentQuery.DecodedCharacter | infra/agents.go:68 | Escapes are understood in upper and lower case, a plus is a space, other characters are their UTF-8 octets. |
| AgentQuery.DecodedIff | infra/agents.go:68 | A text is decoded if and only if every percent sign is followed by two hexadecimal digits. |
| AgentQuery.Utf8Exactly | infra/agents.go:68 | The octets of a character carry its code, in one to four octets (section 3 of RFC 3629). |
| AgentQuery.SeparatorsAgree | infra/agents.go:68 | A semicolon separates the segments of a query as an ampersand does. |
| AgentQuery.SegmentCounts | infra/agents.go:68 | A segment counts exactly when it is not empty and well escaped on both sides of its first equals sign; one without that sign is a key with an empty value. |
| AgentQuery.RejectedIff | infra/agents.go:64-67 | A text is rejected as a URL if and only if it has a control character before its fragment or a bad escape in its base or fragment. |
| AgentRewrite.ConfigureAgentCommandRunDetached | infra/agents.go:42-81 | The loops find the first curl stage and rewrite it, with the source's error for every case, as the function Detach says; what Detach does is stated by the rows below, down to the documented command. |
| AgentRewrite.RewriteUrl | infra/agents.go:59-80 | The loop rewrites the first positional http argument and prints all arguments, or reports that there is none or that it is no URL. |
| AgentRewrite.DetachSucceedsIff | infra/agents.go:55-80 | The rewrite succeeds exactly when the curl arguments parse and the first positional http argument is a URL; it reports a missing curl stage or URL exactly when there is none. |
| AgentRewrite.DetachFailsIff | infra/agents.go:59-67 | The parser's panic, its refusal and a bad URL are each reported exactly in their case. |
| AgentRewrite.PrintedCommandIsRewritten | infra/agents.go:42-81 | In any pipeline, printed curl arguments are replaced by the printed arguments with the first URL in background form. |
| AgentRewrite.DetachEffect | infra/agents.go:42-81 | After a rewrite of printable curl arguments every other stage is as it was, the curl stage parses to the old arguments with only the first URL replaced, and is still the first curl stage. |
| AgentRewrite.DetachTwice | infra/agents.go:42-81 | If the rewrite of such a command succeeds, a second rewrite returns the same text. |
| AgentRewrite.HyphenEndsOption | infra/agents.go:106-116 | An option that runs on with a hyphen after its first two runes is read as two arguments and printed with a space between them. |
| AgentRewrite.RetryDelayIsSplit | infra/agents.go:106-116 | `--retry-delay=5` is read and printed as `--retry -delay=5`. |
| AgentRewrite.DetachSplitsOption | infra/agents.go:42-116 | The rewrite of a curl command whose first option runs on with a hyphen after an identifier puts a space there. |
| AgentRewrite.RetryDelayCommand | infra/agents.go:42-116 | For every simple URL the whole command with `--retry-delay=5` is rewritten to one with `--retry -delay=5` and the query `bg=true`. |
| AgentCommands.DownloadIsRewritten | infra/agents.go:42-81 | For printable curl arguments with a URL, a space and any further stage: the URL gets its background form and the space before the pipe sign goes. |
| AgentCommands.DocumentedCommand | infra/agents.go:31-81 | For every simple URL the documented command keeps its options and its URL gets the query `bg=true`. |
| AgentCommands.CurlStageExactly | infra/agents.go:46-54 | A stage is a curl stage if and only if these four letters come first after its blanks. |
| AgentCommands.OnlyHttpIsRewritten | infra/agents.go:59-80 | No URL is found if and only if no positional argument starts with the four letters http. |
| Streaming.StepInv | lib/ssh/ssh.go:82-126 | Every step of every process keeps the invariant: who may still send or close, no byte lost or reordered up to the log, and the log reaching the output in order. |
| Streaming.EveryRunIsSafe | lib/ssh/ssh.go:82-126 | No run, started or not, reaches a send on a closed channel, a second close, a negative wait group or a reader blocked on the error channel. |
| Streaming.NoDeadlock | lib/ssh/ssh.go:82-126 | In every state of the invariant that is not final some step is possible. |
| Streaming.StepsDescend | lib/ssh/ssh.go:82-126 | Every step decreases an explicit measure. |
| Streaming.EveryRunEnds | lib/ssh/ssh.go:82-128 | A run has at most 4 times the bytes of both pipes plus 18 steps, and some step is possible until the call is over. |
| Streaming.StartedCallReturns | lib/ssh/ssh.go:112-126 | A call whose command starts is over only when it has returned, one whose command does not start only by that failure, and without a start it is not over. |
| Streaming.StartedRunCanReturn | lib/ssh/ssh.go:82-126 | Every run of a started command can be extended until the call has returned; without failures the output is then an interleaving of all bytes of both pipes. |
| Streaming.LogInterleaves | lib/ssh/ssh.go:157-178 | Chunks handed over in any order make up an interleaving of the bytes of both sources, byte by byte. |
| Streaming.OutputIsAnInterleaving | lib/ssh/ssh.go:82-128 | When the call returns the output is a prefix of an interleaving of what was read; a pipe without read error is there completely, and without write error the output is complete. |
| Streaming.CleanRunDeliversEverything | lib/ssh/ssh.go:82-128 | Without read and write errors the output is an interleaving of all bytes of stdout and stderr, each in order. |
| Streaming.EveryInterleavingIsPossible | lib/ssh/ssh.go:82-178 | Every interleaving of prefixes of the pipes is the output of a run that returns, whose readers fail exactly where a pipe is cut short. |
| Streaming.EveryCutIsPossible | lib/ssh/ssh.go:98-110 | A failing destination may cut any of these outputs off at any byte. |
| FanIn.Collect | lib/utils/errors.go:35-66 | The loop refuses unequal capacities; otherwise it stops with the context or with the last error and value and not before, and its verdict, on the events received, accepts with the values in order of arrival or lists exactly the non-nil errors in order of arrival with a final timeout if and only if the context was found done; cancel is called once for each of them. |
| FanIn.OneCancelPerError | lib/utils/errors.go:54-59 | Cancel is called once for every non-nil error received if there is a cancel function, and never otherwise. |
| FanIn.SendConserves | lib/utils/errors.go:39-48 | A send keeps the account of what was sent, buffered and received. |
| FanIn.TakeConserves | lib/utils/errors.go:53-62 | A receive takes the oldest message and keeps the account. |
| FanIn.NoSenderBlocks | lib/utils/errors.go:39-40 | In every state of the invariant a process that wants to send has room, even after Collect has returned. |
| FanIn.Progress | lib/utils/errors.go:48-64 | Until Collect has returned a sender or its loop can take a step. |
| FanIn.RankDescends | lib/utils/errors.go:48-64 | Every step decreases an explicit measure. |
| FanIn.ReachableInv | lib/utils/errors.go:35-66 | The invariant holds in every reachable state, and a run has at most 4n + 2 steps. |
| FanIn.CancelNeedsAnError | lib/utils/errors.go:54-59 | Collect has called cancel only if some process sent a non-nil error. |
| FanIn.AcceptedMeansAllSucceeded | infra/gravity/provision.go:404-424 | A nil error means all n errors were nil, and the values are a permutation of those produced. |
| FanIn.RejectedHasACause | lib/utils/errors.go:48-65 | An error means a failed process or a finished context; without a timeout among them the failures are exactly those sent. What the list is, with a timeout or without, is stated by the next row. |
| FanIn.VerdictReflectsEvents | lib/utils/errors.go:48-65 | In every reachable state the verdict lists exactly the non-nil errors received, in order of arrival, and a final timeout if and only if the context was found done; errors and values are received in the order of sending. |
| FanIn.ContextMayEndTheLoop | lib/utils/errors.go:48-52 | The context may end at any time, and a loop that misses something may then end by it at once. |
| FanIn.ProtocolRunsCollect | lib/utils/errors.go:48-65 | In every run the verdict is the one the loop reaches on the events it received. |
| Retry.BackoffIsIdeal | lib/wait/retry.go:147-154 | Without overflow the delay is min(d * 2^(n-1), one minute). |
| Retry.BackoffIsIdealIff | lib/wait/retry.go:147-154 | A single delay is the ideal one if and only if the product does not overflow or, up to the 63rd attempt, lies between the maximum and 2^63 modulo 2^64. |
| Retry.FirstOverflowIsNegative | lib/wait/retry.go:147-154 | A product between 2^63 and 2^64 gives a negative delay. |
| Retry.ScheduleIsIdealIff | lib/wait/retry.go:83-154 | All delays of a schedule of n attempts are ideal if and only if d * 2^(n-1) < 2^63, and all are positive if and only if the same holds. |
| Retry.BackoffGrows | lib/wait/retry.go:147-154 | Without overflow delays are positive, never decrease and never exceed the maximum. |
| Retry.DefaultDelayOverflows | lib/defaults/defaults.go:33-38 | With the default delay the 31st delay is the maximum, the 32nd is negative and the 33rd is the maximum again. |
| Retry.DefaultDelays | lib/defaults/defaults.go:33-38 | The default delays are 5, 10, 20 and 40 seconds, and then a minute. |
| Retry.TotalDelayIsBounded | lib/wait/retry.go:104-109 | The delays after n attempts add up to at most n times the maximum. |
| Retry.DelaysDouble | lib/wait/retry.go:104-154 | Up to the maximum the delays of n failed attempts add up to d * (2^n - 1). |
| Retry.DelaysAtTheMaximum | lib/wait/retry.go:104-154 | From the maximum on each attempt adds the maximum, and at the first overflow nothing. |
| Retry.Calls | lib/wait/retry.go:83-112 | The number of calls is at most the number of attempts; only the last call may succeed, abort or see its context end. |
| Retry.Do | lib/wait/retry.go:74-113 | On the script itself: every call but the last failed without an abort in a live context; the last one succeeded, aborted, met the end of the context or was the last allowed; its error is returned, or the inner error of an abort, so that nil is returned if and only if the last call returned nil or an abort of nil; the timer is set after every failed call that is no abort; nothing is called on a finished context. |
| TestBudget.PreemptiveBackoff.constructor | infra/gravity/testsuite.go:375-382 | Both counters start at zero. |
| TestBudget.PreemptiveBackoff.Reset | infra/gravity/testsuite.go:391-395 | Both counters return to zero. |
| TestBudget.PreemptiveBackoff.NextPreempted | infra/gravity/testsuite.go:397-402 | A preemption is counted apart, and spends the whole budget when it is one too many. |
| TestBudget.PreemptiveBackoff.Next | infra/gravity/testsuite.go:404-407 | A plain failure is counted and forgives the preemptions. |
| TestBudget.PreemptiveBackoff.NextBackOff | infra/gravity/testsuite.go:384-389 | The interval stops exactly when the tries are used up. |
| TestBudget.AttemptsAreBounded | infra/gravity/testsuite.go:384-407 | No schedule of failures goes on for more than maxTries * maxPreempted attempts. |
| TestBudget.BoundIsReached | infra/gravity/testsuite.go:384-407 | A schedule of failures reaches that bound. |
| TestBudget.RunWithRetries | infra/gravity/testsuite.go:216-256 | The loop ends with the first attempt that succeeds, is skipped, fails permanently, finds its context done or spends the budget: maxTries plain failures, or maxPreempted preemptions in a row, counted on the schedule. |
| SuiteRun.StepInv | infra/gravity/testsuite.go:142-159 | Every step of every test and of Cancel keeps the invariant of all attempts and budgets, and never lowers the flag. |
| SuiteRun.EveryAttemptIsAccountedFor | infra/gravity/testsuite.go:211-350 | In every interleaving an attempt gets RUNNING and then exactly one final status that tells how its function ended and what the retry loop is told; only a plain failure is retried; a finished test has succeeded if and only if its last attempt is PASSED or CANCELED, the latter only while failing fast; attempts stay within the budget. |
| SuiteRun.ErroredHasAReason | infra/gravity/testsuite.go:216-268 | In every run a test that ends with an error had a bad-parameter error last, or its context is done, or its failures spend the budget, counted on the attempts and whether their nodes were preempted. |
| SuiteRun.FailureIsRetried | infra/gravity/testsuite.go:229-256 | In every run a failure that may be retried within the budget, with a live context and no failing fast, is followed by another attempt within the test's next four steps, and the test does not give up before. |
| SuiteRun.FlagNeverResets | infra/gravity/testsuite.go:142-159 | Once the suite is failing fast it stays so. |
| SuiteRun.ErrorStopsSuite | infra/gravity/testsuite.go:258-266 | A test that ends with an error makes a fail-fast suite fail fast. |
| SuiteRun.CancelStopsRetries | infra/gravity/testsuite.go:229-266 | After Cancel every test begins at most one more attempt, and a running one none. |
| SuiteRun.FailFastSkips | infra/gravity/testsuite.go:236-245 | Once the suite is failing fast a test that has not reported its failure yet never ends with an error, in any run. |
| SuiteRun.TestStepDescends | infra/gravity/testsuite.go:216-256 | Every step of a test decreases an explicit measure that stays non-negative. |
| SuiteRun.TestStepsAreBounded | infra/gravity/testsuite.go:211-268 | In every interleaving a test takes at most ten steps for each attempt of its budget, and eight more. |
| SuiteRun.TestProgress | infra/gravity/testsuite.go:216-256 | A test that is not over can take a step. |
| SuiteRun.PanicIsHiddenIff | infra/gravity/testsuite.go:307-340 | A panicking attempt ends with a nil error and CANCELED if and only if the suite is failing fast when the deferred function runs. |
| SuiteRun.CancelledAttemptSucceeds | infra/gravity/testsuite.go:307-318 | A panic while the suite is failing fast, with or without a recorded error, makes the test succeed. |
| FileCopy.FileSystem.TempName | lib/system/file.go:48 | The temporary file is new, lies in the directory of the destination and is not the destination. |
| FileCopy.FileSystem.CopyFileWithPerms | lib/system/file.go:42-80 | In every state on the way nothing has changed but for one temporary file, or the destination has the whole new content, which happens only on success; success changes nothing else; failure leaves everything as it was but a temporary file that could not be removed; nothing failing, it succeeds exactly when source and destination allow it. |
| FileCopy.FileSystem.FillAndRename | lib/system/file.go:60-79 | The content goes to the temporary file, and only the rename touches the destination. |
| FileCopy.FileSystem.Cleanup | lib/system/file.go:53-58 | The temporary file is removed, or left when removal fails. |
| FileCopy.FileSystem.MkdirAll | lib/system/file.go:115-120 | Only missing directories on the path appear; nothing failing, it succeeds exactly when no file is on the path. |
| FileCopy.FileSystem.CopyAll | lib/system/file.go:85-155 | Whenever the copy does not change what it reads: on success the tree is exactly the goal and the count is the number of regular files of the source; on failure, and in every state on the way, every path has its old or its goal entry but for one temporary file; success needs trees that allow it, and nothing failing it follows from that. |
| FileCopy.FileSystem.CopyEntries | lib/system/file.go:128-154 | The loop over the entries, in any order, reaches the goal, counts the files, and succeeds exactly when every entry finds its place. |
| FileCopy.FileSystem.CopyEntry | lib/system/file.go:133-151 | One entry is copied, its files are counted, and the other entries are not affected. |
| FileCopy.NoFeedbackMeans | lib/system/file.go:91-155 | A copy does not change what it reads if src and dst are the same or apart; with dst above src if and only if the part of src that is copied onto src changes nothing listed there; never if dst has to be made inside src. |
| FileCopy.SelfCopyDescends | lib/system/file.go:115-144 | A destination made inside the source makes the listed directory on the way to it a copy of the same kind, whose destination is missing again. |
| FileCopy.ChangedSourceIsCopied | lib/system/file.go:128-144 | With dst above src, an entry copied after the entry on the way ends as its source overlaid with the part of src that was copied onto it, where the goal has the source as it was. |
| FileCopy.CopiedIsOverlay | lib/system/file.go:85-155 | A successful copy leaves dst overlaid with src if and only if no directory of the source meets a file of the destination. |
| FileCopy.CopiedFile | lib/system/file.go:91-126 | A successful copy of a file puts it into dst under its own name, makes the missing directories up to dst, and leaves everything else alone. |
| FileCopy.CanCopyFileExactly | lib/system/file.go:103-126 | A file can be copied if and only if no file is in the way of dst and no directory in the way of the copy. |
| FileCopy.CompatibleExactly | lib/system/file.go:85-155 | A directory can be copied with an overlay as the result exactly when no path is a file on one side and a directory on the other and dst lies in no file; otherwise only a childless directory may meet a file. |
| FileCopy.FileMeetingDirStays | lib/system/file.go:111-131 | A file of the destination that a directory of the source meets stays. |
| FileCopy.EmptyDirMeetsFile | lib/system/file.go:111-131 | A tree in which an empty directory meets a file: the copy is possible, and its goal keeps the file. |
| FileCopy.FeedbackBreaksOverlay | lib/system/file.go:128-154 | For every such tree and every file n of src that is copied after the entry on the way: the loop leaves the file that was copied onto n, so it reaches the goal if and only if both have the same content. |
| FileCopy.NestedLosesFile | lib/system/file.go:128-154 | Copying a/b onto a leaves the content of a/b/b/c at a/c. |
| FileCopy.CopiedKeepsTheRest | lib/system/file.go:85-155 | Outside dst nothing changes but the missing parents of dst. |
| FileCopy.CopiedKeepsExtras | lib/system/file.go:85-155 | What was below dst and is not in the source stays. |
| TestNaming.DecimalInjective | lib/config/config.go:54-55 | Different numbers are printed differently. |
| TestNaming.DecimalIsRead | lib/config/config.go:54-55 | The decimal text of a number is read back as the number and has no leading zero. |
| TestNaming.ProbesAreBounded | lib/config/config.go:54-61 | No more names can be taken than there are entries, so probing ends. |
| TestNaming.TestSet.Add | lib/config/config.go:48-62 | The entry gets the key, or the key with the least free number from 2 on; no entry is overwritten. |
| TestNaming.LastSplit | lib/config/config.go:116 | The split is the rightmost one that the pattern allows. |
| TestNaming.KeyAndDataMean | lib/config/config.go:83-116 | Key and data make up the argument with the last possible equals sign between them; an argument that cannot be split is its own key. |
| TestNaming.SplitArgument | lib/config/config.go:83-116 | A name without blanks, an equals sign and parameters without one are split there. |
| TestNaming.Parse | lib/config/config.go:78-114 | The errors are exactly the rejected arguments, in order; without any the set holds exactly one entry for each argument, under distinct names made from its key. |
| TestNaming.TagInjective | infra/gravity/config.go:165-175 | Different tests or runs have different tags, with any base tag. |
| TestNaming.TagExample | infra/gravity/config.go:165-175 | The first run of install under base has the tag base-install-1; without a base tag run 12 is install-12. |
| TestNaming.Plan.Schedule | infra/gravity/testsuite.go:168-170 | The test is filed under its tag. |
| TestNaming.ScheduleRun | suite/suite_test.go:142-146 | One run files every test of the set under a tag not used before. |
| TestNaming.ScheduleAll | suite/suite_test.go:141-147 | r runs of k tests give exactly r * k tags, each with its own test: no scheduled test is lost. |
| NodePool.Pool.constructor | infra/node_pool.go:23-36 | The pool holds the given addresses, each with the last node that has it, and its allocations lie in it if the given ones do. |
| NodePool.Pool.Allocate | infra/node_pool.go:44-57 | Allocate succeeds exactly when the amount fits; in any map order it returns that many distinct free nodes and allocates just these; otherwise nothing changes. |
| NodePool.Pool.Pick | infra/node_pool.go:49-55 | The loop picks distinct free nodes up to the amount, in any order of visits. |
| NodePool.Pool.Free | infra/node_pool.go:59-68 | Free releases exactly the nodes before the first one that is not allocated any more, and succeeds when there is none. |
| NodePool.ReleasableMeans | infra/node_pool.go:59-68 | Free succeeds exactly on allocated nodes listed once each. |
| NodePool.Pool.AllocatedNodes | infra/node_pool.go:79-86 | Every allocated address is listed once with its node, which is there whenever the allocations lie in the pool. |
| NodePool.AllocateThenFree | infra/node_pool.go:44-68 | Freeing what was just allocated restores the pool. |
| NodePool.RunOperations | infra/node_pool.go:23-68 | If the first allocations lie in the pool, they do so after every run of allocations and releases. |
| Roles.ApiserverNode | infra/gravity/status.go:356-381 | The API server is the last node with the resolved address and the others are those without it, in order; each error exactly in its case. |
| Roles.ApiPartition | infra/gravity/status.go:367-380 | With distinct addresses the API server and the others partition the nodes. |
| Roles.NodesByRole | infra/gravity/status.go:314-353 | The loops give each node the role its first pod says, the master being the last ready one; no roles exactly when the API server or the pods are missing. |
| Roles.RolesMean | infra/gravity/status.go:332-350 | A node is ready or a backup as the first of its pods is ready or not, and regular exactly when it has none. |
| Roles.MasterIsLastReady | infra/gravity/status.go:332-345 | The master is the last node whose first pod is ready. |
| Roles.RolesPartitionIff | infra/gravity/status.go:332-350 | Master, backups and regular nodes partition the nodes if and only if at most one node's first pod is ready. |
| Roles.RolesAreNodes | infra/gravity/status.go:332-350 | Only nodes of the cluster get roles. |
| Roles.StartLogCollection | infra/gravity/status.go:255-286 | One sender for each node with distinct addresses, whether or not there is an API server; the last node with its address collects the kubernetes logs, and no other; as many senders as the channel has room for exactly when at most one node has that address. |
| FanIn.MissingSendersWait | lib/utils/errors.go:48-64 | If fewer errors arrive than the channel has room for, the loop can end only by its context. |
| Roles.CollectLogs | infra/gravity/status.go:255-286 | Over every sequence of events the call reaches the verdict of the collecting loop; with two nodes at the API server's address it can end only by its context. |
| Roles.SharedAddressLosesSender | infra/gravity/status.go:264-280 | Two nodes with one address: one sender for a channel with room for two. |
| Roles.SecondReadyNodeHidesFirst | infra/gravity/status.go:332-345 | Two nodes with a ready first pod: the first has no role. |
| LossRecovery.ExcludeNode | suite/sanity/loss_recover.go:192-200 | The loop keeps the other nodes in order. |
| LossRecovery.ExcludeMeans | suite/sanity/loss_recover.go:192-200 | Excluding a node of distinct nodes takes just this one out. |
| LossRecovery.LookupsAreResolved | suite/sanity/loss_recover.go:150-152 | Whatever NodesByRole returns names nodes of the cluster. |
| LossRecovery.RemoveNode | suite/sanity/loss_recover.go:146-190 | The first lookup that needs no relocation decides; the node chosen plays the role asked for, away from the API server where the code says so; each failure and panic exactly in its case. |
| LossRecovery.DecidedMeans | suite/sanity/loss_recover.go:146-190 | Role by role, what the deciding roles lead to: the node chosen, the failed check, the panic. |
| LossRecovery.Cluster.Expand | infra/gravity/cluster_resize.go:26-53 | A successful join adds the node, a failed one changes nothing. |
| LossRecovery.Cluster.Remove | infra/gravity/cluster_resize.go:111-120 | A successful removal takes the node out, a failed one changes nothing; the request is recorded. |
| LossRecovery.ExpandThenRemove | suite/sanity/loss_recover.go:113-124 | With the spare joining first the members end as the survivors and the spare; membership stays within one of N and the removal is asked of a survivor. |
| LossRecovery.RemoveThenExpand | suite/sanity/loss_recover.go:125-137 | The same with the removal first. |
| LossRecovery.ReplaceNode | suite/sanity/loss_recover.go:108-137 | Both orders recover exactly when somebody is left and every step succeeds, with the same members. |
| LossRecovery.ReplaceNobody | suite/sanity/loss_recover.go:108-137 | Without a node to remove the replacement panics or aborts, and never recovers. |
| LossRecovery.ReplaceChosen | suite/sanity/loss_recover.go:108-137 | After the choice: recovery exactly when there is a node to remove, another one and no failing step; panic exactly without a node to remove or without a survivor to ask. |
| LossRecovery.OutcomeOfChoice | suite/sanity/loss_recover.go:87-144 | What removeNode decides determines on the inputs whether the test recovers or panics. |
| LossRecovery.NoReadyPodPanics | infra/gravity/status.go:332-350 | Without a ready pod the loss of the cluster master never recovers, and panics if and only if it is to be powered off or the steps before the removal succeed. |
| LossRecovery.LossAndRecovery | suite/sanity/loss_recover.go:87-144 | On the inputs: the test recovers if and only if the deciding roles allow the removal, the node can be powered off if it is to be, another node is left and every step succeeds; it panics if and only if the master is missing or nobody is left to ask; on recovery the cluster is the first N nodes without the chosen one and with the spare, in either order; at all times membership is between N-1 and N+1 and removal is asked of a surviving member. |
| Locator.PrintUndoesParse | lib/loc/loc.go:39-63 | Any accepted text prints back unchanged and is a valid locator. |
| Locator.ParseUndoesPrintIff | lib/loc/loc.go:39-82 | A locator is read back from what it prints if and only if it is valid. |
| Locator.NameExactly | lib/loc/loc.go:82 | A name consists of letters, digits, underscores, dots and hyphens. |
| ClockSync.TimeInRange | lib/ssh/time.go:91-107 | The loop accepts exactly when every report is within 200 milliseconds of the first one. |
| ClockSync.AcceptedWithinTwice | lib/ssh/time.go:64-107 | In any arrival order acceptance bounds every two clocks by twice the allowed difference. |
| ClockSync.AcceptedInEveryOrderIff | lib/ssh/time.go:64-107 | Clocks are accepted in every arrival order if and only if they are pairwise within the allowed difference. |
| ClockSync.VerdictDependsOnOrder | lib/ssh/time.go:95-107 | The same three clocks are accepted in one order and rejected in another. |
| ClockSync.CheckOverCollect | lib/ssh/time.go:64-89 | Over every run of the fan-in: acceptance means every node answered and clocks are within twice the difference; clocks pairwise near are never rejected. |

## Left out

- AgentRoundTrip.SurvivesExactlyWhenWellFormed: arguments with double quotes are excluded (an unterminated literal at the end of a command survives, for instance).
- AgentRewrite.DetachTwice: requires that the parsed curl arguments are well-formed and print without a pipe sign; a value with an escaped quote is printed without the escape.
- AgentUrl.ParseUndoesPrint: base and fragment are kept as written; the re-escaping, lower-casing and host checks of Go's url package are not modelled.
- AgentUrl.BackgroundMeaning: states the base and fragment as written, for the same reason.
- AgentRewrite.DetachSucceedsIff: counts a text as a URL without Go's checks of scheme, host and port (`http://[x` is rejected by the code).
- Retry.Do: what is logged and the remaining time shown are left out; the two branches of a select that are both ready are an arbitrary choice in the script.
- FileCopy.FileSystem.CopyEntries: requires the same, and so does FileCopy.FileSystem.CopyEntry.
- FileCopy.FileSystem.CopyAll: requires, for a directory, that the copy changes nothing it is still to read, in whatever order the entries come; where it does, the result depends on the order of the names, and a copy that is changed only after it was read, or to what it would have become anyway, is excluded too; permissions, links and special files are not modelled.
- LossRecovery.LossAndRecovery: when the given role lookups end without a decision the outcome is Aborted, which stands for a test still relocating the cluster master.
- LossRecovery.RemoveNode: the repeated relocation of the cluster master is followed for as many role lookups as are given; that it ends is not claimed, and the code does not bound it.
- SuiteRun.TestProgress: that a test function itself ends is taken for granted.
- The lexer follows Go 1.16 in decoding half of a surrogate pair to the replacement character; it treats invalid UTF-8, byte order marks and the zero rune as ordinary characters, and octal or hexadecimal escapes from 0x80 on as characters; which runes outside ASCII are letters or digits is left open.
- JSON decoding of test parameters is a registry of functions from text to an optional entry.
- The durations of the exponential interval behind the test budget, and the tags of retried attempts.
- The streaming call after a failed start: only its safety is stated; its readers and writer are abandoned by the code.
- The error the streaming call returns is the one of the command's start or wait and passes through; read and write errors are only logged.
- SSH sessions, terraform, cloud and kubectl calls, DNS lookups: their results are parameters.
- Logging, progress messages, log links and profiling.
- The round robin over cloud regions, the shrink operation, the destroy policies and the resource allocation file.
- System status decoding, configuration validation, and the browser-driven end-to-end tests.
