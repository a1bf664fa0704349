# Peasant: a verified model of its command layer

Peasant harvests AI coding agent transcripts into a local store, redacts them, schedules itself
through systemd and publishes sessions to an online village. This project models the parts of its
commands that hold real algorithms or protocols, and proves what they promise.

`dafny verify dfyconfig.toml` checks everything. The Dafny files come in pairs: a module that says
what the code computes (functions, and the loops and classes proved to compute them) and a module
of theorems about it.

## What is modelled

**The selection of a push** (`SubagentClosure`, `SubagentTheorems`, `SubagentOrder`, `PushSelection`). A push that
names its sessions pulls in the whole tree of subagent sessions below each of them, level by level,
over a stored child relation that may be cyclic. The walk is proved to be exact. It lists precisely
what is below the requests, each session under the first request that reaches it without passing
another request, nearest first. It succeeds exactly when all of that can be read and lies within 64
links of its owner. The order is pinned down to the last place, and a refusal names the first thing
that stops the walk in reading order. Neither depends on `--without-subagents`, which only decides what is listed;
two runs that differ in the flag are related session by session.

**The plan of a push** (`PushNarrowing`, `PushPlan`, `PlanTheorems`, `PlanErrors`). The per-session
plan reads back as the selection, each verdict and each reason is given under exactly one stated
condition, its eight counters add up to the selected sessions and each is the number of results with
its status plus the sessions without a result it stands for, and its explanations name the stage of
the run's own narrowing that dropped the session.

**Worktree membership** (`Worktree`). The memoized climb to a repository boundary returns what the
climb without a memory returns, over any sequence of queries, within an amortized number of `lstat`
calls; and it agrees with git's rule exactly when a stated condition holds. Paths are component
sequences, the filesystem is one snapshot, git is an answer per directory.

**systemd units** (`SystemdQuoting`, `Timespans`, `UnitFile`, `ServiceUnits`, `ServiceTheorems`,
`TimerTheorems`). The renderer of the service and timer units is undone by an independent reader
written after "COMMAND LINES" in systemd.service(5), "QUOTING" and the line rules of
systemd.syntax(7), the specifier rules of systemd.unit(5), and "PARSING TIME SPANS" in
systemd.time(7). Specifiers and variables expand through arbitrary tables. The reader refuses a
command line whose executable systemd refuses: no executable, one that is neither an absolute path
nor a plain file name, one that begins with a prefix character, or one that holds a quote, a
backslash or a control character, however it was quoted. Words are Unicode character sequences.

**Redaction** (`Redaction`, `RedactionProtocol`). One run over a session's transcript and metadata,
each replaced by a temporary file and a rename, then the database copy; and a transition system with
any number of runs, crashes at every point, the temporary file of each of the two writes filled
piece by piece, harvests that install the two files and the database copy as separate steps, and
removals. Metadata that was written is taken to read back. The redactor is one uninterpreted function
per rule set and level, the digest an injective one.

**Annotation import** (`AnnotationImport`, `AnnotationTheorems`, `AnnotationRecords`). The loop over files and lines that
creates, skips or supersedes rows, with every store failure and every unreadable file as an input. The content hash is taken
as the content, annotators as their names.

**Auto-publish** (`AutoPublish`). What the rules decide for each session of a push, with the memory of
repositories, and the question asked before an update goes out. Finding a repository and deciding
for one are functions of their arguments.

**Prune** (`Prune`). Deleting a frozen plan of session directories while sessions keep arriving, and
the notice about what was left.

**Content fit** (`ContentFit`). Whether a rendered contact sheet fits its viewport, and which row is
the first that does not. Divisions are exact.

## Where the code does less than it says

Each of these is a proved counterexample or an exact condition, not a change to the code:

- The refusal of a tree deeper than 64 levels suggests `--without-subagents`
  (cmd/peasant/cmd_push_selection.go:159), but the flag never avoids a refusal: `SucceedsIff`, `TwoRuns`.
- A subagent session whose own branch is unselected, under a root that every filter admits and that is
  ready, is sent by the run, but reported as having an unsent parent when the run stopped before it
  (cmd/peasant/cmd_push_selection.go:564-570): `ExplanationCanMislead`, and in terms of the filters
  `ExplanationAgreesIff`.
- A directory that reaches the worktree's own root a second time, through a symlink, is called another
  repository although git resolves it to this one (cmd/peasant/cmd_push.go:1371-1375): `AliasIsMissed`,
  `BelongsAgreesWithGitIff`.
- A calendar expression that ends in a backslash swallows the next line of its unit, and one with a `%`
  before its last character is expanded (cmd/peasant/cmd_service.go:195-200, 263-264): `CalendarReadsBackIff`.
- The characters systemd refuses in an executable are looked for in the harvest executable only
  (cmd/peasant/cmd_service.go:461-463), and an empty or relative path not at all, so an invocation can be
  accepted whose unit systemd refuses: `RedactIsUnchecked`, `ServiceReadsBackIff`. The installer runs one
  absolute binary in both steps, and then everything accepted is run: `InstalledReadsBack`.
- Time spans within half a second of the largest duration round down (cmd/peasant/cmd_service.go:284):
  `RoundsHalfAwayIff`.
- A transcript a harvest installs between a redact run's read and its rename is replaced and never read
  (cmd/peasant/cmd_redact.go:294-352): `HarvestInBetweenIsReplaced`, and exactly when, `RenameReplacesReadIff`.
- After a failed database update the next redact runs skip the session, so the database keeps the previous
  content until a harvest (cmd/peasant/cmd_redact.go:365-382): `OldContentStays`, and exactly when,
  `MirrorStaysIff` and `MirroredAfterTwoIff`.
- The number of sessions no auto-publish rule binds counts rows, so a source configured twice counts its
  sessions twice (cmd/peasant/cmd_push_auto_publish.go:124-125, internal/push/candidates.go:79-82):
  `RepeatedRowCountsTwice`, `UnboundCountsSessionsIff`.
- A planned session that is harvested again while the user decides on a prune is removed with the plan
  (cmd/peasant/cmd_prune.go:332-342): `PruneAll`.
- Importing the same annotation file twice changes nothing exactly when the file has one content per
  key; otherwise its records supersede each other again (cmd/peasant/cmd_annotate_import.go:253-297):
  `ReimportUnchangedIff`.
- Content that starts on pixel row -1 counts as no content, -1 being the scan's own marker
  (cmd/peasant-guided-screenshots/contentfit.go:216-225): `ScanContentRows`. Decoded pictures start on row 0.

## Model

| member | source | states |
|---|---|---|
| SubagentClosure.AddChildren | cmd/peasant/cmd_push_selection.go:154-168 | The loop over one session's children takes exactly the first occurrences outside the requests and what was seen, and refuses exactly when there is one beyond the depth bound, whatever the flag says |
| SubagentClosure.ReadLevel | cmd/peasant/cmd_push_selection.go:148-170 | The loop over one level meets the next level in order, or fails on the first session that cannot be read |
| SubagentClosure.WalkTree | cmd/peasant/cmd_push_selection.go:146-171 | The level-by-level loop below one request ends on every relation, cyclic ones included, and computes the tree under that request |
| SubagentClosure.ExpandSubagents | cmd/peasant/cmd_push_selection.go:136-174 | The whole walk over seen set, selection and omitted counts refines the functional walk the theorems are about |
| SubagentTheorems.NextLevelMembers | cmd/peasant/cmd_push_selection.go:148-170 | A level holds exactly the unseen, unrequested children of the level above, each once |
| SubagentTheorems.TreeMembers | cmd/peasant/cmd_push_selection.go:144-171 | The tree under a request is what lies further out and was not reached from an earlier request, each session once |
| SubagentTheorems.TreeNearestFirst | cmd/peasant/cmd_push_selection.go:126-135 | Breadth first is by true distance: no session is listed before one that fewer links reach |
| SubagentTheorems.TreeShallow | cmd/peasant/cmd_push_selection.go:122-124 | A walk that is not refused reached nothing more than 64 links down |
| SubagentTheorems.TreeRefusal | cmd/peasant/cmd_push_selection.go:147-160 | A refusal names a session that cannot be read and was reached, or a root with a session too deep below it |
| SubagentTheorems.ForestExact | cmd/peasant/cmd_push_selection.go:143-172 | Every request's tree is exactly what that request owns: the sessions it reaches, and no earlier request does, by a path through no other request |
| SubagentTheorems.BelowIsOwned | cmd/peasant/cmd_push_selection.go:126-135 | A session lies below the requests exactly when it is requested or owned by one of them |
| SubagentTheorems.WalkExact | cmd/peasant/cmd_push_selection.go:136-174 | The walk from the start answers one exact tree per request, in request order, or a justified refusal |
| SubagentTheorems.SucceedsIff | cmd/peasant/cmd_push_selection.go:147-168 | The walk succeeds exactly when all below the requests is readable and within the depth bound of its owner, for either value of the flag |
| SubagentOrder.ReadOne | cmd/peasant/cmd_push_selection.go:149-168 | Reading one more session appends exactly its new children, in the order in which they first stand among them |
| SubagentOrder.SelectionInOrder | cmd/peasant/cmd_push_selection.go:126-174 | The selection lists each request followed by what it pulled in, every such session in the place its first parent in the list and its first position among that parent's children give it; all of it read, none deeper than 64 |
| SubagentOrder.ParentIsAbove | cmd/peasant/cmd_push_selection.go:146-171 | That first parent is one link nearer to the request, so within a level the order is by first parent in the level above, then by position among its children |
| SubagentOrder.RefusalIsFirst | cmd/peasant/cmd_push_selection.go:147-160 | A refusal, for either value of the flag, is the first session in reading order that cannot be read or lists a new session below the bound, all before it read and all requests before its own finished |
| PushSelection.ResolveExplicitSelection | cmd/peasant/cmd_push_selection.go:41-71 | The named sessions, then the list, trimmed, each once in the order in which they first stand there; refused exactly when one is empty |
| PushSelection.KeptWarnings | cmd/peasant/cmd_push_selection.go:72-76 | The warnings kept are exactly those whose session was not chosen anyway, as often and in the order given |
| PushSelection.SelectionIsClosure | cmd/peasant/cmd_push_selection.go:136-174 | The selected ids are exactly the closure of the requests under the child relation, and each session pulled in carries the first request that reaches it |
| PushSelection.SelectionIsDistinct | cmd/peasant/cmd_push_selection.go:131-135 | Distinct requests select no session twice, with or without subagents |
| PushSelection.TwoRuns | cmd/peasant/cmd_push_selection.go:158-168 | The flag changes no refusal; with it the run selects the requests in order and counts for each what the plain run lists under it |
| PushSelection.Inheritance | cmd/peasant/cmd_push_selection.go:104-114 | The map holds exactly the sessions pulled in, each with its root |
| PushNarrowing.HarnessAdmittedIsQuery | cmd/peasant/cmd_push_selection.go:582-592 | The plan's restatement of the harness filter admits exactly what the candidate query returns: the harness asked for, else the configured sources unless forced |
| PushNarrowing.InheritedFromIs | internal/push/types.go:109-124 | A session inherits exactly when it was pulled in, the selection does not admit it, and admits its root |
| PushNarrowing.WherePicks | internal/push/pipeline.go:628-652 | A filter of the narrowing keeps what it admits, as often and in the order it stands |
| PushNarrowing.KeptMembers | internal/push/pipeline.go:558-572 | A session that inherits nothing is kept exactly when choice, pins, saved selection and repository scope all admit it |
| PushNarrowing.InheritedMembers | internal/push/pipeline.go:574-626 | A session that inherits its selection is kept exactly when, besides, its root is kept and ready; a root inherits nothing itself |
| PushNarrowing.DropInheritedWithUnreadyRoot | internal/push/pipeline.go:596-626 | The loop with its memory of readiness drops what asking every time would drop, checking each root once |
| PushPlan.ExplainsFirstDrop | cmd/peasant/cmd_push_selection.go:544-580 | For a session that inherits nothing the plan names the first stage of the run's narrowing that drops it, and a stopped run exactly when none does |
| PushPlan.InheritedIsSentIff | internal/push/pipeline.go:558-626 | A session that inherits is sent exactly when harness, choice, pins and repository admit it and its root, and the root is ready |
| PushPlan.ExplanationAgreesIff | cmd/peasant/cmd_push_selection.go:564-579 | Plan and run agree on a stopped run for exactly the sessions outside that condition; those inside it are reported as having an unsent parent |
| PushPlan.ExplanationCanMislead | cmd/peasant/cmd_push_selection.go:564-570 | Such a session exists and is reported as having an unsent parent |
| PushPlan.VerdictsAre | cmd/peasant/cmd_push_selection.go:490-580 | When each of the eight verdicts is given, in terms of the result's status and failure and of the filters |
| PushPlan.ReasonsAre | cmd/peasant/cmd_push_selection.go:490-580 | When each reason is given |
| PushPlan.DetailsAre | cmd/peasant/cmd_push_selection.go:490-580 | What goes with a verdict, and whose selection a session that was tried follows |
| PushPlan.ExplainRequested | cmd/peasant/cmd_push_selection.go:447-487 | The loop with its row, result and position maps builds the plan the theorems are about, of explanations that VerdictsAre, ReasonsAre and DetailsAre pin, and never indexes an entry that is not there |
| PlanTheorems.PlaceBlocks | cmd/peasant/cmd_push_selection.go:469-486 | Placing the expanded sessions one by one puts every subagent under its own root |
| PlanTheorems.PlanReadsBack | cmd/peasant/cmd_push_selection.go:447-487 | The plan flattens to the selection in its order, one entry per request, under each exactly what it owns, with the omitted counts; every entry says what its explanation says and how it was selected |
| PlanTheorems.PushCounts.Add | cmd/peasant/cmd_push_selection.go:386-409 | The recursive tally adds to each counter the entries of its verdict, at any depth |
| PlanTheorems.CountsOfPlan | cmd/peasant/cmd_push_selection.go:384-414 | Each of the eight counters is the number of entries with its own verdict |
| PlanTheorems.CountsAddUp | cmd/peasant/cmd_push_selection.go:381-383 | Conservation: the eight counters add up to the entries of any plan, at any depth |
| PlanTheorems.CountsCoverSelection | cmd/peasant/cmd_push_selection.go:381-414 | The counters of the plan of an expanded selection add up to the sessions it selects |
| PlanErrors.FailedSessions | cmd/peasant/cmd_push.go:1711-1728 | The plan's errors when there is a plan, otherwise the tried sessions that failed for more than readiness |
| PlanErrors.PlanErrorsAgree | cmd/peasant/cmd_push.go:1705-1728 | For either value of the flag the plan's errors are the run's own failures plus the selected sessions it stopped before |
| PlanErrors.PlanCountsAre | cmd/peasant/cmd_push_selection.go:381-414 | Every counter is the number of results with its status (and readiness), plus the selected sessions without a result that its filters make its own |
| PlanErrors.SentCountsAre | cmd/peasant/cmd_push_selection.go:503-510 | New, updated and skipped count the results with that status and nothing else |
| Worktree.Membership.Walk | cmd/peasant/cmd_push.go:1348-1393 | The memoized climb answers as the climb without a memory, remembers only settled answers about existing directories, and pays at most two lstat calls per directory it remembers, plus one |
| Worktree.Membership.Belongs | cmd/peasant/cmd_push.go:1322-1332 | Membership as without a memory, asking git once exactly when the climb cannot tell |
| Worktree.RecordedUnderRoot | cmd/peasant/cmd_push.go:1241-1284 | The loop admits and reports what the uncached loop would; on a snapshot that settles every directory it makes no git call and at most 2 lstat calls per distinct existing directory plus one per project |
| Worktree.ScopePicks | cmd/peasant/cmd_push.go:1241-1284 | The scoped push takes the projects recorded in a directory of the worktree under that directory's own hash, and is told of those with another that is neither empty nor the root's, each as often and in the order recorded |
| Worktree.ScopeMembers | cmd/peasant/cmd_push.go:1256-1282 | Which projects these are, both ways, and that none is both |
| Worktree.BelongsAgreesWithGitIff | cmd/peasant/cmd_push.go:1286-1300 | Membership is what git answers exactly when the climb does not end at a second name of the root |
| Worktree.AliasIsMissed | cmd/peasant/cmd_push.go:1371-1375 | A disk with a link back above the root, the same under every name, on which it does, and membership and git differ |
| Worktree.BelongsIsNearest | cmd/peasant/cmd_push.go:1295-1300 | With real directories up to the root, membership is git's rule: the nearest `.git` upwards is the root's; git is not asked |
| SystemdQuoting.SystemdQuote | cmd/peasant/cmd_service.go:312-332 | The one-pass escaper equals the composition of three escapers, one per decoding layer |
| SystemdQuoting.SystemdExecLine | cmd/peasant/cmd_service.go:301-310 | A command line is its words quoted, one space apart |
| SystemdQuoting.CommandReadsBackIff | cmd/peasant/cmd_service.go:301-332 | Through unquoting, specifiers and variables a command line reads back as its words, for every table, exactly when its executable is one systemd takes and holds no `$` |
| SystemdQuoting.EnvironmentReadsBack | cmd/peasant/cmd_service.go:312-332 | An environment word reads back without the variable stage |
| Timespans.SpanParts | cmd/peasant/cmd_service.go:288-297 | The loop that takes units off the remainder prints the mixed-radix expansion |
| Timespans.SystemdTimespan | cmd/peasant/cmd_service.go:281-299 | The printed span is that expansion of the rounded duration, "0" from zero down |
| Timespans.TimespanReadsBack | cmd/peasant/cmd_service.go:281-299 | A span reader gets the rounded seconds back from every printed duration |
| Timespans.RoundsHalfAwayIff | cmd/peasant/cmd_service.go:284 | The span is the duration rounded half away from zero exactly below 9223372036500000000 ns |
| Timespans.TimespanInjective | cmd/peasant/cmd_service.go:281-299 | Equal spans stand for equal seconds |
| Timespans.TimespanDigits | cmd/peasant/cmd_service.go:289-298 | The text of a span above zero is its days, hours below 24, minutes below 60 and seconds below 60, zeros left out, adding up to the rounded seconds |
| ServiceUnits.RenderEnvironment | cmd/peasant/cmd_service.go:237-239 | The environment loop writes one assignment line per variable |
| ServiceUnits.RenderService | cmd/peasant/cmd_service.go:230-256 | The builder writes the text of the service unit's lines |
| ServiceUnits.RenderTimer | cmd/peasant/cmd_service.go:258-279 | The builder writes the text of the timer unit's lines |
| UnitFile.LinesOfText | cmd/peasant/cmd_service.go:230-279 | Text written from lines without a newline splits into those lines |
| UnitFile.ReadContinued | cmd/peasant/cmd_service.go:263-267 | A value ending in a backslash takes the next line of the unit into itself |
| ServiceTheorems.ServiceReads | cmd/peasant/cmd_service.go:230-256 | The rendered service unit reads as exactly the settings of the invocation, no more |
| ServiceTheorems.MarkedFirst | cmd/peasant/cmd_service.go:232-259 | Both units begin with the marker line |
| ServiceTheorems.WordsAcceptedIff | cmd/peasant/cmd_service.go:446-465 | An invocation is accepted exactly when no word or value holds a control character and the harvest executable no quote, backslash or `$`; which error comes first |
| ServiceTheorems.ServiceReadsBackIff | cmd/peasant/cmd_service.go:446-465 | Every accepted invocation (environment, both command lines, presence of the redact step) is read out of its own unit exactly when both executables are ones systemd takes and hold no `$` |
| ServiceTheorems.InstalledReadsBack | cmd/peasant/cmd_service.go:341-373 | What the installer builds, one absolute binary for both steps, and the check accepts is always read out of its own unit |
| ServiceTheorems.RedactIsUnchecked | cmd/peasant/cmd_service.go:450-465 | An accepted invocation whose redact executable holds a single quote is not |
| TimerTheorems.IntervalReadsBack | cmd/peasant/cmd_service.go:268-279 | An interval schedule reads back in whole seconds, with its delay |
| TimerTheorems.CalendarReadsBackIff | cmd/peasant/cmd_service.go:262-279 | A calendar schedule reads back whatever specifiers stand for exactly when it neither ends in a backslash nor holds a `%` before its last character |
| TimerTheorems.TimerReads | cmd/peasant/cmd_service.go:258-279 | The rendered timer unit reads as exactly these settings, the startup delay of two minutes and the persistence of a calendar included |
| TimerTheorems.AcceptedIsValid | cmd/peasant/cmd_service.go:188-205 | An accepted schedule is one trimmed line or an interval of a minute and more, never both, with a delay that is not negative |
| TimerTheorems.AcceptedIff | cmd/peasant/cmd_service.go:188-205 | Which flags are accepted: not both triggers, no negative delay, a calendar of one line that is not all blank or an interval of at least a minute |
| TimerTheorems.AcceptedAs | cmd/peasant/cmd_service.go:195-204 | The schedule has the interval given, or the calendar without the blanks around it, and the delay given |
| TimerTheorems.RefusedFor | cmd/peasant/cmd_service.go:189-203 | Which refusal comes first |
| Redaction.Slot.WriteAtomic | cmd/peasant/cmd_export.go:951-979 | Whatever step fails, the target is wholly old or wholly new and no temporary file stays |
| Redaction.Session.Process | cmd/peasant/cmd_redact.go:251-385 | A run leaves exactly the files, database copy and verdict of its specification, for every failing step |
| Redaction.VerdictsAre | cmd/peasant/cmd_redact.go:260-384 | When each verdict is given, in terms of what the files hold and which step fails; current means stamped with this level, these rules and the digest of the transcript |
| Redaction.FilesAre | cmd/peasant/cmd_redact.go:317-384 | What is written by each verdict: nothing; the redacted transcript; metadata that parses to the redactor's text, the transcript's digest and a stamp of level, rules and digest; the copy of both |
| Redaction.SecondRunSkips | cmd/peasant/cmd_redact.go:302-305 | After a run that redacted, the files vouch for each other and the next run changes nothing |
| Redaction.NextRunRecovers | cmd/peasant/cmd_redact.go:349-363 | Whatever a failed run left behind, the next one ends with a current pair unless the redactor refuses |
| Redaction.MirroredAfterRunIff | cmd/peasant/cmd_redact.go:365-382 | When the database holds what the files hold after a run, by its verdict and the copy before it |
| Redaction.MirrorStaysIff | cmd/peasant/cmd_redact.go:365-382 | After a failed database update every further run leaves the session and the copy alone, which is right exactly when the copy already was the new pair |
| Redaction.MirroredAfterTwoIff | cmd/peasant/cmd_redact.go:302-382 | When it does after a second run without faults |
| Redaction.OldContentStays | cmd/peasant/cmd_redact.go:365-382 | Where redaction changes a mirrored session, the old transcript stays in the database through every further run |
| RedactionProtocol.RunKeepsInv | cmd/peasant/cmd_redact.go:251-385 | The protocol invariant holds after any interleaving of runs, crashes, harvests and removals |
| RedactionProtocol.SkippedMeansRedacted | cmd/peasant/cmd_redact.go:273-305 | A skipped verdict means the bytes read were the redactor's output at the target level under the current rules, though the two files are read and replaced separately |
| RedactionProtocol.FilesStayWhole | cmd/peasant/cmd_export.go:951-979 | At every point transcript, metadata and database copy are each one whole content: somebody else's, a redactor's output, all the metadata about one, or one run's pair |
| RedactionProtocol.WrittenMetadataIsRedacted | cmd/peasant/cmd_redact.go:331-363 | Over every interleaving, metadata that no harvest wrote, on disk or in the database, has the redactor's text at its stamped level and the digest of an output at that level |
| RedactionProtocol.StepIsOldOrNew | cmd/peasant/cmd_redact.go:349-363 | No step of a run, a crash included, leaves a file other than as it was or holding all of the new content |
| RedactionProtocol.RenameReplacesReadIff | cmd/peasant/cmd_redact.go:293-354 | From a run's read to its rename: the rename replaces what was read exactly when no transcript was installed or removed since, or the last that was left the same bytes; it installs the redaction of what was read |
| RedactionProtocol.HarvestInBetweenIsReplaced | cmd/peasant/cmd_redact.go:293-354 | From any point between a run's read and its rename a harvest can land and be replaced, nobody having read it |
| RedactionProtocol.SoloIsInterleaving | cmd/peasant/cmd_redact.go:251-385 | The uninterrupted run is one of the interleavings, with the same files and verdict |
| AnnotationImport.FindExisting | internal/store/annotation_store.go:303-327 | The newest row of the key that is neither superseded nor retired, if there is one |
| AnnotationImport.Store.ImportOne | cmd/peasant/cmd_annotate_import.go:253-297 | The three-way switch creates, skips or supersedes, in one step, or changes nothing when the store fails |
| AnnotationImport.Store.ImportLine | cmd/peasant/cmd_annotate_import.go:117-298 | One line: checked, resolved, looked up and counted once, whatever fails |
| AnnotationImport.Store.ImportFiles | cmd/peasant/cmd_annotate_import.go:100-315 | The loops over files and lines import the records in order into one table with one running total, resolving exactly the annotators of the valid records; the first file that cannot be opened or read to its end stops the import with an error and keeps what was imported |
| AnnotationTheorems.ImportKeeps | cmd/peasant/cmd_annotate_import.go:116-315 | Any records and any failures keep at most one live row per key and an acyclic supersession; imported, duplicates and errors add up to the records read |
| AnnotationTheorems.SupersessionEnds | internal/store/annotation_store.go:1382-1387 | Every row leads to the last row of its own key: the live one unless that was retired |
| AnnotationTheorems.LastWriterWins | cmd/peasant/cmd_annotate_import.go:228-297 | The last valid record of a key decides its content; keys without a record keep theirs |
| AnnotationTheorems.LastContentIsLast | cmd/peasant/cmd_annotate_import.go:116-298 | Last means last by position in the records read |
| AnnotationImport.LinesInOrder | cmd/peasant/cmd_annotate_import.go:102-119 | Records are read file by file, each file's behind those of the files before it |
| AnnotationRecords.CountedIff | cmd/peasant/cmd_annotate_import.go:122-297 | A line is imported or a duplicate exactly when it parses, its kind, type and value are registered, an agent has model and provider (its own or the flag's), and the store does not fail |
| AnnotationRecords.LandsOnItsKey | cmd/peasant/cmd_annotate_import.go:160-297 | Its value, end, confidence and reason become the live content at its type, annotator, session and start entry; every other key keeps its rows |
| AnnotationRecords.SharesRowIff | cmd/peasant/cmd_annotate_import.go:228-297 | A second record touches the first one's row exactly when those four agree |
| AnnotationRecords.ResolvesIts | cmd/peasant/cmd_annotate_import.go:149-181 | A line resolves the annotator it names, an agent with its model |
| AnnotationTheorems.UnchangedIffHeld | cmd/peasant/cmd_annotate_import.go:268-270 | A run changes nothing exactly when every valid record is already the live content of its key |
| AnnotationTheorems.ReimportUnchangedIff | cmd/peasant/cmd_annotate_import.go:228-297 | A second import of a file changes nothing exactly when the file has one content per key |
| AnnotationTheorems.ReimportCounts | cmd/peasant/cmd_annotate_import.go:268-315 | It then imports nothing and counts every valid record as a duplicate |
| AutoPublish.PlanAutoPublish | cmd/peasant/cmd_push_auto_publish.go:77-145 | The loop with its memory plans what asking for every session would plan, and finds each distinct (path, remote) pair once |
| AutoPublish.PlanIsPartition | cmd/peasant/cmd_push_auto_publish.go:120-145 | Published, held and unbound partition the candidates, repeated rows included; the pinned sessions are the published ones, and the unbound ones unless a rule is required |
| AutoPublish.HeldIsNotPinned | cmd/peasant/cmd_push_auto_publish.go:129-133 | A held session is never pinned and a shared one always is, repeated rows included |
| AutoPublish.PlanHolds | cmd/peasant/cmd_push_auto_publish.go:121-140 | Each session is shared with the collectives, or held by the rules, of the decision for its own repository, and is pinned exactly when shared, or unbound and no rule required |
| AutoPublish.WithoutRules | cmd/peasant/cmd_push_auto_publish.go:78-88 | Without rules everything may be sent, or nothing when one is required; an unreadable rules file refuses |
| AutoPublish.UnboundCountsSessionsIff | cmd/peasant/cmd_push_auto_publish.go:124-145 | The number reported is the number of sessions no rule binds exactly when none of these has a repeated row |
| AutoPublish.RepeatedRowCountsTwice | internal/push/candidates.go:79-82 | A session no rule binds whose row is repeated, beside one a rule shares, counts twice |
| AutoPublish.UnboundIsTheRest | cmd/peasant/cmd_push_auto_publish.go:124-145 | With each row once it is the candidates less the shared and the held, and zero when no rule binds any |
| AutoPublish.RulesNamed | cmd/peasant/cmd_push_auto_publish.go:134-138 | The plan names each rule that publishes something in this push, once |
| AutoPublish.RulesInOrder | cmd/peasant/cmd_push_auto_publish.go:134-138 | In the order in which the sessions and their decisions meet them |
| AutoPublish.Gate.UpdateHold | cmd/peasant/cmd_push_auto_publish.go:150-175 | A rule-shared update goes ahead exactly when its receipt was found and who can read it is known and not everyone; public ones are recorded |
| AutoPublish.Gate.Consider | internal/push/pipeline.go:1463-1473 | Nothing outside the pins is sent, and an update a rule shares is sent only with that receipt and that visibility |
| Prune.Tree.RemoveEmpty | cmd/peasant/cmd_prune.go:345-348 | A host directory goes exactly when it is empty |
| Prune.Tree.PruneFilesystem | cmd/peasant/cmd_prune.go:326-350 | With sessions arriving before every step, only planned directories go, all of them that can; host directories go only when planned and empty, and then do |
| Prune.ErrorsAre | cmd/peasant/cmd_prune.go:331-343 | The errors are exactly the planned sessions with an output path whose removal failed, in the order of the plan |
| Prune.Tree.NoticeResidue | cmd/peasant/cmd_prune.go:397-413 | The notice names what was there from the start, still is, and was not planned |
| Prune.Tree.PruneAll | cmd/peasant/cmd_prune.go:121-172 | Nothing outside the plan that arrives after the snapshot is removed or named, over any arrivals while the user decides and during the run; what was planned goes even if it was written again before the run |
| ContentFit.ScanContentRows | cmd/peasant-guided-screenshots/contentfit.go:198-233 | The true first and last pixel row with content; found exactly when there is some and it does not start on row -1 |
| ContentFit.ComposedIsDescribed | cmd/peasant-guided-screenshots/render.go:974-977 | A composed sheet has 2 lines of header, its rows' lines and one blank line between rows |
| ContentFit.NewlinesArePicked | cmd/peasant-guided-screenshots/contentfit.go:152 | Lines are counted by the newlines of the text |
| ContentFit.OverflowLineIs | cmd/peasant-guided-screenshots/contentfit.go:168-178 | The overflow line is the number of whole lines that fit the pixels, as an inequality over integers |
| ContentFit.NoRoom | cmd/peasant-guided-screenshots/contentfit.go:173-177 | With no room inside the padding it is the first line |
| ContentFit.OverflowWithin | cmd/peasant-guided-screenshots/contentfit.go:168-178 | Content that overflows has its overflow line below the line total |
| ContentFit.FindRow | cmd/peasant-guided-screenshots/contentfit.go:180-195 | The loop returns the first row whose end passes the line, and falls through only when none does |
| ContentFit.AttributeOverflow | cmd/peasant-guided-screenshots/contentfit.go:151-196 | For a sheet as composed that overflows, the loop always returns: the fallback is dead, and the row named is the first past the overflow line |
| ContentFit.EvaluateContentFit | cmd/peasant-guided-screenshots/contentfit.go:97-142 | The sheet fits exactly when its content with equal padding is within the viewport; otherwise the row named is the first that is not |

## Left out

- Flags, help, wording of messages, JSON output, progress, terminal screens, captures: presentation.
- HTTP calls, login, opening a browser, starting processes, real git, clocks: parameters or absent.
- SQL, migrations, `migrate` and `reclaim`: the store is modelled by what the cited queries return.
- The shares listed beside a verdict (`planShares`, `explicitSharePlan`): formatting of decisions made elsewhere.
- `runCounts` and the counters of a run without a plan: a choice between two tallies and a copy of fields.
- The wording and the time budget behind "the run stopped": one verdict stands for every cause.
- The matching of auto-publish rules and the wording of a hold: `decide` is any function of a repository.
- The redactor's rules, JSON formats and the metadata hash: uninterpreted; failures to parse or to build an artifact are verdicts.
- The choice between a `.jsonl` and a `.json` transcript: one transcript file per session.
- Read errors other than a missing file: a failing run of the protocol, not a case of the single run.
- A harvest's own steps before it installs its two files, and whether it redacts: any genuine stamp may appear.
- The residue notice's sorting and its limit of ten names, and directories that change while it scans: the scan is one step.
- Several plans or processes of `prune` at once: one plan, with arrivals of any origin.
- Row ids and creation times of annotations: position in the table stands for both.
- Unit names systemd knows beyond d, h, min and s, and fractions: the reader covers what the printer can write.
- systemd's numeric escapes inside quotes: the printer writes none.
- What an executable's prefix characters do, the search path of a plain file name, and whether the file exists: the reader refuses prefixes and stops at the path.
- Invalid UTF-8 in unit words: words are Unicode character sequences.
- Symbolic links inside path components other than through `Disk.physical`, and a filesystem that changes during one query: one snapshot.
- Floating point in the pixel division: exact reals.
