# A verified model of OpenWhisker

OpenWhisker keeps an Obsidian-style vault of Markdown notes and lets agents work on it
under guards. This project models the parts of it where a mistake would lose or corrupt
notes, and proves what they promise:

- **Inbox enrich** (`Text`, `Blobs`, `Frontmatter`, `EnrichRender`, `NoteBoundary`, `EnrichGuard`,
  `ListReading`, `EnrichAgreement`, `EnrichRun`, `EnrichQueue`): the renderer edits a note's
  frontmatter line by line, the policy guard splits and reads the result in its own way, one attempt
  runs end to end, and a retry queue feeds the attempts.
- **Vault plans** (`Paths`, `Plans`, `VaultOps`, `Effects`, `Executor`, `PathLocks`, `Policy`,
  `PlanService`): preview, preflight, guarded writes with faults between any two sub-steps, the operation
  log, path locks, approval and rejection.
- **Scheduling** (`Calendar`, `Cron`, `CronParse`, `SchedulerTick`): cron windows over the
  Gregorian calendar, and the tick that consumes them.
- **The tool-calling loop** (`Engine`, `EngineMeaning`, `EngineLoop`), against a model and tools that answer anything.
- **Links and recall** (`LinkIndex`, `Recall`, `RecallOrder`), over maps iterated in any order.
- **Capture buckets** (`Fences`, `Buckets`, `BucketService`): a note grown by appends,
  read back by the rules of CommonMark.

Conventions. Texts are sequences of Unicode characters. A digest is any function of the
text; where a result needs two texts not to collide, it says so. Instants are whole
seconds. Database calls are atomic steps, tables are maps. Each loop or object the code
updates in place is a method proved against a specification function or predicate; what
the code promises is proved about those. Where Go ranges over a map, the method takes the
keys in an arbitrary order.

## What the code does not promise

Some expected properties are false of the code. The model keeps the code's behaviour and
proves exactly when they hold:

- The lists read after a run are the merged ones if and only if every addition survives
  being written and a list whose key was missing gets no repeats: the renderer appends such
  a list as it comes (`EnrichAgreement.AfterListIsMerge`, `RendererMeetsGuard`).
- The guard's reader does not undo escapes. A written list is read back unchanged if and
  only if no entry is empty, none that needs quoting holds a quote, backslash, line break or
  tab, and none that does not has outer blanks (`ListReading.ReadBackIff`); a wiki link is
  affected exactly by the characters of its name (`ListReading.LinkReadBack`).
- A plan that was previewed and passes preflight need not run. If every append and rewrite
  changes its note's digest, a previewed plan whose guards hold runs if and only if no two of
  its operations share a path (`VaultOps.PreviewedRunsIff`; without rewrites only a collision
  can keep a digest, `VaultOps.NoRewriteRunsIff`). So an unhindered `Apply` of such a plan
  succeeds if and only if each operation would by itself and no two share a path (`VaultOps.PlanRunsIff`,
  `Executor.DirectFS.Apply`). Two appends to one note are the smallest case
  (`VaultOps.SecondAppend`).
- An operation whose log row cannot be written has taken effect all the same, and is logged as
  failed if the next write works (`Executor.DirectFS.ApplyAll`, `Executor.LostRow`).
- Incremental links go stale when notes come or go. If all changes were pending, the index is
  what a rebuild gives if and only if every link still says, among the notes there are, what
  it said when its own note was last looked at (`LinkIndex.UpToDateIff`,
  `LinkIndex.Index.FlushPending`).
- Cron searches may fail. A schedule always finds a window if and only if some time of day is
  open and no day of one 400-year cycle is left uncovered: some allowed day lies between it
  and the day five years on, or both are allowed, or the one with its last or the other with
  its first minute open (`Cron.AlwaysFiresIff`). Open to every weekday, if and only if some
  allowed month and day exist in every year (`Cron.OpenWeekdaysFireIff`); 29 February alone
  finds none from March 1896 on (`Cron.LeapOnlyMisses`).
- A window may be used twice. When a run is over and its schedule finds no next window, the
  run is recorded but its window stays. The windows of every schedule strictly increase if
  and only if each use that another one of the unchanged schedule follows had a window after
  its end (`SchedulerTick.UsedOnceIff`); `0,5 0 29 2 4` runs for 29 February 2024 twice
  (`SchedulerTick.LeapDayTwice`).
- Every tool message of every request answers a call if and only if each reply that another
  request follows is no tool message itself, and carries no calls if it has the role `system`
  and a content starting with `[budget]` (`Engine.StrictIff`). Such a note is taken out of the
  next request and leaves its answers behind (`Engine.DisguisedReplyStrays`). Whatever the
  replies, every call is answered at once and in order.
- The recalled list may depend on the order a map is gone through in. Before the limit it does
  not if and only if the primary hits next to each kept neighbour have one score
  (`RecallOrder.ListSameIff`); two search hits linking to one note are enough for two lists
  (`RecallOrder.ListVaries`). Cut at the limit it does not if and only if that holds or the
  entry at the limit, among those every run has, ranks ahead of whatever a note with several
  possible scores can get (`RecallOrder.CutSameIff`).

## Model

| member | source | states |
|---|---|---|
| EnrichRender.ApplyEnrichToFrontmatter | internal/enrich/render.go:22-36 | The line-by-line edit computes the section-by-section rendering, and fails exactly when there is no frontmatter block |
| EnrichRender.FindFrontmatterBounds | internal/enrich/render.go:42-53 | The block runs from behind the opening fence to the line break before the first line starting with a fence |
| EnrichRender.MergeFrontmatter | internal/enrich/render.go:64-137 | The scan with its block ends and its set of written keys yields the rendered sections followed by the missing ones |
| EnrichRender.ReadListBlock | internal/enrich/render.go:178-209 | Reads a flow list, a scalar, or the dash lines directly under the key |
| EnrichRender.ParseFlowList | internal/enrich/render.go:211-243 | Commas inside quotes do not separate entries |
| EnrichRender.MergeUniqueLoop | internal/enrich/render.go:257-276 | The loop with its seen set is the in-order merge |
| EnrichRender.MergeUniqueMeaning | internal/enrich/render.go:257-276 | The merge has no repeats, starts with the old entries and holds exactly the old and the trimmed new ones |
| EnrichRender.JsonStringQuote | internal/enrich/render.go:333-356 | The quoting loop escapes exactly the five special characters |
| EnrichRender.EmitListBlock | internal/enrich/render.go:278-287 | What is emitted are the lines of the list section |
| EnrichRender.NoteOf | internal/enrich/render.go:42-53 | A note split at its fences is put together again to the same text |
| Frontmatter.ParseCoversLines | internal/enrich/render.go:64-137 | Splitting a block into sections loses no line |
| Frontmatter.ParseOfLines | internal/enrich/render.go:64-137 | A well-formed outline laid out as lines is split into itself |
| NoteBoundary.NoteOfText | internal/enrich/render.go:42-53 | Round trip: a block without a fence-like line behind its first, put between its fences, is found again whole |
| NoteBoundary.RenderedInner | internal/enrich/render.go:64-137 | The rendering of such a block has no fence-like line behind its first either |
| NoteBoundary.RenderKeepsBoundary | internal/enrich/render.go:22-36 | For any note with a block and any additions, the block found in the rendered note is the rendered one and everything from the closing fence on is the same text |
| EnrichGuard.SplitFrontmatterFields | internal/policy/enrich.go:231-265 | The scan with its open key and buffer yields each key's last section text |
| EnrichGuard.SetDiffLoop | internal/policy/enrich.go:412-427 | The loop computes the ordered difference |
| EnrichGuard.SetDiff | internal/policy/enrich.go:412-427 | The difference holds exactly the new entries, each once |
| EnrichGuard.SetSubsetLoop | internal/policy/enrich.go:399-410 | Decides whether every entry is kept |
| EnrichGuard.ValidateTagsAppend | internal/policy/enrich.go:169-201 | Passes if and only if no tag is lost and every new tag is the review tag, under raw/ or a known topic or skill, once trimmed and lower-cased |
| EnrichGuard.ValidateRelatedAppend | internal/policy/enrich.go:206-222 | Passes if and only if no link is lost, at most three are new and each is a wiki link |
| EnrichGuard.CheckFieldGuard | internal/policy/enrich.go:104-162 | Passes if and only if every field of either side is kept as its key demands; if it passes, every field a run may not write is in both blocks or in neither, with the same lines but for blank ones and for blanks at line ends |
| EnrichGuard.CheckEnrichPlan | internal/policy/enrich.go:44-93 | Passes if and only if the plan has the one allowed shape, the body's digest is unchanged and all fields are kept; if it passes, the fields a run may not write have the same lines in both notes but for blanks |
| EnrichGuard.OthersKept | internal/policy/enrich.go:104-146 | The exact meaning of the guard for fields a run may not write: the last line of the key and the lines up to the next key are the same on both sides, blanks aside, or there is no such line on either |
| EnrichGuard.FieldsBySpan | internal/policy/enrich.go:231-265 | Splitting finds exactly the keys there are, each with the rest of its last key line and the lines up to the next key |
| EnrichGuard.SplitMeans | internal/markdown/markdown.go:27-47 | A note has frontmatter exactly when its first line is a fence and a later one trims to a fence; block and body are the lines on its two sides |
| EnrichGuard.DashLines | internal/policy/enrich.go:321-355 | A list that is not in closed brackets has exactly the items of its lines that start with a dash |
| EnrichGuard.TagMeans | internal/policy/enrich.go:183-200 | A tag is allowed if and only if it is, trimmed and lower-cased, the review tag, something under raw/, or something known under topic/ or skill/ |
| EnrichGuard.LinkMeans | internal/policy/enrich.go:214-220 | A link is allowed if and only if the trimmed entry is text in double brackets with nothing but quote signs around it |
| Blobs.NormalizedSame | internal/policy/enrich.go:306-316 | Two texts have one normal form if and only if they have the same lines in the same order, blank lines and blanks at line ends not counted |
| Blobs.OwnNormalForm | internal/policy/enrich.go:306-316 | A text without blank lines and without blanks at line ends is its own normal form |
| Blobs.BlankIgnored | internal/policy/enrich.go:306-316 | A blank line put between lines leaves the normal form alone |
| Blobs.PadIgnored | internal/policy/enrich.go:306-316 | So do blanks put at a line's end |
| Blobs.OneLineSame | internal/policy/enrich.go:306-316 | One-line values are taken for the same exactly when both are blank or they differ in blanks at the end, and then agree once trimmed |
| Blobs.NormalizeBlobLoop | internal/policy/enrich.go:306-316 | The loop computes the normal form |
| EnrichGuard.ClosingFence | internal/markdown/markdown.go:27-47 | The first line that trims to the fence, or none |
| ListReading.ItemReadBack | internal/policy/enrich.go:321-355 | What a written visible entry is read as: itself, or its escaped text if it had to be quoted; it is the entry if and only if that is readable |
| ListReading.ReadBackIff | internal/policy/enrich.go:321-355 | Any written list is read back unchanged if and only if each entry is not empty and, when it needs quoting, holds no escaped character and, when it does not, no outer blank |
| ListReading.LinkReadBack | internal/policy/enrich.go:206-222 | Every wiki link is allowed; it comes back unchanged if and only if its name holds no special character |
| ListReading.ItemsOfBlob | internal/policy/enrich.go:321-355 | Trimming a field's text neither adds nor removes an item |
| ListReading.EmittedEntries | internal/policy/enrich.go:321-355 | An emitted list of trimmed entries is read as those entries, escapes and all, followed by what is left below it |
| ListReading.FlowEntries | internal/policy/enrich.go:321-355 | A flow list is read up to its first closing bracket, whatever follows |
| EnrichAgreement.GuardSplit | internal/markdown/markdown.go:27-47 | On a clean boundary the guard splits the note into the renderer's lines and the same body |
| EnrichAgreement.RenderedOutline | internal/enrich/render.go:64-137 | The rendered lines are split into exactly the rendered sections, and none looks like a fence or carries a break |
| EnrichAgreement.UnwritableAfter | internal/policy/enrich.go:104-162 | Keys a run may not write keep their text |
| EnrichAgreement.EntriesAfter | internal/policy/enrich.go:104-162 | The guard reads each list of the rendered note as merged in place, or as the additions when the key was missing, quoted entries with their escapes |
| EnrichAgreement.AfterListIsMerge | internal/enrich/render.go:64-137 | That is the merge of old and new if and only if the additions survive being written and the key was there or they are distinct |
| EnrichAgreement.FieldsDecide | internal/policy/enrich.go:104-162 | The guard accepts the rendered fields if and only if the additions, as it reads them back, meet its rules |
| EnrichAgreement.PlainListIsClean | internal/enrich/render.go:178-209 | A bare key over dash lines with readable items is read alike by both sides |
| EnrichAgreement.FlowListIsClean | internal/enrich/render.go:178-209 | So is a flow list on the key line |
| EnrichAgreement.RendererMeetsGuard | internal/policy/enrich.go:104-161 | Main result: on a note both sides read alike and for any additions a run can make, the guard passes the rendering if and only if the additions as read back meet its rules, and the lists it then reads are the merged ones exactly when the additions survive being written and the key was there or they are distinct |
| EnrichAgreement.EmittedIsClean | internal/enrich/render.go:278-287 | A list the renderer writes is read alike by the renderer and the guard |
| EnrichAgreement.StaysClean | internal/enrich/render.go:22-137 | The rendering of a note both sides read alike is such a note again, so the main result holds for every run after it |
| EnrichRun.AdditionsOf | internal/enrich/enrich.go:317-370 | Whatever the agent returns, only the five private fields, trimmed tags and at most three links are added |
| EnrichRun.AdditionsMean | internal/enrich/enrich.go:317-343 | Every visible tag of the agent is added in order, the review tag last if asked for, and the first three visible links; run, time and attempt number go into their own private fields, a confident route and new candidates into theirs |
| Text.NonEmptyMeans | internal/enrich/enrich.go:542-551 | Cleaning a list keeps exactly the entries with something visible, trimmed and in order |
| EnrichRun.EnrichedMeans | internal/policy/enrich.go:104-222 | What passing means: the other fields have the same lines but for blanks, a value on one line the same text up to outer blanks, no tag or link is lost, each new tag is known and under topic/ or skill/, the review tag or under raw/ once lower-cased, new links are allowed, at most three links are new |
| EnrichRun.CleanRunPasses | internal/enrich/enrich.go:317-370 | Whatever the agent answered, the plan of a run passes the whole check if and only if its additions, as read back, meet the guard's rules |
| EnrichRun.EnrichService.CheckAndApply | internal/enrich/enrich.go:263-299 | The vault ends as it was, or with only the job's note replaced by its guarded rendering; without faults an accepted plan is applied |
| EnrichRun.EnrichService.Attempt | internal/enrich/enrich.go:168-299 | A missing or already enriched note ends done without a run; a note that changed while the agent ran is left alone and reported as skipped, and only then; without faults an accepted answer leaves its rendering; no other note is touched |
| EnrichRun.EnrichService.RunOne | internal/enrich/enrich.go:168-315 | One attempt makes exactly one report to the queue, and the vault is unchanged or has only the job's note enriched |
| EnrichRun.OnlySeenText | internal/enrich/enrich.go:232-299 | Unless two texts collide, the text replaced is the one the agent saw |
| EnrichRun.KeyMeans | internal/enrich/enrich.go:524-540 | A key is found exactly when a line of the block the renderer would edit starts with it and a colon |
| EnrichRun.EnrichedOnce | internal/enrich/enrich.go:213-216 | A rendered note with a visible time counts as enriched, so that no later attempt touches it |
| EnrichQueue.JobTable.Enqueue | internal/storage/store.go:891-919 | New rows are pending; only failed or skipped rows with attempts left become pending again |
| EnrichQueue.JobTable.Claim | internal/storage/store.go:950-983 | Takes an oldest claimable row, and finds none only when there is none |
| EnrichQueue.JobTable.Finish | internal/storage/store.go:988-1007 | Done keeps the attempts, anything else adds one and exhausts the row at the limit |
| EnrichQueue.QueueBound | internal/storage/store.go:891-1007 | Over any run: one open claim a path, attempts and open claims at most five, five exactly when exhausted, at most five claims a path |
| EnrichQueue.TerminalStays | internal/storage/store.go:891-1007 | Done and exhausted are never left, whatever follows |
| EnrichQueue.QueueDrains | internal/enrich/worker.go:53-80 | A fixed set of paths is claimed at most five times each, so the worker runs out of work |
| VaultOps.StageKeeps | internal/executor/path_guard.go:149-168 | While one operation other than a rewrite runs, between any two sub-steps, every old text is the start of a note of its own |
| VaultOps.PlanKeeps | internal/executor/direct_fs.go:66-93 | So it is after any number of operations |
| VaultOps.NothingLostTwice | internal/executor/direct_fs.go:66-93 | Keeping every text is transitive, by composing the maps |
| VaultOps.PreviewIsTruth | internal/executor/direct_fs.go:196-330 | A prepared operation that runs later leaves the very text it was previewed with |
| VaultOps.SecondAppend | internal/executor/direct_fs.go:381-400 | Two appends to one note are previewed and pass preflight; the second runs if and only if the digests of the old and the new text collide |
| VaultOps.AppendToCreated | internal/executor/direct_fs.go:234-246 | An append to a note the plan creates fails its preview and its guard |
| VaultOps.DisjointPlanRuns | internal/executor/direct_fs.go:45-64 | Prepared operations on separate paths, unchanged there since, all pass preflight and run, with the previewed texts |
| VaultOps.DisjointPlanResult | internal/executor/direct_fs.go:66-93 | The vault they end in: each previewed text at its place, moved notes gone, all else as before |
| VaultOps.RunsIffApart | internal/executor/direct_fs.go:76-93 | Operations that would each run by themselves and change their digests run one after the other if and only if no two share a path |
| VaultOps.PlanRunsIff | internal/executor/direct_fs.go:66-93 | The exact condition for a plan to pass preflight and run: each operation would by itself, and no two share a path |
| VaultOps.PreviewedRunsIff | internal/executor/direct_fs.go:45-93 | A previewed plan whose guards hold, whenever that is, runs if and only if no two operations share a path |
| VaultOps.NoRewriteRunsIff | internal/executor/direct_fs.go:45-93 | Without rewrites, and unless two texts collide, this is so for every previewed plan on the vault it was previewed on |
| Effects.EffectMeans | internal/executor/direct_fs.go:332-464 | What an operation that succeeds leaves, told from its payload and the old vault: exactly the content of a new note, the old text and the content of an append, the content of a rewrite, a moved note with its processing note on a line of its own; no other path changes |
| Effects.StageMeans | internal/executor/path_guard.go:149-168 | What can be seen while it runs: the old vault, the finished one, or a moved note at both places or without its processing note |
| Effects.PreviewMeans | internal/executor/direct_fs.go:196-330 | The previewed text is the one the operation leaves |
| Effects.ChainApart | internal/executor/direct_fs.go:66-93 | Operations that share no path leave, path by path, what each would leave by itself |
| Executor.DirectFS.SafeCreateAtomic | internal/executor/path_guard.go:119-141 | A note appears whole or not at all, and never replaces one, whichever call fails |
| Executor.DirectFS.SafeMoveAtomic | internal/executor/path_guard.go:149-168 | A failed move leaves the vault as it was or with both names, never without the note |
| Executor.DirectFS.SafeWriteReplace | internal/executor/path_guard.go:217-258 | The note is replaced whole or left as it was |
| Executor.DirectFS.ReadGuarded | internal/executor/direct_fs.go:470-490 | Succeeds only on the text the plan was made for |
| Executor.DirectFS.MoveOne | internal/executor/direct_fs.go:426-464 | Every fault leaves one of the move's four stages; success is the whole move: the note is gone from its old place and at its new one, with its old text, then one line break exactly when it needs one, then the processing note; with its log row |
| Executor.DirectFS.EditNote | internal/executor/direct_fs.go:381-419 | Append and rewrite under the hash guard take full effect or none: the old text followed by the content, or the content |
| Executor.DirectFS.MakeNote | internal/executor/direct_fs.go:332-379 | Creation takes full effect or none: where there was no note there is one with the payload's content |
| Executor.DirectFS.PreflightApply | internal/executor/direct_fs.go:157-194 | Passes only when every guard holds on the vault as it is; without faults it reports what the first failing guard finds wrong |
| Executor.DirectFS.LogRemainingFailed | internal/executor/direct_fs.go:117-140 | Appends the failed rows of the operations left, in order, leaving out those that cannot be written |
| Executor.DirectFS.ApplyAll | internal/executor/direct_fs.go:66-93 | The vault after k operations is their fold or a stage of the next, reports are those of the fold; the log has the k applied rows and then failed rows of the others as far as they can be written; without vault faults the run stops exactly at the first row that cannot be written, whose operation has taken effect |
| Executor.LostRow | internal/executor/direct_fs.go:376-378 | One row cannot be written: the note is there and the log says its operation failed |
| Executor.DirectFS.Apply | internal/executor/direct_fs.go:66-140 | A stale plan changes neither vault nor log and gives its locks back; the operations reported each left, one after the other, what their payloads say of the vault they found, with the digests of the texts they left, and the next one got at most partway; a successful plan on separate paths leaves what each operation would by itself and all other notes as they were; unhindered, success if and only if each operation would run by itself and no two share a path, for edits that change their digests, and in general if all guards hold at the start and each operation succeeds at its turn |
| Executor.DirectFS.Prepare | internal/executor/direct_fs.go:45-64 | The preview's digests are those of the texts the operations would leave, and the plan's guards those of the vault previewed |
| Executor.DirectFS.ApplyAsProposal | internal/executor/proposal_note.go:40-117 | Writes at most the one proposal note, where there was none, with its log row; when nothing fails it succeeds exactly for a high-risk plan that can be rendered at a free, unlocked path |
| Executor.Unique | internal/executor/proposal_note.go:452-463 | No empty path, no path twice, all others kept |
| Executor.NoContentLost | internal/executor/direct_fs.go:66-93 | Main result: in every vault seen while a plan without rewrites runs, no content is lost |
| Executor.EndKeeps | internal/executor/direct_fs.go:66-93 | Nor in the vault it ends in, by success, conflict or fault |
| Executor.PreviewedDigests | internal/executor/direct_fs.go:332-464 | Unless the previewed and the later text collide, the digest reported for a prepared operation is the previewed one, whatever happened in between |
| Executor.LogAccounts | internal/executor/direct_fs.go:66-140 | One row an operation in plan order: the first k applied with the digests reported, the rest failed |
| PathLocks.LockTable.Acquire | internal/storage/store.go:841-868 | Succeeds if and only if the paths are distinct and every row on them has run out; then they are the plan's, the rows that run out later stay and the others go; a refused request changes nothing, not even expired rows |
| PathLocks.LockTable.Release | internal/storage/store.go:870-873 | Deletes exactly the plan's own rows, even after a takeover |
| PathLocks.HolderKeepsPaths | internal/storage/store.go:841-873 | Over any run, a plan that acquired and has neither released nor expired holds all its paths |
| PathLocks.TakeoverNeedsExpiry | internal/storage/store.go:841-873 | A path passes to another plan only after its holder released or ran out |
| PathLocks.RowsAreGrants | internal/storage/store.go:841-873 | Every row is the last grant of its path, unreleased since |
| PathLocks.GrantedIff | internal/storage/store.go:841-873 | Over any run, a request is granted if and only if its paths are distinct and no plan that neither released nor ran out was granted one of them |
| Policy.MediumFootprint | internal/policy/checker.go:168-279 | Every operation of an allowed medium-risk plan is a draft made among the drafts, an append in Knowledge, or a move from the inbox to the processed notes whose processing note links to the moved note and to a Knowledge target, each inside its directory segment by segment; every path it touches is a target of the plan |
| Policy.HighIsNotRunnable | internal/policy/checker.go:298-411 | No operation of an allowed high-risk plan is one the executor would run |
| Policy.ProposalInDir | internal/executor/proposal_note.go:22-28 | The proposal note lies inside the proposals directory, segment by segment, and is named after the plan |
| Policy.LowInPlace | internal/policy/checker.go:105-166 | What may run without approval: new notes, appends and rewrites in the inbox, reports among the reports, nothing moved |
| Policy.LowMeans | internal/policy/checker.go:105-166 | Exactly what may run without approval: low-risk new notes in the inbox, reports among the reports, and guarded edits of inbox notes with something visible to write |
| Policy.MediumMeans | internal/policy/checker.go:168-296 | Exactly the plans that may ask for approval: medium risk, presented, each operation explained, among the targets and in the place of its kind; and exactly those of them that may run: approved or being applied, every append and move under a digest |
| Policy.HighMeans | internal/policy/checker.go:298-411 | Exactly the high-risk plans that may ask for approval: renames inside Knowledge but outside the drafts, and changes of five notes or more |
| Policy.DigestMeans | internal/policy/checker.go:496-510 | A digest is accepted exactly when it is 64 hexadecimal digits with nothing but white space around them |
| Plans.CheckedPathMeans | internal/policy/checker.go:512-532 | The check step by step, with lexical cleaning of the path, lets through exactly the paths whose every segment is non-empty and does not start with a dot |
| Policy.DirPrefixMeans | internal/policy/checker.go:631-635 | A path is taken to be inside a directory exactly when the directory's segments are the first ones of the path |
| Paths.InsideMeans | internal/policy/checker.go:631-635 | Being inside segment by segment is being the directory or starting with it and a slash |
| Paths.SegmentsMean | internal/policy/checker.go:631-635 | The segments joined with slashes are the path, and none holds a slash |
| PlanService.HandedAtMostOnce | internal/core/plans.go:598-751 | In a lawful course of events a plan is handed over at most once and never rejected as well |
| PlanService.DecideOnce | internal/core/plans.go:598-751 | A decision about an undecided plan keeps the course lawful |
| PlanService.Service.ResolvePlan | internal/core/plans.go:844-857 | An identifier names the plan of that id, or else one of that job; none is found only if there is none |
| PlanService.Service.PrepareApprovalPlan | internal/core/plans.go:500-538 | Only allowed plans under a new id come to await approval, with the guards of the previewed vault; when nothing fails, exactly those that can be previewed |
| PlanService.Service.PrepareHighRiskApprovalPlan | internal/core/plans.go:470-498 | The same for high-risk plans, without a preview |
| PlanService.Service.Approve | internal/core/plans.go:598-713 | Hands over at most one plan, which the identifier names and which was awaiting approval; when nothing fails it succeeds exactly if that plan is let through and would run, or its proposal note can be written; a medium-risk plan handed over keeps each operation in the directory of its kind, and the vault is as its first operations left it, by their payloads, and on success as all of them did; a high-risk plan leaves its proposal note or nothing; at no moment is a note's text lost |
| PlanService.Service.ApproveHighRisk | internal/core/plans.go:863-918 | Hands over only what the high-risk check lets through; at most one new path, inside the proposals directory, whatever the plan lists, and the proposal note on success |
| PlanService.Service.WriteProposal | internal/executor/proposal_note.go:40-106 | At every moment the vault is the old one or has one new note in the proposals directory; on success that is the proposal note, and it succeeds exactly when nothing fails and its place is free |
| PlanService.Service.HandOver | internal/core/plans.go:598-713 | An approved medium-risk plan keeps each operation in the directory of its kind, loses no text at any moment, changes only its targets and leaves there what its payloads say; when nothing fails it succeeds exactly if its locks are free, its guards hold and it runs |
| PlanService.Service.ApplyApproved | internal/core/plans.go:646-713 | Runs exactly what the check lets through and what would run; when nothing fails and its locks are free, a plan with a failing guard ends as a conflict if and only if the first one fails because the vault moved on, and as failed otherwise |
| PlanService.OvertakenIff | internal/executor/errors.go:16-19 | For an allowed plan, the first failing guard is a conflict exactly when a note that was to be new is there, or one to be edited or moved has another text |
| PlanService.Service.Reject | internal/core/plans.go:715-751 | Rejects exactly the plan the identifier names, if it awaits approval, and else changes nothing |
| PlanService.EndLocal | internal/core/plans.go:598-713 | Notes that are no target of the plan stay as they are, wherever it stops |
| PlanService.LockedPlansApart | internal/storage/store.go:841-873 | Two allowed plans that hold their locks together touch separate paths |
| Calendar.DateAtNumber | internal/scheduler/cron.go:98-125 | Counting days one at a time and the closed form of the Gregorian calendar agree |
| Calendar.DateOfNumber | internal/scheduler/cron.go:98-125 | Every valid date is found again from its day number |
| Calendar.YearsOn | internal/scheduler/cron.go:98-125 | The same date a year on is 365 or 366 days later |
| Calendar.CycleDate | internal/scheduler/cron.go:81-125 | Dates and weekdays repeat after 146097 days, 400 years on |
| Cron.NextAfter | internal/scheduler/cron.go:98-125 | The day-skipping search equals the minute scan up to five calendar years on, and fails exactly when that finds nothing |
| Cron.ScanMeaning | internal/scheduler/cron.go:81-88 | The minute scan finds the least matching minute, or there is none |
| Cron.ScanDay | internal/scheduler/cron.go:110-122 | The inner loop finds the first matching minute of a day and never leaves it |
| Cron.CurrentWindow | internal/scheduler/cron.go:90-96 | The minute an instant lies in is a window if and only if a search from one minute earlier stops there at once |
| Cron.YearlyHit | internal/scheduler/cron.go:60-125 | Open to every weekday and with a day that exists every year, a window is found at most 366 days on |
| Cron.LeapOnlyMisses | internal/scheduler/cron.go:60-125 | With nothing but 29 February, the search from March 1896 finds none |
| Cron.AlwaysFiresIff | internal/scheduler/cron.go:60-125 | For any schedule, every search succeeds if and only if some time is open and no day of one 400-year cycle is left uncovered |
| Cron.OpenWeekdaysFireIff | internal/scheduler/cron.go:60-125 | Open to every weekday, every search succeeds if and only if some allowed month and day exist in every year |
| Cron.LeapSearches | internal/scheduler/cron.go:98-125 | Five past midnight follows midnight on Thursday 29 February 2024, nothing follows six past for five years, and searches succeed again in 2047 |
| CronParse.ParseCronField | internal/scheduler/cron.go:135-164 | Succeeds exactly on well-formed fields, with exactly the values of their ranges and steps, Sunday written 0 or 7 |
| CronParse.ReadsMeans | internal/scheduler/cron.go:135-164 | A field reads as exactly what it says: pieces with commas between them, whose values it holds, 0 in place of a 7 that stands for Sunday |
| CronParse.ParsePieceMeans | internal/scheduler/cron.go:135-191 | A piece is a star, a number or two numbers with a dash between, within bounds and in order, with a slash and a positive step or without |
| CronParse.AtoiMeans | internal/scheduler/cron.go:166-191 | What is read as a number are decimal digits with or without a sign that fit a machine integer |
| CronParse.SatisfiableMeans | internal/scheduler/cron.go:60-79 | The last check passes exactly when some date has an allowed month and an allowed day |
| CronParse.FillPiece | internal/scheduler/cron.go:155-161 | The stepping loop adds exactly the values of the range |
| CronParse.ParseRange | internal/scheduler/cron.go:166-191 | A range lies within the field's bounds and is not empty |
| CronParse.ParseCron | internal/scheduler/cron.go:18-54 | Yields the one schedule the five fields say, each written as pieces with commas between them, and fails exactly when there is none or no date has an allowed month and day |
| CronParse.ParsedAccepted | internal/scheduler/cron.go:60-79 | What is parsed has a minute, an hour and a possible date |
| CronParse.PartsMean | internal/scheduler/cron.go:135-164 | The pieces of a field joined with commas are the field, and none holds a comma |
| CronParse.WordsMean | internal/scheduler/cron.go:18-54 | The fields of an expression with white space between and around them are the expression; none holds any, and two always have some between them |
| CronParse.AtoiDecimal | internal/scheduler/cron.go:166-191 | Numbers written in decimal, with or without a sign, are read back |
| SchedulerTick.SchedulerService.Reconcile | internal/core/scheduler.go:195-248 | A new schedule starts with the current minute if that is a window, an unchanged entry keeps its window, a changed one waits for the next; due exactly when that is not in the future |
| SchedulerTick.SchedulerService.Advance | internal/core/scheduler.go:417-435 | The window is used whatever happens; the stored one moves behind the finish time if there is one, and else stays |
| SchedulerTick.SchedulerService.Fire | internal/core/scheduler.go:250-391 | Skipped exactly while a run is marked running; a skip or an uncancelled run uses the window, a cancelled one leaves it in place and unused |
| SchedulerTick.SchedulerService.Tick | internal/core/scheduler.go:133-193 | Exactly the scheduled, enabled entries whose window is due fire, in registry order, each skipped or run to its end; the window is the stored one of an unchanged entry, the first of a new one, the next of a changed one; exactly the skipped and the uncancelled ones use it and move on, every other row keeps its window and last run; the tick fails exactly at the first entry without a next window, after the same for all before it; the counters are those of the runs |
| SchedulerTick.SchedulerService.TickOne | internal/core/scheduler.go:151-190 | The same for one entry, whose row is the only one it touches |
| SchedulerTick.UsedOnceIff | internal/core/scheduler.go:133-275 | The windows of every schedule strictly increase, each after the end of the run before, if and only if each use followed by another one of the unchanged schedule had a window after its end |
| SchedulerTick.NeverBack | internal/core/scheduler.go:133-275 | In any case the windows of a schedule never go back, and each is used after the run before it was over |
| SchedulerTick.LeapDayTwice | internal/core/scheduler.go:279-391 | A schedule stuck after its run of 29 February 2024 uses the same window again in 2047 |
| SchedulerTick.UseOne | internal/core/scheduler.go:417-435 | One more use continues the history, whether or not the schedule moves on, whatever other schedules did |
| Engine.StartingBudget | internal/scheduler/registry.go:713-734 | Every starting budget lies between one and its cap, a tick without a query gets at most four calls |
| EngineLoop.Dispatch | internal/agent/tool_calling_engine.go:135-262 | Every call of a reply is answered in order, or the run ends; exactly the calls of allowed tools are executed, in order, up to where the budget is gone, and answered with what the tool said; every other call is answered as invalid, forbidden or out of budget; the first valid submission, or the invalid one too many, ends the run |
| EngineLoop.CallVault | internal/agent/tool_calling_engine.go:209-262 | Each call is charged; only a successful one meets the budget gate |
| Engine.Charge | internal/agent/tool_calling_engine.go:209-262 | Charges plus remainder stay what the run started with |
| Engine.BudgetHolds | internal/agent/tool_calling_engine.go:135-272 | At most as many calls succeed as the budget allows, and all successful results but the last stay below the byte budget |
| EngineLoop.SetBudgetSystemNote | internal/agent/tool_calling_engine.go:331-349 | Old notes go, the new one comes last |
| Engine.PairedWithoutNotes | internal/agent/tool_calling_engine.go:331-349 | Taking notes out keeps every call with its answers |
| Engine.PairedAt | internal/agent/tool_calling_engine.go:60-262 | Where the k-th answer of a message's calls stands, and to which call it belongs |
| Engine.ToolsAnswer | internal/agent/tool_calling_engine.go:60-262 | With assistant replies, every tool message answers a call |
| EngineLoop.Respond | internal/agent/tool_calling_engine.go:79-262 | One reply keeps the account straight and, if it is tame, the message list strictly paired, or ends the run with a fitting verdict |
| EngineLoop.Run | internal/agent/tool_calling_engine.go:39-273 | Main result, told from the replies alone: the calls executed are exactly those of allowed tools that are reached, up to where the budget is gone, each answer is in the next request; the run is done, or partial once the budget is gone, if and only if a valid submission is reached, which is then the last call; it fails on the protocol exactly at a reply without choices, a text too many or an invalid submission too many; every reached call but a submission has its record. The requests are those of the rounds that sent one, each starting with the initial messages, well paired and with one budget note at its end, and all strictly paired if and only if each reply followed by another request is tame; the account holds |
| Engine.RequestsAt | internal/agent/tool_calling_engine.go:60-134 | The k-th request is the list of round k without old notes and with its own note, for every round until the run is over |
| Engine.StrictIff | internal/agent/tool_calling_engine.go:60-262 | The exact condition for every tool message of every request to answer a call |
| Engine.DisguisedReplyStrays | internal/agent/tool_calling_engine.go:331-349 | A run whose second request is not strictly paired, after one reply dressed up as a budget note |
| EngineMeaning.CallsMean | internal/agent/tool_calling_engine.go:135-262 | The account of one reply: which of its calls are executed, recorded and answered with what, and which one ends the run |
| EngineMeaning.RoundsMean | internal/agent/tool_calling_engine.go:60-273 | The account of any number of rounds, by induction |
| EngineMeaning.RunOutcome | internal/agent/tool_calling_engine.go:119-173 | The verdict in terms of the replies: submissions, texts in a row on top of invalid submissions, missing choices |
| LinkIndex.ResolveMeans | internal/vault/linkindex/linkindex.go:580-616 | The lookup finds exactly what a link text means among the notes, in any table order |
| LinkIndex.AliasIgnored | internal/vault/linkindex/linkindex.go:580-616 | A link with an alias means what it means without |
| LinkIndex.HeadingIgnored | internal/vault/linkindex/linkindex.go:580-616 | And so with a heading |
| LinkIndex.PlainMeans | internal/vault/linkindex/linkindex.go:580-616 | A plain name, with or without `.md` or a leading slash, means the note of that path, or else the only note whose file name agrees up to case |
| LinkIndex.StemMeans | internal/vault/linkindex/linkindex.go:580-616 | The stem of a note is its lower-cased file name without `.md`, wherever it lies |
| LinkIndex.BuildBacklinks | internal/vault/linkindex/linkindex.go:619-635 | The exact inverse of the resolved links, without repeats |
| LinkIndex.InverseUnique | internal/vault/linkindex/linkindex.go:619-635 | Backlinks are fixed by the links up to order |
| LinkIndex.Index.Build | internal/vault/linkindex/linkindex.go:188-268 | Indexes exactly the readable notes in scope, each link resolved among them |
| LinkIndex.Index.FlushOne | internal/vault/linkindex/linkindex.go:428-466 | One pending path is dropped, re-read or left alone, keeping notes, links and stems in step |
| LinkIndex.Index.FlushPending | internal/vault/linkindex/linkindex.go:413-471 | Any additions and removals keep the index consistent; when only existing notes were edited it is up to date again, and else exactly when every link says what it said among the notes its own note was last resolved among, for an untouched note those before the flush |
| LinkIndex.UpToDateIff | internal/vault/linkindex/linkindex.go:413-471 | The exact condition for the index to be what a rebuild gives |
| LinkIndex.EditPending | internal/vault/linkindex/linkindex.go:396-411 | An edit of a note that is then pending leaves the other links right |
| LinkIndex.Index.MarkPending | internal/vault/linkindex/linkindex.go:396-411 | After an edit that is reported as pending the index is still right about the other notes, so that edits and a flush amount to a rebuild |
| LinkIndex.UpToDateOnce | internal/vault/linkindex/linkindex.go:188-268 | Two up-to-date indexes of the same notes have the same links and the same backlink sets, so a flush equals a rebuild |
| Recall.CountHits | internal/memory/recall.go:126-132 | Counts for each note the tags that list it |
| Recall.TagPass | internal/memory/recall.go:119-148 | Exactly the tag hits, scored by their share of the tags |
| Recall.TextMeaning | internal/memory/recall.go:150-185 | A text hit keeps a note's source and lifts its score to that of its first rank if better |
| Recall.ExpandRelated | internal/memory/recall.go:250-281 | Every primary hit spreads in some order of the map: exactly the direct neighbours join, each with 0.28 of such a hit's score; primary hits stay as they are |
| Recall.SpreadFinds | internal/memory/recall.go:250-281 | In any order exactly the direct neighbours of primary hits join, each with 0.28 of such a hit's score; primary hits stay as they are |
| Recall.SpreadMeaning | internal/memory/recall.go:250-281 | The first primary hit next to a neighbour, in the order of the map, sets its score |
| Recall.OrderUnique | internal/memory/recall.go:205-216 | The order is strict and total, so the list is fixed by the items found |
| Recall.SortItems | internal/memory/recall.go:205-216 | All items, strictly ordered by score then path |
| Recall.Recall | internal/memory/recall.go:96-244 | The result is the top of the ordered list of exactly what is found and let through: notes inside one of the scope directories, or outside Archive when there is none, and not known to be older than asked for; it names the passes that were skipped |
| Recall.FoundSame | internal/memory/recall.go:96-281 | Two runs have the same primary hits, with scores, sources and excerpts, and find the same notes, in any map order |
| RecallOrder.ListSameIff | internal/memory/recall.go:96-281 | Before the limit the list does not depend on the map's order if and only if the primary hits next to each kept neighbour have one score |
| RecallOrder.CutSameIff | internal/memory/recall.go:205-216 | The list returned, cut at the limit, does not depend on it if and only if that holds or the settled entry at the limit ranks ahead of every score a wavering note can get |
| RecallOrder.ListParts | internal/memory/recall.go:96-281 | Every list holds all settled entries, and wavering notes only as one of their primary hits scores them |
| RecallOrder.ListVaries | internal/memory/recall.go:250-281 | Two search hits linking to one more note: two lists that differ |
| Recall.LimitKeepsTop | internal/memory/recall.go:214-216 | What the limit cuts off ranks behind all it keeps |
| Recall.ScopeMeans | internal/memory/recall.go:286-316 | In scope is what lies inside a named directory segment by segment, or, without any, what does not lie below Archive |
| Recall.LexMeans | internal/memory/recall.go:205-216 | Paths are ordered by their first differing character, a proper start coming first |
| Recall.FilterScope | internal/memory/recall.go:286-316 | The deleting loops keep exactly what is in scope |
| Recall.FilterSince | internal/memory/recall.go:321-332 | The deleting loop keeps exactly what is not known to be too old |
| Fences.MarkdownFence | internal/core/ingest.go:601-615 | The counting loop gives the shortest fence of three or more the text does not hold |
| Fences.FencedReadBack | internal/core/ingest.go:512-525 | A text in its fence is read back whole by section 4.5 of CommonMark 0.31.2, and reading goes on behind it |
| Buckets.RewriteRawBucketUpdated | internal/core/ingest.go:527-554 | The two loops find the closing fence and the line to refresh |
| Buckets.RewriteRefreshes | internal/core/ingest.go:527-554 | On a bucket note this replaces the one line and nothing else, whatever was captured |
| Buckets.TextsRecovered | internal/core/ingest.go:494-525 | Reading the fenced blocks of a bucket note gives exactly the captured texts in order |
| BucketService.Service.CreateRawBucket | internal/core/ingest.go:201-241 | A new note with the header and block 1, where there was none; the row keeps the trimmed source, the digest and the time it expires; it succeeds whenever nothing fails, the place is free and the inputs are not blank; no other note counts as edited, and this one only if a refused write changed it |
| BucketService.Service.AppendRawBucket | internal/core/ingest.go:243-363 | A changed note or a bucket out of time is closed without writing, and no other; otherwise exactly one block is added and the row counts it, with its digest and a new time to expire; it succeeds exactly for an open, unstale bucket of that source when nothing fails; no other note counts as edited, and this one only if a refused write changed it |
| BucketService.Service.OrganizeCaptureBucket | internal/core/plans.go:276-335 | Succeeds exactly for an open, unexpired bucket of that source with its own note once a plan could be made; else the same closing rules |
| BucketService.Service.CloseRawBucket | internal/core/ingest.go:365-387 | Closes an active bucket and leaves any other status |
| BucketService.Grown | internal/core/ingest.go:243-363 | Refreshing the header and adding the next block prints the grown list of texts |
| BucketService.BucketRefinesTexts | internal/core/ingest.go:201-387 | An active bucket nobody edited matches its stored digest and gives back every captured text |

## Left out

- Invalid UTF-8: texts are sequences of characters, and lower-casing is done character by character.
- Which violation the guard names first: it depends on the sorted order of keys and changes no verdict.
- EnrichRun.EnrichService.RunOne: the agent's excerpt and query, job and plan rows, and the tag vocabulary's own bookkeeping are not modelled; failing to build the query is one of the failing outcomes.
- Symlinks, inodes, directories, temporary file names and fsync: operating-system behaviour; re-check and rename are one step.
- Edits by others between the operations of one apply: the note's guard is checked when its operation runs.
- Executor.DirectFS.Apply: the observer called after a rewrite is not modelled.
- Policy.MediumFootprint: what a Knowledge draft must contain is an arbitrary predicate of its text.
- Normalizing configured directories: the rules take them already normalized.
- PlanService.Service.Approve: vault synchronization before and after, job rows and outbox messages are not modelled.
- PlanService.Service.ApproveHighRisk: the wording of proposal notes is a function of the plan, and reasons in the log are single words.
- Two services on one database, crash recovery of running rows and the manual reset of enrich jobs: the code leaves races there.
- Cron.NextAfter: daylight-saving zones and offsets with seconds are not modelled.
- CronParse.ParseCronField: a step near the largest machine integer overflows in Go; here numbers are unbounded.
- SchedulerTick.SchedulerService.Tick: failing table writes, loading the registry and composing messages are not modelled.
- EngineLoop.Run: the texts of prompts, sanitizing, and the clock are inputs; what a tool does is arbitrary.
- LinkIndex.Index.Build: finding raw links in a note's text, cancelled scans and directory skipping are not modelled.
- Recall.Recall: explanations of matches and trace rows are not modelled; scores are exact rationals instead of floating point.
- BucketService.Service.AppendRawBucket: topic hints and excerpts are not modelled, writes to bucket rows succeed, and source names are single lines.
- Network clients, command-line parsing, HTML rendering, redaction and intent phrases: plumbing or presentation with only easy claims.
