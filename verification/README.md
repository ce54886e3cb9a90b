# MegooPM: a verified model of its small algorithms and protocols

MegooPM is a control plane for nginx: it edits pages, checks markup, pushes events, keeps a
configuration database, renders and propagates it between nodes, and guards its accounts.
This project models the parts of it that carry real invariants and proves what they promise,
for every input, every run and every interleaving.

| module | models |
|---|---|
| `Text`, `Ordering` | splitting and joining on a separator, and sorting, shared by the others |
| `PageEdits`, `PageTools`, `GrepWindows` | the staged page editor: staging, bottom-up apply, grep windows |
| `HtmlCheck`, `HtmlAccounting`, `HtmlForest` | the tag stack machine, its books, and the trees it accepts |
| `EventStream` | the incremental parser of server-sent events and the server's frame printer |
| `RateLimiter`, `DecisionFeed`, `SubscriptionPump` | the live-log session |
| `WhitelistApply` | write, test, restart and roll back the CrowdSec whitelist |
| `Propagation` | shared config version, per-node markers and reconciles |
| `ApplyOrder` | applies that load the database before they take their lock |
| `VisitorDrain` | draining visitor counters while they are incremented |
| `Apr1` | apr1 password hashes |
| `ProxyConfig`, `ProxySafety`, `ConfigStore`, `CommittedRows` | pools, hosts, locations, streams, pages and certificates, the checks on them, and what each write leaves |
| `DesiredConfig`, `Rendering`, `BreakingWrites` | what is rendered from them, when it keeps the rules of nginx listed below, and which writes break them |
| `Totp`, `Accounts` | second factor, token versions, and lock-out protection |

Objects the system updates in place are classes whose methods are proved against functions of
the old state; its loops are loops with invariants; protocols with interleavings are state
machines over their steps. Times are integers or reals, and MD5, password hashing, UTF-8, JSON,
case folding and the code generator are parameters: nothing is assumed of them except where a
lemma says so (`EventStream` assumes that what was sent is printed without raw newlines and that
the decoder reads its type back, or drops it when empty). What nginx refuses, a weight of zero, a
block whose servers are all backups, a repeated prefix location, a status of more than three digits,
a port it cannot bind and a missing certificate file, is taken from nginx itself. Shifts and masks on non-negative numbers are division and remainder.

## Where the code and its description differ

- The configuration checks exist so that nginx never refuses what is rendered. They leave out a
  server of weight zero and a pool in service whose enabled servers are all backups
  (`BreakingWrites.UnprimedPoolIsRendered`), a location at the certificate challenge path
  (`BreakingWrites.RepeatedLocationIsRendered`), a TCP stream on a port that is already listened on
  (`BreakingWrites.TakenPortIsRendered`), and a certificate whose files are not on disk yet, which
  the loader guards against only for the default site (`BreakingWrites.PendingCertificateIsRendered`).
  `Rendering.AcceptedIff` is exact for the rules modelled here: blocks, names, targets, balancing
  methods, weights, prefix locations, statuses, ports and certificate files.
  `BreakingWrites.BreakingWrite` says which writes break them.
- The flush deletes only the fields it wrote so that increments arriving during the write survive.
  Those for an address it had read do not (`VisitorDrain.PassLoses`).
- An apply loads the database before it takes the lock that serialises applies, so one that loaded
  first can write last: files and version then announce an older state with nothing pending
  (`ApplyOrder.OvertakenRun`; `ApplyOrder.SettledNewestIff` says exactly when).
- The route that deletes a custom page says the default site is the only thing that can refer to
  one; locations, the ban and maintenance pages and the error codes do too, and each refuses the
  delete (`ProxySafety.DeletePageExact`).
- The rate limiter is described as admitting at most N lines a second. Its windows restart with
  the first line after the old one ended, so a sliding second can hold 2N-1
  (`RateLimiter.SlidingBoundAttained`), and never more (`RateLimiter.SlidingBound`); the cap holds
  as described only for N = 1 (`RateLimiter.CapHoldsOnlyForOne`).
- The HA apply writes the node's marker after an apply that reloaded nothing, on the ground that
  the node "was already current". A node whose startup render comes after another node's change
  was not, and no reconcile or unchanged apply reloads it afterwards
  (`Propagation.SilentApplyBreaksOrder`, `Propagation.StaleForever`).
- After a failed rollback restart, applying the restored whitelist again reports success without
  touching the engine (`WhitelistApply.StrandedRepeatReportsOk`).
- Verifying a malformed apr1 hash is documented to answer no; with four parts, the right tag and
  a character outside ASCII it raises (`Apr1.RaisesIff`). A salt with a dollar sign hashes but
  never verifies (`Apr1.VerifiesOwnHash`).
- A flusher that dies between its write and its deletes counts what it wrote twice
  (`VisitorDrain.CrashCountsTwice`).

## Model

| member | source | states |
|---|---|---|
| `PageTools.CheckRange` | backend/app/services/page_tools.py:153-161 | a range is accepted exactly when it lies inside the document the right way round |
| `PageTools.EditDocument.constructor` | backend/app/services/page_tools.py:49-51 | a document starts as its lines with nothing staged, and the lines joined again are the text it was given |
| `PageTools.EditDocument.ReplaceLines` | backend/app/services/page_tools.py:105-133 | exactly when a call is refused as out of range, revises the edit of the same range, is refused as overlapping, or is staged; staged ranges stay in bounds and pairwise disjoint, each remembering the original lines; a refusal changes nothing |
| `PageTools.EditDocument.Apply` | backend/app/services/page_tools.py:137-149 | the result is the simultaneous replacement on original line numbers; nothing staged gives back the original text; the reported edits are the staged ones in document order |
| `PageTools.SpliceBottomUp` | backend/app/services/page_tools.py:144-147 | the bottom-up in-place splicing loop produces the one document that replaces every staged range at once |
| `PageTools.BottomUpStep` | backend/app/services/page_tools.py:145-147 | splicing one more edit above what is already spliced extends the finished tail by that edit's replacement and the untouched lines under it |
| `PageTools.SortAscending` | backend/app/services/page_tools.py:145-148 | ordering staged edits by start gives strictly ascending, non-touching ranges |
| `PageTools.ReviseKeeps` | backend/app/services/page_tools.py:113-119 | replacing the text of one staged range keeps the staged set in bounds, disjoint and faithful to the original lines |
| `PageTools.AppendKeeps` | backend/app/services/page_tools.py:120-127 | staging a range that overlaps no staged one keeps the staged set in bounds, disjoint and faithful to the original lines |
| `PageEdits.SimultaneousIffEdited` | backend/app/services/page_tools.py:137-149 | a document meets the line-by-line description (each untouched line and each replacement stands at its shifted place, and nothing else) if and only if it is the spliced one |
| `PageEdits.EditedIsSimultaneous` | backend/app/services/page_tools.py:137-149 | every replacement and every untouched line is found at the place its original number is shifted to, and the length is exactly accounted for |
| `PageEdits.UntouchedInOrder` | backend/app/services/page_tools.py:137-147 | lines no edit touches keep their order |
| `PageEdits.OffsetStep` | backend/app/services/page_tools.py:144-147 | one more edit made on an already edited document, at its line number corrected by the edits before it, is the simultaneous replacement of all of them |
| `PageEdits.WithOffsetsIsEdited` | backend/app/services/page_tools.py:137-149 | making the edits one after another with corrected line numbers equals the simultaneous replacement |
| `PageEdits.AnyOrder` | backend/app/services/page_tools.py:137-149 | and does so in every order, so the order of staging never matters |
| `PageEdits.EditsReadBack` | backend/app/services/page_tools.py:145-147 | in the finished document the lines standing for an edit, joined again, are exactly its text, and there are none of them exactly when that text is empty |
| `PageTools.EditDocument.Grep` | backend/app/services/page_tools.py:63-96 | an empty pattern is refused; otherwise exactly the matching lines are counted and the windows shown are the context windows of the first fifty |
| `GrepWindows.Hits` | backend/app/services/page_tools.py:68-73 | the hits are exactly the matching line numbers, ascending |
| `GrepWindows.MatcherMeans` | backend/app/services/page_tools.py:68-73 | a line matches exactly when it holds the pattern somewhere, both lower-cased first only when case is ignored |
| `GrepWindows.MergeKeepsWindows` | backend/app/services/page_tools.py:82-90 | merging one more hit keeps the windows increasing, at least one omitted line apart, and covering exactly the lines within two of a shown hit, clipped to the document |
| `GrepWindows.WindowsCoverTwo` | backend/app/services/page_tools.py:84-90 | a line is shown exactly when it is in the document and within two lines of a shown hit |
| `HtmlCheck.FindOpen` | backend/app/services/html_check.py:106-108 | an end tag answers to the innermost open element of its name, if there is one |
| `HtmlCheck.StructureParser.HandleStartTag` | backend/app/services/html_check.py:91-94 | a start tag opens an element unless it is void; nothing else changes |
| `HtmlCheck.StructureParser.HandleEndTag` | backend/app/services/html_check.py:100-129 | an end tag closes the innermost element of its name, reports the required-end ones closed on the way in order, and reports itself when nothing matches |
| `HtmlCheck.StructureParser.FinishParse` | backend/app/services/html_check.py:131-137 | what is still open at the end is added unless its end tag is optional, and the faults come back sorted by line and message |
| `HtmlCheck.BeforeOrders` | backend/app/services/html_check.py:137-137 | line, then message, is a total preorder of the faults, as sorting needs |
| `HtmlCheck.ReportIsFound` | backend/app/services/html_check.py:131-137 | the report is ordered and holds exactly the faults found, each as often |
| `HtmlCheck.ReportByLine` | backend/app/services/html_check.py:137-137 | of two faults reported one after the other the first has the smaller line, or the same and the lesser message |
| `Ordering.TextLeqMeans` | backend/app/services/html_check.py:137-137 | messages compare as text does: a prefix comes first, otherwise the first differing character decides |
| `HtmlCheck.CheckHtml` | backend/app/services/html_check.py:140-151 | the report of a whole document is that of its tag events fed in order, and empty when the tokenizer raises |
| `HtmlAccounting.Accounting` | backend/app/services/html_check.py:91-137 | over every tag sequence, each required-end start tag is matched by exactly one end tag or reported exactly once, and each required-end end tag closes exactly one element or is reported exactly once |
| `HtmlAccounting.PermutedReports` | backend/app/services/html_check.py:137-137 | what a report complains about, counted with repetitions, does not depend on its order |
| `HtmlAccounting.RunBalance` | backend/app/services/html_check.py:91-129 | the same balance at every point of a run, with the still open elements as the third account |
| `HtmlAccounting.FaultsName` | backend/app/services/html_check.py:109-136 | one fault for each required-end element left open, in order: it names that element, and the end tag that was met in its place or that none was |
| `HtmlAccounting.MatchesAgree` | backend/app/services/html_check.py:106-123 | an end tag is only ever matched with a start tag of its own name |
| `HtmlAccounting.SilentMeansNested` | backend/app/services/html_check.py:91-137 | an empty report means that the required-end tags alone form a properly nested word |
| `HtmlForest.NoFalsePositives` | backend/app/services/html_check.py:91-137 | no fault is reported for any properly nested tag tree whose optional end tags are omitted anywhere |
| `HtmlForest.SilentIsCoherent` | backend/app/services/html_check.py:91-137 | whatever is reported clean is the tag sequence of some coherent tree, which the proof builds |
| `HtmlForest.CoherentIsSilent` | backend/app/services/html_check.py:91-137 | every coherent tree is reported clean |
| `HtmlForest.SilentIffCoherent` | backend/app/services/html_check.py:91-137 | a document is reported clean if and only if its tags are those of a coherent tree |
| `EventStream.FrameEnd` | frontend/src/lib/events.ts:26-27 | the first blank line of a buffer, or that there is none |
| `EventStream.LineMeans` | frontend/src/lib/events.ts:31-36 | a line gives a type exactly when it is a data line whose text decodes to that type |
| `EventStream.FrameTypesInOrder` | frontend/src/lib/events.ts:31-39 | the lines of a frame give their types one after another |
| `EventStream.ParseFrame` | frontend/src/lib/events.ts:31-39 | a frame yields the types of its decodable data lines in order and skips everything else |
| `EventStream.ParseFrames` | frontend/src/lib/events.ts:21-43 | the buffer loop finds all complete frames, and the remainder it hands back holds none |
| `EventStream.ParseAppend` | frontend/src/lib/events.ts:21-43 | parsing a buffer, then its remainder with more text, is parsing the whole text |
| `EventStream.ReadChunks` | frontend/src/lib/events.ts:93-100 | the reader's loop delivers what one parse of the concatenated chunks would |
| `EventStream.ChunkInvariance` | frontend/src/lib/events.ts:93-99 | every way of cutting a stream delivers the same event types and leaves the same remainder |
| `EventStream.StreamParses` | backend/app/services/events.py:23-30 | a stream of server frames mixed with keepalives parses to exactly the sent types, an empty type being dropped, with nothing left over |
| `EventStream.WireText` | backend/app/services/events.py:23-30 | the bytes of a sent event and of a keepalive |
| `EventStream.StreamDelivered` | backend/app/api/routes/events.py:61-75 | and does so however the network cuts it |
| `EventStream.CutStreamDeliversPrefix` | frontend/src/lib/events.ts:93-100 | a connection lost at any character has delivered a prefix of the sent types |
| `EventStream.RawBlankLineSplits` | backend/app/services/events.py:26-28 | without the printer's promise of no raw newline, a blank line inside a payload splits its frame |
| `RateLimiter.RateLimiter.constructor` | backend/app/services/live_logs.py:72-78 | a new limiter has admitted, skipped and reported nothing |
| `RateLimiter.RateLimiter.AllowLine` | backend/app/services/live_logs.py:80-93 | the whole effect of offering a line |
| `RateLimiter.RateLimiter.AddRelayedSkips` | backend/app/services/live_logs.py:95-109 | the whole effect of a relayed skip count, including counts that are not positive |
| `RateLimiter.RateLimiter.TakeReport` | backend/app/services/live_logs.py:111-117 | the whole effect of asking for a report |
| `RateLimiter.AllowMeans` | backend/app/services/live_logs.py:80-93 | a line is refused exactly when its window is still open and full; an admitted one counts in the open window or starts a new one; a refused one is counted as skipped, and a first one falls due at the end of the window but not within a second of the last report |
| `RateLimiter.RelayMeans` | backend/app/services/live_logs.py:95-109 | a positive count is added to the skipped ones, and a first one falls due now but not within a second of the last report; any other count changes nothing |
| `RateLimiter.ReportMeans` | backend/app/services/live_logs.py:111-117 | in every run, asking once the report is due hands over everything skipped and remembers when; asking before gives nothing and changes nothing |
| `RateLimiter.ReportsOfRun` | backend/app/services/live_logs.py:80-117 | over every run with a forward clock: refused plus relayed equals reported plus pending; a report is pending exactly when something is; it falls due within a second of the first unreported skip and never sooner than a second after the last report; reports are positive and at least a second apart |
| `RateLimiter.SlidingBound` | backend/app/services/live_logs.py:80-93 | any half-open second admits at most 2N-1 lines |
| `RateLimiter.SlidingBoundAttained` | backend/app/services/live_logs.py:65-93 | and 2N-1 are reached for every N |
| `RateLimiter.CapHoldsOnlyForOne` | backend/app/services/live_logs.py:65-93 | every run keeps the cap of N in every half-open second if and only if N is one |
| `RateLimiter.RefusedOnlyWhenFull` | backend/app/services/live_logs.py:81-93 | a line is refused only when N lines were admitted within the second before it |
| `DecisionFeed.NewDecisions` | backend/app/services/live_logs.py:120-132 | the loop returns the unseen decisions, one per id and in order, and adds every id it was shown to the seen ones |
| `DecisionFeed.FreshExact` | backend/app/services/live_logs.py:120-132 | the new decisions carry exactly the ids not seen before, each once, and never one without an id |
| `DecisionFeed.FreshInOrder` | backend/app/services/live_logs.py:126-132 | they are the decisions at the places where an id not seen before stands for the first time, in their order |
| `DecisionFeed.DecisionPoller.ReadDecisions` | backend/app/api/routes/live_logs.py:340-355 | a failed read changes and offers nothing; a successful one leaves exactly the ids just read, and offers the new ones only when announcing |
| `DecisionFeed.DecisionPoller.Poll` | backend/app/api/routes/live_logs.py:326-338 | one turn of the poll loop: reset when not watching, read when due |
| `DecisionFeed.SeenIsLastRead` | backend/app/api/routes/live_logs.py:322-355 | over every run, what is remembered is exactly the last successful read since watching began, and the next read is due one interval after the last attempt |
| `DecisionFeed.OfferedExactly` | backend/app/api/routes/live_logs.py:331-355 | a decision is offered exactly when its id is present now and was absent from the previous successful read; nothing from the priming read is offered |
| `DecisionFeed.SendOffered` | backend/app/api/routes/live_logs.py:349-351 | sent are exactly the offered decisions at the positions the limiter admits, in order, and each of the others is counted as skipped |
| `DecisionFeed.SelectedInOrder` | backend/app/api/routes/live_logs.py:349-351 | each admitted decision is sent after exactly as many as were admitted before it |
| `SubscriptionPump.StepKeepsInv` | backend/app/api/routes/live_logs.py:237-274 | every step, with Redis failing anywhere and the watch changing at any await, keeps the record of the subscription true |
| `SubscriptionPump.RunKeepsInv` | backend/app/api/routes/live_logs.py:237-274 | so does every run |
| `SubscriptionPump.PumpSafety` | backend/app/api/routes/live_logs.py:241-267 | whatever was watched before the task's first turn: at every loop head the connection's subscriptions equal the record, no connection means an empty record, and the task never sleeps on the event while something is watched |
| `SubscriptionPump.ReadsStartCurrent` | backend/app/api/routes/live_logs.py:251-259 | a read starts only when the subscription is the latest watch |
| `SubscriptionPump.Converges` | backend/app/api/routes/live_logs.py:225-267 | left undisturbed, within four steps the pump reads exactly what is watched, or sleeps when nothing is |
| `WhitelistApply.WhitelistHost.ApplyToDisk` | backend/app/tasks/crowdsec.py:79-155 | every path of the write, test, restart and rollback with its effect on the file and the engine |
| `WhitelistApply.WhitelistHost.ApplyWhitelists` | backend/app/tasks/crowdsec.py:195-218 | the apply followed by its recording, whose digest advances only on success |
| `WhitelistApply.OutcomeMeans` | backend/app/tasks/crowdsec.py:96-155 | success means that content and record were already there, or that the tested content was restarted onto and found healthy; only then do file and record move, and the engine is touched only after a passed test |
| `WhitelistApply.RestartsAreSafe` | backend/app/tasks/crowdsec.py:107-155 | at most two restarts a call, each onto the previous content or onto content the engine's own test accepted, and only after the file holds it |
| `WhitelistApply.RepeatIsSilent` | backend/app/tasks/crowdsec.py:102-105 | repeating a successful apply writes and restarts nothing |
| `WhitelistApply.DiskIsLastGood` | backend/app/tasks/crowdsec.py:79-155 | over every run of calls the file is the content of the last successful apply, or the initial one, and the recorded digest names it |
| `WhitelistApply.RunRestartsAreSafe` | backend/app/tasks/crowdsec.py:107-155 | in every run, no restart is onto anything but last good or newly accepted content |
| `WhitelistApply.SyncAfterCall` | backend/app/tasks/crowdsec.py:121-155 | after a call the engine runs what is on disk exactly when the call did not strand it, or, if it never touched the engine, exactly when it did before |
| `WhitelistApply.OutOfSyncIsStranded` | backend/app/tasks/crowdsec.py:121-155 | whenever a run ends with the engine running something else, one particular call stranded it by a failed restart and none has touched the engine since |
| `WhitelistApply.OkMeansLoaded` | backend/app/tasks/crowdsec.py:102-128 | a call that reports success leaves the engine running the file, except exactly when recorded digest and file already matched the content and the engine was out of step before |
| `WhitelistApply.StrandedRepeatReportsOk` | backend/app/tasks/crowdsec.py:102-105 | after a stranded call, applying the restored content again reports success although the engine still runs the refused content |
| `Propagation.RunKeepsOrder` | backend/app/tasks/nginx.py:138-158 | every interleaving of applies, reconciles, restarts, joins and lost markers keeps marker <= loaded <= shared on every node and never reports a version a node does not run, provided an apply that reloads nothing happens on a current node |
| `Propagation.StepKeepsOrder` | backend/app/tasks/nginx.py:260-288 | each single step keeps it |
| `Propagation.OrderedIffTruthful` | backend/app/tasks/nginx.py:138-158 | with no assumption about the applies, the order holds throughout a run if and only if every apply that reloaded nothing found its node current, or that node came to run the version before the apply's marker was written |
| `Propagation.UnvouchedIff` | backend/app/tasks/nginx.py:148-157 | the markers in doubt are exactly those of applies that reloaded nothing on a node that was behind |
| `Propagation.SilentApplyExactly` | backend/app/tasks/nginx.py:148-157 | the marker written right after an apply that reloads nothing, unchanged or rolled back, is truthful if and only if the node already ran the shared version |
| `Propagation.SilentApplyBreaksOrder` | backend/app/tasks/nginx.py:231-234 | the run that breaks it: one node changes the files, and the other's own startup render, or an apply of its that is rolled back, marks it current without reloading |
| `Propagation.StaleForever` | backend/app/tasks/nginx.py:267-270 | such a node stays on the old version through every reconcile and every apply that changes nothing, until a change is applied, its own nginx reloads or restarts, or its marker is lost |
| `Propagation.ReconcileMakesCurrent` | backend/app/tasks/nginx.py:285-288 | a reload puts a node on the shared version |
| `Propagation.CurrentStays` | backend/app/tasks/nginx.py:260-288 | with no further changes a current node stays current |
| `Propagation.ReconciledIsCurrent` | backend/app/tasks/nginx.py:251-255 | with no further changes, one successful reconcile makes a node current for the rest of the run |
| `Propagation.WholeReconcile` | backend/app/tasks/nginx.py:260-294 | left to finish, a reconcile of a node marked as current only reports its marker; one that is behind ends having loaded, marked and reported the shared version, or, when its reload fails, running what it ran and reporting the marker it had |
| `Propagation.WholeApply` | backend/app/tasks/nginx.py:138-158 | left to finish, an apply that changes the files raises the shared version by one, and its node ends having loaded, marked and reported just that |
| `ApplyOrder.FilesNewestIff` | backend/app/tasks/nginx.py:135-152 | over every interleaving of writes and applies, the files hold what the last apply to succeed loaded; they are the newest rendering if and only if the writes committed since left the rendering as it was, and, where no two states render alike, if and only if nothing committed |
| `ApplyOrder.SettledNewestIff` | backend/app/tasks/nginx.py:113-124 | with no apply pending and none rolled back, the same of the writes committed between the last finishing apply's load and its lock |
| `ApplyOrder.LastSuccessExists` | backend/app/tasks/nginx.py:128-153 | whenever an apply has succeeded there is a last one, and it loaded what it wrote |
| `ApplyOrder.VersionIsFaithful` | backend/app/tasks/nginx.py:128-152 | over every run the version never falls, stands still exactly while the files do, and rises by one with each change of them: it is the faithful record the code claims, even where the files are not the newest |
| `ApplyOrder.OvertakenRun` | backend/app/tasks/nginx.py:135-147 | the run on which it fails: an apply that loaded first takes the lock last, and writes and announces the older state |
| `VisitorDrain.StepKeepsInv` | backend/app/tasks/analytics.py:58-75 | every increment and every step of the flush keeps the books of requests and bytes balanced |
| `VisitorDrain.DrainConserves` | backend/app/tasks/analytics.py:47-77 | over every interleaving with one flusher, between flushes the database plus Redis falls short of the true total by exactly what was lost: nothing is counted twice |
| `VisitorDrain.TotalsAreCounted` | backend/app/tasks/analytics.py:47-53 | where the true total is the sum of what the run counted |
| `VisitorDrain.LostExactly` | backend/app/tasks/analytics.py:70-74 | only deleting loses anything, and exactly what came in for a deleted address since it was read |
| `VisitorDrain.PassLoses` | backend/app/tasks/analytics.py:58-74 | a whole flush loses exactly the requests counted for a read address between reading and deleting the counts, and the bytes between reading and deleting the bytes; other addresses lose nothing |
| `VisitorDrain.PassMoves` | backend/app/tasks/analytics.py:58-74 | a whole flush adds to the database exactly the requests and bytes Redis held for a read address when each was read, and leaves in Redis what came in after the deletes; other addresses keep everything in Redis |
| `VisitorDrain.EmptyAddressKeepsAll` | backend/app/services/analytics/flush.py:42-58 | an address no flush reads never loses anything |
| `VisitorDrain.FailedWritesLoseNothing` | backend/app/tasks/analytics.py:50-52 | as long as every database write fails, and even if flushers die, Redis holds every counter in full and the database nothing |
| `VisitorDrain.CrashCountsTwice` | backend/app/tasks/analytics.py:66-74 | a flusher that dies counts twice exactly what it had written and not yet deleted |
| `Apr1.EncodeTo64` | backend/app/services/htpasswd.py:26-32 | the shifting loop writes the base-64 digits of the value, lowest first |
| `Apr1.DigitIsAlphabet` | backend/app/services/htpasswd.py:20-21 | the digits are the characters of the apr1 alphabet in its order |
| `Apr1.From64To64` | backend/app/services/htpasswd.py:26-32 | decoding gives the value back exactly when it is below 64^count, and otherwise its low digits |
| `Apr1.To64From64` | backend/app/services/htpasswd.py:26-32 | every string over the alphabet is the encoding of its value, so the encoding is a bijection |
| `Apr1.EncodedBytes` | backend/app/services/htpasswd.py:78-86 | the 22 characters hold each of the sixteen digest bytes at its place in Apache's order |
| `Apr1.EncodingDetermines` | backend/app/services/htpasswd.py:79-86 | two digests have the same text if and only if they are the same |
| `Apr1.Fold` | backend/app/services/htpasswd.py:47-53 | the folding loop appends the alternate digest repeated and cut at the password's length |
| `Apr1.AddLengthBits` | backend/app/services/htpasswd.py:55-63 | the bit loop appends one byte per bit of the length: zero for a set bit, the password's first byte for a clear one |
| `Apr1.ComputeDigest` | backend/app/services/htpasswd.py:41-76 | folding, bits and the thousand rounds together compute the specified digest for every MD5 |
| `Apr1.DigestInBytes` | backend/app/services/htpasswd.py:41-76 | in bytes: there are 1001 digests, the first of password, tag, salt, folded alternate digest and length bits, each later one of its round's spelled-out bytes of password, salt and the digest before it, and the last is the password's |
| `Apr1.TextInBytes` | backend/app/services/htpasswd.py:78-86 | each group of four characters reads as three named bytes of the digest, the last two characters as its twelfth byte |
| `Apr1.Crypt` | backend/app/services/htpasswd.py:35-87 | the stored form of that digest under its salt, or an error for a salt outside ASCII |
| `Apr1.HashPassword` | backend/app/services/htpasswd.py:90-96 | a salt of more than eight characters is refused; a drawn one always works |
| `Apr1.HashMeans` | backend/app/services/htpasswd.py:35-96 | the stored text is the tag, the salt and the digest's text between dollar signs; a salt over eight characters, or else outside ASCII, is refused with its own error |
| `Apr1.VerifyPassword` | backend/app/services/htpasswd.py:99-105 | every branch of verification, including the two that raise |
| `Apr1.SplitStored` | backend/app/services/htpasswd.py:101-104 | the stored form splits into its salt and digest text exactly when the salt holds no dollar sign |
| `Apr1.VerifiesOwnHash` | backend/app/services/htpasswd.py:90-105 | a hash verifies its own password if and only if the salt holds no dollar sign, which no alphabet salt does |
| `Apr1.AcceptsOnlyCollisions` | backend/app/services/htpasswd.py:99-105 | another password verifies against it if and only if its digest is the same |
| `Apr1.AcceptedIff` | backend/app/services/htpasswd.py:99-105 | what verifies a password is exactly the stored form of its own digest under some ASCII salt without a dollar sign |
| `Apr1.RaisesIff` | backend/app/services/htpasswd.py:99-105 | verification raises, instead of answering no as documented, exactly on well-shaped text with a character outside ASCII |
| `ProxySafety.ChecksAreExact` | backend/app/services/upstream.py:145-316 | on a database that keeps the promises, a write of any of the nineteen kinds commits if and only if its row exists, no column that may not be null becomes null and the whole resulting database keeps them too; the incremental checks refuse nothing else |
| `ProxySafety.CreatePoolExact` | backend/app/services/upstream.py:145-183 | creating a pool with seeded backends commits exactly when the result keeps every promise |
| `ProxySafety.UpdatePoolExact` | backend/app/services/upstream.py:186-213 | changing a pool's method, context or flag, in any combination and with nulls, commits exactly when the result keeps every promise |
| `ProxySafety.DeletePoolExact` | backend/app/services/upstream.py:216-231 | deleting a pool commits exactly when the rest keeps every promise without it |
| `ProxySafety.AddBackendExact` | backend/app/services/upstream.py:234-260 | adding a server commits exactly when the result keeps every promise |
| `ProxySafety.UpdateBackendExact` | backend/app/services/upstream.py:275-304 | changing a server commits exactly when the result keeps every promise, although the method is looked at only when the backup flag is named |
| `ProxySafety.RemoveBackendExact` | backend/app/services/upstream.py:307-316 | removing an existing server always commits and leaves every promise kept |
| `ProxySafety.CreateHostExact` | backend/app/services/proxy_host.py:105-133 | creating a host with locations commits exactly when the result keeps every promise |
| `ProxySafety.UpdateHostExact` | backend/app/services/proxy_host.py:136-177 | changing a host, with or without replacing its locations, commits exactly when the result keeps every promise |
| `ProxySafety.DeleteHostExact` | backend/app/services/proxy_host.py:180-189 | deleting an existing host always commits and leaves every promise kept |
| `ProxySafety.CreateStreamExact` | backend/app/services/stream.py:74-93 | creating a stream commits exactly when the result keeps every promise |
| `ProxySafety.UpdateStreamExact` | backend/app/services/stream.py:96-124 | changing a stream commits exactly when the result keeps every promise |
| `ProxySafety.DeleteStreamExact` | backend/app/services/stream.py:127-136 | deleting an existing stream always commits and leaves every promise kept |
| `ProxySafety.DeletePageExact` | backend/app/services/custom_page.py:71-77 | a page is deleted exactly when it exists and no location, instance setting or error code serves it, which is exactly when the result keeps every promise |
| `ProxySafety.SetSlotExact` | backend/app/services/instance_settings.py:50-113 | binding the default site, the ban page or the maintenance page commits exactly when the page exists, and the default site needs one named |
| `ProxySafety.ReplaceErrorPagesExact` | backend/app/services/error_page.py:36-58 | replacing the error pages commits exactly when every code's page is named and exists |
| `ProxySafety.MoreCertificatesExact` | backend/app/services/certs/service.py:42-118 | obtaining a certificate, or its files, always commits and keeps every promise |
| `ProxySafety.DeleteCertificateExact` | backend/app/services/certs/service.py:121-133 | deleting a certificate commits exactly when it exists, takes it from its hosts and streams and keeps every promise |
| `CommittedRows.PoolCreated` | backend/app/services/upstream.py:163-183 | a new pool has the attributes asked for and exactly the servers given, in order, under an id never used; nothing else changes |
| `CommittedRows.PoolUpdated` | backend/app/services/upstream.py:208-213 | an updated pool keeps its servers, takes the named attributes and keeps the others; no other row moves |
| `CommittedRows.PoolDeleted` | backend/app/services/upstream.py:216-231 | a deleted pool goes with its servers, and nothing else |
| `CommittedRows.BackendAdded` | backend/app/services/upstream.py:248-260 | an added server stands under a number its pool never used, beside all the others as they were |
| `CommittedRows.BackendUpdated` | backend/app/services/upstream.py:275-304 | an updated server takes the named fields, and every other server of its pool and every other row stays |
| `CommittedRows.BackendRemoved` | backend/app/services/upstream.py:307-316 | after removing a server its pool has exactly the others, each as it was, and everything else is unchanged |
| `CommittedRows.HostCreated` | backend/app/services/proxy_host.py:105-133 | a new host is the row asked for, under an id never used; nothing else changes |
| `CommittedRows.HostUpdated` | backend/app/services/proxy_host.py:136-177 | only the one host changes, by its merge |
| `CommittedRows.HostDeleted` | backend/app/services/proxy_host.py:180-189 | a deleted host goes, and nothing else |
| `CommittedRows.StreamCreated` | backend/app/services/stream.py:74-93 | a new stream is the row asked for, under an id never used; nothing else changes |
| `CommittedRows.StreamUpdated` | backend/app/services/stream.py:96-124 | only the one stream changes, by its merge |
| `CommittedRows.StreamDeleted` | backend/app/services/stream.py:127-136 | a deleted stream goes, and nothing else |
| `CommittedRows.PageCreated` | backend/app/services/custom_page.py:42-52 | exactly one page more, and nothing else changes |
| `CommittedRows.PageDeleted` | backend/app/services/custom_page.py:71-77 | exactly one page less, and nothing else changes |
| `CommittedRows.SlotSet` | backend/app/services/instance_settings.py:50-113 | the setting is bound to the page asked for, or to none when it shows none; the other settings and all rows stay |
| `CommittedRows.ErrorPagesReplaced` | backend/app/services/error_page.py:54-58 | exactly the codes given are bound, each to its page; nothing else changes |
| `CommittedRows.CertificateCreated` | backend/app/services/certs/service.py:42-118 | one certificate more, with its files on disk or not, under an id never used |
| `CommittedRows.CertificateIssued` | backend/app/services/certs/service.py:85-118 | its files are on disk, and nothing else changes |
| `CommittedRows.CertificateDeleted` | backend/app/services/certs/service.py:121-133 | it is taken off exactly the hosts and streams that had it, and nothing else of them changes |
| `CommittedRows.OrderlyMeans` | backend/app/services/upstream.py:57-82 | what the promises are, row by row: server addresses, balancing methods, targets, locations, ports, references and contexts |
| `CommittedRows.RefusalsMean` | backend/app/services/stream.py:82-93 | a write is told its row is missing exactly when it is, and its port taken exactly when another stream has it |
| `CommittedRows.InvalidPoolMeans` | backend/app/services/upstream.py:156-304 | creating a pool or writing a server is told its configuration is invalid exactly for ip_hash outside http, or a backup beside a hashing or random method |
| `CommittedRows.InvalidPoolUpdateMeans` | backend/app/services/upstream.py:186-207 | changing a pool is told so exactly for the same, or when the new context drops one in which a host, a location or a stream uses the pool |
| `CommittedRows.RefusedWith` | backend/app/services/proxy_host.py:105-177 | which error each kind of write reports otherwise |
| `CommittedRows.FlushRefusal` | backend/app/services/proxy_host.py:159-177 | replacing a host's locations surfaces the raw constraint error exactly when its references are good and the host without locations would be refused |
| `ProxySafety.LocationChecks` | backend/app/services/proxy_host.py:67-87 | the location checks are exactly the foreign keys and contexts of the locations |
| `ProxySafety.UpstreamCheck` | backend/app/services/proxy_host.py:38-60 | the pool check is exactly existence and usability in that context |
| `ProxySafety.CountsDecide` | backend/app/services/upstream.py:85-126 | counting hosts, locations and streams decides whether a new context would strand any reference |
| `ProxySafety.ContextChangeIff` | backend/app/services/upstream.py:85-107 | a context change alone is refused exactly when it rules out the method or drops a context some host, location or stream needs; widening is refused only for ip_hash |
| `ProxySafety.DeletedIffUnnamed` | backend/app/services/upstream.py:216-231 | a pool is deleted exactly when no host, location or stream names it, and is otherwise reported in use |
| `ProxySafety.HalfTargetIsCaughtByTheCommit` | backend/app/models/proxy_host.py:53-57 | a host with a pool and half a direct target passes the service's checks and is refused by the constraint alone |
| `ProxySafety.RunIsOrderly` | backend/app/services/upstream.py:57-126 | every run of writes from an empty database, refused ones included, keeps every promise of the services and every constraint |
| `ProxySafety.RunKeepsPromises` | backend/app/services/upstream.py:57-126 | over every run: ip_hash pools are http-only, no hash, ip_hash or random pool has a backup, every named pool exists and may be used there, every host and stream has exactly one target, incoming ports are unique |
| `ConfigStore.ConfigStore.constructor` | backend/app/services/upstream.py:145-154 | an empty store keeps every promise |
| `ConfigStore.ConfigStore.UpdatePool` | backend/app/services/upstream.py:186-213 | field-by-field update of a pool: commits exactly the requested row or reports the right error and changes nothing, and keeps every promise |
| `ConfigStore.ConfigStore.UpdateBackend` | backend/app/services/upstream.py:275-304 | the same for a server of a pool |
| `ConfigStore.ConfigStore.UpdateHost` | backend/app/services/proxy_host.py:136-177 | the same for a host, with the locations emptied and flushed before they are replaced |
| `ConfigStore.ConfigStore.UpdateStream` | backend/app/services/stream.py:96-124 | the same for a stream |
| `ConfigStore.PoolMergeMeans` | backend/app/services/upstream.py:208-210 | an update fails exactly when it names a required field null; otherwise named fields take their values and everything else, the servers included, stays; nothing else has this property |
| `ConfigStore.BackendMergeMeans` | backend/app/services/upstream.py:296-299 | the same for a server of a pool |
| `ConfigStore.HostMergeMeans` | backend/app/services/proxy_host.py:156-168 | the same for a host, whose locations are replaced in full or kept |
| `ConfigStore.StreamMergeMeans` | backend/app/services/stream.py:116-119 | the same for a stream |
| `DesiredConfig.ByPathIsTheOrder` | backend/app/services/nginx/loader.py:173-173 | a host's locations are read in the one order of their paths, none lost or repeated |
| `DesiredConfig.ServesMeans` | backend/app/services/nginx/loader.py:160-167 | a target can be served when it names no pool, or a pool that is enabled and has an enabled server |
| `DesiredConfig.BlockMeans` | backend/app/services/nginx/loader.py:106-125 | the block of a pool has its method and exactly its enabled servers |
| `DesiredConfig.HostSpecMeans` | backend/app/services/nginx/loader.py:172-234 | a rendered host carries its own row, and of its locations exactly those not for a pool and those whose pool can serve |
| `DesiredConfig.LoadLocations` | backend/app/services/nginx/loader.py:172-204 | the location loop keeps, by path, exactly the locations whose pool can serve, and has read every pool a kept one names |
| `DesiredConfig.LoadHosts` | backend/app/services/nginx/loader.py:152-242 | the host loop renders exactly the enabled hosts that can be served and exactly the pool blocks they name; the final lookup never misses |
| `DesiredConfig.LoadStreams` | backend/app/services/nginx/loader.py:436-491 | the same for streams, whose blocks are separate |
| `DesiredConfig.StreamRenderedIff` | backend/app/services/nginx/loader.py:436-491 | a stream is rendered, with its own row, exactly when it is enabled and its target can be served |
| `Rendering.ServersApart` | backend/app/templates/nginx/server.conf.j2:142-240 | no prefix location is repeated in any server of a host if and only if none of its locations is at the root, nor at the certificate challenge path where port 80 proxies |
| `Rendering.TakenIff` | infra/nginx/nginx.conf:189-259 | a TCP port is taken before any stream exactly when the base configuration or the reload agent listens on it, or it is 443 and a rendered host has a certificate or something else listens there |
| `Rendering.HttpAcceptedIff` | backend/app/services/nginx/loader.py:236-242 | the http rendering of a database that keeps the promises is accepted (every name defined there, no block unused, one target each, a primary server in each block, no weight of zero, no backup beside a hashing method, no location twice in a server, three-digit statuses, certificates on disk) if and only if every pool named by a rendered host or location is primed and every rendered host clear |
| `Rendering.StreamAcceptedIff` | backend/app/services/nginx/loader.py:436-491 | the stream rendering is accepted (names and blocks as above, no ip_hash, each port once and none already taken, certificates on disk) if and only if every pool named by a rendered stream is primed and every rendered stream clear |
| `Rendering.AcceptedIff` | backend/app/services/nginx/loader.py:128-260 | both together, on the rows alone |
| `Rendering.EveryRunAcceptedIff` | backend/app/services/nginx/loader.py:128-260 | and so after every run of writes |
| `BreakingWrites.UnprimedPoolIsRendered` | backend/app/templates/nginx/upstream.conf.j2:9-11 | an input on which it fails: any pool whose one server has weight zero or is a backup passes every check, and a host on it makes the rendering refused |
| `BreakingWrites.RepeatedLocationIsRendered` | backend/app/templates/nginx/server.conf.j2:142-155 | another: a location at the challenge path, or at the root, of a host without a certificate |
| `BreakingWrites.TakenPortIsRendered` | backend/app/models/stream.py:29-29 | another: a TCP stream on a port already listened on |
| `BreakingWrites.PendingCertificateIsRendered` | backend/app/services/nginx/loader.py:273-285 | another: a host given a certificate that is not issued yet |
| `BreakingWrites.BreakingWrite` | backend/app/services/upstream.py:57-74 | a write that turns an accepted rendering into a refused one leaves a pool in service unprimed after changing its servers or bringing it into service, or touches a host or a stream (its row, its certificate, its pools, or for port 443 some host) that is then not clear |
| `BreakingWrites.HarmlessWrite` | backend/app/services/upstream.py:145-231 | creating a pool, deleting a pool, host, stream or page, binding pages and obtaining certificates never do; deleting a certificate can |
| `DesiredConfig.RenderedIff` | backend/app/services/nginx/loader.py:155-184 | an enabled host is dropped only because its pool cannot serve, and a location of it likewise |
| `Totp.VerifyTotp` | backend/app/services/totp.py:71-91 | the offset loop returns the earliest step next to the clock's, later than the last accepted one, whose code was typed, and nothing when there is none |
| `Totp.Matched` | backend/app/services/totp.py:71-91 | acceptance is exactly the existence of such a step, and the accepted one is the earliest |
| `Totp.AppCodeAccepted` | backend/app/services/totp.py:82-91 | the code an app shows at its own second t is accepted when t is within a time-step of the server's clock and past the last accepted step |
| `Totp.AcceptedCode` | backend/app/services/totp.py:82-91 | whatever is accepted as step k is the code generated for second 30k |
| `Totp.FirstMatch` | backend/app/services/totp.py:198-206 | a recovery code is accepted exactly when an unused row verifies it, and takes the first such row |
| `Totp.NewRowsAre` | backend/app/services/totp.py:143-148 | new recovery rows hold the given hashes in order, unused, under fresh ids |
| `Totp.TwoFactor.StartEnrolment` | backend/app/services/totp.py:106-117 | a new pending secret, refused while two-factor is on |
| `Totp.TwoFactor.ConfirmEnrolment` | backend/app/services/totp.py:120-140 | enabling needs a pending secret and a code of it; a wrong code changes nothing |
| `Totp.TwoFactor.ReplaceRecoveryCodes` | backend/app/services/totp.py:143-148 | all old rows go, and the new ones are unused rows with ids never given out before |
| `Totp.TwoFactor.MintRecoveryCodes` | backend/app/services/totp.py:151-158 | new codes and a new token version, only while two-factor is on |
| `Totp.TwoFactor.VerifyCode` | backend/app/services/totp.py:180-206 | the shape decides the path; a time-step is remembered, a recovery row is marked used, and a refusal changes nothing |
| `Totp.TwoFactor.TurnOff` | backend/app/services/totp.py:212-226 | secret, remembered step and codes go and the token version rises, only while two-factor is on |
| `Totp.StartMeans` | backend/app/services/totp.py:106-117 | starting leaves a pending secret and no remembered step, and keeps the version and codes |
| `Totp.ConfirmMeans` | backend/app/services/totp.py:120-140 | confirming turns the factor on exactly for a code of the pending secret, remembers its step, raises the version and leaves exactly the given recovery codes, unused |
| `Totp.VerifyMeans` | backend/app/services/totp.py:180-206 | a shaped code moves only the remembered step, any other uses up only the first unused row that it opens, and a refused one nothing |
| `Totp.MintMeans` | backend/app/services/totp.py:151-158 | minting leaves exactly the given recovery codes, unused, and raises the version |
| `Totp.DisableMeans` | backend/app/services/totp.py:212-226 | after disabling neither a code nor a recovery code nor a confirmation answers |
| `Totp.RunKeepsInv` | backend/app/services/totp.py:106-226 | the remembered step and the used rows tell the truth about everything accepted, over every run and every clock |
| `Totp.ReplayGuard` | backend/app/services/totp.py:71-91 | between two resets accepted steps strictly increase even if the clock goes back, each is next to the clock's step, and no recovery row is ever accepted twice |
| `Totp.PendingNeverVerifies` | backend/app/services/totp.py:180-186 | over every run, whatever code is accepted is accepted under a secret that an earlier confirmation proved: a pending secret answers to no code |
| `Totp.HonestCodesWork` | backend/app/services/totp.py:85-91 | no honest code is refused: one generated for an admissible step, or an unused recovery code, is accepted |
| `Accounts.RefusedIffNoAdminLeft` | backend/app/services/user.py:199-232 | for another user, a change is refused if and only if it would leave no active admin |
| `Accounts.NobodyHarmsThemselves` | backend/app/services/user.py:217-223 | over every run, an account that nobody else changes stays, in its role, and active if it was: nobody demotes, switches off or deletes themselves |
| `Accounts.ProtectedKeepsAdmin` | backend/app/services/user.py:225-232 | a permitted change leaves an active admin |
| `Accounts.OwnRefusals` | backend/app/services/user.py:217-223 | to oneself exactly deletion, another role and switching off are refused, each with its own reason |
| `Accounts.ChangedMeans` | backend/app/services/user.py:253-266 | a permitted change sets the named fields of one row, or removes it, and leaves every other row |
| `Accounts.NewRowsMean` | backend/app/services/user.py:54-165 | a created, invited or seeded account stands under an id never used, active and invited as it should be, without a second factor |
| `Accounts.RowsMean` | backend/app/services/user.py:113-298 | setting a password or ending sessions raises one account's version only; accepting an invitation also activates an invited row and no other |
| `Accounts.AdminAlwaysRemains` | backend/app/services/user.py:189-305 | from any state with an active admin, every run of account and session steps ends with one |
| `Accounts.VersionStep` | backend/app/services/user.py:269-298 | a step raises an account's token version by one exactly when it changes its password or protection or accepts its invitation, and never otherwise |
| `Accounts.VersionCounts` | backend/app/services/user.py:269-298 | over every run the token version counts those steps |
| `Accounts.HonouredIff` | backend/app/api/routes/auth.py:150-158 | a token is honoured at any time after any further run if and only if it has not expired, its account still exists, is active (and admin, for live logs) and none of those steps happened; switching an account off and on again does not end its sessions |
| `Accounts.LoginMints` | backend/app/api/routes/auth.py:66-81 | logging in mints one token exactly for an active account and its password: a five-minute challenge with two-factor on, else a refresh token; otherwise nothing changes |
| `Accounts.AnswersIff` | backend/app/api/routes/auth.py:110-114 | a code answers for an account exactly when two-factor is on and it is the code of an admissible later time-step, or opens an unused recovery row |
| `Accounts.MfaMints` | backend/app/api/routes/auth.py:97-126 | a challenge mints a refresh token exactly when it is live and the code answers for the account it names, whose second factor records the code; otherwise nothing changes |
| `Accounts.OthersMint` | backend/app/api/routes/auth.py:129-158 | a passkey, a refresh and a live ticket mint exactly for a live token, or an active admin, at the account's version; a refresh hands on whether a second factor was accepted |
| `Accounts.FactorSteps` | backend/app/api/routes/auth.py:84-126 | a step of the second factor happens to the account it is for and to nothing else |
| `Accounts.RevokedForGood` | backend/app/services/live_logs.py:219-226 | after such a step no refresh token, challenge or live ticket minted before it is ever honoured again |
| `Accounts.MintedOk` | backend/app/api/routes/auth.py:54-158 | every token is minted at its account's current version, a challenge only with two-factor on, and a refresh token of such an account only through a second factor |
| `Accounts.SecondFactorHolds` | backend/app/api/routes/auth.py:73-81 | with two-factor on, every refresh token still honoured was reached through an accepted second factor |
| `Accounts.SecondIsEarned` | backend/app/api/routes/auth.py:84-158 | and goes back, through any number of refreshes, to a step at which a live challenge of that account, at the token's version, was answered by a code of an admissible later time-step, an unused recovery code or a passkey |
| `Accounts.NoCodeTwice` | backend/app/api/routes/auth.py:97-126 | over every run, the time-steps an account logs in with strictly increase until its second factor is set up anew or disabled: no code logs in twice, on any challenge and under any clock |
| `Accounts.FactorVersion` | backend/app/services/totp.py:133-139 | confirming, minting codes and disabling raise the version by one; starting and verifying do not |
| `Accounts.UserTable.EnsureFirstAdmin` | backend/app/services/user.py:134-165 | an admin is seeded exactly when credentials are given and there is no user at all |
| `Accounts.UserTable.AcceptInvitation` | backend/app/services/user.py:113-126 | an invited row becomes active and uninvited in one write, with a new token version; any other row is left alone |
| `Accounts.UserTable.CheckLockout` | backend/app/services/user.py:199-232 | the rules are checked in their order |
| `Accounts.UserTable.UpdateUser` | backend/app/services/user.py:235-266 | the protected change is made, and the reported changes are exactly the fields that differ, before and after |
| `Accounts.UserTable.DeleteUser` | backend/app/services/user.py:301-305 | the row goes exactly when the rules allow it |
| `Accounts.UserTable.SetPassword` | backend/app/services/user.py:280-298 | a new password ends the account's sessions and touches no other account |

## Left out

- HTML tokenising: the checker starts from start- and end-tag events, as the library's parser calls it.
- The wording of editor, grep and checker messages, `read_lines` and the numbered listing.
- UTF-8 decoding of event chunks, reconnecting, the backoff and the stop flag: only the text of one connection is modelled.
- JSON: an event's payload is read and printed by parameters.
- The session's ticks, pings, rechecks and the ending of a session by a failed send.
- RateLimiter.RateLimiter.AllowLine: times are reals, so floating-point rounding is not modelled.
- Rendering of whitelist files, their digest function and the docker calls: parameters or outcomes of a call.
- WhitelistApply.WhitelistHost.ApplyToDisk: does not model a process dying half way or a failing file write.
- ApplyOrder.FilesNewestIff: takes every committed write to queue an apply; a queue that loses one is not modelled.
- Propagation.RunKeepsOrder: takes each apply's file change, reload and version bump as one step, as its lock and transaction make them; half-written shared files are not modelled, and notifying peers is only a reconcile starting early.
- The single-node apply, the engine's file handling and the nginx template text.
- Pruning, retention dates, country lookup and counters that do not parse: easy, or foreign.
- VisitorDrain.DrainConserves: is about one flusher; two at once are not modelled.
- Apr1.ComputeDigest: MD5 and UTF-8 are parameters, so nothing is said about particular hash values.
- Access lists, redirections, dead hosts, domain names, names and descriptions: they take no part in the modelled rules. Of a certificate only its existence and whether its files are on disk are modelled, so renewal changes nothing.
- The create, delete, page-binding and certificate operations of the configuration services are modelled on values (`ProxyConfig.Execute`), not in place; a session's row objects are not shared beyond one call.
- Two requests writing the configuration database at once; they are modelled one at a time.
- Rendering.AcceptedIff: knows no other rule of nginx: whether host names resolve, whether certificate files hold what they should, table sizes, and whether the texts of domain names, paths, allow lists and raw directives are well formed; nor the servers of redirections, dead hosts and the default site, except that they may listen on 443.
- BreakingWrites.BreakingWrite: takes what else listens on 443 to be the same before and after the write.
- Request schemas: the constraints of the database and the services' checks are modelled without them.
- Email addresses and their uniqueness, mail, invitations' and resets' one-time links, request limits and audit rows.
- Totp.VerifyTotp: the shape test of a typed code is a parameter, so digits outside ASCII are not modelled.
- Passkeys: whether an assertion is good is an outcome of the step; their storage and challenges are not modelled.
- Accounts.HonouredIff: does not model access tokens, which are not checked against the version, nor the signing library's own check of a token's issue time.
- Concurrent redemption and concurrent admin edits: steps run one at a time.
