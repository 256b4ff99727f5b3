# FileES: protocols and planners, modelled and proved in Dafny

This project models the parts of FileES that keep state which has to survive crashes,
interleavings or arbitrary answers, and proves what they promise over every run, every
interleaving and every tree.  `dafny verify dfyconfig.toml` checks all of it.

| files | what they model |
|---|---|
| `RecoveryModel`, `RecoveryProtocol`, `RecoveryCopies`, `RecoveryRun` | replacing a damaged working copy: a durable receipt, directory renames, and a run that may fail, crash or meet an edit anywhere |
| `NwcTree`, `NwcReverse`, `NwcPublish` | reconciling a plain directory with the repository, in both directions, without a working copy |
| `DomainCatalogues` | the cache of the daemon's message catalogues: switches, reconnects and late replies |
| `PromptService` | one prompt window shared by all callers, with delayed hides under two locks |
| `AnchorPaths`, `AnchorScan`, `AnchorPlan`, `PlanCache` | planning a folder download or release, the fingerprint that binds a confirmation, and the bounded cache of plans |
| `FolderAvailability` | whether the content of a folder is local, remote or both |
| `FolderExecution`, `ReleaseQueue` | executing an approved plan against a daemon that may answer anything |
| `CliUpdate` | installing a release under an anti-rollback watermark, interrupted anywhere |
| `DisplayRecovery` | when a display counts as lost, and the durable budget for restarts |
| `Basics`, `Paths` | shared types, and listings of paths by depth |

## How the model is built

- **State that the source changes step by step** is a class: its methods are the source's
  critical sections, loops and calls, and their contracts tie the new state to the old.
- **Concurrency** is a set of atomic steps.  The steps are functions on the state, a run is a
  sequence of them in which each was possible, and the theorems are about all runs.
- **Crashes and failures** are choices of the environment: for the recovery every call may
  fail or be the last, before or after it took effect, and the user may edit the working copy
  before any of them, whichever tree is there; the
  installer stops after any number of its writes.  Every rename and every replacement of a
  file is one atomic durable step.
- **The network, the daemon, the clock and helpers** are parameters that may answer anything.
- **Shared definitions** are spelled out.  Where a loop and its contract use one definition, a
  lemma or a second clause says the same by paths, entries, fields and literal limits, so neither
  can drift with the other.
- **Digests** are the values they are computed from, so they are injective by construction.

## Where the code does less than it seems to promise

- *Recovery can be stranded, in two ways.*  An edit between the last content check and the move
  of the original leaves an archive that no longer matches the receipt; every later run refuses,
  whatever happens (`RecoveryRun.LateEditStrands`).  An edit of the checkout just put in place,
  before "done" is recorded, makes every later run refuse until the user undoes it
  (`RecoveryRun.EarlyEditSpoils`, with the exact edits).  `RecoveryRun.Recovery.Run` shows that
  these are the only situations from which an undisturbed run reaches neither "done" nor "failed",
  sparse attachments apart: for those every run refuses and changes nothing
  (cmd/filees/commit_rebuild.go:587).  `RecoveryRun.Recovery.Restart` shows that accepted decisions
  do resume: started again after every stop and refusal, recovery settles every job, and without
  edits always with "done" or "failed".
- *"done" does not mean the checkout in place is clean.*  After the move the run records "done"
  without looking again, so an edit in between ends up under it (`RecoveryProtocol.DoneOverEdit`).
  The checkout that was moved in was clean with complete copies, and what is in place differs from
  it by the user's edits alone (`RecoveryProtocol.OutcomeMeansWhatItSays`); it is clean exactly if
  there was no edit since the move (`RecoveryProtocol.UntouchedIsReady`) or the last one left it so
  (`RecoveryProtocol.LastEditDecides`).
- *Catalogue generations can mix* when a catalogue has no generation id:
  `DomainCatalogues.UnnamedGenerationsMix`; `DomainCatalogues.KeepsOneGeneration` gives the
  exact condition.
- *An empty stored path list plans everything again,* because its copy arrives as none:
  `AnchorPlan.ReplanKeepsMembership` has the exact condition.  The daemon stores only plans
  with at least one file (cmd/filees/explorer_anchor_batch_windows.go:183).
- *Four restarts never, three can* fall into fifteen minutes:
  `DisplayRecovery.AtMostThree`, `DisplayRecovery.ThreeAreReached`.

## Model

| member | source | states |
|---|---|---|
| `RecoveryModel.Rename` | cmd/filees/commit_rebuild.go:747 | renaming a top-level directory yields exactly the tree in which every path below the old name has moved, and nothing else changed |
| `RecoveryModel.RenameTopRoundTrip` | cmd/filees/commit_rebuild.go:565-747 | retiring the metadata and restoring it gives back the tree exactly |
| `RecoveryModel.SnapshotSurvivesRetirement` | cmd/filees/commit_rebuild.go:242-312 | the content proof taken after `.filees` was retired to its disabled name equals the proof taken before, including when either is refused |
| `RecoveryModel.SnapshotMeans` | cmd/filees/commit_rebuild.go:242-306 | there is a content proof exactly when no entry outside `.svn` and the metadata is a symbolic link or is named `.svn` or `.filees`, those two are directories if they are there, and the five bound files are plain or absent; it then holds exactly the remaining entries as they are |
| `RecoveryModel.SnapshotBinds` | cmd/filees/commit_rebuild.go:238-306 | two proofs are equal exactly when the trees agree on every user entry and on each of the five bound files, or its absence |
| `RecoveryModel.CheckoutMeans` | cmd/filees/commit_rebuild.go:474-506 | a checkout passes exactly when URL, repository id and revision are the receipt's, no entry of the revision is missing or changed, and there is no other but below the copies directory once the marker is there |
| `RecoveryModel.MarkedMeans` | cmd/filees/commit_rebuild.go:511-530 | the marker counts exactly when it is a plain file that holds this job, whatever stage it names |
| `RecoveryModel.CopiesMean` | cmd/filees/commit_rebuild.go:532-541 | the copies are verified exactly when below their directory a content proof can be taken and each path holds exactly the user entry the receipt binds for it |
| `RecoveryModel.ReadyMeans` | cmd/filees/commit_rebuild.go:679-687 | all checks of a checkout together, entry by entry |
| `RecoveryModel.ReadyIgnoresStage` | cmd/filees/commit_rebuild.go:511-541 | no check of a checkout, its copies or its marker depends on the stage recorded meanwhile, so a resumed run judges as the interrupted one did |
| `RecoveryProtocol.StepKeepsInv` | cmd/filees/commit_rebuild.go:582-779 | every durable step the run may take, every edit by the user and every new acceptance keeps the protocol invariant |
| `RecoveryProtocol.RunKeepsInv` | cmd/filees/commit_rebuild.go:582-779 | the invariant holds in every state of every sequence of such steps |
| `RecoveryProtocol.OriginalNeverLost` | cmd/filees/commit_rebuild.go:582-779 | in every state of every run, edits at any moment included, exactly one of the working copy and the job's archive holds the original user tree, and earlier archives are untouched |
| `RecoveryProtocol.OutcomeMeansWhatItSays` | cmd/filees/commit_rebuild.go:546-779 | "done" means that what was put in place carries this job's marker, has the receipt's URL, repository id and revision with every reported entry unchanged, and holds every bound user entry below its copies directory; what is there now differs from it by the user's edits alone and still is such a replacement exactly when those left it clean; the archive is the original with `.filees` restored.  "failed" means the original is in place with `.filees` and there is no archive |
| `RecoveryProtocol.UntouchedIsReady` | cmd/filees/commit_rebuild.go:688-703 | without an edit since the move the checkout in place is ready, whatever the receipt says |
| `RecoveryProtocol.LastEditDecides` | cmd/filees/commit_rebuild.go:688-703 | with edits since, it is ready exactly when the last edit left the user's entries clean and the copies complete |
| `RecoveryProtocol.DoneOverEdit` | cmd/filees/commit_rebuild.go:693-702 | for every move into place and every edit right after it both receipts are written, and the checkout under "done" is ready exactly when that edit was clean |
| `RecoveryModel.ReadyIffUserClean` | cmd/filees/commit_rebuild.go:474-541 | a checkout that was ready is ready after edits exactly when the user's entries match the revision apart from unversioned ones beside the copies, and the copies are complete |
| `RecoveryProtocol.OnlyTheUserChangesTheOriginal` | cmd/filees/commit_rebuild.go:582-779 | between any two states of a run only an edit of the original at its place or a new acceptance changes what the original is, and archives kept earlier stay |
| `RecoveryProtocol.EditKeepsInv` | cmd/filees/commit_rebuild.go:582-779 | an edit of the working copy at any moment, before the original is moved or after the checkout is in place, keeps the invariant |
| `RecoveryCopies.AllCopied` | cmd/filees/commit_rebuild.go:640-649 | the copy loop, run over the whole listing, yields the fresh tree with the user tree grafted below the copies directory |
| `RecoveryCopies.CopiesProve` | cmd/filees/commit_rebuild.go:532-649 | the digest of the preserved copies equals the user digest bound in the receipt |
| `RecoveryCopies.PreparedIsReady` | cmd/filees/commit_rebuild.go:633-678 | a checkout with copies, metadata and marker passes every check made before it may take the original's place |
| `RecoveryRun.Recovery.Do` | cmd/filees/commit_rebuild.go:582-779 | a durable step meets the disk as the user left it and takes effect exactly as the call's fate says, which is also the reply |
| `RecoveryRun.Recovery.RestoreMetadata` | cmd/filees/commit_rebuild.go:546-570 | success leaves no disabled name, the archive then being exactly the tree with `.filees` back; undisturbed it always succeeds |
| `RecoveryRun.Recovery.CopyUserFiles` | cmd/filees/commit_rebuild.go:640-649 | undisturbed, with staging that can take the copies, the loop succeeds and staging holds exactly the grafted tree |
| `RecoveryRun.Recovery.CopyOne` | cmd/filees/commit_rebuild.go:415-649 | success means staging gained exactly this entry: a directory, or a file where nothing was, below directories there or made, with bytes equal to the plan's and to those found; undisturbed a copyable entry succeeds |
| `RecoveryRun.Recovery.Prepare` | cmd/filees/commit_rebuild.go:613-678 | a job leaves "accepted" only if the checkout matched the receipt and was clean, brought no copies directory of its own, and the original was then found with the receipt's content proof; success means "prepared"; undisturbed and with favourable answers it succeeds with a ready checkout |
| `RecoveryRun.Recovery.VerifyStaging` | cmd/filees/commit_rebuild.go:679-687 | success implies that the staged checkout is a replacement, entry by entry: marker, URL, repository id, revision, unchanged entries, complete copies; undisturbed, exactly then |
| `RecoveryRun.Recovery.CheckOriginal` | cmd/filees/commit_rebuild.go:708-732 | nothing is changed by the checks; success means the head is the receipt's, the content proof was found, then the writer record, and the owner is the receipt's unless the metadata was retired before; undisturbed they pass exactly then |
| `RecoveryRun.Recovery.RetireUnderLease` | cmd/filees/commit_rebuild.go:735-757 | success means the receipt says the metadata is disabled and the original has not moved |
| `RecoveryRun.Recovery.RetireAndArchive` | cmd/filees/commit_rebuild.go:704-766 | success means the original is in the archive and nothing at its place |
| `RecoveryRun.Recovery.MoveOut` | cmd/filees/commit_rebuild.go:704-777 | the original is in the archive afterwards, if it was at its place before, only when the checks justified it; undisturbed an archived one passes exactly unless it is stranded |
| `RecoveryRun.Recovery.ResumeArchived` | cmd/filees/commit_rebuild.go:767-777 | undisturbed it succeeds exactly when the archive is what the receipt binds |
| `RecoveryRun.Recovery.InstallStaged` | cmd/filees/commit_rebuild.go:688-703 | success means "done", edits between the move and the receipts included; undisturbed it always succeeds; when the move fails the original is moved back, so a refusal that leaves nothing at its place means the move and the move back both failed |
| `RecoveryRun.Recovery.FinishSwapped` | cmd/filees/commit_rebuild.go:592-603 | an already completed swap is recorded "done" only after it was found with the receipt's URL, repository id, revision and unchanged entries and then, or later, with every bound entry among its copies; undisturbed it succeeds exactly for a ready checkout, and without edits a spoilt one stays as it is |
| `RecoveryRun.Recovery.Cleanup` | cmd/filees/commit_rebuild.go:604-612 | undisturbed, a refused run that left the original in place ends "failed", any other refusal changes nothing |
| `RecoveryRun.Recovery.Run` | cmd/filees/commit_rebuild.go:582-779 | under any failures, crashes and edits a run takes only guarded steps; success means "done"; an original that was at its place is archived or replaced only after its content proof, then its writer record, were found as bound with the receipt's head; a job leaves "accepted" other than as "failed" only with a checkout and an original as bound; undisturbed from here on, whatever happened before, it ends "done" or "failed" exactly unless the state is stranded or spoilt, and a completable one ends "done"; a stranded state stays so whatever happens, a spoilt one unless the user edits; a sparse attachment is refused and left alone; it is stopped exactly if one of its calls was, and a run of an unfinished job makes at least one unless the attachment is sparse |
| `RecoveryRun.Recovery.Restart` | cmd/filees/commit_rebuild.go:571-603 | once the calls that fail, stop or meet an edit are over, started once more for each of them and once again, recovery has ended the job or it is stranded or spoilt; without edits it has ended it |
| `RecoveryRun.Recovery.Undamaged` | cmd/filees/commit_rebuild.go:582-779 | without edits no state of any sequence of runs, failures and stops is stranded or spoilt |
| `RecoveryRun.StoppedThenRestarted` | cmd/filees/commit_rebuild.go:571-603 | a run stopped at its first call replies so, and the next one ends the job "done" or "failed" |
| `RecoveryRun.Recovery.Accept` | cmd/filees/commit_rebuild.go:385-413 | the receipt is written exactly for an unexpired plan whose writer and snapshot still hold while no other job is active |
| `RecoveryRun.LateEditStrands` | cmd/filees/commit_rebuild.go:735-777 | whenever the original is about to be archived, exactly the edits that leave another content proof than the receipt's, or none, strand it, among them one that leaves a symbolic link alone |
| `RecoveryRun.EarlyEditSpoils` | cmd/filees/commit_rebuild.go:592-702 | whenever the checkout has just been put in place, exactly the edits that leave it unclean spoil it, among them every new file outside the copies |
| `RecoveryRun.SpoiltMeans` | cmd/filees/commit_rebuild.go:592-603 | a checkout in place is spoilt exactly when it is no replacement, entry by entry |
| `NwcReverse.LocalDirectory.Stage` | cmd/filees-client/nwc_reverse.go:24-55 | all files of the revision are staged with their bytes, and the unchanged ones are exactly those already there, unless a call fails, which is then the last |
| `NwcReverse.LocalDirectory.RemoveObstructions` | cmd/filees-client/nwc_reverse.go:56-78 | what is left was there before with the same bytes; an entry the revision has in the same kind is never taken away, however far it gets; completed, nothing else is left and the count is that of the paths the revision lacks or has in the other kind; no removal meets a directory with entries |
| `NwcReverse.LocalDirectory.MakeDirectories` | cmd/filees-client/nwc_reverse.go:79-93 | every directory of the revision exists afterwards and only directories were added |
| `NwcReverse.LocalDirectory.WriteFiles` | cmd/filees-client/nwc_reverse.go:94-103 | the tree becomes the revision's, and the count is that of the files that differed |
| `NwcReverse.LocalDirectory.ReverseReconcile` | cmd/filees-client/nwc_reverse.go:18-106 | it completes exactly if none of its calls fails, and the first that does is its last; completed, the local tree equals the repository tree in paths, kinds and bytes, with the exact numbers of files that were absent or different and of entries that were absent from the revision or of the other kind; wherever it stopped, every entry both have in one kind is still there with its former or the wanted bytes, and the tree is proper and holds only former or wanted entries; a failed download changed nothing, a failed removal added nothing, a failed mkdir added no file |
| `NwcReverse.EntriesGoFirst` | cmd/filees-client/nwc_reverse.go:62-78 | deepest first, everything below an entry to be removed is already gone |
| `NwcPublish.CheckDeleted` | cmd/filees-client/nwc.go:358-365 | the walk up finds whether there is a path, this one or one above it, that was deleted and is absent |
| `NwcPublish.NeededParents` | cmd/filees-client/nwc.go:262-270 | the walk up succeeds exactly when every path above that the repository has is a directory, and then yields exactly the paths above that it has not |
| `NwcPublish.Examine` | cmd/filees-client/nwc.go:241-280 | a file is skipped exactly when it is absent, not to be restored, and it or a path above was deleted and is absent; it is up to date exactly when the repository has its bytes as first or as last read; it is in the way exactly of a directory at its path or below a file; the directories it needs are exactly the absent ones above |
| `NwcPublish.MakePlan` | cmd/filees-client/nwc.go:206-303 | the plan puts exactly the local files that differ or are absent and not left deleted, once each, with the bytes last read; it makes exactly the absent directories above them, once each, parents first; it counts exactly the files left deleted; it is refused exactly for a file at a directory of the repository or below one of its files |
| `NwcPublish.PlanIsInOrder` | cmd/filees-client/nwc.go:287-303 | every mkdir is of an absent path whose parent the repository has as a directory or an earlier mkdir makes, and the parent of every put is there by then |
| `NwcPublish.WasDeletedMeans` | cmd/filees-client/nwc.go:358-365 | the walk up by parents sees exactly the path and the paths above it |
| `NwcPublish.VerdictsMean` | cmd/filees-client/nwc.go:241-280 | skipped, in the way and changed, each by paths, kinds and bytes |
| `NwcPublish.PlanExecutes` | cmd/filees-client/nwc.go:287-312 | the action list always executes: every mkdir target is absent with its parent there, every put has its parent, and the result is the old tree plus exactly the missing ancestors and the published bytes |
| `NwcPublish.DeletedStaysAbsent` | cmd/filees-client/nwc.go:258-261 | a path that was deleted and is absent, and everything below it, is not in the published tree, whatever the local files are |
| `NwcPublish.SkippingUnchanged` | cmd/filees-client/nwc.go:258-261 | after the publication the same local files are skipped, for the same deletion history |
| `NwcPublish.ResultIsClosed` | cmd/filees-client/nwc.go:287-303 | the published tree is again one in which every entry has its parent directory |
| `NwcPublish.PublishingIsIdempotent` | cmd/filees-client/nwc.go:206-283 | planning again against the result yields no changes, no directories and the same skipped files |
| `NwcPublish.ChangesAtHead` | cmd/filees-client/nwc.go:334-356 | the confirmation succeeds exactly when every change is at head with its bytes |
| `NwcPublish.EffectIsConfirmed` | cmd/filees-client/nwc.go:312-323 | after a commit that took effect the confirmation succeeds, whatever the reply |
| `NwcPublish.ConfirmedIsPublished` | cmd/filees-client/nwc.go:312-323 | whenever the confirmation succeeds none of the planned files is left to publish |
| `DomainCatalogues.Provider.Use` | cmd/filees-gui-wails/domain_messages.go:93-120 | takes the locale without the white space around it, if anything is left, as the wanted one, and extends the run the provider has had by this switch, so every theorem about runs holds of its fields; the read dispatched, if any |
| `DomainCatalogues.Provider.Refresh` | cmd/filees-gui-wails/domain_messages.go:128-151 | extends the run by a new connection and the read for the wanted locale |
| `DomainCatalogues.Provider.Receive` | cmd/filees-gui-wails/domain_messages.go:153-197 | extends the run by a reply; the new fields, nothing but bookkeeping for a reply of an older connection |
| `DomainCatalogues.Provider.Shown` | cmd/filees-gui-wails/domain_messages.go:235-244 | once the read of the wanted locale is over and did not fail, rendering takes a catalogue that arrived on the current connection, for that locale or in it |
| `DomainCatalogues.AlwaysConsistent` | cmd/filees-gui-wails/domain_messages.go:93-197 | the invariant of reads, cache and shown catalogue holds after every interleaving |
| `DomainCatalogues.QuietMeansWanted` | cmd/filees-gui-wails/domain_messages.go:93-197 | with all reads succeeding and none of the current connection in flight, the shown catalogue arrived on it, in answer to the locale last asked for or served in it |
| `DomainCatalogues.SettledMeansWanted` | cmd/filees-gui-wails/domain_messages.go:93-197 | the same with failing reads, provided the read of the wanted locale is over and did not fail since the locale was chosen |
| `DomainCatalogues.WantedIsLastChosen` | cmd/filees-gui-wails/domain_messages.go:93-104 | after every interleaving the wanted locale is the last one chosen |
| `DomainCatalogues.LastChosenIs` | cmd/filees-gui-wails/domain_messages.go:93-104 | the last choice may be anywhere in the run, as long as no other follows it |
| `DomainCatalogues.NoneChosen` | cmd/filees-gui-wails/domain_messages.go:93-104 | before any choice the wanted locale is blank |
| `DomainCatalogues.ConnectionCounts` | cmd/filees-gui-wails/domain_messages.go:128-139 | the connection is the number of reconnects so far |
| `DomainCatalogues.MissedMeans` | cmd/filees-gui-wails/domain_messages.go:166-173 | a failure is held against the wanted locale exactly when its read on this connection failed since it was chosen and the connection made |
| `DomainCatalogues.StaysShown` | cmd/filees-gui-wails/domain_messages.go:93-197 | the catalogue in use stays, whatever happens, until a cached locale is chosen or the wanted one is answered on the current connection |
| `DomainCatalogues.CacheChangesOnly` | cmd/filees-gui-wails/domain_messages.go:128-185 | a reconnect empties the cache; an answer of the current connection is cached under the locale it is in, and keeps the others exactly when the recorded generation is unnamed or the same; nothing else changes it |
| `DomainCatalogues.PendingMeansInFlight` | cmd/filees-gui-wails/domain_messages.go:111-166 | each pending locale has exactly one read in flight on the current connection, any other has none |
| `DomainCatalogues.LateRepliesAreErased` | cmd/filees-gui-wails/domain_messages.go:158-165 | every run ends with the fields of the run, just as possible, in which no reply of an older connection ever arrived |
| `DomainCatalogues.KeepsOneGeneration` | cmd/filees-gui-wails/domain_messages.go:178-185 | a reply keeps the cache to one generation exactly unless the recorded generation is unnamed, the new one is named and another locale is cached |
| `DomainCatalogues.GenerationsNeverMix` | cmd/filees-gui-wails/domain_messages.go:178-185 | given named generations, all cached entries belong to the recorded one after every interleaving |
| `DomainCatalogues.UnnamedGenerationsMix` | cmd/filees-gui-wails/domain_messages.go:178-185 | for any two catalogues of different locales, one unnamed, there is a run that mixes them |
| `PromptService.Service.AttachPresentation` | cmd/filees-gui-wails/prompt_service.go:114-118 | extends the run of all threads by the new way to show and hide |
| `PromptService.Service.Open` | cmd/filees-gui-wails/prompt_service.go:217-223 | extends the run of all threads; the session is the newest, the active one and not resolved |
| `PromptService.Service.Resolve` | cmd/filees-gui-wails/prompt_service.go:128-147 | extends the run; accepted exactly when it names the active prompt, none was accepted for it, and a confirmed selection is one of the options after trimming; context changed exactly when it does not name the active prompt, busy exactly when one was accepted, invalid exactly for a confirmed selection that is no option; an accepted choice is then about to be sent, and nothing else changes anything |
| `PromptService.Service.OptionExists` | cmd/filees-gui-wails/prompt_service.go:284-292 | found exactly when the trimmed value is an option |
| `PromptService.Service.Close` | cmd/filees-gui-wails/prompt_service.go:239-244 | extends the run; the session closed is always the active one, and none is afterwards |
| `PromptService.Service.CheckHide` | cmd/filees-gui-wails/prompt_service.go:252-256 | extends the run; a delayed hide goes ahead exactly for the newest prompt while none is active and no presenter is inside, so never while a shown prompt is active |
| `PromptService.StepKeepsControl` | cmd/filees-gui-wails/prompt_service.go:211-263 | every step keeps: the active session is the presenter's and the newest, and the window lock is held by the presenter exactly while it shows |
| `PromptService.StepKeepsWindow` | cmd/filees-gui-wails/prompt_service.go:227-261 | every step keeps: a shown active prompt is visible with no hide decided against it, and a window left visible has its hide due |
| `PromptService.StepKeepsMail` | cmd/filees-gui-wails/prompt_service.go:128-238 | every step keeps: one choice per session, on its way, in its channel or received, never lost |
| `PromptService.AlwaysInv` | cmd/filees-gui-wails/prompt_service.go:128-263 | these invariants hold after every interleaving |
| `PromptService.ActivePromptIsVisible` | cmd/filees-gui-wails/prompt_service.go:211-261 | an active prompt whose show step has run is visible |
| `PromptService.NoOrphanWindow` | cmd/filees-gui-wails/prompt_service.go:239-261 | with no prompt inside and no timer left the window is hidden, if the last prompt had a way to hide it |
| `PromptService.SendNeverBlocks` | cmd/filees-gui-wails/prompt_service.go:143-146 | every send under way finds its one-slot channel empty |
| `PromptService.ReturnedChoiceIsOwn` | cmd/filees-gui-wails/prompt_service.go:234-262 | what a prompt returns is the choice accepted for it, naming its revision and, for a confirmed selection, one of its options |
| `PromptService.AcceptedOnce` | cmd/filees-gui-wails/prompt_service.go:128-147 | in every reachable state a choice is accepted exactly when it names the active prompt, none was accepted for it, and a confirmed selection is one of its options after trimming |
| `PromptService.RefusedBecause` | cmd/filees-gui-wails/prompt_service.go:128-142 | in every reachable state each of the three refusals is given for its reason and for no other |
| `PromptService.AcceptedForGood` | cmd/filees-gui-wails/prompt_service.go:128-147 | an accepted choice is never replaced later in a run |
| `PromptService.NeverDeadlocked` | cmd/filees-gui-wails/prompt_service.go:211-261 | whatever a presenter or a timer has started, one of them can go on, except while a prompt waits for its user |
| `AnchorPaths.PrefixMeansUnder` | cmd/filees/explorer_anchor_batch.go:119 | the string prefix with a slash holds exactly when the components are a proper prefix, and the rest splits into the remaining ones |
| `AnchorPaths.CutIsFirstPart` | cmd/filees/explorer_anchor_availability.go:47-48 | cutting at the first slash gives the first component and tells whether there are more |
| `AnchorPaths.SafePathMeans` | cmd/filees/explorer_anchor_batch.go:228-239 | a path is safe exactly when it has none of backslash, colon, tab, line ends and NUL, and whatever stands between two slashes or an end is not empty, `.`, `..`, `.svn` or `.filees` in any case, and ends with neither dot nor space |
| `AnchorPaths.PartsHaveNoSlash` | cmd/filees/explorer_anchor_batch.go:233 | no part of a split path has a slash in it |
| `AnchorPaths.ByteLengthAdds` | cmd/filees/explorer_anchor_batch.go:131-134 | the length in bytes of a path is that of its pieces together |
| `AnchorPaths.ByteLengthOfOne` | cmd/filees/explorer_anchor_batch.go:131-134 | one character takes the bytes UTF-8 needs for its code point |
| `Paths.MkdirAllMeans` | cmd/filees/commit_rebuild.go:416-643 | making a directory with those above it succeeds exactly when none of them is there as something else, and then adds exactly the absent ones |
| `Basics.TrimIsCore` | cmd/filees-gui-wails/domain_messages.go:97 | trimming yields what is between the white space, wherever that is |
| `Basics.SpacesAre` | cmd/filees-gui-wails/domain_messages.go:97 | white space is what Unicode says, by code point |
| `AnchorScan.ScopeIsSubtree` | cmd/filees/explorer_anchor_batch.go:119-121 | the nodes considered are the selected one and those below it, by components |
| `AnchorScan.ScanManifest` | cmd/filees/explorer_anchor_batch.go:102-153 | succeeds exactly for a scope of safe, distinct (case folded), few and short enough paths with sizes, and then lists the wanted files in manifest order with their sizes |
| `AnchorScan.FineMeans` | cmd/filees/explorer_anchor_batch.go:119-148 | the conditions node by node: safe, distinct when folded, at most 20000 of them with at most 8388608 bytes of paths, and no selected file with a negative size |
| `AnchorScan.ListedMeans` | cmd/filees/explorer_anchor_batch.go:140-150 | the listed files are exactly the selected files of the manifest |
| `AnchorScan.ListedInOrder` | cmd/filees/explorer_anchor_batch.go:140-150 | of two listed files the one that is earlier in the manifest is listed first |
| `AnchorScan.ScopeMeans` | cmd/filees/explorer_anchor_batch.go:119-121 | the nodes of the selection are exactly those of the manifest that are selected |
| `AnchorPlan.Check` | cmd/filees/explorer_anchor_batch.go:181-210 | a state is recognised exactly by its definition, and whether it means work |
| `AnchorPlan.RecognisedMeans` | cmd/filees/explorer_anchor_batch.go:181-210 | what a download and a release each demand of a state, field by field |
| `AnchorPlan.FilesMean` | cmd/filees/explorer_anchor_batch.go:189-215 | the files of a plan are the items that are partial or, for a download, placeholders that are not local; for a release all |
| `AnchorPlan.FilesInOrder` | cmd/filees/explorer_anchor_batch.go:189-215 | two files of a plan come in the order of the items |
| `AnchorPlan.BytesAreSizes` | cmd/filees/explorer_anchor_batch.go:211-218 | the total is the sum of the sizes of all files of a download, and of those not partial for a release |
| `AnchorPlan.JudgeOne` | cmd/filees/explorer_anchor_batch.go:181-218 | one more file is added with exact count and total, to which a download adds the size of a file it has to fetch or adopt and a release that of a file not remote yet; refused exactly when unrecognised or when the total would pass the largest 64-bit number |
| `AnchorPlan.JudgeBatch` | cmd/filees/explorer_anchor_batch.go:175-219 | the files of one batch, refused exactly when one of them is |
| `AnchorPlan.JudgeAll` | cmd/filees/explorer_anchor_batch.go:163-220 | succeeds exactly when every batch of 64 is answered in full and all files are sound, and then covers every listed path with its answer |
| `AnchorPlan.BatchesArePointwise` | cmd/filees/explorer_anchor_batch.go:163-174 | asking in batches of 64 brings what asking for every path alone would |
| `AnchorPlan.AnswersMean` | cmd/filees/explorer_anchor_batch.go:163-180 | all batches are answered exactly when each path is, in its own batch of 64 at its own place, and with that answer |
| `AnchorPlan.DownloadIsSound` | cmd/filees/explorer_anchor_batch.go:181-218 | a download is accepted exactly when every state is recognised and the sum of the sizes is at most the largest 64-bit number |
| `AnchorPlan.ReleaseIsSound` | cmd/filees/explorer_anchor_batch.go:181-218 | a release exactly when every state is recognised and no file passes that number together with the sizes counted before it |
| `AnchorPlan.FitsAt` | cmd/filees/explorer_anchor_batch.go:211-218 | in such a list every file fits on top of those before it |
| `AnchorPlan.BytesFit` | cmd/filees/explorer_anchor_batch.go:211-218 | the total of a sound list is between zero and the largest 64-bit number |
| `AnchorPlan.CountTells` | cmd/filees/explorer_anchor_batch.go:157-159 | comparing the numbers of listed and wanted paths tells whether the sets are equal |
| `AnchorPlan.MakePlan` | cmd/filees/explorer_anchor_batch.go:95-226 | succeeds exactly when all conditions hold; the fingerprint then covers every listed file with the answer its batch gave for it, in order; the plan carries exactly the files with work, in that order, their number and the sum of their sizes (remote ones not counted for a release), whether the selection is a directory, and for a download the selected nodes |
| `AnchorPlan.PlannableMeans` | cmd/filees/explorer_anchor_batch.go:95-218 | these conditions one by one: a known action, a selection that is safe and in the manifest, a fine scope, every stored path a selected file, every batch answered in full with recognised states that fit |
| `AnchorPlan.FingerprintBinds` | cmd/filees/explorer_anchor_batch.go:160-221 | equal fingerprints mean the same binding, selection, action, listed paths, files, count and bytes, whatever the manifests and answers |
| `AnchorPlan.ConsentBinds` | cmd/filees/explorer_anchor_batch.go:112-224 | equal selection fingerprints mean the same subtree of the manifest and the same listed files |
| `AnchorPlan.ReleasePaths` | cmd/filees/explorer_anchor_batch.go:189-218 | a release plan holds every listed file |
| `AnchorPlan.ReplanKeepsMembership` | cmd/filees/explorer_anchor_batch.go:76-159 | planning a release again from stored paths succeeds only for exactly those files, unless the stored list is empty |
| `AnchorPlan.ReplanIsStable` | cmd/filees/explorer_anchor_batch.go:95-226 | nothing having changed, planning again from a plan's own paths succeeds with the same plan |
| `AnchorPlan.PlanIsLight` | cmd/filees/explorer_anchor_batch.go:131-134 | the paths of a release plan stay within the cache's limit |
| `PlanCache.TrimsLikeLog` | cmd/filees/explorer_anchor_batch.go:64-74 | trimming the kept entries and a new one is trimming the whole log |
| `PlanCache.Plans.Trim` | cmd/filees/explorer_anchor_batch.go:65-74 | what is kept is the longest run of newest entries within 32 plans and 8388608 bytes of paths: all of them, or 32, or one more would pass the bytes |
| `PlanCache.Plans.Put` | cmd/filees/explorer_anchor_batch.go:57-75 | the cache stays that part of the unbounded log, within 32 plans and 8388608 bytes, and a plan within the limit is its newest entry |
| `PlanCache.WeighsEveryPath` | cmd/filees/explorer_anchor_batch.go:67-69 | one more path in an entry weighs its bytes more |
| `PlanCache.Plans.Get` | cmd/filees/explorer_anchor_batch.go:76-88 | the answer is the log's newest match, if it is still kept, and nothing otherwise |
| `PlanCache.PutThenGet` | cmd/filees/explorer_anchor_batch.go:57-88 | a release plan just made by the planner is always found again under its key |
| `FolderAvailability.LocateMeans` | cmd/filees/explorer_anchor_availability.go:44-58 | cutting the prefix and the first part finds exactly the child a path is or lies below |
| `FolderAvailability.Collect` | cmd/filees/explorer_anchor_availability.go:40-63 | the flags of every folder and the files below them, in manifest order, each with its folder |
| `FolderAvailability.CountAll` | cmd/filees/explorer_anchor_availability.go:64-87 | succeeds exactly when every batch is answered in full with usable states, and then counts each folder's local and remote files |
| `FolderAvailability.Availabilities` | cmd/filees/explorer_anchor_availability.go:16-112 | succeeds exactly for a valid manifest, a safe directory and usable answers; each folder is then classified by its final flags and counts |
| `FolderAvailability.AvailabilityIsDirect` | cmd/filees/explorer_anchor_availability.go:16-112 | the result is the direct definition over all manifest descendants, for every safe name without a slash and with the presence its last directory entry gives: hybrid, local, remote, or nothing for an empty hierarchy or a folder not in the manifest; no other name is in it |
| `FolderAvailability.FoldersMean` | cmd/filees/explorer_anchor_availability.go:25-30 | a folder is classified exactly for a safe directory entry without a slash, and the last entry of a name says whether it is present |
| `FolderAvailability.AllUsableMeans` | cmd/filees/explorer_anchor_availability.go:64-79 | the answers are usable exactly when each path has one in its batch that is in order and, if partial, is a placeholder with that path as its identity |
| `FolderExecution.Session.CallWhileBusy` | cmd/filees-gui-wails/headbrowser_wait.go:46-69 | retries exactly the busy refusal, each time after the wait due (500 ms, doubling up to 5 s) and a passed check, and gives up only when the check fails or the deadline leaves no time for the check or wait that is due; the reply is the daemon's to the last call |
| `FolderExecution.Session.Execute` | cmd/filees-gui-wails/headbrowser_wait.go:115-153 | goes through the run these surroundings allow to its end, with at most one call plus two for every 500 ms of the budget; reports what the daemon answered the last call, or that a fresh plan leaves nothing to do, and otherwise gave up or met an answer that ends it, which is then neither a result nor a plan that leaves nothing to do |
| `FolderExecution.OnlyOneRun` | cmd/filees-gui-wails/headbrowser_wait.go:46-153 | for given answers of daemon and window and a given clock any two runs agree as far as both go, so there is one run to the end |
| `FolderExecution.RunTo` | cmd/filees-gui-wails/headbrowser_wait.go:46-153 | every event of a run is the one due after those before it, and what window, daemon and clock gave at that point |
| `FolderExecution.CallsAreApproved` | cmd/filees-gui-wails/headbrowser_wait.go:124-148 | every batch call carries the approved fingerprint until a fresh plan came and, for a download only, that of the latest one from then on: 64 hexadecimal digits of a directory plan with the approved selection, 0 up to the approved files and 0 up to the approved bytes; every call follows a passed check; a fresh plan is asked for only by a download whose selection is 64 hexadecimal digits |
| `FolderExecution.OnlyRefusalsAreRetried` | cmd/filees-gui-wails/headbrowser_wait.go:46-148 | a call is followed by the same one only after busy, a batch by a fresh plan only after changed (for a download whose selection is 64 hexadecimal digits), and a fresh plan by a batch only if it is for the same selection with at least one and no more files and no more bytes |
| `FolderExecution.UnfitPlanIsLast` | cmd/filees-gui-wails/headbrowser_wait.go:145-151 | a fresh plan that is for something else, is larger, is malformed or leaves nothing to do is the last event of the run |
| `FolderExecution.WaitsAreForRefusals` | cmd/filees-gui-wails/headbrowser_wait.go:46-140 | a wait follows a busy call or a download's batch refused as changed and nothing else, takes 500 to 5000 ms, and only a check comes after it |
| `FolderExecution.BusyWaitsDouble` | cmd/filees-gui-wails/headbrowser_wait.go:46-68 | the first wait for a busy daemon takes 500 ms, and each next one twice that of the one before, up to 5000 |
| `FolderExecution.ChangedWaits` | cmd/filees-gui-wails/headbrowser_wait.go:123-140 | the wait after the n-th batch refused as changed takes 500, 1000, 2000, 4000 and from then on 5000 ms |
| `FolderExecution.WithinMeans` | cmd/filees-gui-wails/headbrowser_wait.go:145-147 | what may stand in for the approved plan, item by item |
| `FolderExecution.ReleaseIsNeverReplanned` | cmd/filees-gui-wails/headbrowser_wait.go:134-136 | a release only ever repeats its approved call, and only after busy |
| `ReleaseQueue.Decide` | cmd/filees-gui-wails/headbrowser_release_queue.go:39-51 | a reply ends the wait exactly unless it reports this intention as queued or running |
| `ReleaseQueue.Poll` | cmd/filees-gui-wails/headbrowser_release_queue.go:38-56 | the trace goes on with a second's wait and a status read as long as the daemon's last reply reports this intention as not finished and the deadline allows, and the outcome is what the last reply means |
| `ReleaseQueue.QueuedRelease` | cmd/filees-gui-wails/headbrowser_release_queue.go:21-57 | goes through the trace these surroundings allow to its end: the release is submitted exactly once if the check passes and never otherwise, every reply in it is the daemon's to that call, the status reads are at most the seconds of the budget plus one; it is finished only by a last reply about exactly this intention, place and number of files that says attached or failed, invalid only by one about something else or in a strange state, and left queued only when that reply says queued or running and the deadline comes before the next second is over |
| `ReleaseQueue.TraceSubmitsOnce` | cmd/filees-gui-wails/headbrowser_release_queue.go:19-57 | whatever the daemon answers, nothing but status reads of this intention and waits of a second follow the one submission |
| `ReleaseQueue.ReadsAreBounded` | cmd/filees-gui-wails/headbrowser_release_queue.go:38-56 | every status read but one is paid for with a second of the budget |
| `ReleaseQueue.OnlyOneTrace` | cmd/filees-gui-wails/headbrowser_release_queue.go:21-57 | for given answers and a given clock any two traces agree as far as both go, so there is one to the end |
| `CliUpdate.Advance` | internal/clientupdate/state.go:93-123 | succeeds exactly when the release is admitted, and then the state admits that release again at its sequence and epoch |
| `CliUpdate.Machine.Replace` | cmd/filees-client/update.go:228-245 | the writes for one file, a differing binary kept aside before it is replaced, up to the point where it is stopped, and true exactly if it is not |
| `CliUpdate.Machine.ReplaceAll` | cmd/filees-client/update.go:224-246 | the writes for README, manual and binary in this order, up to the point where it is stopped; wherever that is, they and the watermark stay in order of sequence |
| `CliUpdate.Machine.Install` | cmd/filees-client/update.go:187-256 | over any installs stopped anywhere, binary ≤ manual ≤ README ≤ watermark; a release of an older epoch, an older sequence or another id at the same sequence is refused and nothing changes; what is on disk is what the first writes of the installation make of it, as many as were made; the recorded installed version changes only when it completes; it completes exactly when all were made, and then all four are this release; the same release can always be tried again |
| `CliUpdate.BinaryAfter` | cmd/filees-client/update.go:224-246 | after any number of the writes the former binary is at its place or kept aside |
| `CliUpdate.StateAfter` | cmd/filees-client/update.go:216-256 | after any number of the writes the watermark has not gone back and admits the release again, and the installed version is the former one until the last of them |
| `CliUpdate.RefusedMeans` | internal/clientupdate/state.go:93-107 | refused exactly for an older epoch, an older sequence, or another id at the watermark's sequence |
| `CliUpdate.SameSequenceSameId` | internal/clientupdate/state.go:100-116 | installed files of one sequence carry one release id |
| `CliUpdate.ForkIsRefused` | internal/clientupdate/state.go:97-105 | at the watermark's own sequence exactly the recorded release id is admitted, unless its epoch is older |
| `DisplayRecovery.RecoveryFile.Available` | cmd/filees-gui-wails/display_health.go:64-84 | a budget is offered exactly when the record allows it, with the window it will be charged to |
| `DisplayRecovery.RecoveryFile.Take` | cmd/filees-gui-wails/display_health.go:86-117 | a restart is granted exactly when it is written and there is no record, or a readable one that began by now and has one attempt, or two and is 900 seconds old; a record younger than that gets its second attempt, otherwise a new one begins; a refused restart changes nothing |
| `DisplayRecovery.GrantsAscend` | cmd/filees-gui-wails/display_health.go:71-84 | grants never go back in time and windows never overlap, however the clock jumps |
| `DisplayRecovery.TwoPerWindow` | cmd/filees-gui-wails/display_health.go:77-91 | no three grants are charged to one recorded window |
| `DisplayRecovery.FourthIsLater` | cmd/filees-gui-wails/display_health.go:64-117 | the third grant after any other comes at least fifteen minutes later |
| `DisplayRecovery.AtMostThree` | cmd/filees-gui-wails/display_health.go:64-117 | any half-open fifteen minutes contain at most three grants |
| `DisplayRecovery.ThreeAreReached` | cmd/filees-gui-wails/display_health.go:64-117 | three in fifteen minutes can be reached |
| `DisplayRecovery.RecoveryFile.Damage` | cmd/filees-gui-wails/display_health.go:66-70 | a budget that became unreadable keeps every bound on what was granted |
| `DisplayRecovery.RunIsUnbroken` | cmd/filees-gui-wails/display_health.go:41-53 | the run of absences the clock is started for is unbroken and begins right after a sighting or an error |
| `DisplayRecovery.RunIsOne` | cmd/filees-gui-wails/display_health.go:41-53 | there is only one such run |
| `DisplayRecovery.DisplayHealth.Lost` | cmd/filees-gui-wails/display_health.go:40-55 | lost exactly when a browser was once seen and an unbroken run of absences, begun right after a sighting or an error, has lasted at least 20 seconds |

## Left out

- Subprocesses, SVN, SSH, XML and JSON: the remote is a tree with a deletion history, a manifest or a reply.
- OS locks, leases and path-alias checks of the recovery: mutual exclusion is assumed, and the lease is part of the step it guards.
- Edits of the staged checkout or the archive, a directory made at the working copy's place while it is absent, and changes to `.svn` or FileES metadata by anything but recovery, including what FileES itself writes once a job is over: the user's edits reach every other entry of the working copy.
- Cancellation of a context by its user: only deadlines are modelled; a cancelled call is a failed one.
- The exact bytes that enter a digest, and hash collisions; the queue file's normalisation before hashing is part of its content.
- Checkout depth, properties and conflict flags in the status of a checkout: an entry is unchanged, missing, different or unversioned.
- Which of several errors is reported: contracts say exactly when an operation succeeds, and name the error only where a caller depends on it.
- Connection and revision numbers wrapping around at 2^64.
- The callback after a catalogue changes, snapshot events, progress dialogs and texts.
- `cleanPromptOptions`, rendering of messages, `recordDisplayHealth`: easy members beside the protocols.
- `validateAnchorRemoteNodes`: its verdict is a parameter of the availability pass.
- `runAnchorBatch` and the adapter that mixes the repository revision into a plan's fingerprint.
- Whether two releases with one id have the same content: the state compares ids, and signing is outside the model.
- Manifest artifacts, archive layout and the executable's header in the installer: a release is one that passed them.
- Other writers of the local directory or the repository while a reconciliation runs; a refused commit is a failed one.
- NwcPublish.MakePlan: visits the local files by depth rather than by name, which no result depends on.
