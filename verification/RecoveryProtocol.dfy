/** The durable steps of the working-copy replacement and what every one of them keeps.

    Each rename and each receipt write is one atomic step.  Recovery may stop between any
    two of them, so a run is any sequence of guarded steps, interleaved with edits by the
    user and with the acceptance of further jobs. */
module RecoveryProtocol {
  import opened Basics
  import opened RecoveryModel

  /** What is on disk: the working copy, per job its staged checkout and its archive, and
      the receipt beside them. */
  datatype Disk = Disk(root: Option<Dir>, staging: map<Id, Dir>, archives: map<Id, Dir>, receipt: Option<Job>)

  /** The disk together with what must not be lost: the working copy the current job was
      accepted for (as the user last left it) and those of all completed jobs; and the
      checkout as the current job put it in place. */
  datatype World = World(disk: Disk, original: Dir, kept: map<Id, Dir>, installed: Option<Dir>)

  datatype Action =
    | Accept(dir: Dir, job: Job)
    | Edit(user: Files)
    | WriteStaging(dir: Dir)
    | Save(stage: Stage)
    | Retire
    | RestoreRoot
    | RestoreArchive
    | Archive
    | Install
    | Rollback

  predicate Active(d: Disk) {
    d.receipt.Some? && d.receipt.value.stage != Done && d.receipt.value.stage != Failed
  }

  predicate WriterBound(files: Files) {
    WRITER in files && files[WRITER].File?
  }

  predicate MetaPlain(files: Files) {
    Top(files, Meta) ==> [Meta] in files && files[[Meta]] == Directory
  }

  /** `d` is the tree `original`, its metadata under either name. */
  ghost predicate Holds(d: Dir, original: Dir, id: Id) {
    OneMetadata(d.files, id) && d.svn == original.svn && Restored(d.files, id) == original.files
  }

  // ----- The guarded steps ---------------------------------------------------------------

  predicate SaveGuard(d: Disk, stage: Stage)
    requires Active(d)
  {
    var j := d.receipt.value;
    match stage
    case Accepted => false
    case Prepared =>
      j.stage == Accepted && j.id in d.staging && Marked(d.staging[j.id].files, j) &&
        CopiesVerified(d.staging[j.id].files, j)
    case Retired =>
      j.stage != Accepted && d.root.Some? && j.id !in d.archives && Top(d.root.value.files, Disabled(j.id))
    case Archived => d.root.None? && j.id in d.archives
    case Installed => d.root.Some? && Marked(d.root.value.files, j) && j.id in d.archives && j.id !in d.staging
    case Done =>
      && d.root.Some? && Marked(d.root.value.files, j) && j.id !in d.staging
      && j.id in d.archives && !Top(d.archives[j.id].files, Disabled(j.id))
    case Failed => d.root.Some? && j.id !in d.archives && !Top(d.root.value.files, Disabled(j.id))
  }

  predicate Guard(d: Disk, a: Action) {
    match a
    case Accept(dir, job) =>
      && !Active(d) && job.stage == Accepted && job.userSnapshot == job.snapshot.user
      && job.id !in d.archives && job.id !in d.staging
      && !Marked(dir.files, job) && !Top(dir.files, Disabled(job.id))
      && WriterBound(dir.files) && MetaPlain(dir.files)
    case Edit(user) => d.receipt.Some? && d.root.Some?
    case WriteStaging(dir) => Active(d) && d.receipt.value.stage == Accepted
    case Save(stage) => Active(d) && SaveGuard(d, stage)
    case Retire =>
      && Active(d) && d.receipt.value.stage != Accepted
      && d.root.Some? && d.receipt.value.id !in d.archives
      && Top(d.root.value.files, Meta) && !Top(d.root.value.files, Disabled(d.receipt.value.id))
    case RestoreRoot =>
      && Active(d) && d.root.Some? && d.receipt.value.id !in d.archives
      && !Top(d.root.value.files, Meta) && Top(d.root.value.files, Disabled(d.receipt.value.id))
    case RestoreArchive =>
      && Active(d) && d.receipt.value.id in d.archives
      && !Top(d.archives[d.receipt.value.id].files, Meta)
      && Top(d.archives[d.receipt.value.id].files, Disabled(d.receipt.value.id))
    case Archive =>
      && Active(d) && d.receipt.value.stage == Retired
      && d.root.Some? && d.receipt.value.id !in d.archives
      && d.receipt.value.id in d.staging && Ready(d.staging[d.receipt.value.id], d.receipt.value)
    case Install =>
      && Active(d) && d.root.None? && d.receipt.value.id in d.archives
      && !Top(d.archives[d.receipt.value.id].files, Disabled(d.receipt.value.id))
      && d.receipt.value.id in d.staging && Ready(d.staging[d.receipt.value.id], d.receipt.value)
    case Rollback => Active(d) && d.root.None? && d.receipt.value.id in d.archives
  }

  ghost function RenameIn(dir: Dir, a: Name, b: Name): Dir
    requires a != b && !Top(dir.files, b)
  {
    dir.(files := RenameTop(dir.files, a, b))
  }

  /** The effect of a step on the disk. */
  ghost function Apply(d: Disk, a: Action): Disk
    requires Guard(d, a)
  {
    match a
    case Accept(dir, job) => d.(root := Some(dir), receipt := Some(job))
    case Edit(user) =>
      d.(root := Some(d.root.value.(files := EditUser(d.root.value.files, d.receipt.value.id, user))))
    case WriteStaging(dir) => d.(staging := d.staging[d.receipt.value.id := dir])
    case Save(stage) => d.(receipt := Some(d.receipt.value.(stage := stage)))
    case Retire => d.(root := Some(RenameIn(d.root.value, Meta, Disabled(d.receipt.value.id))))
    case RestoreRoot => d.(root := Some(RenameIn(d.root.value, Disabled(d.receipt.value.id), Meta)))
    case RestoreArchive =>
      var id := d.receipt.value.id;
      d.(archives := d.archives[id := RenameIn(d.archives[id], Disabled(id), Meta)])
    case Archive => d.(root := None, archives := d.archives[d.receipt.value.id := d.root.value])
    case Install =>
      var id := d.receipt.value.id;
      d.(root := Some(d.staging[id]), staging := d.staging - {id})
    case Rollback =>
      var id := d.receipt.value.id;
      d.(root := Some(d.archives[id]), archives := d.archives - {id})
  }

  /** An edit while the original is at its place. */
  predicate EditsOriginal(d: Disk, a: Action)
    requires Guard(d, a)
  {
    a.Edit? && d.receipt.value.id !in d.archives
  }

  /** The step, and what it does to the bookkeeping: only an acceptance or an edit of it by
      the user changes what counts as the original, and completion adds to what is kept. */
  ghost function Next(w: World, a: Action): World
    requires Guard(w.disk, a)
    requires EditsOriginal(w.disk, a) ==>
               OneMetadata(Apply(w.disk, a).root.value.files, w.disk.receipt.value.id)
  {
    var d := Apply(w.disk, a);
    match a
    case Accept(dir, job) => w.(disk := d, original := dir, installed := None)
    case Edit(user) =>
      if EditsOriginal(w.disk, a) then
        w.(disk := d, original := d.root.value.(files := Restored(d.root.value.files, d.receipt.value.id)))
      else
        w.(disk := d)
    case Install => w.(disk := d, installed := d.root)
    case Save(stage) =>
      if stage == Done then w.(disk := d, kept := w.kept[d.receipt.value.id := w.original]) else w.(disk := d)
    case _ => w.(disk := d)
  }

  // ----- The invariant -------------------------------------------------------------------

  ghost predicate AtRoot(w: World)
    requires w.disk.receipt.Some?
  {
    var j := w.disk.receipt.value;
    && w.disk.root.Some? && Holds(w.disk.root.value, w.original, j.id) && j.id !in w.disk.archives
    && (j.stage in {Accepted, Failed} ==> w.disk.root.value == w.original)
    && j.stage != Done
  }

  ghost predicate Away(w: World)
    requires w.disk.receipt.Some?
  {
    var j := w.disk.receipt.value;
    && w.disk.root.None? && j.id in w.disk.archives && Holds(w.disk.archives[j.id], w.original, j.id)
    && j.id in w.disk.staging && Ready(w.disk.staging[j.id], j)
    && j.stage !in {Accepted, Failed, Done}
  }

  ghost predicate Swapped(w: World)
    requires w.disk.receipt.Some?
  {
    var j := w.disk.receipt.value;
    && w.disk.root.Some? && Marked(w.disk.root.value.files, j) && j.id !in w.disk.staging
    && w.installed.Some? && Ready(w.installed.value, j) && SameButUser(w.disk.root.value, w.installed.value, j.id)
    && j.id in w.disk.archives && w.disk.archives[j.id] == w.original
    && j.stage !in {Accepted, Failed}
  }

  ghost predicate Recorded(w: World)
    requires w.disk.receipt.Some?
  {
    var j := w.disk.receipt.value;
    && WriterBound(w.original.files) && MetaPlain(w.original.files)
    && !Marked(w.original.files, j) && !Top(w.original.files, Disabled(j.id))
    && (j.stage == Done ==> j.id in w.kept && w.kept[j.id] == w.original)
    && (j.stage != Done ==> j.id !in w.kept)
  }

  ghost predicate Inv(w: World) {
    && (forall id :: id in w.kept ==> id in w.disk.archives && w.disk.archives[id] == w.kept[id])
    && (w.disk.receipt.Some? ==> Recorded(w) && (AtRoot(w) || Away(w) || Swapped(w)))
  }

  // ----- Renaming the metadata -----------------------------------------------------------

  lemma RetireHolds(d: Dir, original: Dir, id: Id)
    requires Holds(d, original, id) && Top(d.files, Meta)
    ensures Holds(RenameIn(d, Meta, Disabled(id)), original, id)
    ensures Top(RenameIn(d, Meta, Disabled(id)).files, Disabled(id))
  {
    var r := RenameIn(d, Meta, Disabled(id)).files;
    RenameTopRoundTrip(d.files, Meta, Disabled(id));
    var p :| p in d.files && Under(p, Meta);
    SwapBack(p, Meta, Disabled(id));
    assert Swap(p, Meta, Disabled(id)) in r;
  }

  lemma RestoreHolds(d: Dir, original: Dir, id: Id)
    requires Holds(d, original, id) && Top(d.files, Disabled(id))
    ensures RenameIn(d, Disabled(id), Meta) == original
  {
  }

  lemma LiveIsOriginal(d: Dir, original: Dir, id: Id)
    requires Holds(d, original, id) && !Top(d.files, Disabled(id))
    ensures d == original
  {
  }

  lemma OriginalHoldsItself(original: Dir, id: Id)
    requires !Top(original.files, Disabled(id))
    ensures Holds(original, original, id)
  {
  }

  /** Restoring the metadata name moves nothing outside the metadata. */
  lemma RestoredAgree(files: Files, id: Id, p: Path)
    requires OneMetadata(files, id) && !Under(p, Meta) && !Under(p, Disabled(id))
    ensures p in Restored(files, id) <==> p in files
    ensures p in files ==> Restored(files, id)[p] == files[p]
  {
    assert Swap(p, Meta, Disabled(id)) == p;
  }

  lemma RestoredHasNoDisabled(files: Files, id: Id)
    requires OneMetadata(files, id)
    ensures !Top(Restored(files, id), Disabled(id))
  {
    if Top(files, Disabled(id)) {
      RenameTopRoundTrip(files, Disabled(id), Meta);
    }
  }

  // ----- Edits by the user ---------------------------------------------------------------

  lemma EditAgrees(files: Files, id: Id, user: Files, p: Path)
    requires Kept(p, id)
    ensures p in EditUser(files, id, user) <==> p in files
    ensures p in files ==> EditUser(files, id, user)[p] == files[p]
  {
  }

  lemma EditKeepsTop(files: Files, id: Id, user: Files, name: Name)
    requires name in {Svn, Meta, Disabled(id)}
    ensures Top(EditUser(files, id, user), name) <==> Top(files, name)
  {
    var e := EditUser(files, id, user);
    if Top(e, name) {
      var p :| p in e && Under(p, name);
      EditAgrees(files, id, user, p);
    }
    if Top(files, name) {
      var p :| p in files && Under(p, name);
      EditAgrees(files, id, user, p);
    }
  }

  /** An edit reaches neither `.svn` nor the metadata, under either of its names. */
  lemma EditKeepsRestored(files: Files, id: Id, user: Files, p: Path)
    requires OneMetadata(files, id) && OneMetadata(EditUser(files, id, user), id)
    requires Under(p, Svn) || Under(p, Meta)
    ensures p in Restored(EditUser(files, id, user), id) <==> p in Restored(files, id)
    ensures p in Restored(files, id) ==> Restored(EditUser(files, id, user), id)[p] == Restored(files, id)[p]
  {
    var e := EditUser(files, id, user);
    EditKeepsTop(files, id, user, Disabled(id));
    EditAgrees(files, id, user, p);
    EditAgrees(files, id, user, Swap(p, Meta, Disabled(id)));
    if Top(files, Disabled(id)) {
      assert IsRename(files, Disabled(id), Meta, Restored(files, id));
      assert IsRename(e, Disabled(id), Meta, Restored(e, id));
      assert p in Restored(files, id) <==> Swap(p, Meta, Disabled(id)) in files;
      assert p in Restored(e, id) <==> Swap(p, Meta, Disabled(id)) in e;
    }
  }

  lemma EditKeepsOneMetadata(w: World, user: Files)
    requires w.disk.receipt.Some? && AtRoot(w) && Guard(w.disk, Edit(user))
    ensures OneMetadata(Apply(w.disk, Edit(user)).root.value.files, w.disk.receipt.value.id)
  {
    var id, files := w.disk.receipt.value.id, w.disk.root.value.files;
    EditKeepsTop(files, id, user, Meta);
    EditKeepsTop(files, id, user, Disabled(id));
  }

  lemma EditOfOriginalKeepsInv(w: World, user: Files)
    requires Inv(w) && Guard(w.disk, Edit(user)) && EditsOriginal(w.disk, Edit(user))
    requires OneMetadata(Apply(w.disk, Edit(user)).root.value.files, w.disk.receipt.value.id)
    ensures Inv(Next(w, Edit(user)))
  {
    var id, files := w.disk.receipt.value.id, w.disk.root.value.files;
    var e := EditUser(files, id, user);
    var w' := Next(w, Edit(user));
    assert AtRoot(w);
    assert w'.original.files == Restored(e, id) && w.original.files == Restored(files, id);
    EditKeepsRestored(files, id, user, WRITER);
    EditKeepsRestored(files, id, user, MARKER);
    EditKeepsRestored(files, id, user, [Meta]);
    RestoredHasNoDisabled(e, id);
    assert MetaPlain(w'.original.files) by {
      if Top(w'.original.files, Meta) {
        var p :| p in w'.original.files && Under(p, Meta);
        EditKeepsRestored(files, id, user, p);
      }
    }
    EditKeepsTop(files, id, user, Disabled(id));
    assert AtRoot(w');
  }

  /** An edit reaches nothing that tells a checkout from any other. */
  lemma EditIsSameButUser(d: Dir, was: Dir, id: Id, user: Files)
    requires SameButUser(d, was, id)
    ensures SameButUser(d.(files := EditUser(d.files, id, user)), was, id)
  {
    forall p | Kept(p, id)
      ensures p in EditUser(d.files, id, user) <==> p in d.files
      ensures p in d.files ==> EditUser(d.files, id, user)[p] == d.files[p]
    {
      EditAgrees(d.files, id, user, p);
    }
  }

  lemma EditOfCheckoutKeepsInv(w: World, user: Files)
    requires Inv(w) && Guard(w.disk, Edit(user)) && !EditsOriginal(w.disk, Edit(user))
    ensures Inv(Next(w, Edit(user)))
  {
    var id, root := w.disk.receipt.value.id, w.disk.root.value;
    assert Swapped(w);
    EditIsSameButUser(root, w.installed.value, id, user);
    EditAgrees(root.files, id, user, MARKER);
    assert Swapped(Next(w, Edit(user)));
  }

  // ----- Every step keeps the invariant ----------------------------------------------------

  /** What a directory is to a job does not depend on the stage. */
  lemma ReadyAtStage(d: Dir, j: Job, stage: Stage)
    ensures Marked(d.files, j.(stage := stage)) == Marked(d.files, j)
    ensures Ready(d, j.(stage := stage)) == Ready(d, j)
  {
    ReadyIgnoresStage(d, j, stage);
  }

  lemma SaveAtRoot(w: World, stage: Stage)
    requires Inv(w) && Guard(w.disk, Save(stage)) && AtRoot(w)
    ensures AtRoot(Next(w, Save(stage)))
  {
    if stage == Failed {
      LiveIsOriginal(w.disk.root.value, w.original, w.disk.receipt.value.id);
    }
  }

  lemma SaveAway(w: World, stage: Stage)
    requires Inv(w) && Guard(w.disk, Save(stage)) && Away(w)
    ensures Away(Next(w, Save(stage)))
  {
    var j := w.disk.receipt.value;
    ReadyAtStage(w.disk.staging[j.id], j, stage);
  }

  lemma SaveSwapped(w: World, stage: Stage)
    requires Inv(w) && Guard(w.disk, Save(stage)) && Swapped(w)
    ensures Swapped(Next(w, Save(stage)))
  {
    var j := w.disk.receipt.value;
    ReadyAtStage(w.disk.root.value, j, stage);
    ReadyAtStage(w.installed.value, j, stage);
  }

  lemma SaveKeepsRecords(w: World, stage: Stage)
    requires Inv(w) && Guard(w.disk, Save(stage))
    ensures var w' := Next(w, Save(stage));
            && Recorded(w')
            && forall id :: id in w'.kept ==> id in w'.disk.archives && w'.disk.archives[id] == w'.kept[id]
  {
    ReadyAtStage(w.original, w.disk.receipt.value, stage);
  }

  lemma SaveKeepsInv(w: World, stage: Stage)
    requires Inv(w) && Guard(w.disk, Save(stage))
    ensures Inv(Next(w, Save(stage)))
  {
    SaveKeepsRecords(w, stage);
    if AtRoot(w) {
      SaveAtRoot(w, stage);
    } else if Away(w) {
      SaveAway(w, stage);
    } else {
      SaveSwapped(w, stage);
    }
  }

  lemma RenameKeepsInv(w: World, a: Action)
    requires Inv(w) && Guard(w.disk, a) && a in {Retire, RestoreRoot, RestoreArchive}
    ensures Inv(Next(w, a))
  {
    var j := w.disk.receipt.value;
    var w' := Next(w, a);
    if a == Retire {
      RetireHolds(w.disk.root.value, w.original, j.id);
      assert AtRoot(w');
    } else if a == RestoreRoot {
      RestoreHolds(w.disk.root.value, w.original, j.id);
      OriginalHoldsItself(w.original, j.id);
      assert AtRoot(w');
    } else {
      RestoreArchiveKeepsInv(w);
    }
  }

  lemma RestoreArchiveKeepsInv(w: World)
    requires Inv(w) && Guard(w.disk, RestoreArchive)
    ensures Inv(Next(w, RestoreArchive))
  {
    var j := w.disk.receipt.value;
    assert Away(w);
    RestoreHolds(w.disk.archives[j.id], w.original, j.id);
    OriginalHoldsItself(w.original, j.id);
    assert Away(Next(w, RestoreArchive));
  }

  lemma ArchiveKeepsInv(w: World)
    requires Inv(w) && Guard(w.disk, Archive)
    ensures Inv(Next(w, Archive))
  {
    assert AtRoot(w) && Away(Next(w, Archive));
  }

  lemma InstallKeepsInv(w: World)
    requires Inv(w) && Guard(w.disk, Install)
    ensures Inv(Next(w, Install))
  {
    var j := w.disk.receipt.value;
    LiveIsOriginal(w.disk.archives[j.id], w.original, j.id);
    assert Away(w) && Swapped(Next(w, Install));
  }

  lemma RollbackKeepsInv(w: World)
    requires Inv(w) && Guard(w.disk, Rollback)
    ensures Inv(Next(w, Rollback))
  {
    assert Away(w) && AtRoot(Next(w, Rollback));
  }

  lemma AcceptKeepsInv(w: World, dir: Dir, job: Job)
    requires Inv(w) && Guard(w.disk, Accept(dir, job))
    ensures Inv(Next(w, Accept(dir, job)))
  {
    OriginalHoldsItself(dir, job.id);
    assert AtRoot(Next(w, Accept(dir, job)));
  }

  /** At whatever moment the user edits the working copy, the invariant is kept. */
  lemma EditKeepsInv(w: World, user: Files)
    requires Inv(w) && Guard(w.disk, Edit(user))
    ensures EditsOriginal(w.disk, Edit(user)) ==>
              OneMetadata(Apply(w.disk, Edit(user)).root.value.files, w.disk.receipt.value.id)
    ensures Inv(Next(w, Edit(user)))
  {
    if EditsOriginal(w.disk, Edit(user)) {
      EditKeepsOneMetadata(w, user);
      EditOfOriginalKeepsInv(w, user);
    } else {
      EditOfCheckoutKeepsInv(w, user);
    }
  }

  lemma StepKeepsInv(w: World, a: Action)
    requires Inv(w) && Guard(w.disk, a)
    ensures EditsOriginal(w.disk, a) ==> OneMetadata(Apply(w.disk, a).root.value.files, w.disk.receipt.value.id)
    ensures Inv(Next(w, a))
  {
    match a
    case Accept(dir, job) => AcceptKeepsInv(w, dir, job);
    case Edit(user) => EditKeepsInv(w, user);
    case WriteStaging(dir) => assert AtRoot(Next(w, a));
    case Save(stage) => SaveKeepsInv(w, stage);
    case Retire => RenameKeepsInv(w, a);
    case RestoreRoot => RenameKeepsInv(w, a);
    case RestoreArchive => RenameKeepsInv(w, a);
    case Archive => ArchiveKeepsInv(w);
    case Install => InstallKeepsInv(w);
    case Rollback => RollbackKeepsInv(w);
  }

  // ----- Whole runs ------------------------------------------------------------------------

  /** The worlds passed through by a sequence of guarded steps.  Every one of them is a
      state recovery may have been stopped in. */
  ghost predicate IsRun(ws: seq<World>, steps: seq<Action>) {
    && |ws| == |steps| + 1
    && forall i {:trigger steps[i]} :: 0 <= i < |steps| ==> IsStep(ws[i], steps[i], ws[i + 1])
  }

  ghost predicate IsStep(w: World, a: Action, w': World) {
    && Guard(w.disk, a)
    && (EditsOriginal(w.disk, a) ==> OneMetadata(Apply(w.disk, a).root.value.files, w.disk.receipt.value.id))
    && w' == Next(w, a)
  }

  lemma {:induction false} RunKeepsInv(ws: seq<World>, steps: seq<Action>, i: nat)
    requires IsRun(ws, steps) && Inv(ws[0]) && i < |ws|
    ensures Inv(ws[i])
  {
    if i > 0 {
      RunKeepsInv(ws, steps, i - 1);
      assert IsStep(ws[i - 1], steps[i - 1], ws[i]);
      StepKeepsInv(ws[i - 1], steps[i - 1]);
    }
  }

  /** The original is at its place or in the job's archive, and never at both. */
  ghost predicate ExactlyOneHolder(w: World)
    requires w.disk.receipt.Some?
  {
    var id := w.disk.receipt.value.id;
    (w.disk.root.Some? && Holds(w.disk.root.value, w.original, id)) !=
    (id in w.disk.archives && Holds(w.disk.archives[id], w.original, id))
  }

  /** In every state of every run the user's tree exists exactly once, at the working copy
      or in the archive, and the archive of every completed job is untouched. */
  lemma OriginalNeverLost(ws: seq<World>, steps: seq<Action>, i: nat)
    requires IsRun(ws, steps) && Inv(ws[0]) && i < |ws|
    ensures ws[i].disk.receipt.Some? ==> ExactlyOneHolder(ws[i])
    ensures forall id :: id in ws[i].kept ==> id in ws[i].disk.archives && ws[i].disk.archives[id] == ws[i].kept[id]
  {
    RunKeepsInv(ws, steps, i);
    var w := ws[i];
    if w.disk.receipt.Some? {
      var j := w.disk.receipt.value;
      if Swapped(w) {
        OriginalHoldsItself(w.original, j.id);
        MarkedIsNotOriginal(w.disk.root.value, w.original, j);
      }
    }
  }

  lemma MarkedIsNotOriginal(d: Dir, original: Dir, j: Job)
    requires Marked(d.files, j) && !Marked(original.files, j)
    ensures !Holds(d, original, j.id)
  {
    assert Under(MARKER, Meta) && MARKER in d.files;
    assert Top(d.files, Meta);
  }

  /** "done" means that the bound checkout with verified copies was put in place, that what is
      there now differs from it by the user's edits alone and is itself clean and complete
      exactly when those left it so, and that the archive is the original with `.filees`
      restored; "failed" means the original is in place, its metadata under its own name, and
      there is no archive. */
  lemma OutcomeMeansWhatItSays(ws: seq<World>, steps: seq<Action>, i: nat)
    requires IsRun(ws, steps) && Inv(ws[0]) && i < |ws| && ws[i].disk.receipt.Some?
    ensures var w, j := ws[i], ws[i].disk.receipt.value;
            && (j.stage == Done ==>
                  && w.disk.root.Some? && w.installed.Some? && IsReplacement(w.installed.value, j)
                  && SameButUser(w.disk.root.value, w.installed.value, j.id)
                  && (IsReplacement(w.disk.root.value, j) <==>
                        UserClean(w.disk.root.value.files, w.installed.value.svn.pristine, j))
                  && j.id in w.disk.archives && w.disk.archives[j.id] == w.original
                  && !Top(w.disk.archives[j.id].files, Disabled(j.id)))
            && (j.stage == Failed ==>
                  && w.disk.root == Some(w.original) && j.id !in w.disk.archives
                  && !Top(w.original.files, Disabled(j.id)))
  {
    RunKeepsInv(ws, steps, i);
    var w, j := ws[i], ws[i].disk.receipt.value;
    if j.stage == Done {
      ReadyIffUserClean(w.disk.root.value, w.installed.value, w.disk.root.value.files, j);
      ReadyMeans(w.installed.value, j);
      ReadyMeans(w.disk.root.value, j);
    }
  }

  // ----- The checkout after it was put in place ----------------------------------------------

  /** The checkout is in place and the original in the archive. */
  predicate InPlace(d: Disk) {
    d.receipt.Some? && d.root.Some? && d.receipt.value.id in d.archives
  }

  predicate NoAccept(steps: seq<Action>, i: nat, k: nat)
    requires i <= k <= |steps|
  {
    i == k || (NoAccept(steps, i, k - 1) && !steps[k - 1].Accept?)
  }

  predicate NoEdit(steps: seq<Action>, i: nat, k: nat)
    requires i <= k <= |steps|
  {
    i == k || (NoEdit(steps, i, k - 1) && !steps[k - 1].Edit?)
  }

  lemma StaysReady(d: Disk, d': Disk)
    requires InPlace(d) && InPlace(d') && d'.root == d.root
    requires d'.receipt.value == d.receipt.value.(stage := d'.receipt.value.stage)
    requires Ready(d.root.value, d.receipt.value)
    ensures Ready(d'.root.value, d'.receipt.value)
  {
    ReadyAtStage(d.root.value, d.receipt.value, d'.receipt.value.stage);
  }

  lemma StepKeepsPlace(w: World, a: Action, w': World)
    requires Inv(w) && IsStep(w, a, w') && InPlace(w.disk) && !a.Accept?
    ensures InPlace(w'.disk) && w'.installed == w.installed
    ensures !a.Edit? ==> w'.disk.root == w.disk.root
    ensures w'.disk.receipt.value == w.disk.receipt.value.(stage := w'.disk.receipt.value.stage)
  {
  }

  /** Until the next job only edits change the checkout in place. */
  lemma {:induction false} PlaceIsKept(ws: seq<World>, steps: seq<Action>, k: nat, i: nat)
    requires IsRun(ws, steps) && Inv(ws[0]) && k <= i < |ws| && InPlace(ws[k].disk)
    requires NoAccept(steps, k, i)
    ensures InPlace(ws[i].disk) && ws[i].installed == ws[k].installed
    ensures NoEdit(steps, k, i) ==> ws[i].disk.root == ws[k].disk.root
    ensures ws[i].disk.receipt.value == ws[k].disk.receipt.value.(stage := ws[i].disk.receipt.value.stage)
  {
    if k < i {
      PlaceIsKept(ws, steps, k, i - 1);
      RunKeepsInv(ws, steps, i - 1);
      assert IsStep(ws[i - 1], steps[i - 1], ws[i]);
      StepKeepsPlace(ws[i - 1], steps[i - 1], ws[i]);
    }
  }

  lemma InstallIsReady(w: World, w': World)
    requires Inv(w) && IsStep(w, Install, w')
    ensures InPlace(w'.disk) && Ready(w'.disk.root.value, w'.disk.receipt.value)
  {
  }

  lemma InstallAt(ws: seq<World>, steps: seq<Action>, k: nat)
    requires IsRun(ws, steps) && Inv(ws[0]) && k < |steps| && steps[k] == Install
    ensures InPlace(ws[k + 1].disk) && Ready(ws[k + 1].disk.root.value, ws[k + 1].disk.receipt.value)
  {
    RunKeepsInv(ws, steps, k);
    assert IsStep(ws[k], steps[k], ws[k + 1]);
    InstallIsReady(ws[k], ws[k + 1]);
  }

  /** Not edited since the move, the checkout in place is ready, whatever the receipt says. */
  lemma UntouchedIsReady(ws: seq<World>, steps: seq<Action>, k: nat, i: nat)
    requires IsRun(ws, steps) && Inv(ws[0]) && k < i < |ws| && steps[k] == Install
    requires NoAccept(steps, k + 1, i) && NoEdit(steps, k + 1, i)
    ensures InPlace(ws[i].disk) && Ready(ws[i].disk.root.value, ws[i].disk.receipt.value)
  {
    InstallAt(ws, steps, k);
    PlaceIsKept(ws, steps, k + 1, i);
    StaysReady(ws[k + 1].disk, ws[i].disk);
  }

  /** Edited since, it is ready exactly when the last edit left the user's entries clean. */
  lemma LastEditDecides(ws: seq<World>, steps: seq<Action>, k: nat, i: nat, user: Files)
    requires IsRun(ws, steps) && Inv(ws[0]) && k < i < |ws| && steps[k] == Edit(user) && InPlace(ws[k].disk)
    requires NoAccept(steps, k + 1, i) && NoEdit(steps, k + 1, i)
    ensures InPlace(ws[i].disk) && ws[i].installed.Some?
    ensures Ready(ws[i].disk.root.value, ws[i].disk.receipt.value) <==>
              UserClean(user, ws[i].installed.value.svn.pristine, ws[i].disk.receipt.value)
  {
    EditAt(ws, steps, k, user);
    PlaceIsKept(ws, steps, k + 1, i);
    RunKeepsInv(ws, steps, i);
    UserDecides(ws[i], user);
  }

  /** The user's entries of the checkout in place are those of `user`. */
  ghost predicate ShowsUser(w: World, user: Files)
    requires InPlace(w.disk)
  {
    var files, id := w.disk.root.value.files, w.disk.receipt.value.id;
    forall p {:trigger p in files} :: !Kept(p, id) ==>
      (p in files <==> p in user) && (p in files ==> files[p] == user[p])
  }

  lemma EditAt(ws: seq<World>, steps: seq<Action>, k: nat, user: Files)
    requires IsRun(ws, steps) && k < |steps| && steps[k] == Edit(user) && InPlace(ws[k].disk)
    ensures InPlace(ws[k + 1].disk) && ShowsUser(ws[k + 1], user)
  {
    assert IsStep(ws[k], steps[k], ws[k + 1]);
  }

  lemma UserDecides(w: World, user: Files)
    requires Inv(w) && InPlace(w.disk) && ShowsUser(w, user)
    ensures w.installed.Some?
    ensures Ready(w.disk.root.value, w.disk.receipt.value) <==>
              UserClean(user, w.installed.value.svn.pristine, w.disk.receipt.value)
  {
    ReadyIffUserClean(w.disk.root.value, w.installed.value, user, w.disk.receipt.value);
  }

  /** The move, an edit and the two receipts: "done" is recorded over whatever the edit left. */
  lemma DoneOverEdit(w: World, user: Files)
    requires Inv(w) && Guard(w.disk, Install)
    ensures var moved := Apply(w.disk, Install);
            && Guard(moved, Edit(user))
            && var edited := Apply(moved, Edit(user));
               && Guard(edited, Save(Installed)) && Guard(Apply(edited, Save(Installed)), Save(Done))
               && var done := Apply(Apply(edited, Save(Installed)), Save(Done));
                  && done.receipt.value.stage == Done
                  && (Ready(done.root.value, done.receipt.value) <==>
                        UserClean(user, w.disk.staging[w.disk.receipt.value.id].svn.pristine, w.disk.receipt.value))
  {
    var j := w.disk.receipt.value;
    var staged := w.disk.staging[j.id];
    var edited := staged.(files := EditUser(staged.files, j.id, user));
    EditIsSameButUser(staged, staged, j.id, user);
    ReadyIffUserClean(edited, staged, user, j);
    ReadyIgnoresStage(edited, j, Installed);
    ReadyIgnoresStage(edited, j, Done);
  }

  /** A new acceptance, or an edit while the original is at its place. */
  predicate TouchesOriginal(w: World, a: Action) {
    a.Accept? || (a.Edit? && !InPlace(w.disk))
  }

  /** No step between the two states touches the original. */
  predicate NoneTouches(ws: seq<World>, steps: seq<Action>, i: nat, k: nat)
    requires i <= k < |ws| == |steps| + 1
  {
    i == k || (NoneTouches(ws, steps, i, k - 1) && !TouchesOriginal(ws[k - 1], steps[k - 1]))
  }

  ghost predicate KeptGrows(w: World, w': World) {
    forall id :: id in w.kept ==> id in w'.kept && w'.kept[id] == w.kept[id]
  }

  /** Between two states of a run only an edit of the original or a new acceptance changes what
      the held tree is, and nothing a completed job archived is ever taken away. */
  lemma {:induction false} OnlyTheUserChangesTheOriginal(ws: seq<World>, steps: seq<Action>, i: nat, k: nat)
    requires IsRun(ws, steps) && Inv(ws[0]) && i <= k < |ws|
    ensures NoneTouches(ws, steps, i, k) ==> ws[k].original == ws[i].original
    ensures KeptGrows(ws[i], ws[k])
  {
    if i < k {
      OnlyTheUserChangesTheOriginal(ws, steps, i, k - 1);
      BooksAt(ws, steps, k);
    }
  }

  lemma BooksAt(ws: seq<World>, steps: seq<Action>, k: nat)
    requires IsRun(ws, steps) && Inv(ws[0]) && 0 < k < |ws|
    ensures !TouchesOriginal(ws[k - 1], steps[k - 1]) ==> ws[k].original == ws[k - 1].original
    ensures KeptGrows(ws[k - 1], ws[k])
  {
    RunKeepsInv(ws, steps, k - 1);
    assert IsStep(ws[k - 1], steps[k - 1], ws[k]);
    StepKeepsBooks(ws[k - 1], steps[k - 1], ws[k]);
  }

  lemma StepKeepsBooks(w: World, a: Action, w': World)
    requires Inv(w) && IsStep(w, a, w')
    ensures !TouchesOriginal(w, a) ==> w'.original == w.original
    ensures KeptGrows(w, w')
  {
  }
}
