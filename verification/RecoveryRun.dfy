/** `runCanonicalWorkingCopyRecovery`, step by step, against an environment that may fail
    any call, stop the process before or after any durable step, and let the user edit the
    working copy at any moment.

    Whatever happens, the run performs only guarded steps of `RecoveryProtocol`, so the
    theorems proved there about all runs are theorems about it. */
module RecoveryRun {
  import opened Basics
  import opened RecoveryModel
  import opened RecoveryProtocol
  import opened RecoveryCopies
  import Paths

  /** The fate of one call.  A failure or a stop may come before the call took effect or
      after it, as when a rename succeeds and flushing its directory does not. */
  datatype Outcome = Ok | FailBefore | FailAfter | CrashBefore | CrashAfter

  /** What happens at one call: an edit the user makes first, then the call's fate. */
  datatype Event = Event(edit: Option<Files>, outcome: Outcome)

  datatype Reply = Success | Refused | Crashed

  predicate TakesEffect(o: Outcome) {
    o == Ok || o == FailAfter || o == CrashAfter
  }

  function OutcomeAt(events: nat -> Event, n: nat): Outcome {
    events(n).outcome
  }

  /** What the run learns of a call, if it is still there to learn it. */
  function ReplyTo(o: Outcome): Reply {
    match o
    case Ok => Success
    case FailBefore => Refused
    case FailAfter => Refused
    case CrashBefore => Crashed
    case CrashAfter => Crashed
  }

  /** What the outside world answers: the checkout (and what an interrupted one leaves), the
      repository head, the native writer, and the metadata prepared for the fresh copy. */
  datatype Answers = Answers(partial: Dir, checkout: Dir, head: int, owner: string, metadata: Files)

  // ----- Edits before a call -----------------------------------------------------------

  /** The disk a call finds: as it was, or as the user has just edited it. */
  ghost function Drift(d: Disk, e: Event): Disk {
    if e.edit.Some? && Guard(d, Edit(e.edit.value)) then Apply(d, Edit(e.edit.value)) else d
  }

  /** An edit changes nothing but user entries of the working copy. */
  lemma DriftFacts(d: Disk, e: Event)
    ensures Drift(d, e) == d.(root := Drift(d, e).root) && Drift(d, e).root.Some? == d.root.Some?
    ensures d.root.Some? ==>
      && Drift(d, e).root.value.svn == d.root.value.svn
      && (d.receipt.Some? ==>
            && Top(Drift(d, e).root.value.files, Meta) == Top(d.root.value.files, Meta)
            && Top(Drift(d, e).root.value.files, Disabled(d.receipt.value.id)) ==
               Top(d.root.value.files, Disabled(d.receipt.value.id)))
      && WriterBound(Drift(d, e).root.value.files) == WriterBound(d.root.value.files)
      && (d.receipt.Some? ==>
            Marked(Drift(d, e).root.value.files, d.receipt.value) == Marked(d.root.value.files, d.receipt.value))
    ensures d.root.None? || e.edit.None? ==> Drift(d, e) == d
  {
    if e.edit.Some? && Guard(d, Edit(e.edit.value)) {
      var files, id, user := d.root.value.files, d.receipt.value.id, e.edit.value;
      EditKeepsTop(files, id, user, Meta);
      EditKeepsTop(files, id, user, Disabled(id));
      EditAgrees(files, id, user, WRITER);
      EditAgrees(files, id, user, MARKER);
    }
  }

  /** The staged checkout at the working copy's place. */
  function MovedIn(d: Disk, id: Id): Disk
    requires id in d.staging
  {
    d.(root := Some(d.staging[id]), staging := d.staging - {id})
  }

  /** The original back at its place. */
  function MovedBack(d: Disk, id: Id): Disk
    requires id in d.archives
  {
    d.(root := Some(d.archives[id]), archives := d.archives - {id})
  }

  lemma InstallCanBeDone(d: Disk)
    requires Guard(d, Install)
    ensures var id := d.receipt.value.id;
            && Apply(d, Install) == MovedIn(d, id) && SaveGuard(MovedIn(d, id), Done)
            && Guard(d, Rollback) && Apply(d, Rollback) == MovedBack(d, id)
            && MovedIn(d, id).receipt == d.receipt == MovedBack(d, id).receipt
            && d.root.None? && MovedIn(d, id).root.Some? && MovedBack(d, id).root.Some?
            && id in d.archives && id in MovedIn(d, id).archives && id !in MovedBack(d, id).archives
  {
  }

  function MoveReply(o: Outcome, undo: Outcome): Reply {
    if o != FailBefore then ReplyTo(o) else if ReplyTo(undo) == Crashed then Crashed else Refused
  }

  lemma DriftKeepsGuard(d: Disk, e: Event, a: Action)
    requires Guard(d, a) && !a.Accept? && !a.Edit?
    ensures Guard(Drift(d, e), a)
  {
    DriftFacts(d, e);
  }

  /** The staged checkout can take copies of `files`, which are the original's. */
  ghost predicate Copyable(d: Disk, files: Files)
    requires Active(d) && d.root.Some? && d.receipt.value.id in d.staging
  {
    var id := d.receipt.value.id;
    && Closed(files) && DirsTo(d.staging[id].files, CopiesPath(id))
    && (forall q :: q in d.staging[id].files ==> !Inside(q, CopiesPath(id)))
    && (forall p :: p in files ==> p in d.root.value.files && d.root.value.files[p] == files[p])
  }

  ghost predicate CopyableOne(d: Disk, base: Path, p: Path, node: Node)
    requires Active(d) && d.root.Some? && d.receipt.value.id in d.staging
  {
    var now := d.staging[d.receipt.value.id].files;
    && |p| > 0 && base + p !in now && DirsTo(now, Paths.Parent(base + p))
    && p in d.root.value.files && d.root.value.files[p] == node
  }

  /** The staged tree with one more entry: below directories that are there or can be made, a
      directory, or a file where nothing is and with the bytes both planned and found. */
  ghost function CopyTaken(d: Disk, base: Path, p: Path, node: Node): Option<Files>
    requires Active(d) && d.root.Some? && d.receipt.value.id in d.staging
  {
    var dst, files := base + p, d.staging[d.receipt.value.id].files;
    var made := Paths.MkdirAll(files, Directory, if node == Directory || |dst| == 0 then dst else Paths.Parent(dst));
    if node == Directory then made
    else
      if made.Some? && dst !in made.value && p in d.root.value.files && d.root.value.files[p] == node then
        Some(made.value[dst := node])
      else
        None
  }

  // ----- When a run can succeed ------------------------------------------------------------

  /** Everything the run asks about a working copy at its place is answered favourably. */
  ghost predicate Favourable(d: Disk, answers: Answers)
    requires Active(d) && d.root.Some?
  {
    var j := d.receipt.value;
    && (if j.stage == Accepted then
          j.id !in d.staging && FavourableCheckout(answers.checkout, j) && DirsTo(MetaOnly(answers.metadata), STATE)
        else
          j.id in d.staging && Ready(d.staging[j.id], j))
    && FavourableOriginal(d.root.value.files, j, answers)
  }

  ghost predicate FavourableOriginal(files: Files, j: Job, answers: Answers) {
    var retired := Top(files, Disabled(j.id));
    && TakeSnapshot(files, if retired then Disabled(j.id) else Meta) == Some(j.snapshot)
    && (!retired ==> answers.owner == j.writer && Top(files, Meta))
    && answers.head == j.head
    && WriterBound(files) && files[WRITER].content == j.writerHash
  }

  /** The original is at its place and may be moved. */
  ghost predicate Movable(d: Disk, answers: Answers)
    requires Active(d) && d.root.Some?
  {
    var j := d.receipt.value;
    j.id !in d.archives && OneMetadata(d.root.value.files, j.id) && FavourableOriginal(d.root.value.files, j, answers)
  }

  /** A run that nothing interferes with ends with "done". */
  ghost predicate Completable(d: Disk, answers: Answers)
    requires Active(d)
  {
    if d.root.None? then !Stuck(d)
    else if InPlace(d) then !Spoilt(d)
    else Favourable(d, answers)
  }

  /** The checkout is in place, but no longer clean or its copies no longer complete: a run
      refuses it, and leaves it for the user to put right. */
  ghost predicate Spoilt(d: Disk)
    requires Active(d)
  {
    InPlace(d) && !Ready(d.root.value, d.receipt.value)
  }

  /** What `verifyCanonicalCheckout` and `verifyCanonicalCopies` look for at the working copy. */
  function Clean(j: Job): Disk -> bool {
    (d: Disk) => d.root.Some? && CheckoutClean(d.root.value, j)
  }

  function Complete(j: Job): Disk -> bool {
    (d: Disk) => d.root.Some? && CopiesVerified(d.root.value.files, j)
  }

  /** The first was found at some moment from `from` on, the second at that moment or later. */
  ghost predicate FoundInTurn(ws: seq<World>, from: nat, first: Disk -> bool, second: Disk -> bool) {
    exists k, n :: from <= k <= n < |ws| && first(ws[k].disk) && second(ws[n].disk)
  }

  /** The checkout was found clean, and then or later its copies complete. */
  ghost predicate FoundReady(ws: seq<World>, from: nat, j: Job) {
    exists k, n :: from <= k <= n < |ws| && ws[k].disk.root.Some? && IsCheckout(ws[k].disk.root.value, j) &&
      ws[n].disk.root.Some? && HasCopies(ws[n].disk.root.value.files, j)
  }

  lemma FoundBoth(ws: seq<World>, from: nat, j: Job)
    requires FoundInTurn(ws, from, Clean(j), Complete(j))
    ensures FoundReady(ws, from, j)
  {
    var k, n :| from <= k <= n < |ws| && Clean(j)(ws[k].disk) && Complete(j)(ws[n].disk);
    CheckoutMeans(ws[k].disk.root.value, j);
    CopiesMean(ws[n].disk.root.value.files, j);
  }

  lemma FoundLater(ws: seq<World>, more: seq<World>, from: nat, first: Disk -> bool, second: Disk -> bool)
    requires ws <= more && FoundInTurn(ws, from, first, second)
    ensures FoundInTurn(more, from, first, second)
  {
    var k, n :| from <= k <= n < |ws| && first(ws[k].disk) && second(ws[n].disk);
    assert more[k] == ws[k] && more[n] == ws[n];
  }

  lemma FoundEarlier(ws: seq<World>, from: nat, since: nat, first: Disk -> bool, second: Disk -> bool)
    requires from <= since && FoundInTurn(ws, since, first, second)
    ensures FoundInTurn(ws, from, first, second)
  {
  }

  /** The original at its place is what the receipt binds, its metadata retired or not. */
  function HasContent(id: Id, snapshot: Snapshot, retired: bool): Disk -> bool {
    (d: Disk) =>
      && d.root.Some? && Top(d.root.value.files, Disabled(id)) == retired
      && TakeSnapshot(d.root.value.files, if retired then Disabled(id) else Meta) == Some(snapshot)
  }

  /** The native writer is recorded in it as the receipt says. */
  function HasWriter(hash: Content): Disk -> bool {
    (d: Disk) => d.root.Some? && WriterBound(d.root.value.files) && d.root.value.files[WRITER].content == hash
  }

  /** What has to be so before the original is moved: the repository head is the one planned for; the
      writer is, unless its metadata was retired before; and the original was found with the content
      and then with the writer record that the receipt binds. */
  ghost predicate JustifiesMove(ws: seq<World>, from: nat, j: Job, answers: Answers) {
    && answers.head == j.head
    && exists retired ::
         && (retired || answers.owner == j.writer)
         && FoundInTurn(ws, from, HasContent(j.id, j.snapshot, retired), HasWriter(j.writerHash))
  }

  /** The original was found with the content that the receipt binds. */
  ghost predicate FoundContent(ws: seq<World>, from: nat, snapshot: Snapshot) {
    exists k :: from <= k < |ws| && ws[k].disk.root.Some? &&
      TakeSnapshot(ws[k].disk.root.value.files, Meta) == Some(snapshot)
  }

  lemma ContentLater(ws: seq<World>, more: seq<World>, from: nat, since: nat, snapshot: Snapshot)
    requires ws <= more && from <= since && FoundContent(ws, since, snapshot)
    ensures FoundContent(more, from, snapshot)
  {
    var k :| since <= k < |ws| && ws[k].disk.root.Some? &&
      TakeSnapshot(ws[k].disk.root.value.files, Meta) == Some(snapshot);
    assert more[k] == ws[k];
  }

  /** What has to be so before a checkout counts as prepared: it came clean from the right repository
      at the right revision, can be proved, has nothing where the copies go, and the original was
      found as planned when they were made. */
  ghost predicate JustifiesCheckout(ws: seq<World>, from: nat, j: Job, answers: Answers) {
    && IsCheckout(answers.checkout, j) && TakeSnapshot(answers.checkout.files, Meta).Some?
    && !Top(answers.checkout.files, Collisions) && FoundContent(ws, from, j.snapshot)
  }

  lemma JustifiedLater(ws: seq<World>, more: seq<World>, from: nat, since: nat, j: Job, k: Job, answers: Answers)
    requires ws <= more && from <= since && JustifiesMove(ws, since, j, answers) && k == j.(stage := k.stage)
    ensures JustifiesMove(more, from, k, answers)
  {
    var retired :|
      && (retired || answers.owner == j.writer)
      && FoundInTurn(ws, since, HasContent(j.id, j.snapshot, retired), HasWriter(j.writerHash));
    FoundLater(ws, more, since, HasContent(j.id, j.snapshot, retired), HasWriter(j.writerHash));
    FoundEarlier(more, from, since, HasContent(j.id, j.snapshot, retired), HasWriter(j.writerHash));
  }

  /** The original was archived, and its content is not what the receipt binds: no run ever
      leaves this. */
  ghost predicate Stuck(d: Disk)
    requires Active(d)
  {
    var id := d.receipt.value.id;
    && d.root.None? && id in d.archives
    && (OneMetadata(d.archives[id].files, id) ==>
          TakeSnapshot(Restored(d.archives[id].files, id), Meta) != Some(d.receipt.value.snapshot))
  }

  /** The original is at its place. */
  predicate AtPlace(d: Disk)
    requires d.receipt.Some?
  {
    d.root.Some? && d.receipt.value.id !in d.archives
  }

  ghost predicate SameJob(a: Disk, b: Disk) {
    a.receipt.Some? && b.receipt.Some? && b.receipt.value == a.receipt.value.(stage := b.receipt.value.stage)
  }

  class Recovery {
    var disk: Disk
    var tick: nat
    const events: nat -> Event
    /** Every state passed through so far, across all runs, and the steps between them. */
    ghost var worlds: seq<World>
    ghost var steps: seq<Action>

    ghost predicate Valid()
      reads this
    {
      && IsRun(worlds, steps) && Inv(worlds[0]) && worlds[0].disk.receipt.None?
      && worlds[|steps|].disk == disk && EditsWereMet()
    }

    ghost function World(): RecoveryProtocol.World
      requires Valid()
      reads this
    {
      worlds[|steps|]
    }

    /** From now on no call fails, nothing stops the process and nobody edits. */
    ghost predicate Calm()
      reads this
    {
      forall n :: n >= tick ==> events(n) == Event(None, Ok)
    }

    /** From now on nobody edits, whatever else happens. */
    ghost predicate Unedited()
      reads this
    {
      forall n :: n >= tick ==> events(n).edit.None?
    }

    /** Unless an edit was met, every step so far is as planned. */
    ghost predicate EditsWereMet()
      reads this
    {
      NoEditMet(events, tick) ==> AllAsPlanned(steps, |steps|)
    }

    /** Calls were made since `from`, the last of which stopped the process if that is the reply, and
        none of which did otherwise. */
    ghost predicate Paced(from: nat, r: Reply)
      reads this
    {
      && from <= tick
      && if r == Crashed then from < tick && ReplyTo(events(tick - 1).outcome) == Crashed
         else forall n :: from <= n < tick ==> ReplyTo(events(n).outcome) != Crashed
    }

    /** No job yet. */
    constructor (root: Option<Dir>, events: nat -> Event)
      ensures Valid() && disk == Disk(root, map[], map[], None) && steps == [] && this.events == events && tick == 0
    {
      this.events, tick := events, 0;
      disk := Disk(root, map[], map[], None);
      var nothing := Dir(map[], SvnInfo("", "", 0, map[]));
      worlds := [RecoveryProtocol.World.World(Disk(root, map[], map[], None), nothing, map[], None)];
      steps := [];
    }

    lemma ValidInv()
      requires Valid()
      ensures Inv(World())
    {
      RunKeepsInv(worlds, steps, |steps|);
    }

    ghost method Extend(a: Action)
      requires IsRun(worlds, steps) && Inv(worlds[0]) && worlds[0].disk.receipt.None?
      requires Guard(worlds[|steps|].disk, a) && Apply(worlds[|steps|].disk, a) == disk
      requires NoEditMet(events, tick) ==> AsPlanned(a) && EditsWereMet()
      modifies this`worlds, this`steps
      ensures Valid() && old(worlds) <= worlds
      ensures a.Accept? ==> World().original == a.dir
      ensures steps == old(steps) + [a]
    {
      var n := |steps|;
      RunExtends(worlds, steps, a);
      PlanContinues(steps, a);
      worlds := worlds + [Next(worlds[n], a)];
      steps := steps + [a];
    }

    /** The user gets a turn, and the next call learns its fate. */
    method Turn() returns (o: Outcome)
      requires Valid()
      modifies this
      ensures Valid() && old(worlds) <= worlds
      ensures disk == Drift(old(disk), events(old(tick))) && o == events(old(tick)).outcome && tick == old(tick) + 1
    {
      var e := events(tick);
      tick := tick + 1;
      o := e.outcome;
      if e.edit.Some? && Guard(disk, Edit(e.edit.value)) {
        var root := disk.root.value;
        disk := disk.(root := Some(root.(files := EditUser(root.files, disk.receipt.value.id, e.edit.value))));
        Extend(Edit(e.edit.value));
      }
    }

    /** A call that only reads. */
    method Ask() returns (r: Reply)
      requires Valid()
      modifies this
      ensures Valid() && old(worlds) <= worlds
      ensures Paced(old(tick), r)
      ensures disk == Drift(old(disk), events(old(tick))) && tick == old(tick) + 1
      ensures r == ReplyTo(events(old(tick)).outcome)
      ensures old(Calm()) ==> r == Success
    {
      var o := Turn();
      r := ReplyTo(o);
    }

    /** A look at the working copy, whichever it is. */
    method Look() returns (r: Reply)
      requires Valid() && Active(disk) && disk.root.Some?
      modifies this
      ensures Valid() && old(worlds) <= worlds
      ensures Paced(old(tick), r) && old(tick) < tick
      ensures disk == old(disk).(root := disk.root) && disk.root.Some?
      ensures Marked(disk.root.value.files, disk.receipt.value) ==
          old(Marked(disk.root.value.files, disk.receipt.value))
      ensures Top(disk.root.value.files, Disabled(disk.receipt.value.id)) ==
              old(Top(disk.root.value.files, Disabled(disk.receipt.value.id)))
      ensures old(Unedited()) ==> disk == old(disk)
      ensures old(Calm()) ==> r == Success && disk == old(disk)
    {
      DriftFacts(disk, events(tick));
      r := Ask();
    }

    /** One durable step. */
    method Do(a: Action) returns (r: Reply)
      requires Valid() && Guard(disk, a) && !a.Accept? && !a.Edit?
      modifies this
      ensures Valid() && old(worlds) <= worlds
      ensures Paced(old(tick), r)
      ensures var found := Drift(old(disk), events(old(tick)));
              Guard(found, a) && disk == if TakesEffect(events(old(tick)).outcome) then Apply(found, a) else found
      ensures r == ReplyTo(events(old(tick)).outcome) && tick == old(tick) + 1
      ensures old(Calm()) ==> r == Success
    {
      DriftKeepsGuard(disk, events(tick), a);
      var o := Turn();
      if TakesEffect(o) {
        Perform(a);
      }
      r := ReplyTo(o);
    }

    /** The effect of the step itself. */
    method Perform(a: Action)
      requires Valid() && Guard(disk, a) && !a.Accept? && !a.Edit?
      modifies this`disk, this`worlds, this`steps
      ensures Valid() && old(worlds) <= worlds && disk == Apply(old(disk), a)
    {
      var j := disk.receipt.value;
      match a {
        case WriteStaging(dir) => disk := disk.(staging := disk.staging[j.id := dir]);
        case Save(stage) => disk := disk.(receipt := Some(j.(stage := stage)));
        case Retire =>
          var files := Rename(disk.root.value.files, Meta, Disabled(j.id));
          disk := disk.(root := Some(disk.root.value.(files := files)));
        case RestoreRoot =>
          var files := Rename(disk.root.value.files, Disabled(j.id), Meta);
          disk := disk.(root := Some(disk.root.value.(files := files)));
        case RestoreArchive =>
          var files := Rename(disk.archives[j.id].files, Disabled(j.id), Meta);
          disk := disk.(archives := disk.archives[j.id := disk.archives[j.id].(files := files)]);
        case Archive => disk := disk.(root := None, archives := disk.archives[j.id := disk.root.value]);
        case Install => disk := disk.(root := Some(disk.staging[j.id]), staging := disk.staging - {j.id});
        case Rollback => disk := disk.(root := Some(disk.archives[j.id]), archives := disk.archives - {j.id});
      }
      Extend(a);
    }

    // ----- restoreCanonicalMetadata ------------------------------------------------------

    method RestoreMetadata(archived: bool) returns (r: Reply)
      requires Valid() && Active(disk)
      requires if archived then disk.receipt.value.id in disk.archives
               else disk.root.Some? && disk.receipt.value.id !in disk.archives
      modifies this
      ensures Valid() && old(worlds) <= worlds
      ensures Paced(old(tick), r) && (r == Success || old(tick) < tick)
      ensures disk.receipt == old(disk.receipt) && disk.staging == old(disk.staging)
      ensures disk.archives.Keys == old(disk.archives).Keys && disk.root.Some? == old(disk.root.Some?)
      ensures old(InPlace(disk)) ==> r == Success && disk == old(disk)
      ensures archived && !old(Top(disk.archives[disk.receipt.value.id].files, Disabled(disk.receipt.value.id))) ==>
        r == Success && tick == old(tick)
      ensures archived ==>
        var id, was := disk.receipt.value.id, old(disk.archives)[disk.receipt.value.id];
        || disk.archives[id] == was
        || (OneMetadata(was.files, id) && disk.archives[id].files == Restored(was.files, id))
      ensures archived && r == Success ==>
        var id := disk.receipt.value.id;
        && !Top(disk.archives[id].files, Disabled(id))
        && OneMetadata(old(disk.archives[id].files), id)
        && disk.archives[id].files == Restored(old(disk.archives[id].files), id)
      ensures !archived && r == Success ==> !Top(disk.root.value.files, Disabled(disk.receipt.value.id))
      ensures old(Calm()) ==> r == Success
    {
      ValidInv();
      var id := disk.receipt.value.id;
      var dir := if archived then disk.archives[id] else disk.root.value;
      if !Top(dir.files, Disabled(id)) {
        return Success;
      }
      assert Holds(dir, World().original, id);
      DisabledIsPlain(dir, World().original, id);
      if [Disabled(id)] !in dir.files || dir.files[[Disabled(id)]] != Directory || Top(dir.files, Meta) ||
        !WriterBound(dir.files) {
        return Refused;
      }
      DriftFacts(disk, events(tick));
      RestoredName(Drift(disk, events(tick)), archived);
      r := Do(if archived then RestoreArchive else RestoreRoot);
    }

    // ----- The staged checkout -----------------------------------------------------------

    /** Replace the staged checkout by one more step of its preparation. */
    method WriteStaged(dir: Dir) returns (r: Reply)
      requires Valid() && Active(disk) && disk.receipt.value.stage == Accepted && disk.root.Some?
      modifies this
      ensures Valid() && old(worlds) <= worlds
      ensures Paced(old(tick), r) && old(tick) < tick
      ensures disk.receipt == old(disk.receipt) && disk.archives == old(disk.archives) && disk.root.Some?
      ensures r == Success ==> disk.receipt.value.id in disk.staging && disk.staging[disk.receipt.value.id] == dir
      ensures old(Calm()) ==> r == Success && disk.root == old(disk.root)
    {
      DriftFacts(disk, events(tick));
      r := Do(WriteStaging(dir));
    }

    /** The copy loop: every entry of the original's user tree goes below the copies
        directory, each file re-read and compared with what the plan recorded. */
    method CopyUserFiles(files: Files) returns (r: Reply)
      requires Valid() && Active(disk) && disk.receipt.value.stage == Accepted && disk.root.Some?
      requires disk.receipt.value.id in disk.staging
      modifies this
      ensures Valid() && old(worlds) <= worlds
      ensures Paced(old(tick), r)
      ensures disk.receipt == old(disk.receipt) && disk.archives == old(disk.archives) && disk.root.Some?
      ensures r == Success ==> disk.receipt.value.id in disk.staging
      ensures old(Calm()) ==> r != Crashed && disk.root == old(disk.root)
      ensures old(Calm()) && old(Copyable(disk, files)) ==>
        var id := disk.receipt.value.id;
        && r == Success && disk.staging[id].svn == old(disk.staging[id].svn)
        && Grafted(disk.staging[id].files, old(disk.staging[id].files), CopiesPath(id), files, files.Keys)
    {
      var id := disk.receipt.value.id;
      var base := CopiesPath(id);
      var list := Paths.ListShallowFirst(files.Keys);
      ghost var start := disk.staging[id];
      ghost var good := Calm() && Copyable(disk, files);
      var i := 0;
      while i < |list|
        invariant 0 <= i <= |list|
        invariant Valid() && old(worlds) <= worlds && Paced(old(tick), Success)
        invariant disk.receipt == old(disk.receipt) && disk.archives == old(disk.archives) && disk.root.Some?
        invariant id in disk.staging
        invariant old(Calm()) ==> disk.root == old(disk.root)
        invariant good ==> disk.staging[id] == start.(files := CopiedTo(start.files, base, files, list, i))
      {
        var p := list[i];
        Paths.ListedAt(list, files.Keys, i);
        if good {
          NextCopy(start.files, base, files, list, i);
        }
        r := CopyOne(base, p, files[p]);
        if r != Success {
          return;
        }
        i := i + 1;
      }
      if good {
        AllCopied(start.files, base, files, list);
      }
      r := Success;
    }

    /** One entry of the copy loop: a directory, or a file created exclusively and equal to
        what the plan recorded. */
    method CopyOne(base: Path, p: Path, node: Node) returns (r: Reply)
      requires Valid() && Active(disk) && disk.receipt.value.stage == Accepted && disk.root.Some?
      requires disk.receipt.value.id in disk.staging
      modifies this
      ensures Valid() && old(worlds) <= worlds
      ensures Paced(old(tick), r)
      ensures disk.receipt == old(disk.receipt) && disk.archives == old(disk.archives) && disk.root.Some?
      ensures r == Success ==>
        && disk.receipt.value.id in disk.staging
        && old(CopyTaken(disk, base, p, node)) == Some(disk.staging[disk.receipt.value.id].files)
        && disk.staging[disk.receipt.value.id].svn == old(disk.staging[disk.receipt.value.id].svn)
      ensures old(Calm()) ==> r != Crashed && disk.root == old(disk.root)
      ensures old(Calm()) && old(CopyableOne(disk, base, p, node)) ==>
        var id := disk.receipt.value.id;
        r == Success && disk.staging[id] ==
          old(disk.staging[id]).(files := old(disk.staging[id].files)[base + p := node])
    {
      var id := disk.receipt.value.id;
      var dst := base + p;
      var dir := disk.staging[id];
      if |dst| > 0 && DirsTo(dir.files, Paths.Parent(dst)) {
        Paths.MkdirAllOfExisting(dir.files, Directory, Paths.Parent(dst));
      }
      var parent := if node == Directory || |dst| == 0 then dst else Paths.Parent(dst);
      var made := Paths.MkdirAll(dir.files, Directory, parent);
      if made.None? {
        return Refused;
      }
      var files := made.value;
      if node != Directory {
        if dst in files || p !in disk.root.value.files || disk.root.value.files[p] != node {
          return Refused;
        }
        files := files[dst := node];
      }
      r := WriteStaged(dir.(files := files));
    }

    /** Check the server copy out into staging and look at what arrived. */
    method CheckOut(answers: Answers) returns (r: Reply)
      requires Valid() && Active(disk) && disk.receipt.value.stage == Accepted && disk.root.Some?
      modifies this
      ensures Valid() && old(worlds) <= worlds
      ensures Paced(old(tick), r) && old(tick) < tick
      ensures disk.receipt == old(disk.receipt) && disk.archives == old(disk.archives) && disk.root.Some?
      ensures r == Success ==>
        && disk.receipt.value.id in disk.staging && disk.staging[disk.receipt.value.id] == answers.checkout
        && IsCheckout(answers.checkout, disk.receipt.value) && TakeSnapshot(answers.checkout.files, Meta).Some?
      ensures old(Calm()) ==> r != Crashed && disk.root == old(disk.root)
      ensures old(Calm()) && FavourableCheckout(answers.checkout, disk.receipt.value) ==> r == Success
    {
      r := WriteStaged(answers.partial);
      if r != Success {
        return;
      }
      r := WriteStaged(answers.checkout);
      if r != Success {
        return;
      }
      DriftFacts(disk, events(tick));
      CheckoutMeans(answers.checkout, disk.receipt.value);
      r := Ask();
      if r == Success && (!CheckoutClean(answers.checkout, disk.receipt.value) ||
          TakeSnapshot(answers.checkout.files, Meta).None?) {
        return Refused;
      }
    }

    /** Make the copies directory in the fresh checkout and fill it. */
    method PreserveCopies() returns (r: Reply)
      requires Valid() && Active(disk) && disk.receipt.value.stage == Accepted && disk.root.Some?
      requires disk.receipt.value.id in disk.staging
      modifies this
      ensures Valid() && old(worlds) <= worlds
      ensures Paced(old(tick), r)
      ensures disk.receipt == old(disk.receipt) && disk.archives == old(disk.archives) && disk.root.Some?
      ensures r == Success ==>
        && disk.receipt.value.id in disk.staging && !old(Top(disk.staging[disk.receipt.value.id].files, Collisions))
        && FoundContent(worlds, |old(worlds)| - 1, disk.receipt.value.snapshot)
      ensures old(Calm()) ==> r != Crashed && disk.root == old(disk.root)
      ensures old(Calm()) && old(Preservable(disk)) ==>
        var id := disk.receipt.value.id;
        var base := CopiesPath(id);
        && r == Success && disk.staging[id].svn == old(disk.staging[id].svn)
        && Grafted(disk.staging[id].files, old(disk.staging[id].files)[base[..1] := Directory][base := Directory],
                   base, disk.receipt.value.snapshot.user, disk.receipt.value.snapshot.user.Keys)
    {
      var j := disk.receipt.value;
      var base := CopiesPath(j.id);
      var dir := disk.staging[j.id];
      ghost var good := Calm() && Preservable(disk);
      DriftFacts(disk, events(tick));
      r := Ask();
      if r != Success {
        return;
      }
      var snapshot := TakeSnapshot(disk.root.value.files, Meta);
      if snapshot != Some(j.snapshot) {
        return Refused;
      }
      var files := snapshot.value.user;
      if Top(dir.files, Collisions) {
        return Refused;
      }
      ghost var seen := worlds;
      assert FoundContent(seen, |old(worlds)| - 1, j.snapshot);
      r := MakeCopiesDir(dir, base);
      if r != Success {
        return;
      }
      if good {
        ReadyForCopies(disk, dir, files);
      }
      r := CopyUserFiles(files);
      ContentLater(seen, worlds, |old(worlds)| - 1, |old(worlds)| - 1, j.snapshot);
    }

    method MakeCopiesDir(dir: Dir, base: Path) returns (r: Reply)
      requires Valid() && Active(disk) && disk.receipt.value.stage == Accepted && disk.root.Some? && |base| > 1
      modifies this
      ensures Valid() && old(worlds) <= worlds
      ensures Paced(old(tick), r)
      ensures disk.receipt == old(disk.receipt) && disk.archives == old(disk.archives) && disk.root.Some?
      ensures r == Success ==>
        && disk.receipt.value.id in disk.staging
        && disk.staging[disk.receipt.value.id] == dir.(files := dir.files[base[..1] := Directory][base := Directory])
      ensures old(Calm()) ==> r == Success && disk.root == old(disk.root)
    {
      r := WriteStaged(dir.(files := dir.files[base[..1] := Directory]));
      if r != Success {
        return;
      }
      r := WriteStaged(dir.(files := dir.files[base[..1] := Directory][base := Directory]));
    }

    /** Give the fresh checkout its metadata and this job's marker, and record it prepared. */
    method MarkPrepared(answers: Answers) returns (r: Reply)
      requires Valid() && Active(disk) && disk.receipt.value.stage == Accepted && disk.root.Some?
      requires disk.receipt.value.id in disk.staging
      modifies this
      ensures Valid() && old(worlds) <= worlds && SameJob(old(disk), disk) && Active(disk)
      ensures Paced(old(tick), r)
      ensures disk.archives == old(disk.archives) && disk.root.Some?
      ensures r == Success ==> disk.receipt.value.stage == Prepared
      ensures old(Calm()) ==> r != Crashed && disk.root == old(disk.root)
      ensures old(Calm()) && old(Markable(disk, answers)) ==>
        r == Success && Staged(disk)
    {
      var j := disk.receipt.value;
      var dir := disk.staging[j.id];
      var files := dir.files + MetaOnly(answers.metadata);
      r := WriteStaged(dir.(files := files));
      if r != Success {
        return;
      }
      if DirsTo(files, STATE) {
        Paths.MkdirAllOfExisting(files, Directory, STATE);
      }
      var made := Paths.MkdirAll(files, Directory, STATE);
      if made.None? || (MARKER in made.value && !made.value[MARKER].File?) {
        return Refused;
      }
      var marked := dir.(files := made.value[MARKER := File(Receipt(j))]);
      r := WriteStaged(marked);
      if r != Success {
        return;
      }
      r := ConfirmPrepared(marked);
    }

    /** Look at the marked checkout once more before the receipt says it is prepared. */
    method ConfirmPrepared(marked: Dir) returns (r: Reply)
      requires Valid() && Active(disk) && disk.receipt.value.stage == Accepted && disk.root.Some?
      requires disk.receipt.value.id in disk.staging && disk.staging[disk.receipt.value.id] == marked
      requires Marked(marked.files, disk.receipt.value)
      modifies this
      ensures Valid() && old(worlds) <= worlds && SameJob(old(disk), disk) && Active(disk)
      ensures Paced(old(tick), r)
      ensures disk.archives == old(disk.archives) && disk.staging == old(disk.staging) && disk.root.Some?
      ensures r == Success ==> disk.receipt.value.stage == Prepared
      ensures old(Calm()) ==> r != Crashed && disk.root == old(disk.root)
      ensures old(Calm()) && Ready(marked, old(disk).receipt.value) ==> r == Success && Staged(disk)
    {
      var j := disk.receipt.value;
      DriftFacts(disk, events(tick));
      r := Ask();
      if r != Success {
        return;
      }
      if !CopiesVerified(marked.files, j) {
        return Refused;
      }
      ReadyIgnoresStage(marked, j, Prepared);
      DriftFacts(disk, events(tick));
      r := Do(Save(Prepared));
    }

    method FillStaging(answers: Answers) returns (r: Reply)
      requires Valid() && Active(disk) && disk.receipt.value.stage == Accepted && disk.root.Some?
      requires disk.receipt.value.id in disk.staging
      modifies this
      ensures Valid() && old(worlds) <= worlds && SameJob(old(disk), disk) && Active(disk)
      ensures Paced(old(tick), r)
      ensures disk.archives == old(disk.archives) && disk.root.Some?
      ensures r == Success ==> disk.receipt.value.stage == Prepared
      ensures disk.receipt.value.stage != Accepted ==>
        && !old(Top(disk.staging[disk.receipt.value.id].files, Collisions))
        && FoundContent(worlds, |old(worlds)| - 1, disk.receipt.value.snapshot)
      ensures old(Calm()) ==> r != Crashed && disk.root == old(disk.root)
      ensures old(Calm()) && old(Fillable(disk, answers)) ==>
        r == Success && Staged(disk)
    {
      ghost var good := Calm() && Fillable(disk, answers);
      assert good ==> Preservable(disk);
      r := PreserveCopies();
      if r != Success {
        return;
      }
      if good {
        FavourableMarks(disk, answers);
      }
      ghost var seen := worlds;
      r := MarkPrepared(answers);
      ContentLater(seen, worlds, |old(worlds)| - 1, |old(worlds)| - 1, disk.receipt.value.snapshot);
    }

    /** From "accepted" to "prepared". */
    method Prepare(answers: Answers) returns (r: Reply)
      requires Valid() && Active(disk) && disk.receipt.value.stage == Accepted && disk.root.Some?
      modifies this
      ensures Valid() && old(worlds) <= worlds && SameJob(old(disk), disk) && Active(disk)
      ensures Paced(old(tick), r) && (tick == old(tick) ==> r == Refused && disk == old(disk))
      ensures disk.archives == old(disk.archives) && disk.root.Some?
      ensures r == Success ==> disk.receipt.value.stage == Prepared
      ensures disk.receipt.value.stage != Accepted ==>
        JustifiesCheckout(worlds, |old(worlds)| - 1, old(disk.receipt.value), answers)
      ensures old(Calm()) ==> r != Crashed && disk.root == old(disk.root)
      ensures old(Calm()) && old(Favourable(disk, answers)) ==>
        r == Success && Staged(disk)
    {
      var j := disk.receipt.value;
      if j.id in disk.staging || j.id in disk.archives {
        assert j.id !in disk.archives by {
          ValidInv();
        }
        return Refused;
      }
      ghost var good := Calm() && Favourable(disk, answers);
      assert good ==> TakeSnapshot(disk.root.value.files, Meta) == Some(j.snapshot) by {
        ValidInv();
      }
      r := StageCheckout(answers);
    }

    method StageCheckout(answers: Answers) returns (r: Reply)
      requires Valid() && Active(disk) && disk.receipt.value.stage == Accepted && disk.root.Some?
      modifies this
      ensures Valid() && old(worlds) <= worlds && SameJob(old(disk), disk) && Active(disk)
      ensures Paced(old(tick), r) && old(tick) < tick
      ensures disk.archives == old(disk.archives) && disk.root.Some?
      ensures r == Success ==> disk.receipt.value.stage == Prepared
      ensures disk.receipt.value.stage != Accepted ==>
        JustifiesCheckout(worlds, |old(worlds)| - 1, old(disk.receipt.value), answers)
      ensures old(Calm()) ==> r != Crashed && disk.root == old(disk.root)
      ensures old(Calm()) && old(Stageable(disk, answers)) ==> r == Success && Staged(disk)
    {
      var j := disk.receipt.value;
      r := CheckOut(answers);
      if r != Success {
        return;
      }
      ghost var since := |worlds| - 1;
      r := FillStaging(answers);
      if disk.receipt.value.stage != Accepted {
        ContentLater(worlds, worlds, |old(worlds)| - 1, since, j.snapshot);
      }
    }

    /** The checks made on the staged checkout before anything is moved. */
    method VerifyStaging() returns (r: Reply)
      requires Valid() && Active(disk)
      modifies this
      ensures Valid() && old(worlds) <= worlds
      ensures Paced(old(tick), r) && (tick == old(tick) ==> r == Refused && disk == old(disk) && !Staged(disk))
      ensures disk == old(disk).(root := disk.root) && disk.root.Some? == old(disk.root.Some?)
      ensures r == Success ==>
        Staged(disk) && IsReplacement(disk.staging[disk.receipt.value.id], disk.receipt.value)
      ensures old(Calm()) ==> disk == old(disk) && r != Crashed
      ensures old(Calm()) && Staged(disk) ==> r == Success
    {
      var j := disk.receipt.value;
      if j.id !in disk.staging || !Marked(disk.staging[j.id].files, j) {
        return Refused;
      }
      DriftFacts(disk, events(tick));
      r := Ask();
      if r != Success {
        return;
      }
      if !CheckoutClean(disk.staging[j.id], j) {
        return Refused;
      }
      DriftFacts(disk, events(tick));
      r := Ask();
      if r == Success && !CopiesVerified(disk.staging[j.id].files, j) {
        return Refused;
      }
      ReadyMeans(disk.staging[j.id], j);
    }

    /** Retire the metadata of the original under the writer lease, then move it aside. */
    method RetireAndArchive(answers: Answers) returns (r: Reply)
      requires Valid() && Active(disk) && disk.receipt.value.stage != Accepted && disk.root.Some?
      requires Staged(disk)
      modifies this
      ensures Valid() && old(worlds) <= worlds && SameJob(old(disk), disk)
      ensures Paced(old(tick), r)
      ensures Active(disk) && disk.receipt.value.stage != Accepted && disk.staging == old(disk.staging)
      ensures r == Success ==> disk.root.None? && disk.receipt.value.id in disk.archives
      ensures old(disk.receipt.value.id) !in old(disk.archives) && disk.receipt.value.id in disk.archives ==>
        JustifiesMove(worlds, |old(worlds)| - 1, old(disk.receipt.value), answers)
      ensures old(Calm()) ==> r != Crashed
      ensures old(Calm()) && r == Refused && old(disk.receipt.value.id !in disk.archives) ==>
        disk.root.Some? && disk.receipt.value.id !in disk.archives
      ensures old(Calm()) && old(Movable(disk, answers)) ==> r == Success
    {
      var j := disk.receipt.value;
      if j.id in disk.archives {
        return Refused;
      }
      var retired := Top(disk.root.value.files, Disabled(j.id));
      if retired && Top(disk.root.value.files, Meta) {
        return Refused;
      }
      r := CheckOriginal(answers, retired);
      if r != Success {
        return;
      }
      ghost var checked := worlds;
      r := RetireAndMove(retired);
      JustifiedLater(checked, worlds, |old(worlds)| - 1, |old(worlds)| - 1, j, j, answers);
    }

    method RetireAndMove(retired: bool) returns (r: Reply)
      requires Valid() && Active(disk) && disk.receipt.value.stage != Accepted
      requires disk.root.Some? && disk.receipt.value.id !in disk.archives && Staged(disk)
      requires retired == Top(disk.root.value.files, Disabled(disk.receipt.value.id))
      modifies this
      ensures Valid() && old(worlds) <= worlds && SameJob(old(disk), disk)
      ensures Paced(old(tick), r)
      ensures Active(disk) && disk.receipt.value.stage != Accepted && disk.staging == old(disk.staging)
      ensures r == Success ==> disk.root.None? && disk.receipt.value.id in disk.archives
      ensures old(Calm()) ==> r != Crashed
      ensures old(Calm()) && r == Refused ==> disk.root.Some? && disk.receipt.value.id !in disk.archives
      ensures old(Calm()) && (retired || old(Top(disk.root.value.files, Meta))) ==> r == Success
    {
      var j := disk.receipt.value;
      r := RetireUnderLease(retired);
      if r != Success {
        return;
      }
      KeptReady(disk.staging[j.id], j, Retired);
      r := MoveAside();
    }

    method MoveAside() returns (r: Reply)
      requires Valid() && Active(disk) && disk.receipt.value.stage == Retired
      requires disk.root.Some? && disk.receipt.value.id !in disk.archives
      requires Staged(disk)
      modifies this
      ensures Valid() && old(worlds) <= worlds && SameJob(old(disk), disk)
      ensures Paced(old(tick), r)
      ensures Active(disk) && disk.receipt.value.stage != Accepted && disk.staging == old(disk.staging)
      ensures r == Success ==> disk.root.None? && disk.receipt.value.id in disk.archives
      ensures old(Calm()) ==> r == Success
    {
      DriftFacts(disk, events(tick));
      r := Do(Archive);
      if r != Success {
        return;
      }
      DriftFacts(disk, events(tick));
      r := Do(Save(Archived));
    }

    /** The original is what the receipt binds, nobody writes to it, and the server has not
        moved on. */
    method CheckOriginal(answers: Answers, retired: bool) returns (r: Reply)
      requires Valid() && Active(disk) && disk.root.Some?
      requires retired == Top(disk.root.value.files, Disabled(disk.receipt.value.id))
      modifies this
      ensures Valid() && old(worlds) <= worlds
      ensures Paced(old(tick), r)
      ensures disk == old(disk).(root := disk.root) && disk.root.Some?
      ensures retired == Top(disk.root.value.files, Disabled(disk.receipt.value.id))
      ensures r == Success ==> JustifiesMove(worlds, |old(worlds)| - 1, disk.receipt.value, answers)
      ensures old(Calm()) ==>
        && disk == old(disk)
        && var j := disk.receipt.value;
           r == if && TakeSnapshot(disk.root.value.files, if retired then Disabled(j.id) else Meta) == Some(j.snapshot)
                   && (retired || answers.owner == j.writer) && answers.head == j.head
                   && WriterBound(disk.root.value.files) && disk.root.value.files[WRITER].content == j.writerHash
                then Success else Refused
    {
      var j := disk.receipt.value;
      r := CheckInTurn(HasContent(j.id, j.snapshot, retired), retired || answers.owner == j.writer, !retired,
                       answers.head == j.head, HasWriter(j.writerHash));
    }

    /** A look for the content, a question for the writer if it is to be asked, one for the head, and
        a look for the writer record. */
    method CheckInTurn(content: Disk -> bool, owner: bool, ask: bool, head: bool, writer: Disk -> bool)
      returns (r: Reply)
      requires Valid() && Active(disk) && disk.root.Some?
      modifies this
      ensures Valid() && old(worlds) <= worlds
      ensures Paced(old(tick), r)
      ensures disk == old(disk).(root := disk.root) && disk.root.Some?
      ensures Top(disk.root.value.files, Disabled(disk.receipt.value.id)) ==
              old(Top(disk.root.value.files, Disabled(disk.receipt.value.id)))
      ensures r == Success ==>
        (ask ==> owner) && head && FoundInTurn(worlds, |old(worlds)| - 1, content, writer)
      ensures old(Calm()) ==>
        disk == old(disk) &&
        r == if content(disk) && (ask ==> owner) && head && writer(disk) then Success else Refused
    {
      r := LookFor(content);
      if r != Success {
        return;
      }
      ghost var k := |worlds| - 1;
      r := AskBoth(owner, ask, head);
      if r != Success {
        return;
      }
      r := LookFor(writer);
      assert r == Success ==> content(worlds[k].disk) && writer(worlds[|worlds| - 1].disk);
    }

    method AskBoth(owner: bool, ask: bool, head: bool) returns (r: Reply)
      requires Valid() && Active(disk) && disk.root.Some?
      modifies this
      ensures Valid() && old(worlds) <= worlds
      ensures Paced(old(tick), r)
      ensures disk == old(disk).(root := disk.root) && disk.root.Some?
      ensures Top(disk.root.value.files, Disabled(disk.receipt.value.id)) ==
              old(Top(disk.root.value.files, Disabled(disk.receipt.value.id)))
      ensures r == Success ==> (ask ==> owner) && head
      ensures old(Calm()) ==> disk == old(disk) && r == if (ask ==> owner) && head then Success else Refused
    {
      if ask {
        r := Look();
        if r != Success {
          return;
        }
        if !owner {
          return Refused;
        }
      }
      r := Look();
      if r == Success && !head {
        return Refused;
      }
    }

    method RetireUnderLease(retired: bool) returns (r: Reply)
      requires Valid() && Active(disk) && disk.receipt.value.stage != Accepted
      requires disk.root.Some? && disk.receipt.value.id !in disk.archives
      requires retired == Top(disk.root.value.files, Disabled(disk.receipt.value.id))
      modifies this
      ensures Valid() && old(worlds) <= worlds && SameJob(old(disk), disk)
      ensures Paced(old(tick), r)
      ensures Active(disk) && disk.receipt.value.stage != Accepted
      ensures disk.staging == old(disk.staging) && disk.archives == old(disk.archives) && disk.root.Some?
      ensures r == Success ==> disk.receipt.value.stage == Retired
      ensures old(Calm()) ==> r != Crashed
      ensures old(Calm()) && (retired || old(Top(disk.root.value.files, Meta))) ==> r == Success
    {
      var id := disk.receipt.value.id;
      if !retired {
        if !Top(disk.root.value.files, Meta) {
          return Refused;
        }
        DriftFacts(disk, events(tick));
        RetiredName(Drift(disk, events(tick)));
        r := Do(Retire);
        if r != Success {
          return;
        }
      }
      DriftFacts(disk, events(tick));
      r := Do(Save(Retired));
    }

    /** Before resuming with an archived original: its metadata back, its content unchanged. */
    method ResumeArchived() returns (r: Reply)
      requires Valid() && Active(disk) && disk.root.None? && disk.receipt.value.id in disk.archives
      modifies this
      ensures Valid() && old(worlds) <= worlds
      ensures Paced(old(tick), r)
      ensures disk == old(disk).(archives := disk.archives) && disk.archives.Keys == old(disk).archives.Keys
      ensures old(Calm()) ==> r == if old(Stuck(disk)) then Refused else Success
      ensures old(Stuck(disk)) ==> r != Success && Stuck(disk)
    {
      var id := disk.receipt.value.id;
      r := RestoreMetadata(true);
      StuckStays(old(disk), disk);
      if r != Success {
        return;
      }
      DriftFacts(disk, events(tick));
      r := Ask();
      if r == Success && TakeSnapshot(disk.archives[id].files, Meta) != Some(disk.receipt.value.snapshot) {
        return Refused;
      }
    }

    /** `install`: the staged checkout takes the place of the archived original, or the
        original is put back.  A refusal leaves neither there only when the move was refused and the
        call to undo it failed too, unless the original's metadata could not be restored before. */
    method InstallStaged() returns (r: Reply)
      requires Valid() && Active(disk) && disk.root.None? && disk.receipt.value.id in disk.archives
      modifies this
      ensures Valid() && old(worlds) <= worlds && SameJob(old(disk), disk)
      ensures Paced(old(tick), r)
      ensures disk.receipt.value.stage != Failed
      ensures r == Success ==> disk.receipt.value.stage == Done
      ensures r == Refused && disk.root.None? &&
              !old(Top(disk.archives[disk.receipt.value.id].files, Disabled(disk.receipt.value.id))) ==>
        OutcomeAt(events, old(tick)) == FailBefore && OutcomeAt(events, old(tick) + 1) == FailBefore
      ensures old(Calm()) ==> r == Success
    {
      InvFacts();
      ghost var n, next := tick, tick + 1;
      r := RestoreMetadata(true);
      if r != Success {
        return;
      }
      r := PutInPlace(tick, if tick == n then next else tick + 1);
    }

    /** The move and the two receipts; `n` is the call for the move, `next` the one after it. */
    method PutInPlace(ghost n: nat, ghost next: nat) returns (r: Reply)
      requires Valid() && Guard(disk, Install) && n == tick && next == tick + 1
      modifies this
      ensures Valid() && old(worlds) <= worlds && SameJob(old(disk), disk)
      ensures Paced(old(tick), r)
      ensures disk.receipt.value.stage != Failed
      ensures r == Success ==> disk.receipt.value.stage == Done
      ensures r == Refused && disk.root.None? ==>
        OutcomeAt(events, n) == FailBefore && OutcomeAt(events, next) == FailBefore
      ensures old(Calm()) ==> r == Success
    {
      ghost var d, id := disk, disk.receipt.value.id;
      InstallCanBeDone(d);
      r := DoOrUndo(Install, Rollback, MovedIn(d, id), MovedBack(d, id), n, next);
      if r == Success {
        r := RecordInstalled();
      }
    }

    /** A durable step, and another to undo it when it is refused and has not happened. */
    method DoOrUndo(a: Action, b: Action, ghost after: Disk, ghost undone: Disk, ghost n: nat, ghost next: nat)
      returns (r: Reply)
      requires Valid() && Guard(disk, a) && Guard(disk, b) && !a.Accept? && !a.Edit? && !b.Accept? && !b.Edit?
      requires after == Apply(disk, a) && undone == Apply(disk, b)
      requires n == tick && next == tick + 1
      requires disk.root.None? && after.root.Some? && undone.root.Some?
      modifies this
      ensures Valid() && old(worlds) <= worlds
      ensures Paced(old(tick), r)
      ensures r == Refused && disk.root.None? ==>
        OutcomeAt(events, n) == FailBefore && OutcomeAt(events, next) == FailBefore
      ensures var o, undo := OutcomeAt(events, n), OutcomeAt(events, next);
              && r == MoveReply(o, undo)
              && (TakesEffect(o) ==> disk == after)
              && (o == FailBefore && TakesEffect(undo) ==> disk == undone)
              && (!TakesEffect(o) && !(o == FailBefore && TakesEffect(undo)) ==> disk == old(disk))
    {
      ghost var d := disk;
      r := DoAlone(a, after, n);
      if r == Refused && disk.root.None? {
        assert disk == d;
        r := DoAlone(b, undone, next);
        r := if r == Crashed then Crashed else Refused;
      }
    }

    /** A durable step, the `n`-th call, while nothing is at the working copy's place for the user to
        edit. */
    method DoAlone(a: Action, ghost after: Disk, ghost n: nat) returns (r: Reply)
      requires Valid() && Guard(disk, a) && !a.Accept? && !a.Edit? && after == Apply(disk, a) && disk.root.None?
      requires n == tick
      modifies this
      ensures Valid() && old(worlds) <= worlds
      ensures Paced(old(tick), r) && tick == old(tick) + 1 && r == ReplyTo(OutcomeAt(events, n))
      ensures TakesEffect(OutcomeAt(events, n)) ==> disk == after
      ensures !TakesEffect(OutcomeAt(events, n)) ==> disk == old(disk)
    {
      r := Do(a);
    }

    method RecordInstalled() returns (r: Reply)
      requires Valid() && Active(disk) && SaveGuard(disk, Done)
      modifies this
      ensures Valid() && old(worlds) <= worlds && SameJob(old(disk), disk)
      ensures Paced(old(tick), r)
      ensures disk.receipt.value.stage in {old(disk).receipt.value.stage, Installed, Done} && disk.root.Some?
      ensures r == Success ==> disk.receipt.value.stage == Done
      ensures old(Calm()) ==> r == Success
    {
      var j := disk.receipt.value;
      r := Record(Installed);
      if r != Success {
        return;
      }
      ReadyIgnoresStage(disk.root.value, j, Installed);
      r := Record(Done);
    }

    /** Write a stage while the checkout is in place. */
    method Record(stage: Stage) returns (r: Reply)
      requires Valid() && Active(disk) && InPlace(disk) && stage in {Installed, Done} && SaveGuard(disk, stage)
      modifies this
      ensures Valid() && old(worlds) <= worlds && SameJob(old(disk), disk)
      ensures Paced(old(tick), r)
      ensures disk.archives == old(disk.archives) && disk.staging == old(disk.staging) && disk.root.Some?
      ensures Marked(disk.root.value.files, old(disk.receipt.value)) ==
              old(Marked(disk.root.value.files, disk.receipt.value))
      ensures disk.receipt.value.stage in {old(disk).receipt.value.stage, stage}
      ensures r == Success ==> disk.receipt.value.stage == stage
      ensures old(Calm()) ==> r == Success
    {
      DriftFacts(disk, events(tick));
      r := Do(Save(stage));
    }

    /** The deferred repair: a refused run that left the original in place restores its
        metadata and records the failure. */
    method Cleanup() returns (r: Reply)
      requires Valid() && disk.receipt.Some? && disk.receipt.value.stage != Failed
      modifies this
      ensures Valid() && old(worlds) <= worlds && SameJob(old(disk), disk)
      ensures disk.archives.Keys == old(disk.archives).Keys
      ensures disk.receipt.value.stage in {old(disk.receipt.value.stage), Failed}
      ensures Paced(old(tick), r)
      ensures old(AtPlace(disk)) ==> old(tick) < tick
      ensures r != Success
      ensures old(Calm()) ==> r == Refused
      ensures old(Calm()) && old(AtPlace(disk)) ==>
          disk.receipt.value.stage == Failed
      ensures !old(AtPlace(disk)) ==> r == Refused && disk == old(disk)
    {
      ValidInv();
      var j := disk.receipt.value;
      if disk.root.None? || Marked(disk.root.value.files, j) || j.id in disk.archives {
        if disk.root.Some? && j.id !in disk.archives {
          MarkedIsNotOriginal(disk.root.value, World().original, j);
        }
        return Refused;
      }
      r := GiveBack();
    }

    method GiveBack() returns (r: Reply)
      requires Valid() && Active(disk) && disk.root.Some? && disk.receipt.value.id !in disk.archives
      modifies this
      ensures Valid() && old(worlds) <= worlds && SameJob(old(disk), disk)
      ensures disk.archives.Keys == old(disk.archives).Keys
      ensures disk.receipt.value.stage in {old(disk.receipt.value.stage), Failed}
      ensures Paced(old(tick), r) && old(tick) < tick && r != Success
      ensures old(Calm()) ==> r == Refused && disk.receipt.value.stage == Failed
    {
      r := RestoreMetadata(false);
      if r != Success {
        return;
      }
      DriftFacts(disk, events(tick));
      r := Do(Save(Failed));
      r := if r == Crashed then Crashed else Refused;
    }

    // ----- The whole run -------------------------------------------------------------------

    /** A marker-bound checkout is already in place: only the outcome is missing.  It is
        recorded for a checkout found clean and complete, and for no other. */
    method FinishSwapped() returns (r: Reply)
      requires Valid() && Active(disk) && InPlace(disk) && disk.receipt.value.id !in disk.staging
      requires Marked(disk.root.value.files, disk.receipt.value)
      modifies this
      ensures Valid() && old(worlds) <= worlds && SameJob(old(disk), disk)
      ensures Paced(old(tick), r) && old(tick) < tick
      ensures r == Success ==>
        disk.receipt.value.stage == Done && FoundReady(worlds, |old(worlds)| - 1, old(disk).receipt.value)
      ensures old(Calm()) ==> r == if old(Spoilt(disk)) then Refused else Success
      ensures old(Unedited()) && old(Spoilt(disk)) ==> r != Success && disk == old(disk)
    {
      ghost var j := disk.receipt.value;
      r := Finish();
      if r == Success {
        FoundBoth(worlds, |old(worlds)| - 1, j);
      }
    }

    method Finish() returns (r: Reply)
      requires Valid() && Active(disk) && InPlace(disk) && disk.receipt.value.id !in disk.staging
      requires Marked(disk.root.value.files, disk.receipt.value)
      modifies this
      ensures Valid() && old(worlds) <= worlds && SameJob(old(disk), disk)
      ensures Paced(old(tick), r) && old(tick) < tick
      ensures r == Success ==>
        var j := old(disk).receipt.value;
        disk.receipt.value.stage == Done && FoundInTurn(worlds, |old(worlds)| - 1, Clean(j), Complete(j))
      ensures old(Calm()) ==> r == if old(Spoilt(disk)) then Refused else Success
      ensures old(Unedited()) && old(Spoilt(disk)) ==> r != Success && disk == old(disk)
    {
      InvFacts();
      var j := disk.receipt.value;
      r := RestoreMetadata(true);
      r := Recheck(Clean(j), Complete(j));
      if r == Success {
        InvFacts();
        r := Record(Done);
      }
    }

    /** Two looks at the checkout in place, one after the other. */
    method Recheck(first: Disk -> bool, second: Disk -> bool) returns (r: Reply)
      requires Valid() && Active(disk) && disk.root.Some?
      modifies this
      ensures Valid() && old(worlds) <= worlds
      ensures Paced(old(tick), r) && old(tick) < tick
      ensures disk == old(disk).(root := disk.root) && disk.root.Some?
      ensures r == Success ==> FoundInTurn(worlds, |old(worlds)| - 1, first, second)
      ensures old(Unedited()) ==> disk == old(disk) && (r == Success ==> first(disk) && second(disk))
      ensures old(Calm()) ==> r == if first(disk) && second(disk) then Success else Refused
    {
      r := LookFor(first);
      if r != Success {
        return;
      }
      ghost var k := |worlds| - 1;
      r := LookFor(second);
      assert r == Success ==> first(worlds[k].disk) && second(worlds[|worlds| - 1].disk);
    }

    method LookFor(test: Disk -> bool) returns (r: Reply)
      requires Valid() && Active(disk) && disk.root.Some?
      modifies this
      ensures Valid() && old(worlds) <= worlds
      ensures Paced(old(tick), r) && old(tick) < tick
      ensures disk == old(disk).(root := disk.root) && disk.root.Some?
      ensures Top(disk.root.value.files, Disabled(disk.receipt.value.id)) ==
              old(Top(disk.root.value.files, Disabled(disk.receipt.value.id)))
      ensures r == Success ==> test(disk)
      ensures old(Unedited()) ==> disk == old(disk)
      ensures old(Calm()) ==> r == if test(disk) then Success else Refused
    {
      r := Look();
      if r == Success && !test(disk) {
        r := Refused;
      }
    }

    /** What the run does before the deferred repair. */
    method Body(answers: Answers) returns (r: Reply)
      requires Valid() && Active(disk)
      modifies this
      ensures Valid() && old(worlds) <= worlds && SameJob(old(disk), disk)
      ensures Paced(old(tick), r) && (tick == old(tick) ==> r == Refused && disk == old(disk) && disk.root.Some?)
      ensures disk.receipt.value.stage != Failed
      ensures r == Success ==> disk.receipt.value.stage == Done
      ensures old(AtPlace(disk)) && disk.receipt.value.id in disk.archives ==>
        JustifiesMove(worlds, |old(worlds)| - 1, old(disk.receipt.value), answers)
      ensures old(disk.receipt.value.stage) == Accepted && disk.receipt.value.stage !in {Accepted, Failed} ==>
        JustifiesCheckout(worlds, |old(worlds)| - 1, old(disk.receipt.value), answers)
      ensures old(Calm()) ==> r != Crashed
      ensures old(Calm()) && old(disk.root.None?) ==> r == if old(Stuck(disk)) then Refused else Success
      ensures old(Stuck(disk)) ==> r != Success && disk.receipt == old(disk.receipt) && Stuck(disk)
      ensures old(Calm()) && old(AtPlace(disk)) ==>
        r == Success || (disk.root.Some? && disk.receipt.value.id !in disk.archives)
      ensures old(Calm() && AtPlace(disk) && Favourable(disk, answers)) ==>
        r == Success
    {
      InvFacts();
      ghost var good := Calm() && disk.root.Some? && disk.receipt.value.id !in disk.archives &&
        Favourable(disk, answers);
      if disk.receipt.value.stage == Accepted {
        r := Prepare(answers);
        if r != Success {
          return;
        }
        assert good ==> Movable(disk, answers);
      }
      ghost var prepared := worlds;
      r := Replace(answers);
      if old(disk.receipt.value.stage) == Accepted {
        ContentLater(prepared, worlds, |old(worlds)| - 1, |old(worlds)| - 1, old(disk.receipt.value.snapshot));
      }
    }

    /** From a prepared checkout to the end. */
    method Replace(answers: Answers) returns (r: Reply)
      requires Valid() && Active(disk) && disk.receipt.value.stage != Accepted
      modifies this
      ensures Valid() && old(worlds) <= worlds && SameJob(old(disk), disk)
      ensures Paced(old(tick), r) && (tick == old(tick) ==> r == Refused && disk == old(disk) && disk.root.Some?)
      ensures disk.receipt.value.stage != Failed
      ensures r == Success ==> disk.receipt.value.stage == Done
      ensures old(AtPlace(disk)) && disk.receipt.value.id in disk.archives ==>
        JustifiesMove(worlds, |old(worlds)| - 1, old(disk.receipt.value), answers)
      ensures old(Calm()) ==> r != Crashed
      ensures old(Calm()) && old(disk.root.None?) ==> r == if old(Stuck(disk)) then Refused else Success
      ensures old(Stuck(disk)) ==> r != Success && disk.receipt == old(disk.receipt) && Stuck(disk)
      ensures old(Calm()) && old(AtPlace(disk)) ==>
        r == Success || (disk.root.Some? && disk.receipt.value.id !in disk.archives)
      ensures old(Calm()) && old(Staged(disk) && disk.root.Some? && Movable(disk, answers)) ==> r == Success
    {
      InvFacts();
      r := VerifyStaging();
      if r != Success {
        return;
      }
      ghost var verified := |worlds| - 1;
      r := Exchange(answers);
      if old(AtPlace(disk)) && disk.receipt.value.id in disk.archives {
        ghost var j := old(disk.receipt.value);
        JustifiedLater(worlds, worlds, |old(worlds)| - 1, verified, j, j, answers);
      }
    }

    /** The original goes, the staged checkout comes. */
    method Exchange(answers: Answers) returns (r: Reply)
      requires Valid() && Active(disk) && disk.receipt.value.stage != Accepted && Staged(disk)
      requires disk.root.None? ==> disk.receipt.value.id in disk.archives
      modifies this
      ensures Valid() && old(worlds) <= worlds && SameJob(old(disk), disk)
      ensures Paced(old(tick), r)
      ensures disk.receipt.value.stage != Failed
      ensures r == Success ==> disk.receipt.value.stage == Done
      ensures old(AtPlace(disk)) && disk.receipt.value.id in disk.archives ==>
        JustifiesMove(worlds, |old(worlds)| - 1, old(disk.receipt.value), answers)
      ensures old(Calm()) ==> r != Crashed
      ensures old(Calm()) && old(disk.root.None?) ==> r == if old(Stuck(disk)) then Refused else Success
      ensures old(Stuck(disk)) ==> r != Success && disk.receipt == old(disk.receipt) && Stuck(disk)
      ensures old(Calm()) && old(AtPlace(disk)) ==>
        r == Success || (disk.root.Some? && disk.receipt.value.id !in disk.archives)
      ensures old(Calm()) && old(disk.root.Some? && Movable(disk, answers)) ==> r == Success
    {
      r := MoveOut(answers);
      if r == Success {
        ghost var moved, j := worlds, old(disk.receipt.value);
        r := InstallStaged();
        if old(AtPlace(disk)) {
          JustifiedLater(moved, worlds, |old(worlds)| - 1, |old(worlds)| - 1, j, j, answers);
        }
      }
    }

    /** The original is moved aside, or was before and is still what the receipt binds. */
    method MoveOut(answers: Answers) returns (r: Reply)
      requires Valid() && Active(disk) && disk.receipt.value.stage != Accepted && Staged(disk)
      requires disk.root.None? ==> disk.receipt.value.id in disk.archives
      modifies this
      ensures Valid() && old(worlds) <= worlds && SameJob(old(disk), disk)
      ensures Paced(old(tick), r)
      ensures Active(disk) && disk.receipt.value.stage != Accepted
      ensures r == Success ==> disk.root.None? && disk.receipt.value.id in disk.archives
      ensures old(AtPlace(disk)) && disk.receipt.value.id in disk.archives ==>
        JustifiesMove(worlds, |old(worlds)| - 1, old(disk.receipt.value), answers)
      ensures old(Calm()) ==> r != Crashed
      ensures old(Calm()) && old(disk.root.None?) ==> r == if old(Stuck(disk)) then Refused else Success
      ensures old(Stuck(disk)) ==> r != Success && disk.receipt == old(disk.receipt) && Stuck(disk)
      ensures old(Calm()) && old(AtPlace(disk)) ==>
        r == Success || (disk.root.Some? && disk.receipt.value.id !in disk.archives)
      ensures old(Calm()) && old(disk.root.Some? && Movable(disk, answers)) ==> r == Success
    {
      if disk.root.Some? {
        r := RetireAndArchive(answers);
      } else {
        r := ResumeArchived();
      }
    }

    /** What the invariant says about the disk a run starts from. */
    lemma InvFacts()
      requires Valid() && Active(disk)
      ensures disk.root.None? ==>
        && disk.receipt.value.stage != Accepted && disk.receipt.value.id in disk.archives
        && Staged(disk)
      ensures disk.root.Some? && disk.receipt.value.id !in disk.archives ==>
          OneMetadata(disk.root.value.files, disk.receipt.value.id)
      ensures disk.root.Some? && disk.receipt.value.id in disk.archives ==>
        && Marked(disk.root.value.files, disk.receipt.value) && disk.receipt.value.id !in disk.staging
        && disk.receipt.value.stage != Accepted
        && !Top(disk.archives[disk.receipt.value.id].files, Disabled(disk.receipt.value.id))
    {
      ValidInv();
    }

    /** One recovery run.  It ends with "done" only if it says so.  When nothing interferes, it
        ends with "done" or "failed" from every state any earlier sequence of runs, failures,
        stops and edits can have left, with two exceptions, in which it refuses and leaves the
        receipt as it is: the original was archived with a content other than the receipt
        binds, or the checkout in place was edited into one that is not clean or lacks copies.
        The first no run ever leaves, whatever happens; the second none does unless the user
        edits again. */
    method Run(answers: Answers, sparse: bool) returns (r: Reply)
      requires Valid()
      modifies this
      ensures Valid() && old(worlds) <= worlds
      ensures Paced(old(tick), r) && (old(Active(disk)) && !sparse ==> old(tick) < tick)
      ensures !old(Active(disk)) ==> r == Success && disk == old(disk) && worlds == old(worlds)
      ensures old(Active(disk)) ==> SameJob(old(disk), disk)
      ensures old(Active(disk)) && r == Success ==> disk.receipt.value.stage == Done
      ensures old(Active(disk)) && r == Success && old(InPlace(disk)) ==>
        FoundReady(worlds, |old(worlds)| - 1, old(disk).receipt.value)
      ensures old(Active(disk) && AtPlace(disk)) &&
              (r == Success || disk.receipt.value.id in disk.archives) ==>
        JustifiesMove(worlds, |old(worlds)| - 1, old(disk.receipt.value), answers)
      ensures old(Active(disk)) && old(disk.receipt.value.stage) == Accepted &&
              disk.receipt.value.stage !in {Accepted, Failed} ==>
        JustifiesCheckout(worlds, |old(worlds)| - 1, old(disk.receipt.value), answers)
      ensures old(Active(disk)) && old(Calm()) && !sparse ==>
        if old(Stuck(disk) || Spoilt(disk)) then r == Refused && disk.receipt == old(disk.receipt)
        else disk.receipt.value.stage == if r == Success then Done else Failed
      ensures old(Active(disk)) && sparse ==> r == Refused && disk == old(disk)
      ensures old(Active(disk) && Stuck(disk)) ==> r != Success && disk.receipt == old(disk.receipt) && Stuck(disk)
      ensures old(Active(disk) && Spoilt(disk)) && old(Unedited()) ==> r != Success && disk == old(disk)
      ensures old(Active(disk) && Completable(disk, answers)) && old(Calm()) && !sparse ==> r == Success
    {
      if !Active(disk) {
        return Success;
      }
      if sparse {
        return Refused;
      }
      InvFacts();
      var j := disk.receipt.value;
      if disk.root.Some? && Marked(disk.root.value.files, j) && j.id !in disk.staging && j.id in disk.archives {
        r := FinishSwapped();
        return;
      }
      r := Undertake(answers);
    }

    /** A run with the checkout not in place yet, and the deferred repair after it. */
    method Undertake(answers: Answers) returns (r: Reply)
      requires Valid() && Active(disk) && !InPlace(disk)
      modifies this
      ensures Valid() && old(worlds) <= worlds && SameJob(old(disk), disk)
      ensures Paced(old(tick), r) && old(tick) < tick
      ensures r == Success ==> disk.receipt.value.stage == Done
      ensures old(disk.receipt.value.stage) == Accepted && disk.receipt.value.stage !in {Accepted, Failed} ==>
        JustifiesCheckout(worlds, |old(worlds)| - 1, old(disk.receipt.value), answers)
      ensures old(disk.root.Some?) && (r == Success || disk.receipt.value.id in disk.archives) ==>
        JustifiesMove(worlds, |old(worlds)| - 1, old(disk.receipt.value), answers)
      ensures old(Calm()) ==>
        if old(Stuck(disk)) then r == Refused && disk.receipt == old(disk.receipt)
        else disk.receipt.value.stage == if r == Success then Done else Failed
      ensures old(Stuck(disk)) ==> r != Success && disk.receipt == old(disk.receipt) && Stuck(disk)
      ensures old(Completable(disk, answers)) && old(Calm()) ==> r == Success
    {
      InvFacts();
      r := Body(answers);
      if r == Success {
        ValidInv();
      }
      if r == Refused {
        ghost var tried := worlds;
        r := Cleanup();
        if old(disk.root.Some?) && disk.receipt.value.id in disk.archives {
          JustifiedLater(tried, worlds, |old(worlds)| - 1, |old(worlds)| - 1, old(disk.receipt.value),
                         old(disk.receipt.value), answers);
        }
        if old(disk.receipt.value.stage) == Accepted && disk.receipt.value.stage !in {Accepted, Failed} {
          ContentLater(tried, worlds, |old(worlds)| - 1, |old(worlds)| - 1, old(disk.receipt.value.snapshot));
        }
      }
    }

    /** A run of an unfinished job is at least one call nearer to the end, and ends the job if
        nothing interferes with it. */
    method RunOnce(answers: Answers) returns (r: Reply)
      requires Valid() && Active(disk)
      modifies this
      ensures Valid() && old(worlds) <= worlds && SameJob(old(disk), disk)
      ensures Paced(old(tick), r) && old(tick) < tick
      ensures old(Calm()) ==> Settled(disk)
    {
      r := Run(answers, false);
    }

    /** Started again after every stop and every refusal, recovery comes to an end: once the
        calls up to `calm` are behind it, however they failed, one more run settles the job; with
        "done" or "failed" if nobody edited. */
    method Restart(answers: seq<Answers>, ghost calm: nat) returns (runs: nat)
      requires Valid() && forall n :: n >= calm ==> events(n) == Event(None, Ok)
      modifies this
      ensures Valid() && old(worlds) <= worlds && runs <= |answers|
      ensures if old(Active(disk)) then SameJob(old(disk), disk) else disk == old(disk)
      ensures runs < |answers| ==> !Active(disk)
      ensures 0 < |answers| && calm < old(tick) + |answers| ==> Settled(disk)
      ensures 0 < |answers| && calm < old(tick) + |answers| && NoEditMet(events, calm) ==> !Active(disk)
    {
      runs := 0;
      while runs < |answers| && Active(disk)
        invariant 0 <= runs <= |answers|
        invariant Valid() && old(worlds) <= worlds && old(tick) + runs <= tick
        invariant if old(Active(disk)) then SameJob(old(disk), disk) else disk == old(disk)
        invariant runs == 0 || old(tick) + runs <= calm || Settled(disk)
      {
        var r := RunOnce(answers[runs]);
        runs := runs + 1;
      }
      if NoEditMet(events, calm) && Active(disk) {
        NoEditLater(events, calm, tick);
        Undamaged();
      }
    }

    /** Without edits neither exception arises. */
    lemma Undamaged()
      requires Valid() && NoEditMet(events, tick) && Active(disk)
      ensures !Stuck(disk) && !Spoilt(disk)
    {
      RunKeepsInv(worlds, steps, |steps|);
      PlannedRunIsIntact(worlds, steps, |steps|);
      IntactIsNeither(World());
    }

    /** `acceptCanonicalWorkingCopy`: the receipt is written only for an unexpired plan whose
        writer and content are still those planned, when no other job is under way. */
    method Accept(dir: Dir, job: Job, id: Id, now: int, owner: string) returns (ok: bool)
      requires Valid()
      requires !Active(disk) ==> Unused(disk, dir, job)
      modifies this
      ensures Valid() && old(worlds) <= worlds
      ensures ok <==> old(
        && job.id == id && now <= job.expires && owner == job.writer
        && TakeSnapshot(dir.files, Meta) == Some(job.snapshot) && !Active(disk))
      ensures tick == old(tick)
      ensures ok ==> disk == old(disk).(root := Some(dir), receipt := Some(job)) && World().original == dir
      ensures ok ==> steps == old(steps) + [Action.Accept(dir, job)]
      ensures !ok ==> disk == old(disk)
    {
      if job.id != id || now > job.expires || owner != job.writer {
        return false;
      }
      if TakeSnapshot(dir.files, Meta) != Some(job.snapshot) || Active(disk) {
        return false;
      }
      ghost var a := Action.Accept(dir, job);
      assert Guard(disk, a);
      disk := disk.(root := Some(dir), receipt := Some(job));
      Extend(a);
      ok := true;
    }
  }

  /** Nothing is left to do, or nothing a run could do. */
  ghost predicate Settled(d: Disk) {
    Active(d) ==> Stuck(d) || Spoilt(d)
  }

  /** Not an edit; and an acceptance of the working copy its plan was made for. */
  predicate AsPlanned(a: Action) {
    !a.Edit? && (a.Accept? ==> TakeSnapshot(a.dir.files, Meta) == Some(a.job.snapshot))
  }

  predicate AllAsPlanned(steps: seq<Action>, k: nat)
    requires k <= |steps|
  {
    k == 0 || (AllAsPlanned(steps, k - 1) && AsPlanned(steps[k - 1]))
  }

  predicate NoEditMet(events: nat -> Event, n: nat) {
    n == 0 || (NoEditMet(events, n - 1) && events(n - 1).edit.None?)
  }

  lemma {:induction false} NoEditLater(events: nat -> Event, calm: nat, n: nat)
    requires NoEditMet(events, calm) && forall m :: m >= calm ==> events(m) == Event(None, Ok)
    ensures NoEditMet(events, n)
    decreases if n < calm then calm - n else n - calm
  {
    if n < calm {
      NoEditLater(events, calm, n + 1);
    } else if n > calm {
      NoEditLater(events, calm, n - 1);
    }
  }

  /** The original is what the receipt binds, and the checkout in place is the one put there. */
  ghost predicate Intact(w: World) {
    w.disk.receipt.Some? ==>
      && TakeSnapshot(w.original.files, Meta) == Some(w.disk.receipt.value.snapshot)
      && (InPlace(w.disk) ==> w.installed == w.disk.root)
  }

  lemma PlannedStepKeepsIntact(w: World, a: Action, w': World)
    requires Inv(w) && Intact(w) && IsStep(w, a, w') && AsPlanned(a)
    ensures Intact(w')
  {
    if InPlace(w.disk) && !a.Accept? {
      StepKeepsPlace(w, a, w');
    }
    StepKeepsBooks(w, a, w');
  }

  lemma {:induction false} PlannedRunIsIntact(ws: seq<World>, steps: seq<Action>, i: nat)
    requires IsRun(ws, steps) && Inv(ws[0]) && ws[0].disk.receipt.None? && i <= |steps| && AllAsPlanned(steps, i)
    ensures Intact(ws[i])
  {
    if i > 0 {
      PlannedRunIsIntact(ws, steps, i - 1);
      IntactAt(ws, steps, i);
    }
  }

  lemma IntactAt(ws: seq<World>, steps: seq<Action>, i: nat)
    requires IsRun(ws, steps) && Inv(ws[0]) && 0 < i <= |steps| && Intact(ws[i - 1]) && AsPlanned(steps[i - 1])
    ensures Intact(ws[i])
  {
    RunKeepsInv(ws, steps, i - 1);
    assert IsStep(ws[i - 1], steps[i - 1], ws[i]);
    PlannedStepKeepsIntact(ws[i - 1], steps[i - 1], ws[i]);
  }

  lemma IntactIsNeither(w: World)
    requires Inv(w) && Intact(w) && Active(w.disk)
    ensures !Stuck(w.disk) && !Spoilt(w.disk)
  {
  }

  /** The process is stopped at the very first call of a run; the next run ends the job. */
  method StoppedThenRestarted(dir: Dir, job: Job, stop: Outcome, first: Answers, second: Answers)
    returns (stopped: Reply, end: Stage)
    requires stop in {CrashBefore, CrashAfter}
    requires Unused(Disk(Some(dir), map[], map[], None), dir, job)
    requires TakeSnapshot(dir.files, Meta) == Some(job.snapshot)
    ensures stopped == Crashed && end in {Done, Failed}
  {
    var events := (n: nat) => if n == 0 then Event(None, stop) else Event(None, Ok);
    var recovery := new Recovery(Some(dir), events);
    var ok := recovery.Accept(dir, job, job.id, job.expires, job.writer);
    stopped := recovery.RunOnce(first);
    assert events(0).outcome == stop;
    assert NoEditMet(events, 1);
    var runs := recovery.Restart([second], 1);
    end := recovery.disk.receipt.value.stage;
  }

  lemma PlanContinues(steps: seq<Action>, a: Action)
    ensures AllAsPlanned(steps, |steps|) && AsPlanned(a) ==> AllAsPlanned(steps + [a], |steps| + 1)
  {
    PlannedAppended(steps, a, |steps|);
  }

  lemma {:induction false} PlannedAppended(steps: seq<Action>, a: Action, k: nat)
    requires k <= |steps|
    ensures AllAsPlanned(steps + [a], k) == AllAsPlanned(steps, k)
  {
    if k > 0 {
      PlannedAppended(steps, a, k - 1);
    }
  }

  lemma RunExtends(ws: seq<World>, steps: seq<Action>, a: Action)
    requires IsRun(ws, steps) && Inv(ws[0]) && Guard(ws[|steps|].disk, a)
    ensures var w := ws[|steps|];
            && (EditsOriginal(w.disk, a) ==>
                  OneMetadata(Apply(w.disk, a).root.value.files, w.disk.receipt.value.id))
            && IsRun(ws + [Next(w, a)], steps + [a])
  {
    var n := |steps|;
    RunKeepsInv(ws, steps, n);
    StepKeepsInv(ws[n], a);
    assert IsStep(ws[n], a, Next(ws[n], a));
    forall i | 0 <= i < n
      ensures IsStep(ws[i], steps[i], ws[i + 1])
    {
    }
  }

  lemma StuckStays(d: Disk, d': Disk)
    requires Active(d) && d.root.None? && d.receipt.value.id in d.archives
    requires d'.receipt == d.receipt && d'.root.None? && d.receipt.value.id in d'.archives
    requires var id, was := d.receipt.value.id, d.archives[d.receipt.value.id];
             || d'.archives[id] == was
             || (OneMetadata(was.files, id) && d'.archives[id].files == Restored(was.files, id))
    ensures Stuck(d) ==> Stuck(d')
  {
    var id, was := d.receipt.value.id, d.archives[d.receipt.value.id];
    if OneMetadata(was.files, id) {
      RestoredHasNoDisabled(was.files, id);
    }
  }

  lemma RestoredName(d: Disk, archived: bool)
    requires Active(d)
    requires Guard(d, if archived then RestoreArchive else RestoreRoot)
    ensures var id := d.receipt.value.id;
            var e := Apply(d, if archived then RestoreArchive else RestoreRoot);
            !Top(if archived then e.archives[id].files else e.root.value.files, Disabled(id))
  {
    var id := d.receipt.value.id;
    RenameTopRoundTrip(if archived then d.archives[id].files else d.root.value.files, Disabled(id), Meta);
  }

  /** A retired original passes every check made before its metadata is restored. */
  lemma DisabledIsPlain(d: Dir, original: Dir, id: Id)
    requires Holds(d, original, id) && Top(d.files, Disabled(id))
    requires MetaPlain(original.files) && WriterBound(original.files)
    ensures [Disabled(id)] in d.files && d.files[[Disabled(id)]] == Directory
    ensures !Top(d.files, Meta) && WriterBound(d.files)
  {
    RestoredAgree(d.files, id, WRITER);
    var p :| p in d.files && Under(p, Disabled(id));
    SwapBack(p, Disabled(id), Meta);
    assert Swap(p, Disabled(id), Meta) in original.files;
    assert Top(original.files, Meta);
    assert Swap([Meta], Meta, Disabled(id)) == [Disabled(id)];
    assert [Meta] in original.files;
  }

  lemma RetiredName(d: Disk)
    requires Guard(d, Retire)
    ensures Top(Apply(d, Retire).root.value.files, Disabled(d.receipt.value.id))
  {
    var files, id := d.root.value.files, d.receipt.value.id;
    var p :| p in files && Under(p, Meta);
    SwapBack(p, Meta, Disabled(id));
    assert Swap(p, Meta, Disabled(id)) in RenameTop(files, Meta, Disabled(id));
  }

  lemma KeptReady(d: Dir, j: Job, stage: Stage)
    requires Ready(d, j)
    ensures Ready(d, j.(stage := stage))
  {
    ReadyIgnoresStage(d, j, stage);
  }

  /** A freshly generated job identifier names nothing yet, and the plan was made for a
      working copy that has a writer record and plain metadata. */
  ghost predicate Unused(d: Disk, dir: Dir, job: Job) {
    && job.stage == Accepted && job.userSnapshot == job.snapshot.user
    && job.id !in d.archives && job.id !in d.staging
    && !Marked(dir.files, job) && !Top(dir.files, Disabled(job.id))
    && WriterBound(dir.files) && MetaPlain(dir.files)
  }

  /** The staged checkout may take the original's place. */
  ghost predicate Staged(d: Disk)
    requires Active(d)
  {
    d.receipt.value.id in d.staging && Ready(d.staging[d.receipt.value.id], d.receipt.value)
  }

  ghost predicate Stageable(d: Disk, answers: Answers)
    requires Active(d) && d.root.Some?
  {
    && FavourableCheckout(answers.checkout, d.receipt.value) && DirsTo(MetaOnly(answers.metadata), STATE)
    && TakeSnapshot(d.root.value.files, Meta) == Some(d.receipt.value.snapshot)
  }

  ghost predicate Fillable(d: Disk, answers: Answers)
    requires Active(d) && d.root.Some? && d.receipt.value.id in d.staging
  {
    var j := d.receipt.value;
    && d.staging[j.id] == answers.checkout && FavourableCheckout(answers.checkout, j)
    && DirsTo(MetaOnly(answers.metadata), STATE)
    && TakeSnapshot(d.root.value.files, Meta) == Some(j.snapshot)
  }

  ghost predicate Preservable(d: Disk)
    requires Active(d) && d.root.Some? && d.receipt.value.id in d.staging
  {
    var j := d.receipt.value;
    && TakeSnapshot(d.root.value.files, Meta) == Some(j.snapshot)
    && Closed(j.snapshot.user) && !Top(d.staging[j.id].files, Collisions)
  }

  lemma NewCopiesAreEmpty(files: Files, base: Path)
    requires !Top(files, Collisions) && |base| == 2 && base[0] == Collisions
    ensures var made := files[base[..1] := Directory][base := Directory];
            DirsTo(made, base) && forall q :: q in made ==> !Inside(q, base)
  {
    var made := files[base[..1] := Directory][base := Directory];
    assert Paths.Parent(base) == base[..1] && Paths.Parent(base[..1]) == [];
    assert DirsTo(made, base[..1]);
    forall q | q in made
      ensures !Inside(q, base)
    {
      if Inside(q, base) {
        assert Under(q, Collisions);
      }
    }
  }

  lemma ReadyForCopies(d: Disk, dir: Dir, files: Files)
    requires Active(d) && d.root.Some? && d.receipt.value.id in d.staging
    requires !Top(dir.files, Collisions) && Closed(files) && TakeSnapshot(d.root.value.files, Meta).Some?
    requires files == TakeSnapshot(d.root.value.files, Meta).value.user
    requires var base := CopiesPath(d.receipt.value.id);
             d.staging[d.receipt.value.id].files == dir.files[base[..1] := Directory][base := Directory]
    ensures Copyable(d, files)
  {
    NewCopiesAreEmpty(dir.files, CopiesPath(d.receipt.value.id));
  }

  ghost predicate Markable(d: Disk, answers: Answers)
    requires Active(d) && d.receipt.value.id in d.staging
  {
    var j := d.receipt.value;
    var files := d.staging[j.id].files + MetaOnly(answers.metadata);
    && DirsTo(files, STATE) && MARKER !in files
    && Ready(d.staging[j.id].(files := files[MARKER := File(Receipt(j))]), j)
  }

  lemma FavourableMarks(d: Disk, answers: Answers)
    requires Active(d) && d.root.Some? && d.receipt.value.id in d.staging
    requires d.staging[d.receipt.value.id].svn == answers.checkout.svn
    requires FavourableCheckout(answers.checkout, d.receipt.value) && DirsTo(MetaOnly(answers.metadata), STATE)
    requires TakeSnapshot(d.root.value.files, Meta) == Some(d.receipt.value.snapshot)
    requires var base := CopiesPath(d.receipt.value.id);
             Grafted(d.staging[d.receipt.value.id].files,
                     answers.checkout.files[base[..1] := Directory][base := Directory],
                     base, d.receipt.value.snapshot.user, d.receipt.value.snapshot.user.Keys)
    ensures Markable(d, answers)
  {
    var j := d.receipt.value;
    var copied := d.staging[j.id].files;
    PreparedIsReady(answers.checkout, copied, d.root.value.files, answers.metadata, j);
    DirsInUnion(copied, MetaOnly(answers.metadata), STATE);
    NoMarkerYet(copied, answers.checkout.files, CopiesPath(j.id), j.snapshot.user, MARKER);
  }

  lemma {:induction false} DirsInUnion(a: Files, b: Files, p: Path)
    requires DirsTo(b, p)
    ensures DirsTo(a + b, p)
  {
    if |p| > 0 {
      DirsInUnion(a, b, Paths.Parent(p));
    }
  }

  lemma NoMarkerYet(copied: Files, checkout: Files, base: Path, user: Files, marker: Path)
    requires |base| == 2 && base[0] == Collisions && Under(marker, Meta) && !Top(checkout, Meta)
    requires Grafted(copied, checkout[base[..1] := Directory][base := Directory], base, user, user.Keys)
    ensures marker !in copied
  {
    assert !Inside(marker, base);
  }

  /** The stuck situation can arise: whenever the original is about to be archived, it follows from
      exactly the edits just before the move that leave a tree with another content proof than the
      receipt's, or none at all.  The user's tree is in the archive all the same. */
  lemma LateEditStrands(w: World, user: Files)
    requires Inv(w) && Guard(w.disk, Archive)
    ensures var id, files := w.disk.receipt.value.id, w.disk.root.value.files;
            && Guard(w.disk, Edit(user)) && OneMetadata(EditUser(files, id, user), id)
            && Guard(Apply(w.disk, Edit(user)), Archive)
            && (Stuck(Apply(Apply(w.disk, Edit(user)), Archive)) <==>
                  TakeSnapshot(Restored(EditUser(files, id, user), id), Meta) != Some(w.disk.receipt.value.snapshot))
            && forall text :: user == map[[Other(text)] := Symlink] ==>
                 Stuck(Apply(Apply(w.disk, Edit(user)), Archive))
  {
    var files, id := w.disk.root.value.files, w.disk.receipt.value.id;
    EditKeepsInv(w, user);
    DriftKeepsGuard(w.disk, Event(Some(user), Ok), Archive);
    forall text | user == map[[Other(text)] := Symlink]
      ensures TakeSnapshot(Restored(EditUser(files, id, user), id), Meta) == None
    {
      SymlinkRefused(files, id, text, user);
    }
  }

  /** A spoilt checkout, entry by entry. */
  lemma SpoiltMeans(d: Disk)
    requires Active(d)
    ensures Spoilt(d) <==> InPlace(d) && !IsReplacement(d.root.value, d.receipt.value)
  {
    if InPlace(d) {
      ReadyMeans(d.root.value, d.receipt.value);
    }
  }

  predicate NewOutsideCopies(p: Path, checkout: Dir, j: Job) {
    p !in checkout.svn.pristine && !Kept(p, j.id) && !Under(p, Collisions)
  }

  /** The spoilt situation can arise: whenever the checkout has just been put in place, it
      follows from exactly the edits that leave the user's entries unclean, among them every
      new file outside the copies. */
  lemma EarlyEditSpoils(w: World, user: Files)
    requires Inv(w) && Guard(w.disk, Install)
    ensures var j, moved := w.disk.receipt.value, Apply(w.disk, Install);
            && Guard(moved, Edit(user)) && Active(Apply(moved, Edit(user)))
            && (Spoilt(Apply(moved, Edit(user))) <==> !UserClean(user, w.disk.staging[j.id].svn.pristine, j))
            && forall p :: p in user && NewOutsideCopies(p, w.disk.staging[j.id], j) ==>
                 Spoilt(Apply(moved, Edit(user)))
  {
    var j := w.disk.receipt.value;
    var staged := w.disk.staging[j.id];
    EditIsSameButUser(staged, staged, j.id, user);
    ReadyIffUserClean(staged.(files := EditUser(staged.files, j.id, user)), staged, user, j);
  }

  lemma SymlinkRefused(files: Files, id: Id, text: string, user: Files)
    requires user == map[[Other(text)] := Symlink] && OneMetadata(EditUser(files, id, user), id)
    ensures TakeSnapshot(Restored(EditUser(files, id, user), id), Meta) == None
  {
    var p: Path := [Other(text)];
    var e := EditUser(files, id, user);
    assert !Kept(p, id) && p in e && e[p] == Symlink;
    RestoredAgree(e, id, p);
    assert !Private(p, Meta);
  }
}
