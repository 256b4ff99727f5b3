/** Working copies, the recovery receipt and the content proof that binds them
    (cmd/filees/commit_rebuild.go).

    A working copy is the map of every entry below its root.  SHA-256 is modelled as
    injective, so a digest is represented by the data it digests. */
module RecoveryModel {
  import opened Basics

  type Id = string
  type Path = seq<Name>
  type Files = map<Path, Node>

  datatype Node = File(content: Content) | Directory | Symlink
  datatype Content = Raw(bytes: string) | Receipt(job: Job)

  /** What `canonicalSnapshotMetadata` digests: the user entries and the five bound
      metadata files, each present (with its content) or absent. */
  datatype Snapshot = Snapshot(user: Files, proof: seq<Option<Content>>)

  datatype Stage = Accepted | Prepared | Retired | Archived | Installed | Done | Failed

  datatype Job = Job(id: Id, url: string, uuid: string, head: int,
                     snapshot: Snapshot, userSnapshot: Files,
                     writer: string, writerHash: Content, expires: int, stage: Stage)

  /** What Subversion reports about a directory: where it was checked out from, at which
      revision, and the pristine entries its status is computed against. */
  datatype SvnInfo = SvnInfo(url: string, uuid: string, revision: int, pristine: Files)

  datatype Dir = Dir(files: Files, svn: SvnInfo)

  /** A path component.  The names recovery gives a meaning to have constructors of their
      own; `Disabled(id)` is ".filees-recovery-disabled-" + id and `Copy(id)` is
      "conflicted-copy-" + id. */
  datatype Name =
    | Svn | Meta | Collisions | Disabled(id: Id) | Copy(id: Id)
    | State | CommitCache | Transaction | PreviousTransaction | QueueCache
    | Identity | WriterRecord | RecoveryMarker
    | Other(text: string)

  /** `.svn/filees-native-writer-v1` and `.filees/state/canonical-recovery.json`. */
  const WRITER: Path := [Svn, WriterRecord]
  const MARKER: Path := [Meta, State, RecoveryMarker]

  /** The five metadata files bound besides the user's: the two transaction records and the
      queue in `.filees/commit_cache`, `.filees/state/working-copy.json`, the native writer. */
  const PROOFS: seq<Path> := [
    [Meta, CommitCache, Transaction],
    [Meta, CommitCache, PreviousTransaction],
    [Meta, CommitCache, QueueCache],
    [Meta, State, Identity],
    WRITER]

  function CopiesPath(id: Id): (p: Path) {
    [Collisions, Copy(id)]
  }

  // ----- Top-level names ---------------------------------------------------------------

  predicate Under(p: Path, name: Name) {
    |p| > 0 && p[0] == name
  }

  /** `canonicalExists(filepath.Join(root, name))`. */
  predicate Top(files: Files, name: Name) {
    exists p :: p in files && Under(p, name)
  }

  function Swap(p: Path, a: Name, b: Name): Path {
    if Under(p, a) then [b] + p[1..] else p
  }

  lemma SwapBack(p: Path, a: Name, b: Name)
    requires !Under(p, b)
    ensures Swap(Swap(p, a, b), b, a) == p
  {
    if Under(p, a) {
      assert [a] + p[1..] == p;
    }
  }

  ghost predicate IsRename(files: Files, a: Name, b: Name, r: Files) {
    forall p {:trigger p in r} ::
      && (p in r <==> Swap(p, b, a) in files && !Under(p, a))
      && (p in r ==> r[p] == files[Swap(p, b, a)])
  }

  lemma RenamedKeys(files: Files, a: Name, b: Name, keys: set<Path>)
    requires a != b && !Top(files, b) && keys == set q | q in files :: Swap(q, a, b)
    ensures forall p {:trigger p in keys} :: p in keys <==> Swap(p, b, a) in files && !Under(p, a)
  {
    forall p | p in keys
      ensures Swap(p, b, a) in files && !Under(p, a)
    {
      var q :| q in files && p == Swap(q, a, b);
      RenamedKey(files, a, b, q);
    }
    forall p | Swap(p, b, a) in files && !Under(p, a)
      ensures p in keys
    {
      SwapBack(p, b, a);
    }
  }

  lemma RenamedKey(files: Files, a: Name, b: Name, q: Path)
    requires a != b && !Top(files, b) && q in files
    ensures Swap(Swap(q, a, b), b, a) == q && !Under(Swap(q, a, b), a)
  {
    assert !Under(q, b);
    SwapBack(q, a, b);
  }

  lemma SomeRenamedKeys(files: Files, a: Name, b: Name) returns (keys: set<Path>)
    requires a != b && !Top(files, b)
    ensures forall p {:trigger p in keys} :: p in keys <==> Swap(p, b, a) in files && !Under(p, a)
  {
    keys := set q | q in files :: Swap(q, a, b);
    RenamedKeys(files, a, b, keys);
  }

  lemma RenameExists(files: Files, a: Name, b: Name)
    requires a != b && !Top(files, b)
    ensures exists r :: IsRename(files, a, b, r)
  {
    var keys := SomeRenamedKeys(files, a, b);
    var r := map p | p in keys :: files[Swap(p, b, a)];
    assert IsRename(files, a, b, r);
  }

  /** `os.Rename(root/a, root/b)` where nothing is called `b`. */
  method Rename(files: Files, a: Name, b: Name) returns (r: Files)
    requires a != b && !Top(files, b)
    ensures r == RenameTop(files, a, b)
  {
    var keys := set q | q in files :: Swap(q, a, b);
    RenamedKeys(files, a, b, keys);
    r := map p | p in keys :: files[Swap(p, b, a)];
    RenameIsUnique(files, a, b, r);
  }

  ghost function RenameTop(files: Files, a: Name, b: Name): (r: Files)
    requires a != b && !Top(files, b)
    ensures IsRename(files, a, b, r)
  {
    RenameExists(files, a, b);
    var r :| IsRename(files, a, b, r);
    r
  }

  lemma RenameIsUnique(files: Files, a: Name, b: Name, r: Files)
    requires a != b && !Top(files, b) && IsRename(files, a, b, r)
    ensures r == RenameTop(files, a, b)
  {
    var s := RenameTop(files, a, b);
    assert r.Keys == s.Keys;
  }

  lemma RenameTopRoundTrip(files: Files, a: Name, b: Name)
    requires a != b && !Top(files, b)
    ensures !Top(RenameTop(files, a, b), a)
    ensures RenameTop(RenameTop(files, a, b), b, a) == files
  {
    var r := RenameTop(files, a, b);
    assert !Top(r, a);
    forall p
      ensures p in files <==> Swap(p, a, b) in r && !Under(p, b)
      ensures p in files ==> files[p] == r[Swap(p, a, b)]
    {
      RenamedBack(files, a, b, r, p);
    }
    assert IsRename(r, b, a, files);
    RenameIsUnique(r, b, a, files);
  }

  lemma RenamedBack(files: Files, a: Name, b: Name, r: Files, p: Path)
    requires a != b && !Top(files, b) && IsRename(files, a, b, r)
    ensures p in files <==> Swap(p, a, b) in r && !Under(p, b)
    ensures p in files ==> files[p] == r[Swap(p, a, b)]
  {
    if !Under(p, b) {
      SwapBack(p, a, b);
    }
    assert Swap(p, a, b) in r <==> Swap(Swap(p, a, b), b, a) in files && !Under(Swap(p, a, b), a);
  }

  // ----- The content proof -------------------------------------------------------------

  predicate Private(p: Path, meta: Name) {
    Under(p, Svn) || Under(p, meta)
  }

  /** The walk of `canonicalSnapshotMetadata` meets nothing it refuses. */
  predicate Walkable(files: Files, meta: Name) {
    && ([Svn] in files ==> files[[Svn]] == Directory)
    && ([meta] in files ==> files[[meta]] == Directory)
    && (forall p :: p in files && !Private(p, meta) ==>
          |p| > 0 && files[p] != Symlink && p[|p| - 1] != Svn && p[|p| - 1] != Meta)
  }

  function UserFiles(files: Files, meta: Name): Files {
    map p | p in files && !Private(p, meta) :: files[p]
  }

  predicate Readable(files: Files, p: Path) {
    p in files ==> files[p].File?
  }

  function Bound(files: Files, p: Path): Option<Content> {
    if p in files && files[p].File? then Some(files[p].content) else None
  }

  predicate AllReadable(files: Files, meta: Name, proofs: seq<Path>) {
    forall i :: 0 <= i < |proofs| ==> Readable(files, Swap(proofs[i], Meta, meta))
  }

  function BoundAll(files: Files, meta: Name, proofs: seq<Path>): seq<Option<Content>> {
    seq(|proofs|, i requires 0 <= i < |proofs| => Bound(files, Swap(proofs[i], Meta, meta)))
  }

  function TakeSnapshot(files: Files, meta: Name): Option<Snapshot> {
    Prove(files, meta, PROOFS)
  }

  function Prove(files: Files, meta: Name, proofs: seq<Path>): Option<Snapshot> {
    if Walkable(files, meta) && AllReadable(files, meta, proofs) then
      Some(Snapshot(UserFiles(files, meta), BoundAll(files, meta, proofs)))
    else
      None
  }

  /** Retiring `.filees` to its disabled name leaves the content proof as it was. */
  lemma SnapshotSurvivesRetirement(files: Files, id: Id)
    requires !Top(files, Disabled(id))
    ensures TakeSnapshot(RenameTop(files, Meta, Disabled(id)), Disabled(id)) == TakeSnapshot(files, Meta)
  {
    RetirementKeepsProof(files, id, PROOFS);
  }

  /** The same for any list of bound files that lie in `.filees` or `.svn`. */
  lemma RetirementKeepsProof(files: Files, id: Id, proofs: seq<Path>)
    requires !Top(files, Disabled(id)) && forall i :: 0 <= i < |proofs| ==> Private(proofs[i], Meta)
    ensures Prove(RenameTop(files, Meta, Disabled(id)), Disabled(id), proofs) == Prove(files, Meta, proofs)
  {
    RetirementKeepsUser(files, id);
    RetirementKeepsWalkable(files, id);
    RetirementMovesProofs(files, id, proofs);
  }

  lemma RetirementKeepsWalkable(files: Files, id: Id)
    requires !Top(files, Disabled(id))
    ensures Walkable(RenameTop(files, Meta, Disabled(id)), Disabled(id)) <==> Walkable(files, Meta)
  {
    var off := Disabled(id);
    var r := RenameTop(files, Meta, off);
    RetirementKeepsUser(files, id);
    WalkableFromUser(r, off);
    WalkableFromUser(files, Meta);
    assert Swap([Svn], off, Meta) == [Svn] && Swap([off], off, Meta) == [Meta];
    assert [off] in r <==> [Meta] in files;
    assert [Svn] in r <==> [Svn] in files;
  }

  lemma RetirementMovesProofs(files: Files, id: Id, proofs: seq<Path>)
    requires !Top(files, Disabled(id)) && forall i :: 0 <= i < |proofs| ==> Private(proofs[i], Meta)
    ensures var r := RenameTop(files, Meta, Disabled(id));
            && AllReadable(r, Disabled(id), proofs) == AllReadable(files, Meta, proofs)
            && BoundAll(r, Disabled(id), proofs) == BoundAll(files, Meta, proofs)
  {
    forall i | 0 <= i < |proofs| {
      RetirementMovesProof(files, id, proofs[i]);
    }
  }

  lemma RetirementKeepsUser(files: Files, id: Id)
    requires !Top(files, Disabled(id))
    ensures UserFiles(RenameTop(files, Meta, Disabled(id)), Disabled(id)) == UserFiles(files, Meta)
  {
    var off := Disabled(id);
    var r := RenameTop(files, Meta, off);
    forall p
      ensures p in UserFiles(r, off) <==> p in UserFiles(files, Meta)
      ensures p in UserFiles(r, off) ==> UserFiles(r, off)[p] == UserFiles(files, Meta)[p]
    {
      assert p in files ==> !Under(p, off);
      assert !Under(p, off) ==> Swap(p, off, Meta) == p;
    }
  }

  lemma RetirementMovesProof(files: Files, id: Id, p: Path)
    requires !Top(files, Disabled(id)) && Private(p, Meta)
    ensures Readable(RenameTop(files, Meta, Disabled(id)), Swap(p, Meta, Disabled(id))) <==>
        Readable(files, Swap(p, Meta, Meta))
    ensures Bound(RenameTop(files, Meta, Disabled(id)), Swap(p, Meta, Disabled(id))) ==
        Bound(files, Swap(p, Meta, Meta))
  {
    var off := Disabled(id);
    var q := Swap(p, Meta, off);
    SwapBack(p, Meta, off);
    assert Swap(p, Meta, Meta) == p by {
      if Under(p, Meta) {
        assert [Meta] + p[1..] == p;
      }
    }
    assert q in RenameTop(files, Meta, off) <==> p in files;
  }

  lemma WalkableFromUser(files: Files, meta: Name)
    ensures Walkable(files, meta) <==>
      && ([Svn] in files ==> files[[Svn]] == Directory)
      && ([meta] in files ==> files[[meta]] == Directory)
      && (forall p :: p in UserFiles(files, meta) ==>
            |p| > 0 && UserFiles(files, meta)[p] != Symlink && p[|p| - 1] != Svn && p[|p| - 1] != Meta)
  {
    var user := UserFiles(files, meta);
    assert forall p :: p in user <==> p in files && !Private(p, meta);
    assert forall p :: p in user ==> user[p] == files[p];
  }

  // ----- The original's metadata under either name ---------------------------------------

  predicate OneMetadata(files: Files, id: Id) {
    !(Top(files, Meta) && Top(files, Disabled(id)))
  }

  /** The tree with its metadata back under `.filees`. */
  ghost function Restored(files: Files, id: Id): Files
    requires OneMetadata(files, id)
  {
    if Top(files, Disabled(id)) then RenameTop(files, Disabled(id), Meta) else files
  }

  /** The tree after the user replaced every entry outside `.svn` and FileES metadata. */
  function EditUser(files: Files, id: Id, user: Files): Files {
    (map p | p in files && Kept(p, id) :: files[p]) + (map p | p in user && !Kept(p, id) :: user[p])
  }

  predicate Kept(p: Path, id: Id) {
    Under(p, Svn) || Under(p, Meta) || Under(p, Disabled(id))
  }

  // ----- The fresh checkout ------------------------------------------------------------

  /** `canonicalInstalled`: the directory carries this job's marker, whatever its stage. */
  predicate Marked(files: Files, j: Job) {
    MARKER in files && files[MARKER].File? && files[MARKER].content.Receipt?
    && files[MARKER].content.job.(stage := j.stage) == j
  }

  /** `verifyCanonicalCheckout`: right repository, right revision and clean, apart from
      FileES control paths and the unversioned copies of a marked directory. */
  predicate CheckoutClean(d: Dir, j: Job) {
    && d.svn.url == j.url && d.svn.uuid == j.uuid && d.svn.revision == j.head
    && forall p :: p in d.files.Keys + d.svn.pristine.Keys ==>
         || Private(p, Meta)
         || (Marked(d.files, j) && Under(p, Collisions) && p !in d.svn.pristine)
         || (p in d.files && p in d.svn.pristine && d.files[p] == d.svn.pristine[p])
  }

  /** The tree below `base`, addressed from there. */
  function Below(files: Files, base: Path): (r: Files)
    ensures forall p {:trigger p in r} :: p in r <==> |p| > 0 && base + p in files
    ensures forall p {:trigger r[p]} :: p in r ==> r[p] == files[base + p]
  {
    map p | p in KeysBelow(files, base) :: files[base + p]
  }

  function KeysBelow(files: Files, base: Path): (keys: set<Path>)
    ensures forall p {:trigger p in keys} :: p in keys <==> |p| > 0 && base + p in files
  {
    var keys := set q | q in files && |q| > |base| && q[..|base|] == base :: q[|base|..];
    assert forall p {:trigger p in keys} :: p in keys <==> |p| > 0 && base + p in files by {
      forall p
        ensures p in keys <==> |p| > 0 && base + p in files
      {
        if p in keys {
          var q :| q in files && |q| > |base| && q[..|base|] == base && p == q[|base|..];
          assert base + p == q;
        }
        if |p| > 0 && base + p in files {
          assert (base + p)[|base|..] == p && (base + p)[..|base|] == base;
        }
      }
    }
    keys
  }

  /** `verifyCanonicalCopies`: the preserved copies digest to the receipt's user snapshot. */
  predicate CopiesVerified(files: Files, j: Job) {
    var base := CopiesPath(j.id);
    base in files && files[base] == Directory &&
    var copies := TakeSnapshot(Below(files, base), Meta);
    copies.Some? && copies.value.user == j.userSnapshot
  }

  /** A directory that may take the place of the original. */
  predicate Ready(d: Dir, j: Job) {
    Marked(d.files, j) && CheckoutClean(d, j) && CopiesVerified(d.files, j)
  }

  // ----- A checkout the user works in ---------------------------------------------------

  /** The directories agree in everything an edit does not reach. */
  ghost predicate SameButUser(a: Dir, b: Dir, id: Id) {
    a.svn == b.svn && forall p {:trigger p in a.files} :: Kept(p, id) ==>
      (p in a.files <==> p in b.files) && (p in a.files ==> a.files[p] == b.files[p])
  }

  /** The user's entries are those of the revision, apart from unversioned ones beside the
      copies, and the copies are complete. */
  predicate UserClean(user: Files, pristine: Files, j: Job) {
    && (forall p :: p in user.Keys + pristine.Keys && !Kept(p, j.id) ==>
          || (Under(p, Collisions) && p !in pristine)
          || (p in user && p in pristine && user[p] == pristine[p]))
    && CopiesVerified(user, j)
  }

  lemma CopiesOfUser(files: Files, user: Files, j: Job)
    requires forall p {:trigger p in files} :: !Kept(p, j.id) ==>
               (p in files <==> p in user) && (p in files ==> files[p] == user[p])
    ensures CopiesVerified(files, j) <==> CopiesVerified(user, j)
  {
    var base := CopiesPath(j.id);
    assert !Kept(base, j.id) && (base in files <==> base in user);
    assert Below(files, base) == Below(user, base) by {
      forall p
        ensures p in Below(files, base) <==> p in Below(user, base)
        ensures p in Below(files, base) ==> Below(files, base)[p] == Below(user, base)[p]
      {
        assert !Kept(base + p, j.id);
        assert base + p in files <==> base + p in user;
      }
    }
  }

  /** A checkout that was ready is so after edits exactly when they leave the user's entries
      clean. */
  lemma ReadyIffUserClean(d: Dir, was: Dir, user: Files, j: Job)
    requires Ready(was, j) && SameButUser(d, was, j.id)
    requires forall p {:trigger p in d.files} :: !Kept(p, j.id) ==>
               (p in d.files <==> p in user) && (p in d.files ==> d.files[p] == user[p])
    ensures Marked(d.files, j)
    ensures Ready(d, j) <==> UserClean(user, was.svn.pristine, j)
  {
    assert Kept(MARKER, j.id) && (MARKER in d.files <==> MARKER in was.files);
    CopiesOfUser(d.files, user, j);
    CleanIffUserClean(d, was, user, j);
  }

  lemma CleanIffUserClean(d: Dir, was: Dir, user: Files, j: Job)
    requires CheckoutClean(was, j) && SameButUser(d, was, j.id) && Marked(d.files, j)
    requires forall p {:trigger p in d.files} :: !Kept(p, j.id) ==>
               (p in d.files <==> p in user) && (p in d.files ==> d.files[p] == user[p])
    ensures CheckoutClean(d, j) <==>
              forall p :: p in user.Keys + was.svn.pristine.Keys && !Kept(p, j.id) ==>
                || (Under(p, Collisions) && p !in was.svn.pristine)
                || (p in user && p in was.svn.pristine && user[p] == was.svn.pristine[p])
  {
    forall p | p in d.files.Keys + d.svn.pristine.Keys && Kept(p, j.id) && !Private(p, Meta)
      ensures p in d.files && p in d.svn.pristine && d.files[p] == d.svn.pristine[p]
    {
      assert p in d.files <==> p in was.files;
      assert !Under(p, Collisions);
    }
    assert forall p :: !Kept(p, j.id) ==> !Private(p, Meta);
  }

  /** No check looks at the stage recorded in the receipt. */
  lemma ReadyIgnoresStage(d: Dir, j: Job, stage: Stage)
    ensures Marked(d.files, j.(stage := stage)) == Marked(d.files, j)
    ensures CheckoutClean(d, j.(stage := stage)) == CheckoutClean(d, j)
    ensures CopiesVerified(d.files, j.(stage := stage)) == CopiesVerified(d.files, j)
  {
    assert Marked(d.files, j.(stage := stage)) == Marked(d.files, j) by {
      if MARKER in d.files && d.files[MARKER].File? && d.files[MARKER].content.Receipt? {
        var m := d.files[MARKER].content.job;
        assert m.(stage := stage) == j.(stage := stage) <==> m.(stage := j.stage) == j;
      }
    }
  }

  // ----- The checks, entry by entry --------------------------------------------------------

  /** The walk of a content proof goes through: `.svn` and the metadata are plain directories, and
      nothing else is a link, nameless, or called like one of them, at any depth. */
  ghost predicate WalksThrough(files: Files, meta: Name) {
    && ([Svn] in files ==> files[[Svn]] == Directory) && ([meta] in files ==> files[[meta]] == Directory)
    && forall p :: p in files && !Under(p, Svn) && !Under(p, meta) ==>
         |p| > 0 && files[p] != Symlink && p[|p| - 1] != Svn && p[|p| - 1] != Meta
  }

  /** The five bound files are files, where they are there at all. */
  ghost predicate BoundFilesReadable(files: Files, meta: Name) {
    && ([meta, CommitCache, Transaction] in files ==> files[[meta, CommitCache, Transaction]].File?)
    && ([meta, CommitCache, PreviousTransaction] in files ==>
          files[[meta, CommitCache, PreviousTransaction]].File?)
    && ([meta, CommitCache, QueueCache] in files ==> files[[meta, CommitCache, QueueCache]].File?)
    && ([meta, State, Identity] in files ==> files[[meta, State, Identity]].File?)
    && ([Svn, WriterRecord] in files ==> files[[Svn, WriterRecord]].File?)
  }

  lemma ProofPlaces(meta: Name)
    ensures Swap(PROOFS[0], Meta, meta) == [meta, CommitCache, Transaction]
    ensures Swap(PROOFS[1], Meta, meta) == [meta, CommitCache, PreviousTransaction]
    ensures Swap(PROOFS[2], Meta, meta) == [meta, CommitCache, QueueCache]
    ensures Swap(PROOFS[3], Meta, meta) == [meta, State, Identity]
    ensures Swap(PROOFS[4], Meta, meta) == [Svn, WriterRecord]
  {
  }

  lemma AllReadableMeans(files: Files, meta: Name)
    ensures AllReadable(files, meta, PROOFS) <==> BoundFilesReadable(files, meta)
  {
    ProofPlaces(meta);
    assert AllReadable(files, meta, PROOFS) <==>
           && Readable(files, Swap(PROOFS[0], Meta, meta)) && Readable(files, Swap(PROOFS[1], Meta, meta))
           && Readable(files, Swap(PROOFS[2], Meta, meta)) && Readable(files, Swap(PROOFS[3], Meta, meta))
           && Readable(files, Swap(PROOFS[4], Meta, meta));
  }

  /** When there is a content proof, and the user entries it holds. */
  lemma SnapshotMeans(files: Files, meta: Name)
    ensures TakeSnapshot(files, meta).Some? <==> WalksThrough(files, meta) && BoundFilesReadable(files, meta)
    ensures TakeSnapshot(files, meta).Some? ==>
              var user := TakeSnapshot(files, meta).value.user;
              forall p {:trigger p in user} ::
                && (p in user <==> p in files && !Under(p, Svn) && !Under(p, meta))
                && (p in user ==> user[p] == files[p])
  {
    AllReadableMeans(files, meta);
  }

  /** The content at a place, if there is any. */
  ghost function ContentAt(files: Files, p: Path): Option<Content> {
    if p in files && files[p].File? then Some(files[p].content) else None
  }

  /** The trees agree in everything the user has, and in the five bound files. */
  ghost predicate SameBound(files: Files, files': Files, meta: Name) {
    && (forall p {:trigger p in files} :: !Under(p, Svn) && !Under(p, meta) ==>
          (p in files <==> p in files') && (p in files ==> files[p] == files'[p]))
    && ContentAt(files, [meta, CommitCache, Transaction]) == ContentAt(files', [meta, CommitCache, Transaction])
    && ContentAt(files, [meta, CommitCache, PreviousTransaction]) ==
       ContentAt(files', [meta, CommitCache, PreviousTransaction])
    && ContentAt(files, [meta, CommitCache, QueueCache]) == ContentAt(files', [meta, CommitCache, QueueCache])
    && ContentAt(files, [meta, State, Identity]) == ContentAt(files', [meta, State, Identity])
    && ContentAt(files, [Svn, WriterRecord]) == ContentAt(files', [Svn, WriterRecord])
  }

  lemma ProofIs(files: Files, meta: Name)
    ensures var proof := BoundAll(files, meta, PROOFS);
            && |proof| == 5
            && proof[0] == ContentAt(files, [meta, CommitCache, Transaction])
            && proof[1] == ContentAt(files, [meta, CommitCache, PreviousTransaction])
            && proof[2] == ContentAt(files, [meta, CommitCache, QueueCache])
            && proof[3] == ContentAt(files, [meta, State, Identity])
            && proof[4] == ContentAt(files, [Svn, WriterRecord])
  {
    ProofPlaces(meta);
  }

  lemma SameUser(files: Files, files': Files, meta: Name)
    ensures UserFiles(files, meta) == UserFiles(files', meta) <==>
              forall p {:trigger p in files} :: !Under(p, Svn) && !Under(p, meta) ==>
                (p in files <==> p in files') && (p in files ==> files[p] == files'[p])
  {
    var user, user' := UserFiles(files, meta), UserFiles(files', meta);
    assert forall p :: p in user <==> p in files && !Under(p, Svn) && !Under(p, meta);
    assert forall p :: p in user' <==> p in files' && !Under(p, Svn) && !Under(p, meta);
    if user == user' {
      forall p {:trigger p in files} | !Under(p, Svn) && !Under(p, meta)
        ensures (p in files <==> p in files') && (p in files ==> files[p] == files'[p])
      {
        assert p in user <==> p in user';
        if p in files {
          assert user[p] == files[p] && user'[p] == files'[p];
        }
      }
    }
  }

  lemma SameProof(files: Files, files': Files, meta: Name)
    ensures BoundAll(files, meta, PROOFS) == BoundAll(files', meta, PROOFS) <==>
      && ContentAt(files, [meta, CommitCache, Transaction]) == ContentAt(files', [meta, CommitCache, Transaction])
      && ContentAt(files, [meta, CommitCache, PreviousTransaction]) ==
         ContentAt(files', [meta, CommitCache, PreviousTransaction])
      && ContentAt(files, [meta, CommitCache, QueueCache]) == ContentAt(files', [meta, CommitCache, QueueCache])
      && ContentAt(files, [meta, State, Identity]) == ContentAt(files', [meta, State, Identity])
      && ContentAt(files, [Svn, WriterRecord]) == ContentAt(files', [Svn, WriterRecord])
  {
    ProofIs(files, meta);
    ProofIs(files', meta);
    var a, b := BoundAll(files, meta, PROOFS), BoundAll(files', meta, PROOFS);
    assert a == b <==> a[0] == b[0] && a[1] == b[1] && a[2] == b[2] && a[3] == b[3] && a[4] == b[4];
  }

  /** What a content proof binds: two trees that have one have the same exactly if they agree in every
      user entry and in the five bound files. */
  lemma SnapshotBinds(files: Files, files': Files, meta: Name)
    requires TakeSnapshot(files, meta).Some? && TakeSnapshot(files', meta).Some?
    ensures TakeSnapshot(files, meta) == TakeSnapshot(files', meta) <==> SameBound(files, files', meta)
  {
    SameUser(files, files', meta);
    SameProof(files, files', meta);
  }

  /** The marker holds the receipt, every field but the stage. */
  ghost predicate HasMarker(files: Files, j: Job) {
    var p := [Meta, State, RecoveryMarker];
    p in files && files[p].File? && files[p].content.Receipt? &&
    var m := files[p].content.job;
    && m.id == j.id && m.url == j.url && m.uuid == j.uuid && m.head == j.head && m.snapshot == j.snapshot
    && m.userSnapshot == j.userSnapshot && m.writer == j.writer && m.writerHash == j.writerHash
    && m.expires == j.expires
  }

  /** The right repository at the right revision, and every entry that of the revision, but for `.svn`,
      the metadata, and what is unversioned beside the copies. */
  ghost predicate IsCheckout(d: Dir, j: Job) {
    && d.svn.url == j.url && d.svn.uuid == j.uuid && d.svn.revision == j.head
    && forall p :: (p in d.files || p in d.svn.pristine) && !Under(p, Svn) && !Under(p, Meta) ==>
         if p in d.svn.pristine then p in d.files && d.files[p] == d.svn.pristine[p]
         else Under(p, Collisions) && HasMarker(d.files, j)
  }

  /** Below `base` there is nothing the walk of a content proof refuses. */
  ghost predicate WalksThroughAt(files: Files, base: Path) {
    && (base + [Svn] in files ==> files[base + [Svn]] == Directory)
    && (base + [Meta] in files ==> files[base + [Meta]] == Directory)
    && forall p {:trigger base + p} :: |p| > 0 && !Under(p, Svn) && !Under(p, Meta) && base + p in files ==>
         files[base + p] != Symlink && p[|p| - 1] !in {Svn, Meta}
  }

  ghost predicate BoundFilesReadableAt(files: Files, base: Path) {
    forall p {:trigger base + p} :: p in {[Meta, CommitCache, Transaction], [Meta, CommitCache, PreviousTransaction],
                                          [Meta, CommitCache, QueueCache], [Meta, State, Identity],
                                          [Svn, WriterRecord]} ==>
      base + p in files ==> files[base + p].File?
  }

  /** Every path and node below `base`, `.svn` and metadata apart, is that of `user`. */
  ghost predicate SameTreeAt(files: Files, base: Path, user: Files) {
    && (forall p {:trigger base + p} :: |p| > 0 && !Under(p, Svn) && !Under(p, Meta) ==>
          (base + p in files <==> p in user) && (base + p in files ==> files[base + p] == user[p]))
    && forall p :: p in user ==> |p| > 0 && !Under(p, Svn) && !Under(p, Meta)
  }

  /** The copies directory is there, holds the receipt's user tree entry by entry, and nothing that a
      content proof refuses. */
  ghost predicate HasCopies(files: Files, j: Job) {
    var base: Path := [Collisions, Copy(j.id)];
    && base in files && files[base] == Directory && SameTreeAt(files, base, j.userSnapshot)
    && WalksThroughAt(files, base) && BoundFilesReadableAt(files, base)
  }

  lemma MarkedMeans(files: Files, j: Job)
    ensures Marked(files, j) <==> HasMarker(files, j)
  {
  }

  lemma CheckoutMeans(d: Dir, j: Job)
    ensures CheckoutClean(d, j) <==> IsCheckout(d, j)
  {
    MarkedMeans(d.files, j);
  }

  lemma WalksBelow(files: Files, base: Path)
    ensures Walkable(Below(files, base), Meta) <==> WalksThroughAt(files, base)
  {
    var below := Below(files, base);
    assert [Svn] in below <==> base + [Svn] in files;
    assert [Meta] in below <==> base + [Meta] in files;
    assert forall p {:trigger base + p} :: |p| > 0 ==> (p in below <==> base + p in files);
  }

  lemma UserBelow(files: Files, base: Path, user: Files)
    ensures UserFiles(Below(files, base), Meta) == user <==> SameTreeAt(files, base, user)
  {
    var found := UserFiles(Below(files, base), Meta);
    assert forall p {:trigger base + p} ::
        |p| > 0 && !Under(p, Svn) && !Under(p, Meta) ==> (p in found <==> base + p in files);
    assert forall p :: p in found ==> |p| > 0 && !Under(p, Svn) && !Under(p, Meta) && found[p] == files[base + p];
  }

  lemma BoundBelow(files: Files, base: Path)
    ensures AllReadable(Below(files, base), Meta, PROOFS) <==> BoundFilesReadableAt(files, base)
  {
    var below := Below(files, base);
    AllReadableMeans(below, Meta);
    assert forall p {:trigger base + p} :: |p| > 0 ==> (p in below <==> base + p in files);
  }

  lemma CopiesMean(files: Files, j: Job)
    ensures CopiesVerified(files, j) <==> HasCopies(files, j)
  {
    var base := CopiesPath(j.id);
    WalksBelow(files, base);
    BoundBelow(files, base);
    UserBelow(files, base, j.userSnapshot);
  }

  /** What may take the original's place: this job's marker, a clean checkout, complete copies. */
  ghost predicate IsReplacement(d: Dir, j: Job) {
    HasMarker(d.files, j) && IsCheckout(d, j) && HasCopies(d.files, j)
  }

  lemma ReadyMeans(d: Dir, j: Job)
    ensures Ready(d, j) <==> IsReplacement(d, j)
  {
    MarkedMeans(d.files, j);
    CheckoutMeans(d, j);
    CopiesMean(d.files, j);
  }
}
