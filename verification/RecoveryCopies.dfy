/** Preserving the user's tree inside the fresh checkout: the copy loop rebuilds exactly the
    tree the receipt binds, and what it builds passes every later check. */
module RecoveryCopies {
  import opened Basics
  import opened RecoveryModel
  import Paths

  ghost predicate DirsTo(files: Files, p: Path) {
    Paths.DirsTo(files, Directory, p)
  }

  predicate Closed(files: Files) {
    Paths.Closed(files, Directory)
  }

  // ----- The copied tree -------------------------------------------------------------------

  predicate Inside(q: Path, base: Path) {
    |q| > |base| && q[..|base|] == base
  }

  /** `now` is `start` with exactly the entries `done` of `files` grafted below `base`. */
  ghost predicate Grafted(now: Files, start: Files, base: Path, files: Files, done: set<Path>) {
    && done <= files.Keys
    && (forall q {:trigger q in now} :: Inside(q, base) ==>
          (q in now <==> q[|base|..] in done) && (q in now ==> now[q] == files[q[|base|..]]))
    && (forall q {:trigger q in now} :: !Inside(q, base) ==>
          (q in now <==> q in start) && (q in now ==> now[q] == start[q]))
  }

  lemma GraftOne(now: Files, start: Files, base: Path, files: Files, done: set<Path>, p: Path)
    requires Grafted(now, start, base, files, done) && p in files && |p| > 0
    ensures Grafted(now[base + p := files[p]], start, base, files, done + {p})
  {
    assert Inside(base + p, base) && (base + p)[|base|..] == p;
    forall q | Inside(q, base) && q != base + p
      ensures q[|base|..] != p
    {
      assert base + q[|base|..] == q;
    }
  }

  /** Done entries come with their parents. */
  ghost predicate WithParents(done: set<Path>) {
    forall q {:trigger Paths.Parent(q)} :: q in done && |q| > 1 ==> Paths.Parent(q) in done
  }

  lemma {:induction false} BaseDirs(now: Files, start: Files, base: Path, files: Files, done: set<Path>, b: Path)
    requires Grafted(now, start, base, files, done) && DirsTo(start, b) && |b| <= |base|
    ensures DirsTo(now, b)
  {
    if |b| > 0 {
      assert !Inside(b, base);
      assert b in now;
      BaseDirs(now, start, base, files, done, Paths.Parent(b));
    }
  }

  lemma {:induction false} GraftedDirs(now: Files, start: Files, base: Path, files: Files, done: set<Path>, q: Path)
    requires Grafted(now, start, base, files, done) && Closed(files) && DirsTo(start, base) && WithParents(done)
    requires |q| > 0 ==> q in done && files[q] == Directory
    ensures DirsTo(now, base + q)
  {
    if |q| == 0 {
      BaseDirs(now, start, base, files, done, base);
      assert base + q == base;
    } else {
      assert Inside(base + q, base) && (base + q)[|base|..] == q;
      assert base + q in now;
      assert Paths.Parent(base + q) == base + Paths.Parent(q);
      GraftedDirs(now, start, base, files, done, Paths.Parent(q));
    }
  }

  /** In a parents-first listing the parent of an entry comes before it. */
  lemma ParentListed(list: seq<Path>, files: Files, i: nat) returns (n: nat)
    requires Paths.Lists(list, files.Keys) && Paths.ShallowFirst(list) && Closed(files)
    requires i < |list| && |list[i]| > 1
    ensures n < i && list[n] == Paths.Parent(list[i])
  {
    Paths.ListedAt(list, files.Keys, i);
    n := Paths.IndexOf(list, files.Keys, Paths.Parent(list[i]));
  }

  lemma GraftStep(now: Files, start: Files, base: Path, files: Files, done: set<Path>, p: Path)
    requires Grafted(now, start, base, files, done) && Closed(files) && p in files && p !in done
    requires DirsTo(start, base) && WithParents(done) && (|p| > 1 ==> Paths.Parent(p) in done)
    ensures base + p !in now && DirsTo(now, Paths.Parent(base + p))
    ensures Grafted(now[base + p := files[p]], start, base, files, done + {p})
  {
    GraftedDirs(now, start, base, files, done, Paths.Parent(p));
    GraftOne(now, start, base, files, done, p);
    assert Paths.Parent(base + p) == base + Paths.Parent(p);
    assert Inside(base + p, base) && (base + p)[|base|..] == p;
  }

  /** The copy loop after `i` entries of its listing. */
  ghost function CopiedTo(start: Files, base: Path, files: Files, list: seq<Path>, i: nat): Files
    requires i <= |list|
  {
    if i == 0 then start
    else
      var now := CopiedTo(start, base, files, list, i - 1);
      if list[i - 1] in files then now[base + list[i - 1] := files[list[i - 1]]] else now
  }

  /** A parents-first listing of a closed tree, and a place for it. */
  ghost predicate CanCopy(start: Files, base: Path, files: Files, list: seq<Path>) {
    && Paths.Lists(list, files.Keys) && Paths.ShallowFirst(list) && Closed(files)
    && DirsTo(start, base) && forall q :: q in start ==> !Inside(q, base)
  }

  ghost predicate Progress(now: Files, start: Files, base: Path, files: Files, list: seq<Path>, i: nat) {
    && i <= |list| && Paths.Lists(list, files.Keys) && Paths.ShallowFirst(list)
    && Closed(files) && DirsTo(start, base)
    && Grafted(now, start, base, files, Done(list, i)) && WithParents(Done(list, i))
  }

  lemma {:induction false} CopiedProgress(start: Files, base: Path, files: Files, list: seq<Path>, i: nat)
    requires CanCopy(start, base, files, list) && i <= |list|
    ensures Progress(CopiedTo(start, base, files, list, i), start, base, files, list, i)
  {
    if i == 0 {
      ProgressStarts(start, base, files, list);
    } else {
      CopiedProgress(start, base, files, list, i - 1);
      ProgressStep(CopiedTo(start, base, files, list, i - 1), start, base, files, list, i - 1, list[i - 1]);
    }
  }

  /** The next entry can be copied, and copying it is the next stage of the loop. */
  lemma NextCopy(start: Files, base: Path, files: Files, list: seq<Path>, i: nat)
    requires CanCopy(start, base, files, list) && i < |list|
    ensures var now, p := CopiedTo(start, base, files, list, i), list[i];
            && p in files && |p| > 0 && base + p !in now && DirsTo(now, Paths.Parent(base + p))
            && CopiedTo(start, base, files, list, i + 1) == now[base + p := files[p]]
  {
    CopiedProgress(start, base, files, list, i);
    ProgressStep(CopiedTo(start, base, files, list, i), start, base, files, list, i, list[i]);
  }

  lemma AllCopied(start: Files, base: Path, files: Files, list: seq<Path>)
    requires CanCopy(start, base, files, list)
    ensures Grafted(CopiedTo(start, base, files, list, |list|), start, base, files, files.Keys)
  {
    CopiedProgress(start, base, files, list, |list|);
    ProgressEnds(CopiedTo(start, base, files, list, |list|), start, base, files, list);
  }

  ghost function Done(list: seq<Path>, i: nat): set<Path>
    requires i <= |list|
  {
    if i == 0 then {} else Done(list, i - 1) + {list[i - 1]}
  }

  lemma {:induction false} DoneIsPrefix(list: seq<Path>, i: nat, p: Path)
    requires i <= |list|
    ensures p in Done(list, i) <==> exists k :: 0 <= k < i && list[k] == p
  {
    if i > 0 {
      DoneIsPrefix(list, i - 1, p);
    }
  }

  lemma ProgressStarts(start: Files, base: Path, files: Files, list: seq<Path>)
    requires Paths.Lists(list, files.Keys) && Paths.ShallowFirst(list) && Closed(files) && DirsTo(start, base)
    requires forall q :: q in start ==> !Inside(q, base)
    ensures Progress(start, start, base, files, list, 0)
  {
  }

  lemma ProgressStep(now: Files, start: Files, base: Path, files: Files, list: seq<Path>, i: nat, p: Path)
    requires Progress(now, start, base, files, list, i) && i < |list| && p == list[i]
    ensures p in files && |p| > 0 && base + p !in now && DirsTo(now, Paths.Parent(base + p))
    ensures Progress(now[base + p := files[p]], start, base, files, list, i + 1)
  {
    var done := Done(list, i);
    ListedBefore(list, files, i);
    GraftStep(now, start, base, files, done, p);
    AddWithParents(done, p);
  }

  lemma AddWithParents(done: set<Path>, p: Path)
    requires WithParents(done) && (|p| > 1 ==> Paths.Parent(p) in done)
    ensures WithParents(done + {p})
  {
  }

  lemma ProgressEnds(now: Files, start: Files, base: Path, files: Files, list: seq<Path>)
    requires Progress(now, start, base, files, list, |list|)
    ensures Grafted(now, start, base, files, files.Keys)
  {
    forall p
      ensures p in Done(list, |list|) <==> p in files
    {
      DoneIsPrefix(list, |list|, p);
      if p in files {
        var k := Paths.IndexOf(list, files.Keys, p);
      } else if k: nat :| k < |list| && list[k] == p {
        Paths.ListedAt(list, files.Keys, k);
      }
    }
    assert Done(list, |list|) == files.Keys;
  }

  lemma ListedBefore(list: seq<Path>, files: Files, i: nat)
    requires Paths.Lists(list, files.Keys) && Paths.ShallowFirst(list) && Closed(files) && i < |list|
    ensures list[i] in files && list[i] !in Done(list, i)
    ensures |list[i]| > 1 ==> Paths.Parent(list[i]) in Done(list, i)
  {
    Paths.ListedAt(list, files.Keys, i);
    DoneIsPrefix(list, i, list[i]);
    if |list[i]| > 1 {
      var n := ParentListed(list, files, i);
      DoneIsPrefix(list, i, Paths.Parent(list[i]));
    }
  }

  // ----- The prepared checkout ---------------------------------------------------------------

  const STATE: Path := [Meta, State]

  /** Identity, client id, last seen notice and logs: entries of `.filees` other than the marker. */
  function MetaOnly(metadata: Files): Files {
    map p | p in metadata && Under(p, Meta) && p != MARKER :: metadata[p]
  }

  /** Preserving a user tree and proving it again yields the same user digest. */
  lemma UserTreeProves(files: Files, proofs: seq<Path>, none: seq<Path>)
    requires Prove(files, Meta, proofs).Some?
    requires forall i :: 0 <= i < |none| ==> Private(none[i], Meta)
    ensures var user := UserFiles(files, Meta);
            Prove(user, Meta, none).Some? && Prove(user, Meta, none).value.user == user
  {
    var user := UserFiles(files, Meta);
    assert UserFiles(user, Meta) == user;
    forall i | 0 <= i < |none|
      ensures Readable(user, Swap(none[i], Meta, Meta))
    {
      assert Private(Swap(none[i], Meta, Meta), Meta);
    }
    WalkableFromUser(user, Meta);
    WalkableFromUser(files, Meta);
    assert Private([Svn], Meta) && Private([Meta], Meta);
  }

  lemma CopiesProve(files: Files)
    requires TakeSnapshot(files, Meta).Some?
    ensures var user := UserFiles(files, Meta);
            TakeSnapshot(user, Meta).Some? && TakeSnapshot(user, Meta).value.user == user
  {
    UserTreeProves(files, PROOFS, PROOFS);
  }

  ghost predicate PlainClean(files: Files, pristine: Files) {
    forall p :: p in files.Keys + pristine.Keys ==>
      Private(p, Meta) || (p in files && p in pristine && files[p] == pristine[p])
  }

  lemma UnmarkedIsPlain(d: Dir, j: Job)
    requires CheckoutClean(d, j) && !Top(d.files, Meta)
    ensures PlainClean(d.files, d.svn.pristine)
  {
    assert Under(MARKER, Meta);
  }

  /** `done` is a clean checkout plus metadata plus a tree below the copies directory. */
  ghost predicate Extends(done: Files, checkout: Files, copies: Files, base: Path) {
    forall p {:trigger p in done} :: !Under(p, Meta) ==>
      if Inside(p, base) then
        (p in done <==> p[|base|..] in copies) && (p in done ==> done[p] == copies[p[|base|..]])
      else if p == base || p == base[..1] then
        p in done && done[p] == Directory
      else
        (p in done <==> p in checkout) && (p in done ==> done[p] == checkout[p])
  }

  lemma ExtendedIsClean(done: Files, checkout: Files, pristine: Files, copies: Files, base: Path)
    requires |base| == 2 && base[0] == Collisions
    requires Extends(done, checkout, copies, base) && PlainClean(checkout, pristine) && !Top(checkout, Collisions)
    ensures forall p :: p in done.Keys + pristine.Keys ==>
              || Private(p, Meta)
              || (Under(p, Collisions) && p !in pristine)
              || (p in done && p in pristine && done[p] == pristine[p])
  {
    forall p | p in done.Keys + pristine.Keys && !Private(p, Meta)
      ensures || (Under(p, Collisions) && p !in pristine)
              || (p in done && p in pristine && done[p] == pristine[p])
    {
      if Under(p, Collisions) {
        assert p !in checkout;
      } else {
        assert !Inside(p, base) && p != base && p != base[..1];
        assert p in done <==> p in checkout;
      }
    }
  }

  lemma ExtendedBelow(done: Files, checkout: Files, copies: Files, base: Path)
    requires |base| == 2 && base[0] == Collisions && Extends(done, checkout, copies, base)
    requires forall p :: p in copies ==> |p| > 0
    ensures Below(done, base) == copies && base in done && done[base] == Directory
  {
    var b := Below(done, base);
    forall p
      ensures p in b <==> p in copies
      ensures p in b ==> b[p] == copies[p]
    {
      if |p| > 0 {
        assert Inside(base + p, base) && (base + p)[|base|..] == p;
        assert base + p in done <==> p in copies;
      }
    }
    assert !Inside(base, base) && !Under(base, Meta);
    assert base in done;
  }

  lemma GraftedExtends(checkout: Files, copied: Files, copies: Files, metadata: Files, base: Path, marker: Path,
                       node: Node)
    requires |base| == 2 && base[0] == Collisions && Under(marker, Meta)
    requires Grafted(copied, checkout[base[..1] := Directory][base := Directory], base, copies, copies.Keys)
    ensures Extends((copied + MetaOnly(metadata))[marker := node], checkout, copies, base)
  {
    var start := checkout[base[..1] := Directory][base := Directory];
    var done := (copied + MetaOnly(metadata))[marker := node];
    forall p {:trigger p in done} | !Under(p, Meta)
      ensures p in done <==> p in copied
      ensures p in done ==> done[p] == copied[p]
    {
    }
  }

  ghost predicate FavourableCheckout(checkout: Dir, j: Job) {
    && CheckoutClean(checkout, j) && TakeSnapshot(checkout.files, Meta).Some?
    && !Top(checkout.files, Collisions) && !Top(checkout.files, Meta)
    && Closed(j.snapshot.user) && j.userSnapshot == j.snapshot.user
  }

  /** A clean checkout with the copies grafted in and FileES metadata added is ready. */
  lemma PreparedIsReady(checkout: Dir, copied: Files, files: Files, metadata: Files, j: Job)
    requires FavourableCheckout(checkout, j)
    requires TakeSnapshot(files, Meta) == Some(j.snapshot)
    requires Grafted(copied, checkout.files[CopiesPath(j.id)[..1] := Directory][CopiesPath(j.id) := Directory],
                     CopiesPath(j.id), j.snapshot.user, j.snapshot.user.Keys)
    ensures Ready(checkout.(files := (copied + MetaOnly(metadata))[MARKER := File(Receipt(j))]), j)
  {
    var base, user := CopiesPath(j.id), j.snapshot.user;
    var done := (copied + MetaOnly(metadata))[MARKER := File(Receipt(j))];
    GraftedExtends(checkout.files, copied, user, metadata, base, MARKER, File(Receipt(j)));
    UnmarkedIsPlain(checkout, j);
    ExtendedIsClean(done, checkout.files, checkout.svn.pristine, user, base);
    CopiesProve(files);
    ExtendedBelow(done, checkout.files, user, base);
  }
}
