/** `reverseReconcileNWC`: make a local directory equal to one repository revision
    (cmd/filees-client/nwc_reverse.go). */
module NwcReverse {
  import opened Basics
  import opened NwcTree
  import Paths

  datatype Outcome =
    | Reconciled(written: nat, removed: nat)
    | DownloadFailed | RemoveFailed | MkdirFailed | WriteFailed
    | NotEmpty     // a removal met a directory that still has entries
    | Obstructed   // a directory or file was to be made where something else is

  /** The local entry is absent from the repository or of another kind there. */
  predicate Mismatched(local: Tree, head: Tree, p: Path)
    requires p in local
  {
    p !in head || head[p].Dir? != local[p].Dir?
  }

  function Obstructions(local: Tree, head: Tree): set<Path> {
    set p | p in local && Mismatched(local, head, p)
  }

  /** The repository files whose bytes are not already there. */
  function Stale(local: Tree, head: Tree): set<Path> {
    set p | p in head && head[p].File? && (p !in local || local[p] != head[p])
  }

  /** Every entry is a former or a wanted one, and nothing both agree on is gone. */
  ghost predicate Between(was: Tree, now: Tree, head: Tree) {
    && (forall p :: p in now ==> (p in was && now[p] == was[p]) || (p in head && now[p] == head[p]))
    && (forall p :: p in was && p in head && was[p] == head[p] ==> p in now && now[p] == was[p])
  }

  /** Everything left has the kind the repository gives it. */
  ghost predicate SameKinds(now: Tree, head: Tree) {
    forall p :: p in now ==> p in head && now[p].Dir? == head[p].Dir?
  }

  predicate HasEntries(t: Tree, p: Path) {
    exists q :: q in t && Below(p, q)
  }

  class LocalDirectory {
    var tree: Tree
    var calls: nat
    /** Whether the n-th download or file system call fails. */
    const fails: nat -> bool

    constructor (tree: Tree, fails: nat -> bool)
      ensures this.tree == tree && this.fails == fails && calls == 0
    {
      this.tree, this.fails, calls := tree, fails, 0;
    }

    /** From now on every call succeeds. */
    ghost predicate Reliable()
      reads this
    {
      forall n :: n >= calls ==> !fails(n)
    }

    /** Every call since `from` succeeded, or the last one failed and every one before it
        succeeded: a failure is the end of a run. */
    ghost predicate Ended(from: nat, ok: bool)
      reads this
    {
      && from <= calls && (!ok ==> from < calls && fails(calls - 1))
      && forall n :: from <= n < (if ok then calls else calls - 1) ==> !fails(n)
    }

    method Attempt() returns (ok: bool)
      modifies this`calls
      ensures ok == !fails(old(calls)) && calls == old(calls) + 1
    {
      ok := !fails(calls);
      calls := calls + 1;
    }

    /** Download every file of the revision; nothing local changes. */
    method Stage(head: Tree, paths: seq<Path>) returns (ok: bool, staged: map<Path, string>, same: map<Path, bool>)
      requires Paths.Lists(paths, head.Keys)
      modifies this`calls
      ensures Ended(old(calls), ok)
      ensures ok ==> forall p :: p in head && head[p].File? ==>
        && p in staged && staged[p] == head[p].bytes
        && (p in same && same[p] <==> p in tree && tree[p] == head[p])
    {
      staged, same := map[], map[];
      for i := 0 to |paths|
        invariant forall k :: 0 <= k < i && paths[k] in head && head[paths[k]].File? ==>
          && paths[k] in staged && staged[paths[k]] == head[paths[k]].bytes
          && (paths[k] in same && same[paths[k]] <==> paths[k] in tree && tree[paths[k]] == head[paths[k]])
        invariant forall k :: i <= k < |paths| ==> paths[k] !in same
        invariant Ended(old(calls), true)
      {
        var p := paths[i];
        Paths.ListedAt(paths, head.Keys, i);
        if head[p].File? {
          ok := Attempt();
          if !ok {
            return;
          }
          staged := staged[p := head[p].bytes];
          if p in tree && tree[p].File? {
            ok := Attempt();
            if !ok {
              return;
            }
            same := same[p := tree[p].bytes == staged[p]];
          }
        }
      }
      forall p | p in head && head[p].File?
        ensures p in staged && staged[p] == head[p].bytes
        ensures p in same && same[p] <==> p in tree && tree[p] == head[p]
      {
        var k := Paths.IndexOf(paths, head.Keys, p);
      }
      ok := true;
    }

    /** Remove what the repository does not have in that kind, deepest first. */
    method RemoveObstructions(head: Tree) returns (failure: Option<Outcome>, removed: nat)
      requires Closed(tree) && Closed(head)
      modifies this
      ensures Closed(tree) && Between(old(tree), tree, head)
      ensures failure in {None, Some(RemoveFailed)}
      ensures Ended(old(calls), failure == None)
      ensures forall p :: p in tree ==> p in old(tree) && tree[p] == old(tree)[p]
      ensures forall p :: p in old(tree) && p in head && old(tree)[p].Dir? == head[p].Dir? ==> p in tree
      ensures failure == None ==>
                && (forall p :: p in tree ==> p in head && old(tree)[p].Dir? == head[p].Dir?)
                && removed == |set p | p in old(tree) && (p !in head || old(tree)[p].Dir? != head[p].Dir?)|
    {
      var local := tree;
      var list := Paths.ListDeepFirst(local.Keys);
      ghost var k;
      failure, removed, k := RemoveListed(head, local, list);
      RemovalIsSafe(local, head, list, k);
      AllGone(local, head, list);
      forall p
        ensures p in Gone(local, head, list, k) ==> p in local && Mismatched(local, head, p)
      {
        GoneIs(local, head, list, k, p);
      }
      assert Obstructions(local, head) == set p | p in local && (p !in head || local[p].Dir? != head[p].Dir?);
    }

    /** The removal loop; `k` entries of the list are behind it when it ends. */
    method RemoveListed(head: Tree, local: Tree, list: seq<Path>)
      returns (failure: Option<Outcome>, removed: nat, ghost k: nat)
      requires Closed(local) && Closed(head) && Paths.Lists(list, local.Keys) && Paths.DeepFirst(list) && tree == local
      modifies this
      ensures k <= |list| && tree == local - Gone(local, head, list, k) && removed == |Gone(local, head, list, k)|
      ensures failure in {None, Some(RemoveFailed)} && (failure == None ==> k == |list|)
      ensures Ended(old(calls), failure == None)
    {
      removed := 0;
      for i := 0 to |list|
        invariant tree == local - Gone(local, head, list, i) && removed == |Gone(local, head, list, i)|
        invariant Ended(old(calls), true)
      {
        k := i;
        var gone;
        failure, gone := RemoveNext(head, local, list, i);
        if failure != None {
          return;
        }
        removed := if gone then removed + 1 else removed;
      }
      failure, k := None, |list|;
    }

    method RemoveNext(head: Tree, local: Tree, list: seq<Path>, i: nat) returns (failure: Option<Outcome>, gone: bool)
      requires Closed(local) && Closed(head) && Paths.Lists(list, local.Keys) && Paths.DeepFirst(list)
      requires i < |list| && tree == local - Gone(local, head, list, i)
      modifies this
      ensures failure in {None, Some(RemoveFailed)} && Ended(old(calls), failure == None)
      ensures failure == None ==>
        && tree == local - Gone(local, head, list, i + 1)
        && |Gone(local, head, list, i + 1)| == |Gone(local, head, list, i)| + if gone then 1 else 0
      ensures failure != None ==> tree == old(tree)
    {
      failure, gone := None, false;
      Paths.ListedAt(list, local.Keys, i);
      if Mismatched(local, head, list[i]) {
        EntriesGoFirst(local, head, list, i);
        GoneGrows(local, head, list, i);
        failure := Remove(list[i]);
        gone := failure == None;
      }
    }

    /** `os.Remove`: an entry goes unless it is a directory with entries or the call fails. */
    method Remove(p: Path) returns (failure: Option<Outcome>)
      modifies this
      ensures HasEntries(old(tree), p) ==> failure == Some(NotEmpty) && tree == old(tree) && calls == old(calls)
      ensures !HasEntries(old(tree), p) ==>
        && calls == old(calls) + 1
        && failure == (if fails(old(calls)) then Some(RemoveFailed) else None)
        && tree == if failure == None then old(tree) - {p} else old(tree)
    {
      if HasEntries(tree, p) {
        return Some(NotEmpty);
      }
      var ok := Attempt();
      if !ok {
        return Some(RemoveFailed);
      }
      tree := tree - {p};
      failure := None;
    }

    /** Make every directory of the repository, parents first. */
    method MakeDirectories(head: Tree, list: seq<Path>) returns (failure: Option<Outcome>)
      requires Closed(tree) && Closed(head) && SameKinds(tree, head)
      requires Paths.Lists(list, head.Keys) && Paths.ShallowFirst(list)
      modifies this
      ensures Closed(tree) && SameKinds(tree, head) && OnlyDirsAdded(old(tree), tree)
      ensures failure in {None, Some(MkdirFailed)}
      ensures Ended(old(calls), failure == None)
      ensures failure == None ==> HasDirs(tree, head)
    {
      ghost var start := tree;
      for i := 0 to |list|
        invariant tree == MadeTo(start, head, list, i) && Ended(old(calls), true)
      {
        var p := list[i];
        Paths.ListedAt(list, head.Keys, i);
        if head[p] == Dir {
          DirectoryCanBeMade(start, head, list, i);
          var made := Paths.MkdirAll(tree, Dir, p);
          if made.None? {
            return Some(Obstructed);
          }
          var ok := Attempt();
          if !ok {
            return Some(MkdirFailed);
          }
          tree := made.value;
        }
      }
      MakingIsSafe(start, head, list, |list|);
      AllMade(start, head, list);
      failure := None;
    }

    /** Put the staged bytes in place of every file that is not there already. */
    method WriteFiles(head: Tree, list: seq<Path>, staged: map<Path, string>, same: map<Path, bool>, ghost was: Tree)
      returns (failure: Option<Outcome>, written: nat)
      requires Closed(tree) && Closed(head) && SameKinds(tree, head) && HasDirs(tree, head) &&
          KeepsAgreed(tree, head, was)
      requires Paths.Lists(list, head.Keys)
      requires forall p :: p in head && head[p].File? ==>
        && p in staged && staged[p] == head[p].bytes
        && (p in same && same[p] <==> p in was && was[p] == head[p])
      modifies this
      ensures Closed(tree) && KeepsAgreed(tree, head, was)
      ensures forall p :: p in tree ==> (p in old(tree) && tree[p] == old(tree)[p]) || (p in head && tree[p] == head[p])
      ensures forall p :: p in old(tree) && old(tree)[p] == Dir ==> p in tree && tree[p] == Dir
      ensures forall p :: p in old(tree) ==> p in tree
      ensures failure in {None, Some(WriteFailed)}
      ensures Ended(old(calls), failure == None)
      ensures failure == None ==> tree == head && written == |Stale(was, head)|
    {
      ghost var start := tree;
      ghost var k;
      failure, written, k := WriteListed(head, list, staged, same, was);
      WritingIsSafe(start, head, was, list, k);
      AllWritten(start, head, was, list);
    }

    /** The writing loop; `k` entries of the list are behind it when it ends. */
    method WriteListed(head: Tree, list: seq<Path>, staged: map<Path, string>, same: map<Path, bool>, ghost was: Tree)
      returns (failure: Option<Outcome>, written: nat, ghost k: nat)
      requires Writable(tree, head, was) && Paths.Lists(list, head.Keys)
      requires forall p :: p in head && head[p].File? ==>
        && p in staged && staged[p] == head[p].bytes
        && (p in same && same[p] <==> p in was && was[p] == head[p])
      modifies this
      ensures k <= |list| && tree == WrittenTo(old(tree), head, was, list, k)
      ensures written == |StaleIn(head, was, list, k)|
      ensures failure in {None, Some(WriteFailed)} && (failure == None ==> k == |list|)
      ensures Ended(old(calls), failure == None)
    {
      written := 0;
      for i := 0 to |list|
        invariant tree == WrittenTo(old(tree), head, was, list, i) && written == |StaleIn(head, was, list, i)|
        invariant Ended(old(calls), true)
      {
        k := i;
        var p := list[i];
        Paths.ListedAt(list, head.Keys, i);
        if head[p].File? && !(p in same && same[p]) {
          FileCanBeWritten(old(tree), head, was, list, i);
          failure := Write(p, staged[p]);
          if failure != None {
            return;
          }
          StaleGrows(head, was, list, i);
          written := written + 1;
        }
      }
      failure, k := None, |list|;
    }

    /** The parents, then the bytes under a temporary name and the rename. */
    method Write(p: Path, bytes: string) returns (failure: Option<Outcome>)
      requires |p| > 0
      modifies this
      ensures var parents := Paths.MkdirAll(old(tree), Dir, Paths.Parent(p));
              if parents.None? || (p in parents.value && parents.value[p] == Dir) then
                failure == Some(Obstructed) && tree == old(tree) && calls == old(calls)
              else
                && calls == old(calls) + 1
                && failure == (if fails(old(calls)) then Some(WriteFailed) else None)
                && tree == if failure == None then parents.value[p := File(bytes)] else old(tree)
    {
      var parents := Paths.MkdirAll(tree, Dir, Paths.Parent(p));
      if parents.None? || (p in parents.value && parents.value[p] == Dir) {
        return Some(Obstructed);
      }
      var ok := Attempt();
      if !ok {
        return Some(WriteFailed);
      }
      tree := parents.value[p := File(bytes)];
      failure := None;
    }

    /** The whole reconciliation.  If it completes, the directory equals the revision in
        paths, kinds and bytes.  No removal meets a directory with entries and nothing is
        made where something else is; the directory changes only once every file is staged;
        and however the run ends, the directory stays a tree from which a further run can
        start, and whatever is of the same kind on both sides is never taken away: it holds
        its former bytes or already those of the revision. */
    method ReverseReconcile(head: Tree) returns (out: Outcome)
      requires Closed(tree) && Closed(head)
      modifies this
      ensures Closed(tree) && Between(old(tree), tree, head)
      ensures out != NotEmpty && out != Obstructed
      ensures forall p :: p in old(tree) && p in head && old(tree)[p].Dir? == head[p].Dir? ==>
                p in tree && (tree[p] == old(tree)[p] || tree[p] == head[p])
      ensures out == DownloadFailed ==> tree == old(tree)
      ensures out == RemoveFailed ==> forall p :: p in tree ==> p in old(tree) && tree[p] == old(tree)[p]
      ensures out == MkdirFailed ==>
                forall p :: p in tree && tree[p] != Dir ==> p in old(tree) && tree[p] == old(tree)[p]
      ensures Ended(old(calls), out.Reconciled?)
      ensures old(Reliable()) ==> out.Reconciled?
      ensures out.Reconciled? ==>
        && tree == head
        && out.written == |set p | p in head && head[p].File? && (p !in old(tree) || old(tree)[p] != head[p])|
        && out.removed == |set p | p in old(tree) && (p !in head || old(tree)[p].Dir? != head[p].Dir?)|
    {
      var list := Paths.ListShallowFirst(head.Keys);
      var ok, staged, same := Stage(head, list);
      if !ok {
        return DownloadFailed;
      }
      assert Stale(tree, head) == set p | p in head && head[p].File? && (p !in tree || tree[p] != head[p]);
      out := Change(head, list, staged, same);
    }

    /** The directory is changed only now that every file is staged. */
    method Change(head: Tree, list: seq<Path>, staged: map<Path, string>, same: map<Path, bool>) returns (out: Outcome)
      requires Closed(tree) && Closed(head) && Paths.Lists(list, head.Keys) && Paths.ShallowFirst(list)
      requires forall p :: p in head && head[p].File? ==>
        && p in staged && staged[p] == head[p].bytes
        && (p in same && same[p] <==> p in tree && tree[p] == head[p])
      modifies this
      ensures Closed(tree) && Between(old(tree), tree, head)
      ensures out.Reconciled? || out in {RemoveFailed, MkdirFailed, WriteFailed}
      ensures forall p :: p in old(tree) && p in head && old(tree)[p].Dir? == head[p].Dir? ==>
                p in tree && (tree[p] == old(tree)[p] || tree[p] == head[p])
      ensures out == RemoveFailed ==> forall p :: p in tree ==> p in old(tree) && tree[p] == old(tree)[p]
      ensures out == MkdirFailed ==>
                forall p :: p in tree && tree[p] != Dir ==> p in old(tree) && tree[p] == old(tree)[p]
      ensures Ended(old(calls), out.Reconciled?)
      ensures out.Reconciled? ==>
        && tree == head && out.written == |Stale(old(tree), head)|
        && out.removed == |set p | p in old(tree) && (p !in head || old(tree)[p].Dir? != head[p].Dir?)|
    {
      var failure, removed := RemoveObstructions(head);
      if failure.Some? {
        return failure.value;
      }
      failure := MakeDirectories(head, list);
      if failure.Some? {
        return failure.value;
      }
      var written;
      failure, written := WriteFiles(head, list, staged, same, old(tree));
      if failure.Some? {
        return failure.value;
      }
      out := Reconciled(written, removed);
    }
  }

  // ----- Removal -------------------------------------------------------------------------

  /** What the removal loop has taken away after `i` entries. */
  ghost function Gone(local: Tree, head: Tree, list: seq<Path>, i: nat): set<Path>
    requires i <= |list|
  {
    if i == 0 then {}
    else if list[i - 1] in local && Mismatched(local, head, list[i - 1]) then
      Gone(local, head, list, i - 1) + {list[i - 1]}
    else Gone(local, head, list, i - 1)
  }

  lemma {:induction false} GoneIs(local: Tree, head: Tree, list: seq<Path>, i: nat, p: Path)
    requires i <= |list|
    ensures p in Gone(local, head, list, i) <==>
              p in local && Mismatched(local, head, p) && exists k :: 0 <= k < i && list[k] == p
  {
    if i > 0 {
      GoneIs(local, head, list, i - 1, p);
    }
  }

  lemma GoneGrows(local: Tree, head: Tree, list: seq<Path>, i: nat)
    requires Paths.Lists(list, local.Keys) && i < |list| && list[i] in local && Mismatched(local, head, list[i])
    ensures |Gone(local, head, list, i + 1)| == |Gone(local, head, list, i)| + 1
    ensures local - Gone(local, head, list, i + 1) == (local - Gone(local, head, list, i)) - {list[i]}
  {
    GoneIs(local, head, list, i, list[i]);
  }

  lemma AllGone(local: Tree, head: Tree, list: seq<Path>)
    requires Paths.Lists(list, local.Keys)
    ensures Gone(local, head, list, |list|) == Obstructions(local, head)
  {
    forall p
      ensures p in Gone(local, head, list, |list|) <==> p in Obstructions(local, head)
    {
      GoneIs(local, head, list, |list|, p);
      if p in local {
        var k := Paths.IndexOf(list, local.Keys, p);
      }
    }
  }

  /** Deepest first, whatever lies below an entry to be removed is already gone. */
  lemma EntriesGoFirst(local: Tree, head: Tree, list: seq<Path>, i: nat)
    requires Closed(local) && Closed(head) && Paths.Lists(list, local.Keys) && Paths.DeepFirst(list)
    requires i < |list| && list[i] in local && Mismatched(local, head, list[i])
    ensures !HasEntries(local - Gone(local, head, list, i), list[i])
  {
    var p, now := list[i], local - Gone(local, head, list, i);
    if HasEntries(now, p) {
      var q :| q in now && Below(p, q);
      var k := Paths.IndexOf(list, local.Keys, q);
      GoneIs(local, head, list, i, q);
      AncestorIsDir(local, p, q);
      AncestorIsDir(head, p, q);
    }
  }

  lemma RemovalKeepsClosed(t: Tree, p: Path)
    requires Closed(t) && !HasEntries(t, p)
    ensures Closed(t - {p})
  {
    forall q | q in t - {p} && |q| > 1
      ensures Paths.Parent(q) in t - {p} && (t - {p})[Paths.Parent(q)] == Dir
    {
      assert Below(Paths.Parent(q), q);
    }
  }

  lemma RemoveOne(local: Tree, now: Tree, head: Tree, p: Path)
    requires Closed(now) && Between(local, now, head) && !HasEntries(now, p)
    requires p in local && Mismatched(local, head, p)
    ensures Closed(now - {p}) && Between(local, now - {p}, head)
  {
    RemovalKeepsClosed(now, p);
  }

  /** However far the removal got, a proper tree is left, agreeing entries included. */
  lemma {:induction false} RemovalIsSafe(local: Tree, head: Tree, list: seq<Path>, i: nat)
    requires Closed(local) && Closed(head) && Paths.Lists(list, local.Keys) && Paths.DeepFirst(list) && i <= |list|
    ensures Closed(local - Gone(local, head, list, i)) && Between(local, local - Gone(local, head, list, i), head)
  {
    if i == 0 {
      assert local - Gone(local, head, list, 0) == local;
    } else {
      RemovalIsSafe(local, head, list, i - 1);
      var p, before := list[i - 1], Gone(local, head, list, i - 1);
      Paths.ListedAt(list, local.Keys, i - 1);
      if Mismatched(local, head, p) {
        EntriesGoFirst(local, head, list, i - 1);
        RemoveOne(local, local - before, head, p);
        assert local - (before + {p}) == (local - before) - {p};
      }
    }
  }

  // ----- Directories ---------------------------------------------------------------------

  ghost predicate OnlyDirsAdded(was: Tree, now: Tree) {
    && (forall p :: p in was ==> p in now && now[p] == was[p])
    && (forall p :: p in now && p !in was ==> now[p] == Dir)
  }

  ghost predicate HasDirs(now: Tree, head: Tree) {
    forall p :: p in head && head[p] == Dir ==> p in now
  }

  /** What the directory loop has made after `i` entries. */
  ghost function MadeTo(start: Tree, head: Tree, list: seq<Path>, i: nat): Tree
    requires i <= |list|
  {
    if i == 0 then start
    else if list[i - 1] in head && head[list[i - 1]] == Dir then MadeTo(start, head, list, i - 1)[list[i - 1] := Dir]
    else MadeTo(start, head, list, i - 1)
  }

  lemma {:induction false} MadeDirs(start: Tree, head: Tree, list: seq<Path>, i: nat, k: nat)
    requires k < i <= |list| && list[k] in head && head[list[k]] == Dir
    ensures list[k] in MadeTo(start, head, list, i) && MadeTo(start, head, list, i)[list[k]] == Dir
  {
    if k < i - 1 {
      MadeDirs(start, head, list, i - 1, k);
    }
  }

  /** The parent of the next directory is there, so making it adds just this one. */
  lemma DirectoryCanBeMade(start: Tree, head: Tree, list: seq<Path>, i: nat)
    requires Closed(start) && Closed(head) && SameKinds(start, head)
    requires Paths.Lists(list, head.Keys) && Paths.ShallowFirst(list) && i < |list|
    requires list[i] in head && head[list[i]] == Dir
    ensures var now := MadeTo(start, head, list, i);
            Closed(now) && SameKinds(now, head) && OnlyDirsAdded(start, now) &&
              Paths.MkdirAll(now, Dir, list[i]) == Some(now[list[i] := Dir])
  {
    var p, now := list[i], MadeTo(start, head, list, i);
    MakingIsSafe(start, head, list, i);
    NextDirectory(start, head, list, i);
    Paths.MkdirAllOfExisting(now, Dir, Paths.Parent(p));
    if p in now {
      assert now == now[p := Dir];
    }
  }

  lemma NextDirectory(start: Tree, head: Tree, list: seq<Path>, i: nat)
    requires Closed(head) && Paths.Lists(list, head.Keys) && Paths.ShallowFirst(list) && i < |list|
    requires list[i] in head && Closed(MadeTo(start, head, list, i))
    ensures Paths.DirsTo(MadeTo(start, head, list, i), Dir, Paths.Parent(list[i]))
    ensures |list[i]| > 1 ==> Paths.Parent(list[i]) in MadeTo(start, head, list, i)
                              && MadeTo(start, head, list, i)[Paths.Parent(list[i])] == Dir
  {
    var p := list[i];
    if |p| > 1 {
      var up := Paths.Parent(p);
      var k := Paths.IndexOf(list, head.Keys, up);
      MadeDirs(start, head, list, i, k);
      Paths.ClosedDirs(MadeTo(start, head, list, i), Dir, up);
    }
  }

  lemma {:induction false} MakingIsSafe(start: Tree, head: Tree, list: seq<Path>, i: nat)
    requires Closed(start) && Closed(head) && SameKinds(start, head)
    requires Paths.Lists(list, head.Keys) && Paths.ShallowFirst(list) && i <= |list|
    ensures var now := MadeTo(start, head, list, i);
            Closed(now) && SameKinds(now, head) && OnlyDirsAdded(start, now)
  {
    if i > 0 {
      MakingIsSafe(start, head, list, i - 1);
      var p := list[i - 1];
      Paths.ListedAt(list, head.Keys, i - 1);
      if head[p] == Dir {
        NextDirectory(start, head, list, i - 1);
        MakeOne(start, MadeTo(start, head, list, i - 1), head, p);
      }
    }
  }

  lemma MakeOne(start: Tree, now: Tree, head: Tree, p: Path)
    requires Closed(now) && SameKinds(now, head) && OnlyDirsAdded(start, now)
    requires p in head && head[p] == Dir && |p| > 0
    requires |p| > 1 ==> Paths.Parent(p) in now && now[Paths.Parent(p)] == Dir
    ensures Closed(now[p := Dir]) && SameKinds(now[p := Dir], head) && OnlyDirsAdded(start, now[p := Dir])
  {
    AddingKeepsClosed(now, p, Dir);
  }

  lemma AddingKeepsClosed(t: Tree, p: Path, node: Node)
    requires Closed(t) && |p| > 0 && (|p| > 1 ==> Paths.Parent(p) in t && t[Paths.Parent(p)] == Dir)
    requires p in t ==> t[p].Dir? == node.Dir?
    ensures Closed(t[p := node])
  {
    forall q | q in t[p := node] && |q| > 1
      ensures Paths.Parent(q) in t[p := node] && t[p := node][Paths.Parent(q)] == Dir
    {
      assert Paths.Parent(q) in t;
    }
  }

  lemma AllMade(start: Tree, head: Tree, list: seq<Path>)
    requires Paths.Lists(list, head.Keys)
    ensures HasDirs(MadeTo(start, head, list, |list|), head)
  {
    forall p | p in head && head[p] == Dir
      ensures p in MadeTo(start, head, list, |list|)
    {
      var k := Paths.IndexOf(list, head.Keys, p);
      MadeDirs(start, head, list, |list|, k);
    }
  }

  // ----- Files ---------------------------------------------------------------------------

  ghost predicate KeepsAgreed(now: Tree, head: Tree, was: Tree) {
    forall p :: p in head && head[p].File? && p in was && was[p] == head[p] ==> p in now && now[p] == head[p]
  }

  predicate ToWrite(head: Tree, was: Tree, p: Path) {
    p in head && head[p].File? && (p !in was || was[p] != head[p])
  }

  ghost function WrittenTo(start: Tree, head: Tree, was: Tree, list: seq<Path>, i: nat): Tree
    requires i <= |list|
  {
    if i == 0 then start
    else if ToWrite(head, was, list[i - 1]) then
      WrittenTo(start, head, was, list, i - 1)[list[i - 1] := head[list[i - 1]]]
    else WrittenTo(start, head, was, list, i - 1)
  }

  ghost function StaleIn(head: Tree, was: Tree, list: seq<Path>, i: nat): set<Path>
    requires i <= |list|
  {
    if i == 0 then {}
    else if ToWrite(head, was, list[i - 1]) then StaleIn(head, was, list, i - 1) + {list[i - 1]}
    else StaleIn(head, was, list, i - 1)
  }

  lemma {:induction false} StaleInIs(head: Tree, was: Tree, list: seq<Path>, i: nat, p: Path)
    requires i <= |list|
    ensures p in StaleIn(head, was, list, i) <==> ToWrite(head, was, p) && exists k :: 0 <= k < i && list[k] == p
  {
    if i > 0 {
      StaleInIs(head, was, list, i - 1, p);
    }
  }

  lemma StaleGrows(head: Tree, was: Tree, list: seq<Path>, i: nat)
    requires Paths.Lists(list, head.Keys) && i < |list|
    ensures ToWrite(head, was, list[i]) ==> |StaleIn(head, was, list, i + 1)| == |StaleIn(head, was, list, i)| + 1
  {
    StaleInIs(head, was, list, i, list[i]);
  }

  ghost predicate Writable(now: Tree, head: Tree, was: Tree) {
    Closed(now) && Closed(head) && SameKinds(now, head) && HasDirs(now, head) && KeepsAgreed(now, head, was)
  }

  lemma {:induction false} WritingIsSafe(start: Tree, head: Tree, was: Tree, list: seq<Path>, i: nat)
    requires Writable(start, head, was) && Paths.Lists(list, head.Keys) && i <= |list|
    ensures var now := WrittenTo(start, head, was, list, i);
            && Writable(now, head, was)
            && (forall p :: p in now ==> (p in start && now[p] == start[p]) || (p in head && now[p] == head[p]))
            && (forall p :: p in start && start[p] == Dir ==> p in now && now[p] == Dir)
            && (forall p :: p in start ==> p in now)
  {
    if i > 0 {
      WritingIsSafe(start, head, was, list, i - 1);
      var p, now := list[i - 1], WrittenTo(start, head, was, list, i - 1);
      if ToWrite(head, was, p) {
        WriteOne(start, now, head, was, p);
      }
    }
  }

  lemma WriteOne(start: Tree, now: Tree, head: Tree, was: Tree, p: Path)
    requires Writable(now, head, was) && p in head && head[p].File?
    requires forall q :: q in now ==> (q in start && now[q] == start[q]) || (q in head && now[q] == head[q])
    requires forall q :: q in start && start[q] == Dir ==> q in now && now[q] == Dir
    ensures var next := now[p := head[p]];
            && Writable(next, head, was)
            && (forall q :: q in next ==> (q in start && next[q] == start[q]) || (q in head && next[q] == head[q]))
            && (forall q :: q in start && start[q] == Dir ==> q in next && next[q] == Dir)
  {
    ParentThere(now, head, p);
    AddingKeepsClosed(now, p, head[p]);
  }

  lemma ParentThere(now: Tree, head: Tree, p: Path)
    requires Closed(now) && Closed(head) && SameKinds(now, head) && HasDirs(now, head) && p in head
    ensures |p| > 1 ==> Paths.Parent(p) in now && now[Paths.Parent(p)] == Dir
    ensures Paths.DirsTo(now, Dir, Paths.Parent(p))
  {
    if |p| > 1 {
      var up := Paths.Parent(p);
      assert up in head && head[up] == Dir;
      Paths.ClosedDirs(now, Dir, up);
    }
  }

  lemma FileCanBeWritten(start: Tree, head: Tree, was: Tree, list: seq<Path>, i: nat)
    requires Writable(start, head, was) && Paths.Lists(list, head.Keys) && i < |list|
    requires list[i] in head && head[list[i]].File?
    ensures var now := WrittenTo(start, head, was, list, i);
            Paths.MkdirAll(now, Dir, Paths.Parent(list[i])) == Some(now) && (list[i] in now ==> now[list[i]] != Dir)
  {
    var now := WrittenTo(start, head, was, list, i);
    WritingIsSafe(start, head, was, list, i);
    ParentThere(now, head, list[i]);
    Paths.MkdirAllOfExisting(now, Dir, Paths.Parent(list[i]));
  }

  lemma {:induction false} WrittenAt(start: Tree, head: Tree, was: Tree, list: seq<Path>, i: nat, k: nat)
    requires k < i <= |list| && ToWrite(head, was, list[k])
    ensures list[k] in WrittenTo(start, head, was, list, i) &&
        WrittenTo(start, head, was, list, i)[list[k]] == head[list[k]]
  {
    if k < i - 1 {
      WrittenAt(start, head, was, list, i - 1, k);
    }
  }

  lemma AllWritten(start: Tree, head: Tree, was: Tree, list: seq<Path>)
    requires Writable(start, head, was) && Paths.Lists(list, head.Keys)
    ensures WrittenTo(start, head, was, list, |list|) == head
    ensures StaleIn(head, was, list, |list|) == Stale(was, head)
  {
    var now := WrittenTo(start, head, was, list, |list|);
    WritingIsSafe(start, head, was, list, |list|);
    forall p | p in head
      ensures p in now && now[p] == head[p]
    {
      if ToWrite(head, was, p) {
        var k := Paths.IndexOf(list, head.Keys, p);
        WrittenAt(start, head, was, list, |list|, k);
      }
    }
    assert now.Keys == head.Keys;
    forall p
      ensures p in StaleIn(head, was, list, |list|) <==> p in Stale(was, head)
    {
      StaleInIs(head, was, list, |list|, p);
      if p in head {
        var k := Paths.IndexOf(list, head.Keys, p);
      }
    }
  }
}
