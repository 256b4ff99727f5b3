/** `publishNWC`: bring the repository up to date with a local directory without a working
    copy, and without undoing deletions made in the repository (cmd/filees-client/nwc.go). */
module NwcPublish {
  import opened Basics
  import opened NwcTree
  import Paths

  /** One publication: the repository tree it starts from, the local tree, the bytes the
      staging read finds in each local file, the paths ever deleted from the repository,
      and whether deleted paths are to be restored. */
  datatype Request = Request(head: Tree, local: Tree, reread: map<Path, string>, deleted: set<Path>, restore: bool)

  datatype Change = Change(path: Path, bytes: string)
  datatype Action = Mkdir(path: Path) | Put(path: Path, bytes: string)

  datatype Plan =
    | Plan(dirs: seq<Path>, changes: seq<Change>, skipped: nat)
    | Obstructed(path: Path)

  /** Trees as they exist, every local file readable. */
  ghost predicate Wellformed(r: Request) {
    && Closed(r.head) && Closed(r.local)
    && forall p :: p in r.local && r.local[p].File? ==> p in r.reread
  }

  // ----- What happens to one file ----------------------------------------------------------

  /** `wasNWCDeleted`: the path or an ancestor was deleted and is absent now. */
  predicate WasDeleted(p: Path, deleted: set<Path>, head: Tree) {
    |p| > 0 && ((p in deleted && p !in head) || WasDeleted(Paths.Parent(p), deleted, head))
  }

  /** The walk up finds the paths at and above `p`. */
  lemma {:induction false} WasDeletedMeans(p: Path, deleted: set<Path>, head: Tree)
    ensures WasDeleted(p, deleted, head) <==>
              exists q :: |q| > 0 && (q == p || Below(q, p)) && q in deleted && q !in head
  {
    if |p| > 0 {
      var up := Paths.Parent(p);
      WasDeletedMeans(up, deleted, head);
      forall q | |q| > 0
        ensures Below(q, p) <==> q == up || Below(q, up)
      {
      }
    }
  }

  method CheckDeleted(rel: Path, deleted: set<Path>, head: Tree) returns (found: bool)
    ensures found == WasDeleted(rel, deleted, head)
    ensures found <==> exists q :: |q| > 0 && (q == rel || Below(q, rel)) && q in deleted && q !in head
  {
    WasDeletedMeans(rel, deleted, head);
    var p := rel;
    while |p| > 0
      invariant WasDeleted(rel, deleted, head) == WasDeleted(p, deleted, head)
      decreases |p|
    {
      if p in deleted && p !in head {
        return true;
      }
      p := Paths.Parent(p);
    }
    found := false;
  }

  predicate Skipped(r: Request, p: Path) {
    p !in r.head && !r.restore && WasDeleted(p, r.deleted, r.head)
  }

  /** An ancestor of the path is a file in the repository. */
  predicate UnderFile(p: Path, head: Tree) {
    |p| > 1 && ((Paths.Parent(p) in head && head[Paths.Parent(p)].File?) || UnderFile(Paths.Parent(p), head))
  }

  lemma {:induction false} UnderFileMeans(p: Path, head: Tree)
    ensures UnderFile(p, head) <==> exists q :: |q| > 0 && Below(q, p) && q in head && head[q].File?
  {
    if |p| > 1 {
      var up := Paths.Parent(p);
      UnderFileMeans(up, head);
      forall q | |q| > 0
        ensures Below(q, p) <==> q == up || Below(q, up)
      {
      }
    }
  }

  predicate Blocked(r: Request, p: Path) {
    if p in r.head then r.head[p] == Dir else !Skipped(r, p) && UnderFile(p, r.head)
  }

  predicate Changed(r: Request, p: Path)
    requires p in r.local && p in r.reread
  {
    if p in r.head then r.head[p] != r.local[p] && r.head[p] != File(r.reread[p]) else !Skipped(r, p)
  }

  predicate IsFile(t: Tree, p: Path) {
    p in t && t[p].File?
  }

  /** The ancestors that have to be made before the path can be put. */
  function Needed(p: Path, head: Tree): set<Path> {
    if |p| <= 1 || Paths.Parent(p) in head then {} else {Paths.Parent(p)} + Needed(Paths.Parent(p), head)
  }

  /** The walk up the parents, stopping at the first one the repository has. */
  method NeededParents(rel: Path, head: Tree) returns (ok: bool, needed: set<Path>)
    requires Closed(head) && |rel| > 0
    ensures ok == !UnderFile(rel, head)
    ensures ok <==> forall q :: |q| > 0 && Below(q, rel) && q in head ==> head[q] == Dir
    ensures ok ==> needed == Needed(rel, head)
    ensures ok ==> forall q :: q in needed <==> |q| > 0 && q !in head && Below(q, rel)
  {
    UnderFileMeans(rel, head);
    forall q
      ensures q in Needed(rel, head) <==> |q| > 0 && q !in head && Below(q, rel)
    {
      NeededIs(rel, head, q);
    }
    var parent := Paths.Parent(rel);
    var child := rel;
    needed := {};
    while |parent| > 0
      invariant |child| > 0 && parent == Paths.Parent(child)
      invariant UnderFile(rel, head) == UnderFile(child, head)
      invariant Needed(rel, head) == needed + Needed(child, head)
      decreases |parent|
    {
      if parent in head {
        if head[parent].File? {
          return false, needed;
        }
        NotUnderFile(parent, head);
        return true, needed;
      }
      needed := needed + {parent};
      child, parent := parent, Paths.Parent(parent);
    }
    ok := true;
  }

  lemma {:induction false} NotUnderFile(p: Path, head: Tree)
    requires Closed(head) && p in head
    ensures !UnderFile(p, head)
  {
    if |p| > 1 {
      NotUnderFile(Paths.Parent(p), head);
    }
  }

  // ----- The plan over a listing of the local files -------------------------------------------

  /** The changes found in the first `i` files. */
  ghost function ChangesTo(r: Request, list: seq<Path>, i: nat): seq<Change>
    requires i <= |list|
  {
    if i == 0 then []
    else if IsFile(r.local, list[i - 1]) && list[i - 1] in r.reread && Changed(r, list[i - 1]) then
      ChangesTo(r, list, i - 1) + [Change(list[i - 1], r.reread[list[i - 1]])]
    else
      ChangesTo(r, list, i - 1)
  }

  ghost function NeededTo(r: Request, list: seq<Path>, i: nat): set<Path>
    requires i <= |list|
  {
    if i == 0 then {}
    else if IsFile(r.local, list[i - 1]) && list[i - 1] in r.reread && Changed(r, list[i - 1]) then
      NeededTo(r, list, i - 1) + Needed(list[i - 1], r.head)
    else
      NeededTo(r, list, i - 1)
  }

  ghost function SkippedTo(r: Request, list: seq<Path>, i: nat): set<Path>
    requires i <= |list|
  {
    if i == 0 then {}
    else if Skipped(r, list[i - 1]) then SkippedTo(r, list, i - 1) + {list[i - 1]}
    else SkippedTo(r, list, i - 1)
  }

  function LocalFiles(r: Request): set<Path> {
    set p | p in r.local && r.local[p].File?
  }

  /** The local files that are neither up to date nor deleted in the repository. */
  ghost function ToPublish(r: Request): set<Path>
    requires Wellformed(r)
  {
    set p | p in r.local && IsFile(r.local, p) && Changed(r, p)
  }

  ghost function ToSkip(r: Request): set<Path> {
    set p | p in r.local && IsFile(r.local, p) && Skipped(r, p)
  }

  /** The repository ancestors a publication lacks. */
  ghost predicate Missing(r: Request, q: Path)
    requires Wellformed(r)
  {
    |q| > 0 && q !in r.head && exists p :: p in ToPublish(r) && Below(q, p)
  }

  /** What a plan has to be. */
  ghost predicate IsPlanFor(r: Request, plan: Plan)
    requires Wellformed(r)
  {
    match plan
    case Obstructed(p) => IsFile(r.local, p) && Blocked(r, p)
    case Plan(dirs, changes, skipped) =>
      && (forall p :: IsFile(r.local, p) ==> !Blocked(r, p))
      && Paths.Lists(PathsOf(changes), ToPublish(r))
      && (forall i :: 0 <= i < |changes| ==>
           changes[i].path in r.reread && changes[i].bytes == r.reread[changes[i].path])
      && Paths.Lists(dirs, Paths.Elements(dirs)) && Paths.ShallowFirst(dirs)
      && (forall q :: q in Paths.Elements(dirs) <==> Missing(r, q))
      && skipped == |ToSkip(r)|
  }

  ghost function PathsOf(changes: seq<Change>): seq<Path> {
    seq(|changes|, i requires 0 <= i < |changes| => changes[i].path)
  }

  lemma {:induction false} NeededIs(p: Path, head: Tree, q: Path)
    requires Closed(head) && |p| > 0
    ensures q in Needed(p, head) <==> |q| > 0 && q !in head && Below(q, p)
  {
    if |p| > 1 {
      var up := Paths.Parent(p);
      if up in head {
        if |q| > 0 && Below(q, p) && q != up {
          assert Below(q, up);
          AncestorIsDir(head, q, up);
        }
      } else {
        NeededIs(up, head, q);
        assert Below(q, p) <==> q == up || Below(q, up);
      }
    }
  }

  lemma {:induction false} NeededToIs(r: Request, list: seq<Path>, i: nat, q: Path)
    requires Wellformed(r) && i <= |list|
    ensures q in NeededTo(r, list, i) <==>
              |q| > 0 && q !in r.head && exists k :: 0 <= k < i && list[k] in ToPublish(r) && Below(q, list[k])
  {
    if i > 0 {
      NeededToIs(r, list, i - 1, q);
      if list[i - 1] in ToPublish(r) {
        NeededIs(list[i - 1], r.head, q);
      }
    }
  }

  lemma {:induction false} ChangesToIs(r: Request, list: seq<Path>, i: nat, p: Path)
    requires Wellformed(r) && i <= |list|
    ensures p in Paths.Elements(PathsOf(ChangesTo(r, list, i))) <==>
        p in ToPublish(r) && exists k :: 0 <= k < i && list[k] == p
  {
    if i > 0 {
      ChangesToIs(r, list, i - 1, p);
      if list[i - 1] in ToPublish(r) {
        ElementsGrow(ChangesTo(r, list, i - 1), Change(list[i - 1], r.reread[list[i - 1]]));
      }
    }
  }

  lemma ElementsGrow(changes: seq<Change>, c: Change)
    ensures PathsOf(changes + [c]) == PathsOf(changes) + [c.path]
    ensures Paths.Elements(PathsOf(changes + [c])) == Paths.Elements(PathsOf(changes)) + {c.path}
  {
    var before := PathsOf(changes);
    assert PathsOf(changes + [c]) == before + [c.path];
    assert (before + [c.path])[..|before|] == before;
  }

  lemma StaysDistinct(ps: seq<Path>, p: Path)
    requires Paths.Lists(ps, Paths.Elements(ps)) && p !in Paths.Elements(ps)
    ensures Paths.Lists(ps + [p], Paths.Elements(ps + [p]))
  {
    forall a | 0 <= a < |ps|
      ensures ps[a] != p
    {
      Paths.ListedAt(ps, Paths.Elements(ps), a);
    }
  }

  lemma {:induction false} ChangesDistinct(r: Request, list: seq<Path>, i: nat)
    requires Wellformed(r) && i <= |list| && forall a, b :: 0 <= a < b < |list| ==> list[a] != list[b]
    ensures var ps := PathsOf(ChangesTo(r, list, i)); Paths.Lists(ps, Paths.Elements(ps))
  {
    if i > 0 {
      ChangesDistinct(r, list, i - 1);
      var p, before := list[i - 1], ChangesTo(r, list, i - 1);
      if p in ToPublish(r) {
        ElementsGrow(before, Change(p, r.reread[p]));
        ChangesToIs(r, list, i - 1, p);
        StaysDistinct(PathsOf(before), p);
      }
    }
  }

  lemma {:induction false} ChangeBytes(r: Request, list: seq<Path>, i: nat, a: nat)
    requires i <= |list| && a < |ChangesTo(r, list, i)|
    ensures var c := ChangesTo(r, list, i)[a]; c.path in r.reread && c.bytes == r.reread[c.path]
  {
    if i > 0 && a < |ChangesTo(r, list, i - 1)| {
      ChangeBytes(r, list, i - 1, a);
    }
  }

  lemma {:induction false} SkippedToIs(r: Request, list: seq<Path>, i: nat, p: Path)
    requires i <= |list|
    ensures p in SkippedTo(r, list, i) <==> Skipped(r, p) && exists k :: 0 <= k < i && list[k] == p
  {
    if i > 0 {
      SkippedToIs(r, list, i - 1, p);
    }
  }

  lemma PlanIsComplete(r: Request, list: seq<Path>, dirs: seq<Path>)
    requires Wellformed(r) && Paths.Lists(list, LocalFiles(r))
    requires forall k :: 0 <= k < |list| ==> !Blocked(r, list[k])
    requires Paths.Lists(dirs, NeededTo(r, list, |list|)) && Paths.ShallowFirst(dirs)
    ensures IsPlanFor(r, Plan(dirs, ChangesTo(r, list, |list|), |SkippedTo(r, list, |list|)|))
  {
    var n, files := |list|, LocalFiles(r);
    var changes := ChangesTo(r, list, n);
    forall p | IsFile(r.local, p)
      ensures !Blocked(r, p)
    {
      var k := Paths.IndexOf(list, files, p);
    }
    ChangesDistinct(r, list, n);
    forall a | 0 <= a < |changes|
      ensures changes[a].path in r.reread && changes[a].bytes == r.reread[changes[a].path]
    {
      ChangeBytes(r, list, n, a);
    }
    assert Paths.Elements(PathsOf(changes)) == ToPublish(r) by {
      forall p
        ensures p in Paths.Elements(PathsOf(changes)) <==> p in ToPublish(r)
      {
        ChangesToIs(r, list, n, p);
        if p in ToPublish(r) {
          var k := Paths.IndexOf(list, files, p);
        }
      }
    }
    forall q
      ensures q in Paths.Elements(dirs) <==> Missing(r, q)
    {
      NeededToIs(r, list, n, q);
      if Missing(r, q) {
        var p :| p in ToPublish(r) && Below(q, p);
        var k := Paths.IndexOf(list, files, p);
      }
    }
    assert SkippedTo(r, list, n) == ToSkip(r) by {
      forall p
        ensures p in SkippedTo(r, list, n) <==> p in ToSkip(r)
      {
        SkippedToIs(r, list, n, p);
        if p in ToSkip(r) {
          var k := Paths.IndexOf(list, files, p);
        } else if k: nat :| k < n && list[k] == p {
          Paths.ListedAt(list, files, k);
        }
      }
    }
  }

  /** What the planning loop finds out about one local file. */
  datatype Finding = UpToDate | Gone | InTheWay | ToPut(parents: set<Path>)

  /** The path or something above it was deleted, is absent, and is not to be restored. */
  ghost predicate StaysDeleted(r: Request, p: Path) {
    p !in r.head && !r.restore && exists q :: |q| > 0 && (q == p || Below(q, p)) && q in r.deleted && q !in r.head
  }

  /** The three verdicts on a local file, spelled out. */
  lemma VerdictsMean(r: Request, p: Path)
    requires Wellformed(r) && IsFile(r.local, p)
    ensures Skipped(r, p) <==> StaysDeleted(r, p)
    ensures Blocked(r, p) <==>
              || (p in r.head && r.head[p] == Dir)
              || (p !in r.head && !StaysDeleted(r, p) &&
                  exists q :: |q| > 0 && Below(q, p) && q in r.head && r.head[q].File?)
    ensures Changed(r, p) <==>
              || (p in r.head && r.head[p] != r.local[p] && r.head[p] != File(r.reread[p]))
              || (p !in r.head && !StaysDeleted(r, p))
  {
    WasDeletedMeans(p, r.deleted, r.head);
    UnderFileMeans(p, r.head);
  }

  method Examine(r: Request, p: Path) returns (f: Finding)
    requires Wellformed(r) && IsFile(r.local, p)
    ensures f == InTheWay <==> Blocked(r, p)
    ensures !Blocked(r, p) ==> (f == Gone <==> Skipped(r, p)) && (f.ToPut? <==> Changed(r, p))
    ensures f == Gone <==>
              && p !in r.head && !r.restore
              && exists q :: |q| > 0 && (q == p || Below(q, p)) && q in r.deleted && q !in r.head
    ensures f == UpToDate <==> p in r.head && (r.head[p] == r.local[p] || r.head[p] == File(r.reread[p]))
    ensures f.ToPut? ==>
              && f.parents == Needed(p, r.head)
              && forall q :: q in f.parents <==> |q| > 0 && q !in r.head && Below(q, p)
  {
    VerdictsMean(r, p);
    if p in r.head {
      if r.head[p] == Dir {
        return InTheWay;
      }
      if r.local[p] == r.head[p] {
        return UpToDate;
      }
    } else if !r.restore {
      var gone := CheckDeleted(p, r.deleted, r.head);
      if gone {
        return Gone;
      }
    }
    var ok, parents := NeededParents(p, r.head);
    if p in r.head {
      NotUnderFile(p, r.head);
    }
    if !ok {
      return InTheWay;
    }
    if p in r.head && r.head[p] == File(r.reread[p]) {
      return UpToDate;
    }
    f := ToPut(parents);
  }

  method MakePlan(r: Request) returns (plan: Plan)
    requires Wellformed(r)
    ensures IsPlanFor(r, plan) && IsPlainPlanFor(r, plan)
  {
    plan := PlanFiles(r);
    PlanMeans(r, plan);
  }

  /** The planning loop of `publishNWC`. */
  method PlanFiles(r: Request) returns (plan: Plan)
    requires Wellformed(r)
    ensures IsPlanFor(r, plan)
  {
    var list := Paths.ListShallowFirst(LocalFiles(r));
    var changes: seq<Change> := [];
    var needed: set<Path> := {};
    var skipped := 0;
    for i := 0 to |list|
      invariant changes == ChangesTo(r, list, i) && needed == NeededTo(r, list, i)
      invariant skipped == |SkippedTo(r, list, i)|
      invariant forall k :: 0 <= k < i ==> !Blocked(r, list[k])
    {
      var ok;
      ok, changes, needed, skipped := PlanNext(r, list, i, changes, needed, skipped);
      if !ok {
        return Obstructed(list[i]);
      }
    }
    var dirs := Paths.ListShallowFirst(needed);
    PlanIsComplete(r, list, dirs);
    plan := Plan(dirs, changes, skipped);
  }

  method PlanNext(r: Request, list: seq<Path>, i: nat, changes: seq<Change>, needed: set<Path>, skipped: nat)
    returns (ok: bool, more: seq<Change>, parents: set<Path>, gone: nat)
    requires Wellformed(r) && Paths.Lists(list, LocalFiles(r)) && i < |list|
    requires changes == ChangesTo(r, list, i) && needed == NeededTo(r, list, i) && skipped == |SkippedTo(r, list, i)|
    ensures IsFile(r.local, list[i]) && (ok <==> !Blocked(r, list[i]))
    ensures ok ==>
              more == ChangesTo(r, list, i + 1) && parents == NeededTo(r, list, i + 1) &&
                gone == |SkippedTo(r, list, i + 1)|
  {
    var p := list[i];
    Paths.ListedAt(list, LocalFiles(r), i);
    ok, more, parents, gone := true, changes, needed, skipped;
    var f := Examine(r, p);
    match f {
      case InTheWay => ok := false;
      case Gone =>
        SkippedToIs(r, list, i, p);
        gone := skipped + 1;
      case ToPut(above) =>
        parents, more := needed + above, changes + [Change(p, r.reread[p])];
      case UpToDate =>
    }
  }

  /** What a plan has to be, file by file: a file is published if the repository has other bytes for
      it, or nothing and it does not stay deleted; it is in the way of none, and the directories
      listed before the files are the ancestors the repository lacks. */
  ghost predicate IsPlainPlanFor(r: Request, plan: Plan)
    requires Wellformed(r)
  {
    match plan
    case Obstructed(p) =>
      && IsFile(r.local, p)
      && if p in r.head then r.head[p] == Dir
         else !StaysDeleted(r, p) && exists q :: |q| > 0 && Below(q, p) && q in r.head && r.head[q].File?
    case Plan(dirs, changes, skipped) =>
      && (forall p :: IsFile(r.local, p) && p in r.head ==> r.head[p].File?)
      && (forall p, q :: IsFile(r.local, p) && p !in r.head && !StaysDeleted(r, p) && Below(q, p) && |q| > 0 ==>
            q !in r.head || r.head[q] == Dir)
      && (forall p :: Puts(changes, p) <==>
            && IsFile(r.local, p)
            && if p in r.head then r.head[p] != r.local[p] && r.head[p] != File(r.reread[p]) else !StaysDeleted(r, p))
      && (forall i :: 0 <= i < |changes| ==>
            changes[i].path in r.reread && changes[i].bytes == r.reread[changes[i].path])
      && (forall i, k :: 0 <= i < k < |changes| ==> changes[i].path != changes[k].path)
      && (forall q :: q in dirs <==> |q| > 0 && q !in r.head && exists p :: Puts(changes, p) && Below(q, p))
      && (forall i, k :: 0 <= i < k < |dirs| ==> dirs[i] != dirs[k] && |dirs[i]| <= |dirs[k]|)
      && skipped == |set p | p in r.local && r.local[p].File? && StaysDeleted(r, p)|
  }

  ghost predicate Puts(changes: seq<Change>, p: Path) {
    exists i :: 0 <= i < |changes| && changes[i].path == p
  }

  lemma PutsPublish(r: Request, changes: seq<Change>, p: Path)
    requires Wellformed(r) && Paths.Lists(PathsOf(changes), ToPublish(r))
    ensures Puts(changes, p) <==> p in ToPublish(r)
  {
    if p in ToPublish(r) {
      var k := Paths.IndexOf(PathsOf(changes), ToPublish(r), p);
      assert changes[k].path == p;
    } else if i: nat :| i < |changes| && changes[i].path == p {
      Paths.ListedAt(PathsOf(changes), ToPublish(r), i);
    }
  }

  lemma PlanMeans(r: Request, plan: Plan)
    requires Wellformed(r) && IsPlanFor(r, plan)
    ensures IsPlainPlanFor(r, plan)
  {
    forall p | IsFile(r.local, p)
      ensures Skipped(r, p) <==> StaysDeleted(r, p)
      ensures Blocked(r, p) <==>
                if p in r.head then r.head[p] == Dir
                else !StaysDeleted(r, p) && exists q :: |q| > 0 && Below(q, p) && q in r.head && r.head[q].File?
    {
      VerdictsMean(r, p);
    }
    if plan.Plan? {
      PlanFilesMean(r, plan);
    }
  }

  lemma PlanFilesMean(r: Request, plan: Plan)
    requires Wellformed(r) && IsPlanFor(r, plan) && plan.Plan?
    requires forall p :: IsFile(r.local, p) ==> (Skipped(r, p) <==> StaysDeleted(r, p))
    ensures forall p :: Puts(plan.changes, p) <==>
              && IsFile(r.local, p)
              && if p in r.head then r.head[p] != r.local[p] && r.head[p] != File(r.reread[p]) else !StaysDeleted(r, p)
    ensures forall i, k :: 0 <= i < k < |plan.changes| ==> plan.changes[i].path != plan.changes[k].path
    ensures forall q :: q in plan.dirs <==>
              |q| > 0 && q !in r.head && exists p :: Puts(plan.changes, p) && Below(q, p)
    ensures plan.skipped == |set p | p in r.local && r.local[p].File? && StaysDeleted(r, p)|
  {
    forall p
      ensures Puts(plan.changes, p) <==> p in ToPublish(r)
    {
      PutsPublish(r, plan.changes, p);
    }
    var ps := PathsOf(plan.changes);
    forall i, k | 0 <= i < k < |plan.changes|
      ensures plan.changes[i].path != plan.changes[k].path
    {
      assert ps[i] != ps[k];
    }
    forall q
      ensures q in plan.dirs <==> Missing(r, q)
    {
      Paths.ElementsAre(plan.dirs, q);
    }
    assert ToSkip(r) == set p | p in r.local && r.local[p].File? && StaysDeleted(r, p);
  }

  // ----- Executing a plan --------------------------------------------------------------------

  predicate ParentThere(t: Tree, p: Path) {
    |p| == 1 || (|p| > 1 && Paths.Parent(p) in t && t[Paths.Parent(p)] == Dir)
  }

  /** One action of the commit, refused where the repository would refuse it. */
  function Do(t: Tree, a: Action): Option<Tree> {
    match a
    case Mkdir(p) => if p !in t && ParentThere(t, p) then Some(t[p := Dir]) else None
    case Put(p, bytes) => if ParentThere(t, p) && (p in t ==> t[p].File?) then Some(t[p := File(bytes)]) else None
  }

  function ExecuteTo(t: Tree, actions: seq<Action>, i: nat): Option<Tree>
    requires i <= |actions|
  {
    if i == 0 then Some(t)
    else
      match ExecuteTo(t, actions, i - 1)
      case None => None
      case Some(u) => Do(u, actions[i - 1])
  }

  function Execute(t: Tree, actions: seq<Action>): Option<Tree> {
    ExecuteTo(t, actions, |actions|)
  }

  /** The action list: directories first, then the files. */
  function Actions(dirs: seq<Path>, changes: seq<Change>): (actions: seq<Action>)
    ensures |actions| == |dirs| + |changes|
  {
    seq(|dirs| + |changes|, i requires 0 <= i < |dirs| + |changes| =>
      if i < |dirs| then Mkdir(dirs[i]) else Put(changes[i - |dirs|].path, changes[i - |dirs|].bytes))
  }

  /** The old tree, the missing ancestors as directories and the published bytes, and
      nothing else. */
  ghost predicate IsResult(r: Request, t: Tree)
    requires Wellformed(r)
  {
    forall p {:trigger p in t} ::
      && (p in t <==> p in r.head || Missing(r, p) || p in ToPublish(r))
      && (p in t ==> t[p] == if p in ToPublish(r) then File(r.reread[p]) else if p in r.head then r.head[p] else Dir)
  }

  // ----- Every plan executes, and yields exactly the result ------------------------------------

  /** Nothing stands in the way of any file. */
  ghost predicate Unobstructed(r: Request) {
    forall p :: IsFile(r.local, p) ==> !Blocked(r, p)
  }

  /** An ancestor of a published file is a directory in the repository or missing there. */
  lemma {:induction false} AncestorsAreDirs(r: Request, p: Path, q: Path)
    requires Wellformed(r) && Unobstructed(r) && p in ToPublish(r) && |q| > 0 && Below(q, p)
    ensures if q in r.head then r.head[q] == Dir else Missing(r, q)
    ensures q in r.local && r.local[q] == Dir
  {
    AncestorIsDir(r.local, q, p);
    if p in r.head {
      AncestorIsDir(r.head, q, p);
    } else if q in r.head && r.head[q].File? {
      FileAbove(r.head, p, q);
    }
  }

  lemma {:induction false} FileAbove(head: Tree, p: Path, q: Path)
    requires q in head && head[q].File? && |q| > 0 && Below(q, p)
    ensures UnderFile(p, head)
  {
    var up := Paths.Parent(p);
    if |up| > |q| {
      assert Below(q, up);
      FileAbove(head, up, q);
    } else {
      assert up == q;
    }
  }

  lemma ParentIsBelow(p: Path)
    requires |p| > 1
    ensures Below(Paths.Parent(p), p) && |Paths.Parent(p)| > 0
  {
  }

  lemma BelowParent(q: Path, p: Path)
    requires Below(q, p)
    ensures |q| > 1 ==> Below(Paths.Parent(q), p)
  {
    if |q| > 1 {
      assert p[..|q| - 1] == q[..|q| - 1];
    }
  }

  ghost predicate HasParent(r: Request, p: Path)
    requires Wellformed(r)
  {
    |p| > 1 ==> var up := Paths.Parent(p); if up in r.head then r.head[up] == Dir else Missing(r, up)
  }

  lemma PublishedHasParent(r: Request, p: Path)
    requires Wellformed(r) && Unobstructed(r) && (p in ToPublish(r) || Missing(r, p))
    ensures HasParent(r, p) && |p| > 0
  {
    if |p| > 1 {
      ParentIsBelow(p);
      if p in ToPublish(r) {
        AncestorsAreDirs(r, p, Paths.Parent(p));
      } else {
        var f :| f in ToPublish(r) && Below(p, f);
        BelowParent(p, f);
        AncestorsAreDirs(r, f, Paths.Parent(p));
      }
    }
  }

  // The listed paths up to an index.

  ghost function Upto(list: seq<Path>, i: nat): set<Path>
    requires i <= |list|
  {
    Paths.Elements(list[..i])
  }

  lemma UptoNext(list: seq<Path>, i: nat)
    requires i < |list|
    ensures Upto(list, i + 1) == Upto(list, i) + {list[i]}
  {
    assert list[..i + 1][..i] == list[..i];
  }

  lemma UptoHas(list: seq<Path>, i: nat, k: nat)
    requires k < i <= |list|
    ensures list[k] in Upto(list, i)
  {
    Paths.ListedAt(list[..i], Upto(list, i), k);
  }

  lemma UptoLacks(list: seq<Path>, s: set<Path>, i: nat)
    requires Paths.Lists(list, s) && i < |list|
    ensures list[i] !in Upto(list, i)
  {
    if list[i] in Upto(list, i) {
      var k := Paths.IndexOf(list[..i], Upto(list, i), list[i]);
    }
  }

  /** The repository after the directories `made`. */
  ghost predicate Made(r: Request, made: set<Path>, t: Tree) {
    forall p {:trigger p in t} ::
      && (p in t <==> p in r.head || p in made)
      && (p in t ==> t[p] == if p in r.head then r.head[p] else Dir)
  }

  lemma MadeGrows(r: Request, made: set<Path>, t: Tree, p: Path)
    requires Made(r, made, t) && p !in r.head && p !in made
    ensures p !in t && Made(r, made + {p}, t[p := Dir])
  {
    assert p in t || p !in t;
  }

  lemma ParentMade(r: Request, dirs: seq<Path>, i: nat, t: Tree)
    requires Wellformed(r) && Unobstructed(r) && i < |dirs| && Paths.ShallowFirst(dirs)
    requires forall q :: q in Paths.Elements(dirs) <==> Missing(r, q)
    requires Made(r, Upto(dirs, i), t)
    ensures ParentThere(t, dirs[i])
  {
    var p, all := dirs[i], Paths.Elements(dirs);
    Paths.ListedAt(dirs, all, i);
    PublishedHasParent(r, p);
    if |p| > 1 {
      var up := Paths.Parent(p);
      if up !in r.head {
        var k := Paths.IndexOf(dirs, all, up);
        UptoHas(dirs, i, k);
      }
      assert up in t;
    }
  }

  lemma MkdirOne(r: Request, dirs: seq<Path>, i: nat, t: Tree)
    requires Wellformed(r) && Unobstructed(r) && i < |dirs|
    requires Paths.Lists(dirs, Paths.Elements(dirs)) && Paths.ShallowFirst(dirs)
    requires forall q :: q in Paths.Elements(dirs) <==> Missing(r, q)
    requires Made(r, Upto(dirs, i), t)
    ensures Do(t, Mkdir(dirs[i])) == Some(t[dirs[i] := Dir])
    ensures Made(r, Upto(dirs, i + 1), t[dirs[i] := Dir])
  {
    var all := Paths.Elements(dirs);
    Paths.ListedAt(dirs, all, i);
    UptoNext(dirs, i);
    UptoLacks(dirs, all, i);
    ParentMade(r, dirs, i, t);
    MadeGrows(r, Upto(dirs, i), t, dirs[i]);
  }

  /** The actions up to `|dirs|` make the directories, in order. */
  ghost predicate AreMkdirs(actions: seq<Action>, dirs: seq<Path>) {
    |dirs| <= |actions| && forall i :: 0 <= i < |dirs| ==> actions[i] == Mkdir(dirs[i])
  }

  lemma {:induction false} MkdirsExecute(r: Request, actions: seq<Action>, dirs: seq<Path>, i: nat) returns (t: Tree)
    requires Wellformed(r) && Unobstructed(r) && AreMkdirs(actions, dirs) && i <= |dirs|
    requires Paths.Lists(dirs, Paths.Elements(dirs)) && Paths.ShallowFirst(dirs)
    requires forall q :: q in Paths.Elements(dirs) <==> Missing(r, q)
    ensures ExecuteTo(r.head, actions, i) == Some(t) && Made(r, Upto(dirs, i), t)
  {
    if i == 0 {
      t := r.head;
    } else {
      var u := MkdirsExecute(r, actions, dirs, i - 1);
      MkdirOne(r, dirs, i - 1, u);
      t := u[dirs[i - 1] := Dir];
    }
  }

  /** The repository after all directories and the files `put`. */
  ghost predicate Published(r: Request, put: set<Path>, t: Tree)
    requires Wellformed(r)
  {
    && put <= ToPublish(r)
    && forall p {:trigger p in t} ::
         && (p in t <==> p in r.head || Missing(r, p) || p in put)
         && (p in t ==> t[p] == if p in put then File(r.reread[p]) else if p in r.head then r.head[p] else Dir)
  }

  lemma PutOne(r: Request, put: set<Path>, t: Tree, p: Path)
    requires Wellformed(r) && Unobstructed(r) && Published(r, put, t) && p in ToPublish(r)
    ensures Do(t, Put(p, r.reread[p])) == Some(t[p := File(r.reread[p])])
    ensures Published(r, put + {p}, t[p := File(r.reread[p])])
  {
    PublishedHasParent(r, p);
    if |p| > 1 {
      ParentIsBelow(p);
      AncestorsAreDirs(r, p, Paths.Parent(p));
      assert Paths.Parent(p) in t;
    }
    if Missing(r, p) {
      var f :| f in ToPublish(r) && Below(p, f);
      AncestorsAreDirs(r, f, p);
    }
  }

  /** The actions from `d` on put the paths, in order. */
  ghost predicate ArePuts(r: Request, actions: seq<Action>, d: nat, ps: seq<Path>)
    requires Wellformed(r)
  {
    && |actions| == d + |ps|
    && forall i :: 0 <= i < |ps| ==> ps[i] in ToPublish(r) && actions[d + i] == Put(ps[i], r.reread[ps[i]])
  }

  lemma PlanPuts(r: Request, plan: Plan)
    requires Wellformed(r) && plan.Plan? && IsPlanFor(r, plan)
    ensures ArePuts(r, Actions(plan.dirs, plan.changes), |plan.dirs|, PathsOf(plan.changes))
  {
    var ps := PathsOf(plan.changes);
    forall i | 0 <= i < |ps|
      ensures ps[i] in ToPublish(r)
    {
      Paths.ListedAt(ps, ToPublish(r), i);
    }
  }

  lemma MkdirsDone(r: Request, plan: Plan) returns (t: Tree)
    requires Wellformed(r) && plan.Plan? && IsPlanFor(r, plan)
    ensures ExecuteTo(r.head, Actions(plan.dirs, plan.changes), |plan.dirs|) == Some(t) && Published(r, {}, t)
  {
    t := MkdirsExecute(r, Actions(plan.dirs, plan.changes), plan.dirs, |plan.dirs|);
    assert plan.dirs[..|plan.dirs|] == plan.dirs;
  }

  lemma {:induction false} PutsExecute(r: Request, actions: seq<Action>, d: nat, ps: seq<Path>, t0: Tree, i: nat)
    returns (t: Tree)
    requires Wellformed(r) && Unobstructed(r) && ArePuts(r, actions, d, ps) && i <= |ps|
    requires ExecuteTo(r.head, actions, d) == Some(t0) && Published(r, {}, t0)
    ensures ExecuteTo(r.head, actions, d + i) == Some(t) && Published(r, Upto(ps, i), t)
  {
    t := t0;
    assert Upto(ps, 0) == {};
    if i > 0 {
      var u := PutsExecute(r, actions, d, ps, t0, i - 1);
      t := PutNext(r, actions, d, ps, u, i - 1);
      assert d + i == d + (i - 1) + 1;
    }
  }

  lemma PutNext(r: Request, actions: seq<Action>, d: nat, ps: seq<Path>, u: Tree, i: nat) returns (t: Tree)
    requires Wellformed(r) && Unobstructed(r) && ArePuts(r, actions, d, ps) && i < |ps|
    requires ExecuteTo(r.head, actions, d + i) == Some(u) && Published(r, Upto(ps, i), u)
    ensures ExecuteTo(r.head, actions, d + i + 1) == Some(t) && Published(r, Upto(ps, i + 1), t)
  {
    t := u[ps[i] := File(r.reread[ps[i]])];
    UptoNext(ps, i);
    PutOne(r, Upto(ps, i), u, ps[i]);
  }

  /** The action list of every plan executes: each directory is made where nothing is and its
      parent is there, each file is put under an existing directory, and the outcome is the
      old tree plus exactly the missing ancestors and the published bytes. */
  lemma PlanExecutes(r: Request, plan: Plan)
    requires Wellformed(r) && plan.Plan? && IsPlanFor(r, plan)
    ensures var t := Execute(r.head, Actions(plan.dirs, plan.changes));
            t.Some? && IsResult(r, t.value)
  {
    var ps := PathsOf(plan.changes);
    PlanPuts(r, plan);
    var made := MkdirsDone(r, plan);
    var t := PutsExecute(r, Actions(plan.dirs, plan.changes), |plan.dirs|, ps, made, |ps|);
    assert ps[..|ps|] == ps;
  }

  /** Said of the lists themselves: nothing is where a directory is to be made, its parent is there or
      made before it, and every file is put below a directory that is there or made. */
  lemma PlanIsInOrder(r: Request, plan: Plan)
    requires Wellformed(r) && plan.Plan? && IsPlanFor(r, plan)
    ensures forall i :: 0 <= i < |plan.dirs| ==>
              && plan.dirs[i] !in r.head
              && (|plan.dirs[i]| > 1 ==> IsDirAfter(r.head, plan.dirs[..i], Paths.Parent(plan.dirs[i])))
    ensures forall i :: 0 <= i < |plan.changes| ==>
              && plan.changes[i].path !in plan.dirs
              && (|plan.changes[i].path| > 1 ==> IsDirAfter(r.head, plan.dirs, Paths.Parent(plan.changes[i].path)))
  {
    forall i | 0 <= i < |plan.dirs|
      ensures plan.dirs[i] !in r.head
      ensures |plan.dirs[i]| > 1 ==> IsDirAfter(r.head, plan.dirs[..i], Paths.Parent(plan.dirs[i]))
    {
      Paths.ListedAt(plan.dirs, Paths.Elements(plan.dirs), i);
      PublishedHasParent(r, plan.dirs[i]);
      if |plan.dirs[i]| > 1 && Paths.Parent(plan.dirs[i]) !in r.head {
        var k := Paths.IndexOf(plan.dirs, Paths.Elements(plan.dirs), Paths.Parent(plan.dirs[i]));
        assert plan.dirs[..i][k] == Paths.Parent(plan.dirs[i]);
      }
    }
    forall i | 0 <= i < |plan.changes|
      ensures plan.changes[i].path !in plan.dirs
      ensures |plan.changes[i].path| > 1 ==> IsDirAfter(r.head, plan.dirs, Paths.Parent(plan.changes[i].path))
    {
      PutIsInOrder(r, plan, i);
    }
  }

  /** A directory of the repository, or one of those listed. */
  ghost predicate IsDirAfter(head: Tree, dirs: seq<Path>, p: Path) {
    if p in head then head[p] == Dir else p in dirs
  }

  lemma PutIsInOrder(r: Request, plan: Plan, i: nat)
    requires Wellformed(r) && plan.Plan? && IsPlanFor(r, plan) && i < |plan.changes|
    ensures var p := plan.changes[i].path;
            p !in plan.dirs && (|p| > 1 ==> IsDirAfter(r.head, plan.dirs, Paths.Parent(p)))
  {
    var p := plan.changes[i].path;
    Paths.ListedAt(PathsOf(plan.changes), ToPublish(r), i);
    PublishedHasParent(r, p);
    if |p| > 1 {
      Paths.ElementsAre(plan.dirs, Paths.Parent(p));
    }
    Paths.ElementsAre(plan.dirs, p);
    if Missing(r, p) {
      var f :| f in ToPublish(r) && Below(p, f);
      AncestorsAreDirs(r, f, p);
    }
  }

  // ----- Publishing again changes nothing ------------------------------------------------------

  /** The staging reads find what the comparison found. */
  ghost predicate Stable(r: Request) {
    forall p :: IsFile(r.local, p) && p in r.reread ==> File(r.reread[p]) == r.local[p]
  }

  lemma {:induction false} DeletedBelow(p: Path, q: Path, deleted: set<Path>, head: Tree)
    requires WasDeleted(q, deleted, head) && (q == p || Below(q, p))
    ensures WasDeleted(p, deleted, head)
  {
    if q != p {
      var up := Paths.Parent(p);
      if q != up {
        assert Below(q, up);
      }
      DeletedBelow(up, q, deleted, head);
    }
  }

  /** A path under a deleted, absent ancestor never causes that ancestor to be recreated. */
  lemma DeletedStaysAbsent(r: Request, t: Tree, a: Path)
    requires Wellformed(r) && !r.restore && IsResult(r, t) && a !in r.head
    requires exists q :: |q| > 0 && (q == a || Below(q, a)) && q in r.deleted && q !in r.head
    ensures a !in t
  {
    WasDeletedMeans(a, r.deleted, r.head);
    if Missing(r, a) {
      var f :| f in ToPublish(r) && Below(a, f);
      DeletedBelow(f, a, r.deleted, r.head);
      if f in r.head {
        AncestorIsDir(r.head, a, f);
      }
    }
  }

  lemma {:induction false} DeletionUnchanged(r: Request, t: Tree, p: Path)
    requires Wellformed(r) && !r.restore && IsResult(r, t)
    ensures WasDeleted(p, r.deleted, t) == WasDeleted(p, r.deleted, r.head)
  {
    if |p| > 0 {
      DeletionUnchanged(r, t, Paths.Parent(p));
      if p in r.deleted && p !in r.head {
        DeletedStaysAbsent(r, t, p);
      }
    }
  }

  lemma SkippingUnchanged(r: Request, t: Tree, p: Path)
    requires Wellformed(r) && IsResult(r, t) && IsFile(r.local, p)
    ensures Skipped(r.(head := t), p) == Skipped(r, p)
  {
    if !r.restore {
      DeletionUnchanged(r, t, p);
      if p !in r.head && WasDeleted(p, r.deleted, r.head) {
        WasDeletedMeans(p, r.deleted, r.head);
        DeletedStaysAbsent(r, t, p);
      }
    }
    assert p in t || p !in t;
  }

  lemma ResultIsClosed(r: Request, t: Tree)
    requires Wellformed(r) && Unobstructed(r) && IsResult(r, t)
    ensures Closed(t)
  {
    forall p | p in t
      ensures |p| > 0 && (|p| > 1 ==> Paths.Parent(p) in t && t[Paths.Parent(p)] == Dir)
    {
      if p in ToPublish(r) || Missing(r, p) {
        PublishedHasParent(r, p);
        if |p| > 1 {
          ParentIsNotPublished(r, p);
          assert Paths.Parent(p) in t;
        }
      } else if |p| > 1 {
        assert Paths.Parent(p) in t;
        KnownParentStays(r, p);
      }
    }
  }

  lemma ParentIsNotPublished(r: Request, p: Path)
    requires Wellformed(r) && Unobstructed(r) && |p| > 1 && (p in ToPublish(r) || Missing(r, p))
    ensures Paths.Parent(p) !in ToPublish(r)
  {
    ParentIsBelow(p);
    if p in ToPublish(r) {
      AncestorsAreDirs(r, p, Paths.Parent(p));
    } else {
      var f :| f in ToPublish(r) && Below(p, f);
      BelowParent(p, f);
      AncestorsAreDirs(r, f, Paths.Parent(p));
    }
  }

  lemma KnownParentStays(r: Request, p: Path)
    requires Wellformed(r) && Unobstructed(r) && p in r.head && |p| > 1
    ensures Paths.Parent(p) in r.head && r.head[Paths.Parent(p)] == Dir && Paths.Parent(p) !in ToPublish(r)
  {
    var up := Paths.Parent(p);
    if up in ToPublish(r) {
      assert Blocked(r, up);
    }
  }

  lemma NothingLeftToDo(r: Request, t: Tree, p: Path)
    requires Wellformed(r) && Unobstructed(r) && Stable(r) && IsResult(r, t) && IsFile(r.local, p)
    ensures !Blocked(r.(head := t), p) && !Changed(r.(head := t), p)
  {
    SkippingUnchanged(r, t, p);
    if Missing(r, p) {
      var f :| f in ToPublish(r) && Below(p, f);
      AncestorsAreDirs(r, f, p);
    }
    assert p in t <==> p in r.head || p in ToPublish(r);
  }

  /** Publishing is idempotent: planning against the result of a publication, with the same
      deletion history, finds nothing in the way, nothing to do and the same files skipped. */
  lemma PublishingIsIdempotent(r: Request, t: Tree, again: Plan)
    requires Wellformed(r) && Unobstructed(r) && Stable(r) && IsResult(r, t)
    requires Wellformed(r.(head := t)) ==> IsPlanFor(r.(head := t), again)
    ensures again.Plan? && again.changes == [] && again.dirs == [] && again.skipped == |ToSkip(r)|
    ensures ToSkip(r.(head := t)) == ToSkip(r)
  {
    var r' := r.(head := t);
    ResultIsClosed(r, t);
    forall p | IsFile(r.local, p)
      ensures !Blocked(r', p) && !Changed(r', p) && Skipped(r', p) == Skipped(r, p)
    {
      NothingLeftToDo(r, t, p);
      SkippingUnchanged(r, t, p);
    }
    assert ToPublish(r') == {} && ToSkip(r') == ToSkip(r);
    assert again.Plan?;
    assert PathsOf(again.changes) == [];
    assert Paths.Elements(again.dirs) == {};
  }

  // ----- A lost reply --------------------------------------------------------------------------

  ghost predicate AllThere(head: Tree, changes: seq<Change>) {
    forall i :: 0 <= i < |changes| ==> changes[i].path in head && head[changes[i].path] == File(changes[i].bytes)
  }

  /** `nwcChangesAtHead`: every change is in the repository with its bytes. */
  method ChangesAtHead(head: Tree, changes: seq<Change>) returns (ok: bool)
    ensures ok <==> AllThere(head, changes)
  {
    for i := 0 to |changes|
      invariant forall k :: 0 <= k < i ==> changes[k].path in head && head[changes[k].path] == File(changes[k].bytes)
    {
      var c := changes[i];
      if c.path !in head || head[c.path] != File(c.bytes) {
        return false;
      }
    }
    ok := true;
  }

  /** Once the commit took effect the confirmation succeeds, whatever the reply was. */
  lemma EffectIsConfirmed(r: Request, plan: Plan, now: Tree)
    requires Wellformed(r) && plan.Plan? && IsPlanFor(r, plan) && IsResult(r, now)
    ensures AllThere(now, plan.changes)
  {
    forall i | 0 <= i < |plan.changes|
      ensures plan.changes[i].path in now && now[plan.changes[i].path] == File(plan.changes[i].bytes)
    {
      var p := plan.changes[i].path;
      Paths.ListedAt(PathsOf(plan.changes), ToPublish(r), i);
      assert p in now <==> p in r.head || Missing(r, p) || p in ToPublish(r);
    }
  }

  /** Whenever the confirmation succeeds, no planned file is left to publish. */
  lemma ConfirmedIsPublished(r: Request, plan: Plan, now: Tree, p: Path)
    requires Wellformed(r) && plan.Plan? && IsPlanFor(r, plan) && Closed(now) && AllThere(now, plan.changes) &&
        p in ToPublish(r)
    ensures p !in ToPublish(r.(head := now))
  {
    var k := Paths.IndexOf(PathsOf(plan.changes), ToPublish(r), p);
    assert plan.changes[k].path == p && plan.changes[k].bytes == r.reread[p];
  }
}
