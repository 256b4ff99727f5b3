/** The first half of planning a folder download or release: the files of a subtree are taken from a
    repository manifest (cmd/filees/explorer_anchor_batch.go). */
module AnchorScan {
  import opened Basics
  import opened AnchorPaths

  const MAX_NODES := 20000
  const MAX_PATH_BYTES := 8 * 1024 * 1024

  type Int64 = x: int | -0x8000_0000_0000_0000 <= x <= MAX_INT64
  const MAX_INT64 := 0x7FFF_FFFF_FFFF_FFFF

  datatype Kind = FileNode | DirNode | OtherNode
  datatype Node = Node(path: string, kind: Kind, size: Int64)
  datatype Action = Download | Release | Unknown

  /** What to plan: the manifest, the selected subtree ("." for all of it), the binding of the local
      root, and the paths of an earlier plan when it is to be planned again. */
  datatype Request = Request(
    manifest: seq<Node>, selection: string, action: Action, binding: string, snapshot: Option<seq<string>>)

  // ----- The nodes of the selection ----------------------------------------------------------------

  predicate InScope(r: Request, n: Node) {
    r.selection == "." || n.path == r.selection || r.selection + "/" <= n.path
  }

  /** Comparing strings selects the subtree: the selected path itself and everything below it. */
  lemma ScopeIsSubtree(r: Request, n: Node)
    ensures InScope(r, n) <==> r.selection == "." || Split(n.path) == Split(r.selection) || Under(r.selection, n.path)
  {
    PrefixMeansUnder(r.selection, n.path);
    JoinSplit(n.path);
    JoinSplit(r.selection);
  }

  predicate IsListed(r: Request, n: Node) {
    InScope(r, n) && n.kind == FileNode && (r.snapshot.Some? ==> n.path in r.snapshot.value)
  }

  ghost function ScopeTo(r: Request, i: nat): seq<Node>
    requires i <= |r.manifest|
  {
    if i == 0 then []
    else ScopeTo(r, i - 1) + if InScope(r, r.manifest[i - 1]) then [r.manifest[i - 1]] else []
  }

  ghost function ListedTo(r: Request, i: nat): seq<Node>
    requires i <= |r.manifest|
  {
    if i == 0 then []
    else ListedTo(r, i - 1) + if IsListed(r, r.manifest[i - 1]) then [r.manifest[i - 1]] else []
  }

  ghost function PathBytes(nodes: seq<Node>): nat {
    if nodes == [] then 0 else PathBytes(nodes[..|nodes| - 1]) + ByteLength(nodes[|nodes| - 1].path)
  }

  /** The nodes of the selection are safe, of different names when case is folded, few and short
      enough, and the listed files have a size. */
  ghost predicate ScopeIsFine(r: Request, fold: string -> string, i: nat)
    requires i <= |r.manifest|
  {
    && (forall k :: 0 <= k < i && InScope(r, r.manifest[k]) ==> SafePath(r.manifest[k].path))
    && (forall k, m :: 0 <= k < m < i && InScope(r, r.manifest[k]) && InScope(r, r.manifest[m]) ==>
          fold(r.manifest[k].path) != fold(r.manifest[m].path))
    && |ScopeTo(r, i)| <= MAX_NODES && PathBytes(ScopeTo(r, i)) <= MAX_PATH_BYTES
    && (forall k :: 0 <= k < i && IsListed(r, r.manifest[k]) ==> r.manifest[k].size >= 0)
  }

  ghost predicate Finds(r: Request, i: nat)
    requires i <= |r.manifest|
  {
    r.selection == "." || exists k :: 0 <= k < i && r.manifest[k].path == r.selection
  }

  ghost predicate FindsDirectory(r: Request, i: nat)
    requires i <= |r.manifest|
  {
    r.selection == "." || exists k :: 0 <= k < i && r.manifest[k].path == r.selection && r.manifest[k].kind == DirNode
  }

  datatype Scan = Scan(paths: seq<string>, sizes: map<string, Int64>, found: bool, directory: bool, nodes: seq<Node>)

  /** The scan holds the listed files of the first `i` nodes, in order. */
  ghost predicate ListIs(r: Request, paths: seq<string>, sizes: map<string, Int64>, i: nat)
    requires i <= |r.manifest|
  {
    && |paths| == |ListedTo(r, i)|
    && forall k :: 0 <= k < |paths| ==>
         paths[k] == ListedTo(r, i)[k].path && paths[k] in sizes && sizes[paths[k]] == ListedTo(r, i)[k].size
  }

  ghost predicate ScanIs(r: Request, scan: Scan, i: nat)
    requires i <= |r.manifest|
  {
    && ListIs(r, scan.paths, scan.sizes, i)
    && scan.found == Finds(r, i) && scan.directory == FindsDirectory(r, i) && scan.nodes == ScopeTo(r, i)
  }

  lemma {:induction false} ListedFrom(r: Request, i: nat, k: nat) returns (m: nat)
    requires i <= |r.manifest| && k < |ListedTo(r, i)|
    ensures m < i && r.manifest[m] == ListedTo(r, i)[k] && IsListed(r, r.manifest[m])
  {
    if k < |ListedTo(r, i - 1)| {
      m := ListedFrom(r, i - 1, k);
    } else {
      m := i - 1;
    }
  }

  lemma {:induction false} ScopeGrows(r: Request, i: nat, n: nat)
    requires i <= n <= |r.manifest|
    ensures |ScopeTo(r, i)| <= |ScopeTo(r, n)| && PathBytes(ScopeTo(r, i)) <= PathBytes(ScopeTo(r, n))
  {
    if i < n {
      ScopeGrows(r, i, n - 1);
      ScopeNext(r, n - 1);
    }
  }

  lemma ScopeNext(r: Request, i: nat)
    requires i < |r.manifest|
    ensures PathBytes(ScopeTo(r, i + 1)) ==
              PathBytes(ScopeTo(r, i)) + if InScope(r, r.manifest[i]) then ByteLength(r.manifest[i].path) else 0
  {
    var before, n := ScopeTo(r, i), r.manifest[i];
    if InScope(r, n) {
      assert (before + [n])[..|before|] == before;
    } else {
      assert before + [] == before;
    }
  }

  /** A scope that is not fine stays so when more nodes come. */
  lemma FineBefore(r: Request, fold: string -> string, i: nat, n: nat)
    requires i <= n <= |r.manifest| && ScopeIsFine(r, fold, n)
    ensures ScopeIsFine(r, fold, i)
  {
    ScopeGrows(r, i, n);
  }

  ghost predicate ListedApart(r: Request, fold: string -> string, i: nat)
    requires i <= |r.manifest|
  {
    forall k, m :: 0 <= k < m < |ListedTo(r, i)| ==> fold(ListedTo(r, i)[k].path) != fold(ListedTo(r, i)[m].path)
  }

  lemma {:induction false} ListedAreApart(r: Request, fold: string -> string, i: nat)
    requires i <= |r.manifest| && ScopeIsFine(r, fold, i)
    ensures ListedApart(r, fold, i)
  {
    if i > 0 {
      FineBefore(r, fold, i - 1, i);
      ListedAreApart(r, fold, i - 1);
      var before := ListedTo(r, i - 1);
      if IsListed(r, r.manifest[i - 1]) {
        forall k | 0 <= k < |before|
          ensures fold(before[k].path) != fold(r.manifest[i - 1].path)
        {
          var m := ListedFrom(r, i - 1, k);
        }
      }
    }
  }

  lemma ListGrows(r: Request, fold: string -> string, paths: seq<string>, sizes: map<string, Int64>, i: nat)
    requires i < |r.manifest| && ScopeIsFine(r, fold, i + 1) && ListIs(r, paths, sizes, i)
    ensures var n := r.manifest[i];
            if IsListed(r, n) then ListIs(r, paths + [n.path], sizes[n.path := n.size], i + 1)
            else ListIs(r, paths, sizes, i + 1)
  {
    ListedAreApart(r, fold, i + 1);
    var n := r.manifest[i];
    if IsListed(r, n) {
      forall k | 0 <= k < |paths|
        ensures paths[k] != n.path
      {
        assert ListedTo(r, i + 1)[k] == ListedTo(r, i)[k] && ListedTo(r, i + 1)[|paths|] == n;
      }
    }
  }

  /** What the pass over the manifest asks of the next node. */
  ghost predicate NodeFits(r: Request, fold: string -> string, i: nat)
    requires i < |r.manifest|
  {
    var n := r.manifest[i];
    InScope(r, n) ==>
      && SafePath(n.path)
      && (forall k :: 0 <= k < i && InScope(r, r.manifest[k]) ==> fold(r.manifest[k].path) != fold(n.path))
      && |ScopeTo(r, i)| + 1 <= MAX_NODES
      && PathBytes(ScopeTo(r, i)) + ByteLength(n.path) <= MAX_PATH_BYTES
      && (IsListed(r, n) ==> n.size >= 0)
  }

  lemma FineNext(r: Request, fold: string -> string, i: nat)
    requires i < |r.manifest| && ScopeIsFine(r, fold, i)
    ensures ScopeIsFine(r, fold, i + 1) <==> NodeFits(r, fold, i)
  {
    ScopeNext(r, i);
  }

  lemma DotIsUnsafe()
    ensures !SafePath(".")
  {
    assert Split(".")[0] == ".";
  }

  lemma FoundNext(r: Request, fold: string -> string, i: nat)
    requires i < |r.manifest| && ScopeIsFine(r, fold, i + 1)
    ensures var n := r.manifest[i];
            if n.path == r.selection then Finds(r, i + 1) && (FindsDirectory(r, i + 1) <==> n.kind == DirNode)
            else (Finds(r, i + 1) <==> Finds(r, i)) && (FindsDirectory(r, i + 1) <==> FindsDirectory(r, i))
  {
    var n := r.manifest[i];
    DotIsUnsafe();
    if n.path == r.selection {
      assert InScope(r, n) && SafePath(n.path);
    }
  }

  function AddNode(r: Request, s: Scan, n: Node): Scan {
    if !InScope(r, n) then s
    else
      Scan(if IsListed(r, n) then s.paths + [n.path] else s.paths,
           if IsListed(r, n) then s.sizes[n.path := n.size] else s.sizes,
           s.found || n.path == r.selection,
           if n.path == r.selection then n.kind == DirNode else s.directory,
           s.nodes + [n])
  }

  /** The names seen so far, with case folded. */
  ghost predicate SeenIs(r: Request, fold: string -> string, seen: set<string>, i: nat)
    requires i <= |r.manifest|
  {
    && (forall p :: p in seen <==> exists k :: 0 <= k < i && InScope(r, r.manifest[k]) && fold(r.manifest[k].path) == p)
    && |seen| == |ScopeTo(r, i)|
  }

  method Admits(r: Request, fold: string -> string, seen: set<string>, pathBytes: nat, i: nat) returns (ok: bool)
    requires i < |r.manifest| && SeenIs(r, fold, seen, i) && pathBytes == PathBytes(ScopeTo(r, i)) &&
        InScope(r, r.manifest[i])
    ensures ok <==> NodeFits(r, fold, i)
    ensures ok ==> fold(r.manifest[i].path) !in seen
  {
    var n := r.manifest[i];
    ok := SafePath(n.path) && fold(n.path) !in seen && |seen| + 1 <= MAX_NODES &&
      pathBytes + ByteLength(n.path) <= MAX_PATH_BYTES &&
          (IsListed(r, n) ==> n.size >= 0);
  }

  lemma SeenNext(r: Request, fold: string -> string, seen: set<string>, i: nat)
    requires i < |r.manifest| && SeenIs(r, fold, seen, i)
    ensures !InScope(r, r.manifest[i]) ==> SeenIs(r, fold, seen, i + 1)
    ensures InScope(r, r.manifest[i]) && fold(r.manifest[i].path) !in seen ==>
              SeenIs(r, fold, seen + {fold(r.manifest[i].path)}, i + 1)
  {
    var n := r.manifest[i];
    if InScope(r, n) {
      var more := seen + {fold(n.path)};
      forall p | p in more
        ensures exists k :: 0 <= k < i + 1 && InScope(r, r.manifest[k]) && fold(r.manifest[k].path) == p
      {
        if p !in seen {
          assert fold(r.manifest[i].path) == p;
        }
      }
    }
  }

  lemma ScanNext(r: Request, fold: string -> string, s: Scan, i: nat)
    requires i < |r.manifest| && ScopeIsFine(r, fold, i + 1) && ScanIs(r, s, i)
    ensures ScanIs(r, AddNode(r, s, r.manifest[i]), i + 1)
  {
    FoundNext(r, fold, i);
    ListGrows(r, fold, s.paths, s.sizes, i);
    if !InScope(r, r.manifest[i]) {
      assert ScopeTo(r, i) + [] == ScopeTo(r, i);
    }
  }

  datatype Progress = Progress(scan: Scan, seen: set<string>, pathBytes: nat)

  ghost predicate Scanned(r: Request, fold: string -> string, p: Progress, i: nat)
    requires i <= |r.manifest|
  {
    ScopeIsFine(r, fold, i) && ScanIs(r, p.scan, i) && SeenIs(r, fold, p.seen, i) &&
      p.pathBytes == PathBytes(ScopeTo(r, i))
  }

  method ScanOne(r: Request, fold: string -> string, p: Progress, i: nat) returns (next: Option<Progress>)
    requires i < |r.manifest| && Scanned(r, fold, p, i)
    ensures next.Some? <==> ScopeIsFine(r, fold, i + 1)
    ensures next.Some? ==> Scanned(r, fold, next.value, i + 1)
  {
    var n := r.manifest[i];
    FineNext(r, fold, i);
    ScopeNext(r, i);
    SeenNext(r, fold, p.seen, i);
    var seen, pathBytes := p.seen, p.pathBytes;
    if InScope(r, n) {
      var ok := Admits(r, fold, seen, pathBytes, i);
      if !ok {
        return None;
      }
      seen, pathBytes := seen + {fold(n.path)}, pathBytes + ByteLength(n.path);
    }
    ScanNext(r, fold, p.scan, i);
    next := Some(Progress(AddNode(r, p.scan, n), seen, pathBytes));
  }

  /** The pass over the manifest: it succeeds exactly when the scope is fine, and then lists the
      files in order. */
  method ScanManifest(r: Request, fold: string -> string) returns (scan: Option<Scan>)
    ensures scan.Some? <==> ScopeIsFine(r, fold, |r.manifest|)
    ensures scan.Some? ==> ScanIs(r, scan.value, |r.manifest|)
  {
    var p := Progress(Scan([], map[], r.selection == ".", r.selection == ".", []), {}, 0);
    for i := 0 to |r.manifest|
      invariant Scanned(r, fold, p, i)
    {
      var next := ScanOne(r, fold, p, i);
      if next.None? {
        if ScopeIsFine(r, fold, |r.manifest|) {
          FineBefore(r, fold, i + 1, |r.manifest|);
        }
        return None;
      }
      p := next.value;
    }
    scan := Some(p.scan);
  }

  // ----- What a scan is, node by node ---------------------------------------------------------------

  /** The node at `k` is the selected one or lies below it, by components. */
  ghost predicate Selects(r: Request, k: nat)
    requires k < |r.manifest|
  {
    || r.selection == "." || Split(r.manifest[k].path) == Split(r.selection)
    || Under(r.selection, r.manifest[k].path)
  }

  /** A selected file, one of those planned before if it is planned again. */
  ghost predicate SelectsFile(r: Request, k: nat)
    requires k < |r.manifest|
  {
    && Selects(r, k) && r.manifest[k].kind == FileNode
    && (r.snapshot.Some? ==> r.manifest[k].path in r.snapshot.value)
  }

  ghost function SelectedTo(r: Request, i: nat): set<int>
    requires i <= |r.manifest|
  {
    set k | 0 <= k < i && Selects(r, k)
  }

  lemma SelectedNext(r: Request, i: nat)
    requires i < |r.manifest|
    ensures SelectedTo(r, i + 1) == if Selects(r, i) then SelectedTo(r, i) + {i} else SelectedTo(r, i)
    ensures i !in SelectedTo(r, i)
  {
  }

  lemma {:induction false} ScopeIsCounted(r: Request, i: nat)
    requires i <= |r.manifest|
    ensures |ScopeTo(r, i)| == |SelectedTo(r, i)|
  {
    if i > 0 {
      ScopeIsCounted(r, i - 1);
      ScopeIsSubtree(r, r.manifest[i - 1]);
      SelectedNext(r, i - 1);
    }
  }

  /** The conditions on the manifest, node by node. */
  lemma FineMeans(r: Request, fold: string -> string)
    ensures var n := |r.manifest|;
            ScopeIsFine(r, fold, n) <==>
              && (forall k :: 0 <= k < n && Selects(r, k) ==> SafePath(r.manifest[k].path))
              && (forall k, m :: 0 <= k < m < n && Selects(r, k) && Selects(r, m) ==>
                    fold(r.manifest[k].path) != fold(r.manifest[m].path))
              && |SelectedTo(r, n)| <= 20000 && PathBytes(ScopeTo(r, n)) <= 8388608
              && (forall k :: 0 <= k < n && SelectsFile(r, k) ==> r.manifest[k].size >= 0)
  {
    var n := |r.manifest|;
    ScopeIsCounted(r, n);
    forall k | 0 <= k < n
      ensures InScope(r, r.manifest[k]) <==> Selects(r, k)
      ensures IsListed(r, r.manifest[k]) <==> SelectsFile(r, k)
    {
      ScopeIsSubtree(r, r.manifest[k]);
    }
  }

  /** Of two listed files the one that comes first in the manifest is listed first. */
  lemma {:induction false} ListedInOrder(r: Request, i: nat, a: nat, b: nat) returns (k: nat, m: nat)
    requires i <= |r.manifest| && a < b < |ListedTo(r, i)|
    ensures k < m < i && r.manifest[k] == ListedTo(r, i)[a] && r.manifest[m] == ListedTo(r, i)[b]
  {
    if b < |ListedTo(r, i - 1)| {
      k, m := ListedInOrder(r, i - 1, a, b);
    } else {
      k := ListedFrom(r, i - 1, a);
      m := i - 1;
    }
  }

  lemma {:induction false} FileIsListed(r: Request, i: nat, k: nat) returns (a: nat)
    requires k < i <= |r.manifest| && IsListed(r, r.manifest[k])
    ensures a < |ListedTo(r, i)| && ListedTo(r, i)[a] == r.manifest[k]
  {
    if k == i - 1 {
      a := |ListedTo(r, i - 1)|;
    } else {
      a := FileIsListed(r, i - 1, k);
    }
  }

  /** The listed files are exactly the selected ones. */
  lemma ListedMeans(r: Request, n: Node)
    ensures n in ListedTo(r, |r.manifest|) <==>
              exists k :: 0 <= k < |r.manifest| && r.manifest[k] == n && SelectsFile(r, k)
  {
    var list := ListedTo(r, |r.manifest|);
    if n in list {
      var a :| 0 <= a < |list| && list[a] == n;
      var k := ListedFrom(r, |r.manifest|, a);
      ScopeIsSubtree(r, n);
      assert SelectsFile(r, k);
    }
    if k: nat :| k < |r.manifest| && r.manifest[k] == n && SelectsFile(r, k) {
      ScopeIsSubtree(r, n);
      var a := FileIsListed(r, |r.manifest|, k);
    }
  }

  /** The nodes of the selection, one by one. */
  lemma {:induction false} ScopeMeans(r: Request, i: nat, n: Node)
    requires i <= |r.manifest|
    ensures n in ScopeTo(r, i) <==> exists k :: 0 <= k < i && r.manifest[k] == n && Selects(r, k)
  {
    if i > 0 {
      ScopeMeans(r, i - 1, n);
      ScopeIsSubtree(r, r.manifest[i - 1]);
      if n == r.manifest[i - 1] && Selects(r, i - 1) {
        assert ScopeTo(r, i)[|ScopeTo(r, i - 1)|] == n;
      }
      assert forall x :: x in ScopeTo(r, i - 1) ==> x in ScopeTo(r, i);
    }
  }
}
