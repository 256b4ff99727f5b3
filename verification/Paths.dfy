/** Trees as maps from paths to nodes, and orders on paths.  The source sorts by depth first
    (`strings.Count(p, "/")`) and breaks ties by spelling; nothing proved here depends on how ties
    are broken. */
module Paths {
  import opened Basics

  ghost function Elements<T(!new)>(list: seq<seq<T>>): set<seq<T>> {
    if list == [] then {} else Elements(list[..|list| - 1]) + {list[|list| - 1]}
  }

  /** `list` holds exactly the paths of `s`, each once. */
  ghost predicate Lists<T(!new)>(list: seq<seq<T>>, s: set<seq<T>>) {
    && Elements(list) == s
    && (forall i, k :: 0 <= i < k < |list| ==> list[i] != list[k])
  }

  lemma {:induction false} ListedAt<T(!new)>(list: seq<seq<T>>, s: set<seq<T>>, k: nat)
    requires Elements(list) == s && k < |list|
    ensures list[k] in s
  {
    var n := |list| - 1;
    if k < n {
      ListedAt(list[..n], Elements(list[..n]), k);
    }
  }

  lemma {:induction false} IndexOf<T(!new)>(list: seq<seq<T>>, s: set<seq<T>>, p: seq<T>) returns (k: nat)
    requires Elements(list) == s && p in s
    ensures k < |list| && list[k] == p
  {
    var n := |list| - 1;
    if p == list[n] {
      k := n;
    } else {
      k := IndexOf(list[..n], Elements(list[..n]), p);
    }
  }

  ghost predicate ShallowFirst<T(!new)>(list: seq<seq<T>>) {
    forall i, k :: 0 <= i < k < |list| ==> |list[i]| <= |list[k]|
  }

  ghost predicate DeepFirst<T(!new)>(list: seq<seq<T>>) {
    forall i, k :: 0 <= i < k < |list| ==> |list[k]| <= |list[i]|
  }

  ghost predicate Shallowest<T(!new)>(p: seq<T>, s: set<seq<T>>) {
    p in s && forall q :: q in s ==> |p| <= |q|
  }

  lemma {:induction false} ShallowestExists<T(!new)>(s: set<seq<T>>) returns (p: seq<T>)
    requires s != {}
    ensures Shallowest(p, s)
  {
    p :| p in s;
    if s != {p} {
      var m := ShallowestExists(s - {p});
      if |m| < |p| {
        p := m;
      }
    }
  }

  lemma {:induction false} ElementsAre<T(!new)>(list: seq<seq<T>>, p: seq<T>)
    ensures p in Elements(list) <==> p in list
  {
    if list != [] {
      var n := |list| - 1;
      ElementsAre(list[..n], p);
      assert list == list[..n] + [list[n]];
    }
  }

  lemma ListsExactly<T(!new)>(list: seq<seq<T>>, s: set<seq<T>>)
    requires forall p :: p in s <==> p in list
    requires forall i, k :: 0 <= i < k < |list| ==> list[i] != list[k]
    ensures Lists(list, s)
  {
    forall p
      ensures p in Elements(list) <==> p in s
    {
      ElementsAre(list, p);
    }
  }

  method ListShallowFirst<T(==,!new)>(s: set<seq<T>>) returns (list: seq<seq<T>>)
    ensures Lists(list, s) && ShallowFirst(list)
  {
    var rest := s;
    list := [];
    while rest != {}
      invariant rest <= s && forall p :: p in s - rest <==> p in list
      invariant forall i, k :: 0 <= i < k < |list| ==> list[i] != list[k]
      invariant ShallowFirst(list) && forall p, q :: p in list && q in rest ==> |p| <= |q|
      decreases rest
    {
      ghost var least := ShallowestExists(rest);
      var p :| p in rest && forall q :: q in rest ==> |p| <= |q|;
      rest := rest - {p};
      list := list + [p];
    }
    ListsExactly(list, s);
  }

  method ListDeepFirst<T(==,!new)>(s: set<seq<T>>) returns (list: seq<seq<T>>)
    ensures Lists(list, s) && DeepFirst(list)
  {
    var rest := s;
    list := [];
    while rest != {}
      invariant rest <= s && forall p :: p in s - rest <==> p in list
      invariant forall i, k :: 0 <= i < k < |list| ==> list[i] != list[k]
      invariant DeepFirst(list) && forall p, q :: p in list && q in rest ==> |p| <= |q|
      decreases rest
    {
      ghost var least := ShallowestExists(rest);
      var p :| p in rest && forall q :: q in rest ==> |p| <= |q|;
      rest := rest - {p};
      list := [p] + list;
    }
    ListsExactly(list, s);
  }

  // ----- Trees, where `dir` is the node of a directory -------------------------------------

  function Parent<T>(p: seq<T>): seq<T>
    requires |p| > 0
  {
    p[..|p| - 1]
  }

  /** Every entry's parent is itself an entry, and a directory. */
  predicate Closed<T(==), N(==)>(tree: map<seq<T>, N>, dir: N) {
    && (forall p {:trigger p in tree} :: p in tree ==> |p| > 0)
    && (forall p {:trigger Parent(p)} :: p in tree && |p| > 1 ==> Parent(p) in tree && tree[Parent(p)] == dir)
  }

  /** `p` and all its ancestors are directories. */
  ghost predicate DirsTo<T, N>(tree: map<seq<T>, N>, dir: N, p: seq<T>) {
    |p| > 0 ==> p in tree && tree[p] == dir && DirsTo(tree, dir, Parent(p))
  }

  lemma {:induction false} ClosedDirs<T, N>(tree: map<seq<T>, N>, dir: N, p: seq<T>)
    requires Closed(tree, dir) && p in tree
    ensures DirsTo(tree, dir, Parent(p))
  {
    if |p| > 1 {
      ClosedDirs(tree, dir, Parent(p));
    }
  }

  /** `os.MkdirAll`: every missing ancestor is made, a non-directory in the way refuses. */
  function MkdirAll<T(==), N(==)>(tree: map<seq<T>, N>, dir: N, p: seq<T>): Option<map<seq<T>, N>> {
    if |p| == 0 then
      Some(tree)
    else
      match MkdirAll(tree, dir, Parent(p))
      case None => None
      case Some(t) =>
        if p !in t then Some(t[p := dir])
        else if t[p] == dir then Some(t)
        else None
  }

  /** It succeeds exactly when nothing but directories is at the path and above it, and then adds
      exactly those of them that were missing. */
  lemma {:induction false} MkdirAllMeans<T, N>(tree: map<seq<T>, N>, dir: N, p: seq<T>)
    ensures var made := MkdirAll(tree, dir, p);
            && (made.Some? <==> forall k {:trigger p[..k]} :: 0 < k <= |p| && p[..k] in tree ==> tree[p[..k]] == dir)
            && (made.Some? ==> forall q {:trigger q in made.value} ::
                  && (q in made.value <==> q in tree || (q != [] && q <= p))
                  && (q in made.value ==> made.value[q] == if q in tree then tree[q] else dir))
  {
    if |p| > 0 {
      var up := Parent(p);
      MkdirAllMeans(tree, dir, up);
      assert p[..|p|] == p;
      assert forall k {:trigger p[..k]} :: 0 < k < |p| ==> p[..k] == up[..k];
      var before := MkdirAll(tree, dir, up);
      if before.Some? {
        assert p in before.value <==> p in tree;
        assert forall q {:trigger q in before.value} :: q <= p <==> q <= up || q == p;
      } else {
        var k :| 0 < k <= |up| && up[..k] in tree && tree[up[..k]] != dir;
        assert p[..k] == up[..k];
      }
    }
  }

  lemma {:induction false} MkdirAllOfExisting<T, N>(tree: map<seq<T>, N>, dir: N, p: seq<T>)
    requires DirsTo(tree, dir, p)
    ensures MkdirAll(tree, dir, p) == Some(tree)
  {
    if |p| > 0 {
      MkdirAllOfExisting(tree, dir, Parent(p));
    }
  }
}
