/** Whether the content of each listed folder is local, remote or both, from every file below it in
    the manifest (cmd/filees/explorer_anchor_availability.go). */
module FolderAvailability {
  import opened Basics
  import opened AnchorPaths
  import opened AnchorScan
  import opened AnchorPlan

  datatype Entry = Entry(name: string, dir: bool, local: bool)
  datatype Availability = Hybrid | Local | Remote

  /** A folder while it is being counted. */
  datatype Totals = Totals(found: bool, present: bool, nestedDirs: bool, local: nat, remote: nat)

  predicate IsWanted(e: Entry) {
    e.dir && SafePath(e.name) && '/' !in e.name
  }

  // ----- Where a node lies --------------------------------------------------------------------------

  function Prefix(dir: string): string {
    if dir == "" then "" else dir + "/"
  }

  /** The child of `dir` that a path lies in, and whether it lies below that child. */
  function Locate(dir: string, path: string): Option<(string, bool)> {
    if Prefix(dir) <= path then Some(Cut(path[|Prefix(dir)|..])) else None
  }

  ghost function Base(dir: string, name: string): seq<string> {
    (if dir == "" then [] else Split(dir)) + [name]
  }

  ghost predicate IsAt(dir: string, name: string, path: string) {
    Split(path) == Base(dir, name)
  }

  ghost predicate IsBelow(dir: string, name: string, path: string) {
    |Base(dir, name)| < |Split(path)| && Split(path)[..|Base(dir, name)|] == Base(dir, name)
  }

  lemma CutMeans(base: seq<string>, name: string, rest: string)
    ensures Cut(rest) == (name, false) <==> base + Split(rest) == base + [name]
    ensures Cut(rest) == (name, true) <==>
              |base| + 1 < |base + Split(rest)| && (base + Split(rest))[..|base| + 1] == base + [name]
  {
    CutIsFirstPart(rest);
    var p := base + Split(rest);
    assert p[|base|] == Split(rest)[0];
    assert p[..|base| + 1] == base + [p[|base|]];
    if p == base + [name] {
      assert |p| == |base| + 1 && p[|base|] == name;
    }
  }

  lemma BelowIsUnder(dir: string, name: string, path: string)
    ensures dir != "" && (IsAt(dir, name, path) || IsBelow(dir, name, path)) ==> Under(dir, path)
  {
    var d, p := Split(dir), Split(path);
    assert (d + [name])[..|d|] == d;
    if |p| > |d| {
      assert p[..|d| + 1][..|d|] == p[..|d|];
    }
  }

  /** Cutting strings finds the components. */
  lemma LocateMeans(dir: string, name: string, path: string)
    ensures Locate(dir, path) == Some((name, false)) <==> IsAt(dir, name, path)
    ensures Locate(dir, path) == Some((name, true)) <==> IsBelow(dir, name, path)
  {
    if dir == "" {
      assert path[0..] == path && [] + Split(path) == Split(path);
      CutMeans([], name, path);
    } else {
      PrefixMeansUnder(dir, path);
      if Prefix(dir) <= path {
        assert Split(dir) + Split(path)[|Split(dir)|..] == Split(path);
        CutMeans(Split(dir), name, path[|dir| + 1..]);
      } else {
        BelowIsUnder(dir, name, path);
      }
    }
  }

  // ----- What the answer has to be ------------------------------------------------------------------

  /** A file below one of the folders, with the folder it counts for. */
  datatype Owned = Owned(owner: string, path: string)

  ghost function OwnedBy(dir: string, names: set<string>, n: Node): Option<Owned> {
    var at := Locate(dir, n.path);
    if at.Some? && at.value.1 && at.value.0 in names && n.kind == FileNode then
      Some(Owned(at.value.0, n.path))
    else
      None
  }

  lemma OwnedByMeans(dir: string, names: set<string>, n: Node, name: string)
    requires name in names
    ensures OwnedBy(dir, names, n) == Some(Owned(name, n.path)) <==> n.kind == FileNode && IsBelow(dir, name, n.path)
    ensures OwnedBy(dir, names, n).Some? ==> OwnedBy(dir, names, n).value.path == n.path
  {
    LocateMeans(dir, name, n.path);
  }

  ghost function OwnedTo(dir: string, names: set<string>, nodes: seq<Node>, i: nat): seq<Owned>
    requires i <= |nodes|
  {
    if i == 0 then []
    else
      var before, next := OwnedTo(dir, names, nodes, i - 1), OwnedBy(dir, names, nodes[i - 1]);
      if next.Some? then before + [next.value] else before
  }

  ghost function PathsTo(owned: seq<Owned>): (paths: seq<string>)
    ensures |paths| == |owned|
  {
    seq(|owned|, i requires 0 <= i < |owned| => owned[i].path)
  }

  ghost predicate FoundTo(dir: string, name: string, nodes: seq<Node>, i: nat)
    requires i <= |nodes|
  {
    exists k :: 0 <= k < i && nodes[k].kind == DirNode && IsAt(dir, name, nodes[k].path)
  }

  ghost predicate NestedTo(dir: string, name: string, nodes: seq<Node>, i: nat)
    requires i <= |nodes|
  {
    exists k :: 0 <= k < i && nodes[k].kind == DirNode && IsBelow(dir, name, nodes[k].path)
  }

  predicate Usable(path: string, a: Answer) {
    a.ok && (a.partial ==> a.placeholder && NamesPath(a.identity, path))
  }

  ghost function CountTo(owned: seq<Owned>, answers: seq<Answer>, name: string, partial: bool, i: nat): nat
    requires i <= |owned| && i <= |answers|
  {
    if i == 0 then 0
    else
      CountTo(owned, answers, name, partial, i - 1) +
      if owned[i - 1].owner == name && answers[i - 1].partial == partial then 1 else 0
  }

  lemma {:induction false} CountMeans(owned: seq<Owned>, answers: seq<Answer>, name: string, partial: bool, i: nat)
    requires i <= |owned| && i <= |answers|
    ensures CountTo(owned, answers, name, partial, i) > 0 <==>
              exists k :: 0 <= k < i && owned[k].owner == name && answers[k].partial == partial
  {
    if i > 0 {
      CountMeans(owned, answers, name, partial, i - 1);
    }
  }

  /** What the counts say about a folder; nothing for one the manifest does not have yet, or for a
      present hierarchy of empty directories. */
  function Classify(t: Totals): Option<Availability> {
    if !t.found then None
    else if t.local > 0 && t.remote > 0 then Some(Hybrid)
    else if t.local > 0 then Some(Local)
    else if t.remote > 0 || !t.present then Some(Remote)
    else if t.nestedDirs then None
    else Some(Local)
  }

  ghost predicate OwnersAre(owned: seq<Owned>, names: set<string>, paths: seq<string>, owners: seq<string>) {
    && |owned| == |paths| == |owners|
    && forall k :: 0 <= k < |paths| ==> owned[k] == Owned(owners[k], paths[k]) && owners[k] in names
  }

  // ----- The pass over the manifest -----------------------------------------------------------------

  ghost predicate CollectedTo(dir: string, nodes: seq<Node>, before: map<string, Totals>, after: map<string, Totals>,
                              i: nat)
    requires i <= |nodes|
  {
    && after.Keys == before.Keys
    && forall f :: f in before ==>
         after[f] == before[f].(found := before[f].found || FoundTo(dir, f, nodes, i),
                                nestedDirs := before[f].nestedDirs || NestedTo(dir, f, nodes, i))
  }

  method Note(dir: string, n: Node, t: map<string, Totals>, at: Option<(string, bool)>)
    returns (next: map<string, Totals>)
    requires at == Locate(dir, n.path)
    ensures next.Keys == t.Keys
    ensures forall f :: f in t ==>
              next[f] == t[f].(found := t[f].found || (n.kind == DirNode && IsAt(dir, f, n.path)),
                               nestedDirs := t[f].nestedDirs || (n.kind == DirNode && IsBelow(dir, f, n.path)))
  {
    forall f
      ensures at == Some((f, false)) <==> IsAt(dir, f, n.path)
      ensures at == Some((f, true)) <==> IsBelow(dir, f, n.path)
    {
      LocateMeans(dir, f, n.path);
    }
    next := t;
    if at.Some? && at.value.0 in t && n.kind == DirNode {
      var child, folder := at.value.0, t[at.value.0];
      next := t[child := if at.value.1 then folder.(nestedDirs := true) else folder.(found := true)];
    }
  }

  lemma CollectNext(dir: string, nodes: seq<Node>, before: map<string, Totals>, t: map<string, Totals>,
                    next: map<string, Totals>, i: nat)
    requires i < |nodes| && CollectedTo(dir, nodes, before, t, i) && next.Keys == t.Keys
    requires forall f :: f in t ==>
               next[f] == t[f].(found := t[f].found || (nodes[i].kind == DirNode && IsAt(dir, f, nodes[i].path)),
                                nestedDirs := t[f].nestedDirs ||
                                              (nodes[i].kind == DirNode && IsBelow(dir, f, nodes[i].path)))
    ensures CollectedTo(dir, nodes, before, next, i + 1)
  {
    forall f | f in before
      ensures FoundTo(dir, f, nodes, i + 1) <==>
          FoundTo(dir, f, nodes, i) || (nodes[i].kind == DirNode && IsAt(dir, f, nodes[i].path))
      ensures NestedTo(dir, f, nodes, i + 1) <==>
          NestedTo(dir, f, nodes, i) || (nodes[i].kind == DirNode && IsBelow(dir, f, nodes[i].path))
    {
    }
  }

  method Collect(dir: string, nodes: seq<Node>, folders: map<string, Totals>)
    returns (totals: map<string, Totals>, paths: seq<string>, owners: seq<string>)
    ensures CollectedTo(dir, nodes, folders, totals, |nodes|)
    ensures var owned := OwnedTo(dir, folders.Keys, nodes, |nodes|);
            paths == PathsTo(owned) && OwnersAre(owned, folders.Keys, paths, owners)
  {
    totals, paths, owners := folders, [], [];
    for i := 0 to |nodes|
      invariant CollectedTo(dir, nodes, folders, totals, i)
      invariant paths == PathsTo(OwnedTo(dir, folders.Keys, nodes, i))
      invariant OwnersAre(OwnedTo(dir, folders.Keys, nodes, i), folders.Keys, paths, owners)
    {
      var at := Locate(dir, nodes[i].path);
      totals := CollectFolder(dir, nodes, folders, totals, at, i);
      if at.Some? && at.value.1 && at.value.0 in folders && nodes[i].kind == FileNode {
        paths, owners := paths + [nodes[i].path], owners + [at.value.0];
      }
    }
  }

  method CollectFolder(dir: string, nodes: seq<Node>, ghost folders: map<string, Totals>, t: map<string, Totals>,
                       at: Option<(string, bool)>, i: nat)
    returns (next: map<string, Totals>)
    requires i < |nodes| && CollectedTo(dir, nodes, folders, t, i) && at == Locate(dir, nodes[i].path)
    ensures CollectedTo(dir, nodes, folders, next, i + 1)
  {
    next := Note(dir, nodes[i], t, at);
    CollectNext(dir, nodes, folders, t, next, i);
  }

  // ----- The answers ------------------------------------------------------------------------------

  ghost predicate UsableTo(owned: seq<Owned>, answers: seq<Answer>, i: nat)
    requires i <= |owned| && i <= |answers|
  {
    forall k :: 0 <= k < i ==> Usable(owned[k].path, answers[k])
  }

  function Count(t: Totals, partial: bool): Totals {
    if partial then t.(remote := t.remote + 1) else t.(local := t.local + 1)
  }

  /** The folders after the first `i` answers are counted. */
  ghost function CountedTo(owned: seq<Owned>, answers: seq<Answer>, before: map<string, Totals>, i: nat)
    : map<string, Totals>
    requires i <= |owned| && i <= |answers|
  {
    if i == 0 then before
    else
      var t, owner := CountedTo(owned, answers, before, i - 1), owned[i - 1].owner;
      if owner in t then t[owner := Count(t[owner], answers[i - 1].partial)] else t
  }

  lemma {:induction false} CountedIs(owned: seq<Owned>, answers: seq<Answer>, before: map<string, Totals>, i: nat,
                                     name: string)
    requires i <= |owned| && i <= |answers|
    ensures var t := CountedTo(owned, answers, before, i);
            && (name in t <==> name in before)
            && (name in t ==>
                  t[name] == before[name].(local := before[name].local + CountTo(owned, answers, name, false, i),
                                           remote := before[name].remote + CountTo(owned, answers, name, true, i)))
  {
    if i > 0 {
      CountedIs(owned, answers, before, i - 1, name);
    }
  }

  /** The counts after some answers stay right when more arrive. */
  lemma {:induction false} CountedStays(owned: seq<Owned>, got: seq<Answer>, more: seq<Answer>,
                                        before: map<string, Totals>, i: nat)
    requires i <= |got| && |got| + |more| <= |owned|
    ensures CountedTo(owned, got + more, before, i) == CountedTo(owned, got, before, i)
    ensures UsableTo(owned, got, i) <==> UsableTo(owned, got + more, i)
  {
    assert forall k :: 0 <= k < i ==> (got + more)[k] == got[k];
    if i > 0 {
      CountedStays(owned, got, more, before, i - 1);
    }
  }

  /** All files are usable exactly when each is answered, as present, and as remote only for a
      placeholder of that very path. */
  lemma AllUsableMeans(owned: seq<Owned>, probe: Probe)
    ensures AllUsable(owned, probe) <==>
              forall k :: 0 <= k < |owned| ==>
                var a := AnswerTo(probe, PathsTo(owned), k);
                && a.Some? && a.value.ok
                && (a.value.partial ==>
                      a.value.placeholder && a.value.identity.Identity? && a.value.identity.rel == owned[k].path)
  {
    AnswersMean(probe, PathsTo(owned), 0);
  }

  /** The inner loop over the answers to one batch. */
  method CountBatch(ghost owned: seq<Owned>, ghost before: map<string, Totals>, t: map<string, Totals>,
                    ghost all: seq<Answer>,
                    paths: seq<string>, owners: seq<string>, start: nat, states: seq<Answer>)
    returns (next: Option<map<string, Totals>>)
    requires OwnersAre(owned, before.Keys, paths, owners) && start + |states| == |all| <= |paths|
    requires forall j :: start <= j < |all| ==> all[j] == states[j - start]
    requires t == CountedTo(owned, all, before, start) && t.Keys == before.Keys && UsableTo(owned, all, start)
    ensures next.Some? <==> UsableTo(owned, all, |all|)
    ensures next.Some? ==> next.value == CountedTo(owned, all, before, |all|) && next.value.Keys == before.Keys
  {
    var cur := t;
    for j := start to start + |states|
      invariant cur == CountedTo(owned, all, before, j) && cur.Keys == before.Keys && UsableTo(owned, all, j)
    {
      var owner, state := owners[j], states[j - start];
      if !Usable(paths[j], state) {
        return None;
      }
      cur := cur[owner := Count(cur[owner], state.partial)];
    }
    next := Some(cur);
  }

  ghost predicate AllUsable(owned: seq<Owned>, probe: Probe) {
    var answers := AnswersFrom(probe, PathsTo(owned), 0);
    answers.Some? && UsableTo(owned, answers.value, |owned|)
  }

  ghost predicate Progressed(owned: seq<Owned>, probe: Probe, before: map<string, Totals>, t: map<string, Totals>,
                             got: seq<Answer>) {
    && |got| <= |owned| && GotSoFar(probe, PathsTo(owned), got)
    && t == CountedTo(owned, got, before, |got|) && t.Keys == before.Keys && UsableTo(owned, got, |got|)
  }

  /** One answer that cannot be used spoils the whole. */
  lemma SpoiltForGood(owned: seq<Owned>, probe: Probe, got: seq<Answer>)
    requires |got| <= |owned| && GotSoFar(probe, PathsTo(owned), got) && !UsableTo(owned, got, |got|)
    ensures !AllUsable(owned, probe)
  {
    var k :| 0 <= k < |got| && !Usable(owned[k].path, got[k]);
    var answers := AnswersFrom(probe, PathsTo(owned), 0);
    if answers.Some? {
      assert answers.value[k] == got[k];
    }
  }

  method AskBatch(ghost owned: seq<Owned>, ghost before: map<string, Totals>, t: map<string, Totals>,
                  ghost got: seq<Answer>,
                  paths: seq<string>, owners: seq<string>, probe: Probe, start: nat)
    returns (next: Option<map<string, Totals>>, ghost more: seq<Answer>)
    requires paths == PathsTo(owned) && OwnersAre(owned, before.Keys, paths, owners) && start == |got| < |paths|
    requires Progressed(owned, probe, before, t, got)
    ensures next.None? ==> !AllUsable(owned, probe)
    ensures next.Some? ==> |more| == |BatchAt(paths, start)| && Progressed(owned, probe, before, next.value, got + more)
  {
    var batch := BatchAt(paths, start);
    var states := probe(start, batch);
    GetBatch(probe, paths, got);
    if states.None? || |states.value| != |batch| {
      return None, [];
    }
    more := states.value;
    CountedStays(owned, got, more, before, |got|);
    next := CountBatch(owned, before, t, got + more, paths, owners, start, states.value);
    if next.None? {
      SpoiltForGood(owned, probe, got + more);
    }
  }

  method CountAll(ghost owned: seq<Owned>, folders: map<string, Totals>, paths: seq<string>, owners: seq<string>,
                  probe: Probe)
    returns (totals: Option<map<string, Totals>>)
    requires paths == PathsTo(owned) && OwnersAre(owned, folders.Keys, paths, owners)
    ensures totals.Some? <==> AllUsable(owned, probe)
    ensures totals.Some? ==> totals.value == CountedTo(owned, AnswersFrom(probe, paths, 0).value, folders, |owned|)
  {
    var t := folders;
    var start := 0;
    ghost var got: seq<Answer> := [];
    GotEnds(probe, paths, got);
    while start < |paths|
      invariant start == |got| <= |paths| && Progressed(owned, probe, folders, t, got)
    {
      var next, more := AskBatch(owned, folders, t, got, paths, owners, probe, start);
      if next.None? {
        return None;
      }
      t, start, got := next.value, start + |BatchAt(paths, start)|, got + more;
    }
    GotEnds(probe, paths, got);
    totals := Some(t);
  }

  // ----- The folders ---------------------------------------------------------------------------------

  /** The wanted entries; of two with one name the later counts. */
  ghost function FoldersTo(entries: seq<Entry>, i: nat): map<string, Totals>
    requires i <= |entries|
  {
    if i == 0 then map[]
    else
      var before, e := FoldersTo(entries, i - 1), entries[i - 1];
      if IsWanted(e) then before[e.name := Totals(false, e.local, false, 0, 0)] else before
  }

  ghost function Folders(entries: seq<Entry>): map<string, Totals> {
    FoldersTo(entries, |entries|)
  }

  /** The last directory entry of that name. */
  ghost predicate IsLastEntry(entries: seq<Entry>, name: string, k: nat) {
    && k < |entries| && entries[k].dir && entries[k].name == name
    && forall m :: k < m < |entries| && entries[m].dir ==> entries[m].name != name
  }

  /** A folder is counted when its name is a safe single component and a directory entry has it; whether
      it is present is for the last such entry to say. */
  lemma {:induction false} FoldersMean(entries: seq<Entry>, i: nat, name: string)
    requires i <= |entries|
    ensures name in FoldersTo(entries, i) <==>
              SafePath(name) && '/' !in name && exists k :: 0 <= k < i && entries[k].dir && entries[k].name == name
    ensures name in FoldersTo(entries, i) ==>
              forall k: nat :: IsLastEntry(entries[..i], name, k) ==>
                FoldersTo(entries, i)[name].present == entries[k].local
  {
    if i > 0 {
      FoldersMean(entries, i - 1, name);
      var e := entries[i - 1];
      forall k: nat | IsLastEntry(entries[..i], name, k)
        ensures if e.dir && e.name == name then k == i - 1 else IsLastEntry(entries[..i - 1], name, k)
      {
        assert entries[..i][i - 1] == e;
        assert forall m :: 0 <= m < i - 1 ==> entries[..i][m] == entries[..i - 1][m];
      }
    }
  }

  lemma {:induction false} FoldersStartEmpty(entries: seq<Entry>, i: nat, name: string)
    requires i <= |entries| && name in FoldersTo(entries, i)
    ensures var t := FoldersTo(entries, i)[name]; !t.found && !t.nestedDirs && t.local == 0 && t.remote == 0
  {
    if i > 0 && name in FoldersTo(entries, i - 1) {
      FoldersStartEmpty(entries, i - 1, name);
    }
  }

  ghost function OwnedIn(dir: string, entries: seq<Entry>, nodes: seq<Node>): seq<Owned> {
    OwnedTo(dir, Folders(entries).Keys, nodes, |nodes|)
  }

  /** Everything known about one folder in the end. */
  ghost function Final(dir: string, entries: seq<Entry>, nodes: seq<Node>, answers: seq<Answer>, name: string): Totals
    requires name in Folders(entries) && |answers| == |OwnedIn(dir, entries, nodes)|
  {
    var owned := OwnedIn(dir, entries, nodes);
    Totals(FoundTo(dir, name, nodes, |nodes|), Folders(entries)[name].present, NestedTo(dir, name, nodes, |nodes|),
           CountTo(owned, answers, name, false, |owned|), CountTo(owned, answers, name, true, |owned|))
  }

  ghost predicate IsAnswer(dir: string, entries: seq<Entry>, nodes: seq<Node>, answers: seq<Answer>,
                           result: map<string, Availability>)
    requires |answers| == |OwnedIn(dir, entries, nodes)|
  {
    && (forall f :: f in result ==> f in Folders(entries))
    && forall f :: f in Folders(entries) ==>
         Classify(Final(dir, entries, nodes, answers, f)) == if f in result then Some(result[f]) else None
  }

  method ClassifyAll(totals: map<string, Totals>) returns (result: map<string, Availability>)
    ensures forall f :: f in result ==> f in totals
    ensures forall f :: f in totals ==> Classify(totals[f]) == if f in result then Some(result[f]) else None
  {
    result := map[];
    var rest := totals.Keys;
    while rest != {}
      invariant rest <= totals.Keys
      invariant forall f :: f in result ==> f in totals && f !in rest
      invariant forall f :: f in totals && f !in rest ==>
          Classify(totals[f]) == if f in result then Some(result[f]) else None
      decreases |rest|
    {
      var name :| name in rest;
      rest := rest - {name};
      var c := Classify(totals[name]);
      if c.Some? {
        result := result[name := c.value];
      }
    }
  }

  lemma TotalsAreFinal(dir: string, entries: seq<Entry>, nodes: seq<Node>, answers: seq<Answer>,
                       collected: map<string, Totals>, totals: map<string, Totals>)
    requires |answers| == |OwnedIn(dir, entries, nodes)|
    requires CollectedTo(dir, nodes, Folders(entries), collected, |nodes|)
    requires totals == CountedTo(OwnedIn(dir, entries, nodes), answers, collected, |answers|)
    ensures totals.Keys == Folders(entries).Keys
    ensures forall f :: f in totals ==> totals[f] == Final(dir, entries, nodes, answers, f)
  {
    forall f
      ensures f in totals <==> f in Folders(entries)
      ensures f in totals ==> totals[f] == Final(dir, entries, nodes, answers, f)
    {
      CountedIs(OwnedIn(dir, entries, nodes), answers, collected, |answers|, f);
      if f in totals {
        FoldersStartEmpty(entries, |entries|, f);
      }
    }
  }

  /** `anchorFolderAvailability`; `valid` is the verdict of the manifest's own validation. */
  method Availabilities(valid: bool, nodes: seq<Node>, dir: string, entries: seq<Entry>, probe: Probe)
    returns (result: Option<map<string, Availability>>)
    ensures result.Some? <==> valid && (dir == "" || SafePath(dir)) && AllUsable(OwnedIn(dir, entries, nodes), probe)
    ensures result.Some? ==>
              IsAnswer(dir, entries, nodes, AnswersFrom(probe, PathsTo(OwnedIn(dir, entries, nodes)), 0).value,
                  result.value)
  {
    if !valid {
      return None;
    }
    var folders: map<string, Totals> := map[];
    for i := 0 to |entries|
      invariant folders == FoldersTo(entries, i)
    {
      if IsWanted(entries[i]) {
        folders := folders[entries[i].name := Totals(false, entries[i].local, false, 0, 0)];
      }
    }
    if dir != "" && !SafePath(dir) {
      return None;
    }
    var collected, paths, owners := Collect(dir, nodes, folders);
    ghost var owned := OwnedIn(dir, entries, nodes);
    var totals := CountAll(owned, collected, paths, owners, probe);
    if totals.None? {
      return None;
    }
    TotalsAreFinal(dir, entries, nodes, AnswersFrom(probe, paths, 0).value, collected, totals.value);
    var classes := ClassifyAll(totals.value);
    result := Some(classes);
  }

  // ----- The direct definition -------------------------------------------------------------------------

  /** A file anywhere below the folder whose content is remote (`partial`) or local. */
  ghost predicate HasFile(dir: string, name: string, nodes: seq<Node>, one: string -> Answer, partial: bool, i: nat)
    requires i <= |nodes|
  {
    exists k :: 0 <= k < i && nodes[k].kind == FileNode && IsBelow(dir, name, nodes[k].path) &&
      one(nodes[k].path).partial == partial
  }

  ghost predicate OwnsFile(owned: seq<Owned>, one: string -> Answer, name: string, partial: bool) {
    exists k :: 0 <= k < |owned| && owned[k].owner == name && one(owned[k].path).partial == partial
  }

  lemma OwnsNext(owned: seq<Owned>, x: Owned, one: string -> Answer, name: string, partial: bool)
    ensures OwnsFile(owned + [x], one, name, partial) <==>
              OwnsFile(owned, one, name, partial) || (x.owner == name && one(x.path).partial == partial)
  {
    var after := owned + [x];
    assert after[|owned|] == x && forall k :: 0 <= k < |owned| ==> after[k] == owned[k];
  }

  lemma {:induction false} OwnedAreBelow(dir: string, names: set<string>, nodes: seq<Node>, one: string -> Answer,
                                         name: string, partial: bool, i: nat)
    requires i <= |nodes| && name in names
    ensures OwnsFile(OwnedTo(dir, names, nodes, i), one, name, partial) <==> HasFile(dir, name, nodes, one, partial, i)
  {
    if i > 0 {
      OwnedAreBelow(dir, names, nodes, one, name, partial, i - 1);
      var next := OwnedBy(dir, names, nodes[i - 1]);
      OwnedByMeans(dir, names, nodes[i - 1], name);
      if next.Some? {
        OwnsNext(OwnedTo(dir, names, nodes, i - 1), next.value, one, name, partial);
      }
      HasFileNext(dir, name, nodes, one, partial, i - 1);
    }
  }

  lemma HasFileNext(dir: string, name: string, nodes: seq<Node>, one: string -> Answer, partial: bool, i: nat)
    requires i < |nodes|
    ensures HasFile(dir, name, nodes, one, partial, i + 1) <==>
              HasFile(dir, name, nodes, one, partial, i) ||
              (nodes[i].kind == FileNode && IsBelow(dir, name, nodes[i].path) && one(nodes[i].path).partial == partial)
  {
  }

  lemma {:induction false} CountIsOwned(owned: seq<Owned>, one: string -> Answer, name: string, partial: bool)
    ensures CountTo(owned, Each(one, PathsTo(owned)), name, partial, |owned|) > 0 <==>
        OwnsFile(owned, one, name, partial)
  {
    var answers := Each(one, PathsTo(owned));
    CountMeans(owned, answers, name, partial, |owned|);
    assert forall k :: 0 <= k < |owned| ==> answers[k] == one(owned[k].path);
  }

  lemma {:induction false} LastEntryExists(entries: seq<Entry>, name: string)
    ensures (exists k :: 0 <= k < |entries| && entries[k].dir && entries[k].name == name) <==>
              exists k: nat :: IsLastEntry(entries, name, k)
  {
    if entries != [] {
      var n := |entries| - 1;
      var before := entries[..n];
      LastEntryExists(before, name);
      if entries[n].dir && entries[n].name == name {
        assert IsLastEntry(entries, name, n);
      } else if k: nat :| IsLastEntry(before, name, k) {
        assert IsLastEntry(entries, name, k);
      }
    }
  }

  /** For a helper that answers each path on its own, cutting prefixes and asking in batches gives
      the availability that all descendants in the manifest define: hybrid with local and remote
      files below, local with only local ones, remote with only remote ones or when nothing of the
      folder is present, nothing for a present hierarchy of empty directories. */
  lemma AvailabilityIsDirect(dir: string, entries: seq<Entry>, nodes: seq<Node>, probe: Probe, one: string -> Answer,
                             result: map<string, Availability>, name: string)
    requires forall at, batch :: probe(at, batch) == Some(Each(one, batch))
    requires AllUsable(OwnedIn(dir, entries, nodes), probe)
    requires IsAnswer(dir, entries, nodes, AnswersFrom(probe, PathsTo(OwnedIn(dir, entries, nodes)), 0).value, result)
    ensures name in result ==> SafePath(name) && '/' !in name && exists k: nat :: IsLastEntry(entries, name, k)
    ensures SafePath(name) && '/' !in name ==>
              forall at: nat :: IsLastEntry(entries, name, at) ==>
                var n, present := |nodes|, entries[at].local;
                var here, below := HasFile(dir, name, nodes, one, false, n), HasFile(dir, name, nodes, one, true, n);
                && (name in result <==> FoundTo(dir, name, nodes, n) &&
                                        (here || below || !present || !NestedTo(dir, name, nodes, n)))
                && (name in result ==>
                      && (result[name] == Hybrid <==> here && below)
                      && (result[name] == Remote <==> !here && (below || !present)))
  {
    FoldersMean(entries, |entries|, name);
    assert entries[..|entries|] == entries;
    LastEntryExists(entries, name);
    var owned := OwnedIn(dir, entries, nodes);
    var paths := PathsTo(owned);
    BatchesArePointwise(probe, one, paths, 0);
    assert paths[0..] == paths;
    if name in Folders(entries) {
      CountIsOwned(owned, one, name, false);
      CountIsOwned(owned, one, name, true);
      OwnedAreBelow(dir, Folders(entries).Keys, nodes, one, name, false, |nodes|);
      OwnedAreBelow(dir, Folders(entries).Keys, nodes, one, name, true, |nodes|);
    }
  }
}
