/** The second half of planning: the states of the listed files are asked for in batches of 64, and
    the plan carries a fingerprint over all of it (cmd/filees/explorer_anchor_batch.go). */
module AnchorPlan {
  import opened Basics
  import opened AnchorPaths
  import opened AnchorScan

  const BATCH := 64

  /** The identity of a placeholder as it parses; a negative size means none is recorded. */
  datatype Identity = Unreadable | Identity(rel: string, size: Int64)

  /** What the metadata helper says about one file; `rest` stands for the fields planning ignores. */
  datatype Answer = Answer(
    ok: bool, usn: Option<Int64>, size: Option<Int64>, partial: bool, placeholder: bool, local: bool,
    inSync: bool, directory: bool, onDisk: Int64, identity: Identity, rest: string)

  datatype Planned = Planned(path: string, answer: Answer)

  /** A digest stands for what was hashed. */
  datatype Header = Header(binding: string, selection: string, action: Action)
  datatype Fingerprint = Fingerprint(header: Header, items: seq<Planned>)
  datatype Consent = Consent(header: Header, nodes: seq<Node>)

  datatype Plan = Plan(directory: bool, files: seq<Planned>, count: nat, bytes: Int64, fingerprint: Fingerprint,
                       consent: Option<Consent>)

  /** The helper: one call for the batch that starts at an index, failing or answering. */
  type Probe = (nat, seq<string>) -> Option<seq<Answer>>

  // ----- One file --------------------------------------------------------------------------------

  predicate Readable(a: Answer) {
    && a.ok && a.size.Some? && a.size.value >= 0 && a.usn.Some? && a.usn.value > 0
  }

  predicate NamesPath(id: Identity, path: string) {
    id.Identity? && id.rel == path
  }

  /** Whether the plan has work for the file. */
  predicate HasWork(action: Action, a: Answer) {
    a.partial || action != Download || (a.placeholder && !a.local)
  }

  /** Whether the state of the file is one the action recognises. */
  predicate Recognised(action: Action, path: string, size: Int64, a: Answer) {
    && Readable(a)
    && if a.partial then a.placeholder && !a.local && NamesPath(a.identity, path) && a.size.value == size
       else if action == Download then
         a.placeholder && !a.local ==>
           && NamesPath(a.identity, path) && (a.identity.size >= 0 ==> a.identity.size == a.size.value)
           && a.size.value == size && !a.directory && a.onDisk >= size
       else a.placeholder && a.local && a.inSync
  }

  /** The states a download goes on with: a placeholder that is remote, or all there without being
      local yet, for this very file; or anything already local, which it leaves alone. */
  predicate KnownForDownload(path: string, size: Int64, a: Answer) {
    && a.ok && a.size.Some? && 0 <= a.size.value && a.usn.Some? && 0 < a.usn.value
    && (a.partial ==>
          a.placeholder && !a.local && a.identity.Identity? && a.identity.rel == path && a.size == Some(size))
    && (!a.partial && a.placeholder && !a.local ==>
          && a.identity.Identity? && a.identity.rel == path && a.size == Some(size)
          && (a.identity.size < 0 || a.identity.size == size) && !a.directory && size <= a.onDisk)
  }

  /** The states a release goes on with: a placeholder that is remote already, for this very file, or
      one that is local and in sync. */
  predicate KnownForRelease(path: string, size: Int64, a: Answer) {
    && a.ok && a.size.Some? && 0 <= a.size.value && a.usn.Some? && 0 < a.usn.value && a.placeholder
    && if a.partial then !a.local && a.identity.Identity? && a.identity.rel == path && a.size == Some(size)
       else a.local && a.inSync
  }

  lemma RecognisedMeans(path: string, size: Int64, a: Answer)
    ensures Recognised(Download, path, size, a) <==> KnownForDownload(path, size, a)
    ensures Recognised(Release, path, size, a) <==> KnownForRelease(path, size, a)
  {
  }

  /** The bytes the file adds to the plan: none when it is released and already remote. */
  function Weight(action: Action, a: Answer): int {
    if a.size.Some? && !(action == Release && a.partial) then a.size.value else 0
  }

  // ----- All files -------------------------------------------------------------------------------

  function FilesOf(action: Action, items: seq<Planned>): seq<Planned> {
    if items == [] then []
    else
      var before, last := FilesOf(action, items[..|items| - 1]), items[|items| - 1];
      if HasWork(action, last.answer) then before + [last] else before
  }

  function BytesOf(action: Action, files: seq<Planned>): int {
    if files == [] then 0
    else BytesOf(action, files[..|files| - 1]) + Weight(action, files[|files| - 1].answer)
  }

  /** The sum of the sizes of some files, with or without those that are remote. */
  ghost function SizesOf(files: seq<Planned>, remoteToo: bool): int {
    if files == [] then 0
    else
      var last := files[|files| - 1].answer;
      SizesOf(files[..|files| - 1], remoteToo) +
      if last.size.Some? && (remoteToo || !last.partial) then last.size.value else 0
  }

  /** A download counts every file of its plan, a release those that are not remote already. */
  lemma {:induction false} BytesAreSizes(files: seq<Planned>)
    ensures BytesOf(Download, files) == SizesOf(files, true)
    ensures BytesOf(Release, files) == SizesOf(files, false)
  {
    if files != [] {
      BytesAreSizes(files[..|files| - 1]);
    }
  }

  /** The files with work: all for a release; for a download those that are remote or a placeholder
      that is not local. */
  lemma {:induction false} FilesMean(action: Action, items: seq<Planned>, x: Planned)
    requires action != Unknown
    ensures x in FilesOf(action, items) <==>
              x in items && (action == Release || x.answer.partial || (x.answer.placeholder && !x.answer.local))
  {
    if items != [] {
      FilesMean(action, items[..|items| - 1], x);
      assert items == items[..|items| - 1] + [items[|items| - 1]];
    }
  }

  /** They are in the order of the items. */
  lemma {:induction false} FilesInOrder(action: Action, items: seq<Planned>, i: nat, k: nat) returns (a: nat, b: nat)
    requires i < k < |FilesOf(action, items)|
    ensures a < b < |items| && FilesOf(action, items)[i] == items[a] && FilesOf(action, items)[k] == items[b]
  {
    var before := items[..|items| - 1];
    if k < |FilesOf(action, before)| {
      a, b := FilesInOrder(action, before, i, k);
    } else {
      a := FileFrom(action, before, i);
      b := |items| - 1;
    }
  }

  lemma {:induction false} FileFrom(action: Action, items: seq<Planned>, i: nat) returns (a: nat)
    requires i < |FilesOf(action, items)|
    ensures a < |items| && FilesOf(action, items)[i] == items[a]
  {
    var before := items[..|items| - 1];
    if i < |FilesOf(action, before)| {
      a := FileFrom(action, before, i);
    } else {
      a := |items| - 1;
    }
  }

  /** Every file is recognised, given its node in the manifest, and at none of them with work would
      its size carry the bytes of the files before it over the largest 64-bit number. */
  ghost predicate Sound(action: Action, nodes: seq<Node>, items: seq<Planned>)
    requires |items| <= |nodes|
  {
    items != [] ==>
      var k := |items| - 1;
      && Sound(action, nodes, items[..k])
      && Recognised(action, items[k].path, nodes[k].size, items[k].answer)
      && (HasWork(action, items[k].answer) ==>
            BytesOf(action, FilesOf(action, items[..k])) + items[k].answer.size.value <= MAX_INT64)
  }

  lemma {:induction false} SoundBefore(action: Action, nodes: seq<Node>, items: seq<Planned>, i: nat)
    requires |items| <= |nodes| && Sound(action, nodes, items) && i <= |items|
    ensures Sound(action, nodes, items[..i])
  {
    if i < |items| {
      SoundBefore(action, nodes, items[..|items| - 1], i);
      assert items[..|items| - 1][..i] == items[..i];
    } else {
      assert items[..i] == items;
    }
  }

  /** The total of a sound list fits 64 bits. */
  lemma {:induction false} BytesFit(action: Action, nodes: seq<Node>, items: seq<Planned>)
    requires |items| <= |nodes| && Sound(action, nodes, items)
    ensures 0 <= BytesOf(action, FilesOf(action, items)) <= MAX_INT64
  {
    if items != [] {
      var before, last := items[..|items| - 1], items[|items| - 1];
      BytesFit(action, nodes, before);
      var files := FilesOf(action, before);
      if HasWork(action, last.answer) {
        assert (files + [last])[..|files|] == files;
      }
    }
  }

  function Zip(paths: seq<string>, answers: seq<Answer>): (items: seq<Planned>)
    requires |paths| == |answers|
    ensures |items| == |paths|
  {
    seq(|paths|, i requires 0 <= i < |paths| => Planned(paths[i], answers[i]))
  }

  // ----- Asking in batches -------------------------------------------------------------------------

  function Min(a: nat, b: nat): nat {
    if a < b then a else b
  }

  function BatchAt(paths: seq<string>, start: nat): (batch: seq<string>)
    requires start <= |paths|
    ensures |batch| == Min(BATCH, |paths| - start)
  {
    paths[start..Min(start + BATCH, |paths|)]
  }

  function Each(one: string -> Answer, paths: seq<string>): seq<Answer> {
    seq(|paths|, i requires 0 <= i < |paths| => one(paths[i]))
  }

  /** What the batches from `start` on bring, if every one is answered in full. */
  ghost function AnswersFrom(probe: Probe, paths: seq<string>, start: nat): (answers: Option<seq<Answer>>)
    requires start <= |paths|
    ensures answers.Some? ==> |answers.value| == |paths| - start
    decreases |paths| - start
  {
    if start == |paths| then Some([])
    else
      var batch := BatchAt(paths, start);
      var states, rest := probe(start, batch), AnswersFrom(probe, paths, start + |batch|);
      if states.Some? && |states.value| == |batch| && rest.Some? then Some(states.value + rest.value) else None
  }

  /** The answer to the `k`-th path: the one at its place in its own batch of 64, if that batch is
      answered in full. */
  function AnswerTo(probe: Probe, paths: seq<string>, k: nat): Option<Answer>
    requires k < |paths|
  {
    var start := k - k % 64;
    var batch := paths[start..if start + 64 <= |paths| then start + 64 else |paths|];
    var states := probe(start, batch);
    if states.Some? && |states.value| == |batch| then Some(states.value[k % 64]) else None
  }

  lemma AnswersInBatch(probe: Probe, paths: seq<string>, start: nat, k: nat)
    requires start < |paths| && start % 64 == 0 && start <= k < start + |BatchAt(paths, start)|
    ensures var batch := BatchAt(paths, start);
            var states := probe(start, batch);
            AnswerTo(probe, paths, k) ==
              if states.Some? && |states.value| == |batch| then Some(states.value[k - start]) else None
  {
    assert k - k % 64 == start;
  }

  /** All batches from `start` on are answered exactly when every path is, and with these answers. */
  lemma {:induction false} AnswersMean(probe: Probe, paths: seq<string>, start: nat)
    requires start <= |paths| && (start % 64 == 0 || start == |paths|)
    ensures var answers := AnswersFrom(probe, paths, start);
            && (answers.Some? <==> forall k :: start <= k < |paths| ==> AnswerTo(probe, paths, k).Some?)
            && (answers.Some? ==> forall k :: start <= k < |paths| ==>
                  AnswerTo(probe, paths, k) == Some(answers.value[k - start]))
    decreases |paths| - start
  {
    if start < |paths| {
      var batch := BatchAt(paths, start);
      var next := start + |batch|;
      AnswersMean(probe, paths, next);
      var states, rest := probe(start, batch), AnswersFrom(probe, paths, next);
      forall k | start <= k < next
        ensures AnswerTo(probe, paths, k) ==
                  if states.Some? && |states.value| == |batch| then Some(states.value[k - start]) else None
      {
        AnswersInBatch(probe, paths, start, k);
      }
      assert AnswerTo(probe, paths, start).Some? <==> states.Some? && |states.value| == |batch|;
    }
  }

  /** Asking in batches is asking for every path alone, for a helper that answers each path on its own. */
  lemma {:induction false} BatchesArePointwise(probe: Probe, one: string -> Answer, paths: seq<string>, start: nat)
    requires start <= |paths|
    requires forall at, batch :: probe(at, batch) == Some(Each(one, batch))
    ensures AnswersFrom(probe, paths, start) == Some(Each(one, paths[start..]))
    decreases |paths| - start
  {
    if start < |paths| {
      var batch := BatchAt(paths, start);
      BatchesArePointwise(probe, one, paths, start + |batch|);
      assert Each(one, batch) + Each(one, paths[start + |batch|..]) == Each(one, paths[start..]);
    }
  }

  // ----- The planner ---------------------------------------------------------------------------------

  datatype Tally = Tally(files: seq<Planned>, count: nat, bytes: Int64, items: seq<Planned>)

  ghost predicate TallyIs(action: Action, nodes: seq<Node>, t: Tally) {
    && |t.items| <= |nodes| && Sound(action, nodes, t.items)
    && t.files == FilesOf(action, t.items) && t.count == |t.files| && t.bytes == BytesOf(action, t.files)
  }

  method Check(action: Action, path: string, size: Int64, a: Answer) returns (known: bool, work: bool)
    ensures known <==> Recognised(action, path, size, a)
    ensures known ==> work == HasWork(action, a)
  {
    if !a.ok || a.size.None? || a.size.value < 0 || a.usn.None? || a.usn.value <= 0 {
      return false, false;
    }
    if a.partial {
      if !a.placeholder || a.local || !NamesPath(a.identity, path) || a.size.value != size {
        return false, false;
      }
    } else if action == Download {
      if a.placeholder && !a.local {
        if !NamesPath(a.identity, path) || (a.identity.size >= 0 && a.identity.size != a.size.value) ||
          a.size.value != size ||
           a.directory || a.onDisk < a.size.value
        {
          return false, false;
        }
      } else {
        return true, false;
      }
    } else if !a.placeholder || !a.local || !a.inSync {
      return false, false;
    }
    return true, true;
  }

  lemma FilesNext(action: Action, items: seq<Planned>, item: Planned)
    ensures FilesOf(action, items + [item]) ==
        if HasWork(action, item.answer) then FilesOf(action, items) + [item] else FilesOf(action, items)
    ensures BytesOf(action, items + [item]) == BytesOf(action, items) + Weight(action, item.answer)
  {
    assert (items + [item])[..|items|] == items;
  }

  lemma SoundNext(action: Action, nodes: seq<Node>, items: seq<Planned>, item: Planned)
    requires |items| < |nodes| && Sound(action, nodes, items)
    ensures Sound(action, nodes, items + [item]) <==>
              && Recognised(action, item.path, nodes[|items|].size, item.answer)
              && (HasWork(action, item.answer) ==>
                   BytesOf(action, FilesOf(action, items)) + item.answer.size.value <= MAX_INT64)
  {
    assert (items + [item])[..|items|] == items;
  }

  method JudgeOne(action: Action, ghost nodes: seq<Node>, size: Int64, t: Tally, path: string, a: Answer)
    returns (next: Option<Tally>)
    requires TallyIs(action, nodes, t) && |t.items| < |nodes| && size == nodes[|t.items|].size
    ensures next.Some? <==> Sound(action, nodes, t.items + [Planned(path, a)])
    ensures next.Some? ==> TallyIs(action, nodes, next.value) && next.value.items == t.items + [Planned(path, a)]
    ensures next.Some? && a.size.Some? ==>
              next.value.bytes - t.bytes ==
                match action
                case Download => if a.partial || (a.placeholder && !a.local) then a.size.value else 0
                case Release => if a.partial then 0 else a.size.value
                case Unknown => a.size.value
  {
    var item := Planned(path, a);
    SoundNext(action, nodes, t.items, item);
    FilesNext(action, t.items, item);
    FilesNext(action, t.files, item);
    BytesFit(action, nodes, t.items);
    var known, work := Check(action, path, size, a);
    if !known {
      return None;
    }
    if !work {
      return Some(t.(items := t.items + [item]));
    }
    if t.bytes > MAX_INT64 - a.size.value {
      return None;
    }
    next := Some(Tally(t.files + [item], t.count + 1,
                       if action != Release || !a.partial then t.bytes + a.size.value else t.bytes, t.items + [item]));
  }

  ghost function Judged(items: seq<Planned>, batch: seq<string>, states: seq<Answer>, i: nat): seq<Planned>
    requires i <= |batch| == |states|
  {
    items + Zip(batch[..i], states[..i])
  }

  lemma JudgedNext(items: seq<Planned>, batch: seq<string>, states: seq<Answer>, i: nat)
    requires i < |batch| == |states|
    ensures Judged(items, batch, states, i + 1) == Judged(items, batch, states, i) + [Planned(batch[i], states[i])]
  {
    assert Zip(batch[..i + 1], states[..i + 1]) == Zip(batch[..i], states[..i]) + [Planned(batch[i], states[i])];
  }

  lemma JudgedEnds(items: seq<Planned>, batch: seq<string>, states: seq<Answer>)
    requires |batch| == |states|
    ensures Judged(items, batch, states, 0) == items
    ensures Judged(items, batch, states, |batch|) == items + Zip(batch, states)
  {
    assert batch[..|batch|] == batch && states[..|states|] == states;
  }

  /** A list that begins unsoundly is unsound. */
  lemma UnsoundStays(action: Action, nodes: seq<Node>, some: seq<Planned>, all: seq<Planned>)
    requires |some| <= |all| <= |nodes| && some == all[..|some|] && !Sound(action, nodes, some)
    ensures !Sound(action, nodes, all)
  {
    if Sound(action, nodes, all) {
      SoundBefore(action, nodes, all, |some|);
    }
  }

  lemma JudgedIsPrefix(items: seq<Planned>, batch: seq<string>, states: seq<Answer>, i: nat)
    requires i <= |batch| == |states|
    ensures var some, all := Judged(items, batch, states, i), items + Zip(batch, states);
        |some| <= |all| && some == all[..|some|]
  {
  }

  /** The inner loop, over the answers to one batch. */
  method JudgeBatch(action: Action, ghost nodes: seq<Node>, sizes: map<string, Int64>, t: Tally, batch: seq<string>,
                    states: seq<Answer>)
    returns (next: Option<Tally>)
    requires TallyIs(action, nodes, t) && |batch| == |states| && |t.items| + |batch| <= |nodes|
    requires forall i :: 0 <= i < |batch| ==> batch[i] in sizes && sizes[batch[i]] == nodes[|t.items| + i].size
    ensures next.Some? <==> Sound(action, nodes, t.items + Zip(batch, states))
    ensures next.Some? ==> TallyIs(action, nodes, next.value) && next.value.items == t.items + Zip(batch, states)
  {
    var cur := t;
    JudgedEnds(t.items, batch, states);
    for i := 0 to |batch|
      invariant TallyIs(action, nodes, cur) && cur.items == Judged(t.items, batch, states, i)
    {
      JudgedNext(t.items, batch, states, i);
      var one := JudgeOne(action, nodes, sizes[batch[i]], cur, batch[i], states[i]);
      if one.None? {
        JudgedIsPrefix(t.items, batch, states, i + 1);
        UnsoundStays(action, nodes, Judged(t.items, batch, states, i + 1), t.items + Zip(batch, states));
        return None;
      }
      cur := one.value;
    }
    next := Some(cur);
  }

  lemma ZipBatch(paths: seq<string>, got: seq<Answer>, more: seq<Answer>)
    requires |got| <= |paths| && |more| == |BatchAt(paths, |got|)|
    ensures |got + more| <= |paths|
    ensures Zip(paths[..|got|], got) + Zip(BatchAt(paths, |got|), more) == Zip(paths[..|got + more|], got + more)
  {
  }

  lemma ZipPrefix(paths: seq<string>, got: seq<Answer>, all: seq<Answer>)
    requires |got| <= |all| == |paths| && got == all[..|got|]
    ensures Zip(paths[..|got|], got) == Zip(paths, all)[..|got|]
  {
  }

  /** All answers, and all of them sound. */
  ghost predicate AnsweredWell(action: Action, nodes: seq<Node>, paths: seq<string>, probe: Probe)
    requires |paths| == |nodes|
  {
    var answers := AnswersFrom(probe, paths, 0);
    answers.Some? && Sound(action, nodes, Zip(paths, answers.value))
  }

  /** The answers so far and those still to come make all of them. */
  ghost predicate GotSoFar(probe: Probe, paths: seq<string>, got: seq<Answer>)
    requires |got| <= |paths|
  {
    var rest := AnswersFrom(probe, paths, |got|);
    AnswersFrom(probe, paths, 0) == if rest.Some? then Some(got + rest.value) else None
  }

  lemma GetBatch(probe: Probe, paths: seq<string>, got: seq<Answer>)
    requires |got| < |paths| && GotSoFar(probe, paths, got)
    ensures var batch := BatchAt(paths, |got|); var states := probe(|got|, batch);
            if states.Some? && |states.value| == |batch| then GotSoFar(probe, paths, got + states.value)
            else AnswersFrom(probe, paths, 0) == None
  {
    var batch := BatchAt(paths, |got|);
    var states := probe(|got|, batch);
    if states.Some? && |states.value| == |batch| {
      var rest := AnswersFrom(probe, paths, |got| + |batch|);
      if rest.Some? {
        assert got + (states.value + rest.value) == got + states.value + rest.value;
      }
    }
  }

  /** An unsound beginning spoils whatever the later batches bring. */
  lemma SpoiltForGood(action: Action, nodes: seq<Node>, paths: seq<string>, probe: Probe, got: seq<Answer>)
    requires |got| <= |paths| == |nodes| && GotSoFar(probe, paths, got) &&
        !Sound(action, nodes, Zip(paths[..|got|], got))
    ensures !AnsweredWell(action, nodes, paths, probe)
  {
    var answers := AnswersFrom(probe, paths, 0);
    if answers.Some? {
      ZipPrefix(paths, got, answers.value);
      UnsoundStays(action, nodes, Zip(paths[..|got|], got), Zip(paths, answers.value));
    }
  }

  lemma GotEnds(probe: Probe, paths: seq<string>, got: seq<Answer>)
    requires |got| <= |paths|
    ensures GotSoFar(probe, paths, [])
    ensures |got| == |paths| && GotSoFar(probe, paths, got) ==> AnswersFrom(probe, paths, 0) == Some(got)
  {
    var all := AnswersFrom(probe, paths, 0);
    if all.Some? {
      assert [] + all.value == all.value;
    }
    assert got + [] == got;
  }

  ghost predicate Progressed(action: Action, nodes: seq<Node>, paths: seq<string>, probe: Probe, t: Tally,
                             got: seq<Answer>) {
    && |got| <= |paths| == |nodes| && GotSoFar(probe, paths, got)
    && TallyIs(action, nodes, t) && t.items == Zip(paths[..|got|], got)
  }

  ghost predicate SizesAre(nodes: seq<Node>, paths: seq<string>, sizes: map<string, Int64>) {
    |paths| == |nodes| && forall i :: 0 <= i < |paths| ==> paths[i] in sizes && sizes[paths[i]] == nodes[i].size
  }

  lemma BatchSizes(nodes: seq<Node>, paths: seq<string>, sizes: map<string, Int64>, start: nat)
    requires SizesAre(nodes, paths, sizes) && start <= |paths|
    ensures var batch := BatchAt(paths, start);
            forall i :: 0 <= i < |batch| ==> batch[i] in sizes && sizes[batch[i]] == nodes[start + i].size
  {
  }

  method AskBatch(action: Action, ghost nodes: seq<Node>, paths: seq<string>, sizes: map<string, Int64>, probe: Probe,
                  t: Tally, start: nat, ghost got: seq<Answer>)
    returns (next: Option<Tally>, ghost more: seq<Answer>)
    requires SizesAre(nodes, paths, sizes) && start == |got| < |paths| &&
        Progressed(action, nodes, paths, probe, t, got)
    ensures next.None? ==> !AnsweredWell(action, nodes, paths, probe)
    ensures next.Some? ==>
              |more| == |BatchAt(paths, start)| && Progressed(action, nodes, paths, probe, next.value, got + more)
  {
    var batch := BatchAt(paths, start);
    var states := probe(start, batch);
    GetBatch(probe, paths, got);
    if states.None? || |states.value| != |batch| {
      return None, [];
    }
    more := states.value;
    ZipBatch(paths, got, more);
    BatchSizes(nodes, paths, sizes, start);
    next := JudgeBatch(action, nodes, sizes, t, batch, states.value);
    if next.None? {
      SpoiltForGood(action, nodes, paths, probe, got + more);
    }
  }

  /** The outer loop, one call of the helper for each batch of 64. */
  method JudgeAll(action: Action, ghost nodes: seq<Node>, paths: seq<string>, sizes: map<string, Int64>, probe: Probe)
    returns (tally: Option<Tally>)
    requires SizesAre(nodes, paths, sizes)
    ensures tally.Some? <==> AnsweredWell(action, nodes, paths, probe)
    ensures tally.Some? ==>
              TallyIs(action, nodes, tally.value) && tally.value.items == Zip(paths, AnswersFrom(probe, paths, 0).value)
  {
    var t := Tally([], 0, 0, []);
    var start := 0;
    ghost var got: seq<Answer> := [];
    GotEnds(probe, paths, got);
    while start < |paths|
      invariant start == |got| <= |paths| && Progressed(action, nodes, paths, probe, t, got)
    {
      var next, more := AskBatch(action, nodes, paths, sizes, probe, t, start, got);
      if next.None? {
        return None;
      }
      t, start, got := next.value, start + |BatchAt(paths, start)|, got + more;
    }
    GotEnds(probe, paths, got);
    assert paths[..start] == paths;
    tally := Some(t);
  }

  // ----- The plan ------------------------------------------------------------------------------------

  ghost function Listed(r: Request): seq<Node> {
    ListedTo(r, |r.manifest|)
  }

  ghost function PathsOf(nodes: seq<Node>): (paths: seq<string>)
    ensures |paths| == |nodes|
  {
    seq(|nodes|, i requires 0 <= i < |nodes| => nodes[i].path)
  }

  ghost function SetOf(paths: seq<string>): set<string> {
    set p | p in paths
  }

  /** Every condition for a plan.  Against an earlier plan, the files listed now have to be exactly
      those listed then. */
  ghost predicate Plannable(r: Request, fold: string -> string, probe: Probe) {
    && r.action != Unknown && (r.selection == "." || SafePath(r.selection))
    && ScopeIsFine(r, fold, |r.manifest|) && Finds(r, |r.manifest|)
    && (r.snapshot.Some? ==> SetOf(PathsOf(Listed(r))) == SetOf(r.snapshot.value))
    && AnsweredWell(r.action, Listed(r), PathsOf(Listed(r)), probe)
  }

  ghost function Items(r: Request, probe: Probe): seq<Planned>
    requires AnsweredWell(r.action, Listed(r), PathsOf(Listed(r)), probe)
  {
    Zip(PathsOf(Listed(r)), AnswersFrom(probe, PathsOf(Listed(r)), 0).value)
  }

  /** The plan: its files are those with work, in manifest order; their number and the sum of their
      sizes are exact; the fingerprint covers every listed file. */
  ghost predicate PlanIs(r: Request, probe: Probe, plan: Plan)
    requires AnsweredWell(r.action, Listed(r), PathsOf(Listed(r)), probe)
  {
    var items, header := Items(r, probe), Header(r.binding, r.selection, r.action);
    && plan.directory == FindsDirectory(r, |r.manifest|)
    && plan.files == FilesOf(r.action, items) && plan.count == |plan.files| &&
       plan.bytes == BytesOf(r.action, plan.files)
    && plan.fingerprint == Fingerprint(header, items)
    && plan.consent == if r.action == Download then Some(Consent(header, ScopeTo(r, |r.manifest|))) else None
  }

  lemma SameSizeSameSet(paths: seq<string>, wanted: set<string>)
    requires (forall i, k :: 0 <= i < k < |paths| ==> paths[i] != paths[k]) && forall p :: p in paths ==> p in wanted
    ensures |paths| == |wanted| <==> SetOf(paths) == wanted
  {
    SizeOfSet(paths);
    if |paths| == |wanted| {
      SubsetOfSize(SetOf(paths), wanted);
    }
  }

  lemma {:induction false} SizeOfSet(paths: seq<string>)
    requires forall i, k :: 0 <= i < k < |paths| ==> paths[i] != paths[k]
    ensures |SetOf(paths)| == |paths|
  {
    if paths != [] {
      var before, last := paths[..|paths| - 1], paths[|paths| - 1];
      SizeOfSet(before);
      assert SetOf(paths) == SetOf(before) + {last};
    }
  }

  lemma SubsetOfSize(a: set<string>, b: set<string>)
    requires a <= b && |a| == |b|
    ensures a == b
  {
    assert b == a + (b - a);
    assert |b - a| == 0;
  }

  /** The number of listed files tells whether they are the wanted ones. */
  lemma CountTells(r: Request, fold: string -> string, paths: seq<string>)
    requires r.snapshot.Some? && ScopeIsFine(r, fold, |r.manifest|) && paths == PathsOf(Listed(r))
    ensures |paths| == |SetOf(r.snapshot.value)| <==> SetOf(paths) == SetOf(r.snapshot.value)
  {
    ListedAreApart(r, fold, |r.manifest|);
    forall k | 0 <= k < |paths|
      ensures paths[k] in SetOf(r.snapshot.value)
    {
      var m := ListedFrom(r, |r.manifest|, k);
    }
    SameSizeSameSet(paths, SetOf(r.snapshot.value));
  }

  /** `anchorBatchPlanSnapshot`. */
  method MakePlan(r: Request, fold: string -> string, probe: Probe) returns (plan: Option<Plan>)
    ensures plan.Some? <==> Plannable(r, fold, probe)
    ensures plan.Some? ==> PlanIs(r, probe, plan.value) && IsPlainPlan(r, probe, plan.value)
  {
    if r.action == Unknown || (r.selection != "." && !SafePath(r.selection)) {
      return None;
    }
    var scan := ScanManifest(r, fold);
    if scan.None? || !scan.value.found {
      return None;
    }
    var s := scan.value;
    assert s.paths == PathsOf(Listed(r));
    if r.snapshot.Some? {
      CountTells(r, fold, s.paths);
      var wanted := set p | p in r.snapshot.value;
      if |s.paths| != |wanted| {
        return None;
      }
    }
    var tally := JudgeAll(r.action, Listed(r), s.paths, s.sizes, probe);
    if tally.None? {
      return None;
    }
    var t := tally.value;
    BytesFit(r.action, Listed(r), t.items);
    var header := Header(r.binding, r.selection, r.action);
    plan := Some(Plan(s.directory, t.files, t.count, t.bytes, Fingerprint(header, t.items),
                      if r.action == Download then Some(Consent(header, s.nodes)) else None));
    PlanMeans(r, probe, plan.value);
  }

  // ----- What a plan is, file by file ----------------------------------------------------------------

  predicate Known(action: Action, path: string, size: Int64, a: Answer) {
    match action
    case Download => KnownForDownload(path, size, a)
    case Release => KnownForRelease(path, size, a)
    case Unknown => false
  }

  ghost predicate AllKnown(action: Action, nodes: seq<Node>, items: seq<Planned>)
    requires |items| <= |nodes|
  {
    forall k :: 0 <= k < |items| ==> Known(action, items[k].path, nodes[k].size, items[k].answer)
  }

  /** Every file fits on top of the bytes counted before it, below the largest 64-bit number. */
  ghost predicate AllFit(items: seq<Planned>) {
    items != [] ==>
      var before, a := items[..|items| - 1], items[|items| - 1].answer;
      AllFit(before) && a.size.Some? && SizesOf(before, false) + a.size.value <= 0x7FFF_FFFF_FFFF_FFFF
  }

  lemma {:induction false} FitsAt(items: seq<Planned>, k: nat)
    requires AllFit(items) && k < |items|
    ensures items[k].answer.size.Some?
    ensures SizesOf(items[..k], false) + items[k].answer.size.value <= 0x7FFF_FFFF_FFFF_FFFF
  {
    if k < |items| - 1 {
      FitsAt(items[..|items| - 1], k);
      assert items[..|items| - 1][..k] == items[..k];
    }
  }

  lemma KnownNext(action: Action, nodes: seq<Node>, items: seq<Planned>)
    requires 0 < |items| <= |nodes|
    ensures var n := |items| - 1;
            AllKnown(action, nodes, items) <==>
              AllKnown(action, nodes, items[..n]) && Known(action, items[n].path, nodes[n].size, items[n].answer)
  {
  }

  /** For a download only the total has to fit. */
  lemma {:induction false} DownloadIsSound(nodes: seq<Node>, items: seq<Planned>)
    requires |items| <= |nodes|
    ensures Sound(Download, nodes, items) <==>
              AllKnown(Download, nodes, items) && SizesOf(FilesOf(Download, items), true) <= 0x7FFF_FFFF_FFFF_FFFF
  {
    if items != [] {
      var before, last := items[..|items| - 1], items[|items| - 1];
      DownloadIsSound(nodes, before);
      RecognisedMeans(last.path, nodes[|items| - 1].size, last.answer);
      BytesAreSizes(FilesOf(Download, before));
      var files := FilesOf(Download, before);
      assert (files + [last])[..|files|] == files;
      KnownNext(Download, nodes, items);
    }
  }

  /** For a release every file has to fit on top of those counted before it, its own bytes counted or
      not. */
  lemma {:induction false} ReleaseIsSound(nodes: seq<Node>, items: seq<Planned>)
    requires |items| <= |nodes|
    ensures Sound(Release, nodes, items) <==> AllKnown(Release, nodes, items) && AllFit(items)
  {
    if items != [] {
      var n := |items| - 1;
      ReleaseIsSound(nodes, items[..n]);
      BytesAreSizes(items[..n]);
      ReleaseTakesAll(items[..n]);
      RecognisedMeans(items[n].path, nodes[n].size, items[n].answer);
      KnownNext(Release, nodes, items);
    }
  }

  /** The file that `x` stands for among the listed ones, with the answer to it. */
  ghost predicate IsItem(r: Request, probe: Probe, k: nat, x: Planned)
    requires k < |Listed(r)|
  {
    x.path == Listed(r)[k].path && AnswerTo(probe, PathsOf(Listed(r)), k) == Some(x.answer)
  }

  lemma ItemsMean(r: Request, probe: Probe)
    requires AnsweredWell(r.action, Listed(r), PathsOf(Listed(r)), probe)
    ensures |Items(r, probe)| == |Listed(r)|
    ensures forall k :: 0 <= k < |Listed(r)| ==> IsItem(r, probe, k, Items(r, probe)[k])
  {
    AnswersMean(probe, PathsOf(Listed(r)), 0);
  }

  /** An item for every listed file, in a known state. */
  ghost predicate CoversListed(r: Request, probe: Probe, items: seq<Planned>) {
    && |items| == |Listed(r)| && (forall k :: 0 <= k < |items| ==> IsItem(r, probe, k, items[k]))
    && AllKnown(r.action, Listed(r), items)
  }

  /** Of two files the one that comes first does so among the items. */
  ghost predicate InOrder(files: seq<Planned>, items: seq<Planned>) {
    forall i, k :: 0 <= i < k < |files| ==> ComeInTurn(items, files[i], files[k])
  }

  ghost predicate ComeInTurn(items: seq<Planned>, x: Planned, y: Planned) {
    exists a, b :: 0 <= a < b < |items| && items[a] == x && items[b] == y
  }

  lemma FilesAreInOrder(action: Action, items: seq<Planned>)
    ensures InOrder(FilesOf(action, items), items)
  {
    var files := FilesOf(action, items);
    forall i, k | 0 <= i < k < |files|
      ensures ComeInTurn(items, files[i], files[k])
    {
      var a, b := FilesInOrder(action, items, i, k);
    }
  }

  /** Of these the files with work, in order, their number, and the bytes of all of them, or of those
      not yet remote. */
  ghost predicate CountsFiles(action: Action, items: seq<Planned>, plan: Plan) {
    && (forall x :: x in plan.files <==>
          x in items && (action == Release || x.answer.partial || (x.answer.placeholder && !x.answer.local)))
    && InOrder(plan.files, items) && plan.count == |plan.files|
    && plan.bytes == SizesOf(plan.files, action == Download)
    && 0 <= plan.bytes <= 0x7FFF_FFFF_FFFF_FFFF
  }

  /** What was selected, and for a download every node of it. */
  ghost predicate NamesSelection(r: Request, plan: Plan) {
    && (plan.directory <==> r.selection == "." ||
                            exists k :: 0 <= k < |r.manifest| && r.manifest[k].path == r.selection &&
                                        r.manifest[k].kind == DirNode)
    && plan.fingerprint.header == Header(r.binding, r.selection, r.action)
    && (plan.consent.Some? <==> r.action == Download)
    && (plan.consent.Some? ==>
          && plan.consent.value.header == plan.fingerprint.header
          && forall n :: n in plan.consent.value.nodes <==>
               exists k :: 0 <= k < |r.manifest| && r.manifest[k] == n && Selects(r, k))
  }

  ghost predicate IsPlainPlan(r: Request, probe: Probe, plan: Plan) {
    && CoversListed(r, probe, plan.fingerprint.items) && CountsFiles(r.action, plan.fingerprint.items, plan)
    && NamesSelection(r, plan)
  }

  lemma SoundIsKnown(action: Action, nodes: seq<Node>, items: seq<Planned>)
    requires |items| <= |nodes| && Sound(action, nodes, items) && action != Unknown
    ensures AllKnown(action, nodes, items)
  {
    if action == Download {
      DownloadIsSound(nodes, items);
    } else {
      ReleaseIsSound(nodes, items);
    }
  }

  lemma FilesAreCounted(action: Action, nodes: seq<Node>, items: seq<Planned>, plan: Plan)
    requires action != Unknown && |items| <= |nodes| && Sound(action, nodes, items)
    requires plan.files == FilesOf(action, items) && plan.count == |plan.files|
    requires plan.bytes == BytesOf(action, plan.files)
    ensures CountsFiles(action, items, plan)
  {
    BytesFit(action, nodes, items);
    BytesAreSizes(plan.files);
    forall x
      ensures x in plan.files <==>
          x in items && (action == Release || x.answer.partial || (x.answer.placeholder && !x.answer.local))
    {
      FilesMean(action, items, x);
    }
    FilesAreInOrder(action, items);
  }

  lemma SelectionIsNamed(r: Request, plan: Plan)
    requires plan.directory == FindsDirectory(r, |r.manifest|)
    requires plan.fingerprint.header == Header(r.binding, r.selection, r.action)
    requires plan.consent ==
             if r.action == Download then Some(Consent(plan.fingerprint.header, ScopeTo(r, |r.manifest|))) else None
    ensures NamesSelection(r, plan)
  {
    forall n
      ensures n in ScopeTo(r, |r.manifest|) <==>
          exists k :: 0 <= k < |r.manifest| && r.manifest[k] == n && Selects(r, k)
    {
      ScopeMeans(r, |r.manifest|, n);
    }
  }

  lemma PlanMeans(r: Request, probe: Probe, plan: Plan)
    requires r.action != Unknown && AnsweredWell(r.action, Listed(r), PathsOf(Listed(r)), probe)
    requires PlanIs(r, probe, plan)
    ensures IsPlainPlan(r, probe, plan)
  {
    ItemsMean(r, probe);
    SoundIsKnown(r.action, Listed(r), Items(r, probe));
    FilesAreCounted(r.action, Listed(r), Items(r, probe), plan);
    SelectionIsNamed(r, plan);
  }

  /** Every listed file is answered in full and in a known state, and the bytes fit. */
  ghost predicate AnsweredPlainly(r: Request, probe: Probe) {
    var paths := PathsOf(Listed(r));
    (forall k :: 0 <= k < |paths| ==> AnswerTo(probe, paths, k).Some?) &&
    var items := seq(|paths|, k requires 0 <= k < |paths| && AnswerTo(probe, paths, k).Some? =>
      Planned(paths[k], AnswerTo(probe, paths, k).value));
    && AllKnown(r.action, Listed(r), items)
    && if r.action == Download then SizesOf(FilesOf(Download, items), true) <= 0x7FFF_FFFF_FFFF_FFFF
       else AllFit(items)
  }

  lemma AnsweredMeans(r: Request, probe: Probe)
    requires r.action != Unknown
    ensures AnsweredWell(r.action, Listed(r), PathsOf(Listed(r)), probe) <==> AnsweredPlainly(r, probe)
  {
    var paths, nodes := PathsOf(Listed(r)), Listed(r);
    AnswersMean(probe, paths, 0);
    var answers := AnswersFrom(probe, paths, 0);
    if answers.Some? {
      var items := Zip(paths, answers.value);
      assert items == seq(|paths|, k requires 0 <= k < |paths| && AnswerTo(probe, paths, k).Some? =>
        Planned(paths[k], AnswerTo(probe, paths, k).value));
      DownloadIsSound(nodes, items);
      ReleaseIsSound(nodes, items);
    }
  }

  /** When there is a plan, condition by condition. */
  lemma PlannableMeans(r: Request, fold: string -> string, probe: Probe)
    ensures Plannable(r, fold, probe) <==>
      && (r.action == Download || r.action == Release)
      && (r.selection == "." ||
          (SafePath(r.selection) && exists k :: 0 <= k < |r.manifest| && r.manifest[k].path == r.selection))
      && ScopeIsFine(r, fold, |r.manifest|)
      && (r.snapshot.Some? ==> forall p :: p in r.snapshot.value ==>
            exists k :: 0 <= k < |r.manifest| && r.manifest[k].path == p && SelectsFile(r, k))
      && AnsweredPlainly(r, probe)
  {
    if r.action != Unknown {
      AnsweredMeans(r, probe);
    }
    if r.snapshot.Some? {
      SnapshotMeans(r);
    }
  }

  lemma SnapshotMeans(r: Request)
    requires r.snapshot.Some?
    ensures SetOf(PathsOf(Listed(r))) == SetOf(r.snapshot.value) <==>
              forall p :: p in r.snapshot.value ==>
                exists k :: 0 <= k < |r.manifest| && r.manifest[k].path == p && SelectsFile(r, k)
  {
    var paths := PathsOf(Listed(r));
    forall p
      ensures p in paths <==> exists k :: 0 <= k < |r.manifest| && r.manifest[k].path == p && SelectsFile(r, k)
    {
      if p in paths {
        var a :| 0 <= a < |paths| && paths[a] == p;
        ListedMeans(r, Listed(r)[a]);
      }
      if k: nat :| k < |r.manifest| && r.manifest[k].path == p && SelectsFile(r, k) {
        ListedMeans(r, r.manifest[k]);
        var a :| 0 <= a < |Listed(r)| && Listed(r)[a] == r.manifest[k];
        assert paths[a] == p;
      }
    }
    assert forall p :: p in paths ==> p in r.snapshot.value;
    assert SetOf(paths) == SetOf(r.snapshot.value) <==> forall p :: p in r.snapshot.value ==> p in paths by {
      assert forall p :: p in SetOf(paths) <==> p in paths;
      assert forall p :: p in SetOf(r.snapshot.value) <==> p in r.snapshot.value;
    }
  }

  // ----- What a fingerprint binds ------------------------------------------------------------------

  /** Two plans with the same fingerprint are for the same binding, selection and action, and have the
      same files in the same states, whatever manifests and answers they came from. */
  lemma FingerprintBinds(r: Request, probe: Probe, p: Plan, r': Request, probe': Probe, p': Plan,
                         fold: string -> string)
    requires Plannable(r, fold, probe) && PlanIs(r, probe, p) && Plannable(r', fold, probe') && PlanIs(r', probe', p')
    requires p.fingerprint == p'.fingerprint
    ensures r.binding == r'.binding && r.selection == r'.selection && r.action == r'.action
    ensures PathsOf(Listed(r)) == PathsOf(Listed(r'))
    ensures p.files == p'.files && p.count == p'.count && p.bytes == p'.bytes
  {
    var items, items' := Items(r, probe), Items(r', probe');
    var paths, paths' := PathsOf(Listed(r)), PathsOf(Listed(r'));
    assert |paths| == |items| == |items'| == |paths'|;
    forall k | 0 <= k < |paths|
      ensures paths[k] == paths'[k]
    {
      assert items[k].path == paths[k] && items'[k].path == paths'[k];
    }
  }

  /** Two download plans with the same consent cover the same subtree of the manifest, node by node,
      and list the same files. */
  lemma {:induction false} ConsentBinds(r: Request, probe: Probe, p: Plan, r': Request, probe': Probe, p': Plan,
                                        fold: string -> string)
    requires Plannable(r, fold, probe) && PlanIs(r, probe, p) && Plannable(r', fold, probe') && PlanIs(r', probe', p')
    requires p.consent.Some? && p.consent == p'.consent && r.snapshot == r'.snapshot
    ensures r.binding == r'.binding && r.selection == r'.selection && r.action == r'.action == Download
    ensures Listed(r) == Listed(r')
  {
    ListedInScope(r, |r.manifest|);
    ListedInScope(r', |r'.manifest|);
    SameKept(r, r', ScopeTo(r, |r.manifest|));
  }

  /** The listed ones among some nodes. */
  ghost function Kept(r: Request, nodes: seq<Node>): seq<Node> {
    if nodes == [] then []
    else Kept(r, nodes[..|nodes| - 1]) + if IsListed(r, nodes[|nodes| - 1]) then [nodes[|nodes| - 1]] else []
  }

  lemma {:induction false} ListedInScope(r: Request, i: nat)
    requires i <= |r.manifest|
    ensures ListedTo(r, i) == Kept(r, ScopeTo(r, i))
  {
    if i > 0 {
      ListedInScope(r, i - 1);
      var before, n := ScopeTo(r, i - 1), r.manifest[i - 1];
      if InScope(r, n) {
        assert (before + [n])[..|before|] == before;
      } else {
        assert before + [] == before;
      }
    }
  }

  lemma {:induction false} SameKept(r: Request, r': Request, nodes: seq<Node>)
    requires r.selection == r'.selection && r.snapshot == r'.snapshot
    ensures Kept(r, nodes) == Kept(r', nodes)
  {
    if nodes != [] {
      SameKept(r, r', nodes[..|nodes| - 1]);
    }
  }

  // ----- Planning a release again --------------------------------------------------------------------

  ghost function PathsIn(files: seq<Planned>): seq<string> {
    seq(|files|, i requires 0 <= i < |files| => files[i].path)
  }

  lemma {:induction false} ReleaseTakesAll(items: seq<Planned>)
    ensures FilesOf(Release, items) == items
  {
    if items != [] {
      ReleaseTakesAll(items[..|items| - 1]);
    }
  }

  /** A release plan holds every listed file. */
  lemma ReleasePaths(r: Request, fold: string -> string, probe: Probe, plan: Plan)
    requires r.action == Release && Plannable(r, fold, probe) && PlanIs(r, probe, plan)
    ensures PathsIn(plan.files) == PathsOf(Listed(r))
  {
    ReleaseTakesAll(Items(r, probe));
  }

  /** The copy of a stored path list that planning again receives: an empty list arrives as none. */
  function Copied(stored: seq<string>): Option<seq<string>> {
    if stored == [] then None else Some(stored)
  }

  /** Whatever the repository holds by then, planning a release again from stored paths succeeds only
      for exactly the stored files; the one exception is an empty stored list, from which everything
      is planned. */
  lemma ReplanKeepsMembership(r: Request, fold: string -> string, probe: Probe, plan: Plan, stored: seq<string>)
    requires r.action == Release && r.snapshot == Copied(stored) && Plannable(r, fold, probe) && PlanIs(r, probe, plan)
    ensures SetOf(PathsIn(plan.files)) == SetOf(stored) <==> (stored != [] || plan.files == [])
  {
    ReleasePaths(r, fold, probe, plan);
    if stored == [] && plan.files != [] {
      assert PathsIn(plan.files)[0] in SetOf(PathsIn(plan.files));
    }
  }

  lemma {:induction false} SnapshotChangesNothing(r: Request, r': Request, i: nat)
    requires i <= |r.manifest| && r' == r.(snapshot := r'.snapshot) && r.snapshot.None? && r'.snapshot.Some?
    requires forall n :: n in ListedTo(r, i) ==> n.path in r'.snapshot.value
    ensures ListedTo(r', i) == ListedTo(r, i)
  {
    if i > 0 {
      assert forall n :: n in ListedTo(r, i - 1) ==> n in ListedTo(r, i);
      SnapshotChangesNothing(r, r', i - 1);
      var n := r.manifest[i - 1];
      if IsListed(r, n) {
        assert ListedTo(r, i)[|ListedTo(r, i - 1)|] == n;
      }
    }
  }

  lemma {:induction false} SnapshotKeepsScope(r: Request, r': Request, i: nat)
    requires i <= |r.manifest| && r' == r.(snapshot := r'.snapshot)
    ensures ScopeTo(r', i) == ScopeTo(r, i)
  {
    if i > 0 {
      SnapshotKeepsScope(r, r', i - 1);
    }
  }

  /** A snapshot of all listed files changes neither the scope nor what is listed. */
  lemma SnapshotIsNeutral(r: Request, r': Request, fold: string -> string)
    requires r' == r.(snapshot := r'.snapshot) && r.snapshot.None? && r'.snapshot == Some(PathsOf(Listed(r)))
    requires ScopeIsFine(r, fold, |r.manifest|)
    ensures Listed(r') == Listed(r) && ScopeTo(r', |r'.manifest|) == ScopeTo(r, |r.manifest|)
    ensures ScopeIsFine(r', fold, |r'.manifest|)
  {
    forall node | node in Listed(r)
      ensures node.path in r'.snapshot.value
    {
      var k :| 0 <= k < |Listed(r)| && Listed(r)[k] == node;
      assert PathsOf(Listed(r))[k] == node.path;
    }
    SnapshotChangesNothing(r, r', |r.manifest|);
    SnapshotKeepsScope(r, r', |r.manifest|);
  }

  /** Nothing having changed, planning a release again from the paths of its plan gives the same plan. */
  lemma ReplanIsStable(r: Request, fold: string -> string, probe: Probe, plan: Plan)
    requires r.action == Release && r.snapshot.None? && Plannable(r, fold, probe) && PlanIs(r, probe, plan)
    ensures var r' := r.(snapshot := Some(PathsIn(plan.files))); Plannable(r', fold, probe) && PlanIs(r', probe, plan)
  {
    ReleasePaths(r, fold, probe, plan);
    SnapshotIsNeutral(r, r.(snapshot := Some(PathsIn(plan.files))), fold);
  }

  // ----- The size of a stored plan ---------------------------------------------------------------------

  function BytesIn(paths: seq<string>): nat {
    if paths == [] then 0 else BytesIn(paths[..|paths| - 1]) + ByteLength(paths[|paths| - 1])
  }

  lemma {:induction false} PathsWeigh(nodes: seq<Node>)
    ensures BytesIn(PathsOf(nodes)) == PathBytes(nodes)
  {
    if nodes != [] {
      PathsWeigh(nodes[..|nodes| - 1]);
      assert PathsOf(nodes)[..|nodes| - 1] == PathsOf(nodes[..|nodes| - 1]);
    }
  }

  lemma {:induction false} KeptWeighsLess(r: Request, nodes: seq<Node>)
    ensures PathBytes(Kept(r, nodes)) <= PathBytes(nodes)
  {
    if nodes != [] {
      var before, last := nodes[..|nodes| - 1], nodes[|nodes| - 1];
      KeptWeighsLess(r, before);
      if IsListed(r, last) {
        assert (Kept(r, before) + [last])[..|Kept(r, before)|] == Kept(r, before);
      } else {
        assert Kept(r, before) + [] == Kept(r, before);
      }
    }
  }

  /** The paths of a release plan never take more than the limit. */
  lemma PlanIsLight(r: Request, fold: string -> string, probe: Probe, plan: Plan)
    requires r.action == Release && Plannable(r, fold, probe) && PlanIs(r, probe, plan)
    ensures BytesIn(PathsIn(plan.files)) <= MAX_PATH_BYTES
  {
    ReleasePaths(r, fold, probe, plan);
    PathsWeigh(Listed(r));
    ListedInScope(r, |r.manifest|);
    KeptWeighsLess(r, ScopeTo(r, |r.manifest|));
  }
}
