/** Installing a command-line release: the anti-rollback watermark, the manual pages and the binary,
    interrupted anywhere and tried again (cmd/filees-client/update.go, internal/clientupdate/state.go).
    Every write is one atomic durable replacement or nothing. */
module CliUpdate {
  import opened Basics

  datatype Target = Readme | Manual | Binary
  const ORDER := [Readme, Manual, Binary]

  /** A signed release: its envelope, its version and the three files of its archive. */
  datatype Release = Release(epoch: nat, sequence: nat, id: string, version: string, payload: map<Target, string>)

  /** The saved state; an empty id is one never recorded. */
  datatype Watermark = Watermark(epoch: nat, sequence: nat, id: string, installed: string)

  const INITIAL := Watermark(0, 0, "", "")

  /** `State.Check`. */
  predicate Admits(w: Watermark, r: Release) {
    && r.epoch >= w.epoch && r.sequence >= w.sequence
    && !(r.sequence == w.sequence && w.id != "" && r.id != w.id)
  }

  /** `State.Advance`. */
  function Advance(w: Watermark, r: Release, installed: string): (next: Option<Watermark>)
    ensures next.Some? <==> Admits(w, r)
    ensures next.Some? ==>
              && next.value.sequence == r.sequence && next.value.epoch == r.epoch && next.value.installed == installed
              && Admits(next.value, r)
  {
    if !Admits(w, r) then None
    else
      Some(Watermark(r.epoch, r.sequence, if r.sequence > w.sequence then r.id else w.id, installed))
  }

  /** The sequence of the release a file came from; older than any when there is no file. */
  ghost function Age(from: map<Target, Release>, t: Target): int {
    if t in from then from[t].sequence else -1
  }

  /** The binary is never newer than the manual, the manual never newer than the README, and the
      README never newer than the watermark. */
  ghost predicate Layered(w: Watermark, from: map<Target, Release>) {
    Age(from, Binary) <= Age(from, Manual) <= Age(from, Readme) <= w.sequence
  }

  /** Each file is what its release ships. */
  ghost predicate Shipped(files: map<Target, string>, from: map<Target, Release>) {
    && files.Keys == from.Keys
    && forall t :: t in files ==> t in from[t].payload && files[t] == from[t].payload[t]
  }

  /** Every saved sequence was saved under one release id, and files of that sequence carry it. */
  ghost predicate Recorded(w: Watermark, from: map<Target, Release>, ids: map<nat, string>) {
    && (forall k :: k in ids ==> 0 < k <= w.sequence)
    && (if w.sequence > 0 then w.sequence in ids && ids[w.sequence] == w.id != "" else w.id == "")
    && forall t :: t in from ==> from[t].sequence in ids && ids[from[t].sequence] == from[t].id
  }

  /** What parsing its envelope and its archive has established of a release. */
  predicate IsComplete(r: Release) {
    r.id != "" && r.sequence > 0 && r.epoch > 0 && r.payload.Keys == {Readme, Manual, Binary}
  }

  /** Where the files come from once the first `i` of the order are replaced. */
  ghost function Replaced(r: Release, before: map<Target, Release>, i: nat): map<Target, Release>
    requires i <= |ORDER|
  {
    if i == 0 then before else Replaced(r, before, i - 1)[ORDER[i - 1] := r]
  }

  /** Replacing in order keeps the layers, for a release at the watermark. */
  lemma ReplacingKeepsLayers(w: Watermark, r: Release, before: map<Target, Release>, i: nat)
    requires i <= |ORDER| && Layered(w, before) && r.sequence == w.sequence
    ensures Layered(w, Replaced(r, before, i))
    ensures i < 3 ==> (Binary in Replaced(r, before, i) <==> Binary in before)
  {
    if i > 0 {
      ReplacingKeepsLayers(w, r, before, i - 1);
      assert i > 1 ==> Replaced(r, before, 1)[Readme] == r;
      assert i > 2 ==> Replaced(r, before, 2)[Manual] == r && Replaced(r, before, 2)[Readme] == r;
    }
  }

  lemma ReplacingKeepsRecords(w: Watermark, r: Release, before: map<Target, Release>, ids: map<nat, string>, i: nat)
    requires i < |ORDER| && Layered(w, before) && Recorded(w, Replaced(r, before, i), ids)
    requires r.sequence == w.sequence && r.id == w.id && IsComplete(r)
    ensures Layered(w, Replaced(r, before, i + 1)) && Recorded(w, Replaced(r, before, i + 1), ids)
    ensures Replaced(r, before, i + 1) == Replaced(r, before, i)[ORDER[i] := r]
  {
    ReplacingKeepsLayers(w, r, before, i + 1);
  }

  lemma ReplacedAll(r: Release, before: map<Target, Release>)
    ensures Replaced(r, before, 3) == map[Readme := r, Manual := r, Binary := r]
  {
    assert Replaced(r, before, 1) == before[Readme := r];
    assert Replaced(r, before, 2) == before[Readme := r][Manual := r];
    assert Replaced(r, before, 3) == before[Readme := r][Manual := r][Binary := r];
    forall t
      ensures t in map[Readme := r, Manual := r, Binary := r]
    {
      match t
      case Readme =>
      case Manual =>
      case Binary =>
    }
  }

  // ----- The writes of an installation ------------------------------------------------------

  datatype Disk = Disk(state: Watermark, files: map<Target, string>, previous: Option<string>)

  /** One durable write; `KeepBinary` copies the binary that is about to be replaced. */
  datatype Write = SaveState(next: Watermark) | KeepBinary | Put(target: Target, data: string)

  function Written(d: Disk, w: Write): Disk {
    match w
    case SaveState(next) => d.(state := next)
    case KeepBinary => if Binary in d.files then d.(previous := Some(d.files[Binary])) else d
    case Put(t, data) => d.(files := d.files[t := data])
  }

  /** The disk once the first `n` of the writes are made. */
  function After(d: Disk, ws: seq<Write>, n: nat): Disk
    requires n <= |ws|
  {
    if n == 0 then d else Written(After(d, ws, n - 1), ws[n - 1])
  }

  function WritesFor(t: Target, r: Release, files: map<Target, string>): (ws: seq<Write>)
    requires t in r.payload
    ensures 1 <= |ws| <= 2 && (t != Binary ==> |ws| == 1)
  {
    if t == Binary && t in files && files[t] != r.payload[t] then [KeepBinary, Put(t, r.payload[t])]
    else [Put(t, r.payload[t])]
  }

  /** The watermark first, so that no older release is admitted from then on; the files; and the
      installed version last. */
  function InstallWrites(d: Disk, r: Release): (ws: seq<Write>)
    requires IsComplete(r) && Admits(d.state, r)
    ensures IsInstall(ws, r, d.files)
  {
    var first := Advance(d.state, r, d.state.installed).value;
    [SaveState(first), Put(Readme, r.payload[Readme]), Put(Manual, r.payload[Manual])]
    + WritesFor(Binary, r, d.files) + [SaveState(Advance(first, r, Trim(r.version)).value)]
  }

  /** Between two writes of the watermark those for each file, in order. */
  predicate IsInstall(ws: seq<Write>, r: Release, files: map<Target, string>)
    requires IsComplete(r)
  {
    && |ws| == 4 + |WritesFor(Binary, r, files)| && ws[0].SaveState? && ws[|ws| - 1].SaveState?
    && Continues(ws, 1, WritesFor(Readme, r, files)) && Continues(ws, 2, WritesFor(Manual, r, files))
    && Continues(ws, 3, WritesFor(Binary, r, files))
  }

  predicate Continues(ws: seq<Write>, k: nat, next: seq<Write>)
    requires 1 <= |next| <= 2
  {
    k + |next| <= |ws| && ws[k] == next[0] && (|next| == 2 ==> ws[k + 1] == next[1])
  }

  /** How many writes are behind an installation that has done the first `i` targets. */
  function Position(ws: seq<Write>, i: nat): (n: nat)
    requires |ws| >= 5
  {
    if i < |ORDER| then 1 + i else |ws| - 1
  }

  function Least(a: nat, b: nat): nat {
    if a < b then a else b
  }

  class Machine {
    var state: Watermark
    var files: map<Target, string>
    var previous: Option<string>
    /** The release each file came from, and the id each sequence was first saved with. */
    ghost var from: map<Target, Release>
    ghost var ids: map<nat, string>

    ghost predicate Valid()
      reads this
    {
      Layered(state, from) && Shipped(files, from) && Recorded(state, from, ids)
    }

    constructor ()
      ensures Valid() && state == INITIAL && files == map[] && previous == None
    {
      state, files, previous := INITIAL, map[], None;
      from, ids := map[], map[];
    }

    /** Save the watermark of an admitted release. */
    method Save(next: Watermark, ghost r: Release)
      requires Valid() && IsComplete(r) && Admits(state, r) && Advance(state, r, next.installed) == Some(next)
      modifies this`state, this`ids
      ensures Valid() && state == next && from == old(from) && state.id == r.id
    {
      if r.sequence > state.sequence {
        ids := ids[r.sequence := r.id];
      }
      state := next;
    }

    function View(): Disk
      reads this
    {
      Disk(state, files, previous)
    }

    /** Put one file in place; the binary it replaces is kept first when it differs.  `k` writes of
        the installation were made before, `n` are after; false when stopped at the last of `steps`
        before the file is in place. */
    method Replace(t: Target, r: Release, k: nat, steps: nat, ghost d: Disk, ghost ws: seq<Write>)
      returns (ok: bool, n: nat)
      requires Shipped(files, from) && IsComplete(r) && k <= steps
      requires Continues(ws, k, WritesFor(t, r, files)) && View() == After(d, ws, k)
      modifies this`files, this`from, this`previous
      ensures Shipped(files, from) && from == if ok then old(from)[t := r] else old(from)
      ensures var end := k + |WritesFor(t, r, old(files))|;
              (ok <==> end <= steps) && n == Least(steps, end) && View() == After(d, ws, n)
    {
      n := k;
      var data := r.payload[t];
      if t == Binary && t in files && files[t] != data {
        if n == steps {
          return false, n;
        }
        previous, n := Some(files[t]), n + 1;
        assert View() == After(d, ws, n);
      }
      if n == steps {
        return false, n;
      }
      files, from, n := files[t := data], from[t := r], n + 1;
      ok := true;
    }

    /** The binary that was there is there still, or kept aside. */
    ghost predicate Keeps(before: map<Target, string>)
      reads this
    {
      Binary in before ==> (Binary in files && files[Binary] == before[Binary]) || previous == Some(before[Binary])
    }

    /** One round of the loop over the targets. */
    method ReplaceNext(r: Release, i: nat, k: nat, steps: nat, ghost before: map<Target, Release>, ghost d: Disk,
                       ghost ws: seq<Write>)
      returns (ok: bool, n: nat)
      requires Valid() && IsComplete(r) && r.sequence == state.sequence && state.id == r.id
      requires i < |ORDER| && from == Replaced(r, before, i) && Layered(state, before) && k <= steps
      requires Continues(ws, k, WritesFor(ORDER[i], r, files)) && View() == After(d, ws, k)
      modifies this`files, this`from, this`previous
      ensures Valid() && (ok ==> from == Replaced(r, before, i + 1))
      ensures var end := k + |WritesFor(ORDER[i], r, old(files))|;
              (ok <==> end <= steps) && n == Least(steps, end) && View() == After(d, ws, n)
    {
      ReplacingKeepsRecords(state, r, before, ids, i);
      ok, n := Replace(ORDER[i], r, k, steps, d, ws);
    }

    /** The loop over the three targets. */
    method ReplaceAll(r: Release, steps: nat, ghost d: Disk, ghost ws: seq<Write>) returns (ok: bool, n: nat)
      requires Valid() && IsComplete(r) && r.sequence == state.sequence && state.id == r.id && 0 < steps
      requires IsInstall(ws, r, d.files) && View() == After(d, ws, 1)
      modifies this`files, this`from, this`previous
      ensures Valid() && (ok ==> from == Replaced(r, old(from), 3))
      ensures (ok <==> |ws| - 1 <= steps) && n == Least(steps, |ws| - 1) && View() == After(d, ws, n)
    {
      n := 1;
      for i := 0 to |ORDER|
        invariant Valid() && from == Replaced(r, old(from), i)
        invariant n == Position(ws, i) <= steps && View() == After(d, ws, n)
      {
        BinaryWaits(d, ws, r, i);
        ok, n := ReplaceNext(r, i, n, steps, old(from), d, ws);
        if !ok {
          return;
        }
      }
      ok := true;
    }

    /** The first watermark and the files. */
    method InstallFiles(r: Release, first: Watermark, steps: nat, ghost ws: seq<Write>) returns (ok: bool, n: nat)
      requires Valid() && IsComplete(r) && IsInstall(ws, r, files)
      requires Advance(state, r, first.installed) == Some(first) && ws[0] == SaveState(first)
      modifies this
      ensures (ok <==> |ws| - 1 <= steps) && n == Least(steps, |ws| - 1) && View() == After(old(View()), ws, n)
      ensures Valid() && (ok ==> from == Replaced(r, old(from), 3) && state == first)
    {
      if steps == 0 {
        return false, 0;
      }
      ghost var d := View();
      Save(first, r);
      ok, n := ReplaceAll(r, steps, d, ws);
    }

    /** What follows once the release is admitted and wanted. */
    method InstallAdmitted(r: Release, first: Watermark, last: Watermark, steps: nat, ghost ws: seq<Write>)
      returns (done: bool)
      requires Valid() && IsComplete(r) && IsInstall(ws, r, files)
      requires Advance(state, r, first.installed) == Some(first) && ws[0] == SaveState(first)
      requires Advance(first, r, last.installed) == Some(last) && ws[|ws| - 1] == SaveState(last)
      modifies this
      ensures done <==> |ws| <= steps
      ensures View() == After(old(View()), ws, Least(steps, |ws|))
      ensures Valid() && (done ==> from == Replaced(r, old(from), 3))
    {
      var ok, n := InstallFiles(r, first, steps, ws);
      done := ok && n < steps;
      if done {
        Save(last, r);
      }
    }

    /** The decision, and the writes of an installation that was decided for. */
    method Attempt(r: Release, minimum: nat, check: bool, steps: nat) returns (done: bool)
      requires Valid() && IsComplete(r)
      modifies this
      ensures if !Admits(old(state), r) || r.sequence < minimum then !done && View() == old(View())
              else if check then done && View() == old(View())
              else
                var ws := InstallWrites(old(View()), r);
                (done <==> |ws| <= steps) && View() == After(old(View()), ws, Least(steps, |ws|))
      ensures Valid() && (done && !check ==> from == map[Readme := r, Manual := r, Binary := r] && files == r.payload)
    {
      if !Admits(state, r) || r.sequence < minimum {
        return false;
      }
      if check {
        return true;
      }
      var first := Advance(state, r, state.installed).value;
      done :=
        InstallAdmitted(r, first, Advance(first, r, Trim(r.version)).value, steps, InstallWrites(View(), r));
      ReplacedAll(r, old(from));
    }

    /** `cliUpdater.run` for a verified release; it is stopped, by a failure or the end of the
        process, after `steps` of its writes. */
    method Install(r: Release, minimum: nat, check: bool, steps: nat) returns (done: bool)
      requires Valid() && IsComplete(r)
      modifies this
      ensures Valid() && state.sequence >= old(state.sequence) && state.epoch >= old(state.epoch) && Keeps(old(files))
      ensures if Refused(old(state), r) || r.sequence < minimum then !done && View() == old(View())
              else if check then done && View() == old(View())
              else
                && Admits(old(state), r)
                && var ws := InstallWrites(old(View()), r);
                   (done <==> |ws| <= steps) && View() == After(old(View()), ws, Least(steps, |ws|))
      ensures !Refused(old(state), r) ==> !Refused(state, r) && (r.sequence >= minimum && steps >= 6 ==> done)
      ensures done && !check ==>
                && state.sequence == r.sequence && state.epoch == r.epoch && state.installed == Trim(r.version)
                && from == map[Readme := r, Manual := r, Binary := r] && files == r.payload
      ensures !done ==> state.installed == old(state.installed)
    {
      ghost var d := View();
      RefusedMeans(state, r);
      done := Attempt(r, minimum, check, steps);
      if Admits(d.state, r) {
        ghost var ws := InstallWrites(d, r);
        StateAfter(d, r, Least(steps, |ws|));
        BinaryAfter(d, ws, r, Least(steps, |ws|));
      }
      RefusedMeans(state, r);
    }
  }

  /** An older security epoch, an older sequence, or another release at the same one. */
  predicate Refused(w: Watermark, r: Release) {
    r.epoch < w.epoch || r.sequence < w.sequence || (r.sequence == w.sequence && w.id != "" && r.id != w.id)
  }

  lemma RefusedMeans(w: Watermark, r: Release)
    ensures Refused(w, r) <==> !Admits(w, r)
  {
  }

  ghost predicate SameBinary(d: Disk, e: Disk) {
    (Binary in e.files <==> Binary in d.files) && (Binary in d.files ==> e.files[Binary] == d.files[Binary])
  }

  /** Until its turn the binary is the one that was there. */
  lemma BinaryWaits(d: Disk, ws: seq<Write>, r: Release, i: nat)
    requires IsComplete(r) && IsInstall(ws, r, d.files) && i < |ORDER|
    ensures SameBinary(d, After(d, ws, 1 + i))
    ensures WritesFor(ORDER[i], r, After(d, ws, 1 + i).files) == WritesFor(ORDER[i], r, d.files)
    ensures Continues(ws, 1 + i, WritesFor(ORDER[i], r, d.files))
    ensures Position(ws, i) == 1 + i && Position(ws, i + 1) == 1 + i + |WritesFor(ORDER[i], r, d.files)|
  {
    if i > 0 {
      BinaryWaits(d, ws, r, i - 1);
    }
  }

  /** After any number of the writes the former binary is there or kept aside. */
  lemma BinaryAfter(d: Disk, ws: seq<Write>, r: Release, n: nat)
    requires IsComplete(r) && IsInstall(ws, r, d.files) && n <= |ws|
    ensures SameBinary(d, After(d, ws, n)) || Binary !in d.files || After(d, ws, n).previous == Some(d.files[Binary])
  {
    if 0 < n <= 3 {
      BinaryWaits(d, ws, r, n - 1);
    } else if n > 3 {
      BinaryWaits(d, ws, r, 2);
      var kept := After(d, ws, 4);
      assert n > 4 ==> After(d, ws, 5) == Written(kept, ws[4]);
    }
  }

  /** Between its two writes the watermark is that of the first. */
  lemma {:induction false} StateWaits(d: Disk, ws: seq<Write>, r: Release, n: nat)
    requires IsComplete(r) && IsInstall(ws, r, d.files) && 0 < n < |ws|
    ensures After(d, ws, n).state == ws[0].next
  {
    if n > 1 {
      StateWaits(d, ws, r, n - 1);
    }
  }

  /** After any number of the writes the watermark has moved up or not at all, and admits the
      release. */
  lemma StateAfter(d: Disk, r: Release, n: nat)
    requires IsComplete(r) && Admits(d.state, r) && n <= |InstallWrites(d, r)|
    ensures var w := After(d, InstallWrites(d, r), n).state;
            Admits(w, r) && w.sequence >= d.state.sequence && w.epoch >= d.state.epoch
    ensures After(d, InstallWrites(d, r), n).state.installed ==
              if n < |InstallWrites(d, r)| then d.state.installed else Trim(r.version)
  {
    var ws := InstallWrites(d, r);
    if 0 < n < |ws| {
      StateWaits(d, ws, r, n);
    }
  }

  // ----- One release id for each sequence ---------------------------------------------------

  /** Files of one sequence carry one release id, whatever was interrupted in between. */
  lemma SameSequenceSameId(w: Watermark, from: map<Target, Release>, ids: map<nat, string>, t: Target, u: Target)
    requires Recorded(w, from, ids) && t in from && u in from && from[t].sequence == from[u].sequence
    ensures from[t].id == from[u].id
  {
    assert from[t].sequence in ids;
  }

  /** At the watermark's own sequence nothing but the recorded release id is admitted, and that one
      unless its security epoch is older. */
  lemma ForkIsRefused(w: Watermark, from: map<Target, Release>, ids: map<nat, string>, r: Release)
    requires Recorded(w, from, ids) && IsComplete(r) && r.sequence == w.sequence
    ensures Admits(w, r) <==> r.id == w.id && r.epoch >= w.epoch
  {
  }
}
