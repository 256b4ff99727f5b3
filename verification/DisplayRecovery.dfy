/** Restarting a lost display: when it counts as lost, and the durable budget that keeps restarts
    from looping (cmd/filees-gui-wails/display_health.go).  Times are in seconds. */
module DisplayRecovery {
  import opened Basics

  const GRACE := 20
  const WINDOW := 15 * 60

  // ----- The budget ------------------------------------------------------------------------------

  /** The file: no budget, one that cannot be read, or a start (none for the zero time) with its count. */
  datatype Stored = Missing | Unreadable | Budget(started: Option<int>, attempts: int)

  /** A granted restart: the clock reading, the window it was charged to, and its number there. */
  datatype Grant = Grant(at: int, started: int, number: int)

  /** Which part of the file work fails, if any. */
  datatype Io = Works | ReadFails | WriteFails

  /** The next grant falls into the window of the last as its second, or opens a window of its own
      once that one is over. */
  predicate MayFollow(a: Grant, b: Grant) {
    if b.number == 1 then b.started >= a.started + WINDOW
    else a.number == 1 && b.started == a.started
  }

  predicate Proper(g: Grant) {
    && g.started <= g.at < g.started + WINDOW && 1 <= g.number <= 2
    && (g.number == 1 ==> g.at == g.started)
  }

  ghost predicate Spaced(grants: seq<Grant>) {
    && (forall i :: 0 <= i < |grants| ==> Proper(grants[i]))
    && (forall i :: 0 < i < |grants| ==> MayFollow(grants[i - 1], grants[i]))
  }

  /** Whether a restart may be granted: nothing recorded, or a sound record that does not lie in the
      future and is not used up. */
  predicate IsOpen(file: Stored, now: int) {
    || file == Missing
    || (file.Budget? && file.started.Some? && 1 <= file.attempts <= 2 && file.started.value <= now &&
        (file.attempts == 1 || now >= file.started.value + WINDOW))
  }

  /** The window a restart is charged to: the recorded one while it lasts, else a new one. */
  function Charged(file: Stored, now: int): Grant
    requires IsOpen(file, now)
  {
    if file != Missing && now < file.started.value + WINDOW then Grant(now, file.started.value, file.attempts + 1)
    else Grant(now, now, 1)
  }

  class RecoveryFile {
    var file: Stored
    ghost var grants: seq<Grant>

    /** After a grant the file records it, or has become unreadable since. */
    ghost predicate Valid()
      reads this
    {
      && Spaced(grants)
      && (grants != [] ==>
            var g := grants[|grants| - 1]; file == Unreadable || file == Budget(Some(g.started), g.number))
    }

    constructor (found: Stored)
      ensures Valid() && file == found && grants == []
    {
      file, grants := found, [];
    }

    /** `displayRecoveryAvailable`. */
    method Available(now: int, io: Io) returns (budget: Option<(int, int)>)
      ensures budget.Some? <==> io != ReadFails && IsOpen(file, now)
      ensures budget.Some? ==>
                var (started, attempts) := budget.value;
                if attempts == 0 then
                  && started == now
                  && (file == Missing || (file.Budget? && file.started.Some? && now >= file.started.value + WINDOW))
                else attempts == 1 && file == Budget(Some(started), 1) && started <= now < started + WINDOW
    {
      if io == ReadFails {
        return None;
      }
      var started, attempts := None, 0;
      if file != Missing {
        if file == Unreadable || file.started.None? || file.attempts < 1 || file.attempts > 2 {
          return None;
        }
        started, attempts := file.started, file.attempts;
        if now < started.value {
          return None;
        }
      }
      if started.None? || now - started.value >= WINDOW {
        started, attempts := Some(now), 0;
      }
      if attempts >= 2 {
        return None;
      }
      budget := Some((started.value, attempts));
    }

    /** `takeDisplayRecovery`: the incremented budget is on disk before the restart is granted. */
    method Take(now: int, io: Io) returns (granted: bool)
      requires Valid()
      modifies this
      ensures Valid() && (granted <==> io == Works && IsOpen(old(file), now))
      ensures granted <==>
                && io == Works && old(file) != Unreadable
                && (old(file).Budget? ==>
                      && old(file).started.Some? && old(file).started.value <= now
                      && (old(file).attempts == 1 || (old(file).attempts == 2 && now - old(file).started.value >= 900)))
      ensures granted ==>
                file == if old(file).Budget? && now - old(file).started.value < 900 then old(file).(attempts := 2)
                        else Budget(Some(now), 1)
      ensures !granted ==> file == old(file) && grants == old(grants)
      ensures granted ==>
                var g := Charged(old(file), now);
                  grants == old(grants) + [g] && file == Budget(Some(g.started), g.number)
    {
      var budget := Available(now, io);
      if budget.None? || io == WriteFails {
        return false;
      }
      var (started, attempts) := budget.value;
      file := Budget(Some(started), attempts + 1);
      grants := grants + [Grant(now, started, attempts + 1)];
      granted := true;
    }

    /** The file is damaged by something else; from then on nothing is granted. */
    method Damage()
      requires Valid()
      modifies this`file
      ensures Valid() && file == Unreadable
    {
      file := Unreadable;
    }
  }

  // ----- Whole runs ----------------------------------------------------------------------------------

  /** Windows follow one another, and grants never go back in time, whatever the clock did between
      the calls. */
  lemma {:induction false} GrantsAscend(grants: seq<Grant>, i: nat, k: nat)
    requires Spaced(grants) && i < k < |grants|
    ensures grants[i].at <= grants[k].at
    ensures grants[k].started >= grants[i].started + WINDOW ||
            (k == i + 1 && grants[i].number == 1 && grants[k].number == 2 && grants[k].started == grants[i].started)
  {
    assert MayFollow(grants[k - 1], grants[k]);
    if i < k - 1 {
      GrantsAscend(grants, i, k - 1);
    }
  }

  /** At most two grants are charged to one window. */
  lemma TwoPerWindow(grants: seq<Grant>, i: nat, j: nat, k: nat)
    requires Spaced(grants) && i < j < k < |grants|
    ensures !(grants[i].started == grants[j].started == grants[k].started)
  {
    GrantsAscend(grants, i, k);
  }

  /** The third grant after any other comes at least a whole window later. */
  lemma FourthIsLater(grants: seq<Grant>, i: nat)
    requires Spaced(grants) && i + 3 < |grants|
    ensures grants[i + 3].at >= grants[i].at + WINDOW
  {
    GrantsAscend(grants, i, i + 1);
    GrantsAscend(grants, i + 1, i + 3);
    GrantsAscend(grants, i, i + 3);
  }

  /** How many of the first `n` grants fall into the half-open span from `t`. */
  ghost function CountIn(grants: seq<Grant>, t: int, n: nat): nat
    requires n <= |grants|
  {
    if n == 0 then 0 else CountIn(grants, t, n - 1) + if t <= grants[n - 1].at < t + WINDOW then 1 else 0
  }

  lemma {:induction false} NoneBefore(grants: seq<Grant>, t: int, n: nat)
    requires n <= |grants| && forall i :: 0 <= i < n ==> grants[i].at < t
    ensures CountIn(grants, t, n) == 0
  {
    if n > 0 {
      NoneBefore(grants, t, n - 1);
    }
  }

  lemma {:induction false} CountAtMost(grants: seq<Grant>, t: int, n: nat)
    requires n <= |grants|
    ensures CountIn(grants, t, n) <= n
  {
    if n > 0 {
      CountAtMost(grants, t, n - 1);
    }
  }

  /** Any fifteen minutes contain at most three granted restarts, over every sequence of calls, clock
      readings and failures. */
  lemma {:induction false} AtMostThree(grants: seq<Grant>, t: int, n: nat)
    requires Spaced(grants) && n <= |grants|
    ensures CountIn(grants, t, n) <= 3
  {
    if n <= 3 {
      CountAtMost(grants, t, n);
    } else {
      AtMostThree(grants, t, n - 1);
      if t <= grants[n - 1].at < t + WINDOW {
        FourthIsLater(grants, n - 4);
        forall i | 0 <= i < n - 3
          ensures grants[i].at < t
        {
          if i < n - 4 {
            GrantsAscend(grants, i, n - 4);
          }
        }
        NoneBefore(grants, t, n - 3);
        assert CountIn(grants, t, n - 2) <= 1;
      }
    }
  }

  /** Three can be reached: a late second restart, then two at the start of the next window. */
  method ThreeAreReached() returns (f: RecoveryFile)
    ensures fresh(f) && f.Valid() && CountIn(f.grants, WINDOW - 1, |f.grants|) == 3
  {
    f := new RecoveryFile(Missing);
    var a := f.Take(0, Works);
    var b := f.Take(WINDOW - 1, Works);
    var c := f.Take(WINDOW, Works);
    var d := f.Take(WINDOW + 1, Works);
    assert f.grants ==
           [Grant(0, 0, 1), Grant(WINDOW - 1, 0, 2), Grant(WINDOW, WINDOW, 1), Grant(WINDOW + 1, WINDOW, 2)];
    assert CountIn(f.grants, WINDOW - 1, 1) == 0;
    assert CountIn(f.grants, WINDOW - 1, 2) == 1;
    assert CountIn(f.grants, WINDOW - 1, 3) == 2;
  }

  // ----- When the display is lost -----------------------------------------------------------------------

  datatype Sight = Present | Absent | Error
  datatype Observation = Observation(now: int, sight: Sight)

  /** Where the unbroken run of absences at the end begins. */
  ghost function RunStart(seen: seq<Observation>): nat
    requires seen != [] && seen[|seen| - 1].sight == Absent
  {
    var n := |seen| - 1;
    if n > 0 && seen[n - 1].sight == Absent then RunStart(seen[..n]) else n
  }

  lemma {:induction false} RunIsUnbroken(seen: seq<Observation>)
    requires seen != [] && seen[|seen| - 1].sight == Absent
    ensures var k := RunStart(seen);
            && k < |seen| && (forall i :: k <= i < |seen| ==> seen[i].sight == Absent)
            && (k > 0 ==> seen[k - 1].sight != Absent)
  {
    var n := |seen| - 1;
    if n > 0 && seen[n - 1].sight == Absent {
      RunIsUnbroken(seen[..n]);
    }
  }

  /** From `k` on nothing but absences was observed, and right before something else, if anything. */
  ghost predicate IsRunFrom(seen: seq<Observation>, k: nat) {
    && k < |seen| && (forall i :: k <= i < |seen| ==> seen[i].sight == Absent)
    && (k > 0 ==> seen[k - 1].sight != Absent)
  }

  lemma RunIsOne(seen: seq<Observation>, k: nat)
    requires seen != [] && seen[|seen| - 1].sight == Absent
    ensures IsRunFrom(seen, k) <==> k == RunStart(seen)
  {
    RunIsUnbroken(seen);
  }

  lemma LostMeans(seen: seq<Observation>)
    ensures IsLost(seen) <==>
              && seen != [] && (exists i :: 0 <= i < |seen| && seen[i].sight == Present)
              && exists k :: 0 <= k < |seen| && seen[|seen| - 1].now - seen[k].now >= 20 && IsRunFrom(seen, k)
  {
    forall k: nat | seen != [] && seen[|seen| - 1].sight == Absent
      ensures IsRunFrom(seen, k) <==> k == RunStart(seen)
    {
      RunIsOne(seen, k);
    }
  }

  ghost predicate WasPresent(seen: seq<Observation>) {
    exists i :: 0 <= i < |seen| && seen[i].sight == Present
  }

  /** A browser that was seen once has been missing in every observation for the grace period. */
  ghost predicate IsLost(seen: seq<Observation>) {
    && seen != [] && seen[|seen| - 1].sight == Absent && WasPresent(seen)
    && var k := RunStart(seen); k < |seen| && seen[|seen| - 1].now - seen[k].now >= GRACE
  }

  class DisplayHealth {
    var seen: bool
    var missingSince: Option<int>
    ghost var history: seq<Observation>

    ghost predicate Valid()
      reads this
    {
      && seen == WasPresent(history)
      && (missingSince.Some? <==> seen && history != [] && history[|history| - 1].sight == Absent)
      && (missingSince.Some? ==> var k := RunStart(history); k < |history| && missingSince.value == history[k].now)
    }

    constructor ()
      ensures Valid() && history == []
    {
      seen, missingSince, history := false, None, [];
    }

    method Lost(now: int, sight: Sight) returns (lost: bool)
      requires Valid()
      modifies this
      ensures Valid() && history == old(history) + [Observation(now, sight)]
      ensures lost <==> IsLost(history)
      ensures lost <==>
                && (exists i :: 0 <= i < |history| && history[i].sight == Present)
                && exists k :: 0 <= k < |history| && now - history[k].now >= 20 && IsRunFrom(history, k)
    {
      ghost var before := history;
      history := history + [Observation(now, sight)];
      LostMeans(history);
      assert history[..|before|] == before && (forall i :: 0 <= i < |before| ==> history[i] == before[i]);
      assert WasPresent(history) <==> WasPresent(before) || sight == Present by {
        assert history[|before|].sight == sight;
        if WasPresent(before) {
          var i :| 0 <= i < |before| && before[i].sight == Present;
          assert history[i].sight == Present;
        }
      }
      if sight != Absent {
        missingSince := None;
        if sight == Present {
          seen := true;
        }
        return false;
      }
      if !seen {
        return false;
      }
      if missingSince.None? {
        missingSince := Some(now);
      }
      lost := now - missingSince.value >= GRACE;
    }
  }
}
