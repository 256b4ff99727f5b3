/** The daemon's confirmations of release plans: a bounded cache, newest last
    (cmd/filees/explorer_anchor_batch.go). */
module PlanCache {
  import opened Basics
  import opened AnchorPaths
  import opened AnchorScan
  import opened AnchorPlan

  const MAX_PLANS := 32

  /** What a request has to repeat to find its plan. */
  datatype Key = Key(server: string, repo: string, path: string, action: Action, fingerprint: Fingerprint, files: nat,
                     operation: string, url: string, root: string)
  datatype Entry = Entry(key: Key, rootID: string, paths: seq<string>)

  // ----- The kept part of the log ----------------------------------------------------------------

  ghost function TotalBytes(entries: seq<Entry>): nat {
    if entries == [] then 0 else BytesIn(entries[0].paths) + TotalBytes(entries[1..])
  }

  ghost predicate Fits(entries: seq<Entry>) {
    |entries| <= MAX_PLANS && TotalBytes(entries) <= MAX_PATH_BYTES
  }

  ghost function Newest(log: seq<Entry>, n: nat): seq<Entry>
    requires n <= |log|
  {
    log[|log| - n..]
  }

  /** `kept` is the longest run of newest entries within both limits. */
  ghost predicate IsLongest(kept: seq<Entry>, log: seq<Entry>) {
    && |kept| <= |log| && kept == Newest(log, |kept|) && Fits(kept)
    && forall n :: |kept| < n <= |log| ==> !Fits(Newest(log, n))
  }

  lemma NewestGrows(log: seq<Entry>, n: nat)
    requires n < |log|
    ensures TotalBytes(Newest(log, n + 1)) == BytesIn(log[|log| - n - 1].paths) + TotalBytes(Newest(log, n))
  {
    assert Newest(log, n + 1)[1..] == Newest(log, n);
  }

  lemma {:induction false} WeightGrows(log: seq<Entry>, n: nat, m: nat)
    requires n <= m <= |log|
    ensures TotalBytes(Newest(log, n)) <= TotalBytes(Newest(log, m))
  {
    if n < m {
      WeightGrows(log, n, m - 1);
      NewestGrows(log, m - 1);
    }
  }

  /** The run stops at the first entry that does not fit. */
  lemma LongestFrom(log: seq<Entry>, n: nat)
    requires n <= |log| && Fits(Newest(log, n)) && (n < |log| ==> !Fits(Newest(log, n + 1)))
    ensures IsLongest(Newest(log, n), log)
  {
    forall m | n < m <= |log|
      ensures !Fits(Newest(log, m))
    {
      WeightGrows(log, n + 1, m);
    }
  }

  /** What was dropped before would be dropped again: trimming the kept entries and the new one is
      trimming the whole log. */
  lemma TrimsLikeLog(kept: seq<Entry>, log: seq<Entry>, x: Entry, next: seq<Entry>)
    requires IsLongest(kept, log) && IsLongest(next, kept + [x])
    ensures IsLongest(next, log + [x])
  {
    var all, some, n := log + [x], kept + [x], |next|;
    SameNewest(kept, log, x, n);
    if n < |some| {
      NextIsTooMuch(next, some, n);
      SameNewest(kept, log, x, n + 1);
    } else if n < |all| {
      OneMoreIsTooMuch(kept, log, x, n + 1);
    }
    LongestFrom(all, n);
  }

  lemma NextIsTooMuch(kept: seq<Entry>, log: seq<Entry>, n: nat)
    requires IsLongest(kept, log) && n == |kept| < |log|
    ensures !Fits(Newest(log, n + 1))
  {
  }

  lemma SameNewest(kept: seq<Entry>, log: seq<Entry>, x: Entry, n: nat)
    requires |kept| <= |log| && kept == Newest(log, |kept|) && n <= |kept| + 1
    ensures Newest(log + [x], n) == Newest(kept + [x], n)
  {
  }

  lemma OneMoreIsTooMuch(kept: seq<Entry>, log: seq<Entry>, x: Entry, n: nat)
    requires IsLongest(kept, log) && |kept| < |log| && n == |kept| + 2
    ensures !Fits(Newest(log + [x], n))
  {
    var more := Newest(log, |kept| + 1);
    Heavier(more, x);
    assert Newest(log + [x], n) == more + [x];
  }

  lemma {:induction false} Heavier(entries: seq<Entry>, x: Entry)
    ensures TotalBytes(entries + [x]) == TotalBytes(entries) + BytesIn(x.paths)
  {
    if entries == [] {
      assert ([] + [x])[1..] == [];
    } else {
      Heavier(entries[1..], x);
      assert (entries + [x])[1..] == entries[1..] + [x];
    }
  }

  /** Every path of every entry counts with its bytes. */
  lemma WeighsEveryPath(x: Entry, more: Entry, p: string)
    requires more == x.(paths := x.paths + [p])
    ensures TotalBytes([more]) == TotalBytes([x]) + ByteLength(p)
  {
    assert [more][1..] == [] && [x][1..] == [];
    assert more.paths[..|x.paths|] == x.paths;
  }

  /** Where the newest entry with the key is, if there is one. */
  ghost function NewestMatch(log: seq<Entry>, key: Key): Option<nat> {
    if log == [] then None
    else if log[|log| - 1].key == key then Some(|log| - 1)
    else NewestMatch(log[..|log| - 1], key)
  }

  lemma {:induction false} MatchIs(log: seq<Entry>, key: Key, i: nat)
    requires i < |log| && log[i].key == key && forall k :: i < k < |log| ==> log[k].key != key
    ensures NewestMatch(log, key) == Some(i)
  {
    if i < |log| - 1 {
      MatchIs(log[..|log| - 1], key, i);
    }
  }

  lemma {:induction false} NoMatchAfter(log: seq<Entry>, key: Key, from: nat)
    requires from <= |log| && forall k :: from <= k < |log| ==> log[k].key != key
    ensures NewestMatch(log, key).Some? ==> NewestMatch(log, key).value < from
  {
    if from < |log| {
      NoMatchAfter(log[..|log| - 1], key, from);
    } else if log != [] {
      MatchBelow(log, key);
    }
  }

  lemma {:induction false} MatchBelow(log: seq<Entry>, key: Key)
    ensures NewestMatch(log, key).Some? ==> NewestMatch(log, key).value < |log|
  {
    if log != [] && log[|log| - 1].key != key {
      MatchBelow(log[..|log| - 1], key);
    }
  }

  // ----- The cache ---------------------------------------------------------------------------------

  class Plans {
    var plans: seq<Entry>
    ghost var log: seq<Entry>

    ghost predicate Valid()
      reads this
    {
      IsLongest(plans, log)
    }

    constructor ()
      ensures Valid() && plans == [] && log == []
    {
      plans, log := [], [];
    }

    method Weigh(paths: seq<string>) returns (bytes: nat)
      ensures bytes == BytesIn(paths)
    {
      bytes := 0;
      for i := 0 to |paths|
        invariant bytes == BytesIn(paths[..i])
      {
        assert paths[..i + 1][..i] == paths[..i];
        bytes := bytes + ByteLength(paths[i]);
      }
      assert paths[..|paths|] == paths;
    }

    /** Walk back from the newest until a limit is passed. */
    method Trim(all: seq<Entry>) returns (kept: seq<Entry>)
      ensures IsLongest(kept, all)
      ensures |kept| <= 32 && TotalBytes(kept) <= 8388608
      ensures |kept| == |all| || |kept| == 32 || TotalBytes([all[|all| - |kept| - 1]] + kept) > 8388608
    {
      var bytes := 0;
      var i := |all|;
      while i > 0
        invariant 0 <= i <= |all|
        invariant bytes == TotalBytes(Newest(all, |all| - i)) && Fits(Newest(all, |all| - i))
      {
        i := i - 1;
        var more := Weigh(all[i].paths);
        bytes := bytes + more;
        NewestGrows(all, |all| - i - 1);
        if bytes > MAX_PATH_BYTES || |all| - i > MAX_PLANS {
          assert Newest(all, |all| - i) == [all[i]] + all[i + 1..];
          LongestFrom(all, |all| - i - 1);
          return all[i + 1..];
        }
      }
      assert Newest(all, |all|) == all;
      LongestFrom(all, |all|);
      kept := all;
    }

    method Put(x: Entry)
      requires Valid()
      modifies this
      ensures Valid() && log == old(log) + [x] && |plans| <= 32 && TotalBytes(plans) <= 8388608
      ensures BytesIn(x.paths) <= MAX_PATH_BYTES ==> plans != [] && plans[|plans| - 1] == x
    {
      var kept := Trim(plans + [x]);
      TrimsLikeLog(plans, log, x, kept);
      if BytesIn(x.paths) <= MAX_PATH_BYTES {
        NewestFits(plans + [x], kept);
      }
      plans, log := kept, log + [x];
    }

    /** The newest kept entry with the key, as a copy of its paths. */
    method Get(key: Key) returns (found: Option<Entry>)
      requires Valid()
      ensures var at := NewestMatch(log, key);
              found == if at.Some? && |log| - |plans| <= at.value < |log| then Some(log[at.value]) else None
    {
      var i := |plans|;
      ghost var skipped := |log| - |plans|;
      while i > 0
        invariant 0 <= i <= |plans|
        invariant forall k :: i <= k < |plans| ==> plans[k].key != key
      {
        i := i - 1;
        if plans[i].key == key {
          assert forall k :: 0 <= k < |plans| ==> plans[k] == log[skipped + k];
          MatchIs(log, key, skipped + i);
          return Some(plans[i]);
        }
      }
      assert forall k :: skipped <= k < |log| ==> log[k] == plans[k - skipped];
      NoMatchAfter(log, key, skipped);
      found := None;
    }
  }

  lemma NewestFits(all: seq<Entry>, kept: seq<Entry>)
    requires all != [] && BytesIn(all[|all| - 1].paths) <= MAX_PATH_BYTES && IsLongest(kept, all)
    ensures kept != [] && kept[|kept| - 1] == all[|all| - 1]
  {
    var x := all[|all| - 1];
    assert Newest(all, 1) == [x] && [x][1..] == [];
    assert Fits(Newest(all, 1));
  }

  /** A plan the planner has just made is found under its key, whatever was stored before. */
  method PutThenGet(cache: Plans, r: Request, fold: string -> string, probe: Probe, plan: Plan, x: Entry)
    returns (found: Option<Entry>)
    requires cache.Valid()
    requires r.action == Release && Plannable(r, fold, probe) && PlanIs(r, probe, plan) &&
        x.paths == PathsIn(plan.files)
    modifies cache
    ensures cache.Valid() && found == Some(x)
  {
    PlanIsLight(r, fold, probe, plan);
    cache.Put(x);
    MatchIs(cache.log, x.key, |cache.log| - 1);
    found := cache.Get(x.key);
  }
}
