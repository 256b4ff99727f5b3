/** Executing an approved folder action against a daemon that may answer anything: retries and fresh
    plans (cmd/filees-gui-wails/headbrowser_wait.go).  Times are in milliseconds. */
module FolderExecution {
  import opened Basics

  datatype Action = Download | Release

  datatype Plan = Plan(directory: bool, fingerprint: string, selection: string, files: int, bytes: int)
  datatype Result = Result(state: string, completed: int)

  /** Busy and Changed are the two typed refusals that come before any effect. */
  datatype Reply = Busy | Changed | Failed | Empty | Executed(result: Result) | Planned(plan: Plan)

  /** What one call of the daemon takes and brings. */
  datatype Reaction = Reaction(elapsed: nat, reply: Reply)

  /** What happened: the check that the window still shows this folder, a call, or a wait. */
  datatype Event =
    | Checked(ok: bool)
    | Batch(fingerprint: string, reply: Reply)
    | Preview(reply: Reply)
    | Waited(ms: nat)

  const FIRST_DELAY := 500
  const LAST_DELAY := 5000

  predicate IsHex(c: char) {
    '0' <= c <= '9' || 'a' <= c <= 'f' || 'A' <= c <= 'F'
  }

  /** `folderDigest`: 32 bytes in hexadecimal. */
  predicate IsDigest(s: string) {
    |s| == 64 && forall c :: c in s ==> IsHex(c)
  }

  /** A fresh plan that stays within what was approved. */
  predicate Within(approved: Plan, newer: Plan) {
    && newer.directory && IsDigest(newer.fingerprint) && newer.selection == approved.selection
    && 0 <= newer.files <= approved.files && 0 <= newer.bytes <= approved.bytes
  }

  predicate IsHexText(s: string) {
    forall c :: c in s ==> c in "0123456789abcdefABCDEF"
  }

  /** What approving a plan lets through in its place, item by item. */
  lemma WithinMeans(approved: Plan, newer: Plan)
    ensures Within(approved, newer) <==>
              && newer.directory && |newer.fingerprint| == 64 && IsHexText(newer.fingerprint)
              && newer.selection == approved.selection
              && 0 <= newer.files && newer.files <= approved.files && 0 <= newer.bytes && newer.bytes <= approved.bytes
  {
    HexMeans(newer.fingerprint);
  }

  lemma HexMeans(s: string)
    ensures IsHexText(s) <==> forall c :: c in s ==> IsHex(c)
    ensures IsDigest(s) <==> |s| == 64 && IsHexText(s)
  {
    forall c: char
      ensures IsHex(c) <==> c in "0123456789abcdefABCDEF"
    {
      HexDigit(c);
    }
  }

  lemma HexDigit(c: char)
    ensures IsHex(c) <==> c in "0123456789abcdefABCDEF"
  {
    var n := c as int;
    if 48 <= n <= 57 {
      assert "0123456789abcdefABCDEF"[n - 48] == c;
    } else if 97 <= n <= 102 {
      assert "0123456789abcdefABCDEF"[n - 97 + 10] == c;
    } else if 65 <= n <= 70 {
      assert "0123456789abcdefABCDEF"[n - 65 + 16] == c;
    }
  }

  // ----- What a trace may be ------------------------------------------------------------------------

  predicate IsCall(e: Event) {
    e.Batch? || e.Preview?
  }

  ghost function LastCall(t: seq<Event>): (e: Option<Event>)
    ensures e.Some? ==> IsCall(e.value)
  {
    if t == [] then None
    else if IsCall(t[|t| - 1]) then Some(t[|t| - 1])
    else LastCall(t[..|t| - 1])
  }

  ghost function LastPlan(t: seq<Event>): Option<Plan> {
    if t == [] then None
    else if t[|t| - 1].Preview? && t[|t| - 1].reply.Planned? then Some(t[|t| - 1].reply.plan)
    else LastPlan(t[..|t| - 1])
  }

  /** Which call may follow a call, a batch or a preview: the same one after busy; a preview after a
      batch refused as changed, for a download whose selection can be compared; a batch after a
      preview whose plan stays within the approved one and has files. */
  predicate Allows(action: Action, approved: Plan, e: Event, batch: bool) {
    match e
    case Batch(_, reply) =>
      if batch then reply == Busy else reply == Changed && action == Download && IsDigest(approved.selection)
    case Preview(reply) =>
      if batch then reply.Planned? && Within(approved, reply.plan) && reply.plan.files > 0 else reply == Busy
    case _ => true
  }

  /** Whether the reply ends the action without a result. */
  predicate EndsIt(action: Action, approved: Plan, e: Event) {
    match e
    case Batch(_, reply) => reply != Busy && !reply.Executed? &&
        !(reply == Changed && action == Download && IsDigest(approved.selection))
    case Preview(reply) => reply != Busy && !(reply.Planned? && Within(approved, reply.plan))
    case _ => false
  }

  /** How many of the latest calls in a row were refused as busy. */
  ghost function Busies(t: seq<Event>): nat {
    if t == [] then 0
    else
      var e := t[|t| - 1];
      if IsCall(e) && e.reply != Busy then 0 else Busies(t[..|t| - 1]) + if IsCall(e) then 1 else 0
  }

  /** How many batches were refused as changed. */
  ghost function Changes(t: seq<Event>): nat {
    if t == [] then 0
    else Changes(t[..|t| - 1]) + if t[|t| - 1].Batch? && t[|t| - 1].reply == Changed then 1 else 0
  }

  /** The delays double from half a second up to five. */
  function Delay(n: nat): (ms: nat)
    ensures FIRST_DELAY <= ms <= LAST_DELAY
  {
    if n == 0 then FIRST_DELAY else Doubled(Delay(n - 1))
  }

  /** Half a second, one, two, four, and five from then on. */
  lemma {:induction false} DelaysAre(n: nat)
    ensures Delay(n) == if n < 4 then [500, 1000, 2000, 4000][n] else 5000
  {
    if n > 0 {
      DelaysAre(n - 1);
    }
  }

  function Doubled(ms: nat): nat {
    if ms * 2 < LAST_DELAY then ms * 2 else LAST_DELAY
  }

  /** The busy refusals of one call in a row count for its delays, and the changed batches for theirs. */
  ghost function NextDelay(t: seq<Event>): nat {
    if Busies(t) > 0 then Delay(Busies(t) - 1) else if Changes(t) > 0 then Delay(Changes(t) - 1) else FIRST_DELAY
  }

  /** A refusal that is waited out. */
  predicate Retriable(action: Action, approved: Plan, e: Event) {
    && IsCall(e)
    && (e.reply == Busy || (e.Batch? && e.reply == Changed && action == Download && IsDigest(approved.selection)))
  }

  ghost predicate MayWait(action: Action, approved: Plan, t: seq<Event>) {
    t != [] && Retriable(action, approved, t[|t| - 1])
  }

  /** A check comes first, after every wait, and after a fresh plan that is to be executed. */
  ghost predicate MayCheck(approved: Plan, t: seq<Event>) {
    || t == [] || t[|t| - 1].Waited?
    || (IsPlan(t[|t| - 1]) && Within(approved, t[|t| - 1].reply.plan) && t[|t| - 1].reply.plan.files > 0)
  }

  predicate IsPlan(e: Event) {
    e.Preview? && e.reply.Planned?
  }

  /** The fingerprint is the approved one until a fresh plan is taken, for a download, and from then
      on that of the latest. */
  ghost predicate Carries(action: Action, approved: Plan, t: seq<Event>, fingerprint: string) {
    match LastPlan(t)
    case None => fingerprint == approved.fingerprint
    case Some(plan) => action == Download && Within(approved, plan) && fingerprint == plan.fingerprint
  }

  ghost predicate MayFollow(action: Action, approved: Plan, t: seq<Event>, e: Event) {
    && (IsCall(e) ==>
          && t != [] && t[|t| - 1] == Checked(true)
          && (LastCall(t).Some? ==> Allows(action, approved, LastCall(t).value, e.Batch?)))
    && (e.Batch? ==> Carries(action, approved, t, e.fingerprint))
    && (e.Preview? ==> action == Download && LastCall(t).Some?)
    && (e.Checked? ==> MayCheck(approved, t))
    && (e.Waited? ==> MayWait(action, approved, t) && e.ms == NextDelay(t))
  }

  ghost predicate Lawful(action: Action, approved: Plan, t: seq<Event>) {
    t != [] ==> var before := t[..|t| - 1];
      Lawful(action, approved, before) && MayFollow(action, approved, before, t[|t| - 1])
  }

  /** What the daemon, the window and the clock bring; they may bring anything. */
  datatype Surroundings = Surroundings(daemon: nat -> Reaction, check: nat -> bool, start: nat, deadline: nat)

  /** The event is what the surroundings give after `t`: the window's answer, the daemon's reply, and
      time enough, to begin a check before the deadline or to end a wait by it. */
  ghost predicate IsGiven(x: Surroundings, t: seq<Event>, e: Event) {
    match e
    case Checked(ok) => ok == x.check(|t|) && Clock(x, t) < x.deadline
    case Batch(_, reply) => reply == x.daemon(|t|).reply
    case Preview(reply) => reply == x.daemon(|t|).reply
    case Waited(ms) => Clock(x, t) + ms <= x.deadline
  }

  ghost predicate Happened(x: Surroundings, t: seq<Event>) {
    t != [] ==> var before := t[..|t| - 1]; Happened(x, before) && IsGiven(x, before, t[|t| - 1])
  }

  /** The time after the trace: what the calls took and what was waited. */
  ghost function Clock(x: Surroundings, t: seq<Event>): nat {
    if t == [] then x.start else Clock(x, t[..|t| - 1]) + Taken(x, |t| - 1, t[|t| - 1])
  }

  function Taken(x: Surroundings, n: nat, e: Event): nat {
    if e.Waited? then e.ms else if IsCall(e) then x.daemon(n).elapsed else 0
  }

  lemma AppendGiven(x: Surroundings, t: seq<Event>, e: Event)
    requires Happened(x, t) && IsGiven(x, t, e)
    ensures Happened(x, t + [e]) && Clock(x, t + [e]) == Clock(x, t) + Taken(x, |t|, e)
  {
    assert (t + [e])[..|t|] == t;
  }

  ghost function Calls(t: seq<Event>): nat {
    if t == [] then 0 else Calls(t[..|t| - 1]) + if IsCall(t[|t| - 1]) then 1 else 0
  }

  ghost function Waits(t: seq<Event>): nat {
    if t == [] then 0 else Waits(t[..|t| - 1]) + if t[|t| - 1].Waited? then 1 else 0
  }

  /** All of the above after one more event. */
  lemma Append(action: Action, approved: Plan, t: seq<Event>, e: Event)
    ensures Lawful(action, approved, t) && MayFollow(action, approved, t, e) ==> Lawful(action, approved, t + [e])
    ensures Calls(t + [e]) == Calls(t) + if IsCall(e) then 1 else 0
    ensures Waits(t + [e]) == Waits(t) + if e.Waited? then 1 else 0
    ensures LastCall(t + [e]) == if IsCall(e) then Some(e) else LastCall(t)
    ensures LastPlan(t + [e]) == if e.Preview? && e.reply.Planned? then Some(e.reply.plan) else LastPlan(t)
    ensures Busies(t + [e]) ==
              if IsCall(e) && e.reply != Busy then 0 else Busies(t) + if IsCall(e) then 1 else 0
    ensures Changes(t + [e]) == Changes(t) + if e.Batch? && e.reply == Changed then 1 else 0
  {
    assert (t + [e])[..|t|] == t;
  }

  // ----- The session ----------------------------------------------------------------------------------

  datatype Outcome = Got(reply: Reply) | Stopped

  function Called(fingerprint: Option<string>, reply: Reply): Event {
    if fingerprint.Some? then Batch(fingerprint.value, reply) else Preview(reply)
  }

  class Session {
    const action: Action
    const approved: Plan
    const x: Surroundings
    var clock: nat
    ghost var trace: seq<Event>
    var step: nat

    ghost predicate Valid()
      reads this
    {
      && step == |trace| && Lawful(action, approved, trace) && Happened(x, trace) && clock == Clock(x, trace)
      && clock >= x.start + FIRST_DELAY * Waits(trace)
      && (Waits(trace) > 0 ==> x.start + FIRST_DELAY * Waits(trace) <= x.deadline)
    }

    constructor (action: Action, approved: Plan, x: Surroundings)
      ensures Valid() && trace == [] && this.action == action && this.approved == approved && this.x == x
    {
      this.action, this.approved, this.x, this.clock := action, approved, x, x.start;
      trace, step := [], 0;
    }

    /** What the next events depend on. */
    ghost function Summary(): (nat, nat, Option<Event>, Option<Plan>, nat, nat)
      reads this
    {
      (Calls(trace), Waits(trace), LastCall(trace), LastPlan(trace), Busies(trace), Changes(trace))
    }

    ghost predicate MayCall(fingerprint: Option<string>)
      reads this
    {
      && (LastCall(trace).Some? ==> Allows(action, approved, LastCall(trace).value, fingerprint.Some?))
      && if fingerprint.Some? then Carries(action, approved, trace, fingerprint.value)
         else action == Download && LastCall(trace).Some?
    }

    ghost predicate Last(e: Event)
      reads this
    {
      trace != [] && trace[|trace| - 1] == e
    }

    /** The check failed, or the deadline leaves no time for the check or the wait that is due. */
    ghost predicate GaveUp()
      reads this
    {
      || Last(Checked(false))
      || (MayCheck(approved, trace) && clock >= x.deadline)
      || (MayWait(action, approved, trace) && clock + NextDelay(trace) > x.deadline)
    }

    method Check() returns (ok: bool)
      requires Valid() && MayCheck(approved, trace) && clock < x.deadline
      modifies this
      ensures Valid() && clock == old(clock) && Summary() == old(Summary()) && Last(Checked(ok))
    {
      ok := x.check(step);
      Append(action, approved, trace, Checked(ok));
      AppendGiven(x, trace, Checked(ok));
      trace, step := trace + [Checked(ok)], step + 1;
    }

    /** `waitFolder`: waits unless the deadline comes first. */
    method Wait(ms: nat) returns (ok: bool)
      requires Valid() && MayWait(action, approved, trace) && ms == NextDelay(trace) >= FIRST_DELAY
      modifies this
      ensures Valid() && (ok <==> old(clock) + ms <= x.deadline)
      ensures ok ==> clock == old(clock) + ms && Last(Waited(ms))
      ensures ok ==> Summary() == old(Summary()).(1 := old(Waits(trace)) + 1)
      ensures !ok ==> clock == old(clock) && trace == old(trace)
    {
      if clock + ms > x.deadline {
        return false;
      }
      Append(action, approved, trace, Waited(ms));
      AppendGiven(x, trace, Waited(ms));
      clock, trace, step := clock + ms, trace + [Waited(ms)], step + 1;
      ok := true;
    }

    /** One call, a batch with a fingerprint or a fresh plan, unless the check fails. */
    method CheckedCall(fingerprint: Option<string>) returns (out: Outcome)
      requires Valid() && MayCall(fingerprint) && MayCheck(approved, trace) && clock < x.deadline
      modifies this
      ensures Valid() && clock >= old(clock)
      ensures out == Stopped ==> Last(Checked(false)) && Summary() == old(Summary())
      ensures out.Got? ==>
                && Last(Called(fingerprint, out.reply)) && LastCall(trace) == Some(Called(fingerprint, out.reply))
                && Calls(trace) == old(Calls(trace)) + 1 && Waits(trace) == old(Waits(trace))
                && Busies(trace) == (if out.reply == Busy then old(Busies(trace)) + 1 else 0)
                && Changes(trace) == old(Changes(trace)) + (if fingerprint.Some? && out.reply == Changed then 1 else 0)
                && LastPlan(trace) == if fingerprint.None? && out.reply.Planned? then Some(out.reply.plan)
                   else LastPlan(old(trace))
    {
      var ok := Check();
      if !ok {
        return Stopped;
      }
      var r := x.daemon(step);
      ghost var e := Called(fingerprint, r.reply);
      Append(action, approved, trace, e);
      AppendGiven(x, trace, e);
      clock, trace, step := clock + r.elapsed, trace + [e], step + 1;
      out := Got(r.reply);
    }

    /** One round of it: the call, and after a busy refusal the wait. */
    method CallOrWait(fingerprint: Option<string>, delay: nat) returns (out: Outcome)
      requires Valid() && MayCall(fingerprint) && MayCheck(approved, trace) && clock < x.deadline
      requires delay == Delay(Busies(trace))
      modifies this
      ensures Valid() && clock >= old(clock)
      ensures out == Stopped ==> GaveUp() && Calls(trace) <= old(Calls(trace)) + 1 && Waits(trace) == old(Waits(trace))
      ensures out.Got? ==>
                && LastCall(trace) == Some(Called(fingerprint, out.reply))
                && Calls(trace) == old(Calls(trace)) + 1
                && Waits(trace) == old(Waits(trace)) + (if out.reply == Busy then 1 else 0)
                && Busies(trace) == (if out.reply == Busy then old(Busies(trace)) + 1 else 0)
                && Changes(trace) == old(Changes(trace)) + (if fingerprint.Some? && out.reply == Changed then 1 else 0)
                && LastPlan(trace) == if fingerprint.None? && out.reply.Planned? then Some(out.reply.plan)
                   else LastPlan(old(trace))
      ensures out.Got? && out.reply != Busy ==> Last(Called(fingerprint, out.reply))
      ensures out == Got(Busy) ==> MayCheck(approved, trace) && clock > old(clock)
    {
      out := CheckedCall(fingerprint);
      if out == Got(Busy) {
        var waited := Wait(delay);
        if !waited {
          out := Stopped;
        }
      }
    }

    /** `folderCallWhileBusy`: a fresh plan needs a wait of its own before it. */
    method CallWhileBusy(fingerprint: Option<string>) returns (out: Outcome)
      requires Valid() && MayCall(fingerprint) && MayCheck(approved, trace) && Busies(trace) == 0
      requires Calls(trace) + (if fingerprint.Some? then 0 else 1) <= 2 * Waits(trace)
      modifies this
      ensures Valid() && clock >= old(clock) && Calls(trace) <= 2 * Waits(trace) + if fingerprint.Some? then 1 else 0
      ensures out == Stopped ==> GaveUp()
      ensures out.Got? ==>
                && Last(Called(fingerprint, out.reply)) && LastCall(trace) == Some(Called(fingerprint, out.reply))
                && out.reply != Busy && Busies(trace) == 0
                && Changes(trace) == old(Changes(trace)) + (if fingerprint.Some? && out.reply == Changed then 1 else 0)
                && LastPlan(trace) == if fingerprint.None? && out.reply.Planned? then Some(out.reply.plan)
                   else LastPlan(old(trace))
    {
      var delay := FIRST_DELAY;
      while true
        invariant Valid() && MayCall(fingerprint) && MayCheck(approved, trace) && clock >= old(clock)
        invariant Calls(trace) + (if fingerprint.Some? then 0 else 1) <= 2 * Waits(trace)
        invariant LastPlan(trace) == LastPlan(old(trace)) && Changes(trace) == old(Changes(trace))
        invariant delay == Delay(Busies(trace))
        decreases x.deadline - clock
      {
        if clock >= x.deadline {
          return Stopped;
        }
        out := CallOrWait(fingerprint, delay);
        if out != Got(Busy) {
          return;
        }
        delay := Doubled(delay);
      }
    }

    lemma BudgetBoundsCalls()
      requires Valid() && Calls(trace) <= 2 * Waits(trace) + 1
      ensures Calls(trace) <= 1 + 2 * (if x.start <= x.deadline then (x.deadline - x.start) / FIRST_DELAY else 0)
    {
    }

    /** The result is the daemon's answer to the last call, or it stands for a fresh plan that leaves
        nothing to do. */
    ghost predicate Reports(result: Result)
      reads this
    {
      && trace != []
      && var reply := x.daemon(|trace| - 1).reply;
         match trace[|trace| - 1]
         case Batch(_, _) => reply == Executed(result)
         case Preview(_) =>
           && action == Download && reply.Planned? && reply.plan.files == 0 && Within(approved, reply.plan)
           && reply.plan.selection == approved.selection && reply.plan.bytes <= approved.bytes
           && result == Result("attached", 0)
         case _ => false
    }

    /** Why there is no result: the check failed; the deadline came before the check or the wait that was
        due; or the daemon answered the last call with something that is no result, no refusal to wait
        out and no plan to go on with. */
    ghost predicate ExplainsNothing()
      reads this
    {
      if trace == [] then x.start >= x.deadline
      else
        var changeable := action == Download && |approved.selection| == 64 && IsHexText(approved.selection);
        match trace[|trace| - 1]
        case Checked(ok) => !ok
        case Waited(_) => clock >= x.deadline
        case Batch(_, reply) =>
          if reply == Busy || (reply == Changed && changeable) then clock + 5000 > x.deadline
          else !reply.Executed?
        case Preview(reply) =>
          if reply == Busy then clock + 5000 > x.deadline
          else if !reply.Planned? then true
          else
            var plan := reply.plan;
            || (plan.files > 0 && clock >= x.deadline)
            || !plan.directory || |plan.fingerprint| != 64 || !IsHexText(plan.fingerprint)
            || plan.selection != approved.selection || plan.files < 0 || plan.files > approved.files
            || plan.bytes < 0 || plan.bytes > approved.bytes
    }

    lemma NothingIsExplained()
      requires Valid() && (GaveUp() || Ended())
      ensures ExplainsNothing()
    {
      HexMeans(approved.selection);
      if trace != [] && IsPlan(trace[|trace| - 1]) {
        WithinMeans(approved, trace[|trace| - 1].reply.plan);
      }
    }

    /** The last reply ends the action without a result. */
    ghost predicate Ended()
      reads this
    {
      && trace != [] && EndsIt(action, approved, trace[|trace| - 1])
      && trace[|trace| - 1].reply == x.daemon(|trace| - 1).reply
    }

    /** After a batch was refused as changed: wait, and ask for a fresh plan within the approved one. */
    method Refresh(delay: nat) returns (newer: Option<Plan>)
      requires Valid() && action == Download && MayWait(action, approved, trace)
      requires Busies(trace) == 0 < Changes(trace) && delay == Delay(Changes(trace) - 1)
      requires LastCall(trace) == Some(trace[|trace| - 1]) && trace[|trace| - 1].Batch?
      requires Calls(trace) <= 2 * Waits(trace) + 1
      modifies this
      ensures Valid() && Calls(trace) <= 2 * Waits(trace) + if newer.Some? then 0 else 1
      ensures newer.None? ==> GaveUp() || Ended()
      ensures newer.Some? ==>
                && Within(approved, newer.value) && Last(Preview(Planned(newer.value)))
                && old(clock) < clock && old(clock) < x.deadline
                && LastCall(trace) == Some(Preview(Planned(newer.value))) && LastPlan(trace) == newer
                && Busies(trace) == 0 && Changes(trace) == old(Changes(trace))
    {
      var waited := Wait(delay);
      if !waited {
        return None;
      }
      var preview := CallWhileBusy(None);
      if preview == Stopped || !preview.reply.Planned? || !Within(approved, preview.reply.plan) {
        return None;
      }
      newer := Some(preview.reply.plan);
    }

    method Loop() returns (result: Option<Result>)
      requires Valid() && trace == []
      modifies this
      ensures Valid() && Calls(trace) <= 2 * Waits(trace) + 1
      ensures if result.Some? then Reports(result.value) else GaveUp() || Ended()
    {
      var fingerprint := approved.fingerprint;
      var delay := FIRST_DELAY;
      while true
        invariant Valid() && MayCall(Some(fingerprint)) && MayCheck(approved, trace)
        invariant Calls(trace) <= 2 * Waits(trace) && Busies(trace) == 0 && delay == Delay(Changes(trace))
        decreases x.deadline - clock
      {
        var out := CallWhileBusy(Some(fingerprint));
        if out == Stopped {
          return None;
        }
        if out.reply.Executed? {
          return Some(out.reply.result);
        }
        if out.reply != Changed || action != Download || !IsDigest(approved.selection) {
          return None;
        }
        var newer := Refresh(delay);
        if newer.None? {
          return None;
        }
        delay, fingerprint := Doubled(delay), newer.value.fingerprint;
        if newer.value.files == 0 {
          return Some(Result("attached", 0));
        }
      }
    }

    lemma OverIsFinal(result: Option<Result>)
      requires Valid() && if result.Some? then Reports(result.value) else GaveUp() || Ended()
      ensures IsFinal(action, approved, x, trace)
    {
    }

    /** `folderExecute` without the release queue: the trace is the one these surroundings allow, to its
        end; the result is what the last reply brought, and without one the action was given up or
        ended by that reply. */
    method Execute() returns (result: Option<Result>)
      requires Valid() && trace == []
      modifies this
      ensures Valid() && IsFinal(action, approved, x, trace)
      ensures Calls(trace) <= 1 + 2 * (if x.start <= x.deadline then (x.deadline - x.start) / FIRST_DELAY else 0)
      ensures if result.Some? then Reports(result.value) else (GaveUp() || Ended()) && ExplainsNothing()
    {
      result := Loop();
      BudgetBoundsCalls();
      OverIsFinal(result);
      if result.None? {
        NothingIsExplained();
      }
    }
  }

  // ----- One run for given surroundings ---------------------------------------------------------------

  ghost predicate IsRun(action: Action, approved: Plan, x: Surroundings, t: seq<Event>) {
    Lawful(action, approved, t) && Happened(x, t)
  }

  ghost predicate CanFollow(action: Action, approved: Plan, x: Surroundings, t: seq<Event>, e: Event) {
    MayFollow(action, approved, t, e) && IsGiven(x, t, e)
  }

  /** Nothing can happen any more. */
  ghost predicate IsFinal(action: Action, approved: Plan, x: Surroundings, t: seq<Event>) {
    forall e :: !CanFollow(action, approved, x, t, e)
  }

  lemma NextIsDetermined(action: Action, approved: Plan, x: Surroundings, t: seq<Event>, e: Event, f: Event)
    requires CanFollow(action, approved, x, t, e) && CanFollow(action, approved, x, t, f)
    ensures e == f
  {
  }

  lemma {:induction false} RunTo(action: Action, approved: Plan, x: Surroundings, t: seq<Event>, n: nat)
    requires IsRun(action, approved, x, t) && n <= |t|
    ensures IsRun(action, approved, x, t[..n]) && (n < |t| ==> CanFollow(action, approved, x, t[..n], t[n]))
  {
    if n == |t| {
      assert t[..n] == t;
    } else if n < |t| - 1 {
      RunTo(action, approved, x, t[..|t| - 1], n);
      assert t[..|t| - 1][..n] == t[..n];
    }
  }

  lemma {:induction false} AsLongAsSame(action: Action, approved: Plan, x: Surroundings, t: seq<Event>, u: seq<Event>)
    requires IsRun(action, approved, x, t) && IsRun(action, approved, x, u) && |t| == |u|
    ensures t == u
  {
    if t != [] {
      var n := |t| - 1;
      AsLongAsSame(action, approved, x, t[..n], u[..n]);
      NextIsDetermined(action, approved, x, t[..n], t[n], u[n]);
      assert t == t[..n] + [t[n]] && u == u[..n] + [u[n]];
    }
  }

  /** The surroundings determine the run: of any two, one is the beginning of the other; so there is
      only one to the end. */
  lemma OnlyOneRun(action: Action, approved: Plan, x: Surroundings, t: seq<Event>, u: seq<Event>)
    requires IsRun(action, approved, x, t) && IsRun(action, approved, x, u) && |t| <= |u|
    ensures t <= u && (IsFinal(action, approved, x, t) ==> t == u)
  {
    RunTo(action, approved, x, u, |t|);
    AsLongAsSame(action, approved, x, t, u[..|t|]);
  }

  // ----- What a lawful trace means --------------------------------------------------------------------

  lemma {:induction false} LastPlanIn(t: seq<Event>) returns (k: nat)
    requires LastPlan(t).Some?
    ensures k < |t| && t[k] == Preview(Planned(LastPlan(t).value))
    ensures forall m :: k < m < |t| ==> !IsPlan(t[m])
  {
    var n := |t| - 1;
    if IsPlan(t[n]) {
      k := n;
    } else {
      k := LastPlanIn(t[..n]);
      assert forall m :: k < m < n ==> t[m] == t[..n][m];
    }
  }

  lemma {:induction false} NoPlanIn(t: seq<Event>, k: nat)
    requires LastPlan(t).None? && k < |t|
    ensures !IsPlan(t[k])
  {
    if k < |t| - 1 {
      NoPlanIn(t[..|t| - 1], k);
    }
  }

  /** The fingerprint of the latest fresh plan before `i`; that one is for the approved selection, has
      no more files or bytes, and its fingerprint is 64 hexadecimal characters. */
  ghost predicate OfLatestPlan(approved: Plan, t: seq<Event>, i: nat, fingerprint: string)
    requires i <= |t|
  {
    exists k :: 0 <= k < i && IsPlan(t[k]) && (forall m :: k < m < i ==> !IsPlan(t[m])) &&
      var plan := t[k].reply.plan;
      && plan.fingerprint == fingerprint && |fingerprint| == 64 && IsHexText(fingerprint)
      && plan.directory && plan.selection == approved.selection
      && 0 <= plan.files <= approved.files && 0 <= plan.bytes <= approved.bytes
  }

  /** Every batch call carries the approved fingerprint as long as no fresh plan came and, for a
      download only, after that the one of the latest, which has the same selection digest and no
      more files or bytes; and every call directly follows a passed check. */
  lemma {:induction false} CallsAreApproved(action: Action, approved: Plan, t: seq<Event>, i: nat)
    requires Lawful(action, approved, t) && i < |t| && IsCall(t[i])
    ensures i > 0 && t[i - 1] == Checked(true)
    ensures t[i].Batch? ==>
              if exists k :: 0 <= k < i && IsPlan(t[k]) then
                action == Download && OfLatestPlan(approved, t, i, t[i].fingerprint)
              else
                t[i].fingerprint == approved.fingerprint
    ensures t[i].Preview? ==> action == Download && |approved.selection| == 64 && IsHexText(approved.selection)
  {
    var n := |t| - 1;
    var before := t[..n];
    assert forall k :: 0 <= k < n ==> before[k] == t[k];
    if i < n {
      CallsAreApproved(action, approved, before, i);
    } else if t[n].Batch? {
      if LastPlan(before).Some? {
        var k := LastPlanIn(before);
        WithinMeans(approved, t[k].reply.plan);
        assert IsPlan(t[k]);
        assert OfLatestPlan(approved, t, n, t[n].fingerprint);
      } else {
        forall k | 0 <= k < n
          ensures !IsPlan(t[k])
        {
          NoPlanIn(before, k);
        }
      }
    } else {
      PreviewNeedsDigest(action, approved, before);
      HexMeans(approved.selection);
    }
  }

  /** A fresh plan that is for something else, is larger, or leaves nothing to do is the last event. */
  lemma {:induction false} UnfitPlanIsLast(action: Action, approved: Plan, t: seq<Event>, i: nat)
    requires Lawful(action, approved, t) && i < |t| && IsPlan(t[i])
    requires var plan := t[i].reply.plan;
             || !plan.directory || |plan.fingerprint| != 64 || !IsHexText(plan.fingerprint)
             || plan.selection != approved.selection || plan.files <= 0 || plan.files > approved.files
             || plan.bytes < 0 || plan.bytes > approved.bytes
    ensures i == |t| - 1
  {
    if i < |t| - 1 {
      var n := |t| - 1;
      if i < n - 1 {
        UnfitPlanIsLast(action, approved, t[..n], i);
      } else {
        WithinMeans(approved, t[i].reply.plan);
      }
    }
  }

  /** A preview is only ever asked for after a batch was refused as changed. */
  lemma {:induction false} PreviewNeedsDigest(action: Action, approved: Plan, t: seq<Event>)
    requires Lawful(action, approved, t) && LastCall(t).Some?
    requires LastCall(t).value.Preview? || Allows(action, approved, LastCall(t).value, false)
    ensures IsDigest(approved.selection)
  {
    var n := |t| - 1;
    if !IsCall(t[n]) || (t[n].Preview? && LastCall(t[..n]).Some?) {
      PreviewNeedsDigest(action, approved, t[..n]);
    }
  }

  lemma {:induction false} LastCallAfter(t: seq<Event>, i: nat)
    requires i < |t| && IsCall(t[i])
    ensures LastCall(t).Some? && exists k :: i <= k < |t| && t[k] == LastCall(t).value
  {
    var n := |t| - 1;
    if !IsCall(t[n]) {
      LastCallAfter(t[..n], i);
      var k :| i <= k < n && t[..n][k] == LastCall(t[..n]).value;
      assert t[k] == LastCall(t).value;
    }
  }

  /** Of two calls with none between them, the first allows the second: only a typed refusal before
      any effect, or an acceptable fresh plan, is followed by another call. */
  lemma {:induction false} OnlyRefusalsAreRetried(action: Action, approved: Plan, t: seq<Event>, i: nat, j: nat)
    requires Lawful(action, approved, t) && i < j < |t| && IsCall(t[i]) && IsCall(t[j])
    requires forall m :: i < m < j ==> !IsCall(t[m])
    ensures Allows(action, approved, t[i], t[j].Batch?)
    ensures t[i].Batch? && t[j].Batch? ==> t[i].reply == Busy
    ensures t[i].Batch? && t[j].Preview? ==>
              t[i].reply == Changed && action == Download && |approved.selection| == 64 && IsHexText(approved.selection)
    ensures t[i].Preview? && t[j].Preview? ==> t[i].reply == Busy
    ensures t[i].Preview? && t[j].Batch? ==>
              && IsPlan(t[i])
              && var plan := t[i].reply.plan;
                 && plan.directory && plan.selection == approved.selection
                 && 0 < plan.files <= approved.files && 0 <= plan.bytes <= approved.bytes
  {
    HexMeans(approved.selection);
    var n := |t| - 1;
    var before := t[..n];
    assert forall k :: 0 <= k < n ==> before[k] == t[k];
    if j < n {
      OnlyRefusalsAreRetried(action, approved, before, i, j);
    } else {
      LastCallAfter(before, i);
      var k :| i <= k < n && before[k] == LastCall(before).value;
      assert k == i;
    }
  }

  /** A wait directly follows a call refused as busy or changed and takes between half a second and
      five; the next check directly follows the wait. */
  lemma {:induction false} WaitsAreForRefusals(action: Action, approved: Plan, t: seq<Event>, i: nat)
    requires Lawful(action, approved, t) && i < |t| && t[i].Waited?
    ensures i > 0 && IsCall(t[i - 1]) && 500 <= t[i].ms <= 5000
    ensures t[i - 1].reply == Busy || (t[i - 1].Batch? && t[i - 1].reply == Changed && action == Download)
    ensures i + 1 < |t| ==> t[i + 1].Checked?
  {
    var n := |t| - 1;
    if i < n {
      WaitsAreForRefusals(action, approved, t[..n], i);
    }
  }

  /** Where batches were refused as changed. */
  ghost function ChangedAt(t: seq<Event>): set<int> {
    set i | 0 <= i < |t| && t[i].Batch? && t[i].reply == Changed
  }

  lemma ChangedNext(t: seq<Event>)
    requires t != []
    ensures var n := |t| - 1;
            && n !in ChangedAt(t[..n])
            && ChangedAt(t) == ChangedAt(t[..n]) + if t[n].Batch? && t[n].reply == Changed then {n} else {}
  {
  }

  lemma {:induction false} ChangesCounted(t: seq<Event>)
    ensures Changes(t) == |ChangedAt(t)|
  {
    if t != [] {
      ChangesCounted(t[..|t| - 1]);
      ChangedNext(t);
    }
  }

  /** After the n-th batch refused as changed the wait is the n-th delay. */
  lemma ChangedWaits(action: Action, approved: Plan, t: seq<Event>, ms: nat)
    requires Lawful(action, approved, t + [Waited(ms)]) && t != [] && t[|t| - 1].Batch? && t[|t| - 1].reply == Changed
    ensures var n := |ChangedAt(t)|;
            n > 0 && ms == if n <= 4 then [500, 1000, 2000, 4000][n - 1] else 5000
  {
    LawfulBefore(action, approved, t, Waited(ms));
    ChangesCounted(t);
    DelaysAre(Changes(t) - 1);
  }

  lemma LawfulBefore(action: Action, approved: Plan, t: seq<Event>, e: Event)
    requires Lawful(action, approved, t + [e])
    ensures Lawful(action, approved, t) && MayFollow(action, approved, t, e)
  {
    assert (t + [e])[..|t|] == t;
  }

  lemma {:induction false} NoneBusy(t: seq<Event>)
    requires LastCall(t).Some? ==> LastCall(t).value.reply != Busy
    ensures Busies(t) == 0
  {
    if t != [] && !IsCall(t[|t| - 1]) {
      NoneBusy(t[..|t| - 1]);
    }
  }

  /** Refused as busy for the first time, a call waits half a second; refused again, twice as long as
      before, up to five seconds. */
  lemma BusyWaitsDouble(action: Action, approved: Plan, t: seq<Event>, first: Event, a: nat, ok: bool, again: Event,
                        b: nat)
    requires IsCall(first) && first.reply == Busy && IsCall(again) && again.reply == Busy
    requires Lawful(action, approved, t + [first] + [Waited(a)] + [Checked(ok)] + [again] + [Waited(b)])
    ensures b == if 2 * a < 5000 then 2 * a else 5000
    ensures (LastCall(t).Some? ==> LastCall(t).value.reply != Busy) ==> a == 500
  {
    var u := t + [first];
    var v := u + [Waited(a)];
    var w := v + [Checked(ok)];
    LawfulBefore(action, approved, w + [again], Waited(b));
    LawfulBefore(action, approved, w, again);
    LawfulBefore(action, approved, v, Checked(ok));
    LawfulBefore(action, approved, u, Waited(a));
    Append(action, approved, t, first);
    Append(action, approved, u, Waited(a));
    Append(action, approved, v, Checked(ok));
    Append(action, approved, w, again);
    if LastCall(t).Some? ==> LastCall(t).value.reply != Busy {
      NoneBusy(t);
    }
  }

  lemma {:induction false} NextCall(t: seq<Event>, i: nat, j: nat) returns (k: nat)
    requires i < j < |t| && IsCall(t[j])
    ensures i < k <= j && IsCall(t[k]) && forall m :: i < m < k ==> !IsCall(t[m])
    decreases j - i
  {
    if IsCall(t[i + 1]) {
      k := i + 1;
    } else {
      k := NextCall(t, i + 1, j);
    }
  }

  /** A release is never planned again: every call of it is a batch with the approved fingerprint, and
      only the busy refusal was tried again. */
  lemma ReleaseIsNeverReplanned(approved: Plan, t: seq<Event>, i: nat)
    requires Lawful(Release, approved, t) && i < |t| && IsCall(t[i])
    ensures t[i].Batch? && t[i].fingerprint == approved.fingerprint
    ensures (exists j :: i < j < |t| && IsCall(t[j])) ==> t[i].reply == Busy
  {
    CallsAreApproved(Release, approved, t, i);
    if j: nat :| i < j < |t| && IsCall(t[j]) {
      var k := NextCall(t, i, j);
      OnlyRefusalsAreRetried(Release, approved, t, i, k);
    }
  }
}
