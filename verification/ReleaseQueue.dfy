/** Handing an approved release to the daemon's queue: one submission, then only status reads
    (cmd/filees-gui-wails/headbrowser_release_queue.go).  Times are in milliseconds. */
module ReleaseQueue {
  import opened Basics

  datatype Request = Request(intent: string, server: string, repo: string, path: string, localPath: string,
                             fingerprint: string, files: int)

  datatype State = Queued | Running | Attached | Failed | Strange
  datatype Progress = Progress(intent: string, server: string, repo: string, path: string, localPath: string,
                               total: int, completed: int, state: State)

  /** Refused is one of the typed refusals that prove no intention was accepted; Lost any other error. */
  datatype Reply = Refused | Lost | Nothing | Reported(progress: Progress)
  datatype Reaction = Reaction(elapsed: nat, reply: Reply)

  /** What the window, the daemon and the clock bring; they may bring anything. */
  datatype Surroundings = Surroundings(current: bool, daemon: nat -> Reaction, start: nat, deadline: nat)

  datatype Event =
    | Checked(ok: bool)
    | Submitted(request: Request, reaction: Reaction)
    | Read(intent: string, reaction: Reaction)
    | Waited(ms: nat)

  datatype Outcome = Forbidden | Rejected | Unknown | Invalid | StillQueued | Finished(progress: Progress)

  const POLL := 1000

  predicate Answers(r: Request, p: Progress) {
    && p.intent == r.intent && p.server == r.server && p.repo == r.repo && p.path == r.path
    && p.localPath == r.localPath && p.total == r.files && 0 <= p.completed <= p.total
  }

  /** The report names the intention submitted, the place and number of files it was submitted for, and
      no more files done than there are. */
  ghost predicate IsAbout(r: Request, p: Progress) {
    && (p.intent, p.server, p.repo, p.path, p.localPath, p.total) ==
       (r.intent, r.server, r.repo, r.path, r.localPath, r.files)
    && 0 <= p.completed && p.completed <= r.files
  }

  /** A reply that reports this intention as not finished yet. */
  predicate Ongoing(r: Request, reply: Reply) {
    && reply.Reported? && Answers(r, reply.progress)
    && (reply.progress.state == Queued || reply.progress.state == Running)
  }

  // ----- What a trace may be -------------------------------------------------------------------

  predicate IsCall(e: Event) {
    e.Submitted? || e.Read?
  }

  ghost function Calls(t: seq<Event>): nat {
    if t == [] then 0 else Calls(t[..|t| - 1]) + if IsCall(t[|t| - 1]) then 1 else 0
  }

  ghost function Reads(t: seq<Event>): nat {
    if t == [] then 0 else Reads(t[..|t| - 1]) + if t[|t| - 1].Read? then 1 else 0
  }

  /** The time after the trace: what its calls took and what was waited. */
  ghost function Clock(x: Surroundings, t: seq<Event>): nat {
    if t == [] then x.start
    else
      var e := t[|t| - 1];
      Clock(x, t[..|t| - 1]) + if e.Waited? then e.ms else if IsCall(e) then e.reaction.elapsed else 0
  }

  /** What may come next: the check, one submission if it passed, a read right after a submission
      whose answer was lost or after a wait, and a wait of a second when the last reply says the
      release is not finished and the wait ends by the deadline. */
  ghost predicate MayFollow(r: Request, x: Surroundings, t: seq<Event>, e: Event) {
    match e
    case Checked(ok) => t == [] && ok == x.current
    case Submitted(request, _) => t == [Checked(true)] && request == r
    case Read(intent, _) =>
      && intent == r.intent && t != []
      && var last := t[|t| - 1]; last.Waited? || (last.Submitted? && last.reaction.reply == Lost)
    case Waited(ms) =>
      && ms == POLL && t != [] && IsCall(t[|t| - 1]) && Ongoing(r, t[|t| - 1].reaction.reply)
      && Clock(x, t) + POLL <= x.deadline
  }

  /** Every event may follow those before it, and the k-th call brings the daemon's k-th reaction. */
  ghost predicate IsTrace(r: Request, x: Surroundings, t: seq<Event>) {
    t != [] ==>
      var before, e := t[..|t| - 1], t[|t| - 1];
      IsTrace(r, x, before) && CanFollow(r, x, before, e)
  }

  ghost predicate CanFollow(r: Request, x: Surroundings, t: seq<Event>, e: Event) {
    MayFollow(r, x, t, e) && (IsCall(e) ==> e.reaction == x.daemon(Calls(t)))
  }

  /** Nothing can happen any more. */
  ghost predicate IsFinal(r: Request, x: Surroundings, t: seq<Event>) {
    forall e :: !CanFollow(r, x, t, e)
  }

  lemma {:induction false} TraceTo(r: Request, x: Surroundings, t: seq<Event>, n: nat)
    requires IsTrace(r, x, t) && n <= |t|
    ensures IsTrace(r, x, t[..n]) && (n < |t| ==> CanFollow(r, x, t[..n], t[n]))
  {
    if n == |t| {
      assert t[..n] == t;
    } else if n < |t| - 1 {
      TraceTo(r, x, t[..|t| - 1], n);
      assert t[..|t| - 1][..n] == t[..n];
    }
  }

  lemma {:induction false} AsLongAsSame(r: Request, x: Surroundings, t: seq<Event>, u: seq<Event>)
    requires IsTrace(r, x, t) && IsTrace(r, x, u) && |t| == |u|
    ensures t == u
  {
    if t != [] {
      var n := |t| - 1;
      AsLongAsSame(r, x, t[..n], u[..n]);
      assert CanFollow(r, x, t[..n], t[n]) && CanFollow(r, x, t[..n], u[n]);
      assert t == t[..n] + [t[n]] && u == u[..n] + [u[n]];
    }
  }

  /** The surroundings determine the trace: of any two, one is the beginning of the other; so there
      is only one to the end. */
  lemma OnlyOneTrace(r: Request, x: Surroundings, t: seq<Event>, u: seq<Event>)
    requires IsTrace(r, x, t) && IsTrace(r, x, u) && |t| <= |u|
    ensures t <= u && (IsFinal(r, x, t) ==> t == u)
  {
    TraceTo(r, x, u, |t|);
    AsLongAsSame(r, x, t, u[..|t|]);
  }

  lemma Append(r: Request, x: Surroundings, t: seq<Event>, e: Event)
    requires IsTrace(r, x, t) && CanFollow(r, x, t, e)
    ensures IsTrace(r, x, t + [e])
    ensures Calls(t + [e]) == Calls(t) + if IsCall(e) then 1 else 0
    ensures Clock(x, t + [e]) ==
              Clock(x, t) + if e.Waited? then e.ms else if IsCall(e) then e.reaction.elapsed else 0
  {
    assert (t + [e])[..|t|] == t;
  }

  // ----- What such a trace means ---------------------------------------------------------------

  /** A passed check, the one submission, and nothing but polling after it. */
  ghost predicate SubmittedOnce(r: Request, t: seq<Event>) {
    && |t| >= 2 && t[0] == Checked(true) && t[1].Submitted? && t[1].request == r
    && forall i :: 2 <= i < |t| ==> (t[i].Read? && t[i].intent == r.intent) || t[i] == Waited(POLL)
  }

  /** Whatever the daemon answers, the release is submitted at most once, after a passed check. */
  lemma {:induction false} TraceSubmitsOnce(r: Request, x: Surroundings, t: seq<Event>)
    requires IsTrace(r, x, t)
    ensures |t| >= 1 ==> t[0] == Checked(x.current)
    ensures |t| >= 2 ==> x.current && SubmittedOnce(r, t)
  {
    if t != [] {
      TraceSubmitsOnce(r, x, t[..|t| - 1]);
    }
  }

  /** Every read but one is paid for with a second of the budget. */
  lemma {:induction false} ReadsArePaid(r: Request, x: Surroundings, t: seq<Event>)
    requires IsTrace(r, x, t)
    ensures var waiting := if t != [] && t[|t| - 1].Waited? then 1 else 0;
            && Clock(x, t) >= x.start
            && (Reads(t) + waiting > 1 ==> x.start + POLL * (Reads(t) + waiting - 1) <= x.deadline)
            && Clock(x, t) >= x.start + POLL * (Reads(t) + waiting - 1)
            && (|t| < 3 ==> Reads(t) + waiting == 0)
  {
    if t != [] {
      ReadsArePaid(r, x, t[..|t| - 1]);
    }
  }

  ghost function MostReads(x: Surroundings): nat {
    1 + if x.start <= x.deadline then (x.deadline - x.start) / POLL else 0
  }

  lemma ReadsAreBounded(r: Request, x: Surroundings, t: seq<Event>)
    requires IsTrace(r, x, t)
    ensures Reads(t) <= MostReads(x)
  {
    ReadsArePaid(r, x, t);
  }

  // ----- The outcome -------------------------------------------------------------------------------

  /** The outcome is what the last call's reply says; the release is left queued only when the next
      read would come after the deadline. */
  ghost predicate Ends(r: Request, o: Outcome, x: Surroundings, t: seq<Event>) {
    if o == Forbidden then t == [Checked(false)]
    else
      && t != [] && IsCall(t[|t| - 1])
      && var reply := t[|t| - 1].reaction.reply;
         match o
         case Rejected => t[|t| - 1].Submitted? && reply == Refused
         case Unknown => !reply.Reported? && (t[|t| - 1].Submitted? ==> reply == Nothing)
         case Invalid => reply.Reported? && (!Answers(r, reply.progress) || reply.progress.state == Strange)
         case StillQueued => Ongoing(r, reply) && Clock(x, t) + POLL > x.deadline
         case Finished(p) => reply == Reported(p) && Answers(r, p) && (p.state == Attached || p.state == Failed)
         case Forbidden => false
  }

  /** What one reply decides, if it ends the wait. */
  method Decide(r: Request, reply: Reply) returns (outcome: Option<Outcome>)
    ensures outcome.None? <==> Ongoing(r, reply)
    ensures outcome.Some? ==>
              match outcome.value
              case Unknown => !reply.Reported?
              case Invalid => reply.Reported? && (!Answers(r, reply.progress) || reply.progress.state == Strange)
              case Finished(p) => reply == Reported(p) && Answers(r, p) && (p.state == Attached || p.state == Failed)
              case _ => false
  {
    if !reply.Reported? {
      return Some(Unknown);
    }
    var p := reply.progress;
    if !Answers(r, p) {
      return Some(Invalid);
    }
    match p.state
    case Attached => outcome := Some(Finished(p));
    case Failed => outcome := Some(Finished(p));
    case Queued => outcome := None;
    case Running => outcome := None;
    case Strange => outcome := Some(Invalid);
  }

  /** One more wait and read, if the deadline allows. */
  method PollOnce(r: Request, x: Surroundings, clock: nat, calls: nat, ghost t: seq<Event>)
    returns (next: Option<Reaction>, ghost after: seq<Event>)
    requires x.current && IsTrace(r, x, t) && clock == Clock(x, t) && calls == Calls(t)
    requires t != [] && IsCall(t[|t| - 1]) && Ongoing(r, t[|t| - 1].reaction.reply)
    ensures next.None? ==> clock + POLL > x.deadline && after == t
    ensures next.Some? ==>
              && clock + POLL <= x.deadline && IsTrace(r, x, after)
              && after != [] && after[|after| - 1] == Read(r.intent, next.value)
              && Clock(x, after) == clock + POLL + next.value.elapsed && Calls(after) == calls + 1
  {
    after := t;
    if clock + POLL > x.deadline {
      return None, after;
    }
    Append(r, x, t, Waited(POLL));
    var reaction := x.daemon(calls);
    Append(r, x, t + [Waited(POLL)], Read(r.intent, reaction));
    after := t + [Waited(POLL)] + [Read(r.intent, reaction)];
    next := Some(reaction);
  }

  /** The loop of status reads. */
  method Poll(r: Request, x: Surroundings, first: Reply, at: nat, done: nat, ghost before: seq<Event>)
    returns (outcome: Outcome, ghost trace: seq<Event>)
    requires x.current && IsTrace(r, x, before) && at == Clock(x, before) && done == Calls(before)
    requires before != [] && IsCall(before[|before| - 1]) && before[|before| - 1].reaction.reply == first
    requires before[|before| - 1].Submitted? ==> first != Lost && first != Refused
    ensures IsTrace(r, x, trace) && Ends(r, outcome, x, trace)
    ensures outcome != Forbidden && outcome != Rejected
  {
    var reply, clock, calls := first, at, done;
    trace := before;
    while true
      invariant IsTrace(r, x, trace) && clock == Clock(x, trace) && calls == Calls(trace)
      invariant trace != [] && IsCall(trace[|trace| - 1]) && trace[|trace| - 1].reaction.reply == reply
      invariant trace[|trace| - 1].Submitted? ==> reply != Lost && reply != Refused
      decreases x.deadline - clock
    {
      var decided := Decide(r, reply);
      if decided.Some? {
        return decided.value, trace;
      }
      var next, after := PollOnce(r, x, clock, calls, trace);
      if next.None? {
        return StillQueued, trace;
      }
      reply, clock, calls, trace := next.value.reply, clock + POLL + next.value.elapsed, calls + 1, after;
    }
  }

  /** The trace up to the check, and up to the submission. */
  lemma Beginning(r: Request, x: Surroundings) returns (checked: seq<Event>, submitted: seq<Event>)
    ensures checked == [Checked(x.current)] && IsTrace(r, x, checked)
    ensures submitted == checked + [Submitted(r, x.daemon(0))]
    ensures x.current ==>
              IsTrace(r, x, submitted) && Calls(submitted) == 1 && Clock(x, submitted) == x.start + x.daemon(0).elapsed
  {
    Append(r, x, [], Checked(x.current));
    checked := [] + [Checked(x.current)];
    submitted := checked + [Submitted(r, x.daemon(0))];
    if x.current {
      Append(r, x, checked, Submitted(r, x.daemon(0)));
    }
  }

  /** After a passed check: the submission, a status read if its answer was lost, and the loop. */
  method Submit(r: Request, x: Surroundings, ghost before: seq<Event>)
    returns (outcome: Outcome, ghost trace: seq<Event>)
    requires x.current && IsTrace(r, x, before) && Calls(before) == 1
    requires before != [] && before[|before| - 1] == Submitted(r, x.daemon(0))
    requires Clock(x, before) == x.start + x.daemon(0).elapsed
    ensures IsTrace(r, x, trace) && Ends(r, outcome, x, trace) && outcome != Forbidden
  {
    trace := before;
    var submitted := x.daemon(0);
    if submitted.reply == Refused {
      outcome := Rejected;
    } else if submitted.reply == Lost {
      var status := x.daemon(1);
      Append(r, x, trace, Read(r.intent, status));
      trace := trace + [Read(r.intent, status)];
      outcome, trace :=
        Poll(r, x, status.reply, x.start + submitted.elapsed + status.elapsed, 2, trace);
    } else {
      outcome, trace := Poll(r, x, submitted.reply, x.start + submitted.elapsed, 1, trace);
    }
  }

  /** `queuedFolderRelease`, against a daemon that may answer anything: the trace of the daemon's own
      reactions, to its end, and the outcome its last reply means. */
  method QueuedRelease(r: Request, x: Surroundings)
    returns (outcome: Outcome, ghost trace: seq<Event>)
    ensures IsTrace(r, x, trace) && IsFinal(r, x, trace) && Ends(r, outcome, x, trace)
    ensures if x.current then SubmittedOnce(r, trace) else outcome == Forbidden
    ensures Reads(trace) <= MostReads(x)
    ensures outcome.Finished? ==>
              && IsAbout(r, outcome.progress)
              && (outcome.progress.state == Attached || outcome.progress.state == Failed)
              && trace[|trace| - 1].reaction.reply == Reported(outcome.progress)
    ensures outcome == Invalid ==>
              && trace[|trace| - 1].reaction.reply.Reported?
              && var p := trace[|trace| - 1].reaction.reply.progress; !IsAbout(r, p) || p.state == Strange
    ensures outcome == StillQueued ==>
              && trace[|trace| - 1].reaction.reply.Reported? && Clock(x, trace) + 1000 > x.deadline
              && var p := trace[|trace| - 1].reaction.reply.progress;
                 IsAbout(r, p) && (p.state == Queued || p.state == Running)
  {
    ghost var checked, submitted := Beginning(r, x);
    if x.current {
      outcome, trace := Submit(r, x, submitted);
      TraceHasSubmission(r, x, trace);
    } else {
      outcome, trace := Forbidden, checked;
    }
    EndIsFinal(r, outcome, x, trace);
    TraceSubmitsOnce(r, x, trace);
    ReadsAreBounded(r, x, trace);
  }

  lemma EndIsFinal(r: Request, o: Outcome, x: Surroundings, t: seq<Event>)
    requires IsTrace(r, x, t) && Ends(r, o, x, t)
    ensures IsFinal(r, x, t)
  {
  }

  lemma TraceHasSubmission(r: Request, x: Surroundings, t: seq<Event>)
    requires IsTrace(r, x, t) && t != [] && IsCall(t[|t| - 1])
    ensures |t| >= 2
  {
  }
}
