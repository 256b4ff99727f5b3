/** One window shared by all prompts: each prompt shows it, waits for a choice, and leaves a timer
    that hides it later unless another prompt took it over (cmd/filees-gui-wails/prompt_service.go).
    The threads are the presenter inside the gate, the timers, and the calls of Resolve between
    their critical section and their send; any step of any of them may come next. */
module PromptService {
  import opened Basics

  // ----- The fields behind `mu` ------------------------------------------------------------------

  datatype Mode = Text | Select | Confirm | Info

  datatype Snapshot = Snapshot(revision: nat, mode: Mode, options: seq<string>)
  datatype Choice = Choice(revision: nat, confirmed: bool, value: string)
  datatype Code = Accepted | ContextChanged | Busy | InvalidChoice

  /** A session is known by the revision it began with; `canShow` and `canHide` say whether a window is
      attached. */
  datatype Fields = Fields(
    snapshot: Snapshot, active: Option<nat>, revision: nat, resolved: set<nat>, canShow: bool, canHide: bool)

  /** A confirmed choice of a selection is one of its options. */
  predicate Fits(snapshot: Snapshot, c: Choice) {
    c.confirmed && snapshot.mode == Select ==> Trim(c.value) in snapshot.options
  }

  function Opened(f: Fields, mode: Mode, options: seq<string>): Fields {
    var n := f.revision + 1;
    f.(revision := n, snapshot := Snapshot(n, mode, options), active := Some(n))
  }

  function Verdict(f: Fields, c: Choice): Code {
    if f.active.None? || c.revision != f.snapshot.revision then ContextChanged
    else if f.active.value in f.resolved then Busy
    else if !Fits(f.snapshot, c) then InvalidChoice
    else Accepted
  }

  function Closed(f: Fields, session: nat): Fields {
    if f.active == Some(session) then f.(active := None) else f
  }

  predicate MayHide(f: Fields, revision: nat) {
    f.snapshot.revision == revision && f.active.None?
  }

  // ----- All threads --------------------------------------------------------------------------------

  /** Where the presenter inside the gate is. */
  datatype Phase =
    | Outside
    | Begun(shows: bool)
    | Holding
    | Painted
    | Waiting(shown: bool)
    | Ended(shown: bool, outcome: Option<Choice>)
    | Closing(hides: bool)

  /** Who holds the `presentation` lock; a timer also knows what it read, once it has. */
  datatype Window = Free | Presenting | Hiding(revision: nat, check: Option<bool>)

  datatype Sending = Sending(session: nat, choice: Choice)

  /** The sends under way and the one-slot channel of each session; and on record: the snapshot of
      each session, the choice accepted for it and the choice received from it. */
  datatype Mail = Mail(
    sending: multiset<Sending>, channels: map<nat, seq<Choice>>,
    snapshots: map<nat, Snapshot>, accepted: map<nat, Choice>, received: map<nat, Choice>)

  /** The fields, the threads, the window, the mail, and whether the last prompt found a way to hide
      attached. */
  datatype State = State(
    fields: Fields, phase: Phase, session: nat, window: Window, armed: multiset<nat>, visible: bool, hides: bool,
    mail: Mail)

  const INITIAL :=
    State(Fields(Snapshot(0, Text, []), None, 0, {}, false, false), Outside, 0, Free, multiset{}, false, true,
          Mail(multiset{}, map[], map[], map[], map[]))

  datatype Event =
    | Attach(canShow: bool, canHide: bool)
    | Open(mode: Mode, options: seq<string>)
    | SkipShow | TakeWindow | Show | GiveWindow
    | Resolve(choice: Choice)
    | Send(what: Sending)
    | Receive | GiveUp
    | Close | Leave
    | Fire(revision: nat) | Check | Hide | Drop

  predicate Enabled(s: State, e: Event) {
    match e
    case Attach(_, _) => true
    case Open(_, _) => s.phase == Outside
    case SkipShow => s.phase == Begun(false)
    case TakeWindow => s.phase == Begun(true) && s.window == Free
    case Show => s.phase == Holding
    case GiveWindow => s.phase == Painted
    case Resolve(_) => true
    case Send(what) => what in s.mail.sending && HasRoom(s.mail, what.session)
    case Receive => s.phase.Waiting? && HasChoice(s.mail, s.session)
    case GiveUp => s.phase.Waiting?
    case Close => s.phase.Ended?
    case Leave => s.phase.Closing?
    case Fire(revision) => revision in s.armed && s.window == Free
    case Check => s.window.Hiding? && s.window.check == None
    case Hide => s.window.Hiding? && s.window.check == Some(true)
    case Drop => s.window.Hiding? && s.window.check == Some(false)
  }

  predicate HasRoom(m: Mail, session: nat) {
    session in m.channels && |m.channels[session]| < 1
  }

  predicate HasChoice(m: Mail, session: nat) {
    session in m.channels && m.channels[session] != []
  }

  function AddSession(m: Mail, snapshot: Snapshot): Mail {
    m.(channels := m.channels[snapshot.revision := []], snapshots := m.snapshots[snapshot.revision := snapshot])
  }

  function Accept(m: Mail, session: nat, c: Choice): Mail {
    m.(sending := m.sending + multiset{Sending(session, c)}, accepted := m.accepted[session := c])
  }

  function Deliver(m: Mail, what: Sending): Mail
    requires HasRoom(m, what.session)
  {
    m.(sending := m.sending - multiset{what},
       channels := m.channels[what.session := m.channels[what.session] + [what.choice]])
  }

  function Take(m: Mail, session: nat): Mail
    requires HasChoice(m, session)
  {
    var slot := m.channels[session];
    m.(channels := m.channels[session := slot[1..]], received := m.received[session := slot[0]])
  }

  function Step(s: State, e: Event): State
    requires Enabled(s, e)
  {
    match e
    case Attach(canShow, canHide) => s.(fields := s.fields.(canShow := canShow, canHide := canHide))
    case Open(mode, options) =>
      var f := Opened(s.fields, mode, options);
      s.(fields := f, phase := Begun(f.canShow), session := f.revision, mail := AddSession(s.mail, f.snapshot))
    case SkipShow => s.(phase := Waiting(false))
    case TakeWindow => s.(phase := Holding, window := Presenting)
    case Show => s.(phase := Painted, visible := true)
    case GiveWindow => s.(phase := Waiting(true), window := Free)
    case Resolve(c) =>
      if Verdict(s.fields, c) != Accepted then s
      else
        var n := s.fields.active.value;
        s.(fields := s.fields.(resolved := s.fields.resolved + {n}), mail := Accept(s.mail, n, c))
    case Send(what) => s.(mail := Deliver(s.mail, what))
    case Receive =>
      s.(phase := Ended(s.phase.shown, Some(s.mail.channels[s.session][0])), mail := Take(s.mail, s.session))
    case GiveUp => s.(phase := Ended(s.phase.shown, None))
    case Close =>
      s.(fields := Closed(s.fields, s.session), phase := Closing(s.fields.canHide), hides := s.fields.canHide)
    case Leave => s.(phase := Outside, armed := if s.phase.hides then s.armed + multiset{s.session} else s.armed)
    case Fire(revision) => s.(armed := s.armed - multiset{revision}, window := Hiding(revision, None))
    case Check => s.(window := s.window.(check := Some(MayHide(s.fields, s.window.revision))))
    case Hide => s.(visible := false, window := s.window.(check := Some(false)))
    case Drop => s.(window := Free)
  }

  // ----- What every step keeps ------------------------------------------------------------------

  predicate Inside(p: Phase) {
    !p.Outside? && !p.Closing?
  }

  predicate HasShown(p: Phase) {
    p == Painted || (p.Waiting? && p.shown) || (p.Ended? && p.shown)
  }

  /** The active session is the presenter's, and the newest. */
  predicate ControlInv(s: State) {
    && s.fields.snapshot.revision == s.fields.revision
    && (s.fields.active == if Inside(s.phase) then Some(s.session) else None)
    && (!s.phase.Outside? ==> s.session == s.fields.revision > 0)
    && (s.window == Presenting <==> s.phase == Holding || s.phase == Painted)
    && (s.phase.Closing? ==> s.hides == s.phase.hides)
  }

  /** The timer of the newest prompt is still going to hide the window. */
  predicate HideDue(s: State) {
    || s.fields.revision in s.armed
    || (s.window.Hiding? && s.window.revision == s.fields.revision && s.window.check != Some(false))
  }

  predicate WindowInv(s: State) {
    && (HasShown(s.phase) ==> s.visible && !(s.window.Hiding? && s.window.check == Some(true)))
    && (s.visible && s.phase == Outside && s.hides ==> HideDue(s))
  }

  lemma StepKeepsControl(s: State, e: Event)
    requires ControlInv(s) && Enabled(s, e)
    ensures ControlInv(Step(s, e))
  {
  }

  lemma StepKeepsWindow(s: State, e: Event)
    requires ControlInv(s) && WindowInv(s) && Enabled(s, e)
    ensures WindowInv(Step(s, e))
  {
  }

  /** Sessions are numbered from one, each with its channel and the snapshot it was opened with;
      what was accepted names its session and fits its snapshot. */
  ghost predicate SessionsInv(f: Fields, m: Mail) {
    && (forall n :: n in m.channels <==> 1 <= n <= f.revision)
    && (forall n :: n in m.snapshots <==> 1 <= n <= f.revision)
    && (f.revision > 0 ==> m.snapshots[f.revision] == f.snapshot)
    && m.accepted.Keys == f.resolved
    && (forall n :: n in m.accepted ==>
         n in m.snapshots && m.accepted[n].revision == n && Fits(m.snapshots[n], m.accepted[n]))
  }

  /** Each send under way is the one of its session, and its channel is empty. */
  ghost predicate SendingInv(m: Mail) {
    forall x :: x in m.sending ==>
      && m.sending[x] == 1
      && x.session in m.accepted && m.accepted[x.session] == x.choice
      && x.session in m.channels && m.channels[x.session] == []
      && x.session !in m.received
  }

  ghost predicate SlotInv(m: Mail) {
    forall n :: n in m.channels ==>
      m.channels[n] == [] || (n in m.accepted && m.channels[n] == [m.accepted[n]] && n !in m.received)
  }

  /** A choice, once accepted, is about to be sent, or in its channel, or was received; it is never
      lost, and nothing else is received. */
  ghost predicate Accounted(m: Mail) {
    && (forall n :: n in m.received ==> n in m.accepted && m.received[n] == m.accepted[n])
    && (forall n :: n in m.accepted ==>
          n in m.received || Sending(n, m.accepted[n]) in m.sending ||
            (n in m.channels && m.channels[n] == [m.accepted[n]]))
  }

  ghost predicate MailInv(f: Fields, m: Mail) {
    SessionsInv(f, m) && SendingInv(m) && SlotInv(m) && Accounted(m)
  }

  lemma OpenKeepsMail(f: Fields, m: Mail, mode: Mode, options: seq<string>)
    requires MailInv(f, m)
    ensures var g := Opened(f, mode, options); MailInv(g, AddSession(m, g.snapshot))
  {
    assert f.revision + 1 !in m.channels && f.revision + 1 !in m.snapshots;
  }

  /** Nothing of a session is under way before its choice is accepted. */
  lemma AcceptKeepsSending(f: Fields, m: Mail, n: nat, c: Choice)
    requires MailInv(f, m) && n in m.channels && n !in m.accepted
    ensures SendingInv(Accept(m, n, c)) && SlotInv(Accept(m, n, c))
  {
    var t := Accept(m, n, c);
    assert m.channels[n] == [] && n !in m.received;
    forall x | x in t.sending
      ensures if x.session == n then x == Sending(n, c) && t.sending[x] == 1
          else x in m.sending && t.sending[x] == m.sending[x]
    {
    }
  }

  lemma AcceptKeepsMail(f: Fields, m: Mail, c: Choice)
    requires MailInv(f, m) && Verdict(f, c) == Accepted && f.active.value == f.snapshot.revision == f.revision > 0
    ensures var n := f.active.value; MailInv(f.(resolved := f.resolved + {n}), Accept(m, n, c))
  {
    var n, t := f.active.value, Accept(m, f.active.value, c);
    assert n !in m.accepted.Keys && n in m.channels;
    AcceptKeepsSending(f, m, n, c);
    assert t.accepted.Keys == m.accepted.Keys + {n};
    assert Sending(n, c) in t.sending;
  }

  lemma DeliverKeepsMail(f: Fields, m: Mail, what: Sending)
    requires MailInv(f, m) && what in m.sending && HasRoom(m, what.session)
    ensures MailInv(f, Deliver(m, what))
  {
    var n, t := what.session, Deliver(m, what);
    assert t.channels[n] == [m.accepted[n]];
    forall x | x in t.sending
      ensures x in m.sending && x.session != n
    {
      assert x in m.sending && m.sending[what] == 1;
    }
  }

  lemma TakeKeepsMail(f: Fields, m: Mail, session: nat)
    requires MailInv(f, m) && HasChoice(m, session)
    ensures MailInv(f, Take(m, session))
    ensures var t := Take(m, session); session in t.received && t.received[session] == m.channels[session][0]
  {
    var t := Take(m, session);
    assert m.channels[session] == [m.accepted[session]] && t.channels[session] == [];
  }

  /** What the presenter returns is what it received. */
  ghost predicate ReturnsReceived(s: State) {
    s.phase.Ended? && s.phase.outcome.Some? ==>
      s.session in s.mail.received && s.mail.received[s.session] == s.phase.outcome.value
  }

  ghost predicate Inv(s: State) {
    ControlInv(s) && WindowInv(s) && MailInv(s.fields, s.mail) && ReturnsReceived(s)
  }

  lemma StepKeepsMail(s: State, e: Event)
    requires Inv(s) && Enabled(s, e)
    ensures MailInv(Step(s, e).fields, Step(s, e).mail) && ReturnsReceived(Step(s, e))
  {
    match e
    case Open(mode, options) => OpenKeepsMail(s.fields, s.mail, mode, options);
    case Resolve(c) =>
      if Verdict(s.fields, c) == Accepted {
        AcceptKeepsMail(s.fields, s.mail, c);
      }
    case Send(what) => DeliverKeepsMail(s.fields, s.mail, what);
    case Receive => TakeKeepsMail(s.fields, s.mail, s.session);
    case _ =>
  }

  // ----- Every interleaving -----------------------------------------------------------------------

  ghost function After(events: seq<Event>): Option<State> {
    if events == [] then Some(INITIAL)
    else
      var before, e := After(events[..|events| - 1]), events[|events| - 1];
      if before.Some? && Enabled(before.value, e) then Some(Step(before.value, e)) else None
  }

  lemma {:induction false} AlwaysInv(events: seq<Event>)
    requires After(events).Some?
    ensures Inv(After(events).value)
  {
    if events != [] {
      var before, e := events[..|events| - 1], events[|events| - 1];
      AlwaysInv(before);
      var s := After(before).value;
      StepKeepsControl(s, e);
      StepKeepsWindow(s, e);
      StepKeepsMail(s, e);
    }
  }

  /** A prompt that has shown its window and is still active is visible: no delayed hide of an
      earlier prompt takes it away. */
  lemma ActivePromptIsVisible(events: seq<Event>)
    requires After(events).Some?
    ensures var s := After(events).value; s.fields.active.Some? && HasShown(s.phase) ==> s.visible
  {
    AlwaysInv(events);
  }

  /** When no prompt is inside and no timer is left, the window is hidden, unless the last prompt had
      no way to hide it. */
  lemma NoOrphanWindow(events: seq<Event>)
    requires After(events).Some?
    ensures var s := After(events).value;
            s.phase == Outside && s.armed == multiset{} && s.window == Free && s.hides ==> !s.visible
  {
    AlwaysInv(events);
  }

  /** Every send under way finds its one-slot channel empty: it never blocks. */
  lemma SendNeverBlocks(events: seq<Event>, what: Sending)
    requires After(events).Some? && what in After(events).value.mail.sending
    ensures Enabled(After(events).value, Send(what))
  {
    AlwaysInv(events);
  }

  /** What a prompt returns without an error is the choice accepted for it: it names the prompt's
      own revision and, when it confirms a selection, one of the options then offered. */
  lemma ReturnedChoiceIsOwn(events: seq<Event>)
    requires After(events).Some?
    ensures var s := After(events).value;
            s.phase.Ended? && s.phase.outcome.Some? ==>
              && s.session in s.mail.snapshots && s.session in s.mail.accepted
              && s.phase.outcome.value == s.mail.accepted[s.session]
              && s.phase.outcome.value.revision == s.session
              && var offered, c := s.mail.snapshots[s.session], s.phase.outcome.value;
                 c.confirmed && offered.mode == Select ==> Trim(c.value) in offered.options
  {
    AlwaysInv(events);
  }

  /** A choice is accepted exactly when it names the active prompt, nothing was accepted for that
      prompt before, and it fits; afterwards no other choice is ever accepted for it. */
  lemma AcceptedOnce(events: seq<Event>, c: Choice)
    requires After(events).Some?
    ensures var s := After(events).value;
            Verdict(s.fields, c) == Accepted <==>
              && s.fields.active == Some(c.revision) && c.revision !in s.mail.accepted
              && (c.confirmed && s.fields.snapshot.mode == Select ==> Trim(c.value) in s.fields.snapshot.options)
  {
    AlwaysInv(events);
    AcceptsFirst(After(events).value, c);
  }

  /** A refusal says which of the three it was: the choice names no prompt that is active, one was
      accepted for that prompt before, or it confirms something that was not offered. */
  lemma RefusedBecause(events: seq<Event>, c: Choice)
    requires After(events).Some?
    ensures var s := After(events).value;
            && (Verdict(s.fields, c) == ContextChanged <==> s.fields.active != Some(c.revision))
            && (Verdict(s.fields, c) == Busy <==>
                  s.fields.active == Some(c.revision) && c.revision in s.mail.accepted)
            && (Verdict(s.fields, c) == InvalidChoice <==>
                  && s.fields.active == Some(c.revision) && c.revision !in s.mail.accepted
                  && c.confirmed && s.fields.snapshot.mode == Select && Trim(c.value) !in s.fields.snapshot.options)
  {
    AlwaysInv(events);
    VerdictsMean(After(events).value, c);
  }

  lemma VerdictsMean(s: State, c: Choice)
    requires Inv(s)
    ensures Verdict(s.fields, c) == ContextChanged <==> s.fields.active != Some(c.revision)
    ensures Verdict(s.fields, c) == Busy <==> s.fields.active == Some(c.revision) && c.revision in s.mail.accepted
    ensures Verdict(s.fields, c) == InvalidChoice <==>
              && s.fields.active == Some(c.revision) && c.revision !in s.mail.accepted
              && c.confirmed && s.fields.snapshot.mode == Select && Trim(c.value) !in s.fields.snapshot.options
  {
  }

  lemma StepKeepsAccepted(s: State, e: Event, n: nat)
    requires s.mail.accepted.Keys == s.fields.resolved && Enabled(s, e) && n in s.mail.accepted
    ensures n in Step(s, e).mail.accepted && Step(s, e).mail.accepted[n] == s.mail.accepted[n]
  {
    if e.Resolve? && Verdict(s.fields, e.choice) == Accepted {
      assert s.fields.active.value !in s.mail.accepted.Keys;
    }
  }

  lemma {:induction false} AcceptedForGood(events: seq<Event>, n: nat, i: nat)
    requires After(events).Some? && i <= |events| && After(events[..i]).Some? &&
        n in After(events[..i]).value.mail.accepted
    ensures n in After(events).value.mail.accepted
    ensures After(events).value.mail.accepted[n] == After(events[..i]).value.mail.accepted[n]
  {
    if i == |events| {
      assert events[..i] == events;
    } else {
      var before, e := events[..|events| - 1], events[|events| - 1];
      assert before[..i] == events[..i];
      AcceptedForGood(before, n, i);
      AlwaysInv(before);
      StepKeepsAccepted(After(before).value, e, n);
    }
  }

  lemma SomeStep(s: State) returns (e: Event)
    requires ControlInv(s)
    requires (s.phase != Outside && !s.phase.Waiting?) || s.window.Hiding? || s.armed != multiset{}
    ensures Enabled(s, e) && !e.Attach? && !e.Open? && !e.Resolve? && !e.Send?
  {
    if s.window.Hiding? {
      match s.window.check
      case None => e := Check;
      case Some(hiding) => e := if hiding then Hide else Drop;
    } else if s.window == Presenting {
      e := if s.phase == Holding then Show else GiveWindow;
    } else if s.phase.Begun? {
      e := if s.phase.shows then TakeWindow else SkipShow;
    } else if s.phase.Ended? {
      e := Close;
    } else if s.phase.Closing? {
      e := Leave;
    } else {
      var r :| r in s.armed;
      e := Fire(r);
    }
  }

  /** Nothing waits for itself: whatever the presenter or a timer has started, some step of theirs can
      be taken, except while a prompt waits for its user. */
  lemma NeverDeadlocked(events: seq<Event>) returns (e: Event)
    requires After(events).Some?
    requires var s := After(events).value;
        (s.phase != Outside && !s.phase.Waiting?) || s.window.Hiding? || s.armed != multiset{}
    ensures Enabled(After(events).value, e) && !e.Attach? && !e.Open? && !e.Resolve? && !e.Send?
  {
    AlwaysInv(events);
    e := SomeStep(After(events).value);
  }

  // ----- The service ------------------------------------------------------------------------------

  lemma Extend(events: seq<Event>, s: State, e: Event)
    requires After(events) == Some(s) && Enabled(s, e)
    ensures After(events + [e]) == Some(Step(s, e)) && Inv(s) && Inv(Step(s, e))
  {
    assert (events + [e])[..|events|] == events;
    AlwaysInv(events);
    AlwaysInv(events + [e]);
  }

  lemma OpensNew(s: State, mode: Mode, options: seq<string>)
    requires Inv(s) && s.phase == Outside
    ensures var f := Step(s, Event.Open(mode, options)).fields;
            f == Opened(s.fields, mode, options) && f.revision !in f.resolved
  {
    assert s.fields.revision + 1 !in s.mail.snapshots;
  }

  lemma ClosesOwn(s: State)
    requires Inv(s) && s.phase.Ended?
    ensures s.fields.active == Some(s.session)
    ensures Step(s, Event.Close).fields == Closed(s.fields, s.session) == s.fields.(active := None)
  {
  }

  lemma ResolveSets(s: State, c: Choice)
    ensures Step(s, Event.Resolve(c)).fields ==
              if Verdict(s.fields, c) == Accepted then
                s.fields.(resolved := s.fields.resolved + {s.fields.active.value})
              else s.fields
  {
  }

  lemma AcceptsFirst(s: State, c: Choice)
    requires Inv(s)
    ensures Verdict(s.fields, c) == Accepted <==>
              s.fields.active == Some(c.revision) && c.revision !in s.mail.accepted && Fits(s.fields.snapshot, c)
    ensures Verdict(s.fields, c) == Accepted ==> Sending(c.revision, c) in Step(s, Event.Resolve(c)).mail.sending
  {
  }

  /** The critical sections, each one step of a run of all threads. */
  class Service {
    var snapshot: Snapshot
    var active: Option<nat>
    var revision: nat
    var resolved: set<nat>
    var canShow: bool
    var canHide: bool
    /** The fields together with all threads, and every step taken so far. */
    ghost var state: State
    ghost var events: seq<Event>

    ghost function View(): Fields
      reads this
    {
      Fields(snapshot, active, revision, resolved, canShow, canHide)
    }

    ghost predicate Valid()
      reads this
    {
      After(events) == Some(state) && state.fields == View()
    }

    constructor ()
      ensures Valid() && events == []
    {
      snapshot, active, revision := Snapshot(0, Text, []), None, 0;
      resolved, canShow, canHide := {}, false, false;
      state, events := INITIAL, [];
    }

    /** `attachPresentation`. */
    method AttachPresentation(show: bool, hiding: bool)
      requires Valid()
      modifies `canShow, `canHide, `state, `events
      ensures Valid() && events == old(events) + [Attach(show, hiding)] && canShow == show && canHide == hiding
    {
      Extend(events, state, Attach(show, hiding));
      state, events := Step(state, Attach(show, hiding)), events + [Attach(show, hiding)];
      SetPresentation(show, hiding);
    }

    method SetPresentation(show: bool, hiding: bool)
      modifies `canShow, `canHide
      ensures View() == old(View()).(canShow := show, canHide := hiding)
    {
      canShow, canHide := show, hiding;
    }

    /** A step that touches none of the fields. */
    ghost method Proceed(e: Event)
      requires Valid() && Enabled(state, e) && Step(state, e).fields == state.fields
      modifies `state, `events
      ensures Valid() && events == old(events) + [e] && state == Step(old(state), e)
    {
      Extend(events, state, e);
      state, events := Step(state, e), events + [e];
    }

    /** The first critical section of `present`, inside the gate: the new session is the newest, the
        active one and not resolved. */
    method Open(mode: Mode, options: seq<string>) returns (session: nat, shows: bool)
      requires Valid() && state.phase == Outside
      modifies this
      ensures Valid() && events == old(events) + [Event.Open(mode, options)] &&
          state == Step(old(state), Event.Open(mode, options))
      ensures session == revision > old(revision) && active == Some(session) && session !in resolved && shows == canShow
    {
      ghost var e := Event.Open(mode, options);
      Extend(events, state, e);
      OpensNew(state, mode, options);
      state, events := Step(state, e), events + [e];
      session, shows := Begin(mode, options);
    }

    method Begin(mode: Mode, options: seq<string>) returns (session: nat, shows: bool)
      modifies `revision, `snapshot, `active
      ensures View() == Opened(old(View()), mode, options) && session == revision && shows == canShow
    {
      revision := revision + 1;
      session := revision;
      snapshot, active := Snapshot(revision, mode, options), Some(session);
      shows := canShow;
    }

    /** Accepted exactly for the first fitting choice that names the active prompt. */
    method Resolve(choice: Choice) returns (code: Code)
      requires Valid()
      modifies this
      ensures Valid() && events == old(events) + [Event.Resolve(choice)] &&
          state == Step(old(state), Event.Resolve(choice))
      ensures code == Verdict(old(View()), choice)
      ensures code == Accepted <==>
                && old(active) == Some(choice.revision) && choice.revision !in old(state).mail.accepted
                && (choice.confirmed && old(snapshot).mode == Select ==> Trim(choice.value) in old(snapshot).options)
      ensures code == ContextChanged <==> old(active) != Some(choice.revision)
      ensures code == Busy <==>
                old(active) == Some(choice.revision) && choice.revision in old(state).mail.accepted
      ensures code == InvalidChoice <==>
                && old(active) == Some(choice.revision) && choice.revision !in old(state).mail.accepted
                && choice.confirmed && old(snapshot).mode == Select && Trim(choice.value) !in old(snapshot).options
      ensures code == Accepted ==> Sending(choice.revision, choice) in state.mail.sending
      ensures code != Accepted ==> View() == old(View())
    {
      AlwaysInv(events);
      VerdictsMean(state, choice);
      AcceptsFirst(state, choice);
      code := Answer(choice);
    }

    method Answer(choice: Choice) returns (code: Code)
      requires Valid()
      modifies this
      ensures Valid() && events == old(events) + [Event.Resolve(choice)] &&
          state == Step(old(state), Event.Resolve(choice))
      ensures code == Verdict(old(View()), choice) && (code != Accepted ==> View() == old(View()))
    {
      ghost var e := Event.Resolve(choice);
      Extend(events, state, e);
      ResolveSets(state, choice);
      ghost var next := Step(state, e);
      code := Judge(choice);
      assert next.fields == View();
      state, events := next, events + [e];
    }

    method Judge(choice: Choice) returns (code: Code)
      modifies `resolved
      ensures code == Verdict(old(View()), choice)
      ensures View() == if code == Accepted then old(View()).(resolved := old(resolved) + {active.value})
          else old(View())
    {
      if active.None? || choice.revision != snapshot.revision {
        return ContextChanged;
      }
      if active.value in resolved {
        return Busy;
      }
      if choice.confirmed && snapshot.mode == Select {
        var known := OptionExists(snapshot.options, choice.value);
        if !known {
          return InvalidChoice;
        }
      }
      resolved := resolved + {active.value};
      return Accepted;
    }

    method OptionExists(options: seq<string>, value: string) returns (found: bool)
      ensures found <==> Trim(value) in options
    {
      for i := 0 to |options|
        invariant Trim(value) !in options[..i]
      {
        if options[i] == Trim(value) {
          return true;
        }
      }
      found := false;
    }

    /** The last critical section of `present`: the session it closes is always the active one. */
    method Close(session: nat) returns (hides: bool)
      requires Valid() && state.phase.Ended? && session == state.session
      modifies this
      ensures Valid() && events == old(events) + [Event.Close] && state == Step(old(state), Event.Close)
      ensures old(active) == Some(session) && active == None && hides == canHide
    {
      Extend(events, state, Event.Close);
      ClosesOwn(state);
      state, events := Step(state, Event.Close), events + [Event.Close];
      hides := End(session);
    }

    method End(session: nat) returns (hides: bool)
      modifies `active
      ensures View() == Closed(old(View()), session) && hides == canHide
    {
      if active == Some(session) {
        active := None;
      }
      hides := canHide;
    }

    /** What a timer reads before it hides the window: it goes ahead exactly for the newest prompt
        when none is inside, so never for a window that is being shown to anyone. */
    method CheckHide(of: nat) returns (clear: bool)
      requires Valid() && state.window == Hiding(of, None)
      modifies `state, `events
      ensures Valid() && events == old(events) + [Check] && state == Step(old(state), Check)
      ensures clear <==> of == revision && !Inside(state.phase)
      ensures clear <==> of == revision && active == None && (state.phase == Outside || state.phase.Closing?)
      ensures clear ==> !HasShown(state.phase)
      ensures clear <==> Enabled(state, Hide)
    {
      Proceed(Check);
      AlwaysInv(events);
      clear := snapshot.revision == of && active.None?;
    }
  }
}
