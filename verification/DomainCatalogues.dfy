/** The cache of the daemon's message catalogues: language switches, reconnects and replies that
    arrive in any order (cmd/filees-gui-wails/domain_messages.go).  Every critical section is one
    step; between two of them any other may run. */
module DomainCatalogues {
  import opened Basics

  /** A locale or a generation name: the empty string, or a first character and the rest. */
  datatype Tag = Blank | Tag(first: char, rest: string)

  function Tagged(text: string): Tag {
    if text == "" then Blank else Tag(text[0], text[1..])
  }

  datatype Catalogue = Catalogue(locale: Tag, id: Tag, messages: map<string, string>)

  /** A read as dispatched: the locale asked for and the connection it went out on. */
  datatype Read = Read(locale: Tag, connection: nat)
  datatype Answer = Answer(read: Read, catalogue: Catalogue)

  /** The provider's fields, and beside them the reads in flight, the answers that ever arrived
      and whether the read for the wanted locale failed since that locale was last asked for. */
  datatype State = State(
    wanted: Tag, catalogID: Tag, connection: nat, byLocale: map<Tag, Catalogue>, pending: set<Tag>,
    current: Option<Catalogue>, flying: multiset<Read>, answers: set<Answer>, missed: bool)

  datatype Event = Use(locale: Tag) | Refresh | Receive(read: Read, reply: Option<Catalogue>)

  const INITIAL := State(Blank, Blank, 0, map[], {}, None, multiset{}, {}, false)

  // ----- The steps ---------------------------------------------------------------------------

  function Using(s: State, locale: Tag): State {
    var t := s.(wanted := locale, missed := false);
    if locale == Blank then s
    else if locale in s.byLocale then t.(current := Some(s.byLocale[locale]))
    else if locale in s.pending then t
    else t.(pending := s.pending + {locale}, flying := s.flying + multiset{Read(locale, s.connection)})
  }

  function Dropped(s: State): State {
    s.(connection := s.connection + 1, byLocale := map[], catalogID := Blank, pending := {}, missed := false)
  }

  function Refreshed(s: State): State {
    var t := Dropped(s);
    if s.wanted == Blank then t
    else t.(pending := {s.wanted}, flying := s.flying + multiset{Read(s.wanted, s.connection + 1)})
  }

  function Recorded(answers: set<Answer>, read: Read, reply: Option<Catalogue>): set<Answer> {
    if reply.Some? then answers + {Answer(read, reply.value)} else answers
  }

  function Cached(s: State, c: Catalogue): map<Tag, Catalogue> {
    if s.catalogID != Blank && c.id != s.catalogID then map[c.locale := c] else s.byLocale[c.locale := c]
  }

  /** What a reply on the current connection does to the fields. */
  function Accepted(s: State, locale: Tag, reply: Option<Catalogue>): State {
    match reply
    case None => s.(pending := s.pending - {locale}, missed := s.missed || locale == s.wanted)
    case Some(c) =>
      s.(pending := s.pending - {locale}, catalogID := c.id, byLocale := Cached(s, c),
         current := if s.wanted == locale then Some(c) else s.current)
  }

  function Received(s: State, read: Read, reply: Option<Catalogue>): State {
    (if read.connection != s.connection then s else Accepted(s, read.locale, reply)).(
      flying := s.flying - multiset{read}, answers := Recorded(s.answers, read, reply))
  }

  predicate Enabled(s: State, e: Event) {
    e.Receive? ==> e.read in s.flying
  }

  function Step(s: State, e: Event): State {
    match e
    case Use(locale) => Using(s, locale)
    case Refresh => Refreshed(s)
    case Receive(read, reply) => Received(s, read, reply)
  }

  class Provider {
    var wanted: Tag
    var catalogID: Tag
    var connection: nat
    var byLocale: map<Tag, Catalogue>
    var pending: set<Tag>
    var current: Option<Catalogue>
    ghost var flying: multiset<Read>
    ghost var answers: set<Answer>
    ghost var missed: bool
    /** Everything that happened to the provider so far. */
    ghost var events: seq<Event>

    ghost function View(): State
      reads this
    {
      State(wanted, catalogID, connection, byLocale, pending, current, flying, answers, missed)
    }

    /** The fields are those of the run so far, which is one that can happen. */
    ghost predicate Valid()
      reads this
    {
      Possible(events) && View() == After(events)
    }

    constructor ()
      ensures Valid() && View() == INITIAL && events == []
    {
      events := [];
      wanted, catalogID, connection := Blank, Blank, 0;
      byLocale, pending, current := map[], {}, None;
      flying, answers, missed := multiset{}, {}, false;
    }

    method Use(text: string)
      requires Valid()
      modifies this
      ensures var locale := Tagged(Trim(text));
              Valid() && events == old(events) + [Event.Use(locale)] && View() == Using(old(View()), locale)
      ensures forall before, core, after :: IsCore(text, before, core, after) && core != "" ==>
                wanted == Tag(core[0], core[1..])
    {
      forall before, core, after | IsCore(text, before, core, after)
        ensures Trim(text) == core
      {
        TrimIsCore(text, before, core, after);
      }
      var locale := Tagged(Trim(text));
      ghost var next := Extend(events, Event.Use(locale));
      events := events + [Event.Use(locale)];
      Switch(locale);
    }

    method Switch(locale: Tag)
      modifies `wanted, `missed, `current, `pending, `flying
      ensures View() == Using(old(View()), locale)
    {
      if locale == Blank {
        return;
      }
      wanted, missed := locale, false;
      if locale in byLocale {
        current := Some(byLocale[locale]);
        return;
      }
      if locale in pending {
        return;
      }
      pending := pending + {locale};
      flying := flying + multiset{Read(locale, connection)};
    }

    method Refresh()
      requires Valid()
      modifies this
      ensures Valid() && events == old(events) + [Event.Refresh] && View() == Refreshed(old(View()))
    {
      ghost var next := Extend(events, Event.Refresh);
      events := events + [Event.Refresh];
      Renew();
    }

    method Renew()
      modifies `connection, `byLocale, `catalogID, `pending, `missed, `flying
      ensures View() == Refreshed(old(View()))
    {
      var locale := wanted;
      Drop();
      if locale != Blank {
        pending := {locale};
        flying := flying + multiset{Read(locale, connection)};
      }
    }

    method Drop()
      modifies `connection, `byLocale, `catalogID, `pending, `missed
      ensures View() == Dropped(old(View()))
    {
      connection := connection + 1;
      byLocale, catalogID, pending, missed := map[], Blank, {}, false;
    }

    /** The second half of `fetch`, when the read it dispatched comes back. */
    method Receive(read: Read, reply: Option<Catalogue>)
      requires Valid() && read in flying
      modifies this
      ensures Valid() && events == old(events) + [Event.Receive(read, reply)]
      ensures View() == Received(old(View()), read, reply)
    {
      ghost var next := Extend(events, Event.Receive(read, reply));
      events := events + [Event.Receive(read, reply)];
      if read.connection == connection {
        Accept(read.locale, reply);
      }
      flying, answers := flying - multiset{read}, Recorded(answers, read, reply);
    }

    method Accept(locale: Tag, reply: Option<Catalogue>)
      modifies `pending, `missed, `byLocale, `catalogID, `current
      ensures View() == Accepted(old(View()), locale, reply)
    {
      pending := pending - {locale};
      if reply.None? {
        missed := missed || locale == wanted;
        return;
      }
      var c := reply.value;
      if catalogID != Blank && c.id != catalogID {
        byLocale := map[];
      }
      catalogID := c.id;
      byLocale := byLocale[c.locale := c];
      if wanted == locale {
        current := Some(c);
      }
    }

    /** What rendering takes: once the read of the wanted locale is over and did not fail, it is a
        catalogue that arrived on this connection, for that locale or in it. */
    method Shown() returns (c: Option<Catalogue>)
      requires Valid()
      ensures c == current
      ensures wanted != Blank && Read(wanted, connection) !in flying && !missed ==>
                && c.Some?
                && exists l :: Event.Receive(Read(l, connection), Some(c.value)) in events
                            && (l == wanted || c.value.locale == wanted)
    {
      if wanted != Blank && Read(wanted, connection) !in flying && !missed {
        SettledMeansWanted(events);
        ShownArrived(events);
      }
      c := current;
    }
  }

  // ----- What every step keeps ---------------------------------------------------------------

  /** One read in flight on this connection for each pending locale, none for any other. */
  ghost predicate OneReadEach(s: State) {
    forall l {:trigger Read(l, s.connection)} {:trigger l in s.pending} ::
      s.flying[Read(l, s.connection)] == if l in s.pending then 1 else 0
  }

  ghost predicate NoReadAhead(s: State) {
    forall r :: r in s.flying ==> r.connection <= s.connection
  }

  ghost predicate ServedHere(s: State, c: Catalogue) {
    exists l :: Answer(Read(l, s.connection), c) in s.answers
  }

  /** Every cached entry sits under the locale it was served in, and came over this connection. */
  ghost predicate CacheIsServed(s: State) {
    forall l :: l in s.byLocale ==> s.byLocale[l].locale == l && ServedHere(s, s.byLocale[l])
  }

  /** What is shown came over this connection, in answer to the wanted locale or in it. */
  ghost predicate ShowsWanted(s: State) {
    && s.current.Some?
    && ServedHere(s, s.current.value)
    && (s.current.value.locale == s.wanted || Answer(Read(s.wanted, s.connection), s.current.value) in s.answers)
  }

  ghost predicate Settled(s: State) {
    s.wanted != Blank && s.wanted !in s.pending && !s.missed ==> ShowsWanted(s)
  }

  ghost predicate Consistent(s: State) {
    OneReadEach(s) && NoReadAhead(s) && CacheIsServed(s) && Settled(s)
  }

  lemma UseIsConsistent(s: State, locale: Tag)
    requires Consistent(s)
    ensures Consistent(Using(s, locale))
  {
    var t := Using(s, locale);
    assert t.answers == s.answers && t.connection == s.connection && t.byLocale == s.byLocale;
    forall c | ServedHere(s, c)
      ensures ServedHere(t, c)
    {
    }
  }

  lemma RefreshIsConsistent(s: State)
    requires Consistent(s)
    ensures Consistent(Refreshed(s))
  {
    var next := s.connection + 1;
    forall l: Tag
      ensures Read(l, next) !in s.flying
    {
    }
  }

  lemma LandingLosesNothing(s: State, read: Read, reply: Option<Catalogue>, c: Catalogue)
    requires ServedHere(s, c)
    ensures ServedHere(Received(s, read, reply), c)
  {
    var t := Received(s, read, reply);
    var l :| Answer(Read(l, s.connection), c) in s.answers;
    assert Answer(Read(l, t.connection), c) in t.answers;
  }

  lemma ReceiveCountsReads(s: State, read: Read, reply: Option<Catalogue>)
    requires OneReadEach(s) && NoReadAhead(s) && read in s.flying
    ensures OneReadEach(Received(s, read, reply)) && NoReadAhead(Received(s, read, reply))
  {
    var t := Received(s, read, reply);
    assert read == Read(read.locale, read.connection);
    assert t.connection == s.connection && t.flying == s.flying - multiset{read};
    assert t.pending == if read.connection == s.connection then s.pending - {read.locale} else s.pending;
  }

  lemma ReceiveIsConsistent(s: State, read: Read, reply: Option<Catalogue>)
    requires Consistent(s) && read in s.flying
    ensures Consistent(Received(s, read, reply))
  {
    ReceiveCountsReads(s, read, reply);
    ReceiveKeepsCache(s, read, reply);
    ReceiveKeepsShown(s, read, reply);
  }

  lemma ReceiveKeepsCache(s: State, read: Read, reply: Option<Catalogue>)
    requires CacheIsServed(s)
    ensures CacheIsServed(Received(s, read, reply))
  {
    var t := Received(s, read, reply);
    forall c | ServedHere(s, c)
      ensures ServedHere(t, c)
    {
      LandingLosesNothing(s, read, reply, c);
    }
    if read.connection == s.connection && reply.Some? {
      assert Answer(Read(read.locale, t.connection), reply.value) in t.answers;
    }
  }

  lemma ReceiveKeepsShown(s: State, read: Read, reply: Option<Catalogue>)
    requires Settled(s)
    ensures Settled(Received(s, read, reply))
  {
    var t := Received(s, read, reply);
    if s.current.Some? && ServedHere(s, s.current.value) {
      LandingLosesNothing(s, read, reply, s.current.value);
    }
    if read.connection == s.connection && reply.Some? {
      assert Answer(Read(read.locale, t.connection), reply.value) in t.answers;
    }
  }

  // ----- Every interleaving --------------------------------------------------------------------

  ghost function After(events: seq<Event>): State {
    if events == [] then INITIAL else Step(After(events[..|events| - 1]), events[|events| - 1])
  }

  /** Replies arrive only for reads in flight; everything else may happen at any time. */
  ghost predicate Possible(events: seq<Event>) {
    events != [] ==>
      var before := events[..|events| - 1]; Possible(before) && Enabled(After(before), events[|events| - 1])
  }

  lemma {:induction false} AlwaysConsistent(events: seq<Event>)
    requires Possible(events)
    ensures Consistent(After(events))
  {
    if events != [] {
      var before := events[..|events| - 1];
      AlwaysConsistent(before);
      match events[|events| - 1]
      case Use(locale) => UseIsConsistent(After(before), locale);
      case Refresh => RefreshIsConsistent(After(before));
      case Receive(read, reply) => ReceiveIsConsistent(After(before), read, reply);
    }
  }

  lemma StepRecords(s: State, e: Event)
    ensures Step(s, e).answers == if e.Receive? then Recorded(s.answers, e.read, e.reply) else s.answers
    ensures (e.Receive? ==> e.reply.Some?) && !s.missed ==> !Step(s, e).missed
  {
  }

  lemma Extend(events: seq<Event>, e: Event) returns (s: State)
    requires Possible(events) && Enabled(After(events), e)
    ensures Possible(events + [e]) && s == After(events + [e]) == Step(After(events), e)
  {
    assert (events + [e])[..|events|] == events;
    s := After(events + [e]);
  }

  /** The record of answers holds nothing but replies that arrived. */
  lemma {:induction false} AnswersArrived(events: seq<Event>, a: Answer)
    requires a in After(events).answers
    ensures Receive(a.read, Some(a.catalogue)) in events
  {
    var before, e := events[..|events| - 1], events[|events| - 1];
    StepRecords(After(before), e);
    if a in After(before).answers {
      AnswersArrived(before, a);
    } else {
      assert e == Receive(a.read, Some(a.catalogue));
    }
  }

  ghost predicate AllSucceed(events: seq<Event>) {
    forall e :: e in events && e.Receive? ==> e.reply.Some?
  }

  lemma {:induction false} NothingMissed(events: seq<Event>)
    requires AllSucceed(events)
    ensures !After(events).missed
  {
    if events != [] {
      var before, e := events[..|events| - 1], events[|events| - 1];
      assert e in events && forall d :: d in before ==> d in events;
      NothingMissed(before);
      StepRecords(After(before), e);
    }
  }

  /** What is shown for the wanted locale is a reply of the run. */
  lemma ShownArrived(events: seq<Event>)
    requires ShowsWanted(After(events))
    ensures var s := After(events);
            exists l :: Receive(Read(l, s.connection), Some(s.current.value)) in events
                     && (l == s.wanted || s.current.value.locale == s.wanted)
  {
    var s := After(events);
    if Answer(Read(s.wanted, s.connection), s.current.value) in s.answers {
      AnswersArrived(events, Answer(Read(s.wanted, s.connection), s.current.value));
    } else {
      var l :| Answer(Read(l, s.connection), s.current.value) in s.answers;
      AnswersArrived(events, Answer(Read(l, s.connection), s.current.value));
    }
  }

  /** When every read succeeds and none of the current connection is in flight, the catalogue
      shown arrived on that connection, in answer to the locale last asked for or served in it. */
  lemma QuietMeansWanted(events: seq<Event>)
    requires Possible(events) && AllSucceed(events)
    requires var s := After(events); s.wanted != Blank && forall r :: r in s.flying ==> r.connection != s.connection
    ensures var s := After(events);
            && s.current.Some?
            && exists l :: Receive(Read(l, s.connection), Some(s.current.value)) in events
                        && (l == s.wanted || s.current.value.locale == s.wanted)
  {
    var s := After(events);
    AlwaysConsistent(events);
    NothingMissed(events);
    assert Read(s.wanted, s.connection) !in s.flying;
    ShownArrived(events);
  }

  /** The same with failing reads: it is enough that the read of the wanted locale is over and did
      not fail since the locale was last chosen or the connection renewed. */
  lemma SettledMeansWanted(events: seq<Event>)
    requires Possible(events)
    requires var s := After(events); s.wanted != Blank && Read(s.wanted, s.connection) !in s.flying && !s.missed
    ensures ShowsWanted(After(events))
  {
    var s := After(events);
    AlwaysConsistent(events);
    assert s.flying[Read(s.wanted, s.connection)] == if s.wanted in s.pending then 1 else 0;
  }

  /** A locale is pending exactly when one read for it is in flight on the current connection, and
      never more than one is. */
  lemma PendingMeansInFlight(events: seq<Event>, locale: Tag)
    requires Possible(events)
    ensures var s := After(events);
            s.flying[Read(locale, s.connection)] == if locale in s.pending then 1 else 0
  {
    AlwaysConsistent(events);
  }

  // ----- What the fields remember of a run ---------------------------------------------------------

  predicate IsChoice(e: Event) {
    e.Use? && e.locale != Blank
  }

  lemma StepFields(s: State, e: Event)
    ensures Step(s, e).wanted == if IsChoice(e) then e.locale else s.wanted
    ensures Step(s, e).connection == if e.Refresh? then s.connection + 1 else s.connection
    ensures Step(s, e).missed <==>
              || e == Receive(Read(s.wanted, s.connection), None)
              || (s.missed && !IsChoice(e) && !e.Refresh?)
  {
  }

  lemma LastStep(events: seq<Event>) returns (before: seq<Event>, e: Event)
    requires events != []
    ensures before == events[..|events| - 1] && e == events[|events| - 1]
    ensures After(events).wanted == if IsChoice(e) then e.locale else After(before).wanted
    ensures After(events).connection == After(before).connection + if e.Refresh? then 1 else 0
    ensures After(events).missed <==>
              || e == Receive(Read(After(before).wanted, After(before).connection), None)
              || (After(before).missed && !IsChoice(e) && !e.Refresh?)
  {
    before, e := events[..|events| - 1], events[|events| - 1];
    StepFields(After(before), e);
  }

  /** The last locale chosen, the blank one if none was. */
  ghost function LastChosen(events: seq<Event>): Tag {
    if events == [] then Blank
    else if IsChoice(events[|events| - 1]) then events[|events| - 1].locale
    else LastChosen(events[..|events| - 1])
  }

  lemma {:induction false} LastChosenIs(events: seq<Event>, k: nat)
    requires k < |events| && IsChoice(events[k]) && forall m :: k < m < |events| ==> !IsChoice(events[m])
    ensures LastChosen(events) == events[k].locale
  {
    if k < |events| - 1 {
      LastChosenIs(events[..|events| - 1], k);
    }
  }

  lemma {:induction false} NoneChosen(events: seq<Event>)
    requires forall m :: 0 <= m < |events| ==> !IsChoice(events[m])
    ensures LastChosen(events) == Blank
  {
    if events != [] {
      NoneChosen(events[..|events| - 1]);
    }
  }

  /** The wanted locale is the last one chosen. */
  lemma {:induction false} WantedIsLastChosen(events: seq<Event>)
    ensures After(events).wanted == LastChosen(events)
  {
    if events != [] {
      var before, e := LastStep(events);
      WantedIsLastChosen(before);
    }
  }

  ghost function Reconnects(events: seq<Event>): nat {
    if events == [] then 0
    else Reconnects(events[..|events| - 1]) + if events[|events| - 1].Refresh? then 1 else 0
  }

  /** The connection is the number of reconnects. */
  lemma {:induction false} ConnectionCounts(events: seq<Event>)
    ensures After(events).connection == Reconnects(events)
  {
    if events != [] {
      var before, e := LastStep(events);
      ConnectionCounts(before);
    }
  }

  /** The read that would fetch the locale last chosen, on the current connection. */
  ghost function WantedRead(events: seq<Event>): Read {
    Read(LastChosen(events), Reconnects(events))
  }

  /** At `k` the read wanted at that time failed, and since then no locale was chosen and no connection
      renewed. */
  ghost predicate MissedAt(events: seq<Event>, k: nat) {
    && k < |events| && events[k] == Receive(WantedRead(events[..k]), None)
    && forall m :: k < m < |events| ==> !IsChoice(events[m]) && !events[m].Refresh?
  }

  lemma MissedBefore(events: seq<Event>, k: nat)
    requires k < |events| - 1
    ensures var n := |events| - 1;
            MissedAt(events, k) <==> MissedAt(events[..n], k) && !IsChoice(events[n]) && !events[n].Refresh?
  {
    var n := |events| - 1;
    assert events[..n][..k] == events[..k];
    if MissedAt(events[..n], k) && !IsChoice(events[n]) && !events[n].Refresh? {
      forall m | k < m < |events|
        ensures !IsChoice(events[m]) && !events[m].Refresh?
      {
        assert m < n ==> events[..n][m] == events[m];
      }
    }
  }

  /** The wanted read was missed. */
  ghost predicate Missed(events: seq<Event>) {
    exists k: nat :: MissedAt(events, k)
  }

  lemma MissedNext(events: seq<Event>)
    requires events != []
    ensures var before, e := events[..|events| - 1], events[|events| - 1];
            Missed(events) <==>
              e == Receive(WantedRead(before), None) || (Missed(before) && !IsChoice(e) && !e.Refresh?)
  {
    var n := |events| - 1;
    if k: nat :| MissedAt(events, k) {
      if k < n {
        MissedBefore(events, k);
      }
    }
    if k: nat :| MissedAt(events[..n], k) {
      MissedBefore(events, k);
    }
    if events[n] == Receive(WantedRead(events[..n]), None) {
      assert MissedAt(events, n);
    }
  }

  /** The wanted read counts as missed exactly if it failed since the locale was last chosen and the
      connection last renewed. */
  lemma {:induction false} MissedMeans(events: seq<Event>)
    ensures After(events).missed <==> Missed(events)
  {
    if events != [] {
      var before, e := LastStep(events);
      MissedMeans(before);
      MissedNext(events);
      WantedIsLastChosen(before);
      ConnectionCounts(before);
    }
  }

  // ----- What is shown, and what is kept ----------------------------------------------------------

  /** What is shown changes in two ways only: a cached locale is chosen, or the wanted read succeeds.
      Choosing any other locale, a new connection and a failed, late or unwanted read leave it. */
  lemma ShownChangesOnly(s: State, e: Event)
    ensures Step(s, e).current ==
              if IsChoice(e) && e.locale in s.byLocale then Some(s.byLocale[e.locale])
              else if e.Receive? && e.read == Read(s.wanted, s.connection) && e.reply.Some? then e.reply
              else s.current
  {
  }

  /** Some event between the two moments is a choice of a cached locale or the wanted answer. */
  ghost predicate ShowsAnew(events: seq<Event>, k: nat)
    requires k < |events|
  {
    var s := After(events[..k]);
    || (IsChoice(events[k]) && events[k].locale in s.byLocale)
    || (events[k].Receive? && events[k].read == Read(s.wanted, s.connection) && events[k].reply.Some?)
  }

  /** Whatever else happens meanwhile, the same catalogue stays in use. */
  lemma {:induction false} StaysShown(events: seq<Event>, i: nat)
    requires i <= |events| && forall k :: i <= k < |events| ==> !ShowsAnew(events, k)
    ensures After(events).current == After(events[..i]).current
  {
    if i == |events| {
      assert events[..i] == events;
    } else {
      var n := |events| - 1;
      var before := events[..n];
      assert before[..i] == events[..i];
      forall k | i <= k < n
        ensures !ShowsAnew(before, k)
      {
        assert before[..k] == events[..k];
        assert !ShowsAnew(events, k);
      }
      StaysShown(before, i);
      assert !ShowsAnew(events, n);
      ShownChangesOnly(After(before), events[n]);
    }
  }

  /** What a step leaves in the cache: nothing after a new connection; after an answer on the current
      one the catalogue served, and the others if it is of the generation on record or none is. */
  lemma CacheChangesOnly(s: State, e: Event, l: Tag)
    ensures var c := Step(s, e).byLocale;
            if e.Refresh? then l !in c
            else if e.Receive? && e.read.connection == s.connection && e.reply.Some? then
              if l == e.reply.value.locale then l in c && c[l] == e.reply.value
              else
                && (l in c <==> l in s.byLocale && (s.catalogID == Blank || s.catalogID == e.reply.value.id))
                && (l in c ==> c[l] == s.byLocale[l])
            else (l in c <==> l in s.byLocale) && (l in c ==> c[l] == s.byLocale[l])
    ensures Step(s, e).catalogID ==
              if e.Refresh? then Blank
              else if e.Receive? && e.read.connection == s.connection && e.reply.Some? then e.reply.value.id
              else s.catalogID
  {
  }

  // ----- Late replies --------------------------------------------------------------------------

  /** The same provider: all fields agree, whatever is in flight or on record. */
  ghost predicate SameFields(s: State, t: State) {
    s == t.(flying := s.flying, answers := s.answers)
  }

  /** The run without the replies that arrived after their connection was gone. */
  ghost function OnTime(events: seq<Event>): seq<Event> {
    if events == [] then []
    else
      var before, e := events[..|events| - 1], events[|events| - 1];
      if e.Receive? && e.read.connection != After(before).connection then OnTime(before) else OnTime(before) + [e]
  }

  lemma SameReceive(s: State, t: State, read: Read, reply: Option<Catalogue>)
    requires SameFields(s, t)
    ensures SameFields(Received(s, read, reply), Received(t, read, reply))
  {
  }

  lemma SameStep(s: State, t: State, e: Event)
    requires SameFields(s, t)
    ensures SameFields(Step(s, e), Step(t, e))
  {
    if e.Receive? {
      SameReceive(s, t, e.read, e.reply);
    }
  }

  /** The reads a step dispatches; they depend on the fields alone. */
  function Dispatched(s: State, e: Event): multiset<Read> {
    match e
    case Use(l) =>
      if l != Blank && l !in s.byLocale && l !in s.pending then multiset{Read(l, s.connection)} else multiset{}
    case Refresh => if s.wanted != Blank then multiset{Read(s.wanted, s.connection + 1)} else multiset{}
    case Receive(_, _) => multiset{}
  }

  lemma StepDispatches(s: State, e: Event)
    ensures Step(s, e).flying == if e.Receive? then s.flying - multiset{e.read} else s.flying + Dispatched(s, e)
  {
  }

  lemma SameAfterLate(s: State, t: State, e: Event)
    requires SameFields(s, t) && s.flying <= t.flying && e.Receive? && e.read.connection != s.connection
    ensures SameFields(Step(s, e), t) && Step(s, e).flying <= t.flying
  {
  }

  lemma SameOnTime(s: State, t: State, e: Event)
    requires SameFields(s, t) && s.flying <= t.flying && Enabled(s, e)
    ensures SameFields(Step(s, e), Step(t, e)) && Step(s, e).flying <= Step(t, e).flying && Enabled(t, e)
  {
    SameStep(s, t, e);
    StepDispatches(s, e);
    StepDispatches(t, e);
  }

  /** Replies from older connections change no field, neither at once nor later: every run ends with
      the fields of the run, just as possible, in which none of them ever arrived. */
  lemma {:induction false} LateRepliesAreErased(events: seq<Event>)
    requires Possible(events)
    ensures SameFields(After(events), After(OnTime(events))) && Possible(OnTime(events))
    ensures After(events).flying <= After(OnTime(events)).flying
  {
    if events != [] {
      var before, e := events[..|events| - 1], events[|events| - 1];
      LateRepliesAreErased(before);
      var s, t := After(before), After(OnTime(before));
      if e.Receive? && e.read.connection != s.connection {
        SameAfterLate(s, t, e);
      } else {
        SameOnTime(s, t, e);
        var u := Extend(OnTime(before), e);
      }
    }
  }

  // ----- Generations ---------------------------------------------------------------------------

  /** Every cached entry belongs to the generation on record. */
  ghost predicate OneGeneration(s: State) {
    forall l :: l in s.byLocale ==> s.byLocale[l].id == s.catalogID
  }

  /** Whether a successful reply keeps the cache to one generation: it fails exactly when the
      generation on record has the empty name, the new one has not, and another locale is cached. */
  lemma KeepsOneGeneration(s: State, read: Read, c: Catalogue)
    requires Consistent(s) && OneGeneration(s) && read in s.flying
    ensures OneGeneration(Received(s, read, Some(c))) <==>
              !(read.connection == s.connection && s.catalogID == Blank && c.id != Blank &&
                  s.byLocale.Keys - {c.locale} != {})
  {
    var t := Received(s, read, Some(c));
    if read.connection == s.connection && s.catalogID == Blank && c.id != Blank && s.byLocale.Keys - {c.locale} != {} {
      var l :| l in s.byLocale.Keys - {c.locale};
      assert t.byLocale[l].id != t.catalogID;
    } else if read.connection == s.connection && s.catalogID == Blank && c.id != Blank {
      assert forall l :: l in s.byLocale ==> l in s.byLocale.Keys - {c.locale} || l == c.locale;
    }
  }

  ghost predicate NamedGenerations(events: seq<Event>) {
    forall e :: e in events && e.Receive? && e.reply.Some? ==> e.reply.value.id != Blank
  }

  /** One generation, on record whenever anything is cached. */
  ghost predicate Named(s: State) {
    OneGeneration(s) && (s.catalogID == Blank ==> s.byLocale.Keys == {})
  }

  lemma ReceiveKeepsNamed(s: State, read: Read, reply: Option<Catalogue>)
    requires Consistent(s) && Named(s) && read in s.flying && (reply.Some? ==> reply.value.id != Blank)
    ensures Named(Received(s, read, reply))
  {
    if reply.Some? {
      KeepsOneGeneration(s, read, reply.value);
    } else {
      assert Received(s, read, reply).byLocale == s.byLocale;
    }
  }

  /** Given that every catalogue names its generation, the cache never mixes two, over every
      interleaving; and a generation is on record whenever anything is cached. */
  lemma {:induction false} GenerationsNeverMix(events: seq<Event>)
    requires Possible(events) && NamedGenerations(events)
    ensures Named(After(events))
  {
    if events != [] {
      var before, e := events[..|events| - 1], events[|events| - 1];
      assert e in events && forall d :: d in before ==> d in events;
      GenerationsNeverMix(before);
      AlwaysConsistent(before);
      match e
      case Use(_) => assert After(events).byLocale == After(before).byLocale;
      case Refresh => assert After(events).byLocale == map[];
      case Receive(read, reply) => ReceiveKeepsNamed(After(before), read, reply);
    }
  }

  lemma AskForBoth(a: Tag, b: Tag) returns (events: seq<Event>)
    requires a != Blank && b != Blank && a != b
    ensures Possible(events) && AllSucceed(events)
    ensures var s := After(events);
            s.flying == multiset{Read(a, 0), Read(b, 0)} && s.connection == 0 && s.byLocale == map[] &&
              s.catalogID == Blank
  {
    events := [];
    var s := Extend(events, Use(a));
    events := events + [Use(a)];
    s := Extend(events, Use(b));
    events := events + [Use(b)];
  }

  lemma AnswerNext(events: seq<Event>, read: Read, c: Catalogue) returns (more: seq<Event>)
    requires Possible(events) && AllSucceed(events) && read in After(events).flying
    ensures Possible(more) && AllSucceed(more) && After(more) == Received(After(events), read, Some(c))
  {
    var s := Extend(events, Receive(read, Some(c)));
    more := events + [Receive(read, Some(c))];
  }

  /** Two replies, the unnamed generation first. */
  lemma TwoRepliesMix(s: State, en: Catalogue, pl: Catalogue)
    requires en.locale != pl.locale && en.id == Blank && pl.id != Blank && s.byLocale == map[] && s.catalogID == Blank
    ensures var t := Received(s, Read(en.locale, s.connection), Some(en));
            t.connection == s.connection && !OneGeneration(Received(t, Read(pl.locale, s.connection), Some(pl)))
  {
    var t := Received(s, Read(en.locale, s.connection), Some(en));
    var u := Received(t, Read(pl.locale, s.connection), Some(pl));
    assert u.byLocale[en.locale] == en && u.catalogID == pl.id;
  }

  /** Without the names it can: two locales of different builds end up in one cache. */
  lemma UnnamedGenerationsMix(en: Catalogue, pl: Catalogue) returns (events: seq<Event>)
    requires en.locale != Blank && pl.locale != Blank && en.locale != pl.locale && en.id == Blank && pl.id != Blank
    ensures Possible(events) && AllSucceed(events) && !OneGeneration(After(events))
  {
    var asked := AskForBoth(en.locale, pl.locale);
    TwoRepliesMix(After(asked), en, pl);
    var answered := AnswerNext(asked, Read(en.locale, 0), en);
    events := AnswerNext(answered, Read(pl.locale, 0), pl);
  }
}
