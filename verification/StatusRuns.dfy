/** History and tray over any run of events; waiting faxes over any run of deposits and collections. */
module StatusRuns {
  import opened Common
  import opened RingBuffer
  import opened StatusEvents

  // ---------------------------------------------------------------- events and histories

  /** An event with what comes with it. */
  type Call = (Event, Args)

  predicate IsReply(env: Env, c: Call) {
    && c.0.code != AUTO_CONFIGURE && c.0.code != DIAGNOSE_PRINTQUEUE && Translated(env, c.0).code == UPDATE_REPLY
    && c.1.Reply? && c.1.status.Some?
  }

  /** The event a history can see: a decoded reply counts as the status event made of it. */
  function Seen(env: Env, c: Call): Event {
    if IsReply(env, c) then Event(c.0.uri, c.1.status.value, env.me, 0, "", c.0.time) else c.0
  }

  /** Whether an event reaches the history of a device. */
  predicate Reaches(env: Env, uri: string, e: Event) {
    e.uri == uri && e.code != AUTO_CONFIGURE && e.code != DIAGNOSE_PRINTQUEUE && IsUserEvent(Translated(env, e).code)
  }

  /** The user events of a device, codes translated, in order. */
  function UserEvents(env: Env, uri: string, es: seq<Event>): seq<Event> {
    if es == [] then []
    else
      var e := es[|es| - 1];
      UserEvents(env, uri, es[..|es| - 1]) + if Reaches(env, uri, e) then [Translated(env, e)] else []
  }

  /** Runs of equal codes collapsed to their latest event. */
  function Collapse(es: seq<Event>): (c: seq<Event>)
    ensures es != [] ==> c != [] && c[|c| - 1] == es[|es| - 1]
  {
    if es == [] then []
    else
      var front, e := Collapse(es[..|es| - 1]), es[|es| - 1];
      if Repeats(front, e) then front[|front| - 1 := e] else front + [e]
  }

  /** The first event of each run of equal codes. */
  function FirstOfRuns(es: seq<Event>): seq<Event> {
    if es == [] then []
    else
      var front, e := es[..|es| - 1], es[|es| - 1];
      FirstOfRuns(front) + if Repeats(front, e) then [] else [e]
  }

  /** What the tray was sent for user events of a device. */
  function TrayOf(uri: string, tray: seq<Event>): seq<Event> {
    if tray == [] then []
    else
      var e := tray[|tray| - 1];
      TrayOf(uri, tray[..|tray| - 1]) + if e.uri == uri && IsUserEvent(e.code) then [e] else []
  }

  lemma TrayOfAppend(uri: string, tray: seq<Event>, e: Event)
    ensures TrayOf(uri, tray + [e]) == TrayOf(uri, tray) + if e.uri == uri && IsUserEvent(e.code) then [e] else []
  {
    assert (tray + [e])[..|tray|] == tray;
  }

  lemma NewestLast(c: seq<Event>, e: Event)
    ensures Repeats(Newest(c, HISTORY_SIZE), e) == Repeats(c, e)
  {
    var n := Newest(c, HISTORY_SIZE);
    assert c != [] ==> n[|n| - 1] == c[|c| - 1];
  }

  lemma NewestReplaced(c: seq<Event>, e: Event)
    requires c != []
    ensures Newest(c[|c| - 1 := e], HISTORY_SIZE)
         == Newest(c, HISTORY_SIZE)[|Newest(c, HISTORY_SIZE)| - 1 := e]
  {
  }

  lemma NewestAppended(c: seq<Event>, e: Event)
    ensures Newest(c + [e], HISTORY_SIZE) == Newest(Newest(c, HISTORY_SIZE) + [e], HISTORY_SIZE)
  {
  }

  /** Collapsing and bounding: remembering one more event is remembering it in the bounded history. */
  lemma RememberCollapsed(es: seq<Event>, e: Event)
    ensures Newest(Collapse(es + [e]), HISTORY_SIZE) == Remember(Newest(Collapse(es), HISTORY_SIZE), e)
    ensures Repeats(Newest(Collapse(es), HISTORY_SIZE), e) == Repeats(es, e)
  {
    hide Newest;
    assert (es + [e])[..|es|] == es;
    var c := Collapse(es);
    NewestLast(c, e);
    if Repeats(c, e) {
      NewestReplaced(c, e);
    } else {
      NewestAppended(c, e);
    }
  }

  ghost predicate Tracks(env: Env, uri: string, es: seq<Event>, s: Service) {
    && (uri in s.devices ==> s.devices[uri].history == Newest(Collapse(UserEvents(env, uri, es)), HISTORY_SIZE))
    && (uri !in s.devices ==> UserEvents(env, uri, es) == [])
    && TrayOf(uri, s.tray) == FirstOfRuns(UserEvents(env, uri, es))
  }

  lemma UserEventTracks(env: Env, uri: string, es: seq<Event>, s: Service, e: Event)
    requires Tracks(env, uri, es, s) && uri in s.devices && e.uri in s.devices && IsUserEvent(e.code)
    ensures var r := UserEvent(s, e); var us := UserEvents(env, uri, es) + if e.uri == uri then [e] else [];
            && uri in r.devices && r.devices[uri].history == Newest(Collapse(us), HISTORY_SIZE)
            && TrayOf(uri, r.tray) == FirstOfRuns(us)
  {
    hide Collapse, UserEvents, Newest, TrayOf;
    var us := UserEvents(env, uri, es);
    TrayOfAppend(uri, s.tray, e);
    if e.uri == uri {
      RememberCollapsed(us, e);
      assert (us + [e])[..|us|] == us;
    } else {
      assert us + [] == us;
    }
  }

  lemma OtherTracks(env: Env, uri: string, es: seq<Event>, s: Service, e: Event)
    requires Tracks(env, uri, es, s) && !IsUserEvent(e.code)
    ensures Tracks(env, uri, es, Effect(env, s, e))
  {
    hide TrayOf, FirstOfRuns, Collapse, Newest, UserEvents;
    TrayOfAppend(uri, s.tray, e);
    assert TrayOf(uri, s.tray) + [] == TrayOf(uri, s.tray);
  }

  lemma CheckTracks(env: Env, uri: string, es: seq<Event>, s: Service, other: string)
    requires Tracks(env, uri, es, s)
    ensures Tracks(env, uri, es, CheckDevice(env, s, other).0)
  {
    hide UserEvents, TrayOf;
    assert Newest(Collapse([]), HISTORY_SIZE) == [];
  }

  /** An event that does not reach the history leaves what is tracked alone. */
  lemma SkipTracks(env: Env, uri: string, es: seq<Event>, s: Service, e0: Event)
    requires Tracks(env, uri, es, s) && !Reaches(env, uri, e0)
    ensures Tracks(env, uri, es + [e0], s)
  {
    hide TrayOf, FirstOfRuns, Collapse, Newest, Reaches;
    assert (es + [e0])[..|es|] == es;
    assert UserEvents(env, uri, es) + [] == UserEvents(env, uri, es);
  }

  lemma ReachTracks(env: Env, uri: string, es: seq<Event>, s: Service, e0: Event)
    requires Tracks(env, uri, es, s) && uri in s.devices && Reaches(env, uri, e0)
    ensures Tracks(env, uri, es + [e0], UserEvent(s, Translated(env, e0)))
  {
    hide TrayOf, FirstOfRuns, Collapse, Newest, UserEvent;
    assert (es + [e0])[..|es|] == es;
    UserEventTracks(env, uri, es, s, Translated(env, e0));
  }

  /** What an event does besides making a cache for its device. */
  function Effect(env: Env, s: Service, e: Event): Service {
    if IsUserEvent(e.code) then if e.uri in s.devices then UserEvent(s, e) else s
    else if e.code < MIN_USER_EVENT || e.code == UPDATE_REPLY then s
    else Other(s, e)
  }

  lemma HandleIs(env: Env, s: Service, e0: Event)
    requires "" !in s.devices
    ensures var r, checked := Handle(env, s, e0, NoArgs).0, CheckDevice(env, s, e0.uri);
      if e0.code == AUTO_CONFIGURE then r == s.(plugins := s.plugins + 1)
      else if e0.code == DIAGNOSE_PRINTQUEUE || (e0.uri != "" && !checked.1) then r == s
      else r == Effect(env, if e0.uri != "" then checked.0 else s, Translated(env, e0))
  {
    hide UserEvent, Other;
  }

  lemma EffectTracks(env: Env, uri: string, es: seq<Event>, s: Service, e0: Event)
    requires Tracks(env, uri, es, s) && (e0.uri == uri ==> uri in s.devices)
    requires e0.code != AUTO_CONFIGURE && e0.code != DIAGNOSE_PRINTQUEUE
    ensures Tracks(env, uri, es + [e0], Effect(env, s, Translated(env, e0)))
  {
    hide Tracks, UserEvent;
    var e := Translated(env, e0);
    if Reaches(env, uri, e0) {
      ReachTracks(env, uri, es, s, e0);
    } else {
      var r := Effect(env, s, e);
      if IsUserEvent(e.code) && e.uri in s.devices {
        OtherDevice(env, uri, es, s, e);
      } else if !IsUserEvent(e.code) {
        OtherTracks(env, uri, es, s, e);
      }
      SkipTracks(env, uri, es, r, e0);
    }
  }

  lemma StepTracks(env: Env, uri: string, es: seq<Event>, s: Service, e0: Event)
    requires env.valid(uri) && uri != "" && Tracks(env, uri, es, s) && "" !in s.devices
    ensures var r := Handle(env, s, e0, NoArgs).0; Tracks(env, uri, es + [e0], r) && "" !in r.devices
  {
    HandleIs(env, s, e0);
    NoNameless(env, s, e0);
    hide Effect, Handle, Reaches;
    var checked := CheckDevice(env, s, e0.uri);
    if e0.code == AUTO_CONFIGURE || e0.code == DIAGNOSE_PRINTQUEUE || (e0.uri != "" && !checked.1) {
      assert !Reaches(env, uri, e0) by {
        NotReached(env, uri, s, e0);
      }
      assert Tracks(env, uri, es, s.(plugins := s.plugins + 1));
      SkipTracks(env, uri, es, Handle(env, s, e0, NoArgs).0, e0);
    } else {
      CheckTracks(env, uri, es, s, e0.uri);
      EffectTracks(env, uri, es, if e0.uri != "" then checked.0 else s, e0);
    }
  }

  lemma NotReached(env: Env, uri: string, s: Service, e: Event)
    requires env.valid(uri)
    requires e.code == AUTO_CONFIGURE || e.code == DIAGNOSE_PRINTQUEUE || !CheckDevice(env, s, e.uri).1
    ensures !Reaches(env, uri, e)
  {
  }

  lemma NoNameless(env: Env, s: Service, e0: Event)
    requires "" !in s.devices
    ensures "" !in Handle(env, s, e0, NoArgs).0.devices
  {
    HandleIs(env, s, e0);
    hide Handle, Remember;
  }

  /** A user event of another device. */
  lemma OtherDevice(env: Env, uri: string, es: seq<Event>, s: Service, e: Event)
    requires Tracks(env, uri, es, s) && e.uri in s.devices && e.uri != uri
    ensures Tracks(env, uri, es, UserEvent(s, e))
  {
    hide UserEvents, TrayOf;
    TrayOfAppend(uri, s.tray, e);
    assert TrayOf(uri, s.tray) + [] == TrayOf(uri, s.tray);
  }

  ghost predicate SameTracked(s: Service, t: Service) {
    && t.tray == s.tray && t.devices.Keys == s.devices.Keys
    && forall u :: u in s.devices ==> t.devices[u].history == s.devices[u].history
  }

  lemma TracksSame(env: Env, uri: string, es: seq<Event>, s: Service, t: Service)
    requires Tracks(env, uri, es, s) && SameTracked(s, t)
    ensures Tracks(env, uri, es, t)
  {
    hide UserEvents, Collapse, TrayOf, FirstOfRuns;
  }

  /** What comes with an event matters to no history, unless it is a decoded reply. */
  lemma ArgsIrrelevant(env: Env, s: Service, e0: Event, args: Args)
    requires "" !in s.devices && !IsReply(env, (e0, args))
    ensures SameTracked(Handle(env, s, e0, NoArgs).0, Handle(env, s, e0, args).0)
  {
    hide UserEvent;
  }

  lemma ReplyIs(env: Env, s: Service, c: Call)
    requires IsReply(env, c) && "" !in s.devices && !env.valid("")
    ensures var r, checked := Handle(env, s, c.0, c.1).0, CheckDevice(env, s, c.0.uri);
      if c.0.uri == "" || !checked.1 then r == s && !checked.1
      else SameTracked(Handle(env, checked.0, Seen(env, c), NoArgs).0, r)
  {
    hide UserEvent, Other;
  }

  lemma CallTracks(env: Env, uri: string, es: seq<Event>, s: Service, c: Call)
    requires env.valid(uri) && uri != "" && !env.valid("") && Tracks(env, uri, es, s) && "" !in s.devices
    ensures var r := Handle(env, s, c.0, c.1).0; Tracks(env, uri, es + [Seen(env, c)], r) && "" !in r.devices
  {
    if IsReply(env, c) {
      ReplyIs(env, s, c);
      var e, checked := Seen(env, c), CheckDevice(env, s, c.0.uri);
      if c.0.uri == "" || !checked.1 {
        NotReached(env, uri, s, e);
        SkipTracks(env, uri, es, s, e);
      } else {
        CheckTracks(env, uri, es, s, c.0.uri);
        StepTracks(env, uri, es, checked.0, e);
        hide Handle, Tracks;
        TracksSame(env, uri, es + [e], Handle(env, checked.0, e, NoArgs).0, Handle(env, s, c.0, c.1).0);
      }
    } else {
      ArgsIrrelevant(env, s, c.0, c.1);
      StepTracks(env, uri, es, s, c.0);
      hide Handle, Tracks;
      TracksSame(env, uri, es + [c.0], Handle(env, s, c.0, NoArgs).0, Handle(env, s, c.0, c.1).0);
    }
  }

  /** The collapsed events: no two neighbours of equal code, and as many as there are runs. */
  lemma {:induction false} CollapseShape(es: seq<Event>)
    ensures var c, f := Collapse(es), FirstOfRuns(es);
            && (forall i :: 0 < i < |c| ==> c[i - 1].code != c[i].code)
            && |c| == |f| && (forall i :: 0 <= i < |c| ==> c[i].code == f[i].code)
  {
    if es != [] {
      CollapseShape(es[..|es| - 1]);
    }
  }

  // ---------------------------------------------------------------- waiting faxes

  /** Keys of the faxes waiting for a user. */
  function WaitingFor(faxes: Faxes, user: string): set<(string, int)> {
    set k | k in faxes && k.0 == user
  }

  /**
   A collection: for a job other than 0 that job's fax, for job 0 any fax of the user; what is handed over is no
   longer waiting, and without a match nothing changes.
   */
  ghost predicate Collect(faxes: Faxes, user: string, job: int, faxes': Faxes, r: Option<Fax>) {
    match r
    case None => faxes' == faxes && (if job != 0 then (user, job) !in faxes else WaitingFor(faxes, user) == {})
    case Some(f) =>
      exists k :: k in faxes && k.0 == user && (job != 0 ==> k.1 == job) && f == faxes[k] && faxes' == faxes - {k}
  }

  /** A user's n collections with job 0, each starting from what the one before left. */
  ghost predicate Collections(user: string, states: seq<Faxes>, rs: seq<Option<Fax>>) {
    && |states| == |rs| + 1
    && forall i :: 0 <= i < |rs| ==> Collect(states[i], user, 0, states[i + 1], rs[i])
  }

  /** As many collections as faxes wait hand over all of them; then there is none; other users' faxes stay. */
  lemma {:induction false} CollectAll(user: string, states: seq<Faxes>, rs: seq<Option<Fax>>)
    requires Collections(user, states, rs) && |rs| == |WaitingFor(states[0], user)|
    ensures forall i :: 0 <= i < |rs| ==> rs[i].Some?
    ensures forall k :: k in WaitingFor(states[0], user) ==> Some(states[0][k]) in rs
    ensures states[|rs|] == states[0] - WaitingFor(states[0], user)
    ensures WaitingFor(states[|rs|], user) == {}
    decreases |rs|
  {
    hide WaitingFor, Collect;
    var w := WaitingFor(states[0], user);
    if rs == [] {
      assert w == {};
      assert states[0] - {} == states[0];
    } else {
      assert Collect(states[0], user, 0, states[1], rs[0]);
      var k := CollectTakes(states[0], user, states[1], rs[0]);
      var states', rs' := states[1..], rs[1..];
      forall i | 0 <= i < |rs'|
        ensures Collect(states'[i], user, 0, states'[i + 1], rs'[i])
      {
        assert Collect(states[i + 1], user, 0, states[i + 2], rs[i + 1]);
      }
      CollectAll(user, states', rs');
      forall j | j in w
        ensures j in states[0]
      {
        WaitingIsKey(states[0], user, j);
      }
      forall j | j in w
        ensures Some(states[0][j]) in rs
      {
        if j != k {
          assert j in WaitingFor(states'[0], user);
          assert Some(states'[0][j]) in rs';
        } else {
          assert rs[0] == Some(states[0][k]);
        }
      }
      assert states[0] - w == states[1] - (w - {k});
    }
  }

  lemma WaitingIsKey(faxes: Faxes, user: string, k: (string, int))
    requires k in WaitingFor(faxes, user)
    ensures k in faxes
  {
  }

  /** One collection with job 0 while a fax waits takes one of the user's faxes. */
  lemma CollectTakes(faxes: Faxes, user: string, faxes': Faxes, r: Option<Fax>) returns (k: (string, int))
    requires Collect(faxes, user, 0, faxes', r) && WaitingFor(faxes, user) != {}
    ensures k in faxes && k in WaitingFor(faxes, user) && r == Some(faxes[k]) && faxes' == faxes - {k}
    ensures WaitingFor(faxes', user) == WaitingFor(faxes, user) - {k}
  {
    k :| k in faxes && k.0 == user && r == Some(faxes[k]) && faxes' == faxes - {k};
  }

  /** Whether an event delivers a fax for its device. */
  predicate Delivers(env: Env, e0: Event, args: Args) {
    var e := Translated(env, e0);
    args != NoArgs && e.code == FAX_RENDER_COMPLETE && e.user == env.me
  }

  /** The faxes waiting at a device; none at one without a cache. */
  function FaxesAt(s: Service, uri: string): Faxes {
    if uri in s.devices then s.devices[uri].faxes else map[]
  }

  /**
   Events leave the faxes waiting at every device alone, but for a fax delivered for that device, which is deposited:
   whether or not the device was known before, and whatever comes with the event.
   */
  lemma EventsKeepFaxes(env: Env, s: Service, e: Event, args: Args, uri: string)
    requires uri != "" && (env.valid(uri) || uri in s.devices)
    ensures FaxesAt(Handle(env, s, e, args).0, uri)
         == if e.uri == uri && Delivers(env, e, args) then Deposit(FaxesAt(s, uri), Fax(args.file, Translated(env, e)))
            else FaxesAt(s, uri)
  {
    CheckKeepsFaxes(env, s, e.uri, uri);
    if IsReply(env, (e, args)) {
      ReplyKeepsFaxes(env, s, e, args, uri);
    } else {
      HandleKeepsFaxes(env, s, e, args, uri);
    }
  }

  lemma ReplyKeepsFaxes(env: Env, s: Service, e: Event, args: Args, uri: string)
    requires uri != "" && (env.valid(uri) || uri in s.devices) && IsReply(env, (e, args))
    ensures FaxesAt(Handle(env, s, e, args).0, uri) == FaxesAt(s, uri)
  {
    hide UserEvent, Other, FaxesAt;
    var checked := CheckDevice(env, s, e.uri);
    var s1 := if e.uri != "" then checked.0 else s;
    var again := CheckDevice(env, s1, e.uri).0;
    CheckKeepsFaxes(env, s, e.uri, uri);
    CheckKeepsFaxes(env, s1, e.uri, uri);
    var next := Event(e.uri, args.status.value, env.me, 0, "", e.time);
    HandleKeepsFaxes(env, again, next, NoArgs, uri);
    SameFaxes(Handle(env, again, next, NoArgs).0, uri);
  }

  /** The toolbox is no device. */
  lemma SameFaxes(s: Service, uri: string)
    ensures forall toolbox :: FaxesAt(s.(toolbox := toolbox), uri) == FaxesAt(s, uri)
  {
  }

  lemma HandleKeepsFaxes(env: Env, s: Service, e: Event, args: Args, uri: string)
    requires uri != "" && (env.valid(uri) || uri in s.devices) && !IsReply(env, (e, args))
    ensures FaxesAt(Handle(env, s, e, args).0, uri)
         == if e.uri == uri && Delivers(env, e, args) then Deposit(FaxesAt(s, uri), Fax(args.file, Translated(env, e)))
            else FaxesAt(s, uri)
  {
    hide UserEvent, Other, CheckDevice;
    CheckKeepsFaxes(env, s, e.uri, uri);
    var s1, t := CheckDevice(env, s, e.uri).0, Translated(env, e);
    OtherKeepsFaxes(s, t);
    OtherKeepsFaxes(s1, t);
    if t.uri in s1.devices {
      UserKeepsFaxes(s1, t, uri);
    }
  }

  lemma CheckKeepsFaxes(env: Env, s: Service, other: string, uri: string)
    ensures var r := CheckDevice(env, s, other); FaxesAt(r.0, uri) == FaxesAt(s, uri)
    ensures var r := CheckDevice(env, s, other); env.valid(other) || other in s.devices ==> r.1
  {
  }

  lemma UserKeepsFaxes(s: Service, e: Event, uri: string)
    requires e.uri in s.devices
    ensures FaxesAt(UserEvent(s, e), uri) == FaxesAt(s, uri)
  {
    hide Remember;
  }

  lemma OtherKeepsFaxes(s: Service, e: Event)
    ensures Other(s, e).devices == s.devices
  {
  }

  // ---------------------------------------------------------------- conservation of faxes

  datatype FaxCall = Put(fax: Fax) | Take(user: string, job: int)

  /** The faxes waiting, handed over and overwritten; a fax is known by the file it is in. */
  datatype Ledger = Ledger(waiting: Faxes, returned: seq<Fax>, overwritten: seq<Fax>)

  function PutInto(l: Ledger, f: Fax): Ledger {
    var k := (f.event.user, f.event.job);
    Ledger(Deposit(l.waiting, f), l.returned, l.overwritten + if k in l.waiting then [l.waiting[k]] else [])
  }

  ghost predicate LedgerStep(l: Ledger, c: FaxCall, l': Ledger) {
    match c
    case Put(f) => l' == PutInto(l, f)
    case Take(user, job) =>
      exists r :: Collect(l.waiting, user, job, l'.waiting, r) && l'.overwritten == l.overwritten
               && l'.returned == l.returned + if r.Some? then [r.value] else []
  }

  function Puts(calls: seq<FaxCall>): seq<Fax> {
    if calls == [] then []
    else
      var c := calls[|calls| - 1];
      Puts(calls[..|calls| - 1]) + if c.Put? then [c.fax] else []
  }

  predicate Distinct<T(==)>(s: seq<T>) {
    forall i, j | 0 <= i < j < |s| :: s[i] != s[j]
  }

  function FaxKey(f: Fax): (string, int) { (f.event.user, f.event.job) }

  /** A later deposit has the same user and job. */
  ghost predicate Superseded(puts: seq<Fax>, f: Fax) {
    exists i, j :: 0 <= i < j < |puts| && puts[i] == f && FaxKey(puts[j]) == FaxKey(f)
  }

  lemma StillSuperseded(puts: seq<Fax>, more: seq<Fax>, f: Fax)
    requires Superseded(puts, f)
    ensures Superseded(puts + more, f) && f in puts
  {
    var i, j :| 0 <= i < j < |puts| && puts[i] == f && FaxKey(puts[j]) == FaxKey(f);
    var all := puts + more;
    assert all[i] == f && FaxKey(all[j]) == FaxKey(f);
  }

  /** Each fax deposited is in exactly one place, and once. */
  ghost predicate Conserved(l: Ledger, puts: seq<Fax>) {
    && (forall k :: k in l.waiting ==>
          && l.waiting[k] in puts && l.waiting[k] !in l.returned && l.waiting[k] !in l.overwritten
          && k == FaxKey(l.waiting[k]))
    && Distinct(l.returned) && Distinct(l.overwritten)
    && (forall f :: f in l.returned ==> f in puts && f !in l.overwritten)
    && (forall f :: f in l.overwritten ==> Superseded(puts, f))
    && (forall f :: f in puts ==> f in l.waiting.Values || f in l.returned || f in l.overwritten)
  }

  ghost predicate LedgerRun(ls: seq<Ledger>, calls: seq<FaxCall>) {
    && |ls| == |calls| + 1 && ls[0] == Ledger(map[], [], [])
    && forall i :: 0 <= i < |calls| ==> LedgerStep(ls[i], calls[i], ls[i + 1])
  }

  lemma PutConserves(l: Ledger, puts: seq<Fax>, f: Fax)
    requires Conserved(l, puts) && f !in puts
    ensures Conserved(PutInto(l, f), puts + [f])
  {
    var k := FaxKey(f);
    var l' := PutInto(l, f);
    forall g | g in l'.overwritten
      ensures Superseded(puts + [f], g)
    {
      if g in l.overwritten {
        StillSuperseded(puts, [f], g);
      } else {
        var i :| 0 <= i < |puts| && puts[i] == g;
        assert (puts + [f])[i] == g && FaxKey((puts + [f])[|puts|]) == FaxKey(g);
      }
    }
    forall g | g in l.overwritten ensures g in puts { StillSuperseded(puts, [], g); }
    forall g | g in puts + [f]
      ensures g in l'.waiting.Values || g in l'.returned || g in l'.overwritten
    {
      if g == f {
        assert l'.waiting[k] == f;
      } else if g in l.waiting.Values {
        var m :| m in l.waiting && l.waiting[m] == g;
        if m != k {
          assert l'.waiting[m] == g;
        }
      }
    }
  }

  lemma TakeConserves(l: Ledger, puts: seq<Fax>, user: string, job: int, l': Ledger)
    requires Conserved(l, puts) && LedgerStep(l, Take(user, job), l')
    ensures Conserved(l', puts)
  {
    var r :| && Collect(l.waiting, user, job, l'.waiting, r)
             && l'.returned == l.returned + if r.Some? then [r.value] else [];
    if r.Some? {
      var k :| k in l.waiting && r.value == l.waiting[k] && l'.waiting == l.waiting - {k};
      forall g | g in puts
        ensures g in l'.waiting.Values || g in l'.returned || g in l'.overwritten
      {
        if g in l.waiting.Values && g != r.value {
          var m :| m in l.waiting && l.waiting[m] == g;
          assert l'.waiting[m] == g;
        }
      }
    }
  }

  /** Over all runs, faxes being told apart: waiting, handed over once, or overwritten by a later one of its key. */
  lemma {:induction false} FaxesConserved(ls: seq<Ledger>, calls: seq<FaxCall>)
    requires LedgerRun(ls, calls) && Distinct(Puts(calls))
    ensures Conserved(ls[|calls|], Puts(calls))
    decreases |calls|
  {
    hide Conserved, LedgerStep;
    if calls == [] {
      assert Conserved(ls[0], []) by { NothingPut(); }
    } else {
      var n := |calls| - 1;
      var front, c := calls[..n], calls[n];
      var before := Puts(front);
      assert Puts(calls)[..|before|] == before;
      forall i | 0 <= i < n
        ensures LedgerStep(ls[..n + 1][i], front[i], ls[..n + 1][i + 1])
      {
        assert LedgerStep(ls[i], calls[i], ls[i + 1]);
      }
      FaxesConserved(ls[..n + 1], front);
      assert LedgerStep(ls[n], c, ls[n + 1]);
      match c
      case Put(f) =>
        assert Puts(calls)[|before|] == f;
        assert f !in before;
        assert ls[n + 1] == PutInto(ls[n], f) by { StepIsPut(ls[n], f, ls[n + 1]); }
        PutConserves(ls[n], before, f);
      case Take(user, job) =>
        TakeConserves(ls[n], before, user, job, ls[n + 1]);
        assert before + [] == before;
    }
  }

  lemma StepIsPut(l: Ledger, f: Fax, l': Ledger)
    requires LedgerStep(l, Put(f), l')
    ensures l' == PutInto(l, f)
  {
  }

  lemma NothingPut()
    ensures Conserved(Ledger(map[], [], []), [])
  {
  }
}
