/** Runs of the status service that mix handled events with collections of faxes. */
module ServiceRuns {
  import opened Common
  import opened StatusEvents
  import opened StatusRuns

  datatype ServiceCall = Tell(event: Event, args: Args) | Ask(uri: string, user: string, job: int)

  /** What the tray is sent when a fax is asked for. */
  function Blip(env: Env): Event { Event("", UPDATE_BLIP, env.me, 0, "", 0) }

  /** A waiting fax is asked for; not `ok` when the device is unknown and its URI does not parse. */
  ghost predicate Asked(env: Env, s: Service, uri: string, user: string, job: int, s': Service, ok: bool,
                        r: Option<Fax>) {
    var checked, tray := CheckDevice(env, s, uri), s.tray + [Blip(env)];
    && ok == checked.1
    && (!ok ==> s' == s.(tray := tray) && r == None)
    && (ok ==>
          var before := checked.0.devices;
          && uri in s'.devices && Collect(before[uri].faxes, user, job, s'.devices[uri].faxes, r)
          && s' == s.(devices := before[uri := before[uri].(faxes := s'.devices[uri].faxes)], tray := tray))
  }

  ghost predicate ServiceStep(env: Env, s: Service, c: ServiceCall, s': Service, r: Option<Fax>) {
    match c
    case Tell(e, args) => s' == Handle(env, s, e, args).0 && r == None
    case Ask(uri, user, job) => exists ok :: Asked(env, s, uri, user, job, s', ok, r)
  }

  /** The states of a run and what each call returned. */
  datatype Run = Run(states: seq<Service>, calls: seq<ServiceCall>, replies: seq<Option<Fax>>)

  ghost predicate IsRun(env: Env, run: Run) {
    && |run.states| == |run.calls| + 1 && |run.replies| == |run.calls| && run.states[0] == START
    && forall i :: 0 <= i < |run.calls| ==>
                     ServiceStep(env, run.states[i], run.calls[i], run.states[i + 1], run.replies[i])
  }

  // ---------------------------------------------------------------- history and tray

  /** The events of the first n calls as histories see them. */
  function SeenAll(env: Env, calls: seq<ServiceCall>, n: nat): seq<Event>
    requires n <= |calls|
  {
    if n == 0 then []
    else
      var c := calls[n - 1];
      SeenAll(env, calls, n - 1) + if c.Tell? then [Seen(env, (c.event, c.args))] else []
  }

  /** Asking for faxes changes no history; the tray is sent no user event. */
  lemma AskTracks(env: Env, uri: string, es: seq<Event>, s: Service, c: ServiceCall, s': Service, r: Option<Fax>)
    requires Tracks(env, uri, es, s) && "" !in s.devices && !env.valid("") && c.Ask? && ServiceStep(env, s, c, s', r)
    ensures Tracks(env, uri, es, s') && "" !in s'.devices
  {
    hide UserEvents, Collapse, FirstOfRuns, TrayOf, Collect;
    CheckTracks(env, uri, es, s, c.uri);
    TrayOfAppend(uri, s.tray, Blip(env));
    assert TrayOf(uri, s.tray) + [] == TrayOf(uri, s.tray);
  }

  /**
   For a device whose URI parses, over any run of events of any devices, with faxes, replies and collections: its
   history is the last 50 of its user events with repeated codes collapsed to the latest, and the tray was sent exactly
   the first of each repetition.
   */
  lemma {:induction false} HistoryAndTray(env: Env, uri: string, run: Run, n: nat)
    requires IsRun(env, run) && n <= |run.calls| && env.valid(uri) && uri != "" && !env.valid("")
    ensures Tracks(env, uri, SeenAll(env, run.calls, n), run.states[n]) && "" !in run.states[n].devices
  {
    hide Handle, Seen, Tracks, Asked;
    if n == 0 {
      assert Tracks(env, uri, [], START) by {
        StartTracks(env, uri);
      }
    } else {
      HistoryAndTray(env, uri, run, n - 1);
      var s, c, es := run.states[n - 1], run.calls[n - 1], SeenAll(env, run.calls, n - 1);
      assert ServiceStep(env, s, c, run.states[n], run.replies[n - 1]);
      if c.Tell? {
        CallTracks(env, uri, es, s, (c.event, c.args));
      } else {
        AskTracks(env, uri, es, s, c, run.states[n], run.replies[n - 1]);
        assert es + [] == es;
      }
    }
  }

  lemma StartTracks(env: Env, uri: string)
    ensures Tracks(env, uri, [], START)
  {
  }

  // ---------------------------------------------------------------- faxes

  /** What a call is to the faxes of one device. */
  function FaxCallOf(env: Env, uri: string, c: ServiceCall): Option<FaxCall> {
    match c
    case Tell(e, args) =>
      if e.uri == uri && Delivers(env, e, args) then Some(Put(Fax(args.file, Translated(env, e)))) else None
    case Ask(u, user, job) => if u == uri then Some(Take(user, job)) else None
  }

  function FaxCalls(env: Env, uri: string, calls: seq<ServiceCall>, n: nat): seq<FaxCall>
    requires n <= |calls|
  {
    if n == 0 then []
    else
      var c := FaxCallOf(env, uri, calls[n - 1]);
      FaxCalls(env, uri, calls, n - 1) + if c.Some? then [c.value] else []
  }

  /** The faxes handed over from a device by the first n calls. */
  function HandedOver(uri: string, run: Run, n: nat): seq<Fax>
    requires n <= |run.calls| == |run.replies|
  {
    if n == 0 then []
    else
      var c, r := run.calls[n - 1], run.replies[n - 1];
      HandedOver(uri, run, n - 1) + if c.Ask? && c.uri == uri && r.Some? then [r.value] else []
  }

  /** The faxes delivered for a device, in order. */
  function Delivered(env: Env, uri: string, calls: seq<ServiceCall>): seq<Fax> {
    Puts(FaxCalls(env, uri, calls, |calls|))
  }

  /** Asking at one device takes a fax from there and touches no other device. */
  lemma AskCollects(env: Env, s: Service, c: ServiceCall, s': Service, r: Option<Fax>, uri: string)
    requires c.Ask? && uri != "" && env.valid(uri) && ServiceStep(env, s, c, s', r)
    ensures if c.uri == uri then Collect(FaxesAt(s, uri), c.user, c.job, FaxesAt(s', uri), r)
            else FaxesAt(s', uri) == FaxesAt(s, uri)
  {
    hide Collect;
    CheckKeepsFaxes(env, s, c.uri, uri);
  }

  /** One call does to a device's ledger what it is to its faxes. */
  lemma StepOfLedger(env: Env, s: Service, c: ServiceCall, s': Service, r: Option<Fax>, uri: string, l: Ledger)
    returns (l': Ledger)
    requires uri != "" && env.valid(uri) && ServiceStep(env, s, c, s', r) && l.waiting == FaxesAt(s, uri)
    ensures var fc := FaxCallOf(env, uri, c); if fc.Some? then LedgerStep(l, fc.value, l') else l' == l
    ensures l'.waiting == FaxesAt(s', uri)
    ensures l'.returned == l.returned + if c.Ask? && c.uri == uri && r.Some? then [r.value] else []
  {
    hide Handle, Collect, Asked, FaxesAt;
    l' := l;
    if c.Tell? {
      EventsKeepFaxes(env, s, c.event, c.args, uri);
      var fc := FaxCallOf(env, uri, c);
      if fc.Some? {
        l' := PutInto(l, fc.value.fax);
      }
    } else {
      AskCollects(env, s, c, s', r, uri);
      if c.uri == uri {
        l' := Ledger(FaxesAt(s', uri), l.returned + if r.Some? then [r.value] else [], l.overwritten);
        assert Collect(l.waiting, c.user, c.job, l'.waiting, r);
      }
    }
  }

  /** Every run of the service is, for every device, a run of that device's ledger. */
  lemma {:induction false} LedgersOf(env: Env, uri: string, run: Run, n: nat) returns (ls: seq<Ledger>)
    requires IsRun(env, run) && n <= |run.calls| && uri != "" && env.valid(uri)
    ensures LedgerRun(ls, FaxCalls(env, uri, run.calls, n))
    ensures var l := ls[|ls| - 1]; l.waiting == FaxesAt(run.states[n], uri) && l.returned == HandedOver(uri, run, n)
  {
    hide LedgerStep, FaxesAt, ServiceStep, FaxCallOf;
    if n == 0 {
      ls := [Ledger(map[], [], [])];
      assert FaxesAt(START, uri) == map[] by {
        NoFaxes(uri);
      }
    } else {
      var front := LedgersOf(env, uri, run, n - 1);
      var l := front[|front| - 1];
      var c, s, s', r := run.calls[n - 1], run.states[n - 1], run.states[n], run.replies[n - 1];
      assert ServiceStep(env, s, c, s', r);
      var l' := StepOfLedger(env, s, c, s', r, uri, l);
      var calls, fc := FaxCalls(env, uri, run.calls, n - 1), FaxCallOf(env, uri, c);
      if fc.Some? {
        ls := front + [l'];
        forall i | 0 <= i < |calls| + 1
          ensures LedgerStep(ls[i], (calls + [fc.value])[i], ls[i + 1])
        {
          if i < |calls| {
            assert LedgerStep(front[i], calls[i], front[i + 1]);
          }
        }
      } else {
        ls := front;
        assert calls + [] == calls;
      }
    }
  }

  lemma NoFaxes(uri: string)
    ensures FaxesAt(START, uri) == map[]
  {
  }

  /**
   Over every run of the service, for every device whose deliveries are told apart: each fax delivered for it is waiting
   there, was handed over once, or was overwritten by a later delivery for the same user and job; nothing else waits
   there or was handed over.
   */
  lemma ServiceConservesFaxes(env: Env, uri: string, run: Run)
    requires IsRun(env, run) && uri != "" && env.valid(uri) && Distinct(Delivered(env, uri, run.calls))
    ensures var puts, back := Delivered(env, uri, run.calls), HandedOver(uri, run, |run.calls|);
            var waiting := FaxesAt(run.states[|run.calls|], uri);
            && (exists overwritten :: Conserved(Ledger(waiting, back, overwritten), puts))
            && Distinct(back)
            && (forall f :: f in puts ==> f in waiting.Values || f in back || Superseded(puts, f))
            && (forall f :: f in back ==> f in puts && f !in waiting.Values)
            && (forall k :: k in waiting ==> waiting[k] in puts && FaxKey(waiting[k]) == k)
  {
    var ls := LedgersOf(env, uri, run, |run.calls|);
    var calls := FaxCalls(env, uri, run.calls, |run.calls|);
    hide LedgerRun, FaxCalls, HandedOver, FaxesAt;
    FaxesConserved(ls, calls);
    var l := ls[|calls|];
    assert Conserved(Ledger(l.waiting, l.returned, l.overwritten), Puts(calls));
  }

  /** Asking again and again at one device with job 0 are collections of its faxes. */
  lemma AsksCollect(env: Env, uri: string, user: string, states: seq<Service>, rs: seq<Option<Fax>>)
    requires uri != "" && env.valid(uri) && |states| == |rs| + 1
    requires forall i :: 0 <= i < |rs| ==> ServiceStep(env, states[i], Ask(uri, user, 0), states[i + 1], rs[i])
    ensures Collections(user, seq(|states|, i requires 0 <= i < |states| => FaxesAt(states[i], uri)), rs)
  {
    hide Collect, FaxesAt, ServiceStep;
    forall i | 0 <= i < |rs|
      ensures Collect(FaxesAt(states[i], uri), user, 0, FaxesAt(states[i + 1], uri), rs[i])
    {
      AskCollects(env, states[i], Ask(uri, user, 0), states[i + 1], rs[i], uri);
    }
  }

  /** Asked as often as faxes wait for a user, the service hands over all of them and keeps those of others. */
  lemma AskAll(env: Env, uri: string, user: string, states: seq<Service>, rs: seq<Option<Fax>>)
    requires uri != "" && env.valid(uri) && |states| == |rs| + 1
    requires forall i :: 0 <= i < |rs| ==> ServiceStep(env, states[i], Ask(uri, user, 0), states[i + 1], rs[i])
    requires |rs| == |WaitingFor(FaxesAt(states[0], uri), user)|
    ensures var before, after := FaxesAt(states[0], uri), FaxesAt(states[|rs|], uri);
            && (forall k :: k in before && k.0 == user ==> Some(before[k]) in rs)
            && after == before - WaitingFor(before, user)
  {
    hide ServiceStep, Collect, FaxesAt;
    AsksCollect(env, uri, user, states, rs);
    CollectAll(user, seq(|states|, i requires 0 <= i < |states| => FaxesAt(states[i], uri)), rs);
  }
}
