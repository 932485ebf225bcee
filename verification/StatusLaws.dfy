/** What becomes of one event, in the numbers of its codes, and what the history of a device holds after any run. */
module StatusLaws {
  import opened Common
  import opened RingBuffer
  import opened StatusEvents
  import opened StatusRuns
  import opened ServiceRuns

  /** The code an event counts with: one above 9999 is looked up in the PJL table, once; any other is its own. */
  function CodeOf(env: Env, e: Event): int {
    if e.code > 9999 then env.pjl(e.code) else e.code
  }

  /** The event is neither of the two served at once, and its device, if it names one, is known. */
  predicate Accepted(s: Service, e: Event) {
    e.code != 900 && e.code != 5502 && e.uri in s.devices
  }

  // ---------------------------------------------------------------- one event

  /** Codes 900 and 5502 start a program and leave the state of the devices alone, whatever the event says. */
  lemma ServedAtOnce(env: Env, s: Service, e: Event, args: Args)
    ensures e.code == 900 ==> Handle(env, s, e, args) == (s.(plugins := s.plugins + 1), true)
    ensures e.code == 5502 ==> Handle(env, s, e, args) == (s, true)
  {
  }

  /**
   An event whose code is 500 to 7999 becomes the newest of the history of its device: in place of the newest one if
   that has the same code, behind at most the last 49 otherwise; only then is the tray told. The toolbox always is,
   under 9003, and three codes ask for a plug-in.
   */
  lemma UserEventIs(env: Env, s: Service, e: Event, args: Args)
    requires Accepted(s, e) && e.uri != "" && 500 <= CodeOf(env, e) <= 7999
    ensures var now, old', r := e.(code := CodeOf(env, e)), s.devices[e.uri].history, Handle(env, s, e, args).0;
            var again := |old'| > 0 && old'[|old'| - 1].code == CodeOf(env, e);
            var kept := if again then old'[..|old'| - 1] else if |old'| < 50 then old' else old'[|old'| - 49..];
            && Handle(env, s, e, args).1
            && r.devices == s.devices[e.uri := Cache(kept + [now], s.devices[e.uri].faxes)]
            && r.tray == s.tray + (if again then [] else [now])
            && r.toolbox == s.toolbox + [(now, 9003)] && r.child == s.child && r.running == s.running
            && r.plugins == s.plugins + if CodeOf(env, e) in {502, 805, 2003} then 1 else 0
  {
    hide Other, FaxEvent, HandleReply, Remember;
    var now := e.(code := CodeOf(env, e));
    RememberIs(s.devices[e.uri].history, now);
  }

  lemma RememberIs(history: seq<Event>, e: Event)
    ensures var n := |history|;
            var again := n > 0 && history[n - 1].code == e.code;
            var kept := if again then history[..n - 1] else if n < 50 then history else history[n - 49..];
            Remember(history, e) == kept + [e]
  {
    var n := |history|;
    if n >= 50 {
      assert (history + [e])[n + 1 - 50..] == history[n - 49..] + [e];
    }
  }

  /** Code 8000 with a pipe, for the service's user, leaves that fax waiting for the job; no other fax code does. */
  lemma FaxEventIs(env: Env, s: Service, e: Event, args: Args)
    requires Accepted(s, e) && e.uri != "" && 8000 <= CodeOf(env, e) <= 8999 && args != NoArgs
    ensures var now, c := e.(code := CodeOf(env, e)), s.devices[e.uri];
            Handle(env, s, e, args)
            == (if CodeOf(env, e) == 8000 && e.user == env.me then
                  s.(devices := s.devices[e.uri := c.(faxes := c.faxes[(e.user, e.job) := Fax(args.file, now)])])
                else s, true)
  {
    hide Other, UserEvent, HandleReply;
  }

  /**
   Who is told of the events above 8999: the tray of configuration changes, of updates going on or off, of queues and
   of the exit; the I/O child of requests and of the exit; the toolbox of queues, under 9003, and of the exit, which
   ends the service.
   */
  lemma OtherEventIs(env: Env, s: Service, e: Event, args: Args)
    requires Accepted(s, e) && e.uri != "" && CodeOf(env, e) >= 9000 && CodeOf(env, e) != 9011
    ensures var now, r, code := e.(code := CodeOf(env, e)), Handle(env, s, e, args).0, CodeOf(env, e);
            && Handle(env, s, e, args).1 && r.devices == s.devices && r.plugins == s.plugins
            && r.tray == s.tray + (if code in {9000, 9004, 9005, 9030, 9031, 9040, 9041} then [now] else [])
            && r.child == s.child + (if code in {9010, 9040} then [now] else [])
            && r.toolbox == s.toolbox + (if code in {9000, 9041} then [(now, 9003)]
                                         else if code == 9040 then [(now, 9040)] else [])
            && r.running == (s.running && code != 9040)
  {
    hide UserEvent, FaxEvent, HandleReply;
  }

  /** Codes below 500 change nothing. */
  lemma LowEventIs(env: Env, s: Service, e: Event, args: Args)
    requires Accepted(s, e) && e.uri != "" && CodeOf(env, e) < 500
    ensures Handle(env, s, e, args) == (s, true)
  {
  }

  /** A decoded reply is handled as an event of the service's user, coded by the status; then the toolbox is told. */
  lemma ReplyEventIs(env: Env, s: Service, e: Event, file: string, status: int)
    requires Accepted(s, e) && e.uri != "" && CodeOf(env, e) == 9011
    ensures var now, next := e.(code := 9011), Event(e.uri, status, env.me, 0, "", e.time);
            var r := Handle(env, s, next, NoArgs);
            Handle(env, s, e, Reply(file, Some(status)))
            == (if r.1 then (r.0.(toolbox := r.0.toolbox + [(now, 9011)]), true) else r)
    ensures Handle(env, s, e, Reply(file, None)) == (s, true)
  {
    hide UserEvent, FaxEvent, Other;
  }

  /** A device met for the first time has an empty history and no faxes; if its URI does not parse nothing happens. */
  lemma FirstMet(env: Env, s: Service, e: Event, args: Args)
    requires e.code != 900 && e.code != 5502 && e.uri != "" && e.uri !in s.devices
    ensures Handle(env, s, e, args)
         == if !env.valid(e.uri) then (s, true)
            else Handle(env, s.(devices := s.devices[e.uri := Cache([], map[])]), e, args)
  {
    hide UserEvent, FaxEvent, Other, HandleReply;
  }

  // ---------------------------------------------------------------- histories

  /** One more event: it counts for a device if it names it and its code is 500 to 7999, and with this code. */
  lemma UserEventsGrow(env: Env, uri: string, es: seq<Event>, e: Event)
    ensures UserEvents(env, uri, es + [e])
         == UserEvents(env, uri, es)
            + if e.uri == uri && e.code != 900 && e.code != 5502 && 500 <= CodeOf(env, e) <= 7999 then
                [e.(code := CodeOf(env, e))] else []
    ensures UserEvents(env, uri, []) == []
  {
    assert (es + [e])[..|es|] == es;
  }

  /** One more event for the tray. */
  lemma TrayGrows(uri: string, tray: seq<Event>, e: Event)
    ensures TrayOf(uri, tray + [e]) == TrayOf(uri, tray) + if e.uri == uri && 500 <= e.code <= 7999 then [e] else []
    ensures TrayOf(uri, []) == []
  {
    TrayOfAppend(uri, tray, e);
  }

  /** A decoded reply is seen as the status event made of it, every other event as it is. */
  lemma SeenIs(env: Env, e: Event, args: Args)
    ensures Seen(env, (e, args))
         == if e.code != 900 && e.code != 5502 && CodeOf(env, e) == 9011 && args.Reply? && args.status.Some? then
              Event(e.uri, args.status.value, env.me, 0, "", e.time) else e
  {
  }

  /** Run k of equal codes: it begins behind the run before, whose code is another, and all its codes are equal. */
  ghost predicate RunAt(es: seq<Event>, starts: seq<nat>, ends: seq<nat>, k: nat)
    requires k < |starts| == |ends|
  {
    && starts[k] <= ends[k] < |es| && starts[k] == (if k == 0 then 0 else ends[k - 1] + 1)
    && (k > 0 ==> es[starts[k] - 1].code != es[starts[k]].code)
    && forall i :: starts[k] <= i <= ends[k] ==> es[i].code == es[starts[k]].code
  }

  /** Where the runs of equal codes begin and end; together they are all events. */
  ghost predicate Runs(es: seq<Event>, starts: seq<nat>, ends: seq<nat>) {
    && |starts| == |ends| && |es| == (if |ends| == 0 then 0 else ends[|ends| - 1] + 1)
    && forall k :: 0 <= k < |starts| ==> RunAt(es, starts, ends, k)
  }

  /** The sequence holds the elements at these places, in order. */
  ghost predicate Holds(s: seq<Event>, es: seq<Event>, places: seq<nat>) {
    |s| == |places| && forall k :: 0 <= k < |s| ==> places[k] < |es| && s[k] == es[places[k]]
  }

  /** Collapsing keeps the last event of each run, the tray is told of the first. */
  lemma {:induction false} CollapsedRuns(es: seq<Event>) returns (starts: seq<nat>, ends: seq<nat>)
    ensures Runs(es, starts, ends) && Holds(Collapse(es), es, ends) && Holds(FirstOfRuns(es), es, starts)
  {
    if es == [] {
      starts, ends := [], [];
    } else {
      var l := |es| - 1;
      var front, e := es[..l], es[l];
      starts, ends := CollapsedRuns(front);
      hide Runs, RunAt, Holds, Collapse, FirstOfRuns;
      assert es == front + [e];
      if l > 0 && es[l - 1].code == e.code {
        RunGoesOn(front, e, starts, ends);
        ends := ends[|ends| - 1 := l];
      } else {
        RunBegins(front, e, starts, ends);
        starts, ends := starts + [l], ends + [l];
      }
    }
  }

  lemma RunGoesOn(es: seq<Event>, e: Event, starts: seq<nat>, ends: seq<nat>)
    requires Runs(es, starts, ends) && Holds(Collapse(es), es, ends) && Holds(FirstOfRuns(es), es, starts)
    requires es != [] && es[|es| - 1].code == e.code
    ensures Runs(es + [e], starts, ends[|ends| - 1 := |es|])
    ensures Holds(Collapse(es + [e]), es + [e], ends[|ends| - 1 := |es|])
    ensures Holds(FirstOfRuns(es + [e]), es + [e], starts)
  {
    var all, c := es + [e], Collapse(es);
    assert all[..|all| - 1] == es;
    hide Runs;
    assert Collapse(all) == c[|c| - 1 := e] && FirstOfRuns(all) == FirstOfRuns(es) + [];
    assert |c| > 0 && |c| == |ends|;
    hide Collapse, FirstOfRuns, Holds;
    HoldsLonger(c, es, e, ends);
    HoldsLonger(FirstOfRuns(es), es, e, starts);
    assert FirstOfRuns(es) + [] == FirstOfRuns(es);
    RunLonger(es, e, starts, ends);
  }

  lemma HoldsLonger(s: seq<Event>, es: seq<Event>, e: Event, places: seq<nat>)
    requires Holds(s, es, places)
    ensures Holds(s, es + [e], places) && Holds(s + [e], es + [e], places + [|es|])
    ensures |s| > 0 ==> Holds(s[|s| - 1 := e], es + [e], places[|s| - 1 := |es|])
  {
  }

  lemma RunLonger(es: seq<Event>, e: Event, starts: seq<nat>, ends: seq<nat>)
    requires Runs(es, starts, ends) && es != [] && es[|es| - 1].code == e.code
    ensures Runs(es + [e], starts, ends[|ends| - 1 := |es|])
  {
    var all, ends', l := es + [e], ends[|ends| - 1 := |es|], |ends| - 1;
    forall k | 0 <= k < |starts|
      ensures RunAt(all, starts, ends', k)
    {
      assert RunAt(es, starts, ends, k);
      assert k == l ==> es[ends[k]].code == es[starts[k]].code;
    }
  }

  lemma RunBegins(es: seq<Event>, e: Event, starts: seq<nat>, ends: seq<nat>)
    requires Runs(es, starts, ends) && Holds(Collapse(es), es, ends) && Holds(FirstOfRuns(es), es, starts)
    requires es == [] || es[|es| - 1].code != e.code
    ensures Runs(es + [e], starts + [|es|], ends + [|es|])
    ensures Holds(Collapse(es + [e]), es + [e], ends + [|es|])
    ensures Holds(FirstOfRuns(es + [e]), es + [e], starts + [|es|])
  {
    var all := es + [e];
    assert all[..|all| - 1] == es;
    hide Runs;
    assert Collapse(all) == Collapse(es) + [e] && FirstOfRuns(all) == FirstOfRuns(es) + [e];
    hide Collapse, FirstOfRuns, Holds;
    HoldsLonger(Collapse(es), es, e, ends);
    HoldsLonger(FirstOfRuns(es), es, e, starts);
    RunMore(es, e, starts, ends);
  }

  lemma RunMore(es: seq<Event>, e: Event, starts: seq<nat>, ends: seq<nat>)
    requires Runs(es, starts, ends) && (es == [] || es[|es| - 1].code != e.code)
    ensures Runs(es + [e], starts + [|es|], ends + [|es|])
  {
    var all, starts', ends' := es + [e], starts + [|es|], ends + [|es|];
    forall k | 0 <= k < |starts'|
      ensures RunAt(all, starts', ends', k)
    {
      assert k < |starts| ==> RunAt(es, starts, ends, k);
    }
  }

  /**
   After any run the history of a device holds, newest last, the latest event of each of the last 50 runs of equal codes
   among its user events, and the tray was sent the first event of every run.
   */
  lemma HistoryIs(env: Env, uri: string, run: Run, n: nat) returns (starts: seq<nat>, ends: seq<nat>)
    requires IsRun(env, run) && n <= |run.calls| && env.valid(uri) && uri != "" && !env.valid("")
    ensures var us, s := UserEvents(env, uri, SeenAll(env, run.calls, n)), run.states[n];
            && Runs(us, starts, ends)
            && Holds(TrayOf(uri, s.tray), us, starts)
            && (uri !in s.devices ==> us == [])
            && (uri in s.devices ==>
                  Holds(s.devices[uri].history, us, if |ends| <= 50 then ends else ends[|ends| - 50..]))
  {
    hide UserEvents, SeenAll, Collapse, FirstOfRuns, TrayOf, Runs, Holds, ServiceStep;
    var us, s := UserEvents(env, uri, SeenAll(env, run.calls, n)), run.states[n];
    HistoryAndTray(env, uri, run, n);
    starts, ends := CollapsedRuns(us);
    if uri in s.devices {
      NewestHolds(Collapse(us), us, ends);
    }
  }

  lemma NewestHolds(c: seq<Event>, us: seq<Event>, ends: seq<nat>)
    requires Holds(c, us, ends)
    ensures Holds(Newest(c, 50), us, if |ends| <= 50 then ends else ends[|ends| - 50..])
  {
  }

  // ---------------------------------------------------------------- collecting faxes

  /** Asked for a job, the service hands over that job's fax of that user, if there is one, and no other. */
  lemma JobCollected(faxes: Faxes, user: string, job: int, faxes': Faxes, r: Option<Fax>)
    requires job != 0 && Collect(faxes, user, job, faxes', r)
    ensures r == if (user, job) in faxes then Some(faxes[(user, job)]) else None
    ensures faxes' == faxes - {(user, job)}
  {
    assert (user, job) !in faxes ==> faxes - {(user, job)} == faxes;
  }

  /** Asking for a fax sends the tray a blip and changes no history; it fails exactly at a device with no good URI. */
  lemma AskTold(env: Env, s: Service, uri: string, user: string, job: int, s': Service, ok: bool, r: Option<Fax>)
    requires Asked(env, s, uri, user, job, s', ok, r)
    ensures s' == s.(devices := s'.devices, tray := s.tray + [Event("", 9032, env.me, 0, "", 0)])
    ensures ok <==> uri in s.devices || env.valid(uri)
    ensures s'.devices.Keys == s.devices.Keys + if ok then {uri} else {}
    ensures forall u :: u in s.devices ==> s'.devices[u].history == s.devices[u].history
    ensures forall u :: u in s.devices && u != uri ==> s'.devices[u] == s.devices[u]
  {
    hide Collect;
  }
}
