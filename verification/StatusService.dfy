/** The status service: device caches, the event handler and the fax collection, in place. */
module StatusService {
  import opened Common
  import opened RingBuffer
  import opened StatusEvents
  import opened StatusRuns
  import opened ServiceRuns

  class DeviceCache {
    const history: RingBuffer<Event>
    var faxes: Faxes

    constructor ()
      ensures fresh(history) && Is(EMPTY)
    {
      history := new RingBuffer<Event>(HISTORY_SIZE);
      faxes := map[];
    }

    ghost predicate Is(c: Cache)
      reads this, history
    {
      history.Valid() && history.max == HISTORY_SIZE && history.Contents() == c.history && faxes == c.faxes
    }

    /** Adds an event to the history, over the newest one if that has the same code. */
    method Record(e: Event, ghost c: Cache) returns (repeated: bool)
      requires Is(c)
      modifies history
      ensures Is(c.(history := Remember(c.history, e))) && repeated == Repeats(c.history, e)
    {
      hide Newest;
      var events := history.Get();
      if events != [] && events[|events| - 1].code == e.code {
        var replaced := history.Replace(e);
        repeated := true;
      } else {
        history.Append(e);
        repeated := false;
      }
    }
  }

  lemma CheckIgnoresTray(env: Env, s: Service, tray: seq<Event>, uri: string)
    ensures CheckDevice(env, s.(tray := tray), uri)
            == (CheckDevice(env, s, uri).0.(tray := tray), CheckDevice(env, s, uri).1)
  {
  }

  class StatusService {
    const env: Env
    var devices: map<string, DeviceCache>
    var tray: seq<Event>
    var toolbox: seq<(Event, int)>
    var child: seq<Event>
    var plugins: nat
    var running: bool

    ghost var known: map<string, Cache>
    ghost var Repr: set<object>

    ghost predicate Valid()
      reads this`devices, this`known, this`Repr, Repr
    {
      && this !in Repr && devices.Keys == known.Keys
      && (forall u :: u in devices ==> devices[u] in Repr && devices[u].history in Repr && devices[u].Is(known[u]))
      && (forall u, v :: u in devices && v in devices && u != v ==>
            devices[u] != devices[v] && devices[u].history != devices[v].history)
    }

    ghost function S(): Service
      reads this`known, this`tray, this`toolbox, this`child, this`plugins, this`running
    {
      Service(known, tray, toolbox, child, plugins, running)
    }

    lemma SameKeys()
      requires Valid()
      ensures devices.Keys == known.Keys && this !in Repr
    {
    }

    lemma Footprint()
      requires Valid()
      ensures devices.Keys == known.Keys && this !in Repr
      ensures forall u :: u in devices ==> devices[u] in Repr && devices[u].history in Repr
    {
    }

    constructor (env: Env)
      ensures this.env == env && Valid() && fresh(Repr) && S() == START
    {
      this.env := env;
      devices, tray, toolbox, child, plugins, running := map[], [], [], [], 0, true;
      known, Repr := map[], {};
    }

    /** Makes a cache for a device not met before, if its URI parses. */
    method CheckKnown(uri: string) returns (ok: bool)
      requires Valid()
      modifies this`devices, this`known, this`Repr
      ensures Valid() && fresh(Repr - old(Repr)) && (S(), ok) == CheckDevice(env, old(S()), uri)
      ensures ok <==> uri in devices
    {
      hide Valid;
      SameKeys();
      if uri in devices {
        return true;
      }
      if !env.valid(uri) {
        return false;
      }
      AddCache(uri);
      ok := true;
    }

    method AddCache(uri: string)
      requires Valid() && uri !in devices
      modifies this`devices, this`known, this`Repr
      ensures Valid() && fresh(Repr - old(Repr)) && known == old(known)[uri := EMPTY] && uri in devices
    {
      var c := new DeviceCache();
      devices, known, Repr := devices[uri := c], known[uri := EMPTY], Repr + {c, c.history};
    }

    /** Adds an event to the history of its device. */
    method CreateHistory(e: Event) returns (repeated: bool)
      requires Valid() && e.uri in devices
      modifies this`known, devices[e.uri].history
      ensures Valid()
      ensures var c := old(known)[e.uri];
              known == old(known)[e.uri := c.(history := Remember(c.history, e))]
      ensures repeated == Repeats(old(known)[e.uri].history, e)
    {
      hide Remember, Repeats, Newest, DeviceCache.Is;
      ghost var c := known[e.uri];
      ghost var c' := c.(history := Remember(c.history, e));
      repeated := devices[e.uri].Record(e, c);
      forall u | u in devices && u != e.uri
        ensures devices[u].Is(known[u])
      {
      }
      assert devices[e.uri].Is(c');
      known := known[e.uri := c'];
    }

    /** Keeps a rendered fax for its user; false if the device has no cache. */
    method HandleFax(e: Event, file: string) returns (ok: bool)
      requires Valid()
      modifies this`known, devices.Values
      ensures Valid() && ok == (!(e.code == FAX_RENDER_COMPLETE && e.user == env.me) || e.uri in devices)
      ensures S() == if e.uri in old(known) then FaxEvent(env, old(S()), e, file) else old(S())
    {
      ok := true;
      if e.code == FAX_RENDER_COMPLETE && e.user == env.me {
        if e.uri !in devices {
          return false;
        }
        var c := devices[e.uri];
        c.faxes := Deposit(c.faxes, Fax(file, e));
        known := known[e.uri := known[e.uri].(faxes := c.faxes)];
      }
    }

    /** A user event: history, tray unless it repeats the newest one, toolbox, plug-in installation. */
    method HandleUserEvent(e: Event)
      requires Valid() && e.uri in devices
      modifies this`known, this`tray, this`toolbox, this`plugins, devices[e.uri].history
      ensures Valid() && S() == UserEvent(old(S()), e)
    {
      hide Remember, Repeats, Valid;
      SameKeys();
      var repeated := CreateHistory(e);
      if !repeated {
        tray := tray + [e];
      }
      toolbox := toolbox + [(e, HISTORY_UPDATE)];
      if e.code in {502, 2003, 805} {
        plugins := plugins + 1;
      }
    }

    /** Events that are only passed on. */
    method PassOn(e: Event)
      requires Valid()
      modifies this`tray, this`toolbox, this`child, this`running
      ensures Valid() && S() == Other(old(S()), e)
    {
      if e.code == USER_CONFIGURATION_CHANGED || e.code == SYS_CONFIGURATION_CHANGED
         || e.code == UPDATE_ACTIVE || e.code == UPDATE_INACTIVE {
        tray := tray + [e];
      } else if e.code == UPDATE_REQUESTED {
        child := child + [e];
      } else if e.code == CUPS_QUEUES_ADDED || e.code == CUPS_QUEUES_REMOVED {
        tray := tray + [e];
        toolbox := toolbox + [(e, HISTORY_UPDATE)];
      } else if e.code == SYSTEMTRAY_EXIT {
        child := child + [e];
        toolbox := toolbox + [(e, e.code)];
        tray := tray + [e];
        running := false;
      }
    }

    /** Handles one event; false when an exception was raised on the way. */
    method HandleEvent(e0: Event, args: Args) returns (ok: bool)
      requires Valid()
      modifies this, Repr
      ensures Valid() && fresh(Repr - old(Repr)) && (S(), ok) == Handle(env, old(S()), e0, args)
      decreases args.Reply?, 1
    {
      hide UserEvent, Other, FaxEvent, HandleReply, Valid, CheckDevice;
      Footprint();
      if e0.code == AUTO_CONFIGURE {
        plugins := plugins + 1;
        return true;
      }
      if e0.code == DIAGNOSE_PRINTQUEUE {
        return true;
      }
      if e0.uri != "" {
        var isKnown := CheckKnown(e0.uri);
        if !isKnown {
          return true;
        }
        Footprint();
      }
      var e := Translated(env, e0);
      if e.code < MIN_USER_EVENT {
        return true;
      }
      if IsUserEvent(e.code) {
        if e.uri == "" {
          return false;
        }
        HandleUserEvent(e);
        return true;
      }
      if FAX_MIN <= e.code <= FAX_MAX && args != NoArgs {
        ok := HandleFax(e, args.file);
        return;
      }
      if e.code == UPDATE_REPLY {
        match args
        case Reply(_, Some(status)) =>
          ok := HandleDecodedReply(e, status);
          return;
        case Reply(_, None) =>
          return true;
        case _ =>
          return false;
      }
      PassOn(e);
      ok := true;
    }

    /** A decoded reply of the I/O child becomes a status event of the device. */
    method HandleDecodedReply(e: Event, status: int) returns (ok: bool)
      requires Valid()
      modifies this, Repr
      ensures Valid() && fresh(Repr - old(Repr)) && (S(), ok) == HandleReply(env, old(S()), e, status)
      decreases true, 0
    {
      hide Handle;
      var isKnown := CheckKnown(e.uri);
      if !isKnown {
        return true;
      }
      ok := HandleEvent(Event(e.uri, status, env.me, 0, "", e.time), NoArgs);
      if ok {
        toolbox := toolbox + [(e, UPDATE_REPLY)];
      }
    }

    /** Hands over a waiting fax, of a given job or, for job 0, any of the user's; false if the device is unknown. */
    method CheckForWaitingFax(uri: string, user: string, job: int) returns (ok: bool, r: Option<Fax>)
      requires Valid()
      modifies this, Repr
      ensures Valid() && fresh(Repr - old(Repr))
      ensures Asked(env, old(S()), uri, user, job, S(), ok, r)
    {
      hide Valid, Collect, CheckDevice;
      Footprint();
      CheckIgnoresTray(env, S(), tray + [Blip(env)], uri);
      tray := tray + [Blip(env)];
      r := None;
      ok := CheckKnown(uri);
      Footprint();
      if ok {
        r := CollectFax(uri, user, job);
      }
    }

    method CollectFax(uri: string, user: string, job: int) returns (r: Option<Fax>)
      requires Valid() && uri in devices
      modifies this`known, devices[uri]
      ensures Valid() && uri in known && Collect(old(known)[uri].faxes, user, job, known[uri].faxes, r)
      ensures known == old(known)[uri := old(known)[uri].(faxes := known[uri].faxes)]
    {
      var faxes := devices[uri].faxes;
      r := None;
      if job != 0 {
        if (user, job) in faxes {
          r := HandOver(uri, (user, job));
        }
      } else {
        var keys := WaitingFor(faxes, user);
        if keys != {} {
          var k :| k in keys;
          r := HandOver(uri, k);
        }
      }
    }

    method HandOver(uri: string, k: (string, int)) returns (r: Option<Fax>)
      requires Valid() && uri in devices && k in known[uri].faxes
      modifies this`known, devices[uri]
      ensures Valid() && r == Some(old(known)[uri].faxes[k])
      ensures known == old(known)[uri := old(known)[uri].(faxes := old(known)[uri].faxes - {k})]
    {
      var c := devices[uri];
      r := Some(c.faxes[k]);
      c.faxes := c.faxes - {k};
      known := known[uri := known[uri].(faxes := c.faxes)];
    }
  }
}
