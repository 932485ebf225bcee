/** What the status service does with events and waiting faxes, as functions of its state. */
module StatusEvents {
  import opened Common
  import opened RingBuffer

  const HISTORY_SIZE := 50
  const AUTO_CONFIGURE := 900
  const DIAGNOSE_PRINTQUEUE := 5502
  const MIN_USER_EVENT := 500
  const MAX_USER_EVENT := 7999
  const FAX_MIN := 8000
  const FAX_RENDER_COMPLETE := 8000
  const FAX_MAX := 8999
  const CUPS_QUEUES_ADDED := 9000
  const HISTORY_UPDATE := 9003
  const USER_CONFIGURATION_CHANGED := 9004
  const SYS_CONFIGURATION_CHANGED := 9005
  const UPDATE_REQUESTED := 9010
  const UPDATE_REPLY := 9011
  const UPDATE_ACTIVE := 9030
  const UPDATE_INACTIVE := 9031
  const UPDATE_BLIP := 9032
  const SYSTEMTRAY_EXIT := 9040
  const CUPS_QUEUES_REMOVED := 9041
  const MAX_EVENT := 9999

  datatype Event = Event(uri: string, code: int, user: string, job: int, title: string, time: int)

  /** A rendered fax, in a file of its own. */
  datatype Fax = Fax(file: string, event: Event)

  type Faxes = map<(string, int), Fax>
  datatype Cache = Cache(history: seq<Event>, faxes: Faxes)

  /**
   What comes with an event: a pipe, whose contents go to a file of their own, and perhaps the length of a reply of
   the I/O child, which is decoded or not.
   */
  datatype Args = NoArgs | FaxFile(file: string) | Reply(file: string, status: Option<int>)

  /** What the service cannot see into: which URIs parse, the PJL code table, the user it runs for. */
  datatype Env = Env(valid: string -> bool, pjl: int -> int, me: string)

  datatype Service = Service(devices: map<string, Cache>, tray: seq<Event>, toolbox: seq<(Event, int)>,
                             child: seq<Event>, plugins: nat, running: bool)

  const EMPTY := Cache([], map[])

  function CheckDevice(env: Env, s: Service, uri: string): (r: (Service, bool))
    ensures r.1 <==> uri in r.0.devices
    ensures !r.1 ==> r.0 == s
  {
    if uri in s.devices then (s, true)
    else if env.valid(uri) then (s.(devices := s.devices[uri := EMPTY]), true)
    else (s, false)
  }

  /** Whether the event repeats the newest code of the history. */
  predicate Repeats(history: seq<Event>, e: Event) {
    history != [] && history[|history| - 1].code == e.code
  }

  function Remember(history: seq<Event>, e: Event): seq<Event> {
    if Repeats(history, e) then history[|history| - 1 := e] else Newest(history + [e], HISTORY_SIZE)
  }

  predicate IsUserEvent(code: int) { MIN_USER_EVENT <= code <= MAX_USER_EVENT }

  /** Events of this device that reach its history. */
  function Translated(env: Env, e: Event): Event {
    if e.code > MAX_EVENT then e.(code := env.pjl(e.code)) else e
  }

  function UserEvent(s: Service, e: Event): Service
    requires e.uri in s.devices
  {
    var c := s.devices[e.uri];
    s.(devices := s.devices[e.uri := c.(history := Remember(c.history, e))],
       tray := if Repeats(c.history, e) then s.tray else s.tray + [e],
       toolbox := s.toolbox + [(e, HISTORY_UPDATE)],
       plugins := s.plugins + if e.code in {502, 2003, 805} then 1 else 0)
  }

  function Deposit(faxes: Faxes, f: Fax): Faxes {
    faxes[(f.event.user, f.event.job) := f]
  }

  /** A rendered fax of the user the service runs for is kept until asked for. */
  function FaxEvent(env: Env, s: Service, e: Event, file: string): Service
    requires e.uri in s.devices
  {
    if e.code == FAX_RENDER_COMPLETE && e.user == env.me then
      var c := s.devices[e.uri];
      s.(devices := s.devices[e.uri := c.(faxes := Deposit(c.faxes, Fax(file, e)))])
    else s
  }

  function Other(s: Service, e: Event): Service {
    if e.code in {USER_CONFIGURATION_CHANGED, SYS_CONFIGURATION_CHANGED, UPDATE_ACTIVE, UPDATE_INACTIVE} then
      s.(tray := s.tray + [e])
    else if e.code == UPDATE_REQUESTED then s.(child := s.child + [e])
    else if e.code == CUPS_QUEUES_ADDED || e.code == CUPS_QUEUES_REMOVED then
      s.(tray := s.tray + [e], toolbox := s.toolbox + [(e, HISTORY_UPDATE)])
    else if e.code == SYSTEMTRAY_EXIT then
      s.(child := s.child + [e], toolbox := s.toolbox + [(e, e.code)], tray := s.tray + [e], running := false)
    else s
  }

  /** One event; the second result is false when handling it raised an exception. */
  function Handle(env: Env, s: Service, e0: Event, args: Args): (Service, bool)
    decreases args.Reply?
  {
    if e0.code == AUTO_CONFIGURE then (s.(plugins := s.plugins + 1), true)
    else if e0.code == DIAGNOSE_PRINTQUEUE then (s, true)
    else
      var checked := CheckDevice(env, s, e0.uri);
      if e0.uri != "" && !checked.1 then (s, true)
      else
        var s1 := if e0.uri != "" then checked.0 else s;
        var e := Translated(env, e0);
        if e.code < MIN_USER_EVENT then (s1, true)
        else if IsUserEvent(e.code) then
          // without a URI the test for a repeated event reads a variable that was never set
          if e.uri == "" then (s1, false) else (UserEvent(s1, e), true)
        else if FAX_MIN <= e.code <= FAX_MAX && args != NoArgs then
          if e.code == FAX_RENDER_COMPLETE && e.user == env.me && e.uri !in s1.devices then (s1, false)
          else if e.uri !in s1.devices then (s1, true)
          else (FaxEvent(env, s1, e, args.file), true)
        else if e.code == UPDATE_REPLY then
          match args
          case Reply(_, Some(status)) => HandleReply(env, s1, e, status)
          case Reply(_, None) => (s1, true)
          case _ => (s1, false)
        else (Other(s1, e), true)
  }

  /** A decoded reply becomes a status event of the device. */
  function HandleReply(env: Env, s: Service, e: Event, status: int): (Service, bool)
    decreases true, 0
  {
    var checked := CheckDevice(env, s, e.uri);
    if !checked.1 then (s, true)
    else
      var r := Handle(env, checked.0, Event(e.uri, status, env.me, 0, "", e.time), NoArgs);
      if r.1 then (r.0.(toolbox := r.0.toolbox + [(e, UPDATE_REPLY)]), true) else r
  }

  const START := Service(map[], [], [], [], 0, true)
}
