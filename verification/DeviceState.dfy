/**
 Opening and closing a device and its channels over a driver whose answers are arbitrary: the state,
 what each call does to it, and what every run keeps.
 */
module DeviceState {
  import opened Common
  import opened DeviceId

  // ---------------------------------------------------------------- the driver

  /** An answer to a request for a handle: whether it was granted, and the number handed back. */
  datatype Grant = Grant(ok: bool, id: int)
  datatype IdReply = NoId | Id(text: string)
  /** A PML value, if the device has one; or a failure of the request. */
  datatype PmlReply = Reply(value: Option<string>) | PmlError

  /** Every answer of the driver, by the number of requests made before. */
  datatype Oracle = Oracle(device: nat -> Grant, channel: nat -> Grant, id: nat -> IdReply, pml: nat -> PmlReply)

  /** The handles the driver holds open; `orphans` are channels whose device was closed before them. */
  datatype Driver = Driver(devices: set<int>, channels: set<(int, int)>, orphans: set<(int, int)>) {
    function OpenDevice(g: Grant): Driver {
      if g.ok then this.(devices := devices + {g.id}) else this
    }

    function OpenChannel(d: int, g: Grant): Driver {
      if g.ok && d in devices then this.(channels := channels + {(d, g.id)}) else this
    }

    function CloseChannel(d: int, c: int): Driver {
      this.(channels := channels - {(d, c)})
    }

    function CloseDevice(d: int): Driver {
      var left := set p | p in channels && p.0 == d;
      Driver(devices - {d}, channels - left, orphans + left)
    }
  }

  // ---------------------------------------------------------------- the device object

  datatype IoState = Ready | NotAvail | Open

  datatype State = State(
    io: IoState, deviceId: int, printing: bool, channels: map<string, int>,
    serial: string, ids: Fields, driver: Driver, tick: nat)

  const PRINT := "PRINT"
  const PML := "HP-MESSAGE"

  function UpperChar(c: char): char {
    if 'a' <= c <= 'z' then (c as int - 32) as char else c
  }

  function Upper(s: string): (r: string)
    ensures |r| == |s|
  {
    seq(|s|, i requires 0 <= i < |s| => UpperChar(s[i]))
  }

  lemma UpperTwice(s: string)
    ensures Upper(Upper(s)) == Upper(s)
  {
  }

  function CloseChannel(s: State, name: string): State {
    var n := Upper(name);
    if s.io.Open? && n in s.channels then
      s.(driver := s.driver.CloseChannel(s.deviceId, s.channels[n]), channels := s.channels - {n})
    else s
  }

  /** The driver after closing every channel of the dictionary. */
  function CloseAll(s: State): Driver {
    s.driver.(channels := set p | p in s.driver.channels && !(p.0 == s.deviceId && p.1 in s.channels.Values))
  }

  function Close(s: State): State {
    if s.io.Open? then
      s.(driver := CloseAll(s).CloseDevice(s.deviceId), channels := map[], io := Ready)
    else s
  }

  /** Asks for the device ID; the parser fails on an ID whose serial number has no value. */
  function Fetch(o: Oracle, s: State): (r: (State, bool))
    ensures r.0 == s.(ids := r.0.ids, tick := s.tick + 1)
  {
    match o.id(s.tick)
    case NoId => (s.(tick := s.tick + 1), true)
    case Id(text) =>
      match Parse(text)
      case None => (s.(tick := s.tick + 1), false)
      case Some(d) => (s.(ids := d, tick := s.tick + 1), true)
  }

  /** How many device openings a call for a channel can still set off. */
  function Rank(s: State, name: string): nat {
    if name == PRINT then 4 else if s.io.Open? && !s.printing then 0 else 2
  }

  /** Opens the device; the second result tells whether the call returned rather than raised. */
  function OpenDevice(o: Oracle, hasStatus: bool, s: State, printing: bool): (State, bool)
    decreases if printing then 3 else 1, 0
  {
    if s.io.Open? then (s, true)
    else
      var g := o.device(s.tick);
      var s1 := s.(io := NotAvail, printing := printing, deviceId := g.id, tick := s.tick + 1);
      if !g.ok then (s1, false)
      else
        var id := GetDeviceId(o, hasStatus, s1.(io := Open, driver := s.driver.OpenDevice(g)));
        if !id.1 then id else (GetSerialNumber(o, hasStatus, id.0), true)
  }

  function GetDeviceId(o: Oracle, hasStatus: bool, s: State): (r: (State, bool))
    ensures s.io.Open? ==> r.0 == s.(ids := r.0.ids, tick := s.tick + 1)
    decreases if s.io.Open? then 0 else 2, 4
  {
    var s0 := s.(ids := map[]);
    if s.io.Open? then Fetch(o, s0)
    else
      var dev := OpenDevice(o, hasStatus, s0, false);
      if !dev.1 then (dev.0, true)
      else
        var fetched := Fetch(o, dev.0);
        if fetched.1 then (Close(fetched.0), true) else fetched
  }

  function GetSerialNumber(o: Oracle, hasStatus: bool, s: State): State
    decreases Rank(s, PML), 3
  {
    if s.serial != "" then s
    else
      var s1 := if "SN" in s.ids && s.ids["SN"].Some? then s.(serial := s.ids["SN"].value) else s;
      if s1.serial != "" || !hasStatus then s1
      else
        var got := GetPml(o, hasStatus, s1);
        var serial := if got.1.Reply? && got.1.value.Some? then got.1.value.value else "";
        CloseChannel(got.0.(serial := serial), PML)
  }

  function GetPml(o: Oracle, hasStatus: bool, s: State): (State, PmlReply)
    decreases Rank(s, PML), 2
  {
    var dev := OpenChannel(o, hasStatus, s, PML);
    (dev.0.(tick := dev.0.tick + 1), o.pml(dev.0.tick))
  }

  /** The device made ready for a channel: redev if its mode does not suit the service. */
  function Prepare(o: Oracle, hasStatus: bool, s: State, name: string): (State, bool)
    decreases Rank(s, name), 0
  {
    if !s.io.Open? then OpenDevice(o, hasStatus, s, name == PRINT)
    else if name == PRINT && !s.printing then OpenDevice(o, hasStatus, Close(s), true)
    else if name != PRINT && s.printing then OpenDevice(o, hasStatus, Close(s), false)
    else (s, true)
  }

  function OpenChannel(o: Oracle, hasStatus: bool, s: State, name: string): (State, int)
    decreases Rank(s, name), 1
  {
    var prepared := Prepare(o, hasStatus, s, name);
    if !prepared.1 then (prepared.0, -1)
    else
      var s1, n := prepared.0, Upper(name);
      if n in s1.channels then (s1, s1.channels[n])
      else
        var g := o.channel(s1.tick);
        var driver := s1.driver.OpenChannel(s1.deviceId, g);
        (s1.(channels := s1.channels[n := g.id], driver := driver, tick := s1.tick + 1), g.id)
  }

  // ---------------------------------------------------------------- runs

  datatype Call = CallOpen(printing: bool) | CallClose | CallOpenChannel(name: string) | CallCloseChannel(name: string)
                | CallGetDeviceId | CallGetPml

  function Step(o: Oracle, hasStatus: bool, s: State, c: Call): State {
    match c
    case CallOpen(p) => OpenDevice(o, hasStatus, s, p).0
    case CallClose => Close(s)
    case CallOpenChannel(n) => OpenChannel(o, hasStatus, s, n).0
    case CallCloseChannel(n) => CloseChannel(s, n)
    case CallGetDeviceId => GetDeviceId(o, hasStatus, s).0
    case CallGetPml => GetPml(o, hasStatus, s).0
  }

  function Run(o: Oracle, hasStatus: bool, s: State, calls: seq<Call>): State {
    if calls == [] then s else Step(o, hasStatus, Run(o, hasStatus, s, calls[..|calls| - 1]), calls[|calls| - 1])
  }

  function Initial(serial: string): State {
    State(Ready, -1, false, map[], serial, map[], Driver({}, {}, {}), 0)
  }

  // ---------------------------------------------------------------- handles

  /**
   Exactly the device in use is open, every open channel belongs to it and is in the dictionary, and no channel
   ever outlived its device.
   */
  ghost predicate Handles(s: State) {
    && s.driver.devices == (if s.io.Open? then {s.deviceId} else {})
    && (forall p :: p in s.driver.channels ==> s.io.Open? && p.0 == s.deviceId && p.1 in s.channels.Values)
    && s.driver.orphans == {}
    && forall n :: n in s.channels ==> Upper(n) == n
  }

  lemma CloseKeepsHandles(s: State)
    requires Handles(s)
    ensures Handles(Close(s)) && !Close(s).io.Open?
    ensures s.io.Open? ==> Close(s).channels == map[] && Close(s).driver == Driver({}, {}, {})
  {
    if s.io.Open? {
      assert CloseAll(s).channels == {};
    }
  }

  lemma CloseChannelKeepsHandles(s: State, name: string)
    requires Handles(s)
    ensures Handles(CloseChannel(s, name))
  {
    var n := Upper(name);
    if s.io.Open? && n in s.channels {
      var s' := CloseChannel(s, name);
      forall p | p in s'.driver.channels
        ensures p.1 in s'.channels.Values
      {
        var m :| m in s.channels && s.channels[m] == p.1;
        assert m != n;
        assert m in s'.channels && s'.channels[m] == p.1;
      }
    }
  }

  lemma AddChannelKeepsHandles(s: State, n: string, g: Grant)
    requires Handles(s) && Upper(n) == n && n !in s.channels
    ensures Handles(s.(channels := s.channels[n := g.id], tick := s.tick + 1,
                       driver := s.driver.OpenChannel(s.deviceId, g)))
  {
    var c := s.channels[n := g.id];
    assert c[n] == g.id;
    forall p | p in s.driver.channels
      ensures p.1 in c.Values
    {
      var m :| m in s.channels && s.channels[m] == p.1;
      assert c[m] == p.1;
    }
  }

  lemma {:induction false} OpenKeepsHandles(o: Oracle, hasStatus: bool, s: State, printing: bool)
    requires Handles(s)
    ensures Handles(OpenDevice(o, hasStatus, s, printing).0)
    decreases if printing then 3 else 1, 0
  {
    hide GetDeviceId, GetSerialNumber;
    if !s.io.Open? && o.device(s.tick).ok {
      var g := o.device(s.tick);
      var s1 := s.(io := Open, printing := printing, deviceId := g.id, tick := s.tick + 1,
                   driver := s.driver.OpenDevice(g));
      var id := GetDeviceId(o, hasStatus, s1);
      if id.1 {
        SerialKeepsHandles(o, hasStatus, id.0);
      }
    }
  }

  lemma {:induction false} IdKeepsHandles(o: Oracle, hasStatus: bool, s: State)
    requires Handles(s)
    ensures Handles(GetDeviceId(o, hasStatus, s).0)
    decreases if s.io.Open? then 0 else 2, 4
  {
    if !s.io.Open? {
      var s0 := s.(ids := map[]);
      OpenKeepsHandles(o, hasStatus, s0, false);
      CloseKeepsHandles(Fetch(o, OpenDevice(o, hasStatus, s0, false).0).0);
    }
  }

  lemma {:induction false} SerialKeepsHandles(o: Oracle, hasStatus: bool, s: State)
    requires Handles(s)
    ensures Handles(GetSerialNumber(o, hasStatus, s))
    decreases Rank(s, PML), 3
  {
    hide OpenDevice, OpenChannel, CloseChannel;
    if s.serial == "" {
      var s1 := if "SN" in s.ids && s.ids["SN"].Some? then s.(serial := s.ids["SN"].value) else s;
      if s1.serial == "" && hasStatus {
        PmlKeepsHandles(o, hasStatus, s1);
        var got := GetPml(o, hasStatus, s1);
        var serial := if got.1.Reply? && got.1.value.Some? then got.1.value.value else "";
        CloseChannelKeepsHandles(got.0.(serial := serial), PML);
      }
    }
  }

  lemma {:induction false} PmlKeepsHandles(o: Oracle, hasStatus: bool, s: State)
    requires Handles(s)
    ensures Handles(GetPml(o, hasStatus, s).0)
    decreases Rank(s, PML), 2
  {
    ChannelKeepsHandles(o, hasStatus, s, PML);
  }

  lemma {:induction false} PrepareKeepsHandles(o: Oracle, hasStatus: bool, s: State, name: string)
    requires Handles(s)
    ensures Handles(Prepare(o, hasStatus, s, name).0)
    decreases Rank(s, name), 0
  {
    if !s.io.Open? {
      OpenKeepsHandles(o, hasStatus, s, name == PRINT);
    } else if s.printing != (name == PRINT) {
      CloseKeepsHandles(s);
      OpenKeepsHandles(o, hasStatus, Close(s), name == PRINT);
    }
  }

  lemma {:induction false} ChannelKeepsHandles(o: Oracle, hasStatus: bool, s: State, name: string)
    requires Handles(s)
    ensures Handles(OpenChannel(o, hasStatus, s, name).0)
    decreases Rank(s, name), 1
  {
    hide Prepare, Upper;
    PrepareKeepsHandles(o, hasStatus, s, name);
    UpperTwice(name);
    var prepared := Prepare(o, hasStatus, s, name);
    if prepared.1 && Upper(name) !in prepared.0.channels {
      AddChannelKeepsHandles(prepared.0, Upper(name), o.channel(prepared.0.tick));
    }
  }

  /** Over every sequence of calls and every answer of the driver. */
  lemma {:induction false} RunKeepsHandles(o: Oracle, hasStatus: bool, serial: string, calls: seq<Call>)
    ensures Handles(Run(o, hasStatus, Initial(serial), calls))
  {
    hide OpenDevice, OpenChannel, CloseChannel, GetDeviceId, GetPml, Close;
    if calls != [] {
      var before := Run(o, hasStatus, Initial(serial), calls[..|calls| - 1]);
      RunKeepsHandles(o, hasStatus, serial, calls[..|calls| - 1]);
      match calls[|calls| - 1]
      case CallOpen(p) => OpenKeepsHandles(o, hasStatus, before, p);
      case CallClose => CloseKeepsHandles(before);
      case CallOpenChannel(n) => ChannelKeepsHandles(o, hasStatus, before, n);
      case CallCloseChannel(n) => CloseChannelKeepsHandles(before, n);
      case CallGetDeviceId => IdKeepsHandles(o, hasStatus, before);
      case CallGetPml => PmlKeepsHandles(o, hasStatus, before);
    }
  }
}
