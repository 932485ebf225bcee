/** The device object: the methods that open and close the device and its channels, in place. */
module Device {
  import opened Common
  import opened DeviceId
  import opened DeviceState

  class Device {
    const oracle: Oracle
    const hasStatus: bool
    var io: IoState
    var deviceId: int
    var openForPrinting: bool
    var channels: map<string, int>
    var serial: string
    var ids: Fields
    var driver: Driver
    var tick: nat

    constructor (oracle: Oracle, hasStatus: bool, serial: string)
      ensures this.oracle == oracle && this.hasStatus == hasStatus && S() == Initial(serial)
    {
      this.oracle, this.hasStatus, this.serial := oracle, hasStatus, serial;
      io, deviceId, openForPrinting, channels, ids, tick := Ready, -1, false, map[], map[], 0;
      driver := Driver({}, {}, {});
    }

    function S(): State
      reads this
    {
      State(io, deviceId, openForPrinting, channels, serial, ids, driver, tick)
    }

    /** Opens the device in the mode asked for and learns its ID and serial number. */
    method Open(printing: bool) returns (ok: bool)
      modifies this
      ensures (S(), ok) == OpenDevice(oracle, hasStatus, old(S()), printing)
      decreases if printing then 3 else 1, 0
    {
      hide CloseChannel, Close, Fetch, GetDeviceId, GetSerialNumber;
      if io.Open? {
        return true;
      }
      io, deviceId, openForPrinting := NotAvail, -1, printing;
      var g := oracle.device(tick);
      deviceId, tick := g.id, tick + 1;
      if !g.ok {
        return false;
      }
      io, driver := DeviceState.IoState.Open, driver.OpenDevice(g);
      ok := ReadDeviceId();
      if ok {
        ReadSerialNumber();
      }
    }

    /** Closes every channel, then the device. */
    method CloseDevice()
      modifies this
      ensures S() == Close(old(S()))
    {
      if io.Open? {
        ghost var before := S();
        var left := channels.Keys;
        while left != {}
          invariant left <= channels.Keys <= before.channels.Keys
          invariant forall n :: n in channels ==> channels[n] == before.channels[n]
          invariant S() == before.(channels := channels, driver := driver)
          invariant driver == before.driver.(channels := driver.channels)
          invariant forall p :: p in driver.channels <==>
                      p in before.driver.channels
                      && !(p.0 == deviceId && exists n :: n in before.channels.Keys - left && before.channels[n] == p.1)
          decreases left
        {
          var n :| n in left;
          var left' := left - {n};
          driver := driver.CloseChannel(deviceId, channels[n]);
          forall p
            ensures p in driver.channels <==>
                      p in before.driver.channels
                      && !(p.0 == deviceId
                           && exists m :: m in before.channels.Keys - left' && before.channels[m] == p.1)
          {
            if p == (deviceId, before.channels[n]) {
              assert n in before.channels.Keys - left';
            }
          }
          left := left';
        }
        assert driver.channels == CloseAll(before).channels;
        driver := driver.CloseDevice(deviceId);
        channels := map[];
        io := Ready;
      }
    }

    /** The channel of a service, opened if need be; -1 if the device cannot be opened. */
    method OpenServiceChannel(name: string) returns (channel: int)
      modifies this
      ensures (S(), channel) == OpenChannel(oracle, hasStatus, old(S()), name)
      decreases Rank(S(), name), 1
    {
      hide CloseAll, Upper, OpenDevice;
      var ok := true;
      if io.Open? {
        if name == PRINT && !openForPrinting {
          CloseDevice();
          ok := Open(true);
        } else if name != PRINT && openForPrinting {
          CloseDevice();
          ok := Open(false);
        }
      } else {
        ok := Open(name == PRINT);
      }
      if !ok {
        return -1;
      }
      var n := Upper(name);
      if n in channels {
        return channels[n];
      }
      var g := oracle.channel(tick);
      channels, driver, tick := channels[n := g.id], driver.OpenChannel(deviceId, g), tick + 1;
      channel := g.id;
    }

    method CloseServiceChannel(name: string)
      modifies this
      ensures S() == CloseChannel(old(S()), name)
    {
      if io.Open? {
        var n := Upper(name);
        if n in channels {
          driver := driver.CloseChannel(deviceId, channels[n]);
          channels := channels - {n};
        }
      }
    }

    /** Asks the driver for the device ID; false if the parser failed on it. */
    method FetchId() returns (ok: bool)
      modifies this`ids, this`tick
      ensures (S(), ok) == Fetch(oracle, old(S()))
    {
      hide Parse;
      var reply := oracle.id(tick);
      tick := tick + 1;
      match reply
      case NoId => ok := true;
      case Id(text) =>
        var parsed := ParseDeviceId(text);
        match parsed
        case None => ok := false;
        case Some(d) =>
          ids := d;
          ok := true;
    }

    /** Reads the device ID; a device that was not open is opened for it and closed again. */
    method ReadDeviceId() returns (ok: bool)
      modifies this
      ensures (S(), ok) == GetDeviceId(oracle, hasStatus, old(S()))
      decreases if io.Open? then 0 else 2, 4
    {
      hide OpenDevice, Close, Fetch;
      ids := map[];
      if io.Open? {
        ok := FetchId();
      } else {
        var dev := Open(false);
        if !dev {
          return true;
        }
        ok := FetchId();
        if ok {
          CloseDevice();
        }
      }
    }

    /** Takes the serial number from the device ID or, failing that, asks for it over a PML channel. */
    method ReadSerialNumber()
      modifies this
      ensures S() == GetSerialNumber(oracle, hasStatus, old(S()))
      decreases Rank(S(), PML), 3
    {
      hide GetPml, CloseChannel;
      if serial != "" {
        return;
      }
      if "SN" in ids && ids["SN"].Some? {
        serial := ids["SN"].value;
        if serial != "" {
          return;
        }
      }
      if hasStatus {
        var reply := ReadPml();
        serial := if reply.Reply? && reply.value.Some? then reply.value.value else "";
        CloseServiceChannel(PML);
      }
    }

    method ReadPml() returns (reply: PmlReply)
      modifies this
      ensures (S(), reply) == GetPml(oracle, hasStatus, old(S()))
      decreases Rank(S(), PML), 2
    {
      hide OpenChannel;
      var channel := OpenServiceChannel(PML);
      reply := oracle.pml(tick);
      tick := tick + 1;
    }
  }
}
