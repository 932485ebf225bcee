/** When print and other channels are kept apart, exactly, and how a nested reopening mixes them. */
module DeviceModes {
  import opened Common
  import opened DeviceState

  /** Channels only on an open device; the print channel alone on one opened for printing, never on another. */
  ghost predicate Separated(s: State) {
    && (!s.io.Open? ==> s.channels == map[])
    && (s.io.Open? ==> forall n :: n in s.channels ==> (n == PRINT <==> s.printing))
  }

  /** No opening has to ask the device for its serial number over a channel. */
  predicate Quiet(hasStatus: bool, s: State) { s.serial != "" || !hasStatus }

  /** A name that is the print channel after upper-casing is written that way. */
  predicate Canonical(name: string) { Upper(name) == PRINT ==> name == PRINT }

  ghost predicate CanonicalCalls(calls: seq<Call>) {
    forall i :: 0 <= i < |calls| && calls[i].CallOpenChannel? ==> Canonical(calls[i].name)
  }

  /** What an opening of a quiet device leads to: the mode asked for and no channel, or a device left closed. */
  lemma QuietOpen(o: Oracle, hasStatus: bool, s: State, printing: bool)
    requires Quiet(hasStatus, s) && Separated(s)
    ensures var r := OpenDevice(o, hasStatus, s, printing);
            && Quiet(hasStatus, r.0) && Separated(r.0)
            && (r.1 ==> r.0.io.Open?) && (!s.io.Open? ==> r.0.channels == map[] && r.0.printing == printing)
            && (s.io.Open? ==> r.0 == s)
  {
  }

  lemma QuietPrepare(o: Oracle, hasStatus: bool, s: State, name: string)
    requires Quiet(hasStatus, s) && Separated(s)
    ensures var r := Prepare(o, hasStatus, s, name);
            Quiet(hasStatus, r.0) && Separated(r.0) && (r.1 ==> r.0.io.Open? && r.0.printing == (name == PRINT))
  {
    hide OpenDevice;
    if !s.io.Open? {
      QuietOpen(o, hasStatus, s, name == PRINT);
    } else if s.printing != (name == PRINT) {
      QuietOpen(o, hasStatus, Close(s), name == PRINT);
    }
  }

  lemma QuietChannel(o: Oracle, hasStatus: bool, s: State, name: string)
    requires Quiet(hasStatus, s) && Separated(s) && Canonical(name)
    ensures var r := OpenChannel(o, hasStatus, s, name).0; Quiet(hasStatus, r) && Separated(r)
  {
    hide Prepare, Upper;
    QuietPrepare(o, hasStatus, s, name);
    UpperPrint();
  }

  lemma UpperPrint()
    ensures Upper(PRINT) == PRINT && Upper(PML) == PML && PML != PRINT
  {
    assert |PRINT| == 5 && |PML| == 10;
  }

  lemma QuietId(o: Oracle, hasStatus: bool, s: State)
    requires Quiet(hasStatus, s) && Separated(s)
    ensures var r := GetDeviceId(o, hasStatus, s).0; Quiet(hasStatus, r) && Separated(r)
  {
    hide OpenDevice;
    QuietOpen(o, hasStatus, s.(ids := map[]), false);
  }

  lemma QuietStep(o: Oracle, hasStatus: bool, s: State, c: Call)
    requires Quiet(hasStatus, s) && Separated(s)
    requires c.CallOpenChannel? ==> Canonical(c.name)
    ensures var r := Step(o, hasStatus, s, c); Quiet(hasStatus, r) && Separated(r)
  {
    hide OpenDevice, OpenChannel, GetDeviceId;
    match c
    case CallOpen(p) => QuietOpen(o, hasStatus, s, p);
    case CallOpenChannel(n) => QuietChannel(o, hasStatus, s, n);
    case CallGetDeviceId => QuietId(o, hasStatus, s);
    case CallGetPml =>
      UpperPrint();
      QuietChannel(o, hasStatus, s, PML);
    case CallClose =>
    case CallCloseChannel(_) =>
  }

  lemma {:induction false} QuietRun(o: Oracle, hasStatus: bool, serial: string, calls: seq<Call>)
    requires Quiet(hasStatus, Initial(serial)) && CanonicalCalls(calls)
    ensures var s := Run(o, hasStatus, Initial(serial), calls); Quiet(hasStatus, s) && Separated(s)
  {
    hide Step;
    if calls != [] {
      var l := |calls| - 1;
      assert forall i :: 0 <= i < l ==> calls[..l][i] == calls[i];
      QuietRun(o, hasStatus, serial, calls[..l]);
      QuietStep(o, hasStatus, Run(o, hasStatus, Initial(serial), calls[..l]), calls[l]);
    }
  }

  // ---------------------------------------------------------------- the failing runs

  /** A driver that opens the device once, then refuses; it never knows a device ID or a serial number. */
  function OpensOnce(): Oracle {
    Oracle(t => Grant(t == 0, 1), t => Grant(false, -1), t => NoId, t => Reply(None))
  }

  /** A driver that grants every request, and knows neither device ID nor serial number. */
  function OpensAlways(): Oracle {
    Oracle(t => Grant(true, 1), t => Grant(true, t), t => NoId, t => Reply(None))
  }

  /**
   Opening for printing asks for the serial number over a PML channel, which reopens the device not for printing.
   When that fails the failure is swallowed, and the print channel is recorded on a device that is not open.
   */
  lemma ChannelOnClosedDevice()
    ensures var s := OpenChannel(OpensOnce(), true, Initial(""), PRINT).0;
            !s.io.Open? && PRINT in s.channels
  {
    var o, s := OpensOnce(), Initial("");
    var s1 := s.(io := Open, printing := true, deviceId := 1, tick := 1, driver := s.driver.OpenDevice(o.device(0)));
    assert GetDeviceId(o, true, s1) == (s1.(tick := 2), true);
    var s2 := s1.(tick := 2);
    NestedReopenFails(o, s2);
    UpperPrint();
  }

  lemma NestedReopenFails(o: Oracle, s: State)
    requires o == OpensOnce() && s.io.Open? && s.printing && s.tick == 2 && s.serial == "" && s.ids == map[]
    requires s.channels == map[]
    ensures var r := GetSerialNumber(o, true, s); r.io.NotAvail? && r.channels == map[]
  {
    UpperPrint();
    var closed := Close(s);
    var failed := closed.(io := NotAvail, printing := false, deviceId := 1, tick := 3);
    assert OpenDevice(o, true, closed, false) == (failed, false);
    assert Prepare(o, true, s, PML) == (failed, false);
    assert OpenChannel(o, true, s, PML) == (failed, -1);
  }

  /**
   Channels are kept apart over all runs and all answers of the driver exactly when the serial number is known
   or the device has no status channel.
   */
  lemma SeparatedExactly(hasStatus: bool, serial: string)
    ensures (forall o: Oracle, calls: seq<Call> | CanonicalCalls(calls) ::
               Separated(Run(o, hasStatus, Initial(serial), calls)))
       <==> Quiet(hasStatus, Initial(serial))
  {
    hide OpenChannel, OpenDevice, GetDeviceId, GetPml, Run;
    if Quiet(hasStatus, Initial(serial)) {
      forall o: Oracle, calls: seq<Call> | CanonicalCalls(calls)
        ensures Separated(Run(o, hasStatus, Initial(serial), calls))
      {
        QuietRun(o, hasStatus, serial, calls);
      }
    } else {
      var calls := [CallOpenChannel(PRINT)];
      ChannelOnClosedDevice();
      RunOne(OpensOnce(), hasStatus, Initial(serial), calls[0]);
      assert CanonicalCalls(calls) && !Separated(Run(OpensOnce(), hasStatus, Initial(serial), calls));
    }
  }

  lemma RunOne(o: Oracle, hasStatus: bool, s: State, c: Call)
    ensures Run(o, hasStatus, s, [c]) == Step(o, hasStatus, s, c)
  {
    assert [c][..0] == [];
  }

  // ---------------------------------------------------------------- both kinds of channel at once

  /** The state after a driver granted everything: open not for printing, with these channels. */
  ghost predicate PlainlyOpen(s: State) {
    s.io.Open? && !s.printing && s.serial == "" && s.ids == map[]
  }

  lemma SerialOverPml(s: State)
    requires PlainlyOpen(s) && s.channels == map[]
    ensures var r := GetSerialNumber(OpensAlways(), true, s); PlainlyOpen(r) && r.channels == map[]
  {
    UpperPrint();
    var o := OpensAlways();
    assert Prepare(o, true, s, PML) == (s, true);
    var c := OpenChannel(o, true, s, PML);
    assert c.0.channels == map[PML := c.1];
    assert c.0.channels - {PML} == map[];
  }

  lemma SerialReopens(s: State)
    requires s.io.Open? && s.printing && s.serial == "" && s.ids == map[] && s.channels == map[]
    ensures var r := GetSerialNumber(OpensAlways(), true, s); PlainlyOpen(r) && r.channels == map[]
  {
    UpperPrint();
    var o := OpensAlways();
    var closed := Close(s);
    var s1 := closed.(io := Open, printing := false, deviceId := 1, tick := closed.tick + 1,
                      driver := closed.driver.OpenDevice(o.device(closed.tick)));
    SerialOverPml(s1.(tick := s1.tick + 1));
    var r := OpenDevice(o, true, closed, false);
    assert Prepare(o, true, s, PML) == r;
    var c := OpenChannel(o, true, s, PML);
    assert c.0.channels == map[PML := c.1];
    assert c.0.channels - {PML} == map[];
  }

  /** With an unknown serial number the print channel ends up on a device open for other uses, beside a fax channel. */
  lemma PrintBesideFax()
    ensures var s := Run(OpensAlways(), true, Initial(""), [CallOpenChannel(PRINT), CallOpenChannel("HP-FAX-SEND")]);
            s.io.Open? && !s.printing && PRINT in s.channels && "HP-FAX-SEND" in s.channels
  {
    hide GetSerialNumber;
    UpperPrint();
    var o, s := OpensAlways(), Initial("");
    var s1 := s.(io := Open, printing := true, deviceId := 1, tick := 1, driver := s.driver.OpenDevice(o.device(0)));
    SerialReopens(s1.(tick := 2));
    var r := OpenDevice(o, true, s, true);
    assert PlainlyOpen(r.0) && r.0.channels == map[] && r.1;
    var first := OpenChannel(o, true, s, PRINT).0;
    assert PlainlyOpen(first) && PRINT in first.channels;
    var fax := "HP-FAX-SEND";
    assert |fax| == 11 && Upper(fax) == fax;
    var calls := [CallOpenChannel(PRINT), CallOpenChannel(fax)];
    assert calls[..1] == [CallOpenChannel(PRINT)];
    RunOne(o, true, s, calls[0]);
    assert Prepare(o, true, first, fax) == (first, true);
  }

  // ---------------------------------------------------------------- channel names

  /** Even on a quiet device one call keeps the channels apart exactly for names written as they are upper-cased. */
  lemma NamesExactly(name: string)
    ensures (forall o: Oracle :: Separated(OpenChannel(o, false, Initial(""), name).0)) <==> Canonical(name)
  {
    hide Upper;
    if Canonical(name) {
      forall o: Oracle ensures Separated(OpenChannel(o, false, Initial(""), name).0) {
        QuietChannel(o, false, Initial(""), name);
      }
    } else {
      var o, s := OpensAlways(), Initial("");
      QuietPrepare(o, false, s, name);
      var r := OpenDevice(o, false, s, false);
      assert r.1 && r.0.io.Open? && !r.0.printing;
      assert PRINT in OpenChannel(o, false, s, name).0.channels;
      assert !Separated(OpenChannel(o, false, s, name).0);
    }
  }
}
