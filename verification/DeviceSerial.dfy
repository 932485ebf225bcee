/** What opening a device finds out: its ID, its serial number, and how channels are opened and closed again. */
module DeviceSerial {
  import opened Blanks
  import opened Common
  import opened DeviceId
  import opened DeviceState

  /** The 26 small letters become capitals, nothing else changes. */
  lemma UpperIs(s: string, i: nat)
    requires i < |s|
    ensures 97 <= s[i] as int <= 122 ==> Upper(s)[i] as int == s[i] as int - 32
    ensures !(97 <= s[i] as int <= 122) ==> Upper(s)[i] == s[i]
  {
  }

  // ---------------------------------------------------------------- the serial number

  /** The ID as parsed has a serial number that is not empty. */
  predicate Numbered(ids: Fields) {
    "SN" in ids && ids["SN"].Some? && ids["SN"].value != ""
  }

  /** What a PML reply says of the serial number: nothing if the request failed or the device has no value. */
  function Answered(reply: PmlReply): string {
    match reply
    case Reply(Some(v)) => v
    case _ => ""
  }

  /**
   A known serial number stays. Otherwise that of the parsed ID is taken, without another request; failing that, a
   device with a status type is asked last, and its answer counts; any other device has none.
   */
  lemma SerialIs(o: Oracle, hasStatus: bool, s: State)
    ensures var r := GetSerialNumber(o, hasStatus, s);
            if s.serial != "" then r == s
            else if Numbered(s.ids) then r == s.(serial := s.ids["SN"].value)
            else if hasStatus then r.tick > s.tick && r.serial == Answered(o.pml(r.tick - 1))
            else r == s
  {
    hide OpenChannel, Upper;
    if s.serial == "" && !Numbered(s.ids) && hasStatus {
      var s1 := s.(serial := "");
      assert s1 == s;
      ChannelTakesTime(o, hasStatus, s, PML);
    }
  }

  /**
   A device open for anything but printing is asked over its PML channel, which is opened for it if need be and closed
   afterwards; nothing else changes.
   */
  lemma AskedOverPml(o: Oracle, hasStatus: bool, s: State)
    requires s.io.Open? && !s.printing && s.serial == "" && hasStatus && !Numbered(s.ids)
    ensures var r, n := GetSerialNumber(o, hasStatus, s), "HP-MESSAGE";
            var asked := if n in s.channels then s.tick else s.tick + 1;
            && r.tick == asked + 1 && r.serial == Answered(o.pml(asked))
            && r.channels == s.channels - {n}
            && r == s.(serial := r.serial, channels := r.channels, driver := r.driver, tick := r.tick)
            && r.driver.devices == s.driver.devices && r.driver.orphans == s.driver.orphans
  {
    hide OpenDevice, Close;
    assert |PML| != |PRINT| && Upper(PML) == PML;
    assert s.(serial := "") == s;
    assert Prepare(o, hasStatus, s, PML) == (s, true);
    hide Upper;
    var ready := OpenChannel(o, hasStatus, s, PML).0;
    assert PML in ready.channels && ready.tick == s.tick + if PML in s.channels then 0 else 1;
    var got := GetPml(o, hasStatus, s);
    assert got == (ready.(tick := ready.tick + 1), o.pml(ready.tick));
    assert PML in got.0.channels && got.0.channels - {PML} == s.channels - {PML};
  }

  lemma {:induction false} ChannelTakesTime(o: Oracle, hasStatus: bool, s: State, name: string)
    ensures OpenChannel(o, hasStatus, s, name).0.tick >= s.tick
    decreases Rank(s, name), 1
  {
    hide Upper, OpenDevice;
    if !s.io.Open? {
      OpeningTakesTime(o, hasStatus, s, name == PRINT);
    } else if s.printing != (name == PRINT) {
      OpeningTakesTime(o, hasStatus, Close(s), name == PRINT);
    }
  }

  lemma {:induction false} OpeningTakesTime(o: Oracle, hasStatus: bool, s: State, printing: bool)
    ensures OpenDevice(o, hasStatus, s, printing).0.tick >= s.tick
    decreases if printing then 3 else 1, 0
  {
    hide OpenChannel, GetSerialNumber;
    if !s.io.Open? && o.device(s.tick).ok {
      var g := o.device(s.tick);
      var s1 := s.(io := Open, printing := printing, deviceId := g.id, tick := s.tick + 1,
                   driver := s.driver.OpenDevice(g));
      var id := GetDeviceId(o, hasStatus, s1);
      if id.1 {
        SerialTakesTime(o, hasStatus, id.0);
      }
    }
  }

  lemma {:induction false} SerialTakesTime(o: Oracle, hasStatus: bool, s: State)
    ensures GetSerialNumber(o, hasStatus, s).tick >= s.tick
    decreases Rank(s, PML), 3
  {
    hide OpenChannel, Upper;
    if s.serial == "" {
      var s1 := if "SN" in s.ids && s.ids["SN"].Some? then s.(serial := s.ids["SN"].value) else s;
      if s1.serial == "" && hasStatus {
        ChannelTakesTime(o, hasStatus, s1, PML);
      }
    }
  }

  // ---------------------------------------------------------------- opening

  /** The serial number an ID text states: that of SERIAL, else SERN, else SN, blank if it starts with X. */
  function Stated(text: string): string {
    var d := Collected(text);
    var sn := if "SERIAL" in d then d["SERIAL"] else if "SERN" in d then d["SERN"] else if "SN" in d then d["SN"]
              else Some("");
    if sn.None? || (sn.value != "" && sn.value[0] == 'X') then "" else sn.value
  }

  lemma StatedIsParsed(text: string)
    requires Parse(text).Some?
    ensures Numbered(Parse(text).value) <==> Stated(text) != ""
    ensures Stated(text) != "" ==> Parse(text).value["SN"] == Some(Stated(text))
  {
    hide Collected, Parse;
    ParsedFields(text);
  }

  /** A device that was granted and answered the request for its ID, before its serial number is looked for. */
  function Identified(o: Oracle, s: State, printing: bool, ids: Fields): State {
    var id := o.device(s.tick).id;
    s.(io := Open, deviceId := id, printing := printing, ids := ids, tick := s.tick + 2,
       driver := s.driver.(devices := s.driver.devices + {id}))
  }

  /** Opening fails exactly when the driver refuses, or hands out an ID whose serial number has no value. */
  lemma OpenFailsIff(o: Oracle, hasStatus: bool, s: State, printing: bool)
    requires !s.io.Open?
    ensures OpenDevice(o, hasStatus, s, printing).1 <==>
              o.device(s.tick).ok && (o.id(s.tick + 1).Id? ==> Parse(o.id(s.tick + 1).text).Some?)
  {
    hide GetSerialNumber, Parse;
  }

  /**
   The serial number after opening a device whose number is not known: the one its ID states, with no request but
   those for the device and its ID; failing that the last PML answer if it has a status type; else none.
   */
  lemma OpenedSerial(o: Oracle, hasStatus: bool, s: State, printing: bool, text: string)
    requires !s.io.Open? && o.device(s.tick).ok && o.id(s.tick + 1) == Id(text) && Parse(text).Some? && s.serial == ""
    ensures var r := OpenDevice(o, hasStatus, s, printing).0;
            var known := Identified(o, s, printing, Parse(text).value);
            if Stated(text) != "" then r == known.(serial := Stated(text))
            else if hasStatus then r.tick > s.tick + 2 && r.serial == Answered(o.pml(r.tick - 1))
            else r == known
  {
    hide GetSerialNumber, Parse, Collected, Stated;
    StatedIsParsed(text);
    SerialIs(o, hasStatus, Identified(o, s, printing, Parse(text).value));
  }

  /** A device that hands out no ID has no fields; one whose serial number is known keeps it and is asked no more. */
  lemma OpenedKnown(o: Oracle, hasStatus: bool, s: State, printing: bool)
    requires !s.io.Open? && OpenDevice(o, hasStatus, s, printing).1 && (s.serial != "" || !hasStatus)
    ensures var r := OpenDevice(o, hasStatus, s, printing).0;
            match o.id(s.tick + 1)
            case NoId => r == Identified(o, s, printing, map[])
            case Id(text) =>
              Parse(text).Some? && (s.serial != "" ==> r == Identified(o, s, printing, Parse(text).value))
  {
    hide GetSerialNumber, Parse;
    OpenFailsIff(o, hasStatus, s, printing);
    var reply := o.id(s.tick + 1);
    var ids := if reply.Id? then Parse(reply.text).value else map[];
    SerialIs(o, hasStatus, Identified(o, s, printing, ids));
  }

  // ---------------------------------------------------------------- channels

  predicate Suits(s: State, name: string) {
    s.io.Open? && (s.printing <==> name == "PRINT")
  }

  /** A second call for a channel makes no request and gives the same number. */
  lemma OpenTwice(o: Oracle, hasStatus: bool, s: State, name: string)
    ensures var r := OpenChannel(o, hasStatus, s, name);
            Suits(r.0, name) && r.1 != -1 ==> OpenChannel(o, hasStatus, r.0, name) == r
  {
    hide OpenDevice, Upper, Close;
  }

  /**
   A new channel is one request to the driver and is recorded under the name in capitals; closing it, in whatever case
   it is named then, leaves things as they were.
   */
  lemma CloseUndoesOpen(o: Oracle, hasStatus: bool, s: State, name: string, again: string)
    requires Suits(s, name) && Upper(name) !in s.channels && Upper(again) == Upper(name)
    requires var g := o.channel(s.tick); (s.deviceId, g.id) !in s.driver.channels
    ensures var r, g := OpenChannel(o, hasStatus, s, name), o.channel(s.tick);
            && r.1 == g.id && r.0.tick == s.tick + 1 && r.0.channels == s.channels[Upper(name) := g.id]
            && ((s.deviceId, g.id) in r.0.driver.channels <==> g.ok && s.deviceId in s.driver.devices)
            && CloseChannel(r.0, again) == s.(tick := s.tick + 1)
  {
    hide OpenDevice, Upper, Close;
    var r, g := OpenChannel(o, hasStatus, s, name), o.channel(s.tick);
    var n := Upper(name);
    assert s.channels[n := g.id] - {n} == s.channels;
    var p := (s.deviceId, g.id);
    assert (s.driver.channels + {p}) - {p} == s.driver.channels == s.driver.channels - {p};
  }

  /** An ID the parser fails on. */
  predicate Unreadable(reply: IdReply) {
    reply.Id? && Parse(reply.text).None?
  }

  /**
   Asking a device that was not open for its ID closes it again, except when the last ID it handed out could not be
   parsed: then it stays open.
   */
  lemma IdLeavesOpenIff(o: Oracle, hasStatus: bool, s: State)
    requires !s.io.Open?
    ensures var r := GetDeviceId(o, hasStatus, s).0;
            r.tick > s.tick && (r.io.Open? <==> o.device(s.tick).ok && Unreadable(o.id(r.tick - 1)))
  {
    hide GetSerialNumber, Parse;
    var s0 := s.(ids := map[]);
    var g := o.device(s.tick);
    if g.ok {
      var id := GetDeviceId(o, hasStatus, s0.(io := Open, printing := false, deviceId := g.id, tick := s.tick + 1,
                                              driver := s.driver.OpenDevice(g)));
      if id.1 {
        SerialLeavesOpen(o, hasStatus, id.0);
      }
    }
  }

  lemma SerialLeavesOpen(o: Oracle, hasStatus: bool, s: State)
    requires s.io.Open? && !s.printing
    ensures var r := GetSerialNumber(o, hasStatus, s); r.io.Open? && r.tick >= s.tick
  {
    hide OpenDevice, Upper, Close;
    SerialTakesTime(o, hasStatus, s);
    if s.serial == "" {
      var s1 := if "SN" in s.ids && s.ids["SN"].Some? then s.(serial := s.ids["SN"].value) else s;
      if s1.serial == "" && hasStatus {
        assert |PML| != |PRINT| && Prepare(o, hasStatus, s1, PML) == (s1, true);
        assert GetPml(o, hasStatus, s1).0.io.Open?;
      }
    }
  }

  /** A first ID without a serial number value: the device stays open although the caller never opened it. */
  lemma LeftOpen(o: Oracle)
    requires o.device(0) == Grant(true, 1) && o.id(1) == Id("SN")
    ensures GetDeviceId(o, false, Initial("")).0.io.Open?
  {
    hide GetSerialNumber, Strip, Split, Normalize;
    assert Parse("SN").None? by {
      StripTrimmed("SN");
      SplitCons("SN", ';', "");
      SplitCons("SN", ':', "");
      assert ["SN"][..0] == [];
      assert Collected("SN") == map["SN" := None];
      ParseFailsIff("SN");
    }
    IdLeavesOpenIff(o, false, Initial(""));
  }
}
