/** IEEE 1284 device ID strings: `key:value;` pairs. */
module DeviceId {
  import opened Blanks
  import opened Common

  /** A key without a colon has no value. */
  type Fields = map<string, Option<string>>

  /** The parts of a string between separators: one more than there are separators. */
  function Split(s: string, c: char): (parts: seq<string>)
    ensures parts != []
  {
    if s == "" then [""]
    else
      var rest := Split(s[1..], c);
      if s[0] == c then [""] + rest else [[s[0]] + rest[0]] + rest[1..]
  }

  function SetDefault(d: Fields, key: string, value: Option<string>): Fields {
    if key in d then d else d[key := value]
  }

  function AddField(d: Fields, z: string): Fields {
    var y := Split(z, ':');
    SetDefault(d, Strip(y[0]), if |y| > 1 then Some(y[1]) else None)
  }

  /** The parts of a device ID, empty ones dropped, added in order. */
  function AddFields(d: Fields, parts: seq<string>): Fields {
    if parts == [] then d
    else
      var before := AddFields(d, parts[..|parts| - 1]);
      var y := parts[|parts| - 1];
      if y == "" then before else AddField(before, Strip(y))
  }

  function Rename(d: Fields, from: string, to: string): Fields {
    if from in d then (d[to := d[from]]) - {from} else d
  }

  /** Defaults, renames and the blanking of placeholder serial numbers; fails if the serial number has no value. */
  function Normalize(d: Fields): Option<Fields> {
    var d1 := SetDefault(SetDefault(d, "MDL", Some("")), "SN", Some(""));
    var d2 := Rename(d1, "MODEL", "MDL");
    var d3 := if "SERIAL" in d2 then Rename(d2, "SERIAL", "SN") else Rename(d2, "SERN", "SN");
    match d3["SN"]
    case None => None
    case Some(sn) => Some(if sn != "" && sn[0] == 'X' then d3["SN" := Some("")] else d3)
  }

  /** The fields of a device ID as they are written. */
  function Collected(deviceId: string): Fields {
    AddFields(map[], Split(Strip(deviceId), ';'))
  }

  function Parse(deviceId: string): Option<Fields> {
    Normalize(Collected(deviceId))
  }

  /** The key that counts for the serial number. */
  function SerialKey(d: Fields): string {
    if "SERIAL" in d then "SERIAL" else if "SERN" in d then "SERN" else "SN"
  }

  /** The two keys the parser always sets and the ones it removes. */
  predicate Renamed(d: Fields, key: string) {
    key == "MDL" || key == "SN" || key == "MODEL" || key == SerialKey(d)
  }

  /** Parsing fails exactly when the key that counts for the serial number is there without a value. */
  lemma ParseFailsIff(deviceId: string)
    ensures var d := Collected(deviceId);
            var key := if "SERIAL" in d then "SERIAL" else if "SERN" in d then "SERN" else "SN";
            Parse(deviceId).None? <==> key in d && d[key].None?
  {
    hide Collected;
  }

  /** What comes out otherwise: the model from MODEL, else MDL; the serial number, blank if it starts with X. */
  lemma ParsedFields(deviceId: string)
    requires Parse(deviceId).Some?
    ensures var d, r := Collected(deviceId), Parse(deviceId).value;
            var key := if "SERIAL" in d then "SERIAL" else if "SERN" in d then "SERN" else "SN";
            var model := if "MODEL" in d then "MODEL" else "MDL";
            var sn := if key in d then d[key] else Some("");
            && "MDL" in r && r["MDL"] == (if model in d then d[model] else Some(""))
            && sn.Some? && "SN" in r && r["SN"] == (if sn.value != "" && sn.value[0] == 'X' then Some("") else sn)
  {
    hide Collected;
  }

  /** Every other field comes out as it is written, MODEL and the key the serial number came from do not. */
  lemma OtherFieldsKept(deviceId: string)
    requires Parse(deviceId).Some?
    ensures var d, r := Collected(deviceId), Parse(deviceId).value;
            && (forall k :: !Renamed(d, k) ==> (k in r <==> k in d) && (k in d ==> r[k] == d[k]))
            && forall k :: Renamed(d, k) && k != "MDL" && k != "SN" ==> k !in r
  {
    hide Collected;
  }

  method ParseDeviceId(deviceId: string) returns (r: Option<Fields>)
    ensures r == Parse(deviceId)
  {
    hide Strip, Split, AddField;
    var d: Fields := map[];
    var parts := Split(Strip(deviceId), ';');
    for i := 0 to |parts|
      invariant d == AddFields(map[], parts[..i])
    {
      assert parts[..i + 1][..i] == parts[..i];
      if parts[i] != "" {
        d := AddField(d, Strip(parts[i]));
      }
    }
    assert parts[..|parts|] == parts;
    if "MDL" !in d { d := d["MDL" := Some("")]; }
    if "SN" !in d { d := d["SN" := Some("")]; }
    if "MODEL" in d {
      d := d["MDL" := d["MODEL"]];
      d := d - {"MODEL"};
    }
    if "SERIAL" in d {
      d := d["SN" := d["SERIAL"]];
      d := d - {"SERIAL"};
    } else if "SERN" in d {
      d := d["SN" := d["SERN"]];
      d := d - {"SERN"};
    }
    match d["SN"]
    case None => return None;
    case Some(sn) =>
      if sn != "" && sn[0] == 'X' {
        d := d["SN" := Some("")];
      }
      return Some(d);
  }

  // ---------------------------------------------------------------- printing and parsing

  datatype Pair = Pair(key: string, value: string)

  /** Trimmed and free of the two separators. */
  predicate Plain(s: string) {
    Strip(s) == s && ':' !in s && ';' !in s
  }

  ghost predicate AllPlain(ps: seq<Pair>) {
    forall i :: 0 <= i < |ps| ==> Plain(ps[i].key) && Plain(ps[i].value)
  }

  function Print(ps: seq<Pair>): string {
    if ps == [] then "" else ps[0].key + ":" + ps[0].value + ";" + Print(ps[1..])
  }

  /** The pairs as a map; of several pairs with the same key the first counts. */
  function FirstWins(ps: seq<Pair>): Fields {
    if ps == [] then map[]
    else SetDefault(FirstWins(ps[..|ps| - 1]), ps[|ps| - 1].key, Some(ps[|ps| - 1].value))
  }

  lemma {:induction false} FirstWinsIs(ps: seq<Pair>, i: nat)
    requires i < |ps| && forall j :: 0 <= j < i ==> ps[j].key != ps[i].key
    ensures ps[i].key in FirstWins(ps) && FirstWins(ps)[ps[i].key] == Some(ps[i].value)
  {
    var l := |ps| - 1;
    if i < l {
      FirstWinsIs(ps[..l], i);
    } else {
      FirstWinsKeys(ps[..l], ps[i].key);
    }
  }

  lemma {:induction false} FirstWinsKeys(ps: seq<Pair>, key: string)
    ensures key in FirstWins(ps) <==> exists i :: 0 <= i < |ps| && ps[i].key == key
  {
    if ps != [] {
      var l := |ps| - 1;
      FirstWinsKeys(ps[..l], key);
      if i :| 0 <= i < |ps| && ps[i].key == key {
        assert i == l || ps[..l][i].key == key;
      }
    }
  }

  lemma {:induction false} SplitCons(s: string, c: char, t: string)
    requires c !in s
    ensures Split(s + [c] + t, c) == [s] + Split(t, c)
    ensures Split(s, c) == [s]
  {
    var u := s + [c] + t;
    if s == "" {
      assert u[1..] == t;
    } else {
      assert u[1..] == s[1..] + [c] + t;
      SplitCons(s[1..], c, t);
      assert [s[0]] + s[1..] == s;
    }
  }

  /**
   A part of an ID: its key is what stands before the first colon, blanks around it aside, its value what stands before
   the second one, and neither counts if the key is there already.
   */
  lemma FieldIs(d: Fields, key: string, value: string, more: string)
    requires ':' !in key && ':' !in value
    ensures AddField(d, key) == if Strip(key) in d then d else d[Strip(key) := None]
    ensures AddField(d, key + ":" + value) == if Strip(key) in d then d else d[Strip(key) := Some(value)]
    ensures AddField(d, key + ":" + value + ":" + more) == AddField(d, key + ":" + value)
  {
    hide Strip, Split;
    assert key + ":" + value == key + [':'] + value;
    assert key + ":" + value + ":" + more == key + [':'] + (value + [':'] + more);
    SplitCons(key, ':', value);
    SplitCons(key, ':', value + [':'] + more);
    SplitCons(value, ':', more);
  }

  /** The parts of an ID stand between semicolons, and those that are empty do not count. */
  lemma {:induction false} PartsAdded(d: Fields, parts: seq<string>, more: seq<string>)
    ensures AddFields(d, parts + more) == AddFields(AddFields(d, parts), more)
    ensures AddFields(d, [""]) == d
    ensures forall y :: y != "" ==> AddFields(d, [y]) == AddField(d, Strip(y))
  {
    hide AddField, Strip;
    assert forall y: string :: [y][..0] == [];
    if more == [] {
      assert parts + more == parts;
    } else {
      var l := |more| - 1;
      assert (parts + more)[..|parts + more| - 1] == parts + more[..l];
      PartsAdded(d, parts, more[..l]);
    }
  }

  lemma {:induction false} SplitPrinted(ps: seq<Pair>)
    requires AllPlain(ps)
    ensures Split(Print(ps), ';') == seq(|ps|, i requires 0 <= i < |ps| => ps[i].key + ":" + ps[i].value) + [""]
  {
    if ps != [] {
      var z := ps[0].key + ":" + ps[0].value;
      assert Print(ps) == z + [';'] + Print(ps[1..]);
      SplitCons(z, ';', Print(ps[1..]));
      SplitPrinted(ps[1..]);
    }
  }

  lemma AddPrinted(d: Fields, p: Pair)
    requires Plain(p.key) && Plain(p.value)
    ensures var z := p.key + ":" + p.value;
            z != "" && AddField(d, Strip(z)) == SetDefault(d, p.key, Some(p.value))
  {
    hide Strip, Split, SetDefault;
    var z := p.key + ":" + p.value;
    StripTrimmed(p.key);
    StripTrimmed(p.value);
    StripTrimmed(z);
    assert z[0] == if p.key == "" then ':' else p.key[0];
    assert z[|z| - 1] == if p.value == "" then ':' else p.value[|p.value| - 1];
    assert z == p.key + [':'] + p.value;
    SplitCons(p.key, ':', p.value);
    SplitCons(p.value, ':', "");
  }

  lemma {:induction false} AddAllPrinted(ps: seq<Pair>)
    requires AllPlain(ps)
    ensures AddFields(map[], seq(|ps|, i requires 0 <= i < |ps| => ps[i].key + ":" + ps[i].value)) == FirstWins(ps)
  {
    hide AddField, Strip;
    if ps != [] {
      var l := |ps| - 1;
      var front := ps[..l];
      var zs := seq(|ps|, i requires 0 <= i < |ps| => ps[i].key + ":" + ps[i].value);
      assert zs[..l] == seq(|front|, i requires 0 <= i < |front| => front[i].key + ":" + front[i].value);
      AddAllPrinted(front);
      AddPrinted(FirstWins(front), ps[l]);
    }
  }

  /** Parsing printed pairs gives the map of the pairs, the first of equal keys counting, normalised. */
  lemma ParsePrinted(ps: seq<Pair>)
    requires AllPlain(ps)
    ensures Parse(Print(ps)) == Normalize(FirstWins(ps))
  {
    hide Strip, Split, AddField, Normalize;
    var s := Print(ps);
    assert Strip(s) == s by {
      StripTrimmed(s);
      PrintEnds(ps);
    }
    SplitPrinted(ps);
    AddAllPrinted(ps);
    var zs := seq(|ps|, i requires 0 <= i < |ps| => ps[i].key + ":" + ps[i].value);
    assert (zs + [""])[..|zs|] == zs;
  }

  lemma {:induction false} PrintEnds(ps: seq<Pair>)
    requires AllPlain(ps)
    ensures ps != [] ==> Print(ps) != "" && !IsSpace(Print(ps)[0]) && Print(ps)[|Print(ps)| - 1] == ';'
  {
    if ps != [] {
      StripTrimmed(ps[0].key);
      PrintEnds(ps[1..]);
      assert Print(ps)[0] == if ps[0].key == "" then ':' else ps[0].key[0];
    }
  }

  /** Printed pairs always parse; the serial number is that of SERIAL, else SERN, else SN, blank if it starts with X. */
  lemma PrintedSerial(ps: seq<Pair>)
    requires AllPlain(ps)
    ensures Parse(Print(ps)).Some?
    ensures var d := FirstWins(ps);
            var key := if "SERIAL" in d then "SERIAL" else if "SERN" in d then "SERN" else "SN";
            var sn := if key in d then d[key] else Some("");
            var blank := sn.Some? && sn.value != "" && sn.value[0] == 'X';
            var r := Parse(Print(ps)).value;
            "SN" in r && r["SN"] == if blank then Some("") else sn
  {
    hide Print, Parse;
    ParsePrinted(ps);
    ValuesPresent(ps);
  }

  lemma {:induction false} ValuesPresent(ps: seq<Pair>)
    ensures forall k :: k in FirstWins(ps) ==> FirstWins(ps)[k].Some?
  {
    if ps != [] {
      ValuesPresent(ps[..|ps| - 1]);
    }
  }
}
