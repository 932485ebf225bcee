/** LDIF attribute lines and content records: what is written and how it is parsed. */
module LdifRecord {
  import opened Blanks
  import opened Common
  import opened Base64

  type Entry = map<string, seq<string>>
  datatype Record = Record(dn: Option<string>, entry: Entry)

  datatype LdifError = TwoDns | InvalidDn | ChangetypeBeforeDn | TwoChangetypes | InvalidChangetype | IncorrectPadding

  function LowerChar(c: char): char {
    if 'A' <= c <= 'Z' then (c as int + 32) as char else c
  }

  function Lower(s: string): (r: string)
    ensures |r| == |s|
  {
    seq(|s|, i requires 0 <= i < |s| => LowerChar(s[i]))
  }

  // ---------------------------------------------------------------- writing one attribute

  predicate UnsafeAnywhere(c: char) {
    c == '\0' || c == '\n' || c == '\r' || 128 <= c as int < 256
  }

  /** Whether the pattern for unsafe strings occurs in s. */
  predicate NeedsBase64(s: string) {
    s != "" && (s[0] in {' ', ':', '<'} || s[|s| - 1] == ' ' || exists i :: 0 <= i < |s| && UnsafeAnywhere(s[i]))
  }

  predicate Encoded(name: string, value: string, forced: set<string>) {
    Lower(name) in forced || NeedsBase64(value)
  }

  function FormatLine(name: string, value: string, forced: set<string>): string
    requires Bytes(value)
  {
    if Encoded(name, value, forced) then name + ":: " + Encode(value) else name + ": " + value
  }

  // ---------------------------------------------------------------- reading one attribute

  /** Position of the first colon, the length of the line if there is none. */
  function Colon(u: string): (n: nat)
    ensures n <= |u| && (n < |u| ==> u[n] == ':') && forall i :: 0 <= i < n ==> u[i] != ':'
  {
    if u == "" || u[0] == ':' then 0 else 1 + Colon(u[1..])
  }

  /** What reading an attribute yields: nothing (the record ends), a pair, or a decoding failure. */
  datatype Attr = NoAttr | Attr(name: string, value: string) | BadBase64

  function From(u: string, n: nat): string {
    if n <= |u| then u[n..] else ""
  }

  /** No URL scheme is processed, so a value given by URL is no value. */
  function Interpret(u: string): Attr {
    if u == "" || u == "\n" || u == "\r\n" then NoAttr
    else
      var n := Colon(u);
      if n == |u| then Attr("", "")
      else if n + 1 < |u| && u[n + 1] == ':' then
        match Decode(u[n + 2..])
        case None => BadBase64
        case Some(v) => Attr(u[..n], v)
      else if n + 1 < |u| && u[n + 1] == '<' then NoAttr
      else Attr(u[..n], StripLeft(From(u, n + 2)))
  }

  // ---------------------------------------------------------------- one attribute, written and read

  predicate NameChar(c: char) {
    'A' <= c <= 'Z' || 'a' <= c <= 'z' || '0' <= c <= '9' || c in {'_', ';', '.', '-'}
  }

  predicate LegalName(s: string) {
    s != "" && forall i | 0 <= i < |s| :: NameChar(s[i])
  }

  /** The guard of the values that survive: encoded, empty, or not starting with white space. */
  predicate Survives(name: string, value: string, forced: set<string>) {
    Encoded(name, value, forced) || value == "" || !IsSpace(value[0])
  }

  predicate IsComment(u: string) { u != "" && u[0] == '#' }

  lemma {:induction false} ColonAfterName(name: string, rest: string)
    requires forall i :: 0 <= i < |name| ==> NameChar(name[i])
    ensures Colon(name + ":" + rest) == |name|
  {
    var u := name + ":" + rest;
    if name != "" {
      assert u[1..] == name[1..] + ":" + rest;
      ColonAfterName(name[1..], rest);
    }
  }

  /** Every written line is a single line that neither continues another nor is a comment. */
  lemma FormatLineShape(name: string, value: string, forced: set<string>)
    requires LegalName(name) && Bytes(value)
    ensures var u := FormatLine(name, value, forced);
            && u != "" && u[0] != ' ' && !IsComment(u)
            && forall i :: 0 <= i < |u| ==> u[i] != '\n' && u[i] != '\r'
  {
    var u := FormatLine(name, value, forced);
    assert u[0] == name[0];
    var sep := if Encoded(name, value, forced) then ":: " else ": ";
    var v := if Encoded(name, value, forced) then Encode(value) else value;
    if Encoded(name, value, forced) {
      EncodeChars(value);
    }
    assert u == name + sep + v;
    forall i | 0 <= i < |u|
      ensures u[i] != '\n' && u[i] != '\r'
    {
      if i < |name| {
        assert u[i] == name[i];
      } else if i < |name| + |sep| {
        assert u[i] == sep[i - |name|];
      } else {
        assert u[i] == v[i - |name| - |sep|];
      }
    }
  }

  /** A written pair is read back unless its value, written plainly, starts with white space, which is then lost. */
  lemma LineRoundTripIff(name: string, value: string, forced: set<string>)
    requires LegalName(name) && Bytes(value)
    ensures Interpret(FormatLine(name, value, forced))
         == Attr(name, if Survives(name, value, forced) then value else StripLeft(value))
    ensures Interpret(FormatLine(name, value, forced)) == Attr(name, value) <==> Survives(name, value, forced)
  {
    hide Interpret, StripLeft, Encode, Decode;
    StripEnds(value);
    if Encoded(name, value, forced) {
      assert name + ":: " + Encode(value) == name + ":" + (": " + Encode(value));
      EncodedReads(name, value);
    } else {
      assert name + ": " + value == name + ":" + (" " + value);
      PlainReads(name, value);
    }
  }

  lemma EncodedReads(name: string, value: string)
    requires LegalName(name) && Bytes(value)
    ensures Interpret(name + ":" + (": " + Encode(value))) == Attr(name, value)
  {
    hide Encode, Decode, Colon, StripLeft, From;
    var rest := ": " + Encode(value);
    var u := name + ":" + rest;
    ColonAfterName(name, rest);
    DecodeEncode(value);
    assert u[|name| + 2..] == " " + Encode(value) && u[..|name|] == name;
  }

  lemma PlainReads(name: string, value: string)
    requires LegalName(name)
    ensures Interpret(name + ":" + (" " + value)) == Attr(name, StripLeft(value))
  {
    hide Decode, Colon, StripLeft;
    var u := name + ":" + (" " + value);
    ColonAfterName(name, " " + value);
    assert From(u, |name| + 2) == value && u[..|name|] == name;
  }

  /** A value that starts with a tab: the tab is lost. */
  lemma TabLost()
    ensures Interpret(FormatLine("cn", "\tx", {})) == Attr("cn", "x")
  {
    hide Interpret, FormatLine;
    assert !NeedsBase64("\tx");
    LineRoundTripIff("cn", "\tx", {});
    assert "\tx"[1..] == "x";
  }

  /** Without a blank after the colon the parser drops the first character of the value. */
  lemma BlankAfterColonNeeded(name: string, value: string)
    requires LegalName(name) && value != "" && value[0] !in {':', '<'}
    ensures Interpret(name + ":" + value) == Attr(name, StripLeft(value[1..]))
  {
    var u := name + ":" + value;
    ColonAfterName(name, value);
    assert From(u, |name| + 2) == value[1..];
    assert u[..|name|] == name;
  }

  // ---------------------------------------------------------------- parsing records

  datatype Config = Config(isDn: string -> bool, ignored: set<string>, max: nat)

  /** The record being read. */
  datatype Partial = Partial(dn: Option<string>, changetype: Option<string>, entry: Entry)

  datatype Applied = Applied(p: Partial) | Failed(error: LdifError)
  datatype Output = Output(records: seq<Record>, error: Option<LdifError>) {
    function Behind(r: Record): Output { Output([r] + records, error) }
  }

  const NOTHING := Partial(None, None, map[])

  /** Reads past comments. */
  function NextAttr(us: seq<string>): (r: (Attr, seq<string>))
    ensures |r.1| <= |us| && (us != [] ==> |r.1| < |us|) && (us == [] ==> r.0 == NoAttr)
  {
    if us == [] then (NoAttr, [])
    else if IsComment(us[0]) then NextAttr(us[1..])
    else (Interpret(us[0]), us[1..])
  }

  function AddValue(entry: Entry, name: string, value: string): Entry {
    entry[name := (if name in entry then entry[name] else []) + [value]]
  }

  function Apply(cfg: Config, p: Partial, name: string, value: string): Applied {
    var n := Lower(name);
    if n == "" || value == "" then Applied(p)
    else if n == "dn" then
      if p.dn.Some? then Failed(TwoDns)
      else if !cfg.isDn(value) then Failed(InvalidDn)
      else Applied(p.(dn := Some(value)))
    else if n == "version" && p.dn.None? then Applied(p)
    else if n == "changetype" then
      if p.dn.None? then Failed(ChangetypeBeforeDn)
      else if p.changetype.Some? then Failed(TwoChangetypes)
      else if value !in {"add", "delete", "modify", "modrdn"} then Failed(InvalidChangetype)
      else Applied(p.(changetype := Some(value)))
    else if n in cfg.ignored then Applied(p)
    else Applied(p.(entry := AddValue(p.entry, n, value)))
  }

  /** Records in the unfolded lines that are left, n records having been read. */
  function Parse(cfg: Config, us: seq<string>, n: nat): Output
    decreases |us|, 1
  {
    if us == [] || (cfg.max != 0 && n >= cfg.max) then Output([], None)
    else
      var next := NextAttr(us);
      ParseRecord(cfg, next.0, next.1, NOTHING, n)
  }

  function ParseRecord(cfg: Config, a: Attr, rest: seq<string>, p: Partial, n: nat): Output
    decreases |rest|, if a.NoAttr? then 2 else 3
  {
    match a
    case NoAttr =>
      if p.entry == map[] then Parse(cfg, rest, n)
      else Parse(cfg, rest, n + 1).Behind(Record(p.dn, p.entry))
    case BadBase64 => Output([], Some(IncorrectPadding))
    case Attr(name, value) =>
      match Apply(cfg, p, name, value)
      case Failed(e) => Output([], Some(e))
      case Applied(p') =>
        var next := NextAttr(rest);
        ParseRecord(cfg, next.0, next.1, p', n)
  }

  /** A non-zero maximum bounds the number of records. */
  lemma {:induction false} AtMostMax(cfg: Config, us: seq<string>, n: nat)
    requires cfg.max != 0 && n <= cfg.max
    ensures n + |Parse(cfg, us, n).records| <= cfg.max
    decreases |us|, 1
  {
    if !(us == [] || n >= cfg.max) {
      var next := NextAttr(us);
      AtMostMaxRecord(cfg, next.0, next.1, NOTHING, n);
    }
  }

  lemma {:induction false} AtMostMaxRecord(cfg: Config, a: Attr, rest: seq<string>, p: Partial, n: nat)
    requires cfg.max != 0 && n < cfg.max
    ensures n + |ParseRecord(cfg, a, rest, p, n).records| <= cfg.max
    decreases |rest|, if a.NoAttr? then 2 else 3
  {
    hide Apply;
    match a
    case NoAttr =>
      AtMostMax(cfg, rest, n);
      AtMostMax(cfg, rest, n + 1);
    case BadBase64 =>
    case Attr(name, value) =>
      var applied := Apply(cfg, p, name, value);
      if applied.Applied? {
        var next := NextAttr(rest);
        AtMostMaxRecord(cfg, next.0, next.1, applied.p, n);
      }
  }
}
