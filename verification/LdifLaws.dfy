/** RFC 2849 seen from outside: what a written text may contain, and what the lines of a record amount to. */
module LdifLaws {
  import opened Blanks
  import opened Common
  import opened Base64
  import opened LdifText
  import opened LdifRecord
  import opened LdifRoundTrip

  // ---------------------------------------------------------------- letters

  /** The 26 capitals become small letters, nothing else changes. */
  lemma LowerIs(s: string, i: nat)
    requires i < |s|
    ensures 65 <= s[i] as int <= 90 ==> Lower(s)[i] as int == s[i] as int + 32
    ensures !(65 <= s[i] as int <= 90) ==> Lower(s)[i] == s[i]
  {
  }

  // ---------------------------------------------------------------- safe strings

  predicate SafeChar(c: char) {
    1 <= c as int <= 127 && c as int != 10 && c as int != 13
  }

  /** A SAFE-STRING that does not end with a space. */
  ghost predicate SafeString(s: string) {
    && (forall i :: 0 <= i < |s| ==> SafeChar(s[i]))
    && (s != "" ==> s[0] != ' ' && s[0] != ':' && s[0] != '<' && s[|s| - 1] != ' ')
  }

  /**
   A value is written as it is, behind a colon and a space, exactly when it is a safe string of a type that is not
   forced; otherwise what is behind two colons and a space is its encoding. In either case the line is all safe
   characters, whatever the value.
   */
  lemma WrittenSafely(name: string, value: string, forced: set<string>)
    requires LegalName(name) && Bytes(value)
    ensures var u := FormatLine(name, value, forced);
            && (u == name + ": " + value <==> SafeString(value) && Lower(name) !in forced)
            && (u == name + ": " + value || u == name + ":: " + Encode(value))
            && (forall i :: 0 <= i < |u| ==> SafeChar(u[i]))
  {
    hide Encode, Lower;
    var u, e := FormatLine(name, value, forced), Encode(value);
    UnsafeIff(value);
    assert (name + ": " + value)[|name| + 1] == ' ' && (name + ":: " + e)[|name| + 1] == ':';
    EncodingSafe(value);
    forall i | 0 <= i < |u|
      ensures SafeChar(u[i])
    {
      if i < |name| {
        assert u[i] == name[i] && NameChar(name[i]);
      } else if u == name + ": " + value {
        assert u[i] == (": " + value)[i - |name|];
        assert i >= |name| + 2 ==> u[i] == value[i - |name| - 2];
      } else {
        assert u == name + ":: " + e && u[i] == (":: " + e)[i - |name|];
        assert i >= |name| + 3 ==> u[i] == e[i - |name| - 3];
      }
    }
  }

  lemma UnsafeIff(value: string)
    requires Bytes(value)
    ensures SafeString(value) <==> !NeedsBase64(value)
  {
    if SafeString(value) {
      assert forall i :: 0 <= i < |value| ==> SafeChar(value[i]) && !UnsafeAnywhere(value[i]);
    }
    if !NeedsBase64(value) {
      forall i | 0 <= i < |value|
        ensures SafeChar(value[i])
      {
        assert !UnsafeAnywhere(value[i]);
      }
    }
  }

  lemma EncodingSafe(value: string)
    requires Bytes(value)
    ensures forall i :: 0 <= i < |Encode(value)| ==> SafeChar(Encode(value)[i])
  {
    hide Encode;
    EncodeChars(value);
  }

  ghost predicate SafeLine(u: string) {
    forall i :: 0 <= i < |u| ==> SafeChar(u[i])
  }

  ghost predicate SafeLines(us: seq<string>) {
    forall i :: 0 <= i < |us| ==> SafeLine(us[i])
  }

  lemma {:induction false} ValueLinesSafe(name: string, values: seq<string>, forced: set<string>)
    requires LegalName(name) && forall i :: 0 <= i < |values| ==> Bytes(values[i])
    ensures SafeLines(ValueLines(name, values, forced))
  {
    hide LegalName, FormatLine, Bytes;
    if values != [] {
      WrittenSafely(name, values[0], forced);
      ValueLinesSafe(name, values[1..], forced);
    }
  }

  lemma {:induction false} AttributeLinesSafe(entry: Entry, order: seq<string>, forced: set<string>)
    requires EntryBytes(entry) && forall i :: 0 <= i < |order| ==> order[i] in entry && LegalName(order[i])
    ensures SafeLines(AttributeLines(entry, order, forced))
  {
    hide LegalName, ValueLines, SafeLine;
    if order != [] {
      ValueLinesSafe(order[0], entry[order[0]], forced);
      AttributeLinesSafe(entry, order[1..], forced);
    }
  }

  /**
   A record is its name, then its attributes, then an empty line; whatever its values, its lines are safe characters.
   */
  lemma RecordWritten(r: Input, forced: set<string>)
    requires Bytes(r.dn) && EntryBytes(r.entry)
    requires forall i :: 0 <= i < |r.order| ==> r.order[i] in r.entry && LegalName(r.order[i])
    ensures var us := RecordLines(r, forced);
            && SafeLines(us) && |us| >= 2 && us[|us| - 1] == ""
            && (us[0] == "dn: " + r.dn || us[0] == "dn:: " + Encode(r.dn))
            && us[1..|us| - 1] == AttributeLines(r.entry, r.order, forced)
  {
    hide FormatLine, AttributeLines, Encode, SafeLine, LegalName, Bytes;
    assert LegalName("dn") by {
      DnLegal();
    }
    WrittenSafely("dn", r.dn, forced);
    AttributeLinesSafe(r.entry, r.order, forced);
    var us := RecordLines(r, forced);
    assert "dn" + ": " + r.dn == "dn: " + r.dn && "dn" + ":: " + Encode(r.dn) == "dn:: " + Encode(r.dn);
    assert us[0] == FormatLine("dn", r.dn, forced) && SafeLine(us[0]) by {
      LineSafe(us[0]);
    }
    assert SafeLine("") by {
      LineSafe("");
    }
  }

  lemma DnLegal()
    ensures LegalName("dn")
  {
  }

  lemma LineSafe(u: string)
    requires forall i :: 0 <= i < |u| ==> SafeChar(u[i])
    ensures SafeLine(u)
  {
  }

  predicate TextChar(c: char) { 1 <= c as int <= 127 }

  ghost predicate AsciiText(s: string) {
    forall i :: 0 <= i < |s| ==> TextChar(s[i])
  }

  lemma AsciiSum(s: string, t: string)
    requires AsciiText(s) && AsciiText(t)
    ensures AsciiText(s + t)
  {
  }

  lemma {:induction false} TerminatedAscii(ps: seq<string>, sep: string)
    requires AsciiText(sep) && forall i :: 0 <= i < |ps| ==> AsciiText(ps[i])
    ensures AsciiText(Terminated(ps, sep))
  {
    hide AsciiText;
    if ps == [] {
      assert AsciiText("") by {
        AsciiNothing();
      }
    } else {
      TerminatedAscii(ps[1..], sep);
      AsciiSum(ps[0], sep);
      AsciiSum(ps[0] + sep, Terminated(ps[1..], sep));
    }
  }

  lemma AsciiNothing()
    ensures AsciiText("")
  {
  }

  lemma {:induction false} PiecesAscii(rest: string, cols: nat)
    requires cols >= 2 && AsciiText(rest)
    ensures forall i :: 0 <= i < |MorePieces(rest, cols)| ==> AsciiText(MorePieces(rest, cols)[i])
    decreases |rest|
  {
    if rest != "" {
      var n := if |rest| < cols - 1 then |rest| else cols - 1;
      PiecesAscii(rest[n..], cols);
      AsciiSum(" ", rest[..n]);
    }
  }

  /** Folding adds nothing but separators and spaces: a text of safe lines is ASCII, without NUL, from end to end. */
  lemma {:induction false} FoldedAscii(us: seq<string>, cols: nat, sep: string)
    requires cols >= 2 && LineSep(sep) && SafeLines(us)
    ensures AsciiText(FoldAll(us, cols, sep))
  {
    if us != [] {
      var u := us[0];
      assert AsciiText(sep) && AsciiText(u) by {
        assert SafeLine(u);
      }
      if |u| > cols {
        PiecesAscii(u[cols..], cols);
      }
      hide AsciiText, MorePieces, SafeLine;
      assert |u| > cols ==> AsciiText(u[..cols]) by {
        PartAscii(u, cols);
      }
      TerminatedAscii(Pieces(u, cols), sep);
      FoldedAscii(us[1..], cols, sep);
      AsciiSum(Fold(u, cols, sep), FoldAll(us[1..], cols, sep));
    } else {
      AsciiNothing();
    }
  }

  lemma PartAscii(u: string, n: nat)
    requires AsciiText(u)
    ensures n <= |u| ==> AsciiText(u[..n])
  {
  }

  // ---------------------------------------------------------------- one line, read

  ghost predicate NoColon(s: string) {
    forall i :: 0 <= i < |s| ==> s[i] != ':'
  }

  lemma {:induction false} ColonBehind(name: string, rest: string)
    requires NoColon(name)
    ensures Colon(name + ":" + rest) == |name|
  {
    var u := name + ":" + rest;
    if name != "" {
      assert u[1..] == name[1..] + ":" + rest && u[0] == name[0];
      ColonBehind(name[1..], rest);
    }
  }

  /** A line without a colon counts as an empty pair, one with a URL for its value ends the record. */
  lemma LinesWithoutValue(name: string, rest: string)
    requires NoColon(name)
    ensures name !in {"", "\n", "\r\n"} ==> Interpret(name) == Attr("", "")
    ensures Interpret(name + ":<" + rest) == NoAttr && Interpret("") == NoAttr
  {
    hide Decode, StripLeft;
    var u := name + ":<" + rest;
    assert u == name + ":" + ("<" + rest);
    ColonBehind(name, "<" + rest);
    assert u[|name| + 1] == '<';
  }

  /** Behind two colons the value is decoded. */
  lemma EncodedValue(name: string, rest: string)
    requires NoColon(name)
    ensures Interpret(name + "::" + rest) == match Decode(rest) case None => BadBase64 case Some(v) => Attr(name, v)
  {
    hide Decode, StripLeft, Colon, From;
    var u := name + "::" + rest;
    assert u == name + ":" + (":" + rest);
    ColonBehind(name, ":" + rest);
    assert u[|name| + 1] == ':' && u[|name| + 2..] == rest && u[..|name|] == name;
  }

  /** Behind one colon the next character and all blanks after it are dropped. */
  lemma PlainValue(name: string, c: char, w: string, rest: string)
    requires NoColon(name) && c != ':' && c != '<'
    requires forall i :: 0 <= i < |w| ==> w[i] as int in {9, 10, 11, 12, 13, 32}
    requires rest == "" || rest[0] as int !in {9, 10, 11, 12, 13, 32}
    ensures Interpret(name + ":" + ([c] + (w + rest))) == Attr(name, rest)
  {
    BlanksDropped(w, rest);
    hide Decode, StripLeft, Colon;
    var t := w + rest;
    var u := name + ":" + ([c] + t);
    ColonBehind(name, [c] + t);
    assert u[|name| + 1] == c && u[|name| + 2..] == t && u[..|name|] == name;
  }

  /** Nothing behind the colon is an empty value. */
  lemma NoValue(name: string)
    requires NoColon(name)
    ensures Interpret(name + ":") == Attr(name, "")
  {
    hide Decode, Colon;
    assert name + ":" == name + ":" + "";
    ColonBehind(name, "");
    assert (name + ":")[..|name|] == name;
  }

  lemma {:induction false} BlanksDropped(w: string, rest: string)
    requires forall i :: 0 <= i < |w| ==> w[i] as int in {9, 10, 11, 12, 13, 32}
    requires rest == "" || rest[0] as int !in {9, 10, 11, 12, 13, 32}
    ensures StripLeft(w + rest) == rest
  {
    if w == "" {
      assert w + rest == rest;
    } else {
      assert (w + rest)[1..] == w[1..] + rest;
      BlanksDropped(w[1..], rest);
    }
  }

  /** A line that starts with # is passed over, whatever follows. */
  lemma CommentsSkipped(t: string, us: seq<string>)
    ensures NextAttr(["#" + t] + us) == NextAttr(us)
  {
    assert (["#" + t] + us)[1..] == us;
  }

  // ---------------------------------------------------------------- the lines of one record

  type Pair = (string, string)

  /** Pair i has a value and this name, in whatever case. */
  predicate Given(ps: seq<Pair>, i: nat, name: string) {
    i < |ps| && ps[i].1 != "" && Lower(ps[i].0) == name
  }

  predicate GivenBefore(ps: seq<Pair>, k: nat, name: string) {
    exists i :: 0 <= i < k && Given(ps, i, name)
  }

  /** What is wrong with pair i, given those before it. */
  function Fault(cfg: Config, ps: seq<Pair>, i: nat): Option<LdifError>
    requires i < |ps|
  {
    if Given(ps, i, "dn") then
      if GivenBefore(ps, i, "dn") then Some(TwoDns) else if !cfg.isDn(ps[i].1) then Some(InvalidDn) else None
    else if Given(ps, i, "changetype") then
      if !GivenBefore(ps, i, "dn") then Some(ChangetypeBeforeDn)
      else if GivenBefore(ps, i, "changetype") then Some(TwoChangetypes)
      else if ps[i].1 !in {"add", "delete", "modify", "modrdn"} then Some(InvalidChangetype)
      else None
    else None
  }

  /** The values given under a name by the first k pairs; a version before the name of the record is none. */
  function ValuesGiven(cfg: Config, ps: seq<Pair>, k: nat, name: string): seq<string>
    requires k <= |ps|
  {
    if k == 0 || name in {"", "dn", "changetype"} || name in cfg.ignored then []
    else
      ValuesGiven(cfg, ps, k - 1, name)
      + if Given(ps, k - 1, name) && (name != "version" || GivenBefore(ps, k - 1, "dn")) then [ps[k - 1].1] else []
  }

  /** The record after the first k pairs. */
  function ApplyAll(cfg: Config, ps: seq<Pair>, k: nat): Applied
    requires k <= |ps|
  {
    if k == 0 then Applied(NOTHING)
    else match ApplyAll(cfg, ps, k - 1)
      case Failed(e) => Failed(e)
      case Applied(p) => Apply(cfg, p, ps[k - 1].0, ps[k - 1].1)
  }

  /** The record holds these pairs: its name, its change type, and per attribute the values in order. */
  ghost predicate Represents(cfg: Config, ps: seq<Pair>, k: nat, p: Partial)
    requires k <= |ps|
  {
    && (p.dn.Some? <==> GivenBefore(ps, k, "dn")) && (p.changetype.Some? <==> GivenBefore(ps, k, "changetype"))
    && (forall i :: 0 <= i < k && Given(ps, i, "dn") ==> p.dn == Some(ps[i].1))
    && (forall n :: n in p.entry <==> ValuesGiven(cfg, ps, k, n) != [])
    && (forall n :: n in p.entry ==> p.entry[n] == ValuesGiven(cfg, ps, k, n))
  }

  lemma NamesBefore(ps: seq<Pair>, k: nat, name: string)
    requires k < |ps|
    ensures GivenBefore(ps, k + 1, name) <==> GivenBefore(ps, k, name) || Given(ps, k, name)
  {
    hide Given;
    if Given(ps, k, name) {
      assert 0 <= k < k + 1 && Given(ps, k, name);
    }
  }

  lemma OnePair(cfg: Config, ps: seq<Pair>, k: nat, p: Partial)
    requires k < |ps| && Represents(cfg, ps, k, p)
    ensures var r := Apply(cfg, p, ps[k].0, ps[k].1);
            match Fault(cfg, ps, k)
            case Some(e) => r == Failed(e)
            case None => r.Applied? && Represents(cfg, ps, k + 1, r.p)
  {
    hide Lower, GivenBefore;
    NamesBefore(ps, k, "dn");
    NamesBefore(ps, k, "changetype");
    var r := Apply(cfg, p, ps[k].0, ps[k].1);
    if r.Applied? {
      EntryStep(cfg, ps, k, p);
    }
  }

  lemma EntryStep(cfg: Config, ps: seq<Pair>, k: nat, p: Partial)
    requires k < |ps| && Represents(cfg, ps, k, p) && Apply(cfg, p, ps[k].0, ps[k].1).Applied?
    ensures var e := Apply(cfg, p, ps[k].0, ps[k].1).p.entry;
            && (forall n :: n in e <==> ValuesGiven(cfg, ps, k + 1, n) != [])
            && (forall n :: n in e ==> e[n] == ValuesGiven(cfg, ps, k + 1, n))
  {
    var e := Apply(cfg, p, ps[k].0, ps[k].1).p.entry;
    forall n
      ensures n in e <==> ValuesGiven(cfg, ps, k + 1, n) != []
      ensures n in e ==> e[n] == ValuesGiven(cfg, ps, k + 1, n)
    {
      assert (n in p.entry <==> ValuesGiven(cfg, ps, k, n) != [])
          && (n in p.entry ==> p.entry[n] == ValuesGiven(cfg, ps, k, n))
          && (p.dn.Some? <==> GivenBefore(ps, k, "dn"));
      hide Represents, Lower, GivenBefore;
      NameStep(cfg, ps, k, p, n);
    }
  }

  lemma NameStep(cfg: Config, ps: seq<Pair>, k: nat, p: Partial, n: string)
    requires k < |ps| && Apply(cfg, p, ps[k].0, ps[k].1).Applied? && (p.dn.Some? <==> GivenBefore(ps, k, "dn"))
    requires n in p.entry <==> ValuesGiven(cfg, ps, k, n) != []
    requires n in p.entry ==> p.entry[n] == ValuesGiven(cfg, ps, k, n)
    ensures var e := Apply(cfg, p, ps[k].0, ps[k].1).p.entry;
            && (n in e <==> ValuesGiven(cfg, ps, k + 1, n) != [])
            && (n in e ==> e[n] == ValuesGiven(cfg, ps, k + 1, n))
  {
    hide Lower, GivenBefore;
    var before, name, value := ValuesGiven(cfg, ps, k, n), Lower(ps[k].0), ps[k].1;
    var plain := n !in {"", "dn", "changetype"} && n !in cfg.ignored;
    var counts := plain && Given(ps, k, n) && (n != "version" || GivenBefore(ps, k, "dn"));
    assert ValuesGiven(cfg, ps, k + 1, n) == if counts then before + [value] else before by {
      OneMoreValue(cfg, ps, k, n);
    }
    hide ValuesGiven;
  }

  lemma {:induction false} OneMoreValue(cfg: Config, ps: seq<Pair>, k: nat, n: string)
    requires k < |ps|
    ensures n in {"", "dn", "changetype"} || n in cfg.ignored ==>
              ValuesGiven(cfg, ps, k, n) == ValuesGiven(cfg, ps, k + 1, n) == []
    ensures !(n in {"", "dn", "changetype"} || n in cfg.ignored) ==>
              ValuesGiven(cfg, ps, k + 1, n)
              == if Given(ps, k, n) && (n != "version" || GivenBefore(ps, k, "dn")) then
                   ValuesGiven(cfg, ps, k, n) + [ps[k].1]
                 else ValuesGiven(cfg, ps, k, n)
  {
    hide Given, GivenBefore;
  }

  /** The error is that of the first faulty pair. */
  ghost predicate FirstFault(cfg: Config, ps: seq<Pair>, k: nat, e: LdifError)
    requires k <= |ps|
  {
    exists i :: 0 <= i < k && Fault(cfg, ps, i) == Some(e) && forall j :: 0 <= j < i ==> Fault(cfg, ps, j) == None
  }

  /** Without a faulty pair the record represents all pairs; otherwise the first fault is the error. */
  lemma {:induction false} RecordMeans(cfg: Config, ps: seq<Pair>, k: nat)
    requires k <= |ps|
    ensures match ApplyAll(cfg, ps, k)
            case Applied(p) => Represents(cfg, ps, k, p) && forall i :: 0 <= i < k ==> Fault(cfg, ps, i) == None
            case Failed(e) => FirstFault(cfg, ps, k, e)
  {
    hide Apply, Represents, Fault;
    if k == 0 {
      NothingGiven(cfg, ps);
    } else {
      RecordMeans(cfg, ps, k - 1);
      if ApplyAll(cfg, ps, k - 1).Applied? {
        OnePair(cfg, ps, k - 1, ApplyAll(cfg, ps, k - 1).p);
      }
    }
  }

  lemma NothingGiven(cfg: Config, ps: seq<Pair>)
    ensures Represents(cfg, ps, 0, NOTHING)
  {
  }

  ghost predicate LinesOf(us: seq<string>, ps: seq<Pair>) {
    |us| == |ps| && forall i :: 0 <= i < |us| ==> !IsComment(us[i]) && Interpret(us[i]) == Attr(ps[i].0, ps[i].1)
  }

  /** The lines of a record and the empty line behind them: its error, or the record if it has attributes. */
  lemma RecordParsed(cfg: Config, us: seq<string>, ps: seq<Pair>, more: seq<string>, n: nat)
    requires LinesOf(us, ps) && us != [] && (cfg.max != 0 ==> n < cfg.max)
    ensures Parse(cfg, us + ([""] + more), n) ==
              match ApplyAll(cfg, ps, |ps|)
              case Failed(e) => Output([], Some(e))
              case Applied(p) => if p.entry == map[] then Parse(cfg, more, n)
                                 else Parse(cfg, more, n + 1).Behind(Record(p.dn, p.entry))
  {
    hide Interpret, Apply, ApplyAll;
    assert ApplyAll(cfg, ps, 0) == Applied(NOTHING) by {
      AppliedNothing(cfg, ps);
    }
    assert us[0..] == us;
    RestParsed(cfg, us, ps, more, n, 0, NOTHING);
  }

  lemma AppliedNothing(cfg: Config, ps: seq<Pair>)
    ensures ApplyAll(cfg, ps, 0) == Applied(NOTHING)
  {
  }

  lemma {:induction false} RestParsed(cfg: Config, us: seq<string>, ps: seq<Pair>, more: seq<string>, n: nat, i: nat,
                                      p: Partial)
    requires LinesOf(us, ps) && i <= |us| && ApplyAll(cfg, ps, i) == Applied(p)
    ensures Reading(cfg, us[i..] + ([""] + more), p, n) ==
              match ApplyAll(cfg, ps, |ps|)
              case Failed(e) => Output([], Some(e))
              case Applied(q) => if q.entry == map[] then Parse(cfg, more, n)
                                 else Parse(cfg, more, n + 1).Behind(Record(q.dn, q.entry))
    decreases |us| - i
  {
    hide Apply, Parse;
    var end := [""] + more;
    if i == |us| {
      assert us[i..] + end == end && end[1..] == more;
    } else {
      var rest := us[i..] + end;
      assert rest[0] == us[i] && rest[1..] == us[i + 1..] + end;
      var r := Apply(cfg, p, ps[i].0, ps[i].1);
      assert ApplyAll(cfg, ps, i + 1) == r;
      if r.Failed? {
        FailedStays(cfg, ps, i + 1, |ps|);
      } else {
        RestParsed(cfg, us, ps, more, n, i + 1, r.p);
      }
    }
  }

  lemma {:induction false} FailedStays(cfg: Config, ps: seq<Pair>, i: nat, k: nat)
    requires i <= k <= |ps| && ApplyAll(cfg, ps, i).Failed?
    ensures ApplyAll(cfg, ps, k) == ApplyAll(cfg, ps, i)
    decreases k
  {
    if i < k {
      FailedStays(cfg, ps, i, k - 1);
    }
  }
}
