/** The LDIF writer and parser objects. */
module Ldif {
  import opened Blanks
  import opened Common
  import opened Base64
  import opened LdifText
  import opened LdifRecord
  import opened LdifRoundTrip

  // ---------------------------------------------------------------- sorting attribute types

  predicate LexLess(a: string, b: string) {
    b != "" && (a == "" || a[0] < b[0] || (a[0] == b[0] && LexLess(a[1..], b[1..])))
  }

  /** At the first difference the smaller character decides, and a prefix comes before what it is a prefix of. */
  lemma {:induction false} LexLessIs(a: string, b: string, n: nat)
    requires n <= |a| && n <= |b| && a[..n] == b[..n] && (n < |a| && n < |b| ==> a[n] != b[n])
    ensures LexLess(a, b) <==> n < |b| && (n == |a| || a[n] < b[n])
  {
    if n > 0 {
      assert a[0] == a[..n][0] && b[0] == b[..n][0];
      assert a[1..][..n - 1] == a[..n][1..] && b[1..][..n - 1] == b[..n][1..];
      LexLessIs(a[1..], b[1..], n - 1);
    }
  }

  lemma {:induction false} LexTotal(a: string, b: string)
    ensures a == b || LexLess(a, b) || LexLess(b, a)
  {
    if a != "" && b != "" && a[0] == b[0] {
      LexTotal(a[1..], b[1..]);
      assert a == [a[0]] + a[1..] && b == [b[0]] + b[1..];
    }
  }

  lemma {:induction false} LexTransitive(a: string, b: string, c: string)
    requires LexLess(a, b) && LexLess(b, c)
    ensures LexLess(a, c)
  {
    if a != "" && a[0] == b[0] && b[0] == c[0] {
      LexTransitive(a[1..], b[1..], c[1..]);
    }
  }

  ghost predicate Sorted(s: seq<string>) {
    forall i, j :: 0 <= i < j < |s| ==> LexLess(s[i], s[j])
  }

  method SortKeys(keys: set<string>) returns (order: seq<string>)
    ensures Sorted(order) && Enumerates(order, keys)
  {
    hide LexLess;
    order := [];
    var left := keys;
    while left != {}
      invariant left <= keys && Sorted(order) && forall k :: k in keys - left <==> k in order
      decreases left
    {
      var k :| k in left;
      left := left - {k};
      order := Insert(order, k);
    }
    forall i, j | 0 <= i < j < |order|
      ensures order[i] != order[j]
    {
      Irreflexive(order[i]);
    }
  }

  lemma {:induction false} Irreflexive(a: string)
    ensures !LexLess(a, a)
  {
    if a != "" {
      Irreflexive(a[1..]);
    }
  }

  method Insert(order: seq<string>, k: string) returns (r: seq<string>)
    requires Sorted(order) && k !in order
    ensures Sorted(r) && forall x :: x in r <==> x in order || x == k
  {
    hide LexLess;
    var i := 0;
    while i < |order| && LexLess(order[i], k)
      invariant 0 <= i <= |order| && forall j :: 0 <= j < i ==> LexLess(order[j], k)
    {
      i := i + 1;
    }
    forall j | i <= j < |order|
      ensures LexLess(k, order[j])
    {
      assert order[i] in order;
      LexTotal(order[i], k);
      if i < j {
        LexTransitive(k, order[i], order[j]);
      }
    }
    r := order[..i] + [k] + order[i..];
  }

  // ---------------------------------------------------------------- the writer

  lemma {:induction false} FoldAllAppend(us: seq<string>, vs: seq<string>, cols: nat, sep: string)
    requires cols >= 2
    ensures FoldAll(us + vs, cols, sep) == FoldAll(us, cols, sep) + FoldAll(vs, cols, sep)
  {
    hide Fold;
    if us == [] {
      assert us + vs == vs;
    } else {
      assert (us + vs)[1..] == us[1..] + vs;
      FoldAllAppend(us[1..], vs, cols, sep);
    }
  }

  /** The attribute types to encode in any case. */
  function Forced(base64Attrs: seq<string>): set<string> {
    set i | 0 <= i < |base64Attrs| :: Lower(base64Attrs[i])
  }

  class LdifWriter {
    const cols: nat
    const lineSep: string
    const forced: set<string>
    var output: string
    var recordsWritten: nat

    constructor (base64Attrs: seq<string>, cols: nat, lineSep: string)
      requires cols >= 2
      ensures this.cols == cols && this.lineSep == lineSep && output == "" && recordsWritten == 0
      ensures forced == Forced(base64Attrs)
    {
      this.cols, this.lineSep := cols, lineSep;
      forced := Forced(base64Attrs);
      output, recordsWritten := "", 0;
    }

    ghost function Folded(us: seq<string>): string
      requires cols >= 2
    {
      FoldAll(us, cols, lineSep)
    }

    /** Writes one line as one or more folded lines. */
    method WriteLine(line: string)
      requires cols >= 2
      modifies this`output
      ensures output == old(output) + Folded([line])
    {
      hide FoldAll, Fold, MorePieces, Terminated;
      FoldOne(line, cols, lineSep);
      if |line| <= cols {
        FoldShort(line, cols, lineSep);
        output := output + line + lineSep;
        assert output == old(output) + (line + lineSep);
      } else {
        FoldLong(line, cols, lineSep);
        var pos := cols;
        ghost var whole := old(output) + Fold(line, cols, lineSep);
        output := output + line[..cols] + lineSep;
        assert whole == output + Terminated(MorePieces(line[pos..], cols), lineSep);
        while pos < |line|
          invariant whole == output + Terminated(MorePieces(line[if pos <= |line| then pos else |line|..], cols),
                  lineSep)
        {
          FoldMore(line, pos, cols, lineSep);
          var n := if pos + cols - 1 <= |line| then pos + cols - 1 else |line|;
          ghost var out := output;
          output := output + " " + line[pos..n] + lineSep;
          assert out + (" " + line[pos..n] + lineSep + Terminated(MorePieces(line[n..], cols), lineSep))
              == output + Terminated(MorePieces(line[n..], cols), lineSep);
          pos := pos + cols - 1;
        }
        assert line[|line|..] == "";
        FoldNothing();
        assert whole == output + "";
      }
    }

    lemma FoldNothing()
      requires cols >= 2
      ensures Terminated(MorePieces("", cols), lineSep) == ""
    {
    }

    method WriteAttribute(name: string, value: string)
      requires cols >= 2 && Bytes(value)
      modifies this`output
      ensures output == old(output) + Folded([FormatLine(name, value, forced)])
    {
      if Encoded(name, value, forced) {
        WriteLine(name + ":: " + Encode(value));
      } else {
        WriteLine(name + ": " + value);
      }
    }

    /** Writes the attributes of an entry, their types sorted, the values of each in their order. */
    method WriteEntry(entry: Entry) returns (ghost order: seq<string>)
      requires cols >= 2 && EntryBytes(entry)
      modifies this`output
      ensures Sorted(order) && Enumerates(order, entry.Keys)
      ensures forall i :: 0 <= i < |order| ==> order[i] in entry
      ensures output == old(output) + Folded(AttributeLines(entry, order, forced))
    {
      hide LexLess, FoldAll, FormatLine;
      var types := SortKeys(entry.Keys);
      order := types;
      assert forall i :: 0 <= i < |types| ==> types[i] in entry;
      assert output + Folded(AttributeLines(entry, types, forced))
          == old(output) + Folded(AttributeLines(entry, types, forced));
      for i := 0 to |types|
        invariant output + Folded(AttributeLines(entry, types[i..], forced))
                == old(output) + Folded(AttributeLines(entry, types, forced))
      {
        var k := types[i];
        ghost var rest := AttributeLines(entry, types[i + 1..], forced);
        assert types[i..][0] == k && types[i..][1..] == types[i + 1..];
        FoldAllAppend(ValueLines(k, entry[k], forced), rest, cols, lineSep);
        WriteValues(k, entry[k]);
      }
      assert Folded(AttributeLines(entry, types[|types|..], forced)) == "" by { EmptyFold(); }
    }

    lemma EmptyFold()
      requires cols >= 2
      ensures Folded([]) == ""
    {
    }

    method WriteValues(name: string, values: seq<string>)
      requires cols >= 2 && forall i :: 0 <= i < |values| ==> Bytes(values[i])
      modifies this`output
      ensures output == old(output) + Folded(ValueLines(name, values, forced))
    {
      hide FoldAll, FormatLine;
      for i := 0 to |values|
        invariant output + Folded(ValueLines(name, values[i..], forced))
                == old(output) + Folded(ValueLines(name, values, forced))
      {
        assert values[i..][0] == values[i] && values[i..][1..] == values[i + 1..];
        FoldAllAppend([FormatLine(name, values[i], forced)], ValueLines(name, values[i + 1..], forced), cols, lineSep);
        WriteAttribute(name, values[i]);
      }
      EmptyFold();
    }

    /** Writes a record, an empty line after it; an entry without attributes is ignored. */
    method Unparse(dn: string, entry: Entry) returns (ghost order: seq<string>)
      requires cols >= 2 && Bytes(dn) && EntryBytes(entry)
      modifies this`output, this`recordsWritten
      ensures entry == map[] ==> output == old(output) && recordsWritten == old(recordsWritten)
      ensures entry != map[] ==>
                && Sorted(order) && order != [] && Enumerates(order, entry.Keys)
                && (forall i :: 0 <= i < |order| ==> order[i] in entry)
                && output == old(output) + Folded(RecordLines(Input(dn, entry, order), forced))
                && recordsWritten == old(recordsWritten) + 1
    {
      hide LexLess, FoldAll, FormatLine, Pieces;
      order := [];
      if entry == map[] {
        return;
      }
      WriteAttribute("dn", dn);
      order := WriteEntry(entry);
      assert order != [] by {
        var k :| k in entry.Keys;
        assert k in order;
      }
      ghost var lines := AttributeLines(entry, order, forced);
      FoldAllAppend([FormatLine("dn", dn, forced)], lines, cols, lineSep);
      FoldAllAppend([FormatLine("dn", dn, forced)] + lines, [""], cols, lineSep);
      EmptyLine();
      output := output + lineSep;
      recordsWritten := recordsWritten + 1;
    }

    lemma EmptyLine()
      requires cols >= 2
      ensures Folded([""]) == lineSep
    {
      FoldOne("", cols, lineSep);
      FoldShort("", cols, lineSep);
    }
  }

  // ---------------------------------------------------------------- the parser

  class LdifParser {
    const cfg: Config
    var unread: string
    var line: string
    var recordsRead: nat
    var allRecords: seq<Record>

    constructor (input: string, cfg: Config)
      ensures this.cfg == cfg && unread == input && line == "" && recordsRead == 0 && allRecords == []
    {
      this.cfg := cfg;
      unread, line, recordsRead, allRecords := input, "", 0, [];
    }

    /** The physical lines not yet consumed; an empty line means the end of the input. */
    ghost function Pending(): seq<string>
      reads this`line, this`unread
    {
      if line == "" then [] else [line] + Lines(unread)
    }

    ghost predicate Valid()
      reads this`line, this`unread
    {
      line == "" ==> unread == ""
    }

    method ReadLine()
      modifies this`line, this`unread
      ensures Valid() && Pending() == Lines(old(unread))
    {
      var n := LineLength(unread);
      line, unread := unread[..n], unread[n..];
    }

    /** Joins the current line and its continuations. */
    method UnfoldLine() returns (unfolded: string)
      requires Valid()
      modifies this`line, this`unread
      ensures Valid()
      ensures old(Pending()) == [] ==> unfolded == "" && Pending() == []
      ensures old(Pending()) != [] ==> Unfold(old(Pending())) == [unfolded] + Unfold(Pending())
                                       && |Pending()| < |old(Pending())|
    {
      hide Lines, StripLineSep;
      ghost var all := Pending();
      unfolded := StripLineSep(line);
      if all == [] {
        StripNothing("", '\n');
        StripNothing("", '\r');
        assert StripLineSep("") == "" by { EmptyStrip(); }
        assert Lines("") == [] by { NoLines(); }
      } else {
        assert all[1..] == Lines(unread);
      }
      ReadLine();
      ghost var first := unfolded;
      while line != "" && line[0] == ' '
        invariant Valid()
        invariant all == [] ==> Pending() == [] && unfolded == ""
        invariant all != [] ==> UnfoldFrom(unfolded, Pending()) == UnfoldFrom(first, all[1..]) && |Pending()| < |all|
        decreases |Pending()|
      {
        assert Pending()[1..] == Lines(unread);
        unfolded := unfolded + StripLineSep(line[1..]);
        ReadLine();
      }
      if all != [] {
        assert all[0] == old(line);
        assert UnfoldFrom(unfolded, Pending()) == [unfolded] + Unfold(Pending());
      }
    }

    lemma EmptyStrip()
      ensures StripLineSep("") == ""
    {
    }

    lemma NoLines()
      ensures Lines("") == []
    {
    }

    /** Reads the next attribute, past comments. */
    method ReadAttribute() returns (a: Attr)
      requires Valid()
      modifies this`line, this`unread
      ensures Valid()
      ensures (a, Unfold(Pending())) == NextAttr(Unfold(old(Pending())))
    {
      hide Pending, Unfold, Decode, StripLeft, Valid, NextAttr;
      var u := Skip();
      if u == "" || u == "\n" || u == "\r\n" {
        return NoAttr;
      }
      var n := Colon(u);
      if n == |u| {
        return Attr("", "");
      }
      var spec := u[n..if n + 2 <= |u| then n + 2 else |u|];
      if spec == "::" {
        var decoded := Decode(u[n + 2..]);
        match decoded
        case None => a := BadBase64;
        case Some(v) => a := Attr(u[..n], v);
      } else if spec == ":<" {
        a := NoAttr;
      } else {
        a := Attr(u[..n], StripLeft(From(u, n + 2)));
      }
    }

    /** The next unfolded line that is no comment; empty at the end of the input. */
    method Skip() returns (u: string)
      requires Valid()
      modifies this`line, this`unread
      ensures Valid() && !IsComment(u)
      ensures (Interpret(u), Unfold(Pending())) == NextAttr(Unfold(old(Pending())))
    {
      hide Lines, Interpret, UnfoldFrom, Valid;
      ghost var us := Unfold(Pending());
      u := UnfoldLine();
      if us == [] {
        assert Interpret("") == NoAttr by { NothingLeft(); }
      } else {
        assert us[0] == u && us[1..] == Unfold(Pending());
      }
      while IsComment(u)
        invariant Valid()
        invariant NextAttr(us) == if IsComment(u)
                then NextAttr(Unfold(Pending())) else (Interpret(u), Unfold(Pending()))
        decreases |Pending()|, IsComment(u)
      {
        ghost var left := Unfold(Pending());
        u := UnfoldLine();
        if left == [] {
          assert Interpret("") == NoAttr by { NothingLeft(); }
        } else {
          assert left[0] == u && left[1..] == Unfold(Pending());
        }
      }
    }

    lemma NothingLeft()
      ensures Interpret("") == NoAttr
    {
    }

    /** Parses records until the input ends, the maximum is reached or a record is in error. */
    method ParseRecords() returns (error: Option<LdifError>)
      modifies this
      ensures var o := Parse(cfg, Unfold(Lines(old(unread))), old(recordsRead));
              allRecords == old(allRecords) + o.records && error == o.error
    {
      hide Lines, Unfold, NextAttr, Lower, AddValue;
      ghost var o := Parse(cfg, Unfold(Lines(unread)), recordsRead);
      ReadLine();
      while line != "" && (cfg.max == 0 || recordsRead < cfg.max)
        invariant Valid()
        invariant var left := Parse(cfg, Unfold(Pending()), recordsRead);
                  old(allRecords) + o.records == allRecords + left.records && o.error == left.error
        decreases |Unfold(Pending())|
      {
        var p := NOTHING;
        var a := ReadAttribute();
        while a.Attr?
          invariant Valid()
          invariant var left := ParseRecord(cfg, a, Unfold(Pending()), p, recordsRead);
                    old(allRecords) + o.records == allRecords + left.records && o.error == left.error
          decreases |Unfold(Pending())|, a.Attr?
        {
          var applied := ApplyAttribute(p, a.name, a.value);
          match applied
          case Failed(e) => return Some(e);
          case Applied(p') => p := p';
          a := ReadAttribute();
        }
        if a.BadBase64? {
          return Some(IncorrectPadding);
        }
        if p.entry != map[] {
          allRecords := allRecords + [Record(p.dn, p.entry)];
          recordsRead := recordsRead + 1;
        }
      }
      return None;
    }

    /** What an attribute does to the record being read. */
    method ApplyAttribute(p: Partial, name: string, value: string) returns (r: Applied)
      ensures r == Apply(cfg, p, name, value)
    {
      var n := Lower(name);
      if n == "" || value == "" {
        return Applied(p);
      }
      if n == "dn" {
        if p.dn.Some? { return Failed(TwoDns); }
        if !cfg.isDn(value) { return Failed(InvalidDn); }
        return Applied(p.(dn := Some(value)));
      }
      if n == "version" && p.dn.None? {
        return Applied(p);
      }
      if n == "changetype" {
        if p.dn.None? { return Failed(ChangetypeBeforeDn); }
        if p.changetype.Some? { return Failed(TwoChangetypes); }
        if value !in {"add", "delete", "modify", "modrdn"} { return Failed(InvalidChangetype); }
        return Applied(p.(changetype := Some(value)));
      }
      if n in cfg.ignored {
        return Applied(p);
      }
      r := Applied(p.(entry := AddValue(p.entry, n, value)));
    }
  }

  // ---------------------------------------------------------------- one record to text, a text to records

  method CreateLdif(dn: string, entry: Entry, base64Attrs: seq<string>, cols: nat)
      returns (text: string, ghost order: seq<string>)
    requires cols >= 2 && Bytes(dn) && EntryBytes(entry)
    ensures entry == map[] ==> text == ""
    ensures entry != map[] ==>
              && Sorted(order) && Enumerates(order, entry.Keys) && (forall i :: 0 <= i < |order| ==> order[i] in entry)
              && text == FoldAll(RecordLines(Input(dn, entry, order), Forced(base64Attrs)), cols, "\n")
  {
    hide FoldAll, FormatLine, LexLess;
    var writer := new LdifWriter(base64Attrs, cols, "\n");
    order := writer.Unparse(dn, entry);
    text := writer.output;
    assert entry != map[] ==> text == "" + FoldAll(RecordLines(Input(dn, entry, order), writer.forced), cols, "\n");
  }

  method ParseLdif(text: string, cfg: Config) returns (records: seq<Record>, error: Option<LdifError>)
    ensures Output(records, error) == Parse(cfg, Unfold(Lines(text)), 0)
  {
    hide Parse, Unfold, Lines;
    var parser := new LdifParser(text, cfg);
    error := parser.ParseRecords();
    records := parser.allRecords;
  }

  // ---------------------------------------------------------------- the writer's output back through the parser

  /** Writes records with one writer; the text is that of their lines. */
  method WriteAll(cfg: Config, rs: seq<(string, Entry)>, base64Attrs: seq<string>, cols: nat, sep: string)
    returns (text: string, ghost ins: seq<Input>)
    requires cols >= 2 && forall i :: 0 <= i < |rs| ==> Storable(cfg, Forced(base64Attrs), rs[i].0, rs[i].1)
    ensures |ins| == |rs| && AllWrite(cfg, Forced(base64Attrs), ins)
    ensures forall i :: 0 <= i < |rs| ==> ins[i].dn == rs[i].0 && ins[i].entry == rs[i].1
    ensures text == FoldAll(AllLines(ins, Forced(base64Attrs)), cols, sep)
  {
    hide FoldAll, LexLess, AllLines, Writes, Storable, Enumerates, RecordLines;
    ghost var forced := Forced(base64Attrs);
    var writer := new LdifWriter(base64Attrs, cols, sep);
    ins := [];
    NothingToWrite(forced, cols, sep);
    for i := 0 to |rs|
      invariant |ins| == i && AllWrite(cfg, forced, ins)
      invariant writer.output == FoldAll(AllLines(ins, forced), cols, sep)
      invariant forall j :: 0 <= j < i ==> ins[j].dn == rs[j].0 && ins[j].entry == rs[j].1
    {
      StorableBytes(cfg, forced, rs[i].0, rs[i].1);
      var order := writer.Unparse(rs[i].0, rs[i].1);
      ghost var r := Input(rs[i].0, rs[i].1, order);
      StorableWrites(cfg, forced, r);
      AllLinesAppend(ins, r, forced);
      FoldAllAppend(AllLines(ins, forced), RecordLines(r, forced), cols, sep);
      assert forall j :: 0 <= j < |ins| ==> Writes(cfg, forced, ins[j]);
      ins := ins + [r];
    }
    text := writer.output;
  }

  lemma NothingToWrite(forced: set<string>, cols: nat, sep: string)
    requires cols >= 2
    ensures FoldAll(AllLines([], forced), cols, sep) == ""
  {
  }

  /**
   Records written one after the other and parsed again are given back in order, with their names, their attribute types
   in lower case and all values; a maximum keeps the first ones.
   */
  method WriteThenParse(cfg: Config, rs: seq<(string, Entry)>, base64Attrs: seq<string>, cols: nat, sep: string)
    returns (records: seq<Record>, error: Option<LdifError>)
    requires cols >= 2 && LineSep(sep)
    requires forall i :: 0 <= i < |rs| ==> Storable(cfg, Forced(base64Attrs), rs[i].0, rs[i].1)
    ensures error == None && |records| == Allowed(cfg, 0, |rs|) <= |rs|
    ensures forall i :: 0 <= i < |records| ==> records[i].dn == Some(rs[i].0) && GivenBack(rs[i].1, records[i].entry)
  {
    hide FoldAll, AllLines, Writes, Storable, Parse, Unfold, Lines, GivenBack, LowerEntry;
    ghost var forced := Forced(base64Attrs);
    var text, ins := WriteAll(cfg, rs, base64Attrs, cols, sep);
    records, error := ParseLdif(text, cfg);
    ParseWritten(cfg, forced, ins, cols, sep);
    forall i | 0 <= i < |records|
      ensures records[i].dn == Some(rs[i].0) && GivenBack(rs[i].1, records[i].entry)
    {
      assert records[i] == Expected(ins)[i];
      EntryGivenBack(cfg, forced, ins[i]);
    }
  }
}
