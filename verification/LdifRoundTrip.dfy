/** Parsing what was written gives back the records. */
module LdifRoundTrip {
  import opened Common
  import opened Base64
  import opened LdifText
  import opened LdifRecord

  /** A record to write: its name, its attributes, and the attribute types in the order of writing. */
  datatype Input = Input(dn: string, entry: Entry, order: seq<string>)

  /** The order lists every attribute type once. */
  ghost predicate Enumerates(order: seq<string>, keys: set<string>) {
    && (forall k :: k in keys <==> k in order)
    && forall i, j :: 0 <= i < j < |order| ==> order[i] != order[j]
  }

  predicate Kept(name: string, value: string, forced: set<string>) {
    value != "" && Bytes(value) && Survives(name, value, forced)
  }

  /** What the parser can give back of an attribute. */
  ghost predicate KeptAttribute(cfg: Config, forced: set<string>, name: string, values: seq<string>) {
    && LegalName(name) && Lower(name) != "dn" && Lower(name) != "changetype" && Lower(name) !in cfg.ignored
    && values != [] && forall i :: 0 <= i < |values| ==> Kept(name, values[i], forced)
  }

  ghost predicate Writes(cfg: Config, forced: set<string>, r: Input) {
    && Kept("dn", r.dn, forced) && cfg.isDn(r.dn)
    && r.order != [] && Enumerates(r.order, r.entry.Keys)
    && (forall k :: k in r.entry ==> KeptAttribute(cfg, forced, k, r.entry[k]))
    && forall k, l :: k in r.entry && l in r.entry && k != l ==> Lower(k) != Lower(l)
  }

  /** The entry with its attribute types in lower case. */
  function LowerEntry(entry: Entry, order: seq<string>): Entry
    requires forall i :: 0 <= i < |order| ==> order[i] in entry
  {
    if order == [] then map[]
    else
      var k := order[|order| - 1];
      LowerEntry(entry, order[..|order| - 1])[Lower(k) := entry[k]]
  }

  lemma {:induction false} LowerEntryKeys(entry: Entry, order: seq<string>, n: string)
    requires forall i :: 0 <= i < |order| ==> order[i] in entry
    ensures n in LowerEntry(entry, order) <==> exists i :: 0 <= i < |order| && Lower(order[i]) == n
  {
    if order != [] {
      var l := |order| - 1;
      LowerEntryKeys(entry, order[..l], n);
      if i :| 0 <= i < |order| && Lower(order[i]) == n {
        assert i == l || Lower(order[..l][i]) == n;
      }
    }
  }

  /** Whatever the order of writing: the names are those of the entry in lower case, with the entry's values. */
  lemma {:induction false} LowerEntryIs(entry: Entry, order: seq<string>, k: string)
    requires forall i :: 0 <= i < |order| ==> order[i] in entry
    requires forall i, j :: 0 <= i < j < |order| ==> Lower(order[i]) != Lower(order[j])
    requires k in order
    ensures Lower(k) in LowerEntry(entry, order) && LowerEntry(entry, order)[Lower(k)] == entry[k]
  {
    var l := |order| - 1;
    if order[l] != k {
      var i :| 0 <= i < |order| && order[i] == k;
      assert order[..l][i] == k;
      LowerEntryIs(entry, order[..l], k);
    }
  }

  ghost predicate GivenBack(entry: Entry, m: Entry) {
    && (forall k :: k in entry ==> Lower(k) in m && m[Lower(k)] == entry[k])
    && (forall n :: n in m ==> exists k :: k in entry && Lower(k) == n)
  }

  /** The parsed entry is the written one: its names in lower case, each with its values in order. */
  lemma EntryGivenBack(cfg: Config, forced: set<string>, r: Input)
    requires Writes(cfg, forced, r)
    ensures GivenBack(r.entry, LowerEntry(r.entry, r.order))
  {
    hide Lower, KeptAttribute, Kept;
    var m := LowerEntry(r.entry, r.order);
    forall k | k in r.entry
      ensures Lower(k) in m && m[Lower(k)] == r.entry[k]
    {
      LowerEntryIs(r.entry, r.order, k);
    }
    forall n | n in m
      ensures exists k :: k in r.entry && Lower(k) == n
    {
      LowerEntryKeys(r.entry, r.order, n);
      var i :| 0 <= i < |r.order| && Lower(r.order[i]) == n;
      assert r.order[i] in r.entry;
    }
  }

  // ---------------------------------------------------------------- the lines of a record

  function ValueLines(name: string, values: seq<string>, forced: set<string>): (us: seq<string>)
    requires forall i :: 0 <= i < |values| ==> Bytes(values[i])
    ensures |us| == |values|
  {
    if values == [] then [] else [FormatLine(name, values[0], forced)] + ValueLines(name, values[1..], forced)
  }

  predicate EntryBytes(entry: Entry) {
    forall k | k in entry :: forall i | 0 <= i < |entry[k]| :: Bytes(entry[k][i])
  }

  function AttributeLines(entry: Entry, order: seq<string>, forced: set<string>): seq<string>
    requires EntryBytes(entry) && forall i :: 0 <= i < |order| ==> order[i] in entry
  {
    if order == [] then []
    else ValueLines(order[0], entry[order[0]], forced) + AttributeLines(entry, order[1..], forced)
  }

  /** A record: its name, its attributes, an empty line. */
  function RecordLines(r: Input, forced: set<string>): seq<string>
    requires Bytes(r.dn) && EntryBytes(r.entry) && forall i :: 0 <= i < |r.order| ==> r.order[i] in r.entry
  {
    [FormatLine("dn", r.dn, forced)] + AttributeLines(r.entry, r.order, forced) + [""]
  }

  lemma {:induction false} ValueLinesWritable(name: string, values: seq<string>, forced: set<string>)
    requires LegalName(name) && forall i :: 0 <= i < |values| ==> Bytes(values[i])
    ensures Writable(ValueLines(name, values, forced))
  {
    if values != [] {
      FormatLineShape(name, values[0], forced);
      ValueLinesWritable(name, values[1..], forced);
    }
  }

  lemma {:induction false} AttributeLinesWritable(entry: Entry, order: seq<string>, forced: set<string>)
    requires EntryBytes(entry) && forall i :: 0 <= i < |order| ==> order[i] in entry && LegalName(order[i])
    ensures Writable(AttributeLines(entry, order, forced))
  {
    if order != [] {
      ValueLinesWritable(order[0], entry[order[0]], forced);
      AttributeLinesWritable(entry, order[1..], forced);
    }
  }

  lemma RecordLinesWritable(r: Input, forced: set<string>)
    requires Bytes(r.dn) && EntryBytes(r.entry)
    requires forall i :: 0 <= i < |r.order| ==> r.order[i] in r.entry && LegalName(r.order[i])
    ensures Writable(RecordLines(r, forced))
  {
    FormatLineShape("dn", r.dn, forced);
    AttributeLinesWritable(r.entry, r.order, forced);
  }

  // ---------------------------------------------------------------- parsing these lines

  /** Inside a record, with these lines left. */
  function Reading(cfg: Config, us: seq<string>, p: Partial, n: nat): Output {
    var next := NextAttr(us);
    ParseRecord(cfg, next.0, next.1, p, n)
  }

  lemma ReadOne(cfg: Config, forced: set<string>, name: string, value: string, more: seq<string>, p: Partial, n: nat)
    requires LegalName(name) && Kept(name, value, forced)
    ensures Reading(cfg, [FormatLine(name, value, forced)] + more, p, n)
         == match Apply(cfg, p, name, value)
            case Failed(e) => Output([], Some(e))
            case Applied(p') => Reading(cfg, more, p', n)
  {
    hide FormatLine, Interpret, Lower, Apply;
    var us := [FormatLine(name, value, forced)] + more;
    FormatLineShape(name, value, forced);
    LineRoundTripIff(name, value, forced);
    assert us[1..] == more;
  }

  lemma ApplyAttribute(cfg: Config, forced: set<string>, name: string, values: seq<string>, v: string, p: Partial)
    requires KeptAttribute(cfg, forced, name, values) && v != "" && p.dn.Some?
    ensures Apply(cfg, p, name, v) == Applied(p.(entry := AddValue(p.entry, Lower(name), v)))
  {
    hide Lower, Kept, AddValue;
  }

  /** `p` after reading the values of one attribute: they are added in order. */
  lemma {:induction false} ReadValues(cfg: Config, forced: set<string>, name: string, values: seq<string>,
                                      more: seq<string>, p: Partial, n: nat)
    requires KeptAttribute(cfg, forced, name, values) && p.dn.Some?
    ensures var before := if Lower(name) in p.entry then p.entry[Lower(name)] else [];
            Reading(cfg, ValueLines(name, values, forced) + more, p, n)
              == Reading(cfg, more, p.(entry := p.entry[Lower(name) := before + values]), n)
    decreases |values|
  {
    hide FormatLine, Lower, LegalName, Survives, Reading, Apply, Bytes;
    var v, rest := values[0], values[1..];
    assert Kept(name, values[0], forced);
    var before := if Lower(name) in p.entry then p.entry[Lower(name)] else [];
    var p' := p.(entry := p.entry[Lower(name) := before + [v]]);
    assert ValueLines(name, values, forced) + more
        == [FormatLine(name, v, forced)] + (ValueLines(name, rest, forced) + more);
    ReadOne(cfg, forced, name, v, ValueLines(name, rest, forced) + more, p, n);
    ApplyAttribute(cfg, forced, name, values, v, p);
    if rest == [] {
      assert values == [v];
      assert ValueLines(name, rest, forced) + more == more;
    } else {
      assert forall i :: 0 <= i < |rest| ==> rest[i] == values[i + 1];
      ReadValues(cfg, forced, name, rest, more, p', n);
      assert before + [v] + rest == before + values;
      assert p'.entry[Lower(name) := before + [v] + rest] == p.entry[Lower(name) := before + values];
    }
  }

  /** `p` after reading the attributes from the i-th on, those before having been read. */
  lemma {:induction false} ReadAttributes(cfg: Config, forced: set<string>, r: Input, i: nat, more: seq<string>,
      p: Partial, n: nat)
    requires Writes(cfg, forced, r) && EntryBytes(r.entry) && i <= |r.order| && p.dn.Some?
    requires p.entry == LowerEntry(r.entry, r.order[..i])
    ensures Reading(cfg, AttributeLines(r.entry, r.order[i..], forced) + more, p, n)
         == Reading(cfg, more, p.(entry := LowerEntry(r.entry, r.order)), n)
    decreases |r.order| - i
  {
    hide Reading, Lower, Apply, ValueLines, AttributeLines, LowerEntry, KeptAttribute, EntryBytes;
    if i == |r.order| {
      assert r.order[..i] == r.order;
      NoMoreLines(r.entry, r.order[i..], forced, more);
    } else {
      var k := r.order[i];
      var tail := AttributeLines(r.entry, r.order[i + 1..], forced) + more;
      AttributeLinesStep(r.entry, r.order, i, forced, more);
      assert k in r.entry && KeptAttribute(cfg, forced, k, r.entry[k]);
      NotYetRead(r, i);
      ReadValues(cfg, forced, k, r.entry[k], tail, p, n);
      assert [] + r.entry[k] == r.entry[k];
      var p' := p.(entry := p.entry[Lower(k) := r.entry[k]]);
      LowerEntryStep(r.entry, r.order, i);
      ReadAttributes(cfg, forced, r, i + 1, more, p', n);
    }
  }

  lemma NoMoreLines(entry: Entry, order: seq<string>, forced: set<string>, more: seq<string>)
    requires EntryBytes(entry) && order == []
    ensures AttributeLines(entry, order, forced) + more == more
  {
  }

  lemma AttributeLinesStep(entry: Entry, order: seq<string>, i: nat, forced: set<string>, more: seq<string>)
    requires EntryBytes(entry) && i < |order| && forall j :: 0 <= j < |order| ==> order[j] in entry
    ensures AttributeLines(entry, order[i..], forced) + more
         == ValueLines(order[i], entry[order[i]], forced) + (AttributeLines(entry, order[i + 1..], forced) + more)
  {
    hide ValueLines;
    assert order[i..][0] == order[i] && order[i..][1..] == order[i + 1..];
  }

  lemma LowerEntryStep(entry: Entry, order: seq<string>, i: nat)
    requires i < |order| && forall j :: 0 <= j < |order| ==> order[j] in entry
    ensures LowerEntry(entry, order[..i + 1]) == LowerEntry(entry, order[..i])[Lower(order[i]) := entry[order[i]]]
  {
    hide Lower;
    assert order[..i + 1][..i] == order[..i];
  }

  lemma NotYetRead(r: Input, i: nat)
    requires Enumerates(r.order, r.entry.Keys) && i < |r.order|
    requires forall k, l :: k in r.entry && l in r.entry && k != l ==> Lower(k) != Lower(l)
    ensures Lower(r.order[i]) !in LowerEntry(r.entry, r.order[..i])
  {
    hide Lower;
    LowerEntryKeys(r.entry, r.order[..i], Lower(r.order[i]));
    forall j | 0 <= j < i
      ensures Lower(r.order[..i][j]) != Lower(r.order[i])
    {
      assert r.order[..i][j] == r.order[j] != r.order[i];
    }
  }

  /** A written record is read as one record; then parsing goes on behind it. */
  lemma ReadRecord(cfg: Config, forced: set<string>, r: Input, more: seq<string>, n: nat)
    requires Writes(cfg, forced, r) && EntryBytes(r.entry) && (cfg.max == 0 || n < cfg.max)
    ensures Parse(cfg, RecordLines(r, forced) + more, n)
         == Parse(cfg, more, n + 1).Behind(Record(Some(r.dn), LowerEntry(r.entry, r.order)))
  {
    hide Lower, ValueLines, AttributeLines, FormatLine, Apply;
    var end := [""] + more;
    var attrs := AttributeLines(r.entry, r.order, forced);
    assert RecordLines(r, forced) + more == [FormatLine("dn", r.dn, forced)] + (attrs + end);
    assert LegalName("dn");
    ReadOne(cfg, forced, "dn", r.dn, attrs + end, NOTHING, n);
    ApplyDn(cfg, r.dn);
    var p := NOTHING.(dn := Some(r.dn));
    assert r.order[..0] == [] && r.order[0..] == r.order;
    ReadAttributes(cfg, forced, r, 0, end, p, n);
    var p' := p.(entry := LowerEntry(r.entry, r.order));
    assert p'.entry != map[] by {
      LowerEntryKeys(r.entry, r.order, Lower(r.order[0]));
    }
    assert NextAttr(end) == (NoAttr, more) by { assert end[0] == "" && end[1..] == more; }
  }

  lemma ApplyDn(cfg: Config, dn: string)
    requires dn != "" && cfg.isDn(dn)
    ensures Apply(cfg, NOTHING, "dn", dn) == Applied(NOTHING.(dn := Some(dn)))
  {
    assert Lower("dn") == "dn";
  }

  // ---------------------------------------------------------------- whole files

  predicate AllBytes(rs: seq<Input>) {
    forall i | 0 <= i < |rs| :: Bytes(rs[i].dn) && EntryBytes(rs[i].entry)
                             && forall j | 0 <= j < |rs[i].order| :: rs[i].order[j] in rs[i].entry
  }

  function AllLines(rs: seq<Input>, forced: set<string>): seq<string>
    requires AllBytes(rs)
  {
    if rs == [] then [] else RecordLines(rs[0], forced) + AllLines(rs[1..], forced)
  }

  lemma {:induction false} AllLinesAppend(rs: seq<Input>, r: Input, forced: set<string>)
    requires AllBytes(rs) && Bytes(r.dn) && EntryBytes(r.entry)
    requires forall i :: 0 <= i < |r.order| ==> r.order[i] in r.entry
    ensures AllBytes(rs + [r]) && AllLines(rs + [r], forced) == AllLines(rs, forced) + RecordLines(r, forced)
  {
    hide RecordLines;
    if rs == [] {
      assert rs + [r] == [r] && [r][1..] == [];
      assert AllLines([r], forced) == RecordLines(r, forced) + [];
    } else {
      assert (rs + [r])[1..] == rs[1..] + [r];
      AllLinesAppend(rs[1..], r, forced);
    }
  }

  /** The records the parser must give back. */
  function Expected(rs: seq<Input>): (es: seq<Record>)
    requires AllBytes(rs)
    ensures |es| == |rs|
    ensures forall i :: 0 <= i < |rs| ==> es[i] == Record(Some(rs[i].dn), LowerEntry(rs[i].entry, rs[i].order))
  {
    seq(|rs|, i requires 0 <= i < |rs| => Record(Some(rs[i].dn), LowerEntry(rs[i].entry, rs[i].order)))
  }

  ghost predicate AllWrite(cfg: Config, forced: set<string>, rs: seq<Input>) {
    AllBytes(rs) && forall i :: 0 <= i < |rs| ==> Writes(cfg, forced, rs[i])
  }

  function Allowed(cfg: Config, n: nat, count: nat): nat
    requires cfg.max == 0 || n <= cfg.max
  {
    if cfg.max == 0 || count <= cfg.max - n then count else cfg.max - n
  }

  lemma {:induction false} ParseAllLines(cfg: Config, forced: set<string>, rs: seq<Input>, n: nat)
    requires AllWrite(cfg, forced, rs) && (cfg.max == 0 || n <= cfg.max)
    ensures Parse(cfg, AllLines(rs, forced), n) == Output(Expected(rs)[..Allowed(cfg, n, |rs|)], None)
    decreases |rs|
  {
    hide Writes, RecordLines;
    if rs == [] || (cfg.max != 0 && n == cfg.max) {
      assert Expected(rs)[..0] == [];
    } else {
      ReadRecord(cfg, forced, rs[0], AllLines(rs[1..], forced), n);
      ParseAllLines(cfg, forced, rs[1..], n + 1);
      hide Parse, AllLines, AllBytes;
      ExpectedStep(cfg, rs, n);
    }
  }

  lemma ExpectedStep(cfg: Config, rs: seq<Input>, n: nat)
    requires rs != [] && (cfg.max != 0 ==> n < cfg.max) && AllBytes(rs) && AllBytes(rs[1..])
    ensures Expected(rs)[..Allowed(cfg, n, |rs|)]
         == [Record(Some(rs[0].dn), LowerEntry(rs[0].entry, rs[0].order))]
            + Expected(rs[1..])[..Allowed(cfg, n + 1, |rs| - 1)]
  {
    hide LowerEntry;
  }

  lemma {:induction false} AllLinesWritable(cfg: Config, forced: set<string>, rs: seq<Input>)
    requires AllWrite(cfg, forced, rs)
    ensures Writable(AllLines(rs, forced))
  {
    hide RecordLines, Lower;
    if rs != [] {
      var r := rs[0];
      forall i | 0 <= i < |r.order|
        ensures LegalName(r.order[i])
      {
        assert r.order[i] in r.entry && KeptAttribute(cfg, forced, r.order[i], r.entry[r.order[i]]);
      }
      RecordLinesWritable(r, forced);
      AllLinesWritable(cfg, forced, rs[1..]);
    }
  }

  /**
   Parsing what any sequence of records was written as gives back these records in order, attribute names in
   lower case, for every width, both line separators and every set of attributes forced to base64; a maximum
   keeps the first ones.
   */
  lemma ParseWritten(cfg: Config, forced: set<string>, rs: seq<Input>, cols: nat, sep: string)
    requires AllWrite(cfg, forced, rs) && cols >= 2 && LineSep(sep)
    ensures Parse(cfg, Unfold(Lines(FoldAll(AllLines(rs, forced), cols, sep))), 0)
         == Output(Expected(rs)[..Allowed(cfg, 0, |rs|)], None)
  {
    AllLinesWritable(cfg, forced, rs);
    UnfoldFoldAll(AllLines(rs, forced), cols, sep);
    ParseAllLines(cfg, forced, rs, 0);
  }

  /** What can be given back of a record, whatever the order its attributes are written in. */
  ghost predicate Storable(cfg: Config, forced: set<string>, dn: string, entry: Entry) {
    && Kept("dn", dn, forced) && cfg.isDn(dn) && entry != map[]
    && (forall k :: k in entry ==> KeptAttribute(cfg, forced, k, entry[k]))
    && forall k, l :: k in entry && l in entry && k != l ==> Lower(k) != Lower(l)
  }

  lemma StorableBytes(cfg: Config, forced: set<string>, dn: string, entry: Entry)
    requires Storable(cfg, forced, dn, entry)
    ensures Bytes(dn) && EntryBytes(entry) && entry != map[]
  {
    hide Survives, Lower, LegalName, Bytes;
  }

  lemma StorableWrites(cfg: Config, forced: set<string>, r: Input)
    requires Storable(cfg, forced, r.dn, r.entry) && Enumerates(r.order, r.entry.Keys)
    ensures Writes(cfg, forced, r)
  {
    StorableBytes(cfg, forced, r.dn, r.entry);
    hide Kept, KeptAttribute, Lower, EntryBytes, Bytes;
    var k :| k in r.entry;
    assert k in r.order;
  }

  /** The records of a CR-free text, or its failure, are the same when every LF becomes CRLF. */
  lemma ParseCrlf(cfg: Config, text: string)
    requires NoCr(text)
    ensures Parse(cfg, Unfold(Lines(Crlf(text))), 0) == Parse(cfg, Unfold(Lines(text)), 0)
  {
    UnfoldCrlf(text);
  }
}
