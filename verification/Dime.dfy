/** DIME messages: the generator, and a reader that follows the record layout of draft-nielsen-dime-02, section 3. */
module Dime {
  import opened Common
  import opened Octets

  datatype Record = Record(id: seq<Octet>, typ: seq<Octet>, typCode: int, payload: seq<Octet>)

  const DIME_VERSION := 1
  const PAD_SIZE := 4

  function BytesNeeded(len: nat): (n: nat)
    ensures len <= n
  {
    if len % PAD_SIZE == 0 then len else (len / PAD_SIZE + 1) * PAD_SIZE
  }

  /** The least multiple of four that is long enough. */
  lemma BytesNeededIsLeast(len: nat, m: nat)
    ensures BytesNeeded(len) % PAD_SIZE == 0
    ensures m % PAD_SIZE == 0 && m >= len ==> BytesNeeded(len) <= m
  {
    if len % PAD_SIZE != 0 && m % PAD_SIZE == 0 && m >= len {
      assert m == m / PAD_SIZE * PAD_SIZE;
    }
  }

  // ---------------------------------------------------------------- what is written

  function Zeros(n: nat): (s: seq<Octet>)
    ensures |s| == n
  {
    seq(n, _ => 0)
  }

  function Padded(s: seq<Octet>): (p: seq<Octet>)
    ensures |p| == BytesNeeded(|s|) && p[..|s|] == s
  {
    s + Zeros(BytesNeeded(|s|) - |s|)
  }

  function Flags(first: bool, last: bool): Octet {
    8 * DIME_VERSION + (if first then 4 else 0) + (if last then 2 else 0)
  }

  /** The length fields of the header hold the lengths of the record. */
  predicate Fits(r: Record) {
    |r.id| < 0x1_0000 && |r.typ| < 0x1_0000 && |r.payload| < 0x1_0000_0000
  }

  function Opening(r: Record, first: bool, last: bool): (s: seq<Octet>)
    ensures |s| == 4
  {
    [Flags(first, last), r.typCode % 16 * 16, 0, 0]
  }

  function Header(r: Record, first: bool, last: bool): (s: seq<Octet>)
    ensures |s| == 12
  {
    Opening(r, first, last) + Digits(Motorola, |r.id|, 2) + Digits(Motorola, |r.typ|, 2)
        + Digits(Motorola, |r.payload|, 4)
  }

  function RecordOctets(r: Record, first: bool, last: bool): (s: seq<Octet>)
    ensures |s| >= 12
  {
    Header(r, first, last) + Padded(r.id) + Padded(r.typ) + Padded(r.payload)
  }

  /** The first n records of a message. */
  function Leading(rs: seq<Record>, n: nat): seq<Octet>
    requires n <= |rs|
  {
    if n == 0 then [] else Leading(rs, n - 1) + RecordOctets(rs[n - 1], n == 1, n == |rs|)
  }

  /** The records from the n-th on. */
  function Trailing(rs: seq<Record>, n: nat): seq<Octet>
    requires n <= |rs|
    decreases |rs| - n
  {
    if n == |rs| then [] else RecordOctets(rs[n], n == 0, n == |rs| - 1) + Trailing(rs, n + 1)
  }

  lemma {:induction false} LeadingThenTrailing(rs: seq<Record>, n: nat)
    requires n <= |rs|
    ensures Leading(rs, |rs|) == Leading(rs, n) + Trailing(rs, n)
    decreases |rs| - n
  {
    hide RecordOctets;
    if n < |rs| {
      LeadingThenTrailing(rs, n + 1);
    }
  }

  /** What is left of a record when one of its lengths does not fit: `struct.pack` fails on it. */
  function Broken(r: Record, first: bool, last: bool): (s: seq<Octet>)
    requires !Fits(r)
    ensures s < Header(r, first, last)
  {
    var s := Header(r, first, last);
    if |r.id| >= 0x1_0000 then s[..4] else if |r.typ| >= 0x1_0000 then s[..6] else s[..8]
  }

  ghost predicate FirstMisfit(rs: seq<Record>, i: nat) {
    i < |rs| && !Fits(rs[i]) && forall j :: 0 <= j < i ==> Fits(rs[j])
  }

  /** A message cut off inside its i-th record. */
  function Cut(rs: seq<Record>, i: nat): seq<Octet>
    requires i < |rs| && !Fits(rs[i])
  {
    Leading(rs, i) + Broken(rs[i], i == 0, i == |rs| - 1)
  }

  class Output {
    var bytes: seq<Octet>

    constructor ()
      ensures bytes == []
    {
      bytes := [];
    }

    method Write(s: seq<Octet>)
      modifies this
      ensures bytes == old(bytes) + s
    {
      bytes := bytes + s;
    }
  }

  class Message {
    var records: seq<Record>

    constructor ()
      ensures records == []
    {
      records := [];
    }

    method AddRecord(r: Record)
      modifies this
      ensures records == old(records) + [r]
    {
      records := records + [r];
    }

    /** Writes the whole message, or stops inside the first record with a length that does not fit. */
    method Generate(output: Output) returns (ok: bool)
      modifies output
      ensures ok <==> forall r :: r in records ==> Fits(r)
      ensures ok ==> output.bytes == old(output.bytes) + Leading(records, |records|)
      ensures !ok ==> exists i :: FirstMisfit(records, i) && output.bytes == old(output.bytes) + Cut(records, i)
    {
      hide Broken, RecordOctets, Fits;
      for i := 0 to |records|
        invariant forall j :: 0 <= j < i ==> Fits(records[j])
        invariant output.bytes == old(output.bytes) + Leading(records, i)
      {
        ok := GenerateRecord(records[i], i == 0, i == |records| - 1, output);
        if !ok {
          assert records[i] in records && FirstMisfit(records, i);
          return;
        }
      }
      return true;
    }

    static method GenerateRecord(r: Record, first: bool, last: bool, output: Output) returns (ok: bool)
      modifies output
      ensures ok <==> Fits(r)
      ensures ok ==> output.bytes == old(output.bytes) + RecordOctets(r, first, last)
      ensures !ok ==> output.bytes == old(output.bytes) + Broken(r, first, last)
    {
      hide Padded, Header, Broken, Fits, BytesNeeded;
      ghost var was := output.bytes;
      ok := GenerateHeader(r, first, last, output);
      if !ok {
        return;
      }
      if BytesNeeded(|r.id|) != 0 {
        output.Write(Padded(r.id));
      }
      assert output.bytes == was + (Header(r, first, last) + Padded(r.id));
      if BytesNeeded(|r.typ|) != 0 {
        output.Write(Padded(r.typ));
      }
      assert output.bytes == was + (Header(r, first, last) + Padded(r.id) + Padded(r.typ));
      if BytesNeeded(|r.payload|) != 0 {
        output.Write(Padded(r.payload));
      }
    }

    static method GenerateOpening(r: Record, first: bool, last: bool, output: Output)
      modifies output
      ensures output.bytes == old(output.bytes) + Opening(r, first, last)
    {
      var mb, me, cf := 0, 0, 0;
      if first {
        mb := 1;
      }
      if last {
        me := 1;
      }
      output.Write([DIME_VERSION % 32 * 8 + mb * 4 + me * 2 + cf]);
      output.Write([r.typCode % 16 * 16]);
      output.Write([0, 0]);
    }

    static method GenerateHeader(r: Record, first: bool, last: bool, output: Output) returns (ok: bool)
      modifies output
      ensures ok <==> Fits(r)
      ensures output.bytes == old(output.bytes) + if ok then Header(r, first, last) else Broken(r, first, last)
    {
      hide Digits, Header, Opening, Broken;
      ghost var was, h := output.bytes, Header(r, first, last);
      HeaderParts(r, first, last);
      if !Fits(r) {
        BrokenIs(r, first, last);
      }
      GenerateOpening(r, first, last, output);
      if |r.id| >= 0x1_0000 {
        return false;
      }
      output.Write(Digits(Motorola, |r.id|, 2));
      assert h[..4] + h[4..6] == h[..6];
      assert output.bytes == was + h[..6];
      if |r.typ| >= 0x1_0000 {
        return false;
      }
      output.Write(Digits(Motorola, |r.typ|, 2));
      assert h[..6] + h[6..8] == h[..8];
      assert output.bytes == was + h[..8];
      if |r.payload| >= 0x1_0000_0000 {
        return false;
      }
      output.Write(Digits(Motorola, |r.payload|, 4));
      assert h[..8] + h[8..12] == h;
      return true;
    }
  }

  lemma BrokenIs(r: Record, first: bool, last: bool)
    requires !Fits(r)
    ensures var h := Header(r, first, last);
      Broken(r, first, last) == if |r.id| >= 0x1_0000 then h[..4] else if |r.typ| >= 0x1_0000 then h[..6] else h[..8]
  {
  }

  lemma HeaderParts(r: Record, first: bool, last: bool)
    ensures var h := Header(r, first, last);
      h[..4] == Opening(r, first, last) && h[4..6] == Digits(Motorola, |r.id|, 2) &&
      h[6..8] == Digits(Motorola, |r.typ|, 2) && h[8..12] == Digits(Motorola, |r.payload|, 4)
  {
    hide Digits, Opening;
  }

  // ---------------------------------------------------------------- the layout, octet by octet

  /** What fills up a field of n octets: up to three zeros, to a multiple of four. */
  predicate Fills(zeros: seq<Octet>, n: nat) {
    |zeros| < 4 && (n + |zeros|) % 4 == 0 && forall i :: 0 <= i < |zeros| ==> zeros[i] == 0
  }

  lemma PaddedFills(s: seq<Octet>) returns (zeros: seq<Octet>)
    ensures Padded(s) == s + zeros && Fills(zeros, |s|)
  {
    zeros := Zeros(BytesNeeded(|s|) - |s|);
    BytesNeededIsLeast(|s|, |s| + (4 - |s| % 4) % 4);
  }

  /**
   A record whose lengths fit is two octets of marks and type code, no options, the three lengths, high octet first, and
   its identifier, type and payload, each filled up with zeros.
   */
  lemma RecordLayout(r: Record, first: bool, last: bool) returns (x: seq<Octet>, y: seq<Octet>, z: seq<Octet>)
    requires |r.id| < 65536 && |r.typ| < 65536 && |r.payload| < 4294967296
    ensures Fits(r) && Fills(x, |r.id|) && Fills(y, |r.typ|) && Fills(z, |r.payload|)
    ensures var s: seq<nat> := RecordOctets(r, first, last);
            && s[0] == 8 + (if first then 4 else 0) + (if last then 2 else 0)
            && s[1] == 16 * (r.typCode % 16) && s[2] == 0 && s[3] == 0
            && 256 * s[4] + s[5] == |r.id| && 256 * s[6] + s[7] == |r.typ|
            && 16777216 * s[8] + 65536 * s[9] + 256 * s[10] + s[11] == |r.payload|
            && s[12..] == r.id + x + (r.typ + y) + (r.payload + z)
  {
    x := PaddedFills(r.id);
    y := PaddedFills(r.typ);
    z := PaddedFills(r.payload);
    var h, s := Header(r, first, last), RecordOctets(r, first, last);
    HeaderDigits(r, first, last);
    hide Header, Padded, Fills;
    assert forall i :: 0 <= i < 12 ==> s[i] == h[i];
  }

  lemma HeaderDigits(r: Record, first: bool, last: bool)
    requires |r.id| < 65536 && |r.typ| < 65536 && |r.payload| < 4294967296
    ensures var h: seq<nat> := Header(r, first, last);
            && h[0] == 8 + (if first then 4 else 0) + (if last then 2 else 0)
            && h[1] == 16 * (r.typCode % 16) && h[2] == 0 && h[3] == 0
            && 256 * h[4] + h[5] == |r.id| && 256 * h[6] + h[7] == |r.typ|
            && 16777216 * h[8] + 65536 * h[9] + 256 * h[10] + h[11] == |r.payload|
  {
    var h := Header(r, first, last);
    LengthDigits(|r.id|);
    LengthDigits(|r.typ|);
    LengthDigits(|r.payload|);
    hide Digits;
    HeaderParts(r, first, last);
    assert h[4] == h[4..6][0] && h[5] == h[4..6][1] && h[6] == h[6..8][0] && h[7] == h[6..8][1];
    assert h[8] == h[8..12][0] && h[9] == h[8..12][1] && h[10] == h[8..12][2] && h[11] == h[8..12][3];
    assert h[..4] == Opening(r, first, last);
    assert h[0] == h[..4][0] && h[1] == h[..4][1] && h[2] == h[..4][2] && h[3] == h[..4][3];
  }

  lemma LengthDigits(n: nat)
    ensures n < 65536 ==> var d: seq<nat> := Digits(Motorola, n, 2); 256 * d[0] + d[1] == n
    ensures n < 4294967296 ==>
              var d: seq<nat> := Digits(Motorola, n, 4); 16777216 * d[0] + 65536 * d[1] + 256 * d[2] + d[3] == n
  {
    hide Digits, Num;
    var two, four := Digits(Motorola, n, 2), Digits(Motorola, n, 4);
    Pow256Values();
    TwoOctets(two[0], two[1]);
    FourOctets(four[0], four[1], four[2], four[3]);
    assert two == [two[0], two[1]] && four == [four[0], four[1], four[2], four[3]];
    if n < 65536 {
      DigitsRoundTrip(Motorola, n, 2);
    }
    if n < 4294967296 {
      DigitsRoundTrip(Motorola, n, 4);
    }
  }

  // ---------------------------------------------------------------- reading it back

  /** The first two octets of a header. */
  datatype Marks = Marks(version: nat, first: bool, last: bool, chunked: bool, typCode: nat)

  function MarksOf(b: Octet, c: Octet): Marks {
    Marks(b / 8, b / 4 % 2 == 1, b / 2 % 2 == 1, b % 2 == 1, c / 16)
  }

  datatype Taken = Taken(record: Record, first: bool, last: bool, rest: seq<Octet>)

  function Field(s: seq<Octet>, pos: nat, n: nat): nat
    requires pos + n <= |s|
  {
    Num(Motorola, s[pos..pos + n])
  }

  /** Takes one unchunked record of version 1 off the octets, if there is one. */
  function TakeRecord(s: seq<Octet>): (t: Option<Taken>)
    ensures t.Some? ==> |t.value.rest| < |s|
  {
    if |s| < 12 || MarksOf(s[0], s[1]).version != DIME_VERSION || MarksOf(s[0], s[1]).chunked then None
    else
      var marks := MarksOf(s[0], s[1]);
      match TakeBody(s, 12 + BytesNeeded(Field(s, 2, 2)), Field(s, 4, 2), Field(s, 6, 2), Field(s, 8, 4))
      case None => None
      case Some((id, typ, payload, rest)) =>
        Some(Taken(Record(id, typ, marks.typCode, payload), marks.first, marks.last, rest))
  }

  /** The three padded fields behind the header and its options. */
  function TakeBody(s: seq<Octet>, id: nat, idLen: nat, typLen: nat, dataLen: nat):
    (r: Option<(seq<Octet>, seq<Octet>, seq<Octet>, seq<Octet>)>)
    ensures r.Some? ==> |r.value.3| <= |s| - id
  {
    var typ := id + BytesNeeded(idLen);
    var data := typ + BytesNeeded(typLen);
    var end := data + BytesNeeded(dataLen);
    if end > |s| then None
    else Some((s[id..id + idLen], s[typ..typ + typLen], s[data..data + dataLen], s[end..]))
  }

  /** Takes records up to the one marked last; exactly the first must be marked first. */
  function TakeMessage(s: seq<Octet>, first: bool): Option<(seq<Record>, seq<Octet>)>
    decreases |s|
  {
    match TakeRecord(s)
    case None => None
    case Some(t) =>
      if t.first != first then None
      else if t.last then Some(([t.record], t.rest))
      else match TakeMessage(t.rest, false)
        case None => None
        case Some((rs, rest)) => Some(([t.record] + rs, rest))
  }

  /** A record as a reader sees it: the type code is written in four bits. */
  function Seen(r: Record): Record {
    r.(typCode := r.typCode % 16)
  }

  lemma HeaderReads(r: Record, first: bool, last: bool, rest: seq<Octet>)
    requires Fits(r)
    ensures var s := Header(r, first, last) + rest;
      Field(s, 2, 2) == 0 && Field(s, 4, 2) == |r.id| && Field(s, 6, 2) == |r.typ| && Field(s, 8, 4) == |r.payload|
  {
    hide Digits, Num;
    var s := Header(r, first, last) + rest;
    Pow256Values();
    assert s[4..6] == Digits(Motorola, |r.id|, 2) && s[6..8] == Digits(Motorola, |r.typ|, 2);
    assert s[8..12] == Digits(Motorola, |r.payload|, 4);
    DigitsRoundTrip(Motorola, |r.id|, 2);
    DigitsRoundTrip(Motorola, |r.typ|, 2);
    DigitsRoundTrip(Motorola, |r.payload|, 4);
    assert s[2..4] == [0, 0];
    NumZeros();
  }

  lemma NumZeros()
    ensures Num(Motorola, [0, 0]) == 0
  {
    assert [0, 0][..1] == [0];
    assert [0][..0] == [];
    assert Num(Motorola, [0]) == 0;
  }

  lemma BodyReadsBack(r: Record, first: bool, last: bool, rest: seq<Octet>)
    ensures TakeBody(RecordOctets(r, first, last) + rest, 12, |r.id|, |r.typ|, |r.payload|)
         == Some((r.id, r.typ, r.payload, rest))
  {
    hide Header, BytesNeeded, Padded;
    var id, typ, data := Padded(r.id), Padded(r.typ), Padded(r.payload);
    var s := RecordOctets(r, first, last) + rest;
    var a, b, c := 12 + |id|, 12 + |id| + |typ|, 12 + |id| + |typ| + |data|;
    assert s[12..a] == id && s[a..b] == typ && s[b..c] == data && s[c..] == rest;
    SubSlice(s, 12, a, 0, |r.id|);
    SubSlice(s, a, b, 0, |r.typ|);
    SubSlice(s, b, c, 0, |r.payload|);
  }

  lemma RecordReadsBack(r: Record, first: bool, last: bool, rest: seq<Octet>)
    requires Fits(r)
    ensures TakeRecord(RecordOctets(r, first, last) + rest) == Some(Taken(Seen(r), first, last, rest))
  {
    var h, tail := Header(r, first, last), Padded(r.id) + Padded(r.typ) + Padded(r.payload) + rest;
    var s := RecordOctets(r, first, last) + rest;
    FlagsAndType(r, first, last);
    HeaderReads(r, first, last, tail);
    BodyReadsBack(r, first, last, rest);
    hide Header, Padded, Field, BytesNeeded, RecordOctets, Fits, MarksOf, TakeBody;
    assert s == h + tail by {
      Regroup(r, first, last, rest);
    }
    assert s[0] == h[0] && s[1] == h[1];
    assert BytesNeeded(0) == 0 by {
      NoneNeeded();
    }
  }

  lemma NoneNeeded()
    ensures BytesNeeded(0) == 0
  {
  }

  lemma Regroup(r: Record, first: bool, last: bool, rest: seq<Octet>)
    ensures RecordOctets(r, first, last) + rest
         == Header(r, first, last) + (Padded(r.id) + Padded(r.typ) + Padded(r.payload) + rest)
  {
    hide Header, Padded;
  }

  lemma FlagsAndType(r: Record, first: bool, last: bool)
    ensures var h := Header(r, first, last);
      MarksOf(h[0], h[1]) == Marks(DIME_VERSION, first, last, false, r.typCode % 16)
  {
    hide Digits;
  }

  function SeenAll(rs: seq<Record>): (ss: seq<Record>)
    ensures |ss| == |rs| && forall i :: 0 <= i < |rs| ==> ss[i] == Seen(rs[i])
  {
    seq(|rs|, i requires 0 <= i < |rs| => Seen(rs[i]))
  }

  lemma {:induction false} TrailingReadsBack(rs: seq<Record>, n: nat, rest: seq<Octet>)
    requires n < |rs| && forall r :: r in rs ==> Fits(r)
    ensures TakeMessage(Trailing(rs, n) + rest, n == 0) == Some((SeenAll(rs[n..]), rest))
    decreases |rs| - n
  {
    hide TakeRecord, RecordOctets, Seen, Fits;
    var head := RecordOctets(rs[n], n == 0, n == |rs| - 1);
    assert Trailing(rs, n) + rest == head + (Trailing(rs, n + 1) + rest);
    RecordReadsBack(rs[n], n == 0, n == |rs| - 1, Trailing(rs, n + 1) + rest);
    if n == |rs| - 1 {
      assert Trailing(rs, n + 1) + rest == rest;
      assert SeenAll(rs[n..]) == [Seen(rs[n])];
    } else {
      TrailingReadsBack(rs, n + 1, rest);
      assert SeenAll(rs[n..]) == [Seen(rs[n])] + SeenAll(rs[n + 1..]);
    }
  }

  /** A non-empty message whose lengths fit is read back whole, whatever follows it: it marks its own end. */
  lemma MessageReadsBack(rs: seq<Record>, rest: seq<Octet>)
    requires rs != [] && forall r :: r in rs ==> Fits(r)
    ensures TakeMessage(Leading(rs, |rs|) + rest, true) == Some((SeenAll(rs), rest))
  {
    LeadingThenTrailing(rs, 0);
    assert [] + Trailing(rs, 0) == Trailing(rs, 0);
    TrailingReadsBack(rs, 0, rest);
    assert rs[0..] == rs;
  }

  /** Records start at multiples of four, and exactly the first and the last one are marked so. */
  lemma {:induction false} RecordStarts(rs: seq<Record>, i: nat)
    requires i < |rs|
    ensures var start, s := |Leading(rs, i)|, Leading(rs, |rs|);
      start % PAD_SIZE == 0 && start < |s| && s[start] == Flags(i == 0, i == |rs| - 1)
  {
    hide RecordOctets;
    LeadingThenTrailing(rs, i);
    LeadingAligned(rs, i);
    assert RecordOctets(rs[i], i == 0, i == |rs| - 1)[0] == Flags(i == 0, i == |rs| - 1) by {
      RecordFlags(rs[i], i == 0, i == |rs| - 1);
    }
  }

  lemma {:induction false} LeadingAligned(rs: seq<Record>, n: nat)
    requires n <= |rs|
    ensures |Leading(rs, n)| % PAD_SIZE == 0
  {
    hide RecordOctets;
    if n > 0 {
      LeadingAligned(rs, n - 1);
      RecordAligned(rs[n - 1], n == 1, n == |rs|);
    }
  }

  lemma RecordAligned(r: Record, first: bool, last: bool)
    ensures |RecordOctets(r, first, last)| % PAD_SIZE == 0
  {
    hide Header, Padded, BytesNeeded;
    var i, t, p := BytesNeeded(|r.id|), BytesNeeded(|r.typ|), BytesNeeded(|r.payload|);
    BytesNeededIsLeast(|r.id|, 0);
    BytesNeededIsLeast(|r.typ|, 0);
    BytesNeededIsLeast(|r.payload|, 0);
    assert |RecordOctets(r, first, last)| == 12 + i + t + p;
  }

  lemma RecordFlags(r: Record, first: bool, last: bool)
    ensures RecordOctets(r, first, last)[0] == Flags(first, last)
  {
  }
}
