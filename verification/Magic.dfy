/** Matching a file's first octets against the table of magic numbers. */
module Magic {
  import opened Common
  import opened Octets

  datatype Kind = StringKind | Short | LeShort | BeShort | Long | LeLong | BeLong | OtherKind

  /** A row's value: octets, a character string (which equals no octets) or a number. */
  datatype Value = Bytes(bytes: seq<Octet>) | Chars(chars: string) | Number(number: int)

  datatype Row = Row(offset: nat, kind: Kind, op: char, value: Value, msg: string, mask: nat)

  /** Native byte order and size of a C long. */
  datatype Machine = Machine(endian: Endian, longOfEight: bool)

  datatype Outcome = NoMatch | Label(msg: string) | TypeError

  // ---------------------------------------------------------------- numbers

  /** `a & m`, negative numbers being infinitely sign extended. */
  function And(a: int, m: nat): (r: nat)
    ensures r <= m
    decreases m
  {
    if m == 0 then 0 else a % 2 * (m % 2) + 2 * And(a / 2, m / 2)
  }

  /** How `struct.unpack` lays out a kind of number: byte order, octets read, octets wanted, signed. */
  datatype Layout = Layout(endian: Endian, read: nat, wanted: nat, signed: bool)

  function LayoutOf(k: Kind, machine: Machine): Option<Layout> {
    match k
    case Short => Some(Layout(machine.endian, 2, 2, true))
    case LeShort => Some(Layout(Intel, 2, 2, true))
    case BeShort => Some(Layout(Motorola, 2, 2, false))
    case Long => Some(Layout(machine.endian, 4, if machine.longOfEight then 8 else 4, true))
    case LeLong => Some(Layout(Intel, 4, 4, true))
    case BeLong => Some(Layout(Motorola, 4, 4, true))
    case _ => None
  }

  function Signed(v: nat, modulus: nat): int {
    if 2 * v < modulus then v else v - modulus
  }

  function Unpack(l: Layout, data: seq<Octet>, offset: nat): Option<int> {
    var s := Read(data, offset, l.read);
    if |s| != l.wanted then None
    else
      var v := Num(l.endian, s);
      Some(if l.signed then Signed(v, Pow256(l.wanted)) else v)
  }

  // ---------------------------------------------------------------- one row

  /** `test`: a mask on anything but a number is a type error. */
  function TestNumber(row: Row, v: int): Outcome {
    var masked := if row.mask != 0 then And(v, row.mask) else v;
    if row.op == '=' && row.value == Number(masked) then Label(row.msg) else NoMatch
  }

  function TestBytes(row: Row, s: seq<Octet>): Outcome {
    if row.mask != 0 then TypeError
    else if row.op == '=' && row.value == Bytes(s) then Label(row.msg)
    else NoMatch
  }

  /** The octets a string row is compared with: one octet more than its value must be there. */
  function Lagging(data: seq<Octet>, offset: nat, n: nat): (s: seq<Octet>)
    ensures |s| <= n
  {
    if offset + n < |data| then data[offset..offset + n]
    else if offset < |data| then data[offset..|data| - 1]
    else []
  }

  function Verdict(machine: Machine, row: Row, data: seq<Octet>): Outcome {
    match row.kind
    case StringKind =>
      (match row.value
       case Bytes(b) => TestBytes(row, Lagging(data, row.offset, |b|))
       case Chars(c) => TestBytes(row, Lagging(data, row.offset, |c|))
       case Number(_) => NoMatch)
    case OtherKind => TestBytes(row, data)
    case _ =>
      match Unpack(LayoutOf(row.kind, machine).value, data, row.offset)
      case None => NoMatch
      case Some(v) => TestNumber(row, v)
  }

  /** The loop of a string row: each turn appends the octet of the turn before. */
  method ReadText(data: seq<Octet>, offset: nat, n: nat) returns (s: seq<Octet>)
    ensures s == Lagging(data, offset, n)
  {
    var c: seq<Octet> := [];
    s := [];
    for i := 0 to n + 1
      invariant i == 0 ==> s == c == []
      invariant i > 0 ==> offset + i <= |data|
      invariant i > 0 ==> s == data[offset..offset + i - 1] && c == data[offset + i - 1..offset + i]
    {
      if i + offset > |data| - 1 {
        break;
      }
      s := s + c;
      c := data[offset + i..offset + i + 1];
    }
  }

  method Compare(machine: Machine, row: Row, data: seq<Octet>) returns (r: Outcome)
    ensures r == Verdict(machine, row, data)
  {
    match row.kind {
      case StringKind =>
        if row.value.Number? {
          return NoMatch;
        }
        var s := ReadText(data, row.offset, if row.value.Bytes? then |row.value.bytes| else |row.value.chars|);
        return TestBytes(row, s);
      case OtherKind =>
        return TestBytes(row, data);
      case _ =>
        var v := Unpack(LayoutOf(row.kind, machine).value, data, row.offset);
        return if v.None? then NoMatch else TestNumber(row, v.value);
    }
  }

  /** An unmasked string row accepts exactly when its octets are there and at least one more follows. */
  lemma StringRowAccepts(machine: Machine, row: Row, data: seq<Octet>)
    requires row.kind == StringKind && row.op == '=' && row.mask == 0 && row.value.Bytes? && row.value.bytes != []
    ensures var n := |row.value.bytes|;
      Verdict(machine, row, data) == Label(row.msg)
      <==> row.offset + n < |data| && data[row.offset..row.offset + n] == row.value.bytes
  {
    assert |Lagging(data, row.offset, |row.value.bytes|)| == |row.value.bytes|
        ==> row.offset + |row.value.bytes| < |data|;
  }

  // ---------------------------------------------------------------- rows that can match

  predicate InRange(l: Layout, v: int) {
    var modulus: int := Pow256(l.wanted);
    if l.signed then -modulus <= 2 * v < modulus else 0 <= v < modulus
  }

  /** Octets at which a layout reads v. */
  function Sample(l: Layout, v: int, offset: nat): seq<Octet>
    requires InRange(l, v)
  {
    var u := if v < 0 then v + Pow256(l.wanted) else v;
    seq(offset, _ => 0) + Digits(l.endian, u, l.wanted)
  }

  lemma Modulus(n: nat)
    requires n > 0
    ensures Pow256(n) % 2 == 0
  {
    assert Pow256(n) == 256 * Pow256(n - 1);
  }

  lemma SampleReads(l: Layout, v: int, offset: nat)
    requires l.read == l.wanted > 0 && InRange(l, v)
    ensures Unpack(l, Sample(l, v, offset), offset) == Some(v)
  {
    hide Num, Digits;
    var u := if v < 0 then v + Pow256(l.wanted) else v;
    assert Read(Sample(l, v, offset), offset, l.read) == Digits(l.endian, u, l.wanted);
    DigitsRoundTrip(l.endian, u, l.wanted);
    Modulus(l.wanted);
  }

  lemma UnpackInRange(l: Layout, data: seq<Octet>, offset: nat)
    requires l.wanted > 0
    ensures Unpack(l, data, offset).Some? ==> l.read >= l.wanted && InRange(l, Unpack(l, data, offset).value)
  {
    NumDigits(l.endian, Read(data, offset, l.read));
    Modulus(l.wanted);
  }

  ghost predicate CanMatch(machine: Machine, row: Row) {
    exists data :: Verdict(machine, row, data) == Label(row.msg)
  }

  predicate IsNumeric(k: Kind) {
    k != StringKind && k != OtherKind
  }

  /** A native long is read as four octets, so it unpacks only where a long has four. */
  predicate ReadInFull(machine: Machine, k: Kind) {
    k == Long ==> !machine.longOfEight
  }

  /**
   A numeric row can match exactly when its kind is read in full and its value is one that kind can have: rows whose
   value was written down unsigned for a signed kind are dead, and so are native long rows where a long has eight
   octets.
   */
  lemma NumericRowCanMatchIff(machine: Machine, row: Row)
    requires IsNumeric(row.kind) && row.op == '=' && row.value.Number? && row.mask == 0
    ensures CanMatch(machine, row)
        <==> ReadInFull(machine, row.kind) && InRange(LayoutOf(row.kind, machine).value, row.value.number)
  {
    hide Unpack, InRange;
    var l := LayoutOf(row.kind, machine).value;
    if l.read == l.wanted && InRange(l, row.value.number) {
      SampleReads(l, row.value.number, row.offset);
      assert Verdict(machine, row, Sample(l, row.value.number, row.offset)) == Label(row.msg);
    }
    forall data | Verdict(machine, row, data) == Label(row.msg)
      ensures InRange(l, row.value.number) && ReadInFull(machine, row.kind)
    {
      UnpackInRange(l, data, row.offset);
    }
  }

  /** A row of the table whose unsigned value no signed short has: it never matches, on any machine. */
  lemma DeadRow(machine: Machine)
    ensures !CanMatch(machine, Row(4, LeShort, '=', Number(44817), "video/fli", 0))
  {
    var row := Row(4, LeShort, '=', Number(44817), "video/fli", 0);
    NumericRowCanMatchIff(machine, row);
    Pow256Values();
  }

  function Pow2(n: nat): (p: nat)
    ensures p > 0
  {
    if n == 0 then 1 else 2 * Pow2(n - 1)
  }

  /** A mask of n bits does not see what is added above them. */
  lemma {:induction false} AndWraps(a: int, m: nat, n: nat)
    requires m < Pow2(n)
    ensures And(a + Pow2(n), m) == And(a, m)
    decreases n
  {
    if m > 0 {
      AndWraps(a / 2, m / 2, n - 1);
      assert (a + 2 * Pow2(n - 1)) / 2 == a / 2 + Pow2(n - 1);
    }
  }

  lemma {:induction false} AndTwice(a: int, m: nat)
    ensures And(And(a, m), m) == And(a, m)
    decreases m
  {
    if m > 0 {
      AndTwice(a / 2, m / 2);
      var high := And(a / 2, m / 2);
      if a % 2 == 1 && m % 2 == 1 {
        LowestBit(1, high);
        assert And(a, m) == 1 + 2 * high;
      } else {
        LowestBit(0, high);
        assert And(a, m) == 2 * high;
      }
    }
  }

  lemma LowestBit(low: nat, high: nat)
    requires low < 2
    ensures (low + 2 * high) / 2 == high && (low + 2 * high) % 2 == low
  {
  }

  lemma OctetsOfBits()
    ensures Pow256(2) == Pow2(16) && Pow256(4) == Pow2(32)
  {
    Pow256Values();
    assert Pow2(4) == 16;
    assert Pow2(8) == 256;
    assert Pow2(12) == 4096;
    assert Pow2(16) == 65536;
    assert Pow2(20) == 16 * Pow2(16);
    assert Pow2(24) == 16 * Pow2(20);
    assert Pow2(28) == 16 * Pow2(24);
    assert Pow2(32) == 16 * Pow2(28);
  }

  /** A masked row can match exactly when its value has no bit outside the mask; the sign no longer matters. */
  lemma MaskedRowCanMatchIff(machine: Machine, row: Row)
    requires IsNumeric(row.kind) && row.op == '=' && row.value.Number?
    requires 0 < row.mask < Pow256(LayoutOf(row.kind, machine).value.read)
    ensures CanMatch(machine, row)
        <==> ReadInFull(machine, row.kind) && And(row.value.number, row.mask) == row.value.number
  {
    hide Unpack, And, Pow256, Pow2;
    var l, v, m := LayoutOf(row.kind, machine).value, row.value.number, row.mask;
    if l.read == l.wanted && And(v, m) == v {
      var d := if InRange(l, v) then v else v - Pow256(l.wanted);
      OctetsOfBits();
      AndWraps(v - Pow256(l.wanted), m, 8 * l.wanted);
      SampleReads(l, d, row.offset);
      assert Verdict(machine, row, Sample(l, d, row.offset)) == Label(row.msg);
    }
    forall data | Verdict(machine, row, data) == Label(row.msg)
      ensures And(v, m) == v && ReadInFull(machine, row.kind)
    {
      UnpackInRange(l, data, row.offset);
      AndTwice(Unpack(l, data, row.offset).value, m);
    }
  }

  /** A string row can match exactly when its value is octets and it has no mask; character strings are dead. */
  lemma StringRowCanMatchIff(machine: Machine, row: Row)
    requires row.kind == StringKind && row.op == '='
    ensures CanMatch(machine, row) <==> row.value.Bytes? && row.mask == 0
  {
    if row.value.Bytes? && row.mask == 0 {
      var zeros: seq<Octet> := seq(row.offset, _ => 0);
      var data := zeros + row.value.bytes + [0];
      assert Lagging(data, row.offset, |row.value.bytes|) == row.value.bytes;
      assert Verdict(machine, row, data) == Label(row.msg);
    }
  }

  // ---------------------------------------------------------------- the whole table

  // The octets of: #include, slash and three stars, !/usr/bin/env python, def and a blank.
  const INCLUSION: seq<Octet> := [35, 105, 110, 99, 108, 117, 100, 101]
  const STARS: seq<Octet> := [47, 42, 42, 42]
  const SHEBANG: seq<Octet> :=
    [33, 47, 117, 115, 114, 47, 98, 105, 110, 47, 101, 110, 118, 32, 112, 121, 116, 104, 111, 110]
  const DEFINITION: seq<Octet> := [100, 101, 102, 32]

  /** `data.find(sub, 0, end) > -1`. */
  ghost predicate Contains(data: seq<Octet>, sub: seq<Octet>, end: nat) {
    exists i :: OccursAt(data, sub, end, i)
  }

  predicate OccursAt(data: seq<Octet>, sub: seq<Octet>, end: nat, i: nat) {
    i + |sub| <= end && i + |sub| <= |data| && data[i..i + |sub|] == sub
  }

  method Find(data: seq<Octet>, sub: seq<Octet>, end: nat) returns (found: bool)
    ensures found <==> Contains(data, sub, end)
  {
    var i := 0;
    while i + |sub| <= Min(end, |data|)
      invariant forall j: nat :: j < i ==> !OccursAt(data, sub, end, j)
      decreases |data| - i
    {
      if data[i..i + |sub|] == sub {
        assert OccursAt(data, sub, end, i);
        return true;
      }
      i := i + 1;
    }
    return false;
  }

  /** The verdict on data no row recognizes. */
  ghost function Fallback(data: seq<Octet>): string {
    if 0 in data then "data"
    else if Contains(data, INCLUSION, 256) || Contains(data, STARS, 256) then "text/cpp"
    else if Contains(data, SHEBANG, 256) || Contains(data, DEFINITION, 8192) then
      "application/x-python"
    else "text/plain"
  }

  /** A row that decides the matter: it has a label to give, or comparing with it fails. */
  predicate Decides(machine: Machine, row: Row, data: seq<Octet>) {
    match Verdict(machine, row, data)
    case NoMatch => false
    case Label(msg) => msg != ""
    case TypeError => true
  }

  predicate FirstToDecide(machine: Machine, rows: seq<Row>, data: seq<Octet>, i: nat) {
    && i < |rows| && Decides(machine, rows[i], data)
    && forall j :: 0 <= j < i ==> !Decides(machine, rows[j], data)
  }

  method WhatIs(machine: Machine, rows: seq<Row>, data: seq<Octet>) returns (r: Outcome)
    ensures (forall row :: row in rows ==> !Decides(machine, row, data)) ==> r == Label(Fallback(data))
    ensures forall i: nat :: FirstToDecide(machine, rows, data, i) ==> r == Verdict(machine, rows[i], data)
  {
    hide Verdict, Contains;
    for i := 0 to |rows|
      invariant forall j :: 0 <= j < i ==> !Decides(machine, rows[j], data)
    {
      r := Compare(machine, rows[i], data);
      if r == TypeError || (r.Label? && r.msg != "") {
        assert rows[i] in rows && Decides(machine, rows[i], data);
        return;
      }
    }
    var zero := FindZero(data);
    if zero {
      return Label("data");
    }
    var inclusion := Find(data, INCLUSION, 256);
    var stars := Find(data, STARS, 256);
    if inclusion || stars {
      return Label("text/cpp");
    }
    var shebang := Find(data, SHEBANG, 256);
    var definition := Find(data, DEFINITION, 8192);
    if shebang || definition {
      return Label("application/x-python");
    }
    return Label("text/plain");
  }

  method FindZero(data: seq<Octet>) returns (found: bool)
    ensures found <==> 0 in data
  {
    for i := 0 to |data|
      invariant 0 !in data[..i]
    {
      if data[i] == 0 {
        return true;
      }
    }
    return false;
  }
}
