/** The numbers, masks and fallback words of the file matching, spelled out. */
module MagicLaws {
  import opened Common
  import opened Octets
  import opened Magic

  // ---------------------------------------------------------------- numbers

  /** The number of a kind at an offset. */
  function NumberAt(k: Kind, machine: Machine, data: seq<Octet>, offset: nat): Option<int>
    requires IsNumeric(k)
  {
    Unpack(LayoutOf(k, machine).value, data, offset)
  }

  function Short(a: nat, b: nat): int {
    var n := 256 * a + b;
    if n < 32768 then n else n - 65536
  }

  function Long(a: nat, b: nat, c: nat, d: nat): int {
    var n := 16777216 * a + 65536 * b + 256 * c + d;
    if n < 2147483648 then n else n - 4294967296
  }

  /** The two shorts with a named byte order, and the native one; only the one with the high octet first is unsigned. */
  lemma ShortsAre(machine: Machine, data: seq<Octet>, offset: nat)
    ensures offset + 2 > |data| ==>
              forall k | k in {Kind.Short, LeShort, BeShort} :: NumberAt(k, machine, data, offset) == None
    ensures offset + 2 <= |data| ==>
              var a: nat, b: nat := data[offset], data[offset + 1];
              && NumberAt(LeShort, machine, data, offset) == Some(Short(b, a))
              && NumberAt(BeShort, machine, data, offset) == Some(256 * a + b)
              && NumberAt(Kind.Short, machine, data, offset)
                 == Some(if machine.endian.Intel? then Short(b, a) else Short(a, b))
  {
    hide Num;
    Pow256Values();
    if offset + 2 <= |data| {
      var a, b := data[offset], data[offset + 1];
      assert Read(data, offset, 2) == [a, b];
      TwoOctets(a, b);
    }
  }

  /** Longs are signed; a native one is never read where it has eight octets. */
  lemma LongsAre(machine: Machine, data: seq<Octet>, offset: nat)
    ensures offset + 4 > |data| ==>
              forall k | k in {Kind.Long, LeLong, BeLong} :: NumberAt(k, machine, data, offset) == None
    ensures machine.longOfEight ==> NumberAt(Kind.Long, machine, data, offset) == None
    ensures offset + 4 <= |data| ==>
              var a: nat, b: nat, c: nat, d: nat := data[offset], data[offset + 1], data[offset + 2], data[offset + 3];
              && NumberAt(LeLong, machine, data, offset) == Some(Long(d, c, b, a))
              && NumberAt(BeLong, machine, data, offset) == Some(Long(a, b, c, d))
              && (!machine.longOfEight ==>
                    NumberAt(Kind.Long, machine, data, offset)
                    == Some(if machine.endian.Intel? then Long(d, c, b, a) else Long(a, b, c, d)))
  {
    hide Num;
    Pow256Values();
    if offset + 4 <= |data| {
      var a, b, c, d := data[offset], data[offset + 1], data[offset + 2], data[offset + 3];
      assert Read(data, offset, 4) == [a, b, c, d];
      FourOctets(a, b, c, d);
    }
  }

  // ---------------------------------------------------------------- masks

  /** Bit n of a number, a negative one being extended with ones for ever. */
  function Bit(a: int, n: nat): nat { a / Pow2(n) % 2 }

  lemma {:induction false} HalfFirst(a: int, n: nat)
    ensures Bit(a, n + 1) == Bit(a / 2, n)
  {
    var p := Pow2(n);
    assert Pow2(n + 1) == 2 * p;
    Halved(a, p);
  }

  lemma Halved(a: int, p: nat)
    requires p > 0
    ensures a / (2 * p) == a / 2 / p
  {
    var h := a / 2;
    var q, r := h / p, h % p;
    var rest := 2 * r + a % 2;
    assert h == p * q + r;
    assert a == 2 * h + a % 2;
    assert a == 2 * (p * q) + rest;
    assert a == (2 * p) * q + rest by {
      assert 2 * (p * q) == (2 * p) * q;
    }
    assert rest < 2 * p;
    QuotientIs(a, 2 * p, q, rest);
  }

  lemma QuotientIs(a: int, d: int, q: int, r: int)
    requires 0 <= r < d && a == d * q + r
    ensures a / d == q
  {
    var p := a / d;
    assert a == d * p + a % d;
    assert d * (p - q) == r - a % d;
    NoMultiple(d, p - q);
  }

  lemma NoMultiple(d: int, k: int)
    requires d > 0
    ensures -d < d * k < d ==> k == 0
  {
    if k >= 1 {
      assert d * k == d + d * (k - 1);
    } else if k <= -1 {
      assert d * k == -d + d * (k + 1);
    }
  }

  /** A masked number has the bits that both have. */
  lemma {:induction false} MaskedBits(a: int, m: nat, n: nat)
    ensures Bit(And(a, m), n) == if Bit(a, n) == 1 && Bit(m, n) == 1 then 1 else 0
    decreases n
  {
    if m == 0 {
      NoBits(n);
    } else if n == 0 {
      assert Pow2(0) == 1;
      FirstBit(a, m);
    } else {
      HalfFirst(a, n - 1);
      HalfFirst(m, n - 1);
      HalfFirst(And(a, m), n - 1);
      FirstBit(a, m);
      MaskedBits(a / 2, m / 2, n - 1);
    }
  }

  lemma FirstBit(a: int, m: nat)
    requires m > 0
    ensures And(a, m) % 2 == (if a % 2 == 1 && m % 2 == 1 then 1 else 0) && And(a, m) / 2 == And(a / 2, m / 2)
  {
    hide And;
    AndUnfolds(a, m);
    LowestBit(if a % 2 == 1 && m % 2 == 1 then 1 else 0, And(a / 2, m / 2));
  }

  lemma AndUnfolds(a: int, m: nat)
    requires m > 0
    ensures And(a, m) == (if a % 2 == 1 && m % 2 == 1 then 1 else 0) + 2 * And(a / 2, m / 2)
  {
    BitProduct(a % 2, m % 2);
  }

  lemma BitProduct(x: nat, y: nat)
    requires x < 2 && y < 2
    ensures x * y == if x == 1 && y == 1 then 1 else 0
  {
  }

  lemma NoBits(n: nat)
    ensures Bit(0, n) == 0
  {
    QuotientIs(0, Pow2(n), 0, 0);
  }

  /**
   A numeric row gives its label exactly when its octets are there and their number, masked if the row has a mask, is
   the value of the row; otherwise it has no answer. Rows compare for equality only.
   */
  lemma NumericVerdict(machine: Machine, row: Row, data: seq<Octet>)
    requires IsNumeric(row.kind)
    ensures Verdict(machine, row, data) == Label(row.msg) || Verdict(machine, row, data) == NoMatch
    ensures Verdict(machine, row, data) == Label(row.msg) <==>
              var n := NumberAt(row.kind, machine, data, row.offset);
              row.op == '=' && n.Some? && row.value == Number(if row.mask == 0 then n.value else And(n.value, row.mask))
  {
    hide Unpack, And;
  }

  /**
   A mask on anything but a number is a type error, unless the value of a text row has no length; a row of no known kind
   compares its value with all the data.
   */
  lemma OtherVerdicts(machine: Machine, row: Row, data: seq<Octet>)
    ensures row.kind == OtherKind ==>
              Verdict(machine, row, data)
              == if row.mask != 0 then TypeError
                 else if row.op == '=' && row.value == Bytes(data) then Label(row.msg) else NoMatch
    ensures row.kind == StringKind && row.value.Number? ==> Verdict(machine, row, data) == NoMatch
    ensures row.kind == StringKind && !row.value.Number? && row.mask != 0 ==> Verdict(machine, row, data) == TypeError
  {
  }

  /** A row decides if comparing with it fails or gives a label that is not empty. */
  lemma DecidesIff(machine: Machine, row: Row, data: seq<Octet>)
    ensures Decides(machine, row, data) <==>
              Verdict(machine, row, data) != NoMatch && Verdict(machine, row, data) != Label("")
  {
    hide Verdict;
  }

  // ---------------------------------------------------------------- unrecognised data

  /** The text stands in the first `end` octets of the data. */
  ghost predicate Mentions(data: seq<Octet>, text: string, end: nat) {
    exists i :: StandsAt(data, text, end, i)
  }

  predicate StandsAt(data: seq<Octet>, text: string, end: nat, i: nat) {
    && i + |text| <= end && i + |text| <= |data|
    && forall j :: 0 <= j < |text| ==> data[i + j] == text[j] as int
  }

  lemma MentionsIs(data: seq<Octet>, text: string, sub: seq<Octet>, end: nat)
    requires |sub| == |text| && forall j :: 0 <= j < |sub| ==> sub[j] == text[j] as int
    ensures Mentions(data, text, end) <==> Contains(data, sub, end)
  {
    if Mentions(data, text, end) {
      var i: nat :| StandsAt(data, text, end, i);
      assert data[i..i + |sub|] == sub;
      assert OccursAt(data, sub, end, i);
    }
    if Contains(data, sub, end) {
      var i: nat :| OccursAt(data, sub, end, i);
      forall j | 0 <= j < |sub|
        ensures data[i + j] == sub[j]
      {
        assert data[i..i + |sub|][j] == sub[j];
      }
      assert StandsAt(data, text, end, i);
    }
  }

  /** Data no row decides on: with a zero octet it is data; else four words tell what it is, three of them early on. */
  lemma FallbackIs(data: seq<Octet>)
    ensures Fallback(data)
         == if 0 in data then "data"
            else if Mentions(data, "#include", 256) || Mentions(data, "/***", 256) then "text/cpp"
            else if Mentions(data, "!/usr/bin/env python", 256) || Mentions(data, "def ", 8192) then
              "application/x-python"
            else "text/plain"
  {
    hide Mentions, Contains;
    MentionsIs(data, "#include", INCLUSION, 256);
    MentionsIs(data, "/***", STARS, 256);
    MentionsIs(data, "!/usr/bin/env python", SHEBANG, 256);
    MentionsIs(data, "def ", DEFINITION, 8192);
  }
}
