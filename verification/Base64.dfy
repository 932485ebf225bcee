/** The base64 content transfer encoding, section 6.8 of RFC 2045, on byte strings. */
module Base64 {
  import opened Common

  /** A byte string: every character has a code below 256. */
  predicate Bytes(s: string) {
    forall i | 0 <= i < |s| :: s[i] as int < 256
  }

  type Sextet = n: int | 0 <= n < 64

  function Char(n: Sextet): (c: char)
    ensures Code(c) == Some(n)
  {
    if n < 26 then (n + 65) as char
    else if n < 52 then (n + 71) as char
    else if n < 62 then (n - 4) as char
    else if n == 62 then '+' else '/'
  }

  /** Value of a character of the alphabet. */
  function Code(c: char): Option<Sextet> {
    if 'A' <= c <= 'Z' then Some(c as int - 65)
    else if 'a' <= c <= 'z' then Some(c as int - 71)
    else if '0' <= c <= '9' then Some(c as int + 4)
    else if c == '+' then Some(62)
    else if c == '/' then Some(63)
    else None
  }

  function Four(a: int, b: int, c: int, d: int): (s: string)
    requires 0 <= a < 64 && 0 <= b < 64 && 0 <= c < 64 && 0 <= d < 64
    ensures |s| == 4
  {
    [Char(a), Char(b), Char(c), Char(d)]
  }

  /** Three octets packed in four sextets, and back. */
  function First(p: int, q: int): int { p * 4 + q / 16 }
  function Second(q: int, r: int): int { q % 16 * 16 + r / 4 }
  function Third(r: int, t: int): int { r % 4 * 64 + t }

  function Encode(s: string): string
    requires Bytes(s)
  {
    if s == "" then ""
    else
      var a := s[0] as int;
      if |s| == 1 then [Char(a / 4), Char(a % 4 * 16), '=', '=']
      else
        var b := s[1] as int;
        if |s| == 2 then [Char(a / 4), Char(a % 4 * 16 + b / 16), Char(b % 16 * 4), '=']
        else
          var c := s[2] as int;
          Four(a / 4, a % 4 * 16 + b / 16, b % 16 * 4 + c / 64, c % 64) + Encode(s[3..])
  }

  /**
   The values of the characters up to the padding that completes a group of four, and whether there is one; `quad`
   counts the characters of the group, `pads` the padding after them. Padding that comes too early and characters
   outside the alphabet are skipped.
   */
  function Sextets(s: string, quad: nat, pads: nat): (r: (seq<Sextet>, bool)) {
    if s == "" then ([], false)
    else if s[0] == '=' then
      if quad < 2 then Sextets(s[1..], quad, pads)
      else if quad + pads + 1 >= 4 then ([], true)
      else Sextets(s[1..], quad, pads + 1)
    else match Code(s[0])
      case None => Sextets(s[1..], quad, pads)
      case Some(n) => var r := Sextets(s[1..], (quad + 1) % 4, 0); ([n] + r.0, r.1)
  }

  function Join(x: seq<Sextet>, padded: bool): Option<string> {
    if x == [] then Some("")
    else if |x| == 1 || (|x| < 4 && !padded) then None
    else
      var a := First(x[0], x[1]) as char;
      if |x| == 2 then Some([a])
      else
        var b := Second(x[1], x[2]) as char;
        if |x| == 3 then Some([a, b])
        else
          var c := Third(x[2], x[3]) as char;
          match Join(x[4..], padded)
          case None => None
          case Some(rest) => Some([a, b, c] + rest)
  }

  function Decode(s: string): Option<string> {
    var r := Sextets(s, 0, 0);
    Join(r.0, r.1)
  }

  // ---------------------------------------------------------------- round trip

  lemma SextetsCons(c: Sextet, s: string, quad: nat)
    ensures var r := Sextets(s, (quad + 1) % 4, 0); Sextets([Char(c)] + s, quad, 0) == ([c] + r.0, r.1)
  {
    assert ([Char(c)] + s)[1..] == s;
  }

  lemma SextetsOfFour(a: Sextet, b: Sextet, c: Sextet, d: Sextet, s: string)
    ensures var r := Sextets(s, 0, 0); Sextets(Four(a, b, c, d) + s, 0, 0) == ([a, b, c, d] + r.0, r.1)
  {
    hide Char, Sextets;
    SextetsCons(d, s, 3);
    SextetsCons(c, [Char(d)] + s, 2);
    SextetsCons(b, [Char(c)] + ([Char(d)] + s), 1);
    SextetsCons(a, [Char(b)] + ([Char(c)] + ([Char(d)] + s)), 0);
    assert Four(a, b, c, d) + s == [Char(a)] + ([Char(b)] + ([Char(c)] + ([Char(d)] + s)));
    var r := Sextets(s, 0, 0).0;
    assert [a] + ([b] + ([c] + ([d] + r))) == [a, b, c, d] + r;
  }

  lemma SextetsPadded(a: Sextet, b: Sextet, c: Sextet)
    ensures Sextets([Char(a), Char(b), '=', '='], 0, 0) == ([a, b], true)
    ensures Sextets([Char(a), Char(b), Char(c), '='], 0, 0) == ([a, b, c], true)
  {
    hide Char;
    assert ['=', '='][1..] == ['='];
    assert Sextets(['='], 3, 0) == ([], true) && Sextets(['='], 2, 1) == ([], true);
    assert Sextets(['=', '='], 2, 0) == ([], true);
    hide Sextets;
    SextetsCons(b, ['=', '='], 1);
    SextetsCons(a, [Char(b)] + ['=', '='], 0);
    assert [Char(a), Char(b), '=', '='] == [Char(a)] + ([Char(b)] + ['=', '=']);
    SextetsCons(c, ['='], 2);
    SextetsCons(b, [Char(c)] + ['='], 1);
    SextetsCons(a, [Char(b)] + ([Char(c)] + ['=']), 0);
    assert [Char(a), Char(b), Char(c), '='] == [Char(a)] + ([Char(b)] + ([Char(c)] + ['=']));
    assert [a] + ([b] + []) == [a, b] && [a] + ([b] + ([c] + [])) == [a, b, c];
  }

  lemma Unpack(a: int, b: int, c: int)
    requires 0 <= a < 256 && 0 <= b < 256 && 0 <= c < 256
    ensures First(a / 4, a % 4 * 16 + b / 16) == a
    ensures Second(a % 4 * 16 + b / 16, b % 16 * 4 + c / 64) == b
    ensures Third(b % 16 * 4 + c / 64, c % 64) == c
  {
  }

  lemma JoinFour(w: Sextet, x: Sextet, y: Sextet, z: Sextet, t: seq<Sextet>, padded: bool, rest: string)
    requires Join(t, padded) == Some(rest)
    requires First(w, x) < 256 && Second(x, y) < 256 && Third(y, z) < 256
    ensures Join([w, x, y, z] + t, padded)
         == Some([First(w, x) as char, Second(x, y) as char, Third(y, z) as char] + rest)
  {
    hide First, Second, Third;
    var s := [w, x, y, z] + t;
    assert s[4..] == t;
  }

  lemma {:induction false} DecodeEncoded(s: string)
    requires Bytes(s)
    ensures Decode(Encode(s)) == Some(s)
    decreases |s|
  {
    hide Code, Char, First, Second, Third, Four, Sextets, Encode, Join;
    if |s| < 3 {
      DecodeLast(s);
    } else {
      var a, b, c := s[0] as int, s[1] as int, s[2] as int;
      var w, x, y, z := a / 4, a % 4 * 16 + b / 16, b % 16 * 4 + c / 64, c % 64;
      EncodeThree(s);
      Unpack(a, b, c);
      DecodeEncoded(s[3..]);
      SextetsOfFour(w, x, y, z, Encode(s[3..]));
      var r := Sextets(Encode(s[3..]), 0, 0);
      JoinFour(w, x, y, z, r.0, r.1, s[3..]);
      assert s == [a as char, b as char, c as char] + s[3..];
    }
  }

  lemma DecodeLast(s: string)
    requires Bytes(s) && |s| < 3
    ensures Decode(Encode(s)) == Some(s)
  {
    hide Bytes, Encode, Decode;
    if s == "" {
      NothingDecoded();
    } else if |s| == 1 {
      DecodeOne(s);
    } else {
      DecodeTwo(s);
    }
  }

  lemma DecodeOne(s: string)
    requires Bytes(s) && |s| == 1
    ensures Decode(Encode(s)) == Some(s)
  {
    hide Char, Sextets, Code;
    var a := s[0] as int;
    SextetsPadded(a / 4, a % 4 * 16, 0);
    Unpack(a, 0, 0);
    assert s == [a as char];
  }

  lemma DecodeTwo(s: string)
    requires Bytes(s) && |s| == 2
    ensures Decode(Encode(s)) == Some(s)
  {
    hide Char, Sextets, Code, First, Second;
    var a, b := s[0] as int, s[1] as int;
    SextetsPadded(a / 4, a % 4 * 16 + b / 16, b % 16 * 4);
    Unpack(a, b, 0);
    assert s == [a as char, b as char];
  }

  lemma NothingDecoded()
    ensures Decode(Encode("")) == Some("")
  {
  }

  lemma EncodeThree(s: string)
    requires Bytes(s) && |s| >= 3
    ensures var a, b, c := s[0] as int, s[1] as int, s[2] as int;
            Encode(s) == Four(a / 4, a % 4 * 16 + b / 16, b % 16 * 4 + c / 64, c % 64) + Encode(s[3..])
  {
  }

  /** What is encoded: characters of the alphabet and padding, none of them a space, CR or LF. */
  lemma {:induction false} EncodeChars(s: string)
    requires Bytes(s)
    ensures forall i :: 0 <= i < |Encode(s)| ==> Encode(s)[i] == '=' || Code(Encode(s)[i]).Some?
    ensures |s| % 3 != 0 ==> '=' in Encode(s)
    decreases |s|
  {
    hide Code, Char;
    if |s| == 1 {
      assert Encode(s)[2] == '=';
    } else if |s| == 2 {
      assert Encode(s)[3] == '=';
    } else if |s| > 2 {
      var e := Encode(s);
      EncodeChars(s[3..]);
      assert e[4..] == Encode(s[3..]);
      assert forall i :: 4 <= i < |e| ==> e[i] == e[4..][i - 4];
    }
  }

  /** Decoding what was encoded, with the blank a writer puts before it. */
  lemma DecodeEncode(s: string)
    requires Bytes(s)
    ensures Decode(" " + Encode(s)) == Some(s)
  {
    hide Encode, Join;
    assert (" " + Encode(s))[1..] == Encode(s);
    DecodeEncoded(s);
  }

  /** Padding that comes too early is skipped, as the library does. */
  lemma EarlyPadding()
    ensures Decode("=TQ==") == Some("M") && Decode("TQ=") == None
  {
    hide Join;
    SextetsPadded(19, 16, 0);
    assert "TQ==" == [Char(19), Char(16), '=', '='] && "=TQ=="[1..] == "TQ==";
    assert Sextets("=TQ==", 0, 0) == ([19, 16], true);
    assert "="[1..] == "" && Sextets("=", 2, 0) == ([], false);
    hide Sextets;
    SextetsCons(16, "=", 1);
    SextetsCons(19, [Char(16)] + "=", 0);
    assert "TQ=" == [Char(19)] + ([Char(16)] + "=") && [19] + ([16] + []) == [19, 16];
    JoinTwo();
  }

  lemma JoinTwo()
    ensures Join([19, 16], true) == Some("M") && Join([19, 16], false) == None
  {
  }

  // ---------------------------------------------------------------- RFC 2045, section 6.8

  /** The alphabet: capitals, small letters, digits, plus and slash, in this order. */
  lemma AlphabetIs(n: Sextet)
    ensures n < 26 ==> Char(n) as int == 'A' as int + n
    ensures 26 <= n < 52 ==> Char(n) as int == 'a' as int + n - 26
    ensures 52 <= n < 62 ==> Char(n) as int == '0' as int + n - 52
    ensures Char(62) == '+' && Char(63) == '/'
  {
  }

  lemma Bits(a: int, b: int, c: int)
    requires 0 <= a < 256 && 0 <= b < 256 && 0 <= c < 256
    ensures 262144 * (a / 4) + 4096 * (a % 4 * 16 + b / 16) + 64 * (b % 16 * 4 + c / 64) + c % 64
         == 65536 * a + 256 * b + c
  {
  }

  /** Every three octets are one number of 24 bits, written as four characters of the alphabet, highest bits first. */
  lemma GroupOfThree(s: string) returns (w: Sextet, x: Sextet, y: Sextet, z: Sextet)
    requires Bytes(s) && |s| >= 3
    ensures Encode(s) == [Char(w), Char(x), Char(y), Char(z)] + Encode(s[3..])
    ensures 262144 * w + 4096 * x + 64 * y + z == 65536 * s[0] as int + 256 * s[1] as int + s[2] as int
  {
    hide Char, Encode;
    EncodeThree(s);
    var a, b, c := s[0] as int, s[1] as int, s[2] as int;
    Bits(a, b, c);
    w, x, y, z := a / 4, a % 4 * 16 + b / 16, b % 16 * 4 + c / 64, c % 64;
  }

  /** Octets left over are filled up with zero bits, and the group with padding. */
  lemma GroupOfOne(s: string) returns (w: Sextet, x: Sextet)
    requires Bytes(s) && |s| == 1
    ensures Encode(s) == [Char(w), Char(x), '=', '='] && 64 * w + x == 16 * s[0] as int
  {
    hide Char;
    w, x := s[0] as int / 4, s[0] as int % 4 * 16;
  }

  lemma GroupOfTwo(s: string) returns (w: Sextet, x: Sextet, y: Sextet)
    requires Bytes(s) && |s| == 2
    ensures Encode(s) == [Char(w), Char(x), Char(y), '=']
    ensures 4096 * w + 64 * x + y == 4 * (256 * s[0] as int + s[1] as int)
  {
    hide Char;
    var a, b := s[0] as int, s[1] as int;
    Bits(a, b, 0);
    w, x, y := a / 4, a % 4 * 16 + b / 16, b % 16 * 4;
  }
}
