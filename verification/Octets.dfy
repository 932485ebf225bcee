/** Octet strings, file reads and multi-byte integers in either byte order. */
module Octets {
  import opened Common

  type Octet = b: int | 0 <= b < 256

  datatype Endian = Intel | Motorola

  function Pow256(k: nat): (p: nat)
    ensures p > 0
  {
    if k == 0 then 1 else 256 * Pow256(k - 1)
  }

  /** `file.seek(pos); file.read(n)`: the read stops at the end of the file. */
  function Read(f: seq<Octet>, pos: nat, n: nat): (r: seq<Octet>)
    ensures |r| <= n
    ensures pos + n <= |f| ==> r == f[pos..pos + n]
  {
    f[Min(pos, |f|)..Min(pos + n, |f|)]
  }

  /** Positional value of an octet string: least significant octet first (Intel) or last (Motorola). */
  function Num(e: Endian, s: seq<Octet>): nat {
    if s == [] then 0
    else match e
      case Intel => s[0] + 256 * Num(e, s[1..])
      case Motorola => 256 * Num(e, s[..|s| - 1]) + s[|s| - 1]
  }

  /** The k lowest octets of v in the given order. */
  function Digits(e: Endian, v: nat, k: nat): (s: seq<Octet>)
    ensures |s| == k
  {
    if k == 0 then []
    else match e
      case Intel => [v % 256] + Digits(e, v / 256, k - 1)
      case Motorola => Digits(e, v / 256, k - 1) + [v % 256]
  }

  lemma {:induction false} DigitsRoundTrip(e: Endian, v: nat, k: nat)
    requires v < Pow256(k)
    ensures Num(e, Digits(e, v, k)) == v
  {
    if k > 0 {
      DigitsRoundTrip(e, v / 256, k - 1);
      var s := Digits(e, v, k);
      if e == Intel {
        assert s[1..] == Digits(e, v / 256, k - 1);
      } else {
        assert s[..k - 1] == Digits(e, v / 256, k - 1);
      }
    }
  }

  lemma {:induction false} NumDigits(e: Endian, s: seq<Octet>)
    ensures Num(e, s) < Pow256(|s|)
    ensures Digits(e, Num(e, s), |s|) == s
  {
    hide Digits, Pow256;
    if s == [] {
      assert Pow256(0) > 0 && Digits(e, 0, 0) == [];
    } else {
      var n := |s|;
      var rest, c: nat := if e == Intel then s[1..] else s[..n - 1], if e == Intel then s[0] else s[n - 1];
      NumDigits(e, rest);
      assert Num(e, s) == 256 * Num(e, rest) + c;
      OneMoreDigit(e, Num(e, rest), c, n - 1);
      assert s == if e == Intel then [c] + rest else rest + [c];
    }
  }

  lemma OneMoreDigit(e: Endian, v: nat, c: nat, k: nat)
    requires c < 256
    ensures Digits(e, 256 * v + c, k + 1) == if e == Intel then [c] + Digits(e, v, k) else Digits(e, v, k) + [c]
    ensures v < Pow256(k) ==> 256 * v + c < Pow256(k + 1)
  {
    LowestOctet(v, c);
  }

  lemma LowestOctet(v: nat, c: nat)
    requires c < 256
    ensures (256 * v + c) % 256 == c && (256 * v + c) / 256 == v
  {
  }

  lemma {:induction false} NumIntelAppend(s: seq<Octet>, c: Octet)
    ensures Num(Intel, s + [c]) == Num(Intel, s) + c * Pow256(|s|)
  {
    if s == [] {
      assert s + [c] == [c];
      assert Num(Intel, [c][1..]) == 0;
    } else {
      assert (s + [c])[1..] == s[1..] + [c];
      NumIntelAppend(s[1..], c);
      assert c * Pow256(|s|) == 256 * (c * Pow256(|s| - 1));
    }
  }

  lemma Pow256Values()
    ensures Pow256(0) == 1 && Pow256(1) == 256 && Pow256(2) == 65536 && Pow256(4) == 0x1_0000_0000
  {
    assert Pow256(3) == 256 * Pow256(2);
    assert Pow256(2) == 256 * Pow256(1);
    assert Pow256(1) == 256 * Pow256(0);
  }

  lemma SmallDigits(e: Endian, v: Octet)
    ensures Digits(e, v, 4) == if e == Intel then [v, 0, 0, 0] else [0, 0, 0, v]
  {
    assert Digits(e, 0, 1) == [0];
    assert Digits(e, 0, 2) == [0, 0];
    assert Digits(e, 0, 3) == [0, 0, 0];
  }

  lemma SubSlice(s: seq<Octet>, a: nat, b: nat, c: nat, d: nat)
    requires a <= b <= |s| && c <= d <= b - a
    ensures s[a..b][c..d] == s[a + c..a + d]
  {
    var l, r := s[a..b][c..d], s[a + c..a + d];
    forall i | 0 <= i < d - c
      ensures l[i] == r[i]
    {
      assert l[i] == s[a..b][c + i] == s[a + (c + i)];
    }
    assert l == r;
  }

  /** Reading inside an octet string that is a slice of a larger one. */
  lemma ReadSlice(f: seq<Octet>, pos: nat, n: nat, a: nat, m: nat)
    requires a + m <= n
    requires |Read(f, pos, n)| == n
    ensures n > 0 ==> pos + n <= |f|
    ensures Read(f, pos + a, m) == Read(f, pos, n)[a..a + m]
  {
  }

  lemma {:induction false} Pow256Grows(i: nat, j: nat)
    requires i <= j
    ensures Pow256(i) <= Pow256(j)
  {
    if i < j {
      Pow256Grows(i, j - 1);
    }
  }

  /** The leading octets of a big-endian number are at most the number without its last octet. */
  lemma {:induction false} LeadingAtMost(v: nat, k: nat, m: nat)
    requires m <= k
    ensures Num(Motorola, Digits(Motorola, v, k)[0..m]) <= v
    ensures m < k ==> Num(Motorola, Digits(Motorola, v, k)[0..m]) <= v / 256
  {
    var d := Digits(Motorola, v, k);
    if m == k {
      assert d[0..m] == d;
      DigitsAtMost(Motorola, v, k);
    } else {
      assert d[0..m] == Digits(Motorola, v / 256, k - 1)[0..m];
      LeadingAtMost(v / 256, k - 1, m);
    }
  }

  lemma {:induction false} DigitsAtMost(e: Endian, v: nat, k: nat)
    ensures Num(e, Digits(e, v, k)) <= v
  {
    if k > 0 {
      var s := Digits(e, v, k);
      DigitsAtMost(e, v / 256, k - 1);
      if e == Intel {
        assert s[1..] == Digits(e, v / 256, k - 1);
      } else {
        assert s[..k - 1] == Digits(e, v / 256, k - 1);
      }
    }
  }

  /** The second group of m octets of a little-endian number is at most the number without its first octet. */
  lemma {:induction false} SecondAtMost(v: nat, k: nat, a: nat, m: nat)
    requires 0 < a && a + m <= k
    ensures Num(Intel, Digits(Intel, v, k)[a..a + m]) <= v / 256
  {
    var d, d' := Digits(Intel, v, k), Digits(Intel, v / 256, k - 1);
    if a == 1 {
      assert d[a..a + m] == d'[..m];
      IntelPrefix(v / 256, k - 1, m);
      DigitsAtMost(Intel, v / 256, m);
    } else {
      assert d[a..a + m] == d'[a - 1..a - 1 + m];
      SecondAtMost(v / 256, k - 1, a - 1, m);
    }
  }

  lemma {:induction false} IntelPrefix(v: nat, k: nat, m: nat)
    requires m <= k
    ensures Digits(Intel, v, k)[..m] == Digits(Intel, v, m)
  {
    if m > 0 {
      IntelPrefix(v / 256, k - 1, m - 1);
    }
  }

  /** Two octets in either order, in plain arithmetic. */
  lemma TwoOctets(a: Octet, b: Octet)
    ensures Num(Motorola, [a, b]) == 256 * a + b && Num(Intel, [a, b]) == a + 256 * b
  {
    assert [a, b][..1] == [a] && [a][..0] == [] && [a, b][1..] == [b] && [b][1..] == [];
    assert Num(Motorola, [a]) == a && Num(Intel, [b]) == b;
  }

  lemma FourOctets(a: Octet, b: Octet, c: Octet, d: Octet)
    ensures Num(Motorola, [a, b, c, d]) == 256 * (256 * (256 * a + b) + c) + d
    ensures Num(Intel, [a, b, c, d]) == a + 256 * (b + 256 * (c + 256 * d))
  {
    TwoOctets(a, b);
    TwoOctets(c, d);
    assert [a, b, c, d][..3] == [a, b, c] && [a, b, c][..2] == [a, b];
    assert [a, b, c, d][1..] == [b, c, d] && [b, c, d][1..] == [c, d];
    assert Num(Motorola, [a, b, c]) == 256 * Num(Motorola, [a, b]) + c;
    assert Num(Intel, [b, c, d]) == b + 256 * Num(Intel, [c, d]);
  }
}
