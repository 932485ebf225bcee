/** What each escape of a magic-number row stands for. */
module EscapeLaws {
  import opened Common
  import opened Unescape

  /** One turn replaces the escape at the front. */
  lemma FrontTurn(s: Text, t: Text, odd: OddHex)
    requires s != [] && s[0] == 92 && AtEscape(s, odd) == Again(t)
    ensures Unescaped(s, odd) == Unescaped(t, odd)
  {
    hide AtEscape;
    FirstEscapeIs(s, 0);
    assert s[0..] == s && s[..0] + t == t;
    assert Turn(s, odd) == Again(t);
  }

  /** Backslash and n: a line feed. */
  lemma LineFeed(rest: Text, odd: OddHex)
    ensures Unescaped([92, 110] + rest, odd) == Unescaped([10] + rest, odd)
  {
    hide Unescaped;
    var s := [92, 110] + rest;
    assert s[Min(2, |s|)..] == rest;
    FrontTurn(s, [10] + rest, odd);
  }

  /** What a hexadecimal digit is worth. */
  predicate Worth(c: Code, v: nat) {
    (48 <= c <= 57 && v == c - 48) || (65 <= c <= 70 && v == c - 55) || (97 <= c <= 102 && v == c - 87)
  }

  /** Backslash, x and two hexadecimal digits; or with a 0 before the x. */
  lemma Hexadecimal(h: Code, l: Code, v: nat, w: nat, rest: Text, odd: OddHex)
    requires Worth(h, v) && Worth(l, w)
    ensures Unescaped([92, 120, h, l] + rest, odd) == Unescaped([16 * v + w] + rest, odd)
    ensures Unescaped([92, 48, 120, h, l] + rest, odd) == Unescaped([16 * v + w] + rest, odd)
  {
    hide Unescaped;
    var s, t := [92, 120, h, l] + rest, [92, 48, 120, h, l] + rest;
    assert IsHex(h) && IsHex(l) && HexValue(h) == v && HexValue(l) == w;
    assert s[2..Min(4, |s|)] == [h, l] && s[Min(4, |s|)..] == rest;
    assert t[3..Min(5, |t|)] == [h, l] && t[Min(5, |t|)..] == rest;
    FrontTurn(s, [16 * v + w] + rest, odd);
    FrontTurn(t, [16 * v + w] + rest, odd);
  }

  /** Backslash and three octal digits, up to the next that is no digit. */
  lemma Octal(a: Code, b: Code, c: Code, rest: Text, odd: OddHex)
    requires 48 <= a <= 55 && 48 <= b <= 55 && 48 <= c <= 55
    requires rest == [] || !(48 <= rest[0] <= 57)
    ensures Unescaped([92, a, b, c] + rest, odd)
         == Unescaped([64 * (a - 48) + 8 * (b - 48) + (c - 48)] + rest, odd)
  {
    hide Unescaped;
    var s, v: Code := [92, a, b, c] + rest, 64 * (a - 48) + 8 * (b - 48) + (c - 48);
    assert rest != [] ==> s[4] == rest[0];
    assert DigitsEnd(s, 4) == 4;
    assert DigitsEnd(s, 3) == 4;
    assert DigitsEnd(s, 2) == 4;
    assert DigitsEnd(s, 1) == 4;
    assert s[1..4] == [a, b, c] && s[Min(4, |s|)..] == rest;
    assert [a, b, c][..2] == [a, b] && [a, b][..1] == [a] && [a][..0] == [];
    assert forall d :: d in [a, b, c] || d in [a, b] || d in [a] ==> IsDigit(d);
    assert OctalValue([a]) == Some(a - 48);
    assert OctalValue([a, b]) == Some(8 * (a - 48) + (b - 48));
    assert OctalChar(s[1..4]) == Some(v);
    FrontTurn(s, [v] + rest, odd);
  }

  /** A digit 8 or 9 in such a number is an error. */
  lemma BadOctal(a: Code, b: Code, rest: Text, odd: OddHex)
    requires 48 <= a <= 57 && 56 <= b <= 57 && (rest == [] || !(48 <= rest[0] <= 57))
    ensures Unescaped([92, a, b] + rest, odd) == None
  {
    var s := [92, a, b] + rest;
    assert rest != [] ==> s[3] == rest[0];
    assert DigitsEnd(s, 3) == 3;
    assert DigitsEnd(s, 2) == 3;
    assert DigitsEnd(s, 1) == 3;
    assert s[1..3] == [a, b];
    assert forall d :: d in [a, b] || d in [a] ==> IsDigit(d);
    assert [a, b][..1] == [a];
    assert OctalChar(s[1..3]) == None;
    FirstEscapeIs(s, 0);
    assert s[0..] == s;
    assert Turn(s, odd) == Failed;
  }
}
