/** String escapes of magic-number rows. */
module Unescape {
  import opened Common

  /** Texts are code points, surrogates included, as the code handles them. */
  type Code = c: int | 0 <= c < 0x11_0000
  type Text = seq<Code>

  const BACKSLASH: Code := 92
  const NEWLINE: Code := 10
  const SPACE: Code := 32
  const ZERO: Code := 48
  const LOWER_N: Code := 110
  const LOWER_X: Code := 120

  /** Integer parsing of what follows `0x` when it is not one or two plain hexadecimal digits; it may fail. */
  type OddHex = Text -> Option<Code>

  datatype Step = Done | Again(s: Text) | Failed

  predicate IsDigit(c: Code) {
    48 <= c <= 57
  }

  predicate IsHex(c: Code) {
    IsDigit(c) || 97 <= c <= 102 || 65 <= c <= 70
  }

  function HexValue(c: Code): (v: nat)
    requires IsHex(c)
    ensures v < 16
  {
    if IsDigit(c) then c - 48 else if 97 <= c then c - 87 else c - 55
  }

  /** `chr(int(t, 16))` for the at most two characters after the prefix. */
  function HexChar(t: Text, odd: OddHex): Option<Code> {
    if |t| == 1 && IsHex(t[0]) then Some(HexValue(t[0]))
    else if |t| == 2 && IsHex(t[0]) && IsHex(t[1]) then Some((16 * HexValue(t[0]) + HexValue(t[1])))
    else odd(t)
  }

  /** Where a run of decimal digits starting at i ends. */
  function DigitsEnd(s: Text, i: nat): (end: nat)
    requires i <= |s|
    ensures i <= end <= |s|
    ensures forall j :: i <= j < end ==> IsDigit(s[j])
    ensures end < |s| ==> !IsDigit(s[end])
    decreases |s| - i
  {
    if i < |s| && IsDigit(s[i]) then DigitsEnd(s, i + 1) else i
  }

  /** `int(t, 8)`: digits 8 and 9 are errors. */
  function OctalValue(t: Text): Option<nat>
    requires forall c :: c in t ==> IsDigit(c)
  {
    if t == [] then Some(0)
    else match OctalValue(t[..|t| - 1])
      case None => None
      case Some(v) =>
        if t[|t| - 1] >= 56 then None
        else
          assert IsDigit(t[|t| - 1]);
          Some(8 * v + HexValue(t[|t| - 1]))
  }

  function OctalChar(t: Text): Option<Code>
    requires forall c :: c in t ==> IsDigit(c)
  {
    match OctalValue(t)
    case Some(v) => if v < 0x11_0000 then Some(v) else None
    case None => None
  }

  /** The first backslash, or the length if there is none. */
  function FirstEscape(s: Text): (p: nat)
    ensures p <= |s| && BACKSLASH !in s[..p] && (p < |s| ==> s[p] == BACKSLASH)
  {
    if s == [] || s[0] == BACKSLASH then 0
    else
      var p := 1 + FirstEscape(s[1..]);
      assert s[..p] == [s[0]] + s[1..][..p - 1];
      p
  }

  /** The escape at the front of s replaced by c, the k characters it took after the backslash being dropped. */
  function Replaced(s: Text, k: nat, c: Option<Code>): Step
    requires s != []
  {
    match c
    case None => Failed
    case Some(c) => Again([c] + s[Min(1 + k, |s|)..])
  }

  /** One turn of the loop for a text whose first character is the backslash. */
  function AtEscape(s: Text, odd: OddHex): Step
    requires s != [] && s[0] == BACKSLASH
  {
    if |s| == 1 then Again([SPACE])
    else if s[1] == ZERO && |s| > 2 && s[2] == LOWER_X then Replaced(s, 4, HexChar(s[3..Min(5, |s|)], odd))
    else if s[1] == LOWER_X then Replaced(s, 3, HexChar(s[2..Min(4, |s|)], odd))
    else if IsDigit(s[1]) then Replaced(s, DigitsEnd(s, 1) - 1, OctalChar(s[1..DigitsEnd(s, 1)]))
    else if s[1] == LOWER_N then Replaced(s, 1, Some(NEWLINE))
    else Done
  }

  function Escapes(s: Text): (n: nat)
    ensures n <= |s|
  {
    if s == [] then 0 else (if s[0] == BACKSLASH then 1 else 0) + Escapes(s[1..])
  }

  lemma AtEscapeShrinks(s: Text, odd: OddHex)
    requires s != [] && s[0] == BACKSLASH
    ensures var t := AtEscape(s, odd);
      t.Again? ==> Smaller(t.s, s)
  {
    if |s| == 1 {
      assert s[1..] == [];
      assert [SPACE][1..] == [];
    }
  }

  predicate Smaller(t: Text, s: Text) {
    |t| < |s| || (|t| == |s| && Escapes(t) < Escapes(s))
  }

  /** One turn of the loop: it acts on the first backslash, if there is one. */
  function Turn(s: Text, odd: OddHex): (t: Step)
    ensures t.Again? ==> Smaller(t.s, s)
  {
    var p := FirstEscape(s);
    if p == |s| then Done
    else match AtEscape(s[p..], odd)
      case Again(t) =>
        AtEscapeShrinks(s[p..], odd);
        SmallerBehind(s, p, t);
        Again(s[..p] + t)
      case step => step
  }

  /** The text after all turns, or nothing if a number in it does not parse. */
  function Unescaped(s: Text, odd: OddHex): Option<Text>
    decreases |s|, Escapes(s)
  {
    match Turn(s, odd)
    case Done => Some(s)
    case Failed => None
    case Again(t) => Unescaped(t, odd)
  }

  lemma {:induction false} EscapesOfSum(a: Text, b: Text)
    ensures Escapes(a + b) == Escapes(a) + Escapes(b)
  {
    if a == [] {
      assert a + b == b;
    } else {
      assert (a + b)[1..] == a[1..] + b;
      EscapesOfSum(a[1..], b);
    }
  }

  lemma SmallerBehind(s: Text, p: nat, t: Text)
    requires p <= |s| && Smaller(t, s[p..])
    ensures Smaller(s[..p] + t, s)
  {
    assert s == s[..p] + s[p..];
    EscapesOfSum(s[..p], s[p..]);
    EscapesOfSum(s[..p], t);
  }

  // ---------------------------------------------------------------- the loop

  method FindBackslash(s: Text) returns (p: nat)
    ensures p == FirstEscape(s)
  {
    p := 0;
    while p < |s| && s[p] != BACKSLASH
      invariant p <= |s| && FirstEscape(s) == p + FirstEscape(s[p..])
    {
      p := p + 1;
    }
  }

  /** The scan for the end of an octal number stays inside the text. */
  method ScanDigits(s: Text, x: nat) returns (end: nat)
    requires x < |s| && IsDigit(s[x])
    ensures end == DigitsEnd(s, x)
  {
    end := x;
    while IsDigit(s[end])
      invariant x <= end < |s| && DigitsEnd(s, end) == DigitsEnd(s, x)
      decreases |s| - end
    {
      end := end + 1;
      if end > |s| - 1 {
        break;
      }
    }
  }

  method UnescapeText(text: Text, odd: OddHex) returns (r: Option<Text>)
    ensures r == Unescaped(text, odd)
  {
    hide Turn;
    var s := text;
    while true
      invariant Unescaped(s, odd) == Unescaped(text, odd)
      decreases |s|, Escapes(s)
    {
      var step := TakeTurn(s, odd);
      match step {
        case Done => return Some(s);
        case Failed => return None;
        case Again(t) => s := t;
      }
    }
  }

  method TakeTurn(s: Text, odd: OddHex) returns (step: Step)
    ensures step == Turn(s, odd)
  {
    hide AtEscape, FirstEscape, Replaced, Escapes;
    var p := FindBackslash(s);
    if p == |s| {
      return Done;
    }
    var x := p + 1;
    if x == |s| {
      assert AtEscape(s[p..], odd) == Again([SPACE]) by {
        LoneEscape(s[p..], odd);
      }
      return Again(s[..|s| - 1] + [SPACE]);
    }
    var known, c, k := ReadEscape(s, x, odd);
    if !known {
      return Done;
    }
    ReplacedIs(s, p, k, c);
    if c.None? {
      return Failed;
    }
    return Again(s[..p] + [c.value] + s[Min(x + k, |s|)..]);
  }

  lemma LoneEscape(s: Text, odd: OddHex)
    requires |s| == 1 && s[0] == BACKSLASH
    ensures AtEscape(s, odd) == Again([SPACE])
  {
  }

  lemma ReplacedIs(s: Text, p: nat, k: nat, c: Option<Code>)
    requires p < |s|
    ensures c.None? ==> Replaced(s[p..], k, c) == Failed
    ensures c.Some? ==> Replaced(s[p..], k, c).Again?
    ensures c.Some? ==> s[..p] + Replaced(s[p..], k, c).s == s[..p] + [c.value] + s[Min(p + 1 + k, |s|)..]
  {
    assert s[p..][Min(1 + k, |s| - p)..] == s[Min(p + 1 + k, |s|)..];
  }

  /** The character an escape stands for and how many characters of text name it. */
  method ReadEscape(s: Text, x: nat, odd: OddHex) returns (known: bool, c: Option<Code>, k: nat)
    requires 0 < x < |s| && s[x - 1] == BACKSLASH
    ensures AtEscape(s[x - 1..], odd) == if known then Replaced(s[x - 1..], k, c) else Done
  {
    hide HexChar, OctalChar, DigitsEnd, Replaced;
    ghost var r := s[x - 1..];
    known := true;
    if s[x] == ZERO && x + 1 < |s| && s[x + 1] == LOWER_X {
      Suffix(s, x - 1, 3, Min(5, |r|));
      c, k := HexChar(s[x + 2..Min(x + 4, |s|)], odd), 4;
    } else if s[x] == LOWER_X {
      Suffix(s, x - 1, 2, Min(4, |r|));
      c, k := HexChar(s[x + 1..Min(x + 3, |s|)], odd), 3;
    } else if IsDigit(s[x]) {
      var end := ScanDigits(s, x);
      DigitsEndShift(s, x - 1, 1);
      Suffix(s, x - 1, 1, end - x + 1);
      c, k := OctalChar(s[x..end]), end - x;
    } else if s[x] == LOWER_N {
      c, k := Some(NEWLINE), 1;
    } else {
      known, c, k := false, None, 0;
    }
  }

  lemma Suffix(s: Text, p: nat, a: nat, b: nat)
    requires a <= b && p + b <= |s|
    ensures s[p..][a..b] == s[p + a..p + b]
  {
  }

  lemma {:induction false} DigitsEndShift(s: Text, p: nat, i: nat)
    requires p + i <= |s|
    ensures DigitsEnd(s[p..], i) == DigitsEnd(s, p + i) - p
    decreases |s| - i
  {
    if p + i < |s| && IsDigit(s[p + i]) {
      DigitsEndShift(s, p, i + 1);
    }
  }

  // ---------------------------------------------------------------- what comes out

  lemma FirstEscapeIs(s: Text, p: nat)
    requires p <= |s| && BACKSLASH !in s[..p] && (p < |s| ==> s[p] == BACKSLASH)
    ensures FirstEscape(s) == p
  {
  }

  /** The loop ends with no backslash left, or stops for good at one it does not know. */
  lemma {:induction false} EndsAtUnknown(s: Text, odd: OddHex)
    ensures var r := Unescaped(s, odd);
      r.Some? ==> BACKSLASH !in r.value || exists p :: StopsAt(r.value, p)
    decreases |s|, Escapes(s)
  {
    var t := Turn(s, odd);
    if t.Again? {
      EndsAtUnknown(t.s, odd);
    } else if t.Done? {
      var p := FirstEscape(s);
      if p == |s| {
        assert s[..p] == s;
      } else {
        assert StopsAt(s, p);
      }
    }
  }

  predicate StopsAt(s: Text, p: nat) {
    && p + 1 < |s| && BACKSLASH !in s[..p] && s[p] == BACKSLASH
    && s[p + 1] != LOWER_X && s[p + 1] != LOWER_N && !IsDigit(s[p + 1])
  }

  /** Text before the first backslash passes unchanged. */
  lemma {:induction false} PrefixKept(a: Text, s: Text, odd: OddHex)
    requires BACKSLASH !in a
    ensures Unescaped(a + s, odd) == match Unescaped(s, odd) case None => None case Some(r) => Some(a + r)
    decreases |s|, Escapes(s)
  {
    hide AtEscape, FirstEscape;
    var p := FirstEscape(s);
    assert (a + s)[..|a| + p] == a + s[..p];
    FirstEscapeIs(a + s, |a| + p);
    assert (a + s)[|a| + p..] == s[p..];
    var t := Turn(s, odd);
    if t.Again? {
      var u := AtEscape(s[p..], odd).s;
      assert a + s[..p] + u == a + (s[..p] + u);
      PrefixKept(a, t.s, odd);
    }
  }

  function HexDigit(v: nat): (c: Code)
    requires v < 16
    ensures IsHex(c) && HexValue(c) == v
  {
    if v < 10 then 48 + v else 87 + v
  }

  predicate IsOctet(c: Code) {
    c < 256
  }

  /** Every character written as backslash, x and two hexadecimal digits. */
  function Escaped(t: Text): (s: Text)
    requires forall c :: c in t ==> IsOctet(c)
  {
    if t == [] then []
    else
      assert IsOctet(t[0]);
      [BACKSLASH, LOWER_X, HexDigit(t[0] / 16), HexDigit(t[0] % 16)] + Escaped(t[1..])
  }

  /** A decoded character takes part in the next turn: a decoded backslash is read as the start of an escape. */
  lemma EscapedCharTurn(c: Code, rest: Text, odd: OddHex)
    requires IsOctet(c)
    ensures Unescaped([BACKSLASH, LOWER_X, HexDigit(c / 16), HexDigit(c % 16)] + rest, odd)
            == Unescaped([c] + rest, odd)
  {
    var s := [BACKSLASH, LOWER_X, HexDigit(c / 16), HexDigit(c % 16)] + rest;
    FirstEscapeIs(s, 0);
    assert s[0..] == s;
    assert s[2..Min(4, |s|)] == [HexDigit(c / 16), HexDigit(c % 16)];
    assert HexChar(s[2..Min(4, |s|)], odd) == Some(c);
    assert s[Min(4, |s|)..] == rest;
    assert AtEscape(s, odd) == Again([c] + rest);
    assert s[..0] + ([c] + rest) == [c] + rest;
    assert Turn(s, odd) == Again([c] + rest);
  }

  /** Text without backslashes comes back from its escaped form, whatever is left after it. */
  lemma {:induction false} EscapedPrefix(t: Text, rest: Text, odd: OddHex)
    requires (forall c :: c in t ==> IsOctet(c)) && BACKSLASH !in t
    ensures Unescaped(Escaped(t) + rest, odd) == Unescaped(t + rest, odd)
  {
    hide Unescaped, Turn;
    if t == [] {
      assert Escaped(t) + rest == t + rest;
    } else {
      assert IsOctet(t[0]);
      var e := [BACKSLASH, LOWER_X, HexDigit(t[0] / 16), HexDigit(t[0] % 16)];
      assert Escaped(t) + rest == e + (Escaped(t[1..]) + rest);
      EscapedCharTurn(t[0], Escaped(t[1..]) + rest, odd);
      PrefixKept([t[0]], Escaped(t[1..]) + rest, odd);
      EscapedPrefix(t[1..], rest, odd);
      PrefixKept([t[0]], t[1..] + rest, odd);
      assert t + rest == [t[0]] + (t[1..] + rest);
    }
  }

  /** An escaped text comes back exactly when it has no backslash in it. */
  lemma EscapeRoundTripIff(t: Text, odd: OddHex)
    requires forall c :: c in t ==> IsOctet(c)
    ensures Unescaped(Escaped(t), odd) == Some(t) <==> BACKSLASH !in t
  {
    hide Unescaped, Turn, Escaped;
    var p := FirstEscape(t);
    if p == |t| {
      assert t[..p] == t && Escaped(t) + [] == Escaped(t) && t + [] == t;
      EscapedPrefix(t, [], odd);
      NoEscape(t, odd);
    } else {
      BackslashSpoils(t, p, odd);
    }
  }

  lemma NoEscape(t: Text, odd: OddHex)
    requires BACKSLASH !in t
    ensures Unescaped(t, odd) == Some(t)
  {
    assert t[..|t|] == t;
    FirstEscapeIs(t, |t|);
  }

  lemma {:induction false} EscapedSum(a: Text, b: Text)
    requires (forall c :: c in a ==> IsOctet(c)) && (forall c :: c in b ==> IsOctet(c))
    ensures (forall c :: c in a + b ==> IsOctet(c)) && Escaped(a + b) == Escaped(a) + Escaped(b)
  {
    hide HexDigit, Escaped, IsOctet;
    if a == [] {
      assert a + b == b;
      assert Escaped(a) == [] by {
        EscapedEmpty(a);
      }
    } else {
      var c, rest := a[0], a[1..];
      assert a == [c] + rest && a + b == [c] + (rest + b);
      EscapedSum(rest, b);
      EscapedStep(c, rest);
      EscapedStep(c, rest + b);
    }
  }

  lemma BackslashSpoils(t: Text, p: nat, odd: OddHex)
    requires (forall c :: c in t ==> IsOctet(c)) && p < |t| && BACKSLASH !in t[..p] && t[p] == BACKSLASH
    ensures Unescaped(Escaped(t), odd)
            == Some(t[..p] + if p + 1 == |t| then [SPACE] else [BACKSLASH] + Escaped(t[p + 1..]))
    ensures Unescaped(Escaped(t), odd) != Some(t)
  {
    hide Unescaped, Turn, Escaped;
    var a, b := t[..p], t[p + 1..];
    assert t[p..] == [t[p]] + b && t == a + t[p..];
    EscapedSum(a, t[p..]);
    EscapedPrefix(a, Escaped(t[p..]), odd);
    PrefixKept(a, Escaped(t[p..]), odd);
    assert IsOctet(t[p]);
    EscapedCharTurn(BACKSLASH, Escaped(b), odd);
    EscapedStep(t[p], b);
    if b == [] {
      LoneBackslash(odd);
      assert [BACKSLASH] + [] == [BACKSLASH];
      assert (t[..p] + [SPACE])[p] == SPACE;
    } else {
      DoubleBackslash(Escaped(b), odd);
      EscapedLonger(b);
    }
  }

  lemma EscapedEmpty(t: Text)
    requires t == []
    ensures Escaped(t) == []
  {
  }

  lemma EscapedStep(c: Code, b: Text)
    requires IsOctet(c) && forall d :: d in b ==> IsOctet(d)
    ensures forall d :: d in [c] + b ==> IsOctet(d)
    ensures Escaped([c] + b) == [BACKSLASH, LOWER_X, HexDigit(c / 16), HexDigit(c % 16)] + Escaped(b)
    ensures b == [] ==> Escaped(b) == []
    ensures b != [] ==> Escaped(b) != [] && Escaped(b)[0] == BACKSLASH
  {
    assert ([c] + b)[1..] == b;
  }

  lemma {:induction false} EscapedLonger(t: Text)
    requires forall c :: c in t ==> IsOctet(c)
    ensures |Escaped(t)| == 4 * |t|
  {
    if t != [] {
      EscapedLonger(t[1..]);
    }
  }

  /** A backslash at the very end becomes a space. */
  lemma LoneBackslash(odd: OddHex)
    ensures Unescaped([BACKSLASH], odd) == Some([SPACE])
  {
    FirstEscapeIs([BACKSLASH], 0);
    assert [BACKSLASH][0..] == [BACKSLASH];
    LoneEscape([BACKSLASH], odd);
    assert [BACKSLASH][..0] + [SPACE] == [SPACE];
    NoEscape([SPACE], odd);
  }

  lemma DoubleBackslash(s: Text, odd: OddHex)
    requires s != [] && s[0] == BACKSLASH
    ensures Unescaped([BACKSLASH] + s, odd) == Some([BACKSLASH] + s)
  {
    FirstEscapeIs([BACKSLASH] + s, 0);
    assert ([BACKSLASH] + s)[0..] == [BACKSLASH] + s;
    assert AtEscape([BACKSLASH] + s, odd) == Done;
  }
}
