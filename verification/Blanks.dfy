/** White space at the ends of a text. */
module Blanks {

  predicate IsSpace(c: char) { c == ' ' || 9 <= c as int <= 13 }

  function StripLeft(s: string): string {
    if s != "" && IsSpace(s[0]) then StripLeft(s[1..]) else s
  }

  function StripRight(s: string): string {
    if s != "" && IsSpace(s[|s| - 1]) then StripRight(s[..|s| - 1]) else s
  }

  function Strip(s: string): string { StripRight(StripLeft(s)) }

  lemma {:induction false} StripEnds(s: string)
    ensures StripLeft(s) == s <==> s == "" || !IsSpace(s[0])
    ensures StripRight(s) == s <==> s == "" || !IsSpace(s[|s| - 1])
    ensures |StripLeft(s)| <= |s| && |StripRight(s)| <= |s|
    ensures s != "" && IsSpace(s[0]) ==> |StripLeft(s)| < |s|
  {
    if s != "" {
      StripEnds(s[1..]);
      StripEnds(s[..|s| - 1]);
    }
  }

  lemma StripTrimmed(s: string)
    ensures Strip(s) == s <==> s == "" || (!IsSpace(s[0]) && !IsSpace(s[|s| - 1]))
  {
    StripEnds(s);
    StripEnds(StripLeft(s));
  }

  predicate Blank(w: string) {
    forall i :: 0 <= i < |w| ==> w[i] as int in {9, 10, 11, 12, 13, 32}
  }

  predicate Trimmed(t: string) {
    t == "" || (t[0] as int !in {9, 10, 11, 12, 13, 32} && t[|t| - 1] as int !in {9, 10, 11, 12, 13, 32})
  }

  /** Whatever blanks stand around a text, they go and it stays. */
  lemma {:induction false} StripMeans(v: string, t: string, w: string)
    requires Blank(v) && Trimmed(t) && Blank(w)
    ensures Strip(v + t + w) == t
    decreases |v| + |w|
  {
    var s := v + t + w;
    if v != "" {
      assert s[1..] == v[1..] + t + w && s[0] == v[0];
      StripMeans(v[1..], t, w);
    } else if t == "" {
      assert s == w;
      if w != "" {
        StripMeans("", "", w[1..]);
        assert "" + "" + w[1..] == w[1..];
      }
    } else {
      assert s == t + w && s[0] == t[0];
      LeadStays(t, w);
    }
  }

  lemma {:induction false} LeadStays(t: string, w: string)
    requires t != "" && Trimmed(t) && Blank(w)
    ensures StripRight(t + w) == t
  {
    var s := t + w;
    if w == "" {
      assert s == t;
    } else {
      var l := |w| - 1;
      assert s[..|s| - 1] == t + w[..l] && s[|s| - 1] == w[l];
      LeadStays(t, w[..l]);
    }
  }
}
