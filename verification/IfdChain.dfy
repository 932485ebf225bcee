/** Whether the walk along the chain of directories ends. */
module IfdChain {
  import opened Exif

  /** The directory reached from i after j steps. */
  function Visit(v: View, i: nat, j: nat): nat {
    if j == 0 then i else NextIfd(v, Visit(v, i, j - 1))
  }

  lemma VisitStep(v: View, i: nat, j: nat)
    ensures Visit(v, i, 0) == i && Visit(v, i, j + 1) == NextIfd(v, Visit(v, i, j))
  {
  }

  ghost predicate Ends(v: View, i: nat) {
    exists j: nat :: Visit(v, i, j) == 0
  }

  /** The chain from i ends within one more step than the file has octets. */
  predicate EndsInFile(v: View, i: nat) {
    exists j: nat :: 0 <= j <= |v.file| + 1 && Visit(v, i, j) == 0
  }

  /** Only directories that start inside the file have a successor. */
  lemma SuccessorInFile(v: View, i: nat)
    requires NextIfd(v, i) != 0
    ensures i < |v.file|
  {
  }

  lemma {:induction false} VisitSplit(v: View, i: nat, j: nat, k: nat)
    ensures Visit(v, i, j + k) == Visit(v, Visit(v, i, j), k)
  {
    hide NextIfd;
    if k > 0 {
      VisitSplit(v, i, j, k - 1);
      assert j + k - 1 == j + (k - 1);
    }
  }

  /** Distinct numbers below n are at most n. */
  lemma {:induction false} DistinctBelow(s: seq<nat>, n: nat)
    requires forall x :: x in s ==> x < n
    requires forall a, b :: 0 <= a < b < |s| ==> s[a] != s[b]
    ensures |s| <= n
  {
    if s == [] {
      return;
    }
    assert s[0] in s;
    if n - 1 in s {
      var a :| 0 <= a < |s| && s[a] == n - 1;
      var s' := s[..a] + s[a + 1..];
      forall x | x in s'
        ensures x < n - 1
      {
        var b :| 0 <= b < |s'| && s'[b] == x;
        var c := if b < a then b else b + 1;
        assert s'[b] == s[c] && s[c] in s && s[c] != s[a];
      }
      DistinctBelow(s', n - 1);
    } else {
      DistinctBelow(s, n - 1);
    }
  }

  /** On the way to the end no directory is met twice. */
  lemma NoRepeat(v: View, i: nat, n: nat, a: nat, b: nat)
    requires Visit(v, i, n) == 0 && forall j :: 0 <= j < n ==> Visit(v, i, j) != 0
    requires a < b < n
    ensures Visit(v, i, a) != Visit(v, i, b)
  {
    hide NextIfd, Visit;
    VisitSplit(v, i, a, n - b);
    VisitSplit(v, i, b, n - b);
    assert b + (n - b) == n && Visit(v, i, a + (n - b)) != 0;
  }

  lemma {:induction false} FirstEnd(v: View, i: nat, n: nat) returns (m: nat)
    requires Visit(v, i, n) == 0
    ensures m <= n && Visit(v, i, m) == 0 && forall j :: 0 <= j < m ==> Visit(v, i, j) != 0
  {
    hide Visit;
    m := 0;
    while Visit(v, i, m) != 0
      invariant m <= n && forall j :: 0 <= j < m ==> Visit(v, i, j) != 0
      decreases n - m
    {
      m := m + 1;
    }
  }

  /** The walk ends at all exactly when it ends within |file| + 1 steps; otherwise it goes round for ever. */
  lemma EndsExactly(v: View, i: nat)
    ensures Ends(v, i) <==> EndsInFile(v, i)
  {
    hide NextIfd;
    if Ends(v, i) {
      var n :| Visit(v, i, n) == 0;
      var m := FirstEnd(v, i, n);
      if m > 0 {
        var s := seq(m - 1, j requires 0 <= j => Visit(v, i, j));
        forall x | x in s
          ensures x < |v.file|
        {
          var j :| 0 <= j < m - 1 && s[j] == x;
          assert NextIfd(v, Visit(v, i, j)) == Visit(v, i, j + 1) != 0;
          SuccessorInFile(v, x);
        }
        forall a, b | 0 <= a < b < |s|
          ensures s[a] != s[b]
        {
          NoRepeat(v, i, m, a, b);
        }
        DistinctBelow(s, |v.file|);
      }
    }
  }

  /** A directory that leads back to itself is never left. */
  lemma {:induction false} LoopNeverEnds(v: View, i: nat, period: nat, j: nat)
    requires period > 0 && Visit(v, i, period) == i
    requires forall k :: 0 <= k < period ==> Visit(v, i, k) != 0
    ensures Visit(v, i, j) != 0
  {
    hide NextIfd, Visit;
    if j >= period {
      VisitSplit(v, i, period, j - period);
      LoopNeverEnds(v, i, period, j - period);
    }
  }

  /** Two steps of the walk meet the same directory before any null pointer. */
  ghost predicate MeetsAgain(v: View, i: nat) {
    exists a: nat, b: nat :: Meets(v, i, a, b)
  }

  ghost predicate Meets(v: View, i: nat, a: nat, b: nat) {
    a < b && Visit(v, i, a) == Visit(v, i, b) && forall j :: 0 <= j <= b ==> Visit(v, i, j) != 0
  }

  /** The walk goes on for ever exactly when it comes back to a directory. */
  lemma NeverEndsIff(v: View, i: nat)
    ensures !Ends(v, i) <==> MeetsAgain(v, i)
  {
    hide Visit;
    if Ends(v, i) {
      forall a: nat, b: nat
        ensures !Meets(v, i, a, b)
      {
        if Meets(v, i, a, b) {
          var n :| Visit(v, i, n) == 0;
          BackAgain(v, i, a, b, n);
        }
      }
    } else {
      var a, b := Repeats(v, i);
      assert Meets(v, i, a, b);
    }
  }

  lemma BackAgain(v: View, i: nat, a: nat, b: nat, n: nat)
    requires Meets(v, i, a, b)
    ensures Visit(v, i, n) != 0
  {
    hide Visit;
    if n > b {
      var p := Visit(v, i, a);
      forall k | 0 <= k < b - a
        ensures Visit(v, p, k) != 0
      {
        VisitSplit(v, i, a, k);
      }
      VisitSplit(v, i, a, b - a);
      assert a + (b - a) == b && a + (n - a) == n;
      LoopNeverEnds(v, p, b - a, n - a);
      VisitSplit(v, i, a, n - a);
    }
  }

  /** A walk that does not end stays below the length of the file, so it repeats. */
  lemma Repeats(v: View, i: nat) returns (a: nat, b: nat)
    requires !Ends(v, i)
    ensures a < b && Visit(v, i, a) == Visit(v, i, b)
  {
    hide NextIfd, Visit;
    var s := seq(|v.file| + 1, j requires 0 <= j => Visit(v, i, j));
    forall x | x in s
      ensures x < |v.file|
    {
      var j :| 0 <= j < |s| && s[j] == x;
      VisitStep(v, i, j);
      assert Visit(v, i, j + 1) != 0;
      SuccessorInFile(v, x);
    }
    if forall a, b :: 0 <= a < b < |s| ==> s[a] != s[b] {
      DistinctBelow(s, |v.file|);
    }
    a, b :| 0 <= a < b < |s| && s[a] == s[b];
  }
}
