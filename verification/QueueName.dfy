/** Names for new print and fax queues. */
module QueueName {
  import opened Common

  /** `"%d" % n`. */
  function Decimal(n: nat): (s: string)
    ensures s != []
  {
    (if n < 10 then "" else Decimal(n / 10)) + ["0123456789"[n % 10]]
  }

  function DecimalValue(s: string): int {
    if s == [] then 0 else 10 * DecimalValue(s[..|s| - 1]) + (s[|s| - 1] as int - 48)
  }

  lemma {:induction false} DecimalReadsBack(n: nat)
    ensures DecimalValue(Decimal(n)) == n
  {
    var s := Decimal(n);
    assert s[..|s| - 1] == if n < 10 then "" else Decimal(n / 10);
    if n >= 10 {
      DecimalReadsBack(n / 10);
    }
  }

  /** What CUPS has installed: queue names of the back end, and the queues of this device if it has any. */
  datatype Installed = Installed(names: seq<string>, ofDevice: Option<seq<string>>)

  function Names(installed: Installed): set<string> {
    (set t | t in installed.names) + if installed.ofDevice.Some? then set t | t in installed.ofDevice.value else {}
  }

  function Candidate(model: string, i: nat): string {
    model + "_" + Decimal(i)
  }

  /** The model name, an underscore, and the number in decimal digits without a leading zero. */
  lemma CandidateIs(model: string, i: nat)
    requires i > 0
    ensures var s, n := Candidate(model, i), |model| + 1;
            && |s| > n && s[..n - 1] == model && s[n - 1] as int == 95 && s[n] != '0'
            && (forall k :: n <= k < |s| ==> 48 <= s[k] as int <= 57)
            && DecimalValue(s[n..]) == i
  {
    hide Decimal, DecimalValue;
    var s, d := Candidate(model, i), Decimal(i);
    assert s == model + "_" + d && s[|model| + 1..] == d;
    DecimalReadsBack(i);
    DecimalDigits(i);
    forall k | |model| + 1 <= k < |s|
      ensures s[k] == d[k - |model| - 1]
    {
    }
  }

  lemma {:induction false} DecimalDigits(n: nat)
    ensures var s := Decimal(n); (forall k :: 0 <= k < |s| ==> 48 <= s[k] as int <= 57) && (n > 0 ==> s[0] != '0')
  {
    if n >= 10 {
      DecimalDigits(n / 10);
    }
  }

  function Candidates(model: string, i: nat): set<string> {
    set j | 2 <= j < i :: Candidate(model, j)
  }

  lemma CandidatesDiffer(model: string, i: nat, j: nat)
    requires Candidate(model, i) == Candidate(model, j)
    ensures i == j
  {
    var s := Candidate(model, i);
    assert s[|model| + 1..] == Decimal(i) == Decimal(j);
    DecimalReadsBack(i);
    DecimalReadsBack(j);
  }

  lemma {:induction false} CandidatesCount(model: string, i: nat)
    requires i >= 2
    ensures |Candidates(model, i)| == i - 2
  {
    hide Candidate, Candidates;
    if i > 2 {
      CandidatesCount(model, i - 1);
      CandidatesStep(model, i);
    } else {
      assert Candidates(model, i) == {} by {
        NoCandidates(model);
      }
    }
  }

  lemma NoCandidates(model: string)
    ensures Candidates(model, 2) == {}
  {
  }

  lemma CandidatesStep(model: string, i: nat)
    requires i > 2
    ensures var last := Candidate(model, i - 1);
            last !in Candidates(model, i - 1) && Candidates(model, i) == Candidates(model, i - 1) + {last}
  {
    hide Candidate;
    var last := Candidate(model, i - 1);
    if last in Candidates(model, i - 1) {
      var j :| 2 <= j < i - 1 && Candidate(model, j) == last;
      CandidatesDiffer(model, i - 1, j);
    }
  }

  /** Candidates all taken, and the model name with them, are fewer than the installed names. */
  lemma TakenAtMost(model: string, i: nat, taken: set<string>)
    requires i >= 2 && model in taken && Candidates(model, i) <= taken
    ensures i - 1 <= |taken|
  {
    CandidatesCount(model, i);
    assert model !in Candidates(model, i);
    SubsetSize(Candidates(model, i) + {model}, taken);
  }

  /**
   A name no queue of the back end or the device has: the model name if it is free, or else the model name with the
   least free suffix from 2 on, found within as many tries as there are installed names.
   */
  method FreeName(defaultModel: string, installed: Installed) returns (name: string)
    ensures name !in installed.names && (installed.ofDevice.Some? ==> name !in installed.ofDevice.value)
    ensures name == defaultModel || defaultModel in installed.names
            || (installed.ofDevice.Some? && defaultModel in installed.ofDevice.value)
    ensures name != defaultModel ==>
              exists i: nat :: IsLeastFree(defaultModel, installed, i) && name == Candidate(defaultModel, i)
  {
    name := defaultModel;
    var taken := Names(installed);
    if (installed.ofDevice.Some? && name in installed.ofDevice.value) || name in installed.names {
      var i := 2;
      while true
        invariant i >= 2 && Candidates(defaultModel, i) <= taken
        decreases |taken| + 1 - i
      {
        var t := defaultModel + "_" + Decimal(i);
        TakenAtMost(defaultModel, i, taken);
        if t !in installed.names && (installed.ofDevice.None? || t !in installed.ofDevice.value) {
          assert forall j :: 2 <= j < i ==> Candidate(defaultModel, j) in Candidates(defaultModel, i);
          assert IsLeastFree(defaultModel, installed, i);
          name := t;
          break;
        }
        assert Candidates(defaultModel, i + 1) == Candidates(defaultModel, i) + {Candidate(defaultModel, i)};
        TakenAtMost(defaultModel, i + 1, taken);
        i := i + 1;
      }
    }
  }

  predicate IsLeastFree(model: string, installed: Installed, i: nat) {
    && 2 <= i <= |Names(installed)| + 1 && Candidate(model, i) !in Names(installed)
    && forall j :: 2 <= j < i ==>
         || Candidate(model, j) in installed.names
         || (installed.ofDevice.Some? && Candidate(model, j) in installed.ofDevice.value)
  }
}
