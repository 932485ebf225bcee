/** Replies sent without waiting for the ones before to be read: what is still decoded rightly, and what is not. */
module ReplyQueue {
  import opened Octets
  import opened ReplyPipe

  /** The replies from the i-th on, one behind the other. */
  function Joined(rs: seq<seq<Octet>>, i: nat): seq<Octet>
    requires i <= |rs|
    decreases |rs| - i
  {
    if i == |rs| then [] else rs[i] + Joined(rs, i + 1)
  }

  lemma {:induction false} JoinedAppend(rs: seq<seq<Octet>>, r: seq<Octet>, i: nat)
    requires i <= |rs|
    ensures Joined(rs + [r], i) == Joined(rs, i) + r
    decreases |rs| - i
  {
    if i == |rs| {
      assert Joined(rs + [r], i + 1) == [];
      assert r + [] == r && [] + r == r;
    } else {
      JoinedAppend(rs, r, i + 1);
      assert rs[i] + (Joined(rs, i + 1) + r) == rs[i] + Joined(rs, i + 1) + r;
    }
  }

  lemma {:induction false} JoinedLength(rs: seq<seq<Octet>>, i: nat)
    requires i < |rs|
    ensures |Joined(rs, i)| >= |rs[|rs| - 1]|
    ensures i < |rs| - 1 ==> |Joined(rs, i)| >= |rs[i]| + |rs[|rs| - 1]|
    decreases |rs| - i
  {
    if i < |rs| - 1 {
      JoinedLength(rs, i + 1);
    } else {
      assert Joined(rs, i + 1) == [];
    }
  }

  // ---------------------------------------------------------------- the octets under way

  /** Replies whose length has been announced. */
  function Announced(s: System): int { |s.sent| - if s.child.Idle? then 0 else 1 }

  function Data(s: System): seq<Octet> { if s.parent.Reading? then s.parent.data else [] }

  function Left(s: System): seq<Octet> { if s.child.Writing? then s.child.left else [] }

  /** The first reply whose announcement is still in the queue of signals. */
  function FirstSignal(s: System): nat { |s.decoded| + if s.parent.Reading? then 1 else 0 }

  /** What was read, what is in the pipe and what is to be written are the replies not yet decoded, in order. */
  ghost predicate Streams(s: System) {
    && s.decoded <= s.sent && (forall r :: r in s.sent ==> r != [])
    && FirstSignal(s) <= Announced(s) && |s.signals| == Announced(s) - FirstSignal(s)
    && (forall i :: 0 <= i < |s.signals| ==> s.signals[i] == |s.sent[FirstSignal(s) + i]|)
    && Data(s) + s.pipe + Left(s) == Joined(s.sent, |s.decoded|)
    && (s.parent.Reading? ==> s.parent.expected == |s.sent[|s.decoded|]| != |s.parent.data|)
    && match s.child
       case Idle => true
       case Writing(left, written) => written + |left| == |s.sent[|s.sent| - 1]| && left != []
       case Notifying(written) => written == |s.sent[|s.sent| - 1]|
  }

  /** More was read than announced. */
  predicate Overshot(s: System) {
    s.parent.Reading? && |s.parent.data| > s.parent.expected
  }

  lemma SendStreams(s: System, reply: seq<Octet>)
    requires Streams(s) && Enabled(s, Send(reply))
    ensures Streams(Do(s, Send(reply)))
  {
    var s' := Do(s, Send(reply));
    JoinedAppend(s.sent, reply, |s.decoded|);
    hide Joined;
    assert forall i :: 0 <= i < |s.sent| ==> s'.sent[i] == s.sent[i];
    assert Data(s) + s.pipe + [] == Data(s) + s.pipe;
  }

  lemma WriteStreams(s: System)
    requires Streams(s) && Enabled(s, Write)
    ensures Streams(Do(s, Write))
  {
    hide Joined;
    var s', n, left := Do(s, Write), Chunk(s.child.left), s.child.left;
    assert left[..n] + left[n..] == left;
    assert Data(s) + (s.pipe + left[..n]) + left[n..] == Data(s) + s.pipe + left;
    assert Left(s') == left[n..];
  }

  lemma NotifyStreams(s: System)
    requires Streams(s) && Enabled(s, Notify)
    ensures Streams(Do(s, Notify))
  {
    hide Joined;
  }

  lemma TakeStreams(s: System)
    requires Streams(s) && Enabled(s, Take)
    ensures Streams(Do(s, Take))
  {
    hide Joined;
    assert s.sent[|s.decoded|] in s.sent;
  }

  lemma ReceiveStreams(s: System, n: nat)
    requires Streams(s) && Enabled(s, Receive(n))
    ensures Streams(Do(s, Receive(n)))
  {
    var s', d := Do(s, Receive(n)), |s.decoded|;
    var data, rest := s.parent.data + s.pipe[..n], s.pipe[n..];
    assert data + rest == s.parent.data + s.pipe;
    if |data| == s.parent.expected {
      assert Joined(s.sent, d) == s.sent[d] + Joined(s.sent, d + 1);
      hide Joined;
      assert data + (rest + Left(s)) == s.sent[d] + Joined(s.sent, d + 1);
      SamePrefix(data, rest + Left(s), s.sent[d], Joined(s.sent, d + 1));
      assert [] + rest + Left(s) == rest + Left(s);
      assert s'.decoded == s.sent[..d + 1];
    } else {
      hide Joined;
    }
  }

  lemma SamePrefix(a: seq<Octet>, b: seq<Octet>, c: seq<Octet>, d: seq<Octet>)
    requires a + b == c + d && |a| == |c|
    ensures a == c && b == d
  {
    assert a == (a + b)[..|a|] && c == (c + d)[..|c|];
    assert b == (a + b)[|a|..] && d == (c + d)[|c|..];
  }

  /** Giving up means that more was read than announced: the reply itself was all in the pipe. */
  lemma GiveUpOvershot(s: System)
    requires Streams(s) && Enabled(s, GiveUp)
    ensures Overshot(s)
  {
    var d := |s.decoded|;
    JoinedLength(s.sent, d);
    assert |s.parent.data| + |Left(s)| == |Joined(s.sent, d)|;
  }

  /** As long as no loss has occurred, a step keeps the octets in order or is the first loss. */
  lemma StepStreams(s: System, step: Step)
    requires Streams(s) && s.lost == 0 && Enabled(s, step)
    ensures Do(s, step).lost > 0 <==> step.GiveUp?
    ensures !step.GiveUp? ==> Streams(Do(s, step))
  {
    hide Streams, Joined;
    match step
    case Send(reply) => SendStreams(s, reply);
    case Write => WriteStreams(s);
    case Notify => NotifyStreams(s);
    case Take => TakeStreams(s);
    case Receive(n) => ReceiveStreams(s, n);
    case GiveUp => GiveUpOvershot(s);
  }

  // ---------------------------------------------------------------- runs

  /** However replies are sent: until the first loss the replies decoded are the first ones sent, whole and in order. */
  lemma {:induction false} DecodedIsPrefix(ss: seq<System>, steps: seq<Step>, i: nat)
    requires IsRun(ss, steps) && i <= |steps| && ss[i].lost == 0
    ensures Streams(ss[i]) && ss[i].decoded <= ss[i].sent
  {
    hide Enabled;
    if i == 0 {
      assert Streams(START);
    } else {
      LostGrows(ss[i - 1], steps[i - 1]);
      DecodedIsPrefix(ss, steps, i - 1);
      StepStreams(ss[i - 1], steps[i - 1]);
    }
  }

  lemma LostGrows(s: System, step: Step)
    requires Enabled(s, step)
    ensures s.lost <= Do(s, step).lost <= s.lost + 1
  {
  }

  /** Reading too much cannot be undone: nothing more is decoded until the loss. */
  lemma StaysOvershot(s: System, step: Step)
    requires Overshot(s) && Enabled(s, step)
    ensures if step.GiveUp? then Do(s, step).lost > s.lost
            else Overshot(Do(s, step)) && Do(s, step).decoded == s.decoded
  {
  }

  /** A read can overshoot exactly when the pipe offers more than is missing; then a later reply has been sent. */
  lemma OvershootIff(s: System)
    requires Streams(s) && s.parent.Reading? && !Overshot(s)
    ensures (exists n :: Enabled(s, Receive(n)) && Overshot(Do(s, Receive(n))))
       <==> |s.parent.data| + Chunk(s.pipe) > s.parent.expected
    ensures |s.parent.data| + Chunk(s.pipe) > s.parent.expected ==> |s.sent| > |s.decoded| + 1
  {
    hide Joined;
    var n := Chunk(s.pipe);
    LastAlone(s);
    if |s.parent.data| + n > s.parent.expected {
      assert Enabled(s, Receive(n)) && Overshot(Do(s, Receive(n)));
    }
  }

  /** With no later reply sent, no more than the reply itself is under way. */
  lemma LastAlone(s: System)
    requires Streams(s) && s.parent.Reading?
    ensures |s.sent| == |s.decoded| + 1 ==> |s.parent.data| + |s.pipe| <= s.parent.expected
  {
    if |s.sent| == |s.decoded| + 1 {
      assert |Joined(s.sent, |s.decoded|)| == |s.sent[|s.decoded|]|;
    }
  }

  /** Whenever the service is waiting, replies have been lost if and only if some read went too far. */
  lemma LossIff(ss: seq<System>, steps: seq<Step>, i: nat)
    requires IsRun(ss, steps) && i <= |steps| && ss[i].parent.Waiting?
    ensures ss[i].lost == 0 <==> forall j :: 0 <= j <= i ==> !Overshot(ss[j])
  {
    if forall j :: 0 <= j <= i ==> !Overshot(ss[j]) {
      NoLoss(ss, steps, i);
    } else {
      var j :| 0 <= j <= i && Overshot(ss[j]);
      Doomed(ss, steps, j, i);
    }
  }

  lemma {:induction false} NoLoss(ss: seq<System>, steps: seq<Step>, i: nat)
    requires IsRun(ss, steps) && i <= |steps| && forall j :: 0 <= j <= i ==> !Overshot(ss[j])
    ensures ss[i].lost == 0
  {
    hide Enabled, Do;
    if i > 0 {
      NoLoss(ss, steps, i - 1);
      DecodedIsPrefix(ss, steps, i - 1);
      StepStreams(ss[i - 1], steps[i - 1]);
      if steps[i - 1].GiveUp? {
        GiveUpOvershot(ss[i - 1]);
      }
    }
  }

  lemma {:induction false} Doomed(ss: seq<System>, steps: seq<Step>, j: nat, i: nat)
    requires IsRun(ss, steps) && j <= i <= |steps| && Overshot(ss[j])
    ensures ss[i].lost > 0 || Overshot(ss[i])
  {
    hide Enabled, Do;
    if j < i {
      Doomed(ss, steps, j, i - 1);
      LostGrows(ss[i - 1], steps[i - 1]);
      if Overshot(ss[i - 1]) {
        StaysOvershot(ss[i - 1], steps[i - 1]);
      }
    }
  }

  // ---------------------------------------------------------------- after a loss

  /** A run one step longer. */
  lemma Extended(ss: seq<System>, steps: seq<Step>, step: Step) returns (ss': seq<System>, steps': seq<Step>)
    requires IsRun(ss, steps) && Enabled(ss[|steps|], step)
    ensures IsRun(ss', steps') && |ss'| == |steps'| + 1 == |steps| + 2 && ss'[|steps'|] == Do(ss[|steps|], step)
  {
    hide Enabled, Do;
    ss', steps' := ss + [Do(ss[|steps|], step)], steps + [step];
    forall i | 0 <= i < |steps'|
      ensures Enabled(ss'[i], steps'[i]) && ss'[i + 1] == Do(ss'[i], steps'[i])
    {
      if i < |steps| {
        assert Enabled(ss[i], steps[i]) && ss[i + 1] == Do(ss[i], steps[i]);
      }
    }
  }

  /** A whole reply written and announced. */
  lemma SentWhole(ss: seq<System>, steps: seq<Step>, r: seq<Octet>) returns (ss': seq<System>, steps': seq<Step>)
    requires IsRun(ss, steps) && 0 < |r| <= PIPE_BUF && ss[|steps|].child.Idle? && |ss[|steps|].pipe| + |r| <= CAPACITY
    ensures var s := ss[|steps|];
            && IsRun(ss', steps')
            && ss'[|steps'|] == s.(pipe := s.pipe + r, signals := s.signals + [|r|], sent := s.sent + [r])
  {
    hide IsRun;
    ss', steps' := Extended(ss, steps, Send(r));
    ss', steps' := Extended(ss', steps', Write);
    assert r[..|r|] == r && r[|r|..] == [];
    ss', steps' := Extended(ss', steps', Notify);
  }

  /**
   After a loss a reply can be decoded that was never sent, even when every read returns all it can: three replies are
   sent before the first is read, the third one longer than one piece by as much as the second is long. Reading the
   first drains the pipe; the rest of the third is then taken for the second.
   */
  lemma Misdecoded(a: seq<Octet>, b: seq<Octet>, c: seq<Octet>) returns (ss: seq<System>, steps: seq<Step>)
    requires a != [] && b != [] && |a| + |b| <= PIPE_BUF && |c| == PIPE_BUF + |b|
    ensures IsRun(ss, steps) && ss[|steps|].lost == 1
    ensures ss[|steps|].sent == [a, b, c] && ss[|steps|].decoded == [c[PIPE_BUF..]] && c[PIPE_BUF..] != c
  {
    hide IsRun;
    ss, steps := [START], [];
    assert IsRun(ss, steps) by {
      EmptyRun();
    }
    ss, steps := SentWhole(ss, steps, a);
    assert [] + a == a;
    ss, steps := SentWhole(ss, steps, b);
    ss, steps := Extended(ss, steps, Send(c));
    ss, steps := Extended(ss, steps, Write);
    var head, tail, ab := c[..PIPE_BUF], c[PIPE_BUF..], a + b;
    assert ss[|steps|] == System(ab + head, Writing(tail, PIPE_BUF), Waiting, [|a|, |b|], [a, b, c], [], 0);
    ss, steps := DrainedFirst(ss, steps, a, b, c);
    ss, steps := TailTaken(ss, steps, a, b, c);
  }

  lemma EmptyRun()
    ensures IsRun([START], [])
  {
  }

  lemma DrainedFirst(ss0: seq<System>, steps0: seq<Step>, a: seq<Octet>, b: seq<Octet>, c: seq<Octet>)
    returns (ss: seq<System>, steps: seq<Step>)
    requires a != [] && b != [] && |a| + |b| <= PIPE_BUF && |c| == PIPE_BUF + |b| && IsRun(ss0, steps0)
    requires ss0[|steps0|] == System(a + b + c[..PIPE_BUF], Writing(c[PIPE_BUF..], PIPE_BUF), Waiting, [|a|, |b|],
            [a, b, c], [], 0)
    ensures IsRun(ss, steps)
    ensures ss[|steps|] == System([], Writing(c[PIPE_BUF..], PIPE_BUF), Waiting, [|b|], [a, b, c], [], 1)
  {
    hide IsRun;
    var pipe := a + b + c[..PIPE_BUF];
    var rest := pipe[PIPE_BUF..];
    ss, steps := Extended(ss0, steps0, Take);
    assert [|a|, |b|][1..] == [|b|];
    ss, steps := Extended(ss, steps, Receive(PIPE_BUF));
    ss, steps := Extended(ss, steps, Receive(|rest|));
    assert rest[|rest|..] == [];
    ss, steps := Extended(ss, steps, GiveUp);
  }

  lemma TailTaken(ss0: seq<System>, steps0: seq<Step>, a: seq<Octet>, b: seq<Octet>, c: seq<Octet>)
    returns (ss: seq<System>, steps: seq<Step>)
    requires b != [] && |b| <= PIPE_BUF && |c| == PIPE_BUF + |b| && IsRun(ss0, steps0)
    requires ss0[|steps0|] == System([], Writing(c[PIPE_BUF..], PIPE_BUF), Waiting, [|b|], [a, b, c], [], 1)
    ensures IsRun(ss, steps) && ss[|steps|].lost == 1
    ensures ss[|steps|].sent == [a, b, c] && ss[|steps|].decoded == [c[PIPE_BUF..]]
  {
    hide IsRun;
    var tail := c[PIPE_BUF..];
    ss, steps := Extended(ss0, steps0, Write);
    assert tail[..|tail|] == tail && tail[|tail|..] == [] && [] + tail == tail;
    ss, steps := Extended(ss, steps, Notify);
    ss, steps := Extended(ss, steps, Take);
    ss, steps := Extended(ss, steps, Receive(|b|));
    assert [] + tail[..|b|] == tail;
  }
}
