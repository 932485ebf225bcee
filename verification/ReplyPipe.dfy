/** Replies of the I/O child to the status service: bytes through a pipe, then a signal with their number. */
module ReplyPipe {
  import opened Common
  import opened Octets

  const PIPE_BUF := 4096
  const CAPACITY := 65536

  /** How much of what is left one write or one read moves at most. */
  function Chunk(data: seq<Octet>): (n: nat)
    ensures n <= |data| && n <= PIPE_BUF && (data != [] ==> n > 0)
  {
    Min(PIPE_BUF, |data|)
  }

  class Pipe {
    var bytes: seq<Octet>

    constructor ()
      ensures bytes == []
    {
      bytes := [];
    }

    /** The child writes a reply piece by piece; a reply that fits never blocks. */
    method WriteReply(reply: seq<Octet>) returns (written: nat)
      requires |bytes| + |reply| <= CAPACITY
      modifies this
      ensures bytes == old(bytes) + reply && written == |reply|
    {
      var data := reply;
      written := 0;
      while true
        invariant bytes + data == old(bytes) + reply && written + |data| == |reply|
        decreases |data|
      {
        var n := Chunk(data);
        bytes, written, data := bytes + data[..n], written + n, data[n..];
        if data == [] {
          break;
        }
      }
    }

    /**
     The service reads what is there, each read returning between one byte and PIPE_BUF, until it has as many bytes
     as the signal said or nothing is left. It decodes exactly so many bytes, or drains the pipe and decodes nothing.
     */
    method ReadReply(expected: nat) returns (decoded: Option<seq<Octet>>)
      modifies this
      ensures decoded.Some? ==> expected <= |old(bytes)|
      ensures decoded.Some? ==> decoded.value == old(bytes)[..expected] && bytes == old(bytes)[expected..]
      ensures decoded.None? ==> bytes == []
      ensures expected == |old(bytes)| ==> decoded == Some(old(bytes)) && bytes == []
      ensures expected > |old(bytes)| ==> decoded.None?
    {
      var data: seq<Octet> := [];
      while bytes != []
        invariant data + bytes == old(bytes)
        invariant data != [] ==> |data| != expected
        invariant |data| <= |old(bytes)|
        decreases |bytes|
      {
        var most := Chunk(bytes);
        var n: nat :| 1 <= n <= most;
        data, bytes := data + bytes[..n], bytes[n..];
        if |data| == expected {
          break;
        }
      }
      if |data| == expected {
        assert old(bytes)[..expected] == data && old(bytes)[..|old(bytes)|] == old(bytes);
        decoded := Some(data);
      } else {
        decoded := None;
      }
    }

    /** The same when every read returns as much as it can, as pipe reads do. */
    method ReadReplyGreedily(expected: nat) returns (decoded: Option<seq<Octet>>)
      modifies this
      ensures decoded.Some? <==> expected == |old(bytes)| || (0 < expected < |old(bytes)| && expected % 4096 == 0)
      ensures decoded.Some? ==> decoded.value == old(bytes)[..expected] && bytes == old(bytes)[expected..]
      ensures decoded.None? ==> bytes == []
    {
      var data: seq<Octet> := [];
      while bytes != []
        invariant data + bytes == old(bytes)
        invariant data != [] ==> |data| != expected
        invariant bytes != [] ==> |data| % PIPE_BUF == 0
        invariant 0 < expected < |old(bytes)| && expected % PIPE_BUF == 0 ==> |data| < expected
        decreases |bytes|
      {
        var n := Chunk(bytes);
        data, bytes := data + bytes[..n], bytes[n..];
        if |data| == expected {
          break;
        }
      }
      if |data| == expected {
        assert old(bytes)[..expected] == data && old(bytes)[..|old(bytes)|] == old(bytes);
        decoded := Some(data);
      } else {
        decoded := None;
      }
    }
  }

  // ---------------------------------------------------------------- two processes

  datatype Child = Idle | Writing(left: seq<Octet>, written: nat) | Notifying(written: nat)
  datatype Parent = Waiting | Reading(expected: nat, data: seq<Octet>)

  datatype System = System(pipe: seq<Octet>, child: Child, parent: Parent, signals: seq<nat>,
                           sent: seq<seq<Octet>>, decoded: seq<seq<Octet>>, lost: nat)

  const START := System([], Idle, Waiting, [], [], [], 0)

  datatype Step = Send(reply: seq<Octet>) | Write | Notify | Take | Receive(n: nat) | GiveUp

  /** Nothing under way. */
  predicate AtRest(s: System) {
    s.pipe == [] && s.child.Idle? && s.parent.Waiting? && s.signals == []
  }

  /** The child takes the next reply, which is not empty, as soon as it has announced the one before, read or not. */
  predicate Enabled(s: System, step: Step) {
    match step
    case Send(reply) => s.child.Idle? && reply != []
    case Write => s.child.Writing? && |s.pipe| + Chunk(s.child.left) <= CAPACITY
    case Notify => s.child.Notifying?
    case Take => s.parent.Waiting? && s.signals != []
    case Receive(n) => s.parent.Reading? && 1 <= n <= Chunk(s.pipe)
    case GiveUp => s.parent.Reading? && s.pipe == []
  }

  function Do(s: System, step: Step): System
    requires Enabled(s, step)
  {
    match step
    case Send(reply) => s.(child := Writing(reply, 0), sent := s.sent + [reply])
    case Write =>
      var n := Chunk(s.child.left);
      var left, written := s.child.left[n..], s.child.written + n;
      s.(pipe := s.pipe + s.child.left[..n], child := if left == [] then Notifying(written) else Writing(left, written))
    case Notify => s.(child := Idle, signals := s.signals + [s.child.written])
    case Take => s.(parent := Reading(s.signals[0], []), signals := s.signals[1..])
    case Receive(n) =>
      var data := s.parent.data + s.pipe[..n];
      var s' := s.(pipe := s.pipe[n..]);
      if |data| == s.parent.expected then s'.(parent := Waiting, decoded := s.decoded + [data])
      else s'.(parent := Reading(s.parent.expected, data))
    case GiveUp =>
      if |s.parent.data| == s.parent.expected then s.(parent := Waiting, decoded := s.decoded + [s.parent.data])
      else s.(parent := Waiting, lost := s.lost + 1)
  }

  /** Every reply sent has been decoded but possibly the last, which is on its way in one of four stages. */
  ghost predicate InOrder(s: System) {
    && s.lost == 0 && |s.pipe| <= CAPACITY
    && (AtRest(s) ==> s.decoded == s.sent)
    && (!AtRest(s) ==> s.sent != [] && s.decoded == s.sent[..|s.sent| - 1] && Stage(s, s.sent[|s.sent| - 1]))
    && forall i :: 0 <= i < |s.decoded| ==> |s.decoded[i]| <= CAPACITY
  }

  ghost predicate Stage(s: System, reply: seq<Octet>) {
    match s.child
    case Writing(left, written) =>
      && s.parent.Waiting? && s.signals == [] && left != [] && reply != [] && s.pipe + left == reply
      && written == |s.pipe| && |s.pipe| % PIPE_BUF == 0
    case Notifying(written) =>
      s.parent.Waiting? && s.signals == [] && reply != [] && s.pipe == reply && written == |reply|
    case Idle =>
      |reply| <= CAPACITY && reply != [] &&
      match s.parent
      case Waiting => s.pipe == reply && s.signals == [|reply|]
      case Reading(expected, data) =>
        s.signals == [] && expected == |reply| && data + s.pipe == reply && |data| < expected
  }

  lemma StepKeepsOrder(s: System, step: Step)
    requires InOrder(s) && Enabled(s, step) && (step.Send? ==> AtRest(s))
    ensures InOrder(Do(s, step))
  {
    var s' := Do(s, step);
    match step
    case Send(reply) =>
      assert s'.sent[..|s.sent|] == s.sent;
      assert [] + reply == reply;
    case Write =>
      WriteKeepsOrder(s);
    case Notify =>
    case Take =>
      assert [] + s.pipe == s.pipe;
    case Receive(n) =>
      ReceiveKeepsOrder(s, n);
    case GiveUp =>
  }

  lemma WriteKeepsOrder(s: System)
    requires InOrder(s) && Enabled(s, Write)
    ensures InOrder(Do(s, Write))
  {
    var n, left := Chunk(s.child.left), s.child.left;
    assert left[..n] + left[n..] == left;
    assert s.pipe + left[..n] + left[n..] == s.pipe + left;
    assert left[n..] == [] ==> s.pipe + left[..n] + [] == s.pipe + left[..n];
  }

  lemma ReceiveKeepsOrder(s: System, n: nat)
    requires InOrder(s) && Enabled(s, Receive(n))
    ensures InOrder(Do(s, Receive(n)))
  {
    var reply, data := s.sent[|s.sent| - 1], s.parent.data + s.pipe[..n];
    assert s.pipe[..n] + s.pipe[n..] == s.pipe;
    assert data + s.pipe[n..] == reply;
    if |data| == s.parent.expected {
      assert s.pipe[n..] == [] && data == reply;
      assert s.sent == s.sent[..|s.sent| - 1] + [reply];
    }
  }

  ghost predicate IsRun(ss: seq<System>, steps: seq<Step>) {
    && |ss| == |steps| + 1 && ss[0] == START
    && forall i :: 0 <= i < |steps| ==> Enabled(ss[i], steps[i]) && ss[i + 1] == Do(ss[i], steps[i])
  }

  /** Each reply is asked for, and so sent, only when the one before was consumed. */
  ghost predicate OneAtATime(ss: seq<System>, steps: seq<Step>)
    requires IsRun(ss, steps)
  {
    forall i :: 0 <= i < |steps| && steps[i].Send? ==> AtRest(ss[i])
  }

  /** Then, over all interleavings and all read sizes, replies are decoded whole and in order, and none is lost. */
  lemma {:induction false} RunsKeepOrder(ss: seq<System>, steps: seq<Step>, i: nat)
    requires IsRun(ss, steps) && OneAtATime(ss, steps) && i <= |steps|
    ensures InOrder(ss[i])
  {
    if i > 0 {
      RunsKeepOrder(ss, steps, i - 1);
      StepKeepsOrder(ss[i - 1], steps[i - 1]);
    }
  }

  /** What a system still has to do before it rests: bytes to write and to read, and the steps between. */
  function ToDo(s: System): nat {
    (match s.child case Idle => 0 case Writing(left, _) => 3 * |left| + 3 case Notifying(_) => 3)
    + 2 * |s.signals| + 2 * |s.pipe| + (if s.parent.Reading? then 1 else 0)
  }

  /** A reply under way is stuck exactly when it is longer than the pipe and has filled it. */
  lemma StuckIff(s: System)
    requires InOrder(s) && !AtRest(s)
    ensures (forall step :: Enabled(s, step) ==> step.Send?)
       <==> |s.sent[|s.sent| - 1]| > CAPACITY && |s.pipe| == CAPACITY
  {
    if s.child.Writing? {
      var reply := s.sent[|s.sent| - 1];
      assert |reply| == |s.pipe| + |s.child.left|;
      assert |s.pipe| < CAPACITY ==> |s.pipe| + PIPE_BUF <= CAPACITY;
      assert |s.pipe| == CAPACITY ==> forall step :: !Enabled(s, step);
      assert |s.pipe| < CAPACITY ==> Enabled(s, Write);
    } else if s.child.Notifying? {
      assert Enabled(s, Notify);
    } else if s.parent.Waiting? {
      assert Enabled(s, Take);
    } else {
      assert Enabled(s, Receive(1));
    }
  }

  /** Otherwise every step brings rest nearer, so no run goes on for ever before the reply is decoded. */
  lemma StepsBringRest(s: System, step: Step)
    requires InOrder(s) && !AtRest(s) && Enabled(s, step) && !step.Send?
    ensures ToDo(Do(s, step)) < ToDo(s)
  {
    if step.Write? {
      var n := Chunk(s.child.left);
      assert |s.child.left[n..]| == |s.child.left| - n && n > 0;
    }
  }
}
