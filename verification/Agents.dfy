/** Matching the supplies a device reports against those its model lists, and the numbered results. */
module Agents {
  import opened Common

  /** A supply reported by the device. */
  datatype Agent = Agent(kind: int, typ: int, sku: Option<string>, health: Option<int>, level: Option<int>,
                         trigger: Option<int>, known: bool, ack: bool, hpInk: bool, virgin: bool, dvc: int, id: int)

  /** A supply listed for the model. */
  datatype Listing = Listing(kind: int, typ: int, sku: string)

  /** One numbered supply of the results; `low` when it was reported as running out. */
  datatype Shown = Shown(kind: int, typ: int, sku: string, health: int, level: int, trigger: int, low: bool,
                         known: bool, ack: bool, hpInk: bool, virgin: bool, dvc: int, id: int)

  const IDLE := 1000
  const OUT_OF_INK := 1026
  const POWER_SAVE := 1046
  const LOW_INK_BASE := 1500
  const LOW_TONER_BASE := 1600
  const HEALTH_OK := 0
  const HEALTH_FAIR := 1
  const HEALTH_MISINSTALLED := 1
  const KIND_HEAD := 1
  const TRIGGER_SUFFICIENT := 0
  const TRIGGER_MAY_BE_LOW := 5
  const TRIGGER_ALMOST_OUT := 7

  /** What the model data gives for the query: supplies by region and number. */
  type ModelData = map<(nat, nat), Listing>

  // ---------------------------------------------------------------- specification

  predicate Dynamic(agents: seq<Agent>) {
    exists i :: 0 <= i < |agents| && agents[i].sku.GetOr("") != ""
  }

  /** A supply to be shown: the reported one and the SKU it is shown with. */
  datatype Match = Match(agent: Agent, sku: string)

  predicate Same(agent: Agent, l: Listing) { agent.kind == l.kind && agent.typ == l.typ }

  /** The first reported supply of equal kind and type. */
  function FirstSame(agents: seq<Agent>, l: Listing): Option<Agent> {
    if agents == [] then None
    else if Same(agents[0], l) then Some(agents[0])
    else FirstSame(agents[1..], l)
  }

  /** It is reported before any other of that kind and type, and missing only when none is of both. */
  lemma {:induction false} FirstSameIs(agents: seq<Agent>, l: Listing, i: nat)
    requires i < |agents| && forall j :: 0 <= j < i ==> agents[j].kind != l.kind || agents[j].typ != l.typ
    ensures agents[i].kind == l.kind && agents[i].typ == l.typ ==> FirstSame(agents, l) == Some(agents[i])
    ensures FirstSame(agents, l) == None <==>
              forall j :: i <= j < |agents| ==> agents[j].kind != l.kind || agents[j].typ != l.typ
  {
    if i > 0 {
      FirstSameIs(agents[1..], l, i - 1);
      assert forall j :: i <= j < |agents| ==> agents[j] == agents[1..][j - 1];
      assert forall j :: i - 1 <= j < |agents| - 1 ==> agents[1..][j] == agents[j + 1];
    } else {
      assert forall j :: 0 < j < |agents| ==> agents[j] == agents[1..][j - 1];
      FirstNone(agents, l);
    }
  }

  lemma {:induction false} FirstNone(agents: seq<Agent>, l: Listing)
    ensures FirstSame(agents, l) == None <==>
              forall j :: 0 <= j < |agents| ==> agents[j].kind != l.kind || agents[j].typ != l.typ
  {
    if agents != [] {
      FirstNone(agents[1..], l);
      assert forall j :: 0 < j < |agents| ==> agents[j] == agents[1..][j - 1];
      assert forall j :: 0 <= j < |agents| - 1 ==> agents[1..][j] == agents[j + 1];
    }
  }

  /** The listings of a region from number a on, up to the first missing one. */
  function Listings(mq: ModelData, r: nat, a: nat): seq<Listing>
    decreases |Remaining(mq, a)|
  {
    if (r, a) !in mq || mq[(r, a)].kind == -1 then []
    else
      assert Remaining(mq, a + 1) < Remaining(mq, a) by { Shrinks(mq, r, a); }
      SmallerSet(Remaining(mq, a + 1), Remaining(mq, a));
      [mq[(r, a)]] + Listings(mq, r, a + 1)
  }

  function Remaining(mq: ModelData, a: nat): set<(nat, nat)> {
    set k | k in mq && k.1 >= a
  }

  lemma Shrinks(mq: ModelData, r: nat, a: nat)
    requires (r, a) in mq
    ensures Remaining(mq, a + 1) < Remaining(mq, a)
  {
    assert (r, a) in Remaining(mq, a);
  }

  /** For each listing in order the first reported supply like it; listings without one are skipped. */
  function Matched(agents: seq<Agent>, ls: seq<Listing>): seq<Match> {
    if ls == [] then []
    else match FirstSame(agents, ls[0])
      case None => Matched(agents, ls[1..])
      case Some(agent) => [Match(agent, ls[0].sku)] + Matched(agents, ls[1..])
  }

  /** The reported supplies up to the first that carries no SKU at all. */
  function WithSku(agents: seq<Agent>): seq<Match> {
    if agents == [] || agents[0].sku.None? then []
    else [Match(agents[0], agents[0].sku.value)] + WithSku(agents[1..])
  }

  /** The region actually used: 0 if the model lists no first supply for it. */
  function Region(mq: ModelData, r: nat): nat {
    if r > 0 && ((r, 1) !in mq || mq[(r, 1)].kind == 0) then 0 else r
  }

  function Matches(agents: seq<Agent>, mq: ModelData, r: nat): seq<Match> {
    if Dynamic(agents) then WithSku(agents) else Matched(agents, Listings(mq, Region(mq, r), 1))
  }

  /** In the dynamic case a supply without a SKU ends the query with a failure. */
  predicate Completes(agents: seq<Agent>) {
    Dynamic(agents) ==> forall i | 0 <= i < |agents| :: agents[i].sku.Some?
  }

  predicate RunsLow(status: int, m: Agent) {
    var health, trigger := m.health.GetOr(HEALTH_OK), m.trigger.GetOr(TRIGGER_SUFFICIENT);
    && (status == POWER_SAVE || status == IDLE || status == OUT_OF_INK)
    && (health == HEALTH_OK || (health == HEALTH_FAIR && m.kind == KIND_HEAD))
    && trigger >= TRIGGER_MAY_BE_LOW
  }

  function Show(status: int, m: Match): Shown {
    var g, low := m.agent, RunsLow(status, m.agent);
    Shown(g.kind, g.typ, m.sku, g.health.GetOr(HEALTH_OK), g.level.GetOr(100), g.trigger.GetOr(TRIGGER_SUFFICIENT), low,
          low && g.known, low && g.ack, low && g.hpInk, low && g.virgin,
          if low then g.dvc else 0, if low then g.id else 0)
  }

  /** The numbered results after the first n matches have been written over them. */
  function Write(dq: map<nat, Shown>, status: int, ms: seq<Match>, n: nat): map<nat, Shown>
    requires n <= |ms|
  {
    if n == 0 then dq else Write(dq, status, ms, n - 1)[n := Show(status, ms[n - 1])]
  }

  /** The status code after the first n matches: that of the last supply running low. */
  function Code(code: int, status: int, ink: bool, ms: seq<Match>, n: nat): int
    requires n <= |ms|
  {
    if n == 0 then code
    else if RunsLow(status, ms[n - 1].agent) then
      ms[n - 1].agent.typ + (if ink then LOW_INK_BASE else LOW_TONER_BASE)
    else Code(code, status, ink, ms, n - 1)
  }

  /** What is shown of the listings of a device that was not found. */
  function Absent(l: Listing): Shown {
    Shown(l.kind, l.typ, l.sku, HEALTH_MISINSTALLED, 0, TRIGGER_ALMOST_OUT, false, false, false, false, false, 0, 0)
  }

  /** The listings of a region from number a on, up to the first missing or of kind 0. */
  function AbsentListings(mq: ModelData, r: nat, a: nat): seq<Listing>
    decreases |Remaining(mq, a)|
  {
    if EndsAt(mq, r, a) then []
    else
      assert Remaining(mq, a + 1) < Remaining(mq, a) by { Shrinks(mq, r, a); }
      SmallerSet(Remaining(mq, a + 1), Remaining(mq, a));
      [mq[(r, a)]] + AbsentListings(mq, r, a + 1)
  }

  predicate EndsAt(mq: ModelData, r: nat, a: nat) {
    (r, a) !in mq || mq[(r, a)].kind == 0
  }

  function WriteAbsent(dq: map<nat, Shown>, ls: seq<Listing>, n: nat): map<nat, Shown>
    requires n <= |ls|
  {
    if n == 0 then dq else WriteAbsent(dq, ls, n - 1)[n := Absent(ls[n - 1])]
  }

  // ---------------------------------------------------------------- numbered results

  /** The numbers in use are 1..k. */
  ghost predicate Numbered(dq: map<nat, Shown>, k: nat) {
    forall i: nat :: i in dq <==> 1 <= i <= k
  }

  lemma {:induction false} WriteNumbers(dq: map<nat, Shown>, status: int, ms: seq<Match>, n: nat, k: nat)
    requires n <= |ms| && Numbered(dq, k)
    ensures Numbered(Write(dq, status, ms, n), if n <= k then k else n)
    ensures forall i :: 1 <= i <= n ==> Write(dq, status, ms, n)[i] == Show(status, ms[i - 1])
    ensures forall i :: n < i <= k ==> Write(dq, status, ms, n)[i] == dq[i]
  {
    hide Show;
    if n > 0 {
      WriteNumbers(dq, status, ms, n - 1, k);
    }
  }

  lemma {:induction false} WriteAbsentNumbers(dq: map<nat, Shown>, ls: seq<Listing>, n: nat, k: nat)
    requires n <= |ls| && Numbered(dq, k)
    ensures Numbered(WriteAbsent(dq, ls, n), if n <= k then k else n)
  {
    if n > 0 {
      WriteAbsentNumbers(dq, ls, n - 1, k);
    }
  }

  /** The results after the listings of a region have been written over them. */
  function ShowAbsent(mq: ModelData, dq: map<nat, Shown>, r: nat): map<nat, Shown> {
    var ls := AbsentListings(mq, r, 1);
    WriteAbsent(dq, ls, |ls|)
  }

  /** A query of a region: the device found, with what it reports, or not found. */
  datatype Query = Found(agents: seq<Agent>, r: nat, status: int) | NotFound(r: nat)

  function After(mq: ModelData, dq: map<nat, Shown>, q: Query): map<nat, Shown> {
    match q
    case Found(agents, r, status) => var ms := Matches(agents, mq, r); Write(dq, status, ms, |ms|)
    case NotFound(_) => ShowAbsent(mq, dq, 0)
  }

  function Count(mq: ModelData, q: Query): nat {
    match q
    case Found(agents, r, _) => |Matches(agents, mq, r)|
    case NotFound(_) => |AbsentListings(mq, 0, 1)|
  }

  function AfterAll(mq: ModelData, qs: seq<Query>): map<nat, Shown> {
    if qs == [] then map[] else After(mq, AfterAll(mq, qs[..|qs| - 1]), qs[|qs| - 1])
  }

  function Highest(mq: ModelData, qs: seq<Query>): nat {
    if qs == [] then 0
    else
      var before, now := Highest(mq, qs[..|qs| - 1]), Count(mq, qs[|qs| - 1]);
      if now <= before then before else now
  }

  /** After any queries the numbers in use are 1..k, k being the most supplies any of them showed. */
  lemma {:induction false} AlwaysNumbered(mq: ModelData, qs: seq<Query>)
    ensures Numbered(AfterAll(mq, qs), Highest(mq, qs))
  {
    hide Matches, AbsentListings, Show;
    if qs != [] {
      var l := |qs| - 1;
      AlwaysNumbered(mq, qs[..l]);
      var dq, k := AfterAll(mq, qs[..l]), Highest(mq, qs[..l]);
      match qs[l]
      case Found(agents, r, status) =>
        WriteNumbers(dq, status, Matches(agents, mq, r), |Matches(agents, mq, r)|, k);
      case NotFound(_) =>
        WriteAbsentNumbers(dq, AbsentListings(mq, 0, 1), |AbsentListings(mq, 0, 1)|, k);
    }
  }

  /** The scan that reads numbers from a on until one is missing. */
  function Scan(dq: map<nat, Shown>, a: nat): seq<Shown>
    decreases |set i | i in dq && i >= a|
  {
    if a !in dq then []
    else
      var s, t := set i | i in dq && i >= a + 1, set i | i in dq && i >= a;
      assert s < t by { assert a in t; }
      SmallerSet(s, t);
      [dq[a]] + Scan(dq, a + 1)
  }

  /** On numbered results the scan misses nothing. */
  lemma {:induction false} ScanMissesNone(dq: map<nat, Shown>, k: nat, a: nat)
    requires Numbered(dq, k) && 1 <= a <= k + 1
    ensures Scan(dq, a) == seq(k + 1 - a, i requires 0 <= i < k + 1 - a => dq[a + i])
    decreases k + 1 - a
  {
    if a <= k {
      ScanMissesNone(dq, k, a + 1);
    }
  }

  /** The scan shows exactly the supplies of the last query unless an earlier query left more behind. */
  lemma ScanShowsLastQuery(mq: ModelData, qs: seq<Query>, agents: seq<Agent>, r: nat, status: int)
    ensures var ms := Matches(agents, mq, r);
            var shown := seq(|ms|, i requires 0 <= i < |ms| => Show(status, ms[i]));
            Scan(AfterAll(mq, qs + [Found(agents, r, status)]), 1) == shown <==> Highest(mq, qs) <= |ms|
  {
    hide Matches, AbsentListings, Show, Scan;
    var ms, all := Matches(agents, mq, r), qs + [Found(agents, r, status)];
    assert all[..|qs|] == qs;
    var dq, k := AfterAll(mq, qs), Highest(mq, qs);
    AlwaysNumbered(mq, qs);
    AlwaysNumbered(mq, all);
    WriteNumbers(dq, status, ms, |ms|, k);
    ScanMissesNone(AfterAll(mq, all), Highest(mq, all), 1);
  }

  // ---------------------------------------------------------------- the region of a device not found

  /** Both regions list the same supplies, number by number, and end at the same number. */
  ghost predicate ListedAlike(mq: ModelData, r: nat, q: nat, a: nat) {
    exists n :: AlikeUpTo(mq, r, q, a, n)
  }

  ghost predicate AlikeUpTo(mq: ModelData, r: nat, q: nat, a: nat, n: nat) {
    && a <= n && EndsAt(mq, r, n) && EndsAt(mq, q, n)
    && forall i :: a <= i < n ==> !EndsAt(mq, r, i) && !EndsAt(mq, q, i) && mq[(r, i)] == mq[(q, i)]
  }

  lemma {:induction false} SameListings(mq: ModelData, r: nat, q: nat, a: nat)
    ensures AbsentListings(mq, r, a) == AbsentListings(mq, q, a) <==> ListedAlike(mq, r, q, a)
    decreases |Remaining(mq, a)|
  {
    hide EndsAt, ListedAlike;
    if EndsAt(mq, r, a) || EndsAt(mq, q, a) {
      AlikeEnd(mq, r, q, a);
    } else {
      NotEnded(mq, r, a);
      NotEnded(mq, q, a);
      Shrinks(mq, r, a);
      SmallerSet(Remaining(mq, a + 1), Remaining(mq, a));
      SameListings(mq, r, q, a + 1);
      var l, m := AbsentListings(mq, r, a), AbsentListings(mq, q, a);
      assert l[0] == mq[(r, a)] && l[1..] == AbsentListings(mq, r, a + 1);
      assert m[0] == mq[(q, a)] && m[1..] == AbsentListings(mq, q, a + 1);
      assert l == m <==> mq[(r, a)] == mq[(q, a)] && AbsentListings(mq, r, a + 1) == AbsentListings(mq, q, a + 1);
      AlikeStep(mq, r, q, a);
    }
  }

  lemma AlikeEnd(mq: ModelData, r: nat, q: nat, a: nat)
    requires EndsAt(mq, r, a) || EndsAt(mq, q, a)
    ensures ListedAlike(mq, r, q, a) <==> EndsAt(mq, r, a) && EndsAt(mq, q, a)
  {
    hide EndsAt;
    if EndsAt(mq, r, a) && EndsAt(mq, q, a) {
      assert AlikeUpTo(mq, r, q, a, a);
    }
  }

  lemma AlikeStep(mq: ModelData, r: nat, q: nat, a: nat)
    requires !EndsAt(mq, r, a) && !EndsAt(mq, q, a) && (r, a) in mq && (q, a) in mq
    ensures ListedAlike(mq, r, q, a) <==> mq[(r, a)] == mq[(q, a)] && ListedAlike(mq, r, q, a + 1)
  {
    hide EndsAt;
    if ListedAlike(mq, r, q, a) {
      var n :| AlikeUpTo(mq, r, q, a, n);
      assert AlikeUpTo(mq, r, q, a + 1, n);
    }
    if mq[(r, a)] == mq[(q, a)] && ListedAlike(mq, r, q, a + 1) {
      var n :| AlikeUpTo(mq, r, q, a + 1, n);
      assert AlikeUpTo(mq, r, q, a, n);
    }
  }

  lemma NotEnded(mq: ModelData, r: nat, a: nat)
    requires !EndsAt(mq, r, a)
    ensures (r, a) in mq
  {
  }

  lemma {:induction false} AbsentAt(dq: map<nat, Shown>, ls: seq<Listing>, n: nat)
    requires n <= |ls|
    ensures forall i :: 1 <= i <= n ==> i in WriteAbsent(dq, ls, n) && WriteAbsent(dq, ls, n)[i] == Absent(ls[i - 1])
    ensures forall i :: i in WriteAbsent(dq, ls, n) <==> i in dq || 1 <= i <= n
  {
    hide Absent;
    if n > 0 {
      AbsentAt(dq, ls, n - 1);
    }
  }

  /** Results without remains of earlier queries show which listings were written. */
  lemma AbsentTellsListings(ls: seq<Listing>, ms: seq<Listing>)
    requires WriteAbsent(map[], ls, |ls|) == WriteAbsent(map[], ms, |ms|)
    ensures ls == ms
  {
    AbsentAt(map[], ls, |ls|);
    AbsentAt(map[], ms, |ms|);
    var w := WriteAbsent(map[], ls, |ls|);
    assert (|ls| == 0 || |ls| in w) && (|ms| == 0 || |ms| in w);
    forall i | 0 <= i < |ls|
      ensures ls[i] == ms[i]
    {
      assert w[i + 1] == Absent(ls[i]) == Absent(ms[i]);
    }
  }

  /**
   A query for a device not found shows what the region asked for lists, with the fallback of a found device, exactly
   when that region is 0 or lists the same supplies as region 0.
   */
  lemma AbsentRegionIff(mq: ModelData, r: nat)
    ensures (forall dq :: After(mq, dq, NotFound(r)) == ShowAbsent(mq, dq, Region(mq, r)))
       <==> Region(mq, r) == 0 || ListedAlike(mq, 0, Region(mq, r), 1)
  {
    hide ListedAlike;
    var q := Region(mq, r);
    SameListings(mq, 0, q, 1);
    if forall dq :: After(mq, dq, NotFound(r)) == ShowAbsent(mq, dq, q) {
      assert After(mq, map[], NotFound(r)) == ShowAbsent(mq, map[], q);
      AbsentTellsListings(AbsentListings(mq, 0, 1), AbsentListings(mq, q, 1));
    }
  }

  /** A device of region 2 that is not found: the listing of region 0 is shown instead of its own. */
  lemma WrongRegionShown()
    ensures var mq: ModelData := map[(0, 1) := Listing(1, 1, "56"), (2, 1) := Listing(1, 1, "857")];
            After(mq, map[], NotFound(2)) != ShowAbsent(mq, map[], Region(mq, 2))
  {
    var mq: ModelData := map[(0, 1) := Listing(1, 1, "56"), (2, 1) := Listing(1, 1, "857")];
    assert AbsentListings(mq, 0, 2) == AbsentListings(mq, 2, 2) == [];
    var l, m := AbsentListings(mq, 0, 1), AbsentListings(mq, 2, 1);
    assert l[0].sku == "56" && m[0].sku == "857" && |l[0].sku| != |m[0].sku|;
    if After(mq, map[], NotFound(2)) == ShowAbsent(mq, map[], 2) {
      AbsentTellsListings(l, m);
      assert false;
    }
  }

  // ---------------------------------------------------------------- queries that mislead

  function Ink(typ: int, sku: Option<string>): Agent {
    Agent(2, typ, sku, None, None, None, false, false, false, false, 0, 0)
  }

  /** Two supplies at first, one later: the second is still shown. */
  lemma StaleSupplyShown()
    ensures var two, one := [Ink(1, Some("56")), Ink(2, Some("57"))], [Ink(1, Some("56"))];
            var dq := AfterAll(map[], [Found(two, 0, IDLE), Found(one, 0, IDLE)]);
            |Matches(one, map[], 0)| == 1 && |Scan(dq, 1)| == 2
  {
    hide Scan, Show, Write, AfterAll;
    var two, one := [Ink(1, Some("56")), Ink(2, Some("57"))], [Ink(1, Some("56"))];
    SkusCount(two);
    SkusCount(one);
    var first, second := Found(two, 0, IDLE), Found(one, 0, IDLE);
    assert [first, second][..1] == [first] && [first][..0] == [];
    assert Highest(map[], []) == 0;
    assert Highest(map[], [first]) == 2;
    assert Highest(map[], [first, second]) == 2;
    AlwaysNumbered(map[], [first, second]);
    ScanMissesNone(AfterAll(map[], [first, second]), 2, 1);
  }

  lemma {:induction false} SkusCount(agents: seq<Agent>)
    requires forall g :: g in agents ==> g.sku.Some? && g.sku.value != ""
    ensures |WithSku(agents)| == |agents|
    ensures agents != [] ==> Dynamic(agents)
  {
    if agents != [] {
      assert agents[0] in agents;
      SkusCount(agents[1..]);
    }
  }

  /** One supply with a SKU and one without: the query breaks off after the first. */
  lemma MissingSkuFails()
    ensures var agents := [Ink(1, Some("56")), Ink(2, None)];
            !Completes(agents) && Matches(agents, map[], 0) == [Match(agents[0], "56")]
  {
    var agents := [Ink(1, Some("56")), Ink(2, None)];
    assert agents[0].sku.GetOr("") != "" && agents[1].sku.None?;
    assert agents[1..] == [Ink(2, None)];
    assert WithSku(agents[1..]) == [];
  }

  // ---------------------------------------------------------------- the loops

  lemma {:induction false} WriteStep(dq: map<nat, Shown>, status: int, ms: seq<Match>, more: seq<Match>, n: nat)
    requires n <= |ms|
    ensures Write(dq, status, ms + more, n) == Write(dq, status, ms, n)
  {
    if n > 0 {
      WriteStep(dq, status, ms, more, n - 1);
    }
  }

  lemma {:induction false} CodeStep(code: int, status: int, ink: bool, ms: seq<Match>, more: seq<Match>, n: nat)
    requires n <= |ms|
    ensures Code(code, status, ink, ms + more, n) == Code(code, status, ink, ms, n)
  {
    if n > 0 {
      CodeStep(code, status, ink, ms, more, n - 1);
    }
  }

  class DeviceQuery {
    const mq: ModelData
    const ink: bool
    var dq: map<nat, Shown>
    var statusCode: int

    constructor (mq: ModelData, ink: bool)
      ensures this.mq == mq && this.ink == ink && dq == map[] && statusCode == 0
    {
      this.mq, this.ink := mq, ink;
      dq, statusCode := map[], 0;
    }

    method HasSku(agents: seq<Agent>) returns (dynamic: bool)
      ensures dynamic == Dynamic(agents)
    {
      for i := 0 to |agents|
        invariant forall j :: 0 <= j < i ==> agents[j].sku.GetOr("") == ""
      {
        if agents[i].sku.Some? && agents[i].sku.value != "" {
          return true;
        }
      }
      return false;
    }

    method FindSame(agents: seq<Agent>, l: Listing) returns (found: Option<Agent>)
      ensures found == FirstSame(agents, l)
      ensures found.Some? ==> exists i ::
                && 0 <= i < |agents| && found.value == agents[i] && agents[i].kind == l.kind && agents[i].typ == l.typ
                && forall j :: 0 <= j < i ==> agents[j].kind != l.kind || agents[j].typ != l.typ
      ensures found.None? ==> forall j :: 0 <= j < |agents| ==> agents[j].kind != l.kind || agents[j].typ != l.typ
    {
      for i := 0 to |agents|
        invariant forall j :: 0 <= j < i ==> agents[j].kind != l.kind || agents[j].typ != l.typ
        invariant FirstSame(agents, l) == FirstSame(agents[i..], l)
      {
        assert agents[i..][0] == agents[i] && agents[i..][1..] == agents[i + 1..];
        if Same(agents[i], l) {
          return Some(agents[i]);
        }
      }
      return None;
    }

    /** Writes the supplies of a device that was found; false when a supply without a SKU broke the query off. */
    method QueryAgents(agents: seq<Agent>, r: nat) returns (ok: bool)
      modifies this
      ensures var ms := Matches(agents, mq, r);
              && dq == After(mq, old(dq), Found(agents, r, old(statusCode)))
              && statusCode == Code(old(statusCode), old(statusCode), ink, ms, |ms|)
              && ok == Completes(agents)
    {
      hide Dynamic, Listings, Show, RunsLow, Write, Code, Matched, WithSku;
      var dynamic := HasSku(agents);
      var region := Region(mq, r);
      var status := statusCode;
      var a, aa := 1, 1;
      ok := true;
      ghost var ms: seq<Match> := [];
      ghost var dq0, code0 := dq, statusCode;
      assert dq == Write(dq0, status, ms, 0) && statusCode == Code(code0, status, ink, ms, 0) by {
        NothingWritten(dq, status);
      }
      while true
        invariant a >= 1 && aa == |ms| + 1
        invariant dynamic ==> a <= |agents| + 1 && ms + WithSku(agents[a - 1..]) == WithSku(agents)
        invariant dynamic ==> forall i :: 0 <= i < a - 1 ==> agents[i].sku.Some?
        invariant !dynamic ==> ms + Matched(agents, Listings(mq, region, a)) == Matched(agents, Listings(mq, region, 1))
        invariant dq == Write(dq0, status, ms, |ms|) && statusCode == Code(code0, status, ink, ms, |ms|)
        decreases if dynamic then |agents| + 1 - a else |Remaining(mq, a)|
      {
        var found: Option<Agent>, sku := None, "";
        if dynamic {
          if a > |agents| {
            WithSkuStep(agents, a - 1);
            break;
          }
          WithSkuStep(agents, a - 1);
          if agents[a - 1].sku.None? {
            ok := false;
            break;
          }
          found, sku := Some(agents[a - 1]), agents[a - 1].sku.value;
        } else {
          ListingsStep(agents, mq, region, a);
          if (region, a) !in mq || mq[(region, a)].kind == -1 {
            break;
          }
          sku := mq[(region, a)].sku;
          found := FindSame(agents, mq[(region, a)]);
          Shrinks(mq, region, a);
          SmallerSet(Remaining(mq, a + 1), Remaining(mq, a));
        }
        if found.Some? {
          var m := Match(found.value, sku);
          WriteNext(dq0, code0, status, ms, m);
          dq := dq[aa := Show(status, m)];
          if RunsLow(status, m.agent) {
            statusCode := m.agent.typ + if ink then LOW_INK_BASE else LOW_TONER_BASE;
          }
          ms := ms + [m];
          aa := aa + 1;
        }
        a := a + 1;
      }
      assert ms == Matches(agents, mq, r);
    }

    lemma NothingWritten(dq: map<nat, Shown>, status: int)
      ensures Write(dq, status, [], 0) == dq && Code(status, status, ink, [], 0) == status
    {
    }

    lemma WriteNext(dq: map<nat, Shown>, code: int, status: int, ms: seq<Match>, m: Match)
      ensures Write(dq, status, ms + [m], |ms| + 1) == Write(dq, status, ms, |ms|)[|ms| + 1 := Show(status, m)]
      ensures Code(code, status, ink, ms + [m], |ms| + 1)
           == if RunsLow(status, m.agent) then m.agent.typ + (if ink then LOW_INK_BASE else LOW_TONER_BASE)
              else Code(code, status, ink, ms, |ms|)
    {
      hide Show, RunsLow;
      WriteStep(dq, status, ms, [m], |ms|);
      CodeStep(code, status, ink, ms, [m], |ms|);
    }

    /** Writes the supplies the model lists for a device that was not found. */
    method QueryAbsent(rType: int, rValue: Option<nat>)
      modifies this`dq
      ensures var r := if rType > 0 then rValue.GetOr(0) else 0; dq == After(mq, old(dq), NotFound(r))
    {
      hide Absent, Remaining, AbsentListings, EndsAt, WriteAbsent;
      assert dq == WriteAbsent(dq, [], 0) by {
        AbsentNone(dq);
      }
      var r: nat := if rType > 0 then rValue.GetOr(0) else 0;
      // the fallback looks up a key that still holds the unformatted pattern, so every positive region becomes 0
      if r > 0 {
        r := 0;
      }
      ghost var ls: seq<Listing> := [];
      var a := 1;
      while (r, a) in mq && mq[(r, a)].kind != 0
        invariant r == 0 && a == |ls| + 1 && ls + AbsentListings(mq, r, a) == AbsentListings(mq, 0, 1)
        invariant dq == WriteAbsent(old(dq), ls, |ls|)
        decreases |Remaining(mq, a)|
      {
        Shrinks(mq, r, a);
        SmallerSet(Remaining(mq, a + 1), Remaining(mq, a));
        AbsentStep(mq, a);
        AbsentNext(old(dq), ls, mq[(r, a)]);
        dq := dq[a := Absent(mq[(r, a)])];
        ls := ls + [mq[(r, a)]];
        a := a + 1;
      }
      AbsentStep(mq, a);
      assert ls + [] == ls;
    }
  }

  lemma AbsentNone(dq: map<nat, Shown>)
    ensures WriteAbsent(dq, [], 0) == dq
  {
  }

  lemma AbsentNext(dq: map<nat, Shown>, ls: seq<Listing>, l: Listing)
    ensures WriteAbsent(dq, ls + [l], |ls| + 1) == WriteAbsent(dq, ls, |ls|)[|ls| + 1 := Absent(l)]
  {
    hide Absent;
    WriteAbsentStep(dq, ls, [l], |ls|);
  }

  lemma AbsentStep(mq: ModelData, a: nat)
    ensures AbsentListings(mq, 0, a)
         == if (0, a) !in mq || mq[(0, a)].kind == 0 then [] else [mq[(0, a)]] + AbsentListings(mq, 0, a + 1)
  {
  }

  lemma {:induction false} WriteAbsentStep(dq: map<nat, Shown>, ls: seq<Listing>, more: seq<Listing>, n: nat)
    requires n <= |ls|
    ensures WriteAbsent(dq, ls + more, n) == WriteAbsent(dq, ls, n)
  {
    if n > 0 {
      WriteAbsentStep(dq, ls, more, n - 1);
    }
  }

  lemma WithSkuStep(agents: seq<Agent>, i: nat)
    requires i <= |agents|
    ensures i == |agents| || agents[i].sku.None? ==> WithSku(agents[i..]) == []
    ensures i < |agents| && agents[i].sku.Some? ==>
              WithSku(agents[i..]) == [Match(agents[i], agents[i].sku.value)] + WithSku(agents[i + 1..])
  {
    if i < |agents| {
      assert agents[i..][0] == agents[i] && agents[i..][1..] == agents[i + 1..];
    }
  }

  lemma ListingsStep(agents: seq<Agent>, mq: ModelData, r: nat, a: nat)
    ensures (r, a) !in mq || mq[(r, a)].kind == -1 ==> Matched(agents, Listings(mq, r, a)) == []
    ensures (r, a) in mq && mq[(r, a)].kind != -1 ==>
              var found := FirstSame(agents, mq[(r, a)]);
              Matched(agents, Listings(mq, r, a))
                == (if found.None? then [] else [Match(found.value, mq[(r, a)].sku)])
                    + Matched(agents, Listings(mq, r, a + 1))
  {
    if (r, a) in mq && mq[(r, a)].kind != -1 {
      var ls := Listings(mq, r, a);
      assert ls[0] == mq[(r, a)] && ls[1..] == Listings(mq, r, a + 1);
    }
  }
}
