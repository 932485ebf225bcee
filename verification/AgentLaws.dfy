/** What the numbered results of a query show, field by field, and where it comes from. */
module AgentLaws {
  import opened Common
  import opened Agents

  // ---------------------------------------------------------------- one result

  /** Running low: the printer is idle, saving power or out of ink, the supply is well but its level is not. */
  predicate Low(status: int, g: Agent) {
    var health := if g.health.Some? then g.health.value else 0;
    && status in {1000, 1026, 1046}
    && (health == 0 || (health == 1 && g.kind == 1))
    && g.trigger.Some? && g.trigger.value >= 5
  }

  /** A result shows this agent under this SKU; what is not reported has a default, the rest is shown of low ones. */
  predicate Shows(w: Shown, g: Agent, sku: string, status: int) {
    && w.kind == g.kind && w.typ == g.typ && w.sku == sku
    && w.health == (if g.health.Some? then g.health.value else 0)
    && w.level == (if g.level.Some? then g.level.value else 100)
    && w.trigger == (if g.trigger.Some? then g.trigger.value else 0)
    && w.low == Low(status, g)
    && if w.low then
         && w.known == g.known && w.ack == g.ack && w.hpInk == g.hpInk && w.virgin == g.virgin
         && w.dvc == g.dvc && w.id == g.id
       else
         !w.known && !w.ack && !w.hpInk && !w.virgin && w.dvc == 0 && w.id == 0
  }

  /** The results numbered 1 to n are new, all others are as they were. */
  ghost predicate OnlyNew(before: map<nat, Shown>, after: map<nat, Shown>, n: nat) {
    forall i :: if 1 <= i <= n then i in after
                else (i in after <==> i in before) && (i in before ==> after[i] == before[i])
  }

  lemma {:induction false} WriteIs(dq: map<nat, Shown>, status: int, ms: seq<Match>, n: nat)
    requires n <= |ms|
    ensures var d := Write(dq, status, ms, n);
            && OnlyNew(dq, d, n)
            && forall k :: 1 <= k <= n ==> k in d && Shows(d[k], ms[k - 1].agent, ms[k - 1].sku, status)
  {
    hide Shows, Show;
    if n > 0 {
      ShowIs(status, ms[n - 1]);
      WriteIs(dq, status, ms, n - 1);
    }
  }

  lemma ShowIs(status: int, m: Match)
    ensures Shows(Show(status, m), m.agent, m.sku, status)
  {
  }

  /** The status code turns into that of the last supply shown that is running low; without one it stays. */
  lemma {:induction false} StatusIs(code: int, status: int, ink: bool, ms: seq<Match>, i: nat)
    requires i <= |ms| && forall j :: i <= j < |ms| ==> !Low(status, ms[j].agent)
    ensures var c := Code(code, status, ink, ms, |ms|);
            if i == 0 then c == code
            else Low(status, ms[i - 1].agent) ==> c == ms[i - 1].agent.typ + if ink then 1500 else 1600
  {
    CodeUpTo(code, status, ink, ms, i, |ms|);
  }

  lemma {:induction false} CodeUpTo(code: int, status: int, ink: bool, ms: seq<Match>, i: nat, n: nat)
    requires i <= n <= |ms| && forall j :: i <= j < |ms| ==> !Low(status, ms[j].agent)
    ensures Code(code, status, ink, ms, n) == Code(code, status, ink, ms, i)
  {
    if i < n {
      assert !Low(status, ms[n - 1].agent);
      CodeUpTo(code, status, ink, ms, i, n - 1);
    }
  }

  // ---------------------------------------------------------------- listings and agents

  /** The model lists numbers a to n - 1 for a region and no number n. */
  ghost predicate Lists(mq: ModelData, q: nat, a: nat, n: nat) {
    && a <= n && (forall i :: a <= i < n ==> (q, i) in mq && mq[(q, i)].kind != -1)
    && ((q, n) in mq ==> mq[(q, n)].kind == -1)
  }

  /** Agent i is the first whose kind and type are those of the listing. */
  ghost predicate FirstLike(agents: seq<Agent>, i: nat, l: Listing) {
    && i < |agents| && agents[i].kind == l.kind && agents[i].typ == l.typ
    && forall j :: 0 <= j < i ==> agents[j].kind != l.kind || agents[j].typ != l.typ
  }

  /** The number of a listing and the position of an agent. */
  datatype Pick = Pick(number: nat, agent: nat)

  /** Each pick is a listing with the first agent like it; in order; and only listings without one are missing. */
  ghost predicate Picked(agents: seq<Agent>, mq: ModelData, q: nat, a: nat, n: nat, picks: seq<Pick>)
    requires Lists(mq, q, a, n)
  {
    && (forall k :: 0 <= k < |picks| ==>
          a <= picks[k].number < n && FirstLike(agents, picks[k].agent, mq[(q, picks[k].number)]))
    && (forall j, k :: 0 <= j < k < |picks| ==> picks[j].number < picks[k].number)
    && (forall i :: a <= i < n && (forall k :: 0 <= k < |picks| ==> picks[k].number != i) ==>
          forall j :: 0 <= j < |agents| ==> agents[j].kind != mq[(q, i)].kind || agents[j].typ != mq[(q, i)].typ)
  }

  /** A result shows kind, type and SKU of the listing picked, and what the agent picked reports. */
  ghost predicate ShowsPick(w: Shown, mq: ModelData, q: nat, agents: seq<Agent>, p: Pick, status: int) {
    && (q, p.number) in mq && p.agent < |agents|
    && w.kind == mq[(q, p.number)].kind && w.typ == mq[(q, p.number)].typ && w.sku == mq[(q, p.number)].sku
    && Shows(w, agents[p.agent], w.sku, status)
  }

  /** The matches are these picks. */
  ghost predicate PicksAre(ms: seq<Match>, agents: seq<Agent>, mq: ModelData, q: nat, picks: seq<Pick>) {
    && |ms| == |picks|
    && forall k :: 0 <= k < |picks| ==>
         && picks[k].agent < |agents| && (q, picks[k].number) in mq
         && ms[k] == Match(agents[picks[k].agent], mq[(q, picks[k].number)].sku)
  }

  lemma {:induction false} MatchedPicks(agents: seq<Agent>, mq: ModelData, q: nat, a: nat)
      returns (n: nat, picks: seq<Pick>)
    ensures Lists(mq, q, a, n) && Picked(agents, mq, q, a, n, picks)
    ensures PicksAre(Matched(agents, Listings(mq, q, a)), agents, mq, q, picks)
    decreases |Remaining(mq, a)|
  {
    hide FirstLike, Matched, Listings, FirstSame, Picked, Remaining;
    ListingsStep(agents, mq, q, a);
    if (q, a) !in mq || mq[(q, a)].kind == -1 {
      n, picks := a, [];
      assert Picked(agents, mq, q, a, n, picks) by {
        NonePicked(agents, mq, q, a);
      }
    } else {
      Shrinks(mq, q, a);
      SmallerSet(Remaining(mq, a + 1), Remaining(mq, a));
      var l := mq[(q, a)];
      var rest: seq<Pick>;
      n, rest := MatchedPicks(agents, mq, q, a + 1);
      var found, i := FirstFound(agents, l);
      if found {
        picks := [Pick(a, i)] + rest;
        TakeOne(agents, mq, q, a, n, rest, i);
      } else {
        picks := rest;
        PassOver(agents, mq, q, a, n, rest);
      }
    }
  }

  lemma NonePicked(agents: seq<Agent>, mq: ModelData, q: nat, a: nat)
    requires Lists(mq, q, a, a)
    ensures Picked(agents, mq, q, a, a, [])
  {
  }

  lemma TakeOne(agents: seq<Agent>, mq: ModelData, q: nat, a: nat, n: nat, rest: seq<Pick>, i: nat)
    requires Lists(mq, q, a, n) && a < n && FirstLike(agents, i, mq[(q, a)])
    requires Lists(mq, q, a + 1, n) && Picked(agents, mq, q, a + 1, n, rest)
    ensures Picked(agents, mq, q, a, n, [Pick(a, i)] + rest)
  {
    hide FirstLike;
    var picks := [Pick(a, i)] + rest;
    forall m | a <= m < n && forall k :: 0 <= k < |picks| ==> picks[k].number != m
      ensures forall j :: 0 <= j < |agents| ==> agents[j].kind != mq[(q, m)].kind || agents[j].typ != mq[(q, m)].typ
    {
      assert picks[0].number == a;
      assert forall k :: 0 <= k < |rest| ==> rest[k] == picks[k + 1];
    }
  }

  lemma PassOver(agents: seq<Agent>, mq: ModelData, q: nat, a: nat, n: nat, rest: seq<Pick>)
    requires Lists(mq, q, a, n) && a < n
    requires forall j :: 0 <= j < |agents| ==> agents[j].kind != mq[(q, a)].kind || agents[j].typ != mq[(q, a)].typ
    requires Lists(mq, q, a + 1, n) && Picked(agents, mq, q, a + 1, n, rest)
    ensures Picked(agents, mq, q, a, n, rest)
  {
    hide FirstLike;
  }

  lemma {:induction false} FirstFound(agents: seq<Agent>, l: Listing) returns (found: bool, i: nat)
    ensures found ==> FirstLike(agents, i, l) && FirstSame(agents, l) == Some(agents[i])
    ensures !found ==> FirstSame(agents, l) == None
                       && forall j :: 0 <= j < |agents| ==> agents[j].kind != l.kind || agents[j].typ != l.typ
  {
    if agents == [] {
      found, i := false, 0;
    } else if agents[0].kind == l.kind && agents[0].typ == l.typ {
      found, i := true, 0;
    } else {
      found, i := FirstFound(agents[1..], l);
      if found {
        assert forall j :: 0 < j <= i ==> agents[j] == agents[1..][j - 1];
        i := i + 1;
      } else {
        assert forall j :: 0 < j < |agents| ==> agents[j] == agents[1..][j - 1];
      }
    }
  }

  // ---------------------------------------------------------------- a whole query

  /**
   When no agent names its SKU, each new result shows kind, type and SKU of one listing of the region, in the order of
   the listings, with what the first agent of that kind and type reports; a listing is passed over exactly when no agent
   has both its kind and its type. The region is the one asked for unless its first listing is missing or of kind 0.
   */
  lemma ShownIsListed(mq: ModelData, dq: map<nat, Shown>, agents: seq<Agent>, r: nat, status: int)
      returns (q: nat, n: nat, picks: seq<Pick>)
    requires forall g :: g in agents ==> g.sku.None? || g.sku.value == ""
    ensures q == if r == 0 || ((r, 1) in mq && mq[(r, 1)].kind != 0) then r else 0
    ensures Lists(mq, q, 1, n) && Picked(agents, mq, q, 1, n, picks)
    ensures var d := After(mq, dq, Found(agents, r, status));
            && OnlyNew(dq, d, |picks|)
            && forall k :: 1 <= k <= |picks| ==> k in d && ShowsPick(d[k], mq, q, agents, picks[k - 1], status)
  {
    hide Dynamic, Region, Matched, Listings, Write, Lists, Picked, ShowsPick, OnlyNew;
    NoneDynamic(agents);
    q := RegionUsed(mq, r);
    n, picks := MatchedPicks(agents, mq, q, 1);
    PicksWritten(dq, status, Matched(agents, Listings(mq, q, 1)), mq, q, n, agents, picks);
  }

  lemma PicksWritten(dq: map<nat, Shown>, status: int, ms: seq<Match>, mq: ModelData, q: nat, n: nat,
                     agents: seq<Agent>, picks: seq<Pick>)
    requires Lists(mq, q, 1, n) && Picked(agents, mq, q, 1, n, picks) && PicksAre(ms, agents, mq, q, picks)
    ensures var d := Write(dq, status, ms, |ms|);
            && OnlyNew(dq, d, |picks|)
            && forall k :: 1 <= k <= |picks| ==> k in d && ShowsPick(d[k], mq, q, agents, picks[k - 1], status)
  {
    hide Shows, Write, FirstLike, Lists, Picked, ShowsPick, OnlyNew;
    WriteIs(dq, status, ms, |ms|);
    var d := Write(dq, status, ms, |ms|);
    forall k | 1 <= k <= |picks|
      ensures ShowsPick(d[k], mq, q, agents, picks[k - 1], status)
    {
      PickInside(agents, mq, q, 1, n, picks, k - 1);
      PickShown(d[k], mq, q, agents, picks[k - 1], status);
    }
  }

  lemma NoneDynamic(agents: seq<Agent>)
    requires forall g :: g in agents ==> g.sku.None? || g.sku.value == ""
    ensures !Dynamic(agents)
  {
    forall i | 0 <= i < |agents|
      ensures agents[i].sku.GetOr("") == ""
    {
      assert agents[i] in agents;
    }
  }

  lemma RegionUsed(mq: ModelData, r: nat) returns (q: nat)
    ensures q == Region(mq, r) && q == if r == 0 || ((r, 1) in mq && mq[(r, 1)].kind != 0) then r else 0
  {
    q := Region(mq, r);
  }

  lemma PickInside(agents: seq<Agent>, mq: ModelData, q: nat, a: nat, n: nat, picks: seq<Pick>, k: nat)
    requires Lists(mq, q, a, n) && Picked(agents, mq, q, a, n, picks) && k < |picks|
    ensures (q, picks[k].number) in mq && FirstLike(agents, picks[k].agent, mq[(q, picks[k].number)])
  {
    hide FirstLike;
  }

  lemma PickShown(w: Shown, mq: ModelData, q: nat, agents: seq<Agent>, p: Pick, status: int)
    requires (q, p.number) in mq && FirstLike(agents, p.agent, mq[(q, p.number)])
    requires Shows(w, agents[p.agent], mq[(q, p.number)].sku, status)
    ensures ShowsPick(w, mq, q, agents, p, status)
  {
  }

  /**
   When some agent names its SKU the listings do not count: result k shows agent k under its own SKU, up to the first
   agent that has none, where the query breaks off.
   */
  lemma ShownIsReported(mq: ModelData, dq: map<nat, Shown>, agents: seq<Agent>, r: nat, status: int) returns (n: nat)
    requires exists g :: g in agents && g.sku.Some? && g.sku.value != ""
    ensures n <= |agents| && (n < |agents| ==> agents[n].sku.None?) && (Completes(agents) <==> n == |agents|)
    ensures var d := After(mq, dq, Found(agents, r, status));
            && OnlyNew(dq, d, n)
            && forall k :: 1 <= k <= n ==>
                 agents[k - 1].sku.Some? && Shows(d[k], agents[k - 1], agents[k - 1].sku.value, status)
  {
    hide Shows, WithSku;
    assert Dynamic(agents);
    var ms := Matches(agents, mq, r);
    n := |ms|;
    WithSkuIs(agents);
    WriteIs(dq, status, ms, n);
  }

  lemma {:induction false} WithSkuIs(agents: seq<Agent>)
    ensures var ms := WithSku(agents);
            && |ms| <= |agents| && (|ms| < |agents| ==> agents[|ms|].sku.None?)
            && forall k :: 0 <= k < |ms| ==> agents[k].sku.Some? && ms[k] == Match(agents[k], agents[k].sku.value)
  {
    if agents != [] && agents[0].sku.Some? {
      WithSkuIs(agents[1..]);
      assert forall k :: 0 < k < |agents| ==> agents[k] == agents[1..][k - 1];
    }
  }

  /**
   Of a device that was not found, whatever its region, the listings of region 0 up to the first missing or of kind 0
   are shown, all misinstalled, empty and almost certainly out.
   */
  lemma ShownAbsent(mq: ModelData, dq: map<nat, Shown>, r: nat) returns (n: nat)
    ensures n >= 1 && ((0, n) in mq ==> mq[(0, n)].kind == 0)
    ensures var d := After(mq, dq, NotFound(r));
            && OnlyNew(dq, d, n - 1)
            && forall a :: 1 <= a < n ==>
                 && (0, a) in mq && mq[(0, a)].kind != 0
                 && d[a] == Shown(mq[(0, a)].kind, mq[(0, a)].typ, mq[(0, a)].sku, 1, 0, 7,
                                  false, false, false, false, false, 0, 0)
  {
    n := AbsentListed(mq, 1);
    WriteAbsentIs(dq, AbsentListings(mq, 0, 1), n - 1);
  }

  lemma {:induction false} AbsentListed(mq: ModelData, a: nat) returns (n: nat)
    ensures n >= a && ((0, n) in mq ==> mq[(0, n)].kind == 0)
    ensures var ls := AbsentListings(mq, 0, a);
            && |ls| == n - a
            && forall i :: a <= i < n ==> (0, i) in mq && mq[(0, i)].kind != 0 && ls[i - a] == mq[(0, i)]
    decreases |Remaining(mq, a)|
  {
    if EndsAt(mq, 0, a) {
      n := a;
    } else {
      Shrinks(mq, 0, a);
      SmallerSet(Remaining(mq, a + 1), Remaining(mq, a));
      n := AbsentListed(mq, a + 1);
    }
  }

  lemma {:induction false} WriteAbsentIs(dq: map<nat, Shown>, ls: seq<Listing>, n: nat)
    requires n <= |ls|
    ensures var d := WriteAbsent(dq, ls, n);
            && OnlyNew(dq, d, n)
            && forall i :: 1 <= i <= n ==>
                 d[i] == Shown(ls[i - 1].kind, ls[i - 1].typ, ls[i - 1].sku, 1, 0, 7,
                               false, false, false, false, false, 0, 0)
  {
    if n > 0 {
      WriteAbsentIs(dq, ls, n - 1);
    }
  }
}
