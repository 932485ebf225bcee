/** The bounded history buffer: a list that grows to its maximum and is then written round in place. */
module RingBuffer {

  /** The newest n elements. */
  function Newest<T>(s: seq<T>, n: nat): (r: seq<T>)
    ensures |r| == if |s| <= n then |s| else n
  {
    if |s| <= n then s else s[|s| - n..]
  }

  /** A full buffer read from its oldest element on. */
  function Round<T>(data: seq<T>, cur: nat): (r: seq<T>)
    requires cur <= |data|
    ensures |r| == |data|
  {
    data[cur..] + data[..cur]
  }

  function Next(cur: nat, max: nat): nat
    requires max > 0
  {
    (cur + 1) % max
  }

  lemma NextIs(cur: nat, max: nat)
    requires cur < max
    ensures Next(cur, max) == if cur + 1 == max then 0 else cur + 1
    ensures (cur + max - 1) % max == if cur == 0 then max - 1 else cur - 1
  {
    if cur > 0 {
      assert cur + max - 1 == max + (cur - 1);
      WholeTurn(cur - 1, max);
    }
  }

  lemma WholeTurn(a: nat, max: nat)
    requires a < max
    ensures (max + a) % max == a
  {
  }

  /** Overwriting the oldest element and moving on drops it and appends the new one. */
  lemma WriteOldest<T>(data: seq<T>, cur: nat, x: T)
    requires cur < |data|
    ensures Next(cur, |data|) < |data|
    ensures Round(data[cur := x], Next(cur, |data|)) == Newest(Round(data, cur) + [x], |data|)
  {
    NextIs(cur, |data|);
  }

  /** Overwriting the element before the oldest one replaces the newest. */
  lemma WriteNewest<T>(data: seq<T>, cur: nat, x: T)
    requires cur < |data|
    ensures var p := (cur + |data| - 1) % |data|;
            && p < |data| && Next(p, |data|) == cur
            && Round(data[p := x], cur) == Round(data, cur)[|data| - 1 := x]
  {
    NextIs(cur, |data|);
    NextIs((cur + |data| - 1) % |data|, |data|);
  }

  lemma RoundZero<T>(data: seq<T>)
    ensures Round(data, 0) == data
  {
  }

  class RingBuffer<T> {
    const max: nat
    var data: seq<T>
    var full: bool
    var cur: nat

    ghost predicate Valid()
      reads this
    {
      && max > 0
      && (full ==> |data| == max && cur < max)
      && (!full ==> |data| < max)
    }

    /** The elements from the oldest to the newest. */
    ghost function Contents(): (s: seq<T>)
      requires Valid()
      reads this
      ensures |s| <= max
    {
      if full then Round(data, cur) else data
    }

    constructor (max: nat)
      requires max > 0
      ensures Valid() && Contents() == [] && this.max == max
    {
      this.max := max;
      data, full, cur := [], false, 0;
    }

    method Append(x: T)
      requires Valid()
      modifies this
      ensures Valid() && Contents() == Newest(old(Contents()) + [x], max)
    {
      hide Next, Round;
      if full {
        WriteOldest(data, cur, x);
        data := data[cur := x];
        cur := Next(cur, max);
      } else {
        data := data + [x];
        if |data| == max {
          cur, full := 0, true;
          assert Round(data, 0) == data by { RoundZero(data); }
        }
      }
    }

    /** Overwrites the newest element; false if there is none. */
    method Replace(x: T) returns (ok: bool)
      requires Valid()
      modifies this
      ensures Valid() && ok == (old(Contents()) != [])
      ensures Contents() == if ok then old(Contents())[|old(Contents())| - 1 := x] else []
    {
      hide Next, Round;
      if full {
        // one position back, and forward again
        WriteNewest(data, cur, x);
        cur := (cur + max - 1) % max;
        data := data[cur := x];
        cur := Next(cur, max);
        ok := true;
      } else {
        ok := data != [];
        if ok {
          data := data[|data| - 1 := x];
        }
      }
    }

    method Get() returns (s: seq<T>)
      requires Valid()
      ensures s == Contents()
    {
      s := if full then data[cur..] + data[..cur] else data;
    }
  }
}
