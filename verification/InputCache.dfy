/**
 The 256-slot FIFO cache of `InputCache`, and the linear scan its
 content-to-positions index has to agree with.
 */
module InputCaches {
  import opened Common

  const CAPACITY: nat := 256

  /** A cache as the protocol sees it: contents from oldest (position 0) to newest. */
  type Slots = seq<Bytes>

  /** Appending to a full cache knocks off the oldest entry and shifts the rest down. */
  function Pushed(s: Slots, d: Bytes): Slots {
    if |s| >= CAPACITY then s[1..] + [d] else s + [d]
  }

  /** The last 256 of all the blocks ever pushed, in order. */
  function Latest(history: seq<Bytes>): Slots {
    if |history| <= 256 then history else history[|history| - 256..]
  }

  /** That is what pushing one after the other leaves. */
  lemma PushedIsLatest(history: seq<Bytes>, d: Bytes)
    ensures Pushed(Latest(history), d) == Latest(history + [d])
  {
  }

  lemma LatestLength(history: seq<Bytes>)
    ensures |Latest(history)| == if |history| <= 256 then |history| else 256
  {
  }

  /** The linear scan, newest entry first. */
  function Scan(s: Slots, d: Bytes): (r: Option<nat>)
    ensures r.None? <==> d !in s
    ensures r.Some? ==> r.value < |s| && s[r.value] == d
    ensures r.Some? ==> forall j | r.value < j < |s| :: s[j] != d
  {
    if s == [] then None
    else if s[|s| - 1] == d then Some(|s| - 1)
    else
      assert s == s[..|s| - 1] + [s[|s| - 1]];
      Scan(s[..|s| - 1], d)
  }

  ghost predicate NoDuplicates(s: Slots) {
    forall i, j | 0 <= i < j < |s| :: s[i] != s[j]
  }

  /** Absolute positions of `d`, when slot 0 has absolute position `head`. */
  ghost function Positions(s: Slots, head: nat, d: Bytes): seq<nat> {
    if s == [] then []
    else (if s[0] == d then [head] else []) + Positions(s[1..], head + 1, d)
  }

  /** `Positions` lists exactly the live positions holding `d` ... */
  lemma {:induction false} PositionsExact(s: Slots, head: nat, d: Bytes, p: nat)
    ensures p in Positions(s, head, d) <==> head <= p < head + |s| && s[p - head] == d
  {
    if s != [] {
      var first, rest := if s[0] == d then [head] else [], Positions(s[1..], head + 1, d);
      assert Positions(s, head, d) == first + rest;
      hide Positions;
      PositionsExact(s[1..], head + 1, d, p);
      assert p in first + rest <==> p in first || p in rest;
      assert p > head && p - head < |s| ==> s[1..][p - (head + 1)] == s[p - head];
    }
  }

  /** ... in strictly increasing order. */
  lemma {:induction false} PositionsIncrease(s: Slots, head: nat, d: Bytes)
    ensures forall i, j | 0 <= i < j < |Positions(s, head, d)| :: Positions(s, head, d)[i] < Positions(s, head, d)[j]
  {
    if s != [] {
      PositionsIncrease(s[1..], head + 1, d);
      var rest := Positions(s[1..], head + 1, d);
      forall k | 0 <= k < |rest|
        ensures head < rest[k]
      {
        PositionsExact(s[1..], head + 1, d, rest[k]);
      }
    }
  }

  lemma {:induction false} PositionsAppend(s: Slots, head: nat, d: Bytes, e: Bytes)
    ensures Positions(s + [d], head, e) == Positions(s, head, e) + (if e == d then [head + |s|] else [])
  {
    if s == [] {
      assert (s + [d])[1..] == [];
    } else {
      PositionsAppend(s[1..], head + 1, d, e);
      assert (s + [d])[1..] == s[1..] + [d];
      var first := if s[0] == e then [head] else [];
      var last := if e == d then [head + |s|] else [];
      var rest := Positions(s[1..], head + 1, e);
      assert first + (rest + last) == (first + rest) + last;
    }
  }

  /** The newest live position, made relative to the head, is the linear scan's answer. */
  lemma ScanIsLastPosition(s: Slots, head: nat, d: Bytes)
    requires d in s
    ensures Positions(s, head, d) != []
    ensures Scan(s, d) == Some(Positions(s, head, d)[|Positions(s, head, d)| - 1] - head)
  {
    var ps, r := Positions(s, head, d), Scan(s, d).value;
    PositionsExact(s, head, d, head + r);
    var last := ps[|ps| - 1];
    PositionsExact(s, head, d, last);
    PositionsIncrease(s, head, d);
    var i :| 0 <= i < |ps| && ps[i] == head + r;
    assert ps[i] <= last;
  }

  /** The content-to-positions map the source keeps beside the slots. */
  ghost function Index(s: Slots, head: nat): map<Bytes, seq<nat>> {
    map d | d in s :: Positions(s, head, d)
  }

  lemma PositionsEvict(s: Slots, head: nat, d: Bytes)
    requires s != []
    ensures var rest := Positions(s[1..], head + 1, d);
            && Positions(s, head, d) == (if d == s[0] then [head] + rest else rest)
            && (rest == [] <==> d !in s[1..])
  {
    var rest := Positions(s[1..], head + 1, d);
    if rest != [] {
      PositionsExact(s[1..], head + 1, d, rest[0]);
    } else if d in s[1..] {
      ScanIsLastPosition(s[1..], head + 1, d);
    }
  }

  /** Evicting the oldest slot pops the front of one list and removes the list if it is now empty. */
  lemma IndexEvict(s: Slots, head: nat)
    requires s != []
    ensures s[0] in Index(s, head) && Index(s, head)[s[0]] != []
    ensures Index(s[1..], head + 1) ==
            var m, rest := Index(s, head), Index(s, head)[s[0]][1..];
            if rest == [] then m - {s[0]} else m[s[0] := rest]
  {
    hide Positions;
    PositionsEvict(s, head, s[0]);
    assert s == [s[0]] + s[1..];
    forall d | d in s && d != s[0]
      ensures Positions(s, head, d) == Positions(s[1..], head + 1, d)
    {
      PositionsEvict(s, head, d);
    }
  }

  lemma PositionsAbsent(s: Slots, head: nat, d: Bytes)
    requires d !in s
    ensures Positions(s, head, d) == []
  {
    var ps := Positions(s, head, d);
    if ps != [] {
      PositionsExact(s, head, d, ps[0]);
    }
  }

  /** Appending adds the tail position to one list, creating the list if needed. */
  lemma IndexAppend(s: Slots, head: nat, d: Bytes)
    ensures Index(s + [d], head) ==
            var m := Index(s, head);
            m[d := (if d in m then m[d] else []) + [head + |s|]]
  {
    var m := Index(s, head);
    var m' := m[d := (if d in m then m[d] else []) + [head + |s|]];
    if d !in s {
      PositionsAbsent(s, head, d);
    }
    forall e | e in s + [d]
      ensures e in m' && m'[e] == Positions(s + [d], head, e)
    {
      PositionsAppend(s, head, d, e);
    }
    assert Index(s + [d], head).Keys == m'.Keys;
  }

  class InputCache {
    var slots: seq<Bytes>
    var indexMap: map<Bytes, seq<nat>>
    var absTail: nat
    /** Everything ever pushed. */
    ghost var history: seq<Bytes>

    /** The index agrees with the slots. */
    ghost predicate Indexed()
      reads this
    {
      && |slots| <= CAPACITY
      && |slots| <= absTail
      && indexMap == Index(slots, absTail - |slots|)
    }

    ghost predicate Valid()
      reads this
    {
      Indexed() && slots == Latest(history)
    }

    constructor ()
      ensures Valid() && slots == [] && history == []
    {
      slots, indexMap, absTail, history := [], map[], 0, [];
    }

    method Find(data: Bytes) returns (r: Option<Byte>)
      requires Valid()
      ensures r == Scan(slots, data)
    {
      if data !in indexMap {
        return None;
      }
      ScanIsLastPosition(slots, absTail - |slots|, data);
      var indices := indexMap[data];
      var absLast := indices[|indices| - 1];
      var head := absTail - |slots|;
      // the truncating cast to u8
      return Some((absLast - head) % 256);
    }

    /** The n-th block pushed evicts another exactly if n > 256. */
    method Push(data: Bytes) returns (evicted: bool)
      requires Valid()
      modifies this
      ensures Valid()
      ensures history == old(history) + [data] && slots == Latest(history)
      ensures evicted <==> |history| > 256
      ensures slots == Pushed(old(slots), data) && evicted == (|old(slots)| >= CAPACITY)
    {
      hide Index, Latest;
      LatestLength(history);
      PushedIsLatest(history, data);
      evicted := |slots| >= CAPACITY;
      if evicted {
        EvictOldest();
      }
      Append(data);
      history := history + [data];
    }

    // the eviction half of `push`
    method EvictOldest()
      requires Indexed() && slots != []
      modifies `slots, `indexMap
      ensures Indexed()
      ensures slots == old(slots)[1..]
    {
      IndexEvict(slots, absTail - |slots|);
      var oldest := slots[0];
      slots := slots[1..];
      if oldest in indexMap {
        var indices := indexMap[oldest][1..];
        indexMap := if indices == [] then indexMap - {oldest} else indexMap[oldest := indices];
      }
    }

    // the insertion half of `push`
    method Append(data: Bytes)
      requires Indexed() && |slots| < CAPACITY
      modifies `slots, `indexMap, `absTail
      ensures Indexed()
      ensures slots == old(slots) + [data]
    {
      hide Positions;
      IndexAppend(slots, absTail - |slots|, data);
      var indices := if data in indexMap then indexMap[data] else [];
      indexMap := indexMap[data := indices + [absTail]];
      absTail := absTail + 1;
      slots := slots + [data];
    }

    /** Positions count from the oldest block still held; once 256 blocks have been pushed, each byte is one. */
    method Get(pos: Byte) returns (r: Option<Bytes>)
      ensures r.Some? <==> pos < |slots|
      ensures r.Some? ==> r.value == slots[pos]
      ensures Valid() ==> (r.Some? <==> pos < |history|)
      ensures Valid() && r.Some? ==> r.value == history[if |history| <= 256 then pos else |history| - 256 + pos]
    {
      r := if pos < |slots| then Some(slots[pos]) else None;
    }
  }
}
