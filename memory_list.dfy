/**
 * The list `MemoryViewModel` publishes on every remote change: the children
 * of the user's node that decode to a `Memory`, in child order, then
 * `sortedByDescending { it.timestamp }` (a stable sort, newest first).
 */
module MemoryList {
  import opened Wrappers
  import opened MemoryRecord

  /**
   * The children that decode, in child order. A child is represented by the
   * result of `getValue(Memory::class.java)`: `None` when it does not decode.
   */
  function Decoded(children: seq<Option<Memory>>): (list: seq<Memory>)
    ensures |list| <= |children|
  {
    if children == [] then []
    else
      var last := children[|children| - 1];
      Decoded(children[..|children| - 1]) + (if last.Some? then [last.value] else [])
  }

  /**
   * What decoding keeps: each memory exactly as many times as children decode
   * to it, so a memory is listed iff some child decodes to it.
   */
  lemma {:induction false} DecodedContents(children: seq<Option<Memory>>)
    ensures forall m :: multiset(Decoded(children))[m] == multiset(children)[Some(m)]
    ensures forall m :: m in Decoded(children) <==> Some(m) in children
  {
    if children != [] {
      var init := children[..|children| - 1];
      var last := children[|children| - 1];
      DecodedContents(init);
      assert children == init + [last];
      forall m ensures multiset(Decoded(children))[m] == multiset(children)[Some(m)] {
      }
      forall m ensures m in Decoded(children) <==> Some(m) in children {
        assert m in Decoded(children) <==> multiset(Decoded(children))[m] > 0;
        assert Some(m) in children <==> multiset(children)[Some(m)] > 0;
      }
    }
  }

  /** Decoding one more child appends its memory, if it has one. */
  lemma DecodedStep(children: seq<Option<Memory>>, i: int)
    requires 0 <= i < |children|
    ensures Decoded(children[..i + 1]) ==
      Decoded(children[..i]) + (if children[i].Some? then [children[i].value] else [])
  {
    assert children[..i + 1][..i] == children[..i];
  }

  /**
   * The loop of `onDataChange`: walks the snapshot's children and appends
   * every one that decodes.
   */
  method DecodeSnapshot(children: seq<Option<Memory>>) returns (list: seq<Memory>)
    ensures list == Decoded(children)
  {
    list := [];
    var i := 0;
    while i < |children|
      invariant 0 <= i <= |children|
      invariant list == Decoded(children[..i])
    {
      DecodedStep(children, i);
      if children[i].Some? {
        list := list + [children[i].value];
      }
      i := i + 1;
    }
    assert children[..i] == children;
  }

  /** Newest first: timestamps never increase along the list. */
  ghost predicate NonIncreasing(s: seq<Memory>) {
    forall i, j :: 0 <= i < j < |s| ==> s[i].timestamp >= s[j].timestamp
  }

  /** The memories of `s` whose timestamp is `t`, in the order of `s`. */
  function WithTimestamp(s: seq<Memory>, t: int): (r: seq<Memory>)
    ensures forall m :: m in r ==> m in s && m.timestamp == t
  {
    if s == [] then []
    else (if s[0].timestamp == t then [s[0]] else []) + WithTimestamp(s[1..], t)
  }

  /**
   * Places `m` in front of the first element that is not newer, i.e. after
   * every strictly newer element: among equal timestamps `m` comes first.
   */
  function InsertByTimestamp(m: Memory, sorted: seq<Memory>): (r: seq<Memory>)
    ensures multiset(r) == multiset(sorted) + multiset{m}
  {
    if sorted == [] || m.timestamp >= sorted[0].timestamp then [m] + sorted
    else
      assert sorted == [sorted[0]] + sorted[1..];
      [sorted[0]] + InsertByTimestamp(m, sorted[1..])
  }

  /** Inserting into a newest-first list keeps it newest first. */
  lemma {:induction false} InsertKeepsOrder(m: Memory, sorted: seq<Memory>)
    requires NonIncreasing(sorted)
    ensures NonIncreasing(InsertByTimestamp(m, sorted))
    decreases |sorted|
  {
    var r := InsertByTimestamp(m, sorted);
    if sorted != [] && m.timestamp < sorted[0].timestamp {
      var rest := InsertByTimestamp(m, sorted[1..]);
      InsertKeepsOrder(m, sorted[1..]);
      assert r == [sorted[0]] + rest;
      forall k | 0 <= k < |rest| ensures sorted[0].timestamp >= rest[k].timestamp {
        assert rest[k] in multiset(sorted[1..]) + multiset{m};
      }
    }
  }

  /** `sortedByDescending { it.timestamp }`: a stable sort, newest first. */
  function SortByTimestampDesc(list: seq<Memory>): (r: seq<Memory>)
    ensures NonIncreasing(r)
    ensures multiset(r) == multiset(list)
  {
    if list == [] then []
    else
      assert list == [list[0]] + list[1..];
      InsertKeepsOrder(list[0], SortByTimestampDesc(list[1..]));
      InsertByTimestamp(list[0], SortByTimestampDesc(list[1..]))
  }

  /** The list published by `onDataChange` for a snapshot's children. */
  function Published(children: seq<Option<Memory>>): seq<Memory> {
    SortByTimestampDesc(Decoded(children))
  }

  // ----- stability -----

  lemma {:induction false} WithTimestampAppend(s: seq<Memory>, u: seq<Memory>, t: int)
    ensures WithTimestamp(s + u, t) == WithTimestamp(s, t) + WithTimestamp(u, t)
    decreases |s|
  {
    if s == [] {
      assert s + u == u;
    } else {
      assert (s + u)[1..] == s[1..] + u;
      WithTimestampAppend(s[1..], u, t);
    }
  }

  /** Inserting `m` adds it in front of the memories that share its timestamp. */
  lemma {:induction false} InsertKeepsTies(m: Memory, sorted: seq<Memory>, t: int)
    ensures WithTimestamp(InsertByTimestamp(m, sorted), t) ==
      (if m.timestamp == t then [m] else []) + WithTimestamp(sorted, t)
    decreases |sorted|
  {
    if sorted == [] || m.timestamp >= sorted[0].timestamp {
      WithTimestampAppend([m], sorted, t);
    } else {
      InsertKeepsTies(m, sorted[1..], t);
      WithTimestampAppend([sorted[0]], InsertByTimestamp(m, sorted[1..]), t);
    }
  }

  /**
   * The sort is stable: for every timestamp, the memories carrying it appear
   * in the output in the same relative order as in the input.
   */
  lemma {:induction false} SortIsStable(list: seq<Memory>, t: int)
    ensures WithTimestamp(SortByTimestampDesc(list), t) == WithTimestamp(list, t)
    decreases |list|
  {
    if list != [] {
      SortIsStable(list[1..], t);
      InsertKeepsTies(list[0], SortByTimestampDesc(list[1..]), t);
    }
  }

  // ----- the sort is the only newest-first arrangement that keeps ties in order -----

  lemma {:induction false} NoneNewerThanHead(q: seq<Memory>, t: int)
    requires NonIncreasing(q) && q != [] && t > q[0].timestamp
    ensures WithTimestamp(q, t) == []
    decreases |q|
  {
    if |q| > 1 {
      NoneNewerThanHead(q[1..], t);
    }
  }

  lemma WithTimestampOfHead(q: seq<Memory>)
    requires q != []
    ensures WithTimestamp(q, q[0].timestamp) != [] &&
      WithTimestamp(q, q[0].timestamp)[0] == q[0]
  {
  }

  /**
   * Two newest-first lists that hold, timestamp by timestamp, the same
   * memories in the same order are the same list.
   */
  lemma {:induction false} TiesDetermineOrder(r: seq<Memory>, q: seq<Memory>)
    requires NonIncreasing(r) && NonIncreasing(q)
    requires forall t :: WithTimestamp(r, t) == WithTimestamp(q, t)
    ensures r == q
    decreases |r|
  {
    if r == [] {
      if q != [] {
        WithTimestampOfHead(q);
      }
    } else if q == [] {
      WithTimestampOfHead(r);
    } else {
      WithTimestampOfHead(r);
      WithTimestampOfHead(q);
      if r[0].timestamp > q[0].timestamp {
        NoneNewerThanHead(q, r[0].timestamp);
      } else if q[0].timestamp > r[0].timestamp {
        NoneNewerThanHead(r, q[0].timestamp);
      }
      assert r[0] == q[0] by {
        assert WithTimestamp(r, r[0].timestamp) == WithTimestamp(q, r[0].timestamp);
      }
      forall t ensures WithTimestamp(r[1..], t) == WithTimestamp(q[1..], t) {
        var head := if r[0].timestamp == t then [r[0]] else [];
        assert WithTimestamp(r, t) == head + WithTimestamp(r[1..], t);
        assert WithTimestamp(q, t) == head + WithTimestamp(q[1..], t);
        assert WithTimestamp(r[1..], t) == WithTimestamp(r, t)[|head|..];
        assert WithTimestamp(q[1..], t) == WithTimestamp(q, t)[|head|..];
      }
      TiesDetermineOrder(r[1..], q[1..]);
      assert r == [r[0]] + r[1..] && q == [q[0]] + q[1..];
    }
  }

  /**
   * What `sortedByDescending` promises, as an independent definition: the
   * published list is the one newest-first list whose equal-timestamp runs
   * keep the child order.
   */
  lemma PublishedIsTheStableSort(children: seq<Option<Memory>>, r: seq<Memory>)
    requires NonIncreasing(r)
    requires forall t :: WithTimestamp(r, t) == WithTimestamp(Decoded(children), t)
    ensures r == Published(children)
  {
    var p := Published(children);
    forall t ensures WithTimestamp(r, t) == WithTimestamp(p, t) {
      SortIsStable(Decoded(children), t);
    }
    TiesDetermineOrder(r, p);
  }

  /** A record with a positive timestamp is always published ahead of a default one. */
  lemma DefaultSortsLast(children: seq<Option<Memory>>, i: int, j: int)
    requires 0 <= i < |Published(children)| && 0 <= j < |Published(children)|
    requires Published(children)[i] == DefaultMemory
    requires Published(children)[j].timestamp > 0
    ensures j < i
  {
  }
}
