/**
 * Python's `sorted(xs, key=k, reverse=True)` followed by `[:n]`. The sort is
 * stable: items with equal keys keep their order, so a new last item lands
 * after the items whose key equals its own.
 */
module Ranking {

  /** Keys never increase from left to right. */
  predicate SortedDesc<T>(s: seq<T>, key: T -> int) {
    forall i, j :: 0 <= i < j < |s| ==> key(s[i]) >= key(s[j])
  }

  /** The items whose key is `k`, in their order. */
  function WithKey<T>(s: seq<T>, key: T -> int, k: int): seq<T> {
    if s == [] then [] else WithKey(s[..|s| - 1], key, k) + (if key(s[|s| - 1]) == k then [s[|s| - 1]] else [])
  }

  /** Puts `e` after every item whose key is at least `e`'s. */
  function Insert<T>(s: seq<T>, e: T, key: T -> int): (r: seq<T>)
    ensures |r| == |s| + 1
    decreases |s|
  {
    if s == [] then [e]
    else if key(s[0]) >= key(e) then [s[0]] + Insert(s[1..], e, key)
    else [e] + s
  }

  /** The stable descending sort: each item in turn inserted into the sorted items before it. */
  function SortDesc<T>(s: seq<T>, key: T -> int): (r: seq<T>)
    ensures |r| == |s|
    decreases |s|
  {
    if s == [] then []
    else
      assert s == s[..|s| - 1] + [s[|s| - 1]];
      Insert(SortDesc(s[..|s| - 1], key), s[|s| - 1], key)
  }

  /** `s[:n]`. */
  function Take<T>(s: seq<T>, n: nat): (r: seq<T>)
    ensures |r| <= n && r <= s
    ensures |s| <= n ==> r == s
    ensures |s| > n ==> |r| == n
  {
    if |s| <= n then s else s[..n]
  }

  /** How many leading items of a sorted `s` have a key at least `k`. */
  function Rank<T>(s: seq<T>, key: T -> int, k: int): (p: nat)
    ensures p <= |s|
    decreases |s|
  {
    if s == [] || key(s[0]) < k then 0 else 1 + Rank(s[1..], key, k)
  }

  lemma SortedTail<T>(s: seq<T>, key: T -> int)
    requires SortedDesc(s, key) && s != []
    ensures SortedDesc(s[1..], key)
  {
    forall i, j | 0 <= i < j < |s[1..]|
      ensures key(s[1..][i]) >= key(s[1..][j])
    {
      assert s[1..][i] == s[i + 1] && s[1..][j] == s[j + 1];
    }
  }

  /** The leading `Rank` items have a key at least `k`. */
  lemma {:induction false} RankBelow<T>(s: seq<T>, key: T -> int, k: int)
    ensures forall i :: 0 <= i < Rank(s, key, k) ==> key(s[i]) >= k
    decreases |s|
  {
    if s != [] && key(s[0]) >= k {
      RankBelow(s[1..], key, k);
      forall i | 1 <= i < Rank(s, key, k)
        ensures key(s[i]) >= k
      {
        assert s[i] == s[1..][i - 1];
      }
    }
  }

  /** In a sorted sequence the items after the `Rank` have a key below `k`. */
  lemma RankAbove<T>(s: seq<T>, key: T -> int, k: int)
    requires SortedDesc(s, key)
    ensures forall i :: Rank(s, key, k) <= i < |s| ==> key(s[i]) < k
  {
    var p := Rank(s, key, k);
    RankStops(s, key, k);
    forall i | p <= i < |s|
      ensures key(s[i]) < k
    {
      assert key(s[p]) >= key(s[i]);
    }
  }

  lemma {:induction false} RankStops<T>(s: seq<T>, key: T -> int, k: int)
    ensures Rank(s, key, k) < |s| ==> key(s[Rank(s, key, k)]) < k
    decreases |s|
  {
    if s != [] && key(s[0]) >= k {
      RankStops(s[1..], key, k);
    }
  }

  /** Inserting puts `e` at position `Rank(s, key, key(e))`, whatever the order of `s`. */
  lemma {:induction false} InsertAtRank<T>(s: seq<T>, e: T, key: T -> int)
    ensures var p := Rank(s, key, key(e)); Insert(s, e, key) == s[..p] + [e] + s[p..]
    decreases |s|
  {
    if s != [] && key(s[0]) >= key(e) {
      InsertAtRank(s[1..], e, key);
      var p := Rank(s, key, key(e));
      assert s[..p] == [s[0]] + s[1..][..p - 1];
      assert s[p..] == s[1..][p - 1..];
    }
  }

  /** Placing `e` at position `p` of a sequence whose first `p` keys are at least `e`'s and the rest below keeps it sorted. */
  lemma SplicedSorted<T>(s: seq<T>, e: T, key: T -> int, p: nat)
    requires SortedDesc(s, key) && p <= |s|
    requires forall i :: 0 <= i < p ==> key(s[i]) >= key(e)
    requires forall i :: p <= i < |s| ==> key(s[i]) < key(e)
    ensures SortedDesc(s[..p] + [e] + s[p..], key)
  {
    var r := s[..p] + [e] + s[p..];
    assert forall i :: 0 <= i < p ==> r[i] == s[i];
    assert r[p] == e;
    assert forall i :: p < i < |r| ==> r[i] == s[i - 1];
  }

  /**
   * Inserting into a sorted sequence splits it at the rank of the new key:
   * the items with a key at least `e`'s, then `e`, then the rest; the result
   * is sorted.
   */
  lemma InsertSplits<T>(s: seq<T>, e: T, key: T -> int)
    requires SortedDesc(s, key)
    ensures var p := Rank(s, key, key(e));
      Insert(s, e, key) == s[..p] + [e] + s[p..] &&
      (forall i :: 0 <= i < p ==> key(s[i]) >= key(e)) &&
      (forall i :: p <= i < |s| ==> key(s[i]) < key(e)) &&
      SortedDesc(Insert(s, e, key), key)
  {
    InsertAtRank(s, e, key);
    RankBelow(s, key, key(e));
    RankAbove(s, key, key(e));
    SplicedSorted(s, e, key, Rank(s, key, key(e)));
  }

  /** Insertion adds exactly `e`. */
  lemma InsertPermutes<T>(s: seq<T>, e: T, key: T -> int)
    ensures multiset(Insert(s, e, key)) == multiset(s) + multiset{e}
  {
    var p := Rank(s, key, key(e));
    InsertAtRank(s, e, key);
    assert s == s[..p] + s[p..];
  }

  /** The sort only reorders. */
  lemma {:induction false} SortDescPermutes<T>(s: seq<T>, key: T -> int)
    ensures multiset(SortDesc(s, key)) == multiset(s)
    decreases |s|
  {
    if s != [] {
      SortDescPermutes(s[..|s| - 1], key);
      InsertPermutes(SortDesc(s[..|s| - 1], key), s[|s| - 1], key);
      assert s == s[..|s| - 1] + [s[|s| - 1]];
    }
  }

  /** The sort's result is sorted. */
  lemma {:induction false} SortDescSorted<T>(s: seq<T>, key: T -> int)
    ensures SortedDesc(SortDesc(s, key), key)
    decreases |s|
  {
    if s != [] {
      SortDescSorted(s[..|s| - 1], key);
      InsertSplits(SortDesc(s[..|s| - 1], key), s[|s| - 1], key);
    }
  }

  /** A sorted sequence followed by an item no larger than its last stays as it was under insertion. */
  lemma InsertAtEnd<T>(s: seq<T>, e: T, key: T -> int)
    requires SortedDesc(s + [e], key)
    ensures Insert(s, e, key) == s + [e]
  {
    assert SortedDesc(s, key) by {
      forall i, j | 0 <= i < j < |s|
        ensures key(s[i]) >= key(s[j])
      {
        assert s[i] == (s + [e])[i] && s[j] == (s + [e])[j];
      }
    }
    InsertSplits(s, e, key);
    forall i | 0 <= i < |s|
      ensures key(s[i]) >= key(e)
    {
      assert s[i] == (s + [e])[i] && e == (s + [e])[|s|];
    }
    RankOfAll(s, key, key(e));
  }

  lemma {:induction false} RankOfAll<T>(s: seq<T>, key: T -> int, k: int)
    requires forall i :: 0 <= i < |s| ==> key(s[i]) >= k
    ensures Rank(s, key, k) == |s|
    decreases |s|
  {
    if s != [] {
      RankOfAll(s[1..], key, k);
    }
  }

  /** Sorting an already sorted sequence changes nothing. */
  lemma {:induction false} SortDescOfSorted<T>(s: seq<T>, key: T -> int)
    requires SortedDesc(s, key)
    ensures SortDesc(s, key) == s
    decreases |s|
  {
    if s != [] {
      var init := s[..|s| - 1];
      assert SortedDesc(init, key) by {
        forall i, j | 0 <= i < j < |init|
          ensures key(init[i]) >= key(init[j])
        {
          assert init[i] == s[i] && init[j] == s[j];
        }
      }
      SortDescOfSorted(init, key);
      assert s == init + [s[|s| - 1]];
      InsertAtEnd(init, s[|s| - 1], key);
    }
  }

  lemma WithKeyAppend<T>(s: seq<T>, t: seq<T>, key: T -> int, k: int)
    ensures WithKey(s + t, key, k) == WithKey(s, key, k) + WithKey(t, key, k)
    decreases |t|
  {
    if t == [] {
      assert s + t == s;
    } else {
      assert (s + t)[..|s + t| - 1] == s + t[..|t| - 1];
      WithKeyAppend(s, t[..|t| - 1], key, k);
    }
  }

  /** Inserting `e` into a sorted sequence puts it after every item with the same key. */
  lemma InsertStable<T>(s: seq<T>, e: T, key: T -> int, k: int)
    requires SortedDesc(s, key)
    ensures WithKey(Insert(s, e, key), key, k) == WithKey(s, key, k) + WithKey([e], key, k)
  {
    InsertAtRank(s, e, key);
    var p := Rank(s, key, key(e));
    if key(e) == k {
      TailBelow(s, e, key);
      NoneWithKey(s[p..], key, k);
    }
    SpliceStable(s[..p], e, s[p..], key, k);
    assert s[..p] + s[p..] == s;
  }

  /** Splicing `e` in front of a run holding no item with `e`'s key, when that key is `k`, puts it last among them. */
  lemma SpliceStable<T>(a: seq<T>, e: T, b: seq<T>, key: T -> int, k: int)
    requires key(e) == k ==> WithKey(b, key, k) == []
    ensures WithKey(a + [e] + b, key, k) == WithKey(a + b, key, k) + WithKey([e], key, k)
  {
    WithKeySplit(a, e, b, key, k);
    assert [e][..0] == [];
  }

  lemma WithKeySplit<T>(a: seq<T>, e: T, b: seq<T>, key: T -> int, k: int)
    ensures WithKey(a + [e] + b, key, k) == WithKey(a, key, k) + WithKey([e], key, k) + WithKey(b, key, k)
    ensures WithKey(a + b, key, k) == WithKey(a, key, k) + WithKey(b, key, k)
  {
    WithKeyAppend(a + [e], b, key, k);
    WithKeyAppend(a, [e], key, k);
    WithKeyAppend(a, b, key, k);
  }

  lemma TailBelow<T>(s: seq<T>, e: T, key: T -> int)
    requires SortedDesc(s, key)
    ensures forall i :: 0 <= i < |s[Rank(s, key, key(e))..]| ==> key(s[Rank(s, key, key(e))..][i]) < key(e)
  {
    var p := Rank(s, key, key(e));
    RankAbove(s, key, key(e));
    forall i | 0 <= i < |s[p..]|
      ensures key(s[p..][i]) < key(e)
    {
      assert s[p..][i] == s[p + i];
    }
  }

  lemma {:induction false} NoneWithKey<T>(s: seq<T>, key: T -> int, k: int)
    requires forall i :: 0 <= i < |s| ==> key(s[i]) < k
    ensures WithKey(s, key, k) == []
    decreases |s|
  {
    if s != [] {
      NoneWithKey(s[..|s| - 1], key, k);
    }
  }

  /** Stability: for every key, the items with that key come out in the order they went in. */
  lemma {:induction false} SortDescStable<T>(s: seq<T>, key: T -> int, k: int)
    ensures WithKey(SortDesc(s, key), key, k) == WithKey(s, key, k)
    decreases |s|
  {
    if s != [] {
      var init := s[..|s| - 1];
      SortDescStable(init, key, k);
      SortDescSorted(init, key);
      InsertStable(SortDesc(init, key), s[|s| - 1], key, k);
      assert s == init + [s[|s| - 1]];
      WithKeyAppend(init, [s[|s| - 1]], key, k);
    }
  }
}
