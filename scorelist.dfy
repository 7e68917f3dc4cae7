/**
 * The V5 leaderboard: a JSON list of bare scores. Loading keeps the items
 * whose text form is all digits; saving adds the new score, removes
 * duplicates through a set, sorts highest first and keeps ten.
 */
module ScoreList {
  import opened Basics
  import opened Text
  import opened Json
  import opened Ranking

  const MaxEntries := 10

  /** What loading yields: the scores, or the program stops on an uncaught `TypeError`. */
  datatype Loaded = Scores(values: seq<int>) | Crash

  function Id(n: int): int { n }

  /** The keys of a JSON object as a Python dict holds them: each once, at its first occurrence. */
  function Keys(fields: seq<(string, Value)>, seen: set<string>): (r: seq<string>)
    ensures forall i :: 0 <= i < |r| ==> r[i] !in seen
    ensures forall i :: 0 <= i < |fields| && fields[i].0 !in seen ==> fields[i].0 in r
    ensures forall k :: k in r ==> exists i :: 0 <= i < |fields| && fields[i].0 == k
    ensures Distinct(r)
    decreases |fields|
  {
    if fields == [] then []
    else
      var k := fields[0].0;
      var rest := Keys(fields[1..], seen + {k});
      assert forall i :: 1 <= i < |fields| ==> fields[i] == fields[1..][i - 1];
      if k in seen then Keys(fields[1..], seen) else [k] + rest
  }

  function Strs(ks: seq<string>): (r: seq<Value>)
    ensures |r| == |ks| && forall i :: 0 <= i < |ks| ==> r[i] == Str(ks[i])
  {
    if ks == [] then [] else [Str(ks[0])] + Strs(ks[1..])
  }

  function Chars(s: string): (r: seq<Value>)
    ensures |r| == |s| && forall i :: 0 <= i < |s| ==> r[i] == Str([s[i]])
  {
    if s == [] then [] else [Str([s[0]])] + Chars(s[1..])
  }

  /**
   * `for score in data`: a list yields its items, a dict its keys, a string
   * its characters; a number, a bool or null cannot be iterated (None).
   */
  function Elements(v: Value): (r: Option<seq<Value>>)
    ensures r.None? <==> v.Null? || v.Bool? || v.Int? || v.Float?
  {
    match v
    case Arr(items) => Some(items)
    case Obj(fields) => Some(Strs(Keys(fields, {})))
    case Str(s) => Some(Chars(s))
    case _ => None
  }

  /**
   * The comprehension's test and `int(score)`: an int whose decimal form is
   * all digits (so not negative), or a string of digits. `str(True)` is
   * "True" and a float's form holds a '.', an 'e' or letters, so both fail.
   */
  function Accept(v: Value): (r: Option<nat>)
    ensures v.Int? && v.i >= 0 ==> r == Some(v.i)
    ensures v.Str? && AllDigits(v.s) ==> r == Some(Decimal(v.s))
    ensures r.Some? ==> (v.Int? && v.i >= 0) || (v.Str? && AllDigits(v.s))
  {
    match v
    case Int(i) => if i >= 0 then Some(i) else None
    case Str(s) => if AllDigits(s) then Some(Decimal(s)) else None
    case _ => None
  }

  /** The accepted scores, in iteration order. */
  function AcceptAll(items: seq<Value>): (r: seq<int>)
    ensures forall j :: 0 <= j < |r| ==> r[j] >= 0
    decreases |items|
  {
    if items == [] then []
    else
      var rest := AcceptAll(items[1..]);
      match Accept(items[0])
      case Some(n) => [n] + rest
      case None => rest
  }

  /** Every accepted score comes from an item. */
  lemma {:induction false} AcceptAllSound(items: seq<Value>)
    ensures forall j :: 0 <= j < |AcceptAll(items)| ==> exists i :: 0 <= i < |items| && Accept(items[i]) == Some(AcceptAll(items)[j])
    decreases |items|
  {
    if items != [] {
      AcceptAllSound(items[1..]);
      var r := AcceptAll(items);
      var rest := AcceptAll(items[1..]);
      var skip := if Accept(items[0]).Some? then 1 else 0;
      assert r[skip..] == rest;
      forall j | 0 <= j < |r|
        ensures exists i :: 0 <= i < |items| && Accept(items[i]) == Some(r[j])
      {
        if j < skip {
          assert Accept(items[0]) == Some(r[j]);
        } else {
          assert r[j] == rest[j - skip];
          var i :| 0 <= i < |items[1..]| && Accept(items[1..][i]) == Some(rest[j - skip]);
          assert items[1..][i] == items[i + 1];
          assert Accept(items[i + 1]) == Some(r[j]);
        }
      }
    } else {
      assert AcceptAll(items) == [];
    }
  }

  /** Every item that passes the test is loaded. */
  lemma {:induction false} AcceptAllComplete(items: seq<Value>)
    ensures forall i :: 0 <= i < |items| && Accept(items[i]).Some? ==> Accept(items[i]).value in AcceptAll(items)
    decreases |items|
  {
    if items != [] {
      AcceptAllComplete(items[1..]);
      var rest := AcceptAll(items[1..]);
      assert forall i :: 1 <= i < |items| ==> items[i] == items[1..][i - 1];
      assert forall x :: x in rest ==> x in AcceptAll(items);
    }
  }

  /** Strictly decreasing: sorted highest first with no repeats. */
  predicate StrictlyDesc(s: seq<int>) {
    forall i, j :: 0 <= i < j < |s| ==> s[i] > s[j]
  }

  /** `sorted(..., reverse=True)[:10]` on scores. */
  function Best(acc: seq<int>): (r: seq<int>)
    ensures SortedDesc(r, Id) && |r| <= MaxEntries
    ensures (forall i :: 0 <= i < |acc| ==> acc[i] >= 0) ==> forall i :: 0 <= i < |r| ==> r[i] >= 0
  {
    SortDescSorted(acc, Id);
    SortDescPermutes(acc, Id);
    var sorted := SortDesc(acc, Id);
    assert forall i :: 0 <= i < |sorted| ==> sorted[i] in multiset(acc);
    Take(sorted, MaxEntries)
  }

  /** `load_leaderboard`: a missing or unreadable file gives the empty list. */
  function Load(f: File): (r: Loaded)
    ensures r.Scores? ==> SortedDesc(r.values, Id) && |r.values| <= MaxEntries
    ensures r.Scores? ==> forall i :: 0 <= i < |r.values| ==> r.values[i] >= 0
    ensures r.Crash? <==> f.Parsed? && Elements(f.v).None?
  {
    if !f.Parsed? then Scores([])
    else
      match Elements(f.v)
      case Some(items) => Scores(Best(AcceptAll(items)))
      case None => Crash
  }

  lemma SortedRest(s: seq<int>)
    requires s != []
    ensures SortedDesc(s, Id) ==> SortedDesc(s[1..], Id)
  {
    if SortedDesc(s, Id) {
      SortedTail(s, Id);
    }
  }

  /** Drops each item equal to the one after it; on a sorted list this is `sorted(set(...), reverse=True)`. */
  function Squash(s: seq<int>): (r: seq<int>)
    ensures forall x :: x in r <==> x in s
    ensures s != [] ==> r != [] && r[0] == s[0]
    ensures SortedDesc(s, Id) ==> StrictlyDesc(r)
    decreases |s|
  {
    if |s| <= 1 then s
    else
      var rest := Squash(s[1..]);
      assert forall x :: x in s <==> x == s[0] || x in s[1..];
      SortedRest(s);
      if s[0] == s[1] then rest else [s[0]] + rest
  }

  /** `save_score_to_leaderboard`: the list it writes, or the crash of its load. */
  function Save(f: File, n: int): (r: Loaded)
    ensures r.Crash? <==> Load(f).Crash?
    ensures r.Scores? ==> StrictlyDesc(r.values) && |r.values| <= MaxEntries
  {
    match Load(f)
    case Crash => Crash
    case Scores(l) => Scores(Saved(l, n))
  }

  function Ints(s: seq<int>): (r: seq<Value>)
    ensures |r| == |s| && forall i :: 0 <= i < |s| ==> r[i] == Int(s[i])
  {
    if s == [] then [] else [Int(s[0])] + Ints(s[1..])
  }

  /** What `json.dump` writes for a list of scores. */
  function Dump(s: seq<int>): Value {
    Arr(Ints(s))
  }

  lemma {:induction false} IntsRead(s: seq<int>)
    requires forall i :: 0 <= i < |s| ==> s[i] >= 0
    ensures AcceptAll(Ints(s)) == s
    decreases |s|
  {
    if s != [] {
      IntsRead(s[1..]);
      var items := Ints(s);
      assert items[0] == Int(s[0]);
      assert items[1..] == Ints(s[1..]);
      assert Accept(items[0]) == Some(s[0]);
    }
  }

  /** A sorted list of at most ten non-negative scores, once written, loads back unchanged. */
  lemma LoadDump(s: seq<int>)
    requires SortedDesc(s, Id) && |s| <= MaxEntries
    requires forall i :: 0 <= i < |s| ==> s[i] >= 0
    ensures Load(Parsed(Dump(s))) == Scores(s)
  {
    IntsRead(s);
    SortDescOfSorted(s, Id);
  }

  /** A list without repeats is left alone by squashing. */
  lemma {:induction false} SquashStrict(s: seq<int>)
    requires StrictlyDesc(s)
    ensures Squash(s) == s
    decreases |s|
  {
    if |s| > 1 {
      SquashStrict(s[1..]);
    }
  }

  /** Sorting then squashing a list gives the strictly decreasing list of its members. */
  lemma Ordered(l: seq<int>)
    ensures StrictlyDesc(Squash(SortDesc(l, Id)))
    ensures forall x :: x in Squash(SortDesc(l, Id)) <==> x in l
  {
    SortDescSorted(l, Id);
    SortDescPermutes(l, Id);
    forall x
      ensures x in SortDesc(l, Id) <==> x in l
    {
      assert x in SortDesc(l, Id) <==> x in multiset(SortDesc(l, Id));
      assert x in l <==> x in multiset(l);
    }
  }

  /** Two strictly decreasing lists with the same members are equal. */
  lemma {:induction false} StrictUnique(a: seq<int>, b: seq<int>)
    requires StrictlyDesc(a) && StrictlyDesc(b)
    requires forall x :: x in a <==> x in b
    ensures a == b
    decreases |a|
  {
    assert a != [] ==> a[0] in a && a[0] in b;
    assert b != [] ==> b[0] in b && b[0] in a;
    if a != [] && b != [] {
      forall x
        ensures x in a[1..] <==> x in b[1..]
      {
        if x in a[1..] {
          var i :| 0 <= i < |a[1..]| && a[1..][i] == x;
          assert a[i + 1] == x && x < a[0];
          assert x in b;
        }
        if x in b[1..] {
          var i :| 0 <= i < |b[1..]| && b[1..][i] == x;
          assert b[i + 1] == x && x < b[0];
          assert x in a;
        }
      }
      StrictUnique(a[1..], b[1..]);
      assert a == [a[0]] + a[1..] && b == [b[0]] + b[1..];
    }
  }

  /** In a strictly decreasing list, a value missing from the first `k` items is below all of them when it occurs later. */
  lemma PrefixAbove(s: seq<int>, k: nat, x: int)
    requires StrictlyDesc(s) && k <= |s| && x in s && x !in s[..k]
    ensures forall y :: y in s[..k] ==> x < y
  {
    forall y | y in s[..k]
      ensures x < y
    {
      var j :| 0 <= j < k && s[..k][j] == y;
      assert s[j] == y;
    }
  }

  /** The list a save computes from the loaded list `l`. */
  function Saved(l: seq<int>, n: int): (r: seq<int>)
    ensures StrictlyDesc(r) && |r| <= MaxEntries
    ensures forall x :: x in r ==> x in l || x == n
    ensures n in r || (|r| == MaxEntries && forall x :: x in r ==> x > n)
  {
    Ordered(l + [n]);
    var full := Squash(SortDesc(l + [n], Id));
    assert n in l + [n];
    assert forall x :: x in Take(full, MaxEntries) ==> x in full;
    if n !in Take(full, MaxEntries) then
      PrefixAbove(full, MaxEntries, n);
      Take(full, MaxEntries)
    else Take(full, MaxEntries)
  }

  /** Saving `n` into a list that came out of saving `n` changes nothing. */
  lemma SavedTwice(l: seq<int>, n: int)
    ensures Saved(Saved(l, n), n) == Saved(l, n)
  {
    var r := Saved(l, n);
    Ordered(r + [n]);
    var full2 := Squash(SortDesc(r + [n], Id));
    if n in r {
      StrictUnique(full2, r);
    } else {
      forall i, j | 0 <= i < j < |r| + 1
        ensures (r + [n])[i] > (r + [n])[j]
      {
        assert (r + [n])[i] == r[i] && r[i] in r;
        if j < |r| {
          assert (r + [n])[j] == r[j];
        }
      }
      SortDescOfSorted(r + [n], Id);
      SquashStrict(r + [n]);
      assert (r + [n])[..MaxEntries] == r;
    }
  }

  /**
   * Saving a score a second time writes what the first save wrote: the
   * score is already listed, or ten higher scores are, so the list does not
   * change.
   */
  lemma SaveTwice(f: File, n: nat)
    requires Save(f, n).Scores?
    ensures Save(Parsed(Dump(Save(f, n).values)), n) == Save(f, n)
  {
    var r := Save(f, n).values;
    NonNegative(f, n);
    LoadDump(r);
    SavedTwice(Load(f).values, n);
  }

  lemma NonNegative(f: File, n: nat)
    requires Save(f, n).Scores?
    ensures forall i :: 0 <= i < |Save(f, n).values| ==> Save(f, n).values[i] >= 0
  {
    var l := Load(f).values;
    var r := Save(f, n).values;
    forall i | 0 <= i < |r|
      ensures r[i] >= 0
    {
      assert r[i] in r;
      if r[i] != n {
        var j :| 0 <= j < |l| && l[j] == r[i];
      }
    }
  }
}
