/**
 * The named leaderboard of V6 to main.py: a JSON list of records with a
 * "name" and a "score", kept sorted by score, highest first, and cut to
 * ten entries.
 */
module Leaderboard {
  import opened Basics
  import opened Json
  import opened Ranking

  const MaxEntries := 10

  datatype Entry = Entry(name: string, score: int)

  function ScoreOf(e: Entry): int { e.score }

  /** A board as every loader returns it: sorted by score, highest first, and at most ten entries. */
  predicate Ranked(b: seq<Entry>) {
    SortedDesc(b, ScoreOf) && |b| <= MaxEntries
  }

  /**
   * A record the loader accepts: a dict with a string "name" and an integer
   * "score". JSON `true` and `false` pass the integer test, since Python's
   * bool is an int, and rank as 1 and 0.
   */
  function AsEntry(v: Value): Option<Entry> {
    if !v.Obj? then None
    else
      match (Get(v.fields, "name"), Get(v.fields, "score"))
      case (Some(Str(s)), Some(Int(i))) => Some(Entry(s, i))
      case (Some(Str(s)), Some(Bool(b))) => Some(Entry(s, if b then 1 else 0))
      case _ => None
  }

  /** Which records are accepted, and what they carry. */
  lemma AsEntryAccepts(v: Value)
    ensures AsEntry(v).Some? <==>
      (v.Obj? && (exists s :: Get(v.fields, "name") == Some(Str(s))) &&
       ((exists i :: Get(v.fields, "score") == Some(Int(i))) ||
        (exists b :: Get(v.fields, "score") == Some(Bool(b)))))
    ensures AsEntry(v).Some? ==> Get(v.fields, "name") == Some(Str(AsEntry(v).value.name))
    ensures AsEntry(v).Some? && Get(v.fields, "score").value.Int? ==>
      Get(v.fields, "score") == Some(Int(AsEntry(v).value.score))
  {
  }

  /** The accepted records, in file order. */
  function Accepted(items: seq<Value>): (r: seq<Entry>)
    ensures |r| <= |items|
    decreases |items|
  {
    if items == [] then []
    else
      var rest := Accepted(items[1..]);
      match AsEntry(items[0])
      case Some(e) => [e] + rest
      case None => rest
  }

  /** Every accepted entry comes from a record of the file. */
  lemma {:induction false} AcceptedSound(items: seq<Value>)
    ensures forall j :: 0 <= j < |Accepted(items)| ==> exists i :: 0 <= i < |items| && AsEntry(items[i]) == Some(Accepted(items)[j])
    decreases |items|
  {
    if items != [] {
      AcceptedSound(items[1..]);
      var r := Accepted(items);
      var rest := Accepted(items[1..]);
      var skip := if AsEntry(items[0]).Some? then 1 else 0;
      assert r[skip..] == rest;
      forall j | 0 <= j < |r|
        ensures exists i :: 0 <= i < |items| && AsEntry(items[i]) == Some(r[j])
      {
        if j < skip {
          assert AsEntry(items[0]) == Some(r[j]);
        } else {
          assert r[j] == rest[j - skip];
          var i :| 0 <= i < |items[1..]| && AsEntry(items[1..][i]) == Some(rest[j - skip]);
          assert items[1..][i] == items[i + 1];
          assert AsEntry(items[i + 1]) == Some(r[j]);
        }
      }
    } else {
      assert Accepted(items) == [];
    }
  }

  /** Every record the file holds in the accepted shape is loaded. */
  lemma {:induction false} AcceptedComplete(items: seq<Value>)
    ensures forall i :: 0 <= i < |items| && AsEntry(items[i]).Some? ==> AsEntry(items[i]).value in Accepted(items)
    decreases |items|
  {
    if items != [] {
      AcceptedComplete(items[1..]);
      var rest := Accepted(items[1..]);
      assert forall i :: 1 <= i < |items| ==> items[i] == items[1..][i - 1];
      assert forall x :: x in rest ==> x in Accepted(items);
    }
  }

  /** `load_leaderboard`: a missing, unreadable or non-list file gives the empty board. */
  function Load(f: File): (b: seq<Entry>)
    ensures Ranked(b)
  {
    match f
    case Parsed(Arr(items)) =>
      SortDescSorted(Accepted(items), ScoreOf);
      Take(SortDesc(Accepted(items), ScoreOf), MaxEntries)
    case _ => []
  }

  function Record(e: Entry): Value {
    Obj([("name", Str(e.name)), ("score", Int(e.score))])
  }

  function Records(b: seq<Entry>): (r: seq<Value>)
    ensures |r| == |b|
    ensures forall i :: 0 <= i < |b| ==> r[i] == Record(b[i])
  {
    if b == [] then [] else [Record(b[0])] + Records(b[1..])
  }

  /** What `json.dump` writes for a board. */
  function Dump(b: seq<Entry>): Value {
    Arr(Records(b))
  }

  /** `add_entry_to_leaderboard`: the board it writes, from the file it reads. */
  function Add(f: File, name: string, score: int): (b: seq<Entry>)
    ensures Ranked(b)
  {
    var all := Load(f) + [Entry(name, score)];
    SortDescSorted(all, ScoreOf);
    Take(SortDesc(all, ScoreOf), MaxEntries)
  }

  /** `check_if_qualifies`: the board has room, or the score beats its last entry. */
  function Qualifies(score: int, b: seq<Entry>): (q: bool)
    ensures |b| < MaxEntries ==> q
    ensures b != [] && |b| >= MaxEntries ==> (q <==> score > b[|b| - 1].score)
  {
    if |b| < MaxEntries then true
    else if b == [] then true
    else score > Last(b).score
  }

  /** A record written by the game is read back as the same entry. */
  lemma RecordRead(e: Entry)
    ensures AsEntry(Record(e)) == Some(e)
  {
    var fields := [("name", Str(e.name)), ("score", Int(e.score))];
    assert Get(fields, "score") == Some(Int(e.score));
    assert fields[..1] == [("name", Str(e.name))];
    assert Get(fields, "name") == Some(Str(e.name));
  }

  lemma {:induction false} RecordsRead(b: seq<Entry>)
    ensures Accepted(Records(b)) == b
    decreases |b|
  {
    if b != [] {
      RecordRead(b[0]);
      RecordsRead(b[1..]);
      assert Records(b)[1..] == Records(b[1..]);
    }
  }

  /** Writing a ranked board and loading it again gives the same board. */
  lemma LoadDump(b: seq<Entry>)
    requires Ranked(b)
    ensures Load(Parsed(Dump(b))) == b
  {
    RecordsRead(b);
    SortDescOfSorted(b, ScoreOf);
  }

  /** Loading never invents a record: each entry comes from an accepted record of the file. */
  lemma LoadFilters(items: seq<Value>, e: Entry)
    requires e in Load(Parsed(Arr(items)))
    ensures exists i :: 0 <= i < |items| && AsEntry(items[i]) == Some(e)
  {
    var acc := Accepted(items);
    AcceptedSound(items);
    SortDescPermutes(acc, ScoreOf);
    assert e in SortDesc(acc, ScoreOf);
    assert e in multiset(SortDesc(acc, ScoreOf));
    assert e in acc;
  }

  /**
   * Adding splits the loaded board at the new score: the entries scoring at
   * least as much (so ties stay ahead of the newcomer), the new entry, the
   * rest; then the cut to ten. The new entry survives the cut exactly when
   * the score qualifies, and otherwise the board is unchanged.
   */
  lemma AddInserts(f: File, name: string, score: int)
    ensures var b := Load(f);
      var p := Rank(b, ScoreOf, score);
      Add(f, name, score) == Take(b[..p] + [Entry(name, score)] + b[p..], MaxEntries) &&
      (forall i :: 0 <= i < p ==> b[i].score >= score) &&
      (forall i :: p <= i < |b| ==> b[i].score < score) &&
      (p < MaxEntries <==> Qualifies(score, b)) &&
      (Qualifies(score, b) ==> Add(f, name, score)[p] == Entry(name, score)) &&
      (!Qualifies(score, b) ==> Add(f, name, score) == b)
  {
    var b := Load(f);
    var e := Entry(name, score);
    AddIsInsert(f, name, score);
    InsertSplits(b, e, ScoreOf);
    RankQualifies(b, score);
    var p := Rank(b, ScoreOf, score);
    if p == MaxEntries {
      assert (b[..p] + [e] + b[p..])[..MaxEntries] == b;
    }
  }

  lemma AddIsInsert(f: File, name: string, score: int)
    ensures Add(f, name, score) == Take(Insert(Load(f), Entry(name, score), ScoreOf), MaxEntries)
  {
    var b := Load(f);
    assert (b + [Entry(name, score)])[..|b|] == b;
    SortDescOfSorted(b, ScoreOf);
  }

  /** On a ranked board, the new score ranks inside the first ten exactly when it qualifies. */
  lemma RankQualifies(b: seq<Entry>, score: int)
    requires Ranked(b)
    ensures Rank(b, ScoreOf, score) < MaxEntries <==> Qualifies(score, b)
  {
    var p := Rank(b, ScoreOf, score);
    RankBelow(b, ScoreOf, score);
    RankAbove(b, ScoreOf, score);
    if |b| == MaxEntries && p < MaxEntries {
      assert ScoreOf(b[|b| - 1]) < score;
    }
  }

  /** A score that qualifies keeps qualifying when raised. */
  lemma QualifiesMonotone(s: int, t: int, b: seq<Entry>)
    requires s <= t && Qualifies(s, b)
    ensures Qualifies(t, b)
  {
  }
}
