/**
 * The single high score of V3 and V4: a text file holding one integer,
 * read once at start-up and rewritten whenever a finished round beats it.
 */
module HighScore {
  import opened Basics
  import opened Text

  /** The high-score file: absent, unreadable (including undecodable), or holding some text. */
  datatype TextFile = NoFile | Unreadable | Text(content: string)

  /** Digits with single underscores between them, as `int()` accepts after the sign. */
  predicate Grouped(u: string) {
    |u| > 0 && IsDigit(u[0]) && IsDigit(u[|u| - 1]) &&
    (forall i :: 0 <= i < |u| ==> IsDigit(u[i]) || u[i] == '_') &&
    (forall i :: 0 <= i < |u| - 1 && u[i] == '_' ==> IsDigit(u[i + 1]))
  }

  /** The digits of `u` with the underscores taken out. */
  function Ungroup(u: string): (d: string)
    ensures forall i :: 0 <= i < |d| ==> d[i] != '_'
    ensures (forall i :: 0 <= i < |u| ==> IsDigit(u[i]) || u[i] == '_') ==> forall i :: 0 <= i < |d| ==> IsDigit(d[i])
    ensures (forall i :: 0 <= i < |u| ==> IsDigit(u[i])) ==> d == u
    decreases |u|
  {
    if u == [] then []
    else
      assert forall i :: 1 <= i < |u| ==> u[1..][i - 1] == u[i];
      (if u[0] == '_' then [] else [u[0]]) + Ungroup(u[1..])
  }

  /** Taking out underscores works piece by piece: the other characters stay, in order. */
  lemma {:induction false} UngroupAppend(a: string, b: string)
    ensures Ungroup(a + b) == Ungroup(a) + Ungroup(b)
    decreases |a|
  {
    if a == [] {
      assert a + b == b;
    } else {
      assert (a + b)[1..] == a[1..] + b;
      UngroupAppend(a[1..], b);
    }
  }

  /** A group separator contributes nothing: `int("1_000")` reads the digits `1000`. */
  lemma UngroupSeparator(a: string, b: string)
    ensures Ungroup(a + "_" + b) == Ungroup(a) + Ungroup(b)
  {
    UngroupAppend(a + "_", b);
    UngroupAppend(a, "_");
    assert Ungroup("_") == [] by {
      assert "_"[1..] == [];
    }
  }

  /** A plain digit string is grouped and has no underscores to take out; a signed one is not grouped. */
  lemma PlainDigits(t: string)
    ensures AllDigits(t) ==> Grouped(t) && Ungroup(t) == t
    ensures |t| > 0 && (t[0] == '-' || t[0] == '+') ==> !Grouped(t) && !AllDigits(t)
  {
  }

  /** `int(text)`: surrounding whitespace, an optional sign, then grouped digits; anything else is a `ValueError`. */
  function ParseInt(text: string): (r: Option<int>)
    ensures r.Some? ==> Strip(text) != []
    ensures r.Some? && r.value < 0 ==> Strip(text)[0] == '-'
    ensures Grouped(Strip(text)) ==> r.Some? && r.value >= 0
  {
    var t := Strip(text);
    if t == [] then None
    else if t[0] == '-' || t[0] == '+' then
      if Grouped(t[1..]) then
        var n: int := Decimal(Ungroup(t[1..]));
        Some(if t[0] == '-' then -n else n)
      else None
    else if Grouped(t) then Some(Decimal(Ungroup(t)))
    else None
  }

  /**
   * What `int()` accepts, exactly: grouped digits after the strip, with or without one sign
   * in front. A plain digit string reads as its decimal value, and only a minus sign makes
   * the result negative.
   */
  lemma ParseIntAccepts(text: string)
    ensures ParseInt(text).Some? <==> (var t := Strip(text);
      Grouped(t) || (|t| > 0 && (t[0] == '-' || t[0] == '+') && Grouped(t[1..])))
    ensures ParseInt(text).Some? && Strip(text)[0] != '-' ==> ParseInt(text).value >= 0
    ensures AllDigits(Strip(text)) ==> ParseInt(text) == Some(Decimal(Strip(text)))
  {
    var t := Strip(text);
    PlainDigits(t);
    if t == [] {
    } else if t[0] == '-' || t[0] == '+' {
      assert !Grouped(t);
    } else {
      assert ParseInt(text) == if Grouped(t) then Some(Decimal(Ungroup(t))) else None;
    }
  }

  /** `str(n)`. */
  function Show(n: int): (s: string)
    ensures s != [] && !IsSpace(s[0]) && !IsSpace(s[|s| - 1])
  {
    if n < 0 then "-" + Digits(-n) else Digits(n)
  }

  /** `load_high_score`: the file's integer, or 0 when it is missing, unreadable or not an integer. */
  function Load(f: TextFile): (h: int)
    ensures f.Text? && ParseInt(f.content).Some? ==> h == ParseInt(f.content).value
    ensures !f.Text? ==> h == 0
    ensures f.Text? && ParseInt(f.content).None? ==> h == 0
  {
    if f.Text? && ParseInt(f.content).Some? then ParseInt(f.content).value else 0
  }

  /** What `save_high_score` writes. */
  function Save(n: int): TextFile {
    Text(Show(n))
  }

  /** Every integer the game writes is read back as itself. */
  lemma ParseShow(n: int)
    ensures ParseInt(Show(n)) == Some(n)
  {
    var s := Show(n);
    StripUnchanged(s);
    if n < 0 {
      var d := Digits(-n);
      assert s[1..] == d;
      assert Grouped(d);
    } else {
      assert Grouped(s);
    }
  }

  /** The high score and its file after one game-over frame: rewritten only when the round beat it. */
  function Record(high: int, f: TextFile, score: int): (r: (int, TextFile))
    ensures r.0 == Max(high, score)
    ensures r.1 == if score > high then Save(score) else f
  {
    if score > high then (score, Save(score)) else (high, f)
  }

  /** Recording keeps the remembered high score equal to what the file holds. */
  lemma RecordInSync(high: int, f: TextFile, score: int)
    requires Load(f) == high
    ensures Load(Record(high, f, score).1) == Record(high, f, score).0
  {
    ParseShow(score);
  }

  /** The game-over screen records on every frame; after the first, nothing changes. */
  lemma RecordTwice(high: int, f: TextFile, score: int)
    ensures var r := Record(high, f, score); Record(r.0, r.1, score) == r
  {
  }
}
