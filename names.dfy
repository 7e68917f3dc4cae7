/**
 * `name_input_loop` (V6 to main.py): the player types a name for a
 * qualifying score; RETURN saves it to the leaderboard, ESC leaves without
 * saving.
 */
module NameEntry {
  import opened Basics
  import opened Text
  import opened Input
  import opened Json
  import opened Leaderboard

  const MaxNameLength := 10
  const DefaultName := "Player"

  /** Where the loop hands over once it stops running. */
  datatype Leave = ToBoard | ToMenu

  /**
   * The loop's variables after one poll: the buffer, the leaderboard file,
   * the `game_state` it set (if any), and whether a window close ended the
   * program part-way through the poll.
   */
  datatype NameScan = NameScan(buf: string, file: File, leave: Option<Leave>, quit: bool)

  /** A character the buffer takes: an ASCII letter or digit, or a space. */
  predicate Typable(c: char) { IsAlnum(c) || c == ' ' }

  /** What the buffer can hold: at most ten typable characters. */
  predicate BufferOk(buf: string) {
    |buf| <= MaxNameLength && forall i :: 0 <= i < |buf| ==> Typable(buf[i])
  }

  /** The name RETURN saves: the stripped buffer, or "Player" when nothing is left. */
  function FinalName(buf: string): string {
    var s := Strip(buf);
    if s == [] then DefaultName else s
  }

  /** The saved name is never empty and never starts or ends with a space; an all-space buffer saves "Player". */
  lemma FinalNameShape(buf: string)
    ensures var name := FinalName(buf);
      name != [] && !IsSpace(name[0]) && !IsSpace(name[|name| - 1]) &&
      ((forall i :: 0 <= i < |buf| ==> IsSpace(buf[i])) ==> name == DefaultName) &&
      (!(forall i :: 0 <= i < |buf| ==> IsSpace(buf[i])) ==> name == Strip(buf)) &&
      (BufferOk(buf) ==> |name| <= MaxNameLength)
  {
  }

  /** The board file after RETURN: `add_entry_to_leaderboard` writes the new board. */
  function Submit(file: File, buf: string, score: int): File {
    Parsed(Dump(Add(file, FinalName(buf), score)))
  }

  /** One event of the loop's `for` body. */
  function Feed(st: NameScan, score: int, e: Event): NameScan {
    if e.Quit? then st.(quit := true)
    else if !e.KeyDown? then st
    else
      var st1 :=
        if e.key == Return then st.(file := Submit(st.file, st.buf, score), leave := Some(ToBoard))
        else if e.key == Backspace then st.(buf := DropLast(st.buf))
        else if |st.buf| < MaxNameLength && e.text.Some? && Typable(e.text.value) then st.(buf := st.buf + [e.text.value])
        else st;
      if e.key == Escape then st1.(leave := Some(ToMenu)) else st1
  }

  /** The events of one poll in order; a window close exits at once, keeping what was saved before it. */
  function Scan(st: NameScan, score: int, events: seq<Event>): (r: NameScan)
    decreases |events|
  {
    if events == [] || st.quit then st else Scan(Feed(st, score, events[0]), score, events[1..])
  }

  /** The loop's event handling, one poll; it agrees with `Scan`. */
  method PollNames(buf: string, file: File, score: int, events: seq<Event>) returns (r: NameScan)
    ensures r == Scan(NameScan(buf, file, None, false), score, events)
  {
    r := NameScan(buf, file, None, false);
    var i := 0;
    while i < |events| && !r.quit
      invariant 0 <= i <= |events|
      invariant Scan(r, score, events[i..]) == Scan(NameScan(buf, file, None, false), score, events)
    {
      assert events[i..][1..] == events[i + 1..];
      var e := events[i];
      ghost var before := r;
      if e.Quit? {
        r := r.(quit := true);
      } else if e.KeyDown? {
        if e.key == Return {
          var name := Strip(r.buf);
          if name == [] {
            name := DefaultName;
          }
          assert name == FinalName(before.buf);
          r := r.(file := Parsed(Dump(Add(r.file, name, score))), leave := Some(ToBoard));
        } else if e.key == Backspace {
          r := r.(buf := DropLast(r.buf));
        } else if |r.buf| < MaxNameLength && e.text.Some? && Typable(e.text.value) {
          r := r.(buf := r.buf + [e.text.value]);
        }
        if e.key == Escape {
          r := r.(leave := Some(ToMenu));
        }
      }
      assert r == Feed(before, score, e);
      i := i + 1;
    }
  }

  /** Every poll keeps the buffer within ten typable characters. */
  lemma {:induction false} ScanKeepsBuffer(st: NameScan, score: int, events: seq<Event>)
    requires BufferOk(st.buf)
    ensures BufferOk(Scan(st, score, events).buf)
    decreases |events|
  {
    if events != [] && !st.quit {
      var next := Feed(st, score, events[0]);
      assert BufferOk(next.buf) by {
        if next.buf == DropLast(st.buf) && st.buf != [] {
          assert forall i :: 0 <= i < |next.buf| ==> next.buf[i] == st.buf[i];
        }
      }
      ScanKeepsBuffer(next, score, events[1..]);
    }
  }

  /** A poll without RETURN leaves the file alone. */
  lemma {:induction false} ScanWithoutReturn(st: NameScan, score: int, events: seq<Event>)
    requires !HasKey(events, Return)
    ensures Scan(st, score, events).file == st.file
    decreases |events|
  {
    if events != [] && !st.quit {
      assert !IsKey(events[0], Return);
      assert forall i :: 0 <= i < |events| - 1 ==> events[1..][i] == events[i + 1];
      ScanWithoutReturn(Feed(st, score, events[0]), score, events[1..]);
    }
  }

  /** A poll with a RETURN and no window close saves and leaves the name entry. */
  lemma {:induction false} ScanReturnLeaves(st: NameScan, score: int, events: seq<Event>)
    requires HasKey(events, Return) && !HasQuit(events) && !st.quit
    ensures Scan(st, score, events).leave.Some?
    decreases |events|
  {
    var next := Feed(st, score, events[0]);
    assert !IsQuit(events[0]);
    if IsKey(events[0], Return) {
      LeaveStays(next, score, events[1..]);
    } else {
      var k :| 0 <= k < |events| && IsKey(events[k], Return);
      assert events[1..][k - 1] == events[k];
      assert forall i :: 0 <= i < |events| - 1 ==> events[1..][i] == events[i + 1];
      ScanReturnLeaves(next, score, events[1..]);
    }
  }

  /** A window close anywhere in the poll ends the program, whatever came before it. */
  lemma {:induction false} ScanQuits(st: NameScan, score: int, events: seq<Event>)
    requires HasQuit(events)
    ensures Scan(st, score, events).quit
    decreases |events|
  {
    if !st.quit {
      var next := Feed(st, score, events[0]);
      if !IsQuit(events[0]) {
        var k :| 0 <= k < |events| && IsQuit(events[k]);
        assert events[1..][k - 1] == events[k];
        ScanQuits(next, score, events[1..]);
      }
    }
  }

  /** RETURN or ESC: the keys that make the loop stop running. */
  predicate IsLeaveKey(e: Event) { IsKey(e, Return) || IsKey(e, Escape) }

  /** The position of the last RETURN or ESC of a poll, or -1 when there is none. */
  function LastLeave(events: seq<Event>): (k: int)
    ensures -1 <= k < |events|
    ensures forall i :: k < i < |events| ==> !IsLeaveKey(events[i])
    ensures k >= 0 ==> IsLeaveKey(events[k])
    decreases |events|
  {
    if events == [] then -1
    else if IsLeaveKey(events[|events| - 1]) then |events| - 1
    else
      var init := events[..|events| - 1];
      assert forall i :: 0 <= i < |init| ==> init[i] == events[i];
      LastLeave(init)
  }

  /** Reading two pieces of a poll one after the other is reading the whole poll. */
  lemma {:induction false} ScanAppend(st: NameScan, score: int, a: seq<Event>, b: seq<Event>)
    ensures Scan(st, score, a + b) == Scan(Scan(st, score, a), score, b)
    decreases |a|
  {
    if a == [] {
      assert a + b == b;
    } else if !st.quit {
      assert (a + b)[0] == a[0];
      assert (a + b)[1..] == a[1..] + b;
      ScanAppend(Feed(st, score, a[0]), score, a[1..], b);
    }
  }

  /** Without a window close the loop never ends the program. */
  lemma {:induction false} ScanNoQuit(st: NameScan, score: int, events: seq<Event>)
    requires !st.quit && !HasQuit(events)
    ensures !Scan(st, score, events).quit
    decreases |events|
  {
    if events != [] {
      assert !IsQuit(events[0]);
      assert forall i :: 0 <= i < |events| - 1 ==> events[1..][i] == events[i + 1];
      ScanNoQuit(Feed(st, score, events[0]), score, events[1..]);
    }
  }

  /** Events other than a window close, RETURN and ESC change neither the file nor where the loop goes. */
  lemma {:induction false} ScanStaysIn(st: NameScan, score: int, events: seq<Event>)
    requires !st.quit && !HasQuit(events)
    requires forall i :: 0 <= i < |events| ==> !IsLeaveKey(events[i])
    ensures var r := Scan(st, score, events);
      !r.quit && r.file == st.file && r.leave == st.leave
    decreases |events|
  {
    if events != [] {
      assert !IsQuit(events[0]) && !IsLeaveKey(events[0]);
      assert forall i :: 0 <= i < |events| - 1 ==> events[1..][i] == events[i + 1];
      ScanStaysIn(Feed(st, score, events[0]), score, events[1..]);
    }
  }

  /**
   * Without a window close, the last RETURN or ESC of a poll decides where
   * the loop goes: RETURN to the leaderboard, with the file rewritten from
   * the buffer as it was at that RETURN; ESC to the menu, with the file as
   * it was before that ESC. Later typing changes only the buffer.
   */
  lemma ScanLastLeave(st: NameScan, score: int, events: seq<Event>)
    requires !st.quit && !HasQuit(events) && LastLeave(events) >= 0
    ensures var k := LastLeave(events);
      var before := Scan(st, score, events[..k]);
      var r := Scan(st, score, events);
      !r.quit &&
      (IsKey(events[k], Return) ==> r.leave == Some(ToBoard) && r.file == Submit(before.file, before.buf, score)) &&
      (IsKey(events[k], Escape) ==> r.leave == Some(ToMenu) && r.file == before.file)
  {
    var k := LastLeave(events);
    var e := events[k];
    var head, tail := events[..k], events[k + 1..];
    SplitAt(events, k, head, tail);
    ScanAppend(st, score, head + [e], tail);
    ScanAppend(st, score, head, [e]);
    ScanNoQuit(st, score, head);
    var before := Scan(st, score, head);
    ScanOne(before, score, e);
    FeedLeave(before, score, e);
    ScanStaysIn(Feed(before, score, e), score, tail);
  }

  /** A poll cut around its `k`-th event; the pieces hold no window close when the poll holds none. */
  lemma SplitAt(events: seq<Event>, k: int, head: seq<Event>, tail: seq<Event>)
    requires 0 <= k < |events| && head == events[..k] && tail == events[k + 1..]
    ensures events == head + [events[k]] + tail
    ensures !HasQuit(events) ==> !HasQuit(head) && !HasQuit(tail)
    ensures (forall i :: k < i < |events| ==> !IsLeaveKey(events[i])) ==>
      forall i :: 0 <= i < |tail| ==> !IsLeaveKey(tail[i])
  {
    assert forall i :: 0 <= i < |head| ==> head[i] == events[i];
    assert forall i :: 0 <= i < |tail| ==> tail[i] == events[k + 1 + i];
  }

  lemma ScanOne(st: NameScan, score: int, e: Event)
    requires !st.quit
    ensures Scan(st, score, [e]) == Feed(st, score, e)
  {
    assert [e][0] == e && [e][1..] == [];
  }

  /** RETURN saves and selects the leaderboard; ESC selects the menu and saves nothing. */
  lemma FeedLeave(st: NameScan, score: int, e: Event)
    requires IsLeaveKey(e) && !st.quit
    ensures var next := Feed(st, score, e);
      !next.quit &&
      (IsKey(e, Return) ==> next == st.(file := Submit(st.file, st.buf, score), leave := Some(ToBoard))) &&
      (IsKey(e, Escape) ==> next.file == st.file && next.leave == Some(ToMenu))
  {
  }

  /** A poll with an ESC and neither RETURN nor a window close goes to the menu and leaves the file alone. */
  lemma EscapeKeepsFile(st: NameScan, score: int, events: seq<Event>)
    requires !st.quit && !HasQuit(events) && HasKey(events, Escape) && !HasKey(events, Return)
    ensures var r := Scan(st, score, events);
      !r.quit && r.leave == Some(ToMenu) && r.file == st.file
  {
    var j :| 0 <= j < |events| && IsKey(events[j], Escape);
    assert IsLeaveKey(events[j]);
    var k := LastLeave(events);
    assert !IsKey(events[k], Return);
    ScanLastLeave(st, score, events);
    assert !HasKey(events[..k], Return) by {
      assert forall i :: 0 <= i < k ==> events[..k][i] == events[i];
    }
    ScanWithoutReturn(st, score, events[..k]);
  }

  /** Once the loop has chosen to stop, later events can only change the choice. */
  lemma {:induction false} LeaveStays(st: NameScan, score: int, events: seq<Event>)
    requires st.leave.Some?
    ensures Scan(st, score, events).leave.Some?
    decreases |events|
  {
    if events != [] && !st.quit {
      LeaveStays(Feed(st, score, events[0]), score, events[1..]);
    }
  }

  /** A poll of just RETURN saves the final name with the score and goes to the leaderboard, whose reload is the new board. */
  lemma ReturnSaves(buf: string, file: File, score: int, text: Option<char>)
    ensures var r := Scan(NameScan(buf, file, None, false), score, [KeyDown(Return, text)]);
      r.file == Submit(file, buf, score) && r.leave == Some(ToBoard) && r.buf == buf && !r.quit &&
      Load(r.file) == Add(file, FinalName(buf), score)
  {
    ReturnStep(buf, file, score, text);
    SubmitLoads(file, buf, score);
  }

  lemma ReturnStep(buf: string, file: File, score: int, text: Option<char>)
    ensures Scan(NameScan(buf, file, None, false), score, [KeyDown(Return, text)]) ==
      NameScan(buf, Submit(file, buf, score), Some(ToBoard), false)
  {
    var st := NameScan(buf, file, None, false);
    var e := KeyDown(Return, text);
    var next := NameScan(buf, Submit(file, buf, score), Some(ToBoard), false);
    assert Feed(st, score, e) == next;
    var es := [e];
    assert es[0] == e && es[1..] == [];
    assert Scan(st, score, es) == Scan(Feed(st, score, es[0]), score, es[1..]);
  }

  /** Loading the file RETURN wrote gives the board it added to. */
  lemma SubmitLoads(file: File, buf: string, score: int)
    ensures Load(Submit(file, buf, score)) == Add(file, FinalName(buf), score)
  {
    LoadDump(Add(file, FinalName(buf), score));
  }

  /** A poll of just ESC (which types no letter) goes to the menu and saves nothing. */
  lemma EscapeLeaves(buf: string, file: File, score: int, text: Option<char>)
    requires text.None? || !Typable(text.value)
    ensures Scan(NameScan(buf, file, None, false), score, [KeyDown(Escape, text)]) == NameScan(buf, file, Some(ToMenu), false)
  {
  }
}
