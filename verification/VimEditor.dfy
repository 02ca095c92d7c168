/**
 * The editor of cli/cli_vim.c: one record with the text buffer, the line table, the cursor,
 * the clipboard and the ring of undo records, all changed in place.  Memory is assumed to suffice.
 */
module VimEditor {
  import opened Wrappers
  import opened VimSpec
  import opened VimText

  /** CGRTOS_VIM_CLIP_MAX. */
  const CLIP_MAX: nat := 4096

  // ---- the ring of undo records ----

  /** The slot `k` places before `sp`. */
  function Back(sp: nat, k: nat): nat
    requires sp < UNDO_MAX && k <= UNDO_MAX
  {
    if k <= sp then sp - k else sp + UNDO_MAX - k
  }

  /** The last `count` slots before `sp` are in use. */
  ghost predicate RingOk(slots: seq<Option<Record>>, sp: nat, count: nat) {
    && |slots| == UNDO_MAX && sp < UNDO_MAX && count <= UNDO_MAX
    && forall k | 1 <= k <= count :: slots[Back(sp, k)].Some?
  }

  /** Their records, oldest first. */
  ghost function Ring(slots: seq<Option<Record>>, sp: nat, count: nat): (r: seq<Record>)
    requires RingOk(slots, sp, count)
    ensures |r| == count
    decreases count
  {
    if count == 0 then []
    else
      BackBack(sp, count);
      Ring(slots, Back(sp, 1), count - 1) + [slots[Back(sp, 1)].value]
  }

  lemma BackBack(sp: nat, count: nat)
    requires sp < UNDO_MAX && 1 <= count <= UNDO_MAX
    ensures forall k | 1 <= k <= count - 1 :: Back(Back(sp, 1), k) == Back(sp, k + 1)
  {
  }

  /** Slot `i` can change if it is none of those in use. */
  lemma {:induction false} RingElsewhere(slots: seq<Option<Record>>, sp: nat, count: nat, i: nat, x: Option<Record>)
    requires RingOk(slots, sp, count) && i < UNDO_MAX && forall k | 1 <= k <= count :: Back(sp, k) != i
    ensures RingOk(slots[i := x], sp, count) && Ring(slots[i := x], sp, count) == Ring(slots, sp, count)
    decreases count
  {
    if count > 0 {
      BackBack(sp, count);
      assert Back(sp, 1) != i;
      assert forall k | 1 <= k <= count - 1 :: Back(Back(sp, 1), k) == Back(sp, k + 1);
      RingElsewhere(slots, Back(sp, 1), count - 1, i, x);
    }
  }

  lemma {:induction false} RingDropsOldest(slots: seq<Option<Record>>, sp: nat, count: nat)
    requires RingOk(slots, sp, count) && count > 0
    ensures RingOk(slots, sp, count - 1) && Ring(slots, sp, count - 1) == Ring(slots, sp, count)[1..]
    decreases count
  {
    BackBack(sp, count);
    if count > 1 {
      RingDropsOldest(slots, Back(sp, 1), count - 1);
    }
  }

  /** A record written at `sp` is pushed, over the oldest one if the ring is full. */
  lemma RingPush(slots: seq<Option<Record>>, sp: nat, count: nat, r: Record)
    requires RingOk(slots, sp, count)
    ensures var sp', count' := (sp + 1) % UNDO_MAX, if count < UNDO_MAX then count + 1 else count;
            var slots' := slots[sp := Some(r)];
            RingOk(slots', sp', count') && Ring(slots', sp', count') == Push(Ring(slots, sp, count), r)
  {
    var sp', slots' := (sp + 1) % UNDO_MAX, slots[sp := Some(r)];
    var c := if count < UNDO_MAX then count else count - 1;
    if count == UNDO_MAX { RingDropsOldest(slots, sp, count); }
    RingElsewhere(slots, sp, c, sp, Some(r));
    assert Back(sp', 1) == sp;
    forall k | 1 <= k <= c + 1
      ensures slots'[Back(sp', k)].Some?
    {
      if k > 1 { assert Back(sp', k) == Back(sp, k - 1); }
    }
  }

  lemma RingPop(slots: seq<Option<Record>>, sp: nat, count: nat)
    requires RingOk(slots, sp, count) && count > 0
    ensures var i := Back(sp, 1);
            && slots[i].Some? && Ring(slots, sp, count)[count - 1] == slots[i].value
            && RingOk(slots[i := None], i, count - 1) && Ring(slots[i := None], i, count - 1) == Ring(slots, sp, count)[..count - 1]
  {
    BackBack(sp, count);
    RingElsewhere(slots, Back(sp, 1), count - 1, Back(sp, 1), None);
  }

  lemma OneMore(t: Text, a: nat, b: nat)
    requires a <= b < |t|
    ensures t[a..b + 1] == t[a..b] + [t[b]]
  {
  }

  lemma CutNothing(t: Text, pos: nat)
    ensures Cut(t, pos, 0) == t
  {
    if pos <= |t| { assert t[..pos] + t[pos..] == t; }
  }

  // ---- counting newlines ----

  /** Byte `i` of the text decides whether a line starts behind it. */
  lemma LastStart(t: Text, starts: seq<nat>, i: nat)
    requires i < |t| && starts != [] && Increasing(starts)
    requires forall x: nat :: x in starts <==> x <= i && LineStart(t, x)
    ensures var s := if t[i] == NEWLINE then starts + [i + 1] else starts;
            Increasing(s) && forall x: nat :: x in s <==> x <= i + 1 && LineStart(t, x)
  {
    forall j | 0 <= j < |starts|
      ensures starts[j] <= i
    {
      assert starts[j] in starts;
    }
    var s := if t[i] == NEWLINE then starts + [i + 1] else starts;
    assert LineStart(t, i + 1) <==> t[i] == NEWLINE;
    forall x: nat
      ensures x in s <==> x <= i + 1 && LineStart(t, x)
    {
      assert x in starts <==> x <= i && LineStart(t, x);
    }
  }

  class Editor {
    var text: array<byte>
    var len: nat
    var loff: seq<nat>
    var cur: nat
    const undo: array<Option<Record>>
    var undoSp: nat
    var undoCount: nat
    var clip: seq<byte>
    var clipLines: bool
    /** What the records stand for. */
    ghost var history: History

    ghost function Text(): Text
      requires len <= text.Length
      reads this, text
    {
      text[..len]
    }

    ghost predicate TextOk()
      reads this, text
    {
      len <= text.Length && len <= MAX_TEXT && cur <= len && LineTable(Text(), loff)
    }

    ghost predicate UndoOk()
      reads this, undo
    {
      RingOk(undo[..], undoSp, undoCount)
    }

    ghost function View(): Buffer
      requires TextOk() && UndoOk()
      reads this, text, undo
    {
      Buffer(Text(), Ring(undo[..], undoSp, undoCount))
    }

    ghost predicate Valid()
      reads this, text, undo
    {
      TextOk() && UndoOk() && Records(View(), history)
    }

    /** A text just read from its file. */
    constructor (content: seq<byte>)
      requires |content| <= MAX_TEXT
      ensures Valid() && Text() == content && cur == 0 && clip == [] && history == History(content, [], 0) && fresh(text) && fresh(undo)
    {
      var b := new byte[|content| + 1](i => if 0 <= i < |content| then content[i] else 0);
      text, len, cur := b, |content|, 0;
      undo := new Option<Record>[UNDO_MAX](_ => None);
      undoSp, undoCount := 0, 0;
      clip, clipLines := [], false;
      history := History(content, [], 0);
      new;
      assert Text() == content;
      RebuildLines();
    }

    /** `vim_rebuild_lines`. */
    method RebuildLines()
      requires len <= text.Length
      modifies this`loff
      ensures LineTable(Text(), loff)
    {
      ghost var t := Text();
      var nl: seq<nat> := [0];
      var i := 0;
      while i < len
        invariant 0 <= i <= len && nl != [] && Increasing(nl)
        invariant forall x: nat :: x in nl <==> x <= i && LineStart(t, x)
      {
        LastStart(t, nl, i);
        if text[i] == NEWLINE {
          nl := nl + [i + 1];
        }
        i := i + 1;
      }
      loff := nl + [len];
      assert Starts(loff) == nl;
    }

    /** `vim_ensure_cap`: room for `need` bytes, by doubling up to the largest text. */
    method EnsureCap(need: nat)
      requires len <= text.Length && len < need <= MAX_TEXT + 1
      modifies this`text
      ensures need <= text.Length && text[..len] == old(text[..len]) && (text == old(text) || fresh(text))
    {
      if need <= text.Length {
        return;
      }
      var ncap := if text.Length > 0 then text.Length * 2 else 256;
      while ncap < need
        invariant ncap > 0
        decreases need - ncap
      {
        ncap := ncap * 2;
      }
      if ncap > MAX_TEXT + 1 {
        ncap := MAX_TEXT + 1;
      }
      var nbuf := new byte[ncap](_ => 0);
      forall i | 0 <= i < len {
        nbuf[i] := text[i];
      }
      text := nbuf;
    }

    /** `vim_undo_push`. */
    method UndoPush(r: Record)
      requires UndoOk()
      modifies this`undoSp, this`undoCount, undo
      ensures UndoOk() && Ring(undo[..], undoSp, undoCount) == Push(old(Ring(undo[..], undoSp, undoCount)), r)
    {
      ghost var slots := undo[..];
      RingPush(slots, undoSp, undoCount, r);
      undo[undoSp] := Some(r);
      assert undo[..] == slots[undoSp := Some(r)];
      undoSp := (undoSp + 1) % UNDO_MAX;
      if undoCount < UNDO_MAX {
        undoCount := undoCount + 1;
      }
    }

    /** The bytes from `pos` on move down by `n`. */
    method CloseGap(pos: nat, n: nat)
      requires pos + n <= len <= text.Length
      modifies this`len, text
      ensures len == old(len) - n && text[..len] == Cut(old(text[..len]), pos, n)
    {
      ghost var t := text[..len];
      forall i | pos <= i < len - n {
        text[i] := text[i + n];
      }
      len := len - n;
      assert text[..pos] == t[..pos] && text[pos..len] == t[pos + n..];
      assert text[..len] == text[..pos] + text[pos..len];
    }

    /** The bytes from `pos` on move up, and `data` goes in between. */
    method OpenGap(pos: nat, data: seq<byte>)
      requires pos <= len && len + |data| <= text.Length
      modifies this`len, text
      ensures len == old(len) + |data| && text[..len] == Paste(old(text[..len]), pos, data)
    {
      ghost var t := text[..len];
      forall i | pos <= i < len {
        text[i + |data|] := text[i];
      }
      forall i | 0 <= i < |data| {
        text[pos + i] := data[i];
      }
      len := len + |data|;
      assert forall i | 0 <= i < len :: text[i] == Paste(t, pos, data)[i];
    }

    /** `vim_buf_delete` without recording. */
    method CutOut(pos: nat, n: nat)
      requires TextOk()
      modifies this`len, this`cur, this`loff, text
      ensures TextOk() && Text() == Cut(old(Text()), pos, n)
      ensures cur == if pos > old(len) || n == 0 then old(cur) else CursorAfterCut(old(cur), pos, old(len) - len, len)
    {
      if pos > len || n == 0 {
        CutNothing(Text(), pos);
        return;
      }
      var m := if pos + n > len then len - pos else n;
      assert Cut(Text(), pos, m) == Cut(Text(), pos, n);
      CloseGap(pos, m);
      if cur > len {
        cur := len;
      } else if cur > pos {
        if cur >= pos + m {
          cur := cur - m;
        } else {
          cur := pos;
        }
      }
      RebuildLines();
    }

    /** `vim_buf_insert` without recording. */
    method PutIn(pos: nat, data: seq<byte>) returns (ok: bool)
      requires TextOk()
      modifies this`text, this`len, this`cur, this`loff, text
      ensures TextOk() && (text == old(text) || fresh(text))
      ensures ok <==> old(len) + |data| <= MAX_TEXT
      ensures Text() == if ok then Paste(old(Text()), pos, data) else old(Text())
      ensures cur == if ok then Min(pos, old(len)) + |data| else old(cur)
    {
      if len + |data| > MAX_TEXT {
        return false;
      }
      var p := if pos > len then len else pos;
      EnsureCap(len + |data| + 1);
      OpenGap(p, data);
      cur := p + |data|;
      RebuildLines();
      ok := true;
    }

    /** The deletion with its record. */
    method CutRecorded(pos: nat, n: nat)
      requires TextOk() && UndoOk() && pos <= len && n > 0
      modifies this`len, this`cur, this`loff, this`undoSp, this`undoCount, text, undo
      ensures TextOk() && UndoOk() && View() == Apply(old(View()), Delete(pos, n))
      ensures cur == CursorAfterCut(old(cur), pos, old(len) - len, len)
    {
      ghost var b := View();
      var m := if pos + n > len then len - pos else n;
      var data := Bytes(pos, pos + m);
      assert data == Piece(b.text, pos, n);
      UndoPush(Deleted(pos, data));
      assert Text() == b.text;
      CutOut(pos, n);
    }

    /** `vim_buf_delete` with recording. */
    method BufDelete(pos: nat, n: nat)
      requires Valid()
      modifies this`len, this`cur, this`loff, this`undoSp, this`undoCount, this`history, text, undo
      ensures Valid()
      ensures View() == Apply(old(View()), Delete(pos, n)) && history == Follow(old(history), Delete(pos, n))
      ensures cur == if pos > old(len) || n == 0 then old(cur) else CursorAfterCut(old(cur), pos, old(len) - len, len)
    {
      if pos > len || n == 0 {
        return;
      }
      ApplyKeeps(View(), history, Delete(pos, n));
      history := Follow(history, Delete(pos, n));
      CutRecorded(pos, n);
    }

    /** `vim_buf_insert` with recording. */
    method BufInsert(pos: nat, data: seq<byte>) returns (ok: bool)
      requires Valid()
      modifies this`text, this`len, this`cur, this`loff, this`undoSp, this`undoCount, this`history, text, undo
      ensures Valid() && (text == old(text) || fresh(text))
      ensures ok <==> old(len) + |data| <= MAX_TEXT
      ensures View() == Apply(old(View()), Insert(pos, data)) && history == Follow(old(history), Insert(pos, data))
      ensures cur == if ok then Min(pos, old(len)) + |data| else old(cur)
    {
      if len + |data| > MAX_TEXT {
        return false;
      }
      ApplyKeeps(View(), history, Insert(pos, data));
      history := Follow(history, Insert(pos, data));
      UndoPush(Inserted(Min(pos, len), data));
      ok := PutIn(pos, data);
    }

    /** The edit of record `u` is taken back, and the cursor goes there. */
    method TakeBack(u: Record) returns (ok: bool)
      requires TextOk() && u.pos <= len && |Revert(u, Text())| <= MAX_TEXT && u.pos <= |Revert(u, Text())|
      modifies this`text, this`len, this`cur, this`loff, text
      ensures TextOk() && (text == old(text) || fresh(text))
      ensures ok && Text() == Revert(u, old(Text()))
      ensures cur == if u.Inserted? then u.pos else u.pos + |u.data|
    {
      match u {
        case Inserted(pos, data) =>
          CutOut(pos, |data|);
          cur := pos;
          ok := true;
        case Deleted(pos, data) =>
          ok := PutIn(pos, data);
          if ok {
            cur := pos + |data|;
          }
      }
    }

    /** The latest record. */
    method Latest() returns (idx: nat, u: Record)
      requires UndoOk() && undoCount > 0
      ensures idx == Back(undoSp, 1) && undo[idx] == Some(u) && u == Ring(undo[..], undoSp, undoCount)[undoCount - 1]
    {
      idx := if undoSp > 0 then undoSp - 1 else UNDO_MAX - 1;
      RingPop(undo[..], undoSp, undoCount);
      assert undo[idx] == undo[..][idx];
      u := undo[idx].value;
    }

    /** The latest record is dropped from the ring. */
    method Release(idx: nat)
      requires UndoOk() && undoCount > 0 && idx == Back(undoSp, 1)
      modifies this`undoSp, this`undoCount, undo
      ensures UndoOk() && Ring(undo[..], undoSp, undoCount) == old(Ring(undo[..], undoSp, undoCount))[..old(undoCount) - 1]
    {
      ghost var slots := undo[..];
      RingPop(slots, undoSp, undoCount);
      undo[idx] := None;
      assert undo[..] == slots[idx := None];
      undoSp := idx;
      undoCount := undoCount - 1;
    }

    /** The part of an undo that follows the choice of the record. */
    method Reverse(idx: nat, u: Record) returns (ok: bool)
      requires TextOk() && UndoOk() && undoCount > 0 && idx == Back(undoSp, 1)
      requires u.pos <= len && |Revert(u, Text())| <= MAX_TEXT && u.pos <= |Revert(u, Text())|
      modifies this`text, this`len, this`cur, this`loff, this`undoSp, this`undoCount, text, undo
      ensures TextOk() && UndoOk() && (text == old(text) || fresh(text))
      ensures ok && View() == Buffer(Revert(u, old(Text())), old(View()).records[..old(undoCount) - 1])
      ensures cur == if u.Inserted? then u.pos else u.pos + |u.data|
    {
      ok := TakeBack(u);
      if !ok {
        return;
      }
      Release(idx);
    }

    /** `vim_do_undo`. */
    method DoUndo() returns (ok: bool)
      requires Valid()
      modifies this`text, this`len, this`cur, this`loff, this`undoSp, this`undoCount, this`history, text, undo
      ensures Valid() && (text == old(text) || fresh(text))
      ensures ok <==> |old(history).past| > old(history).lost
      ensures View() == Apply(old(View()), Undo) && history == Follow(old(history), Undo)
      ensures !ok ==> cur == old(cur)
      ensures ok ==>
        var r := old(View()).records;
        r != [] && cur == r[|r| - 1].pos + if r[|r| - 1].Inserted? then 0 else |r[|r| - 1].data|
    {
      if undoCount == 0 {
        return false;
      }
      ghost var b, h := View(), history;
      var idx, u := Latest();
      assert u == b.records[|b.records| - 1];
      LastRestores(b, h);
      UndoKeeps(b, h);
      ok := Reverse(idx, u);
      history := Follow(h, Undo);
      assert View() == Apply(b, Undo);
    }

    // ---- rows and columns ----

    /** The loop of `vim_off_to_rc`. */
    method FindRow(off: nat) returns (row: nat)
      requires |loff| >= 2
      ensures row == RowOf(loff, off, 0)
    {
      row := 0;
      while off >= loff[row + 1] && row + 2 < |loff|
        invariant row + 1 < |loff| && RowOf(loff, off, 0) == RowOf(loff, off, row)
        decreases |loff| - row
      {
        row := row + 1;
      }
    }

    /** The end of a row, its newline not included. */
    method EndOfRow(row: nat) returns (end: nat)
      requires len <= text.Length && row + 1 < |loff| && loff[row + 1] <= len
      ensures end == RowEnd(Text(), loff, row)
    {
      end := loff[row + 1];
      if end > loff[row] && text[end - 1] == NEWLINE {
        end := end - 1;
      }
    }

    /** `vim_off_to_rc`. */
    method OffToRow(off: nat) returns (row: nat, col: int)
      requires TextOk()
      ensures (row as int, col) == OffToRc(Text(), loff, off) && row + 1 < |loff| && row == RowOf(loff, Min(off, len), 0)
    {
      var o := if off > len then len else off;
      row := FindRow(o);
      RcOfRow(Text(), loff, off, o, row);
      var start := loff[row];
      var end := EndOfRow(row);
      col := if o > end then end - start else o - start;
    }

    /** `vim_rc_to_off`. */
    method RowToOff(row: int, col: int) returns (off: nat)
      requires TextOk()
      ensures off == RcToOff(Text(), loff, row, col)
    {
      var r := if row < 0 then 0 else if row >= |loff| - 1 then |loff| - 2 else row;
      RowShape(Text(), loff, r);
      var start := loff[r];
      var end := EndOfRow(r);
      var c := if col < 0 then 0 else col;
      off := start + if c > end - start then end - start else c;
    }

    // ---- motions ----

    /** `h`. */
    method MoveLeft(count: int)
      requires TextOk()
      modifies this`cur
      ensures TextOk() && cur == if count <= 0 then old(cur) else if count >= old(cur) then 0 else old(cur) - count
    {
      var n := count;
      while n > 0 && cur > 0
        invariant TextOk() && (count > 0 ==> n >= 0 && cur + (count - n) == old(cur)) && (count <= 0 ==> n == count && cur == old(cur))
      {
        n := n - 1;
        cur := cur - 1;
      }
    }

    /** `l`: within the line. */
    method MoveRight(count: int)
      requires TextOk()
      modifies this`cur
      ensures TextOk() && old(cur) <= cur && NEWLINE !in Text()[old(cur)..cur]
      ensures cur == old(cur) + Max(count, 0) || (cur < old(cur) + Max(count, 0) && (cur == len || Text()[cur] == NEWLINE))
    {
      var n := count;
      while n > 0 && cur < len && text[cur] != NEWLINE
        invariant TextOk() && old(cur) <= cur && NEWLINE !in Text()[old(cur)..cur]
        invariant (count > 0 ==> n >= 0 && cur == old(cur) + (count - n)) && (count <= 0 ==> n == count && cur == old(cur))
      {
        OneMore(Text(), old(cur), cur);
        n := n - 1;
        cur := cur + 1;
      }
    }

    /** `j`: the same column, `n` lines down, as far as there are lines and columns. */
    method MoveDown(n: nat)
      requires TextOk()
      modifies this`cur
      ensures TextOk()
      ensures var (r, c) := OffToRc(Text(), loff, old(cur)); cur == RcToOff(Text(), loff, r + n, c)
    {
      var row, col := OffToRow(cur);
      var to := row + n;
      if to >= |loff| - 1 {
        to := |loff| - 2;
      }
      SameRow(Text(), loff, row + n, to, col);
      cur := RowToOff(to, col);
    }

    /** `k`. */
    method MoveUp(n: nat)
      requires TextOk()
      modifies this`cur
      ensures TextOk()
      ensures var (r, c) := OffToRc(Text(), loff, old(cur)); cur == RcToOff(Text(), loff, r - n, c)
    {
      var row, col := OffToRow(cur);
      var to := row - n;
      if to < 0 {
        to := 0;
      }
      SameRow(Text(), loff, row - n, to, col);
      cur := RowToOff(to, col);
    }

    /** `0`. */
    method LineBegin()
      requires TextOk()
      modifies this`cur
      ensures TextOk() && cur <= old(cur) && LineStart(Text(), cur) && NEWLINE !in Text()[cur..old(cur)]
    {
      var row, _ := OffToRow(cur);
      RowShape(Text(), loff, row);
      RowAt(Text(), loff, cur);
      NoBreakInRow(Text(), loff, row);
      assert forall i | loff[row] <= i < cur :: Text()[i] != NEWLINE;
      cur := loff[row];
    }

    /** `^`: the first character of the line that is neither space nor tab, or the line's end. */
    method LineFirstNonblank()
      requires TextOk()
      modifies this`cur
      ensures TextOk()
      ensures var r := RowOf(loff, old(cur), 0);
              && loff[r] <= cur <= loff[r + 1] <= len
              && (forall i | loff[r] <= i < cur :: Text()[i] == 32 || Text()[i] == 9)
              && (cur == RowEnd(Text(), loff, r) || (cur < RowEnd(Text(), loff, r) && Text()[cur] != 32 && Text()[cur] != 9))
    {
      var row, _ := OffToRow(cur);
      RowShape(Text(), loff, row);
      var p := loff[row];
      var end := EndOfRow(row);
      while p < end && (text[p] == 32 || text[p] == 9)
        invariant loff[row] <= p <= end && forall i | loff[row] <= i < p :: Text()[i] == 32 || Text()[i] == 9
      {
        p := p + 1;
      }
      cur := p;
    }

    /** `$`. */
    method LineEnd()
      requires TextOk()
      modifies this`cur
      ensures TextOk() && old(cur) <= cur && (cur == len || Text()[cur] == NEWLINE) && NEWLINE !in Text()[old(cur)..cur]
    {
      var row, _ := OffToRow(cur);
      RowShape(Text(), loff, row);
      RowAt(Text(), loff, cur);
      NoBreakInRow(Text(), loff, row);
      var end := EndOfRow(row);
      assert forall i | cur <= i < end :: Text()[i] != NEWLINE;
      cur := end;
    }

    /** The cursor runs over characters of this class. */
    method SkipClass(c: Class)
      requires TextOk()
      modifies this`cur
      ensures TextOk() && old(cur) <= cur
      ensures (forall k | old(cur) <= k < cur :: ClassOf(Text()[k]) == c) && (cur < len ==> ClassOf(Text()[cur]) != c)
    {
      while cur < len && ClassOf(text[cur]) == c
        invariant TextOk() && old(cur) <= cur && forall k | old(cur) <= k < cur :: ClassOf(Text()[k]) == c
      {
        cur := cur + 1;
      }
    }

    /** One turn of `vim_word_fwd`. */
    method WordForward()
      requires TextOk()
      modifies this`cur
      ensures TextOk() && Moves(Next, Text(), old(cur), cur)
    {
      if cur >= len {
        return;
      }
      var c := ClassOf(text[cur]);
      assert c == ClassOf(Text()[cur]);
      if c != Blank {
        SkipClass(c);
      }
      SkipClass(Blank);
    }

    /** The cursor runs back while the character before it is of this class. */
    method BackOver(c: Class)
      requires TextOk()
      modifies this`cur
      ensures TextOk() && cur <= old(cur)
      ensures (forall k | cur <= k < old(cur) :: ClassOf(Text()[k]) == c) && (cur > 0 ==> ClassOf(Text()[cur - 1]) != c)
    {
      while cur > 0 && ClassOf(text[cur - 1]) == c
        invariant TextOk() && cur <= old(cur) && forall k | cur <= k < old(cur) :: ClassOf(Text()[k]) == c
      {
        cur := cur - 1;
      }
    }

    /** One turn of `vim_word_back`. */
    method WordBack()
      requires TextOk()
      modifies this`cur
      ensures TextOk() && Moves(Prev, Text(), old(cur), cur)
    {
      if cur == 0 {
        return;
      }
      cur := cur - 1;
      while cur > 0 && ClassOf(text[cur]) == Blank
        invariant TextOk() && cur < old(cur) && forall k | cur < k < old(cur) :: ClassOf(Text()[k]) == Blank
      {
        cur := cur - 1;
      }
      ghost var at := cur;
      var c := ClassOf(text[cur]);
      assert c == ClassOf(Text()[cur]);
      if c != Blank {
        BackOver(c);
        assert forall k | cur <= k <= at :: ClassOf(Text()[k]) == c;
        assert forall k | cur < k <= at :: ClassOf(Text()[k - 1]) == ClassOf(Text()[k]);
      }
    }

    /** One turn of `vim_word_end`. */
    method WordEndForward()
      requires TextOk()
      modifies this`cur
      ensures TextOk() && Moves(End, Text(), old(cur), cur)
    {
      if cur + 1 < len {
        cur := cur + 1;
      }
      SkipClass(Blank);
      if cur >= len {
        return;
      }
      ghost var at := cur;
      var c := ClassOf(text[cur]);
      assert c == ClassOf(Text()[cur]);
      while cur + 1 < len && ClassOf(text[cur + 1]) == c
        invariant TextOk() && at <= cur < len && forall k | at <= k <= cur :: ClassOf(Text()[k]) == c
      {
        cur := cur + 1;
      }
      assert forall k | at <= k < cur :: ClassOf(Text()[k + 1]) == ClassOf(Text()[k]);
    }

    /** `w`, `b` and `e` with a count.  The code returns early from `w` and `b` at the ends of the text, where further turns would not move. */
    method MoveWords(m: Motion, count: nat)
      requires TextOk()
      modifies this`cur
      ensures TextOk() && MovesBy(m, Text(), old(cur), count, cur)
    {
      var n: nat := count;
      while n > 0
        invariant TextOk() && n <= count
        invariant forall j: nat :: MovesBy(m, Text(), cur, n, j) ==> MovesBy(m, Text(), old(cur), count, j)
      {
        ghost var i := cur;
        match m {
          case Next => WordForward();
          case Prev => WordBack();
          case End => WordEndForward();
        }
        forall j: nat | MovesBy(m, Text(), cur, n - 1, j)
          ensures MovesBy(m, Text(), i, n, j)
        {
          MovesOne(m, Text(), i, cur, n, j);
        }
        n := n - 1;
      }
      assert MovesBy(m, Text(), cur, 0, cur);
    }

    // ---- dd and P ----

    /** `vim_clip_set`. */
    method ClipSet(data: seq<byte>, lines: bool) returns (ok: bool)
      modifies this`clip, this`clipLines
      ensures ok <==> |data| <= CLIP_MAX
      ensures if ok then clip == data && clipLines == lines else clip == old(clip) && clipLines == old(clipLines)
    {
      if |data| > CLIP_MAX {
        return false;
      }
      clip, clipLines, ok := data, lines, true;
    }

    /** From where to where `dd` and `yy` reach. */
    method LinesHere(count: int) returns (a: nat, b: nat)
      requires TextOk()
      ensures (a, b) == LinesAt(Text(), loff, cur, count) && a <= b <= len
    {
      var row, _ := OffToRow(cur);
      var n := if count < 1 then 1 else count;
      if row + n > |loff| - 1 {
        n := |loff| - 1 - row;
      }
      LinesOrdered(Text(), loff, cur, count);
      assert n == Clamp(count, 1, Rows(loff) - row);
      a, b := loff[row], loff[row + n];
    }

    method Bytes(a: nat, b: nat) returns (data: seq<byte>)
      requires TextOk() && a <= b <= len
      ensures data == Piece(Text(), a, b - a) && |data| == b - a
    {
      ghost var t := Text();
      data := text[a..b];
      forall i | 0 <= i < b - a
        ensures data[i] == t[a..b][i]
      {
      }
    }

    /** `vim_delete_lines`. */
    method DeleteLines(count: int) returns (ok: bool)
      requires Valid()
      modifies this, text, undo
      ensures Valid() && text == old(text)
      ensures var (a, b) := LinesAt(old(Text()), old(loff), old(cur), count);
              && (ok <==> b - a <= CLIP_MAX)
              && (ok ==> clip == Piece(old(Text()), a, b - a) && clipLines && cur == a && View() == Apply(old(View()), Delete(a, b - a)))
              && (!ok ==> View() == old(View()) && cur == old(cur) && clip == old(clip))
    {
      var a, b := LinesHere(count);
      ghost var t, v := Text(), View();
      ok := TakeLines(a, b);
      assert ok ==> clip == Piece(t, a, b - a) && View() == Apply(v, Delete(a, b - a));
    }

    method TakeLines(a: nat, b: nat) returns (ok: bool)
      requires Valid() && a <= b <= len
      modifies this, text, undo
      ensures Valid() && text == old(text) && (ok <==> b - a <= CLIP_MAX)
      ensures ok ==> clip == Piece(old(Text()), a, b - a) && clipLines && cur == a && View() == Apply(old(View()), Delete(a, b - a))
      ensures !ok ==> View() == old(View()) && cur == old(cur) && clip == old(clip)
    {
      var data := Bytes(a, b);
      ok := ClipSet(data, true);
      if !ok {
        return;
      }
      BufDelete(a, b - a);
      cur := Min(a, len);
    }

    /** Where `p` and `P` put the clipboard. */
    ghost function PutAt(after: bool): nat
      requires TextOk()
      reads this, text
    {
      if clipLines then
        var r := RowOf(loff, cur, 0);
        if after then loff[r + 1] else loff[r]
      else if after && cur < len && text[cur] != NEWLINE then cur + 1 else cur
    }

    /**
     * Whole lines go in front of the line the cursor is on, or behind it; `p` of anything else
     * behind the character under the cursor, unless that is the end of a line.
     */
    lemma PutMeans(after: bool)
      requires TextOk()
      ensures PutAt(after) <= len
      ensures clipLines && !after ==> LineStart(Text(), PutAt(after)) && SameLine(Text(), PutAt(after), cur)
      ensures clipLines && after ==> EndsLine(Text(), cur, PutAt(after))
      ensures !clipLines ==> PutAt(after) == if after && cur < len && text[cur] != NEWLINE then cur + 1 else cur
    {
      LineAround(Text(), loff, cur);
    }

    method PutPlace(after: bool) returns (pos: nat)
      requires TextOk()
      ensures pos == PutAt(after) && pos <= len
    {
      PutMeans(after);
      pos := cur;
      if clipLines {
        var row, _ := OffToRow(cur);
        pos := if after then loff[row + 1] else loff[row];
      } else if after && pos < len && text[pos] != NEWLINE {
        pos := pos + 1;
      }
    }

    /** `vim_paste`: `p` and `P`. */
    method PutClip(after: bool) returns (ok: bool)
      requires Valid()
      modifies this, text, undo
      ensures Valid() && (text == old(text) || fresh(text))
      ensures ok <==> old(clip) != [] && old(len) + |old(clip)| <= MAX_TEXT
      ensures clip == old(clip) && clipLines == old(clipLines)
      ensures !ok ==> View() == old(View())
      ensures ok ==> View() == Apply(old(View()), Insert(old(PutAt(after)), clip)) && cur == old(PutAt(after)) + |clip|
      ensures !ok ==> cur == old(cur)
    {
      if clip == [] {
        return false;
      }
      var pos := PutPlace(after);
      ok := BufInsert(pos, clip);
    }
  }
}
