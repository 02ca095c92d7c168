/**
 * The lines of cli/cli_vim.c: the table of line offsets, the two conversions between byte
 * offsets and row and column, and what `dd` followed by `P` does.
 */
module VimText {
  import opened Wrappers
  import opened VimSpec

  const NEWLINE: byte := 10

  /** A line begins at `x`: at the start of the text or behind a newline. */
  predicate LineStart(t: Text, x: nat) {
    x <= |t| && (x == 0 || t[x - 1] == NEWLINE)
  }

  ghost predicate Increasing(s: seq<nat>) {
    forall i, j | 0 <= i < j < |s| :: s[i] < s[j]
  }

  /** The entries of an offset table that are line starts: all but the last. */
  function Starts(loff: seq<nat>): seq<nat> {
    if loff == [] then [] else loff[..|loff| - 1]
  }

  /** `loff`: where every line begins, in order, and the length of the text at the end. */
  ghost predicate LineTable(t: Text, loff: seq<nat>) {
    && |loff| >= 2 && loff[|loff| - 1] == |t| && Increasing(Starts(loff))
    && forall x: nat :: x in Starts(loff) <==> LineStart(t, x)
  }

  lemma Head(s: seq<nat>)
    ensures s != [] ==> s[0] in s && s == [s[0]] + s[1..]
  {
  }

  lemma {:induction false} SameMembers(a: seq<nat>, b: seq<nat>)
    requires Increasing(a) && Increasing(b) && forall x: nat :: x in a <==> x in b
    ensures a == b
    decreases |a|
  {
    Head(a);
    Head(b);
    if a != [] {
      assert a[0] == b[0];
      forall x: nat
        ensures x in a[1..] <==> x in b[1..]
      {
        assert x in a <==> x == a[0] || x in a[1..];
        assert x in b <==> x == b[0] || x in b[1..];
      }
      SameMembers(a[1..], b[1..]);
    }
  }

  /** A text has one line table. */
  lemma TableUnique(t: Text, a: seq<nat>, b: seq<nat>)
    requires LineTable(t, a) && LineTable(t, b)
    ensures a == b
  {
    forall x: nat
      ensures x in Starts(a) <==> x in Starts(b)
    {
      assert x in Starts(a) <==> LineStart(t, x);
      assert x in Starts(b) <==> LineStart(t, x);
    }
    SameMembers(Starts(a), Starts(b));
    assert a == Starts(a) + [|t|] && b == Starts(b) + [|t|];
  }

  lemma StartAt(t: Text, loff: seq<nat>, i: nat)
    requires LineTable(t, loff) && i + 1 < |loff|
    ensures LineStart(t, loff[i])
    ensures forall j | i < j < |loff| - 1 :: loff[i] < loff[j]
  {
    assert Starts(loff)[i] in Starts(loff);
    assert forall j | i < j < |loff| - 1 :: Starts(loff)[i] < Starts(loff)[j];
  }

  /** Every line start is in the table. */
  lemma StartIndex(t: Text, loff: seq<nat>, x: nat) returns (i: nat)
    requires LineTable(t, loff) && LineStart(t, x)
    ensures i + 1 < |loff| && loff[i] == x
  {
    assert x in Starts(loff);
    i :| 0 <= i < |Starts(loff)| && Starts(loff)[i] == x;
  }

  // ---- rows and columns ----

  function Rows(loff: seq<nat>): int {
    |loff| - 1
  }

  /** The offset of the end of row `r`, its newline not included. */
  function RowEnd(t: Text, loff: seq<nat>, r: nat): nat
    requires r + 1 < |loff| && loff[r + 1] <= |t|
  {
    if loff[r + 1] > loff[r] && t[loff[r + 1] - 1] == NEWLINE then loff[r + 1] - 1 else loff[r + 1]
  }

  /** What the table says about row `r`. */
  lemma RowShape(t: Text, loff: seq<nat>, r: nat)
    requires LineTable(t, loff) && r + 1 < |loff|
    ensures loff[r] <= loff[r + 1] <= |t| && LineStart(t, loff[r]) && (r == 0 ==> loff[r] == 0)
    ensures r + 2 < |loff| ==> loff[r] < loff[r + 1] && t[loff[r + 1] - 1] == NEWLINE
    ensures r + 2 == |loff| ==> loff[r + 1] == |t| && (loff[r] < |t| ==> t[|t| - 1] != NEWLINE)
    ensures loff[r] <= RowEnd(t, loff, r) && RowEnd(t, loff, r) == if r + 2 < |loff| then loff[r + 1] - 1 else |t|
  {
    StartAt(t, loff, r);
    var z := StartIndex(t, loff, 0);
    StartAt(t, loff, 0);
    if r + 2 < |loff| {
      StartAt(t, loff, r + 1);
    } else if LineStart(t, |t|) {
      var i := StartIndex(t, loff, |t|);
      StartAt(t, loff, i);
    }
  }

  /** The row of an offset: the first one that ends behind it, or the last. */
  function RowOf(loff: seq<nat>, off: nat, r: nat): (k: nat)
    requires r + 1 < |loff|
    ensures r <= k && k + 1 < |loff| && (k + 2 < |loff| ==> off < loff[k + 1])
    ensures r < k ==> off >= loff[k]
    decreases |loff| - r
  {
    if off < loff[r + 1] || r + 2 == |loff| then r else RowOf(loff, off, r + 1)
  }

  /** `vim_off_to_rc`. */
  ghost function OffToRc(t: Text, loff: seq<nat>, off: nat): (int, int)
    requires LineTable(t, loff)
  {
    var o := Min(off, |t|);
    var r := RowOf(loff, o, 0);
    RowShape(t, loff, r);
    RowAt(t, loff, o);
    var start, end := loff[r], RowEnd(t, loff, r);
    (r, if o > end then end - start else o - start)
  }

  function Clamp(x: int, lo: int, hi: int): (r: int)
    requires lo <= hi
    ensures lo <= r <= hi
  {
    if x < lo then lo else if x > hi then hi else x
  }

  /** `vim_rc_to_off`. */
  ghost function RcToOff(t: Text, loff: seq<nat>, row: int, col: int): (off: nat)
    requires LineTable(t, loff)
    ensures off <= |t|
  {
    var r := Clamp(row, 0, Rows(loff) - 1);
    RowShape(t, loff, r);
    loff[r] + Clamp(col, 0, RowEnd(t, loff, r) - loff[r])
  }

  /** Rows beyond either end count as the last or the first one. */
  lemma SameRow(t: Text, loff: seq<nat>, row: int, to: int, col: int)
    requires LineTable(t, loff) && Clamp(row, 0, Rows(loff) - 1) == Clamp(to, 0, Rows(loff) - 1)
    ensures RcToOff(t, loff, to, col) == RcToOff(t, loff, row, col)
  {
  }

  /** A column beyond the line is its end, a row beyond the text the last one; nothing is left of or above the first. */
  lemma PositionClamped(t: Text, loff: seq<nat>, row: int, col: int)
    requires LineTable(t, loff)
    ensures row >= Rows(loff) ==> RcToOff(t, loff, row, col) == RcToOff(t, loff, Rows(loff) - 1, col)
    ensures row < 0 ==> RcToOff(t, loff, row, col) == RcToOff(t, loff, 0, col)
    ensures 0 <= row < Rows(loff) ==>
              && loff[row] <= loff[row + 1] <= |t|
              && var end := RowEnd(t, loff, row);
                 loff[row] <= end && RcToOff(t, loff, row, col) == if col < 0 then loff[row] else if col <= end - loff[row] then loff[row] + col else end
  {
    if 0 <= row < Rows(loff) { RowShape(t, loff, row); }
  }

  lemma RowAt(t: Text, loff: seq<nat>, off: nat)
    requires LineTable(t, loff) && off <= |t|
    ensures var r := RowOf(loff, off, 0); loff[r] <= off && (r + 2 < |loff| ==> off < loff[r + 1])
  {
    var r := RowOf(loff, off, 0);
    RowShape(t, loff, r);
  }

  lemma RcOfRow(t: Text, loff: seq<nat>, off: nat, o: nat, r: nat)
    requires LineTable(t, loff) && o == Min(off, |t|) && r == RowOf(loff, o, 0)
    ensures r + 1 < |loff| && loff[r + 1] <= |t|
    ensures var start, end := loff[r], RowEnd(t, loff, r);
            OffToRc(t, loff, off) == (r, if o > end then end - start else o - start)
  {
    RowShape(t, loff, r);
  }

  lemma RowFixed(t: Text, loff: seq<nat>, off: nat, r: nat)
    requires LineTable(t, loff) && r + 1 < |loff| && loff[r] <= off && (r + 2 < |loff| ==> off < loff[r + 1])
    ensures RowOf(loff, off, 0) == r
  {
    var k := RowOf(loff, off, 0);
    StartAt(t, loff, r);
    if k + 2 < |loff| { StartAt(t, loff, k + 1); }
    if r + 2 < |loff| { StartAt(t, loff, r + 1); }
  }

  /** Offsets and positions within the lines correspond one to one. */
  lemma OffsetRoundTrip(t: Text, loff: seq<nat>, off: nat)
    requires LineTable(t, loff) && off <= |t|
    ensures var (r, c) := OffToRc(t, loff, off); RcToOff(t, loff, r, c) == off
  {
    var r := RowOf(loff, off, 0);
    RowShape(t, loff, r);
    RowAt(t, loff, off);
  }

  lemma PositionRoundTrip(t: Text, loff: seq<nat>, r: nat, c: nat)
    requires LineTable(t, loff) && r + 1 < |loff| && loff[r + 1] <= |t| && loff[r] + c <= RowEnd(t, loff, r)
    ensures OffToRc(t, loff, RcToOff(t, loff, r, c)) == (r, c)
  {
    RowShape(t, loff, r);
    assert RcToOff(t, loff, r, c) == loff[r] + c;
    RowFixed(t, loff, loff[r] + c, r);
  }

  /** The first line start behind that of row `r` is that of the next row. */
  lemma NextRow(t: Text, loff: seq<nat>, r: nat, x: nat)
    requires LineTable(t, loff) && r + 1 < |loff| && LineStart(t, x) && loff[r] < x
    ensures r + 2 < |loff| && loff[r + 1] <= x
  {
    var k := StartIndex(t, loff, x);
    StartAt(t, loff, r);
    StartAt(t, loff, k);
    if r + 2 < |loff| { StartAt(t, loff, r + 1); }
  }

  /** Between the ends of a row there is no newline. */
  lemma NoBreakInRow(t: Text, loff: seq<nat>, r: nat)
    requires LineTable(t, loff) && r + 1 < |loff| && loff[r + 1] <= |t|
    ensures forall i | loff[r] <= i < RowEnd(t, loff, r) :: t[i] != NEWLINE
  {
    RowShape(t, loff, r);
    forall i | loff[r] <= i < RowEnd(t, loff, r)
      ensures t[i] != NEWLINE
    {
      if t[i] == NEWLINE { NextRow(t, loff, r, i + 1); }
    }
  }

  // ---- dd, then P ----

  /** Where `dd` with this count begins and ends. */
  ghost function LinesAt(t: Text, loff: seq<nat>, cur: nat, count: int): (r: (nat, nat))
    requires LineTable(t, loff) && cur <= |t|
    ensures r.0 <= cur && r.0 <= r.1 <= |t| && LineStart(t, r.0)
  {
    LinesOrdered(t, loff, cur, count);
    var r := RowOf(loff, cur, 0);
    var n := Clamp(count, 1, Rows(loff) - r);
    (loff[r], loff[r + n])
  }

  lemma LinesOrdered(t: Text, loff: seq<nat>, cur: nat, count: int)
    requires LineTable(t, loff) && cur <= |t|
    ensures var r := RowOf(loff, cur, 0);
            var n := Clamp(count, 1, Rows(loff) - r);
            loff[r] <= cur && loff[r] <= loff[r + n] <= |t| && LineStart(t, loff[r])
  {
    var r := RowOf(loff, cur, 0);
    var n := Clamp(count, 1, Rows(loff) - r);
    RowShape(t, loff, r);
    RowAt(t, loff, cur);
    RowShape(t, loff, r + n - 1);
    if r + n + 1 < |loff| { RowShape(t, loff, r + n); }
    StartAt(t, loff, r);
  }

  /** There is no newline from `a` up to `b`. */
  ghost predicate SameLine(t: Text, a: nat, b: nat) {
    a <= b <= |t| && forall i | a <= i < b :: t[i] != NEWLINE
  }

  /** `e` is right behind the newline that ends the line of `x`, or the end of the text if there is none. */
  ghost predicate EndsLine(t: Text, x: nat, e: nat) {
    x <= e <= |t| && if x < e && t[e - 1] == NEWLINE then SameLine(t, x, e - 1) else e == |t| && SameLine(t, x, e)
  }

  /** The entries of the table around an offset are the beginning and the end of its line. */
  lemma LineAround(t: Text, loff: seq<nat>, cur: nat)
    requires LineTable(t, loff) && cur <= |t|
    ensures var r := RowOf(loff, cur, 0);
            LineStart(t, loff[r]) && SameLine(t, loff[r], cur) && EndsLine(t, cur, loff[r + 1])
  {
    var r := RowOf(loff, cur, 0);
    RowShape(t, loff, r);
    RowAt(t, loff, cur);
    NoBreakInRow(t, loff, r);
  }

  /** The number of newlines from `a` up to `b`. */
  function Breaks(t: Text, a: nat, b: nat): nat
    requires b <= |t|
    decreases b
  {
    if a >= b then 0 else Breaks(t, a, b - 1) + if t[b - 1] == NEWLINE then 1 else 0
  }

  lemma {:induction false} NoBreaks(t: Text, a: nat, b: nat)
    requires SameLine(t, a, b)
    ensures Breaks(t, a, b) == 0
    decreases b
  {
    if a < b { NoBreaks(t, a, b - 1); }
  }

  lemma {:induction false} BreaksJoin(t: Text, a: nat, b: nat, c: nat)
    requires a <= b <= c <= |t|
    ensures Breaks(t, a, c) == Breaks(t, a, b) + Breaks(t, b, c)
    decreases c
  {
    if b < c { BreaksJoin(t, a, b, c - 1); }
  }

  lemma RowBreaks(t: Text, loff: seq<nat>, r: nat)
    requires LineTable(t, loff) && r + 1 < |loff|
    ensures loff[r] <= loff[r + 1] <= |t| && Breaks(t, loff[r], loff[r + 1]) == if r + 2 < |loff| then 1 else 0
  {
    RowShape(t, loff, r);
    NoBreakInRow(t, loff, r);
    NoBreaks(t, loff[r], RowEnd(t, loff, r));
  }

  lemma {:induction false} RowsBreaks(t: Text, loff: seq<nat>, r: nat, n: nat)
    requires LineTable(t, loff) && 0 < n && r + n < |loff|
    ensures loff[r] <= loff[r + n] <= |t| && Breaks(t, loff[r], loff[r + n]) == if r + n + 1 < |loff| then n else n - 1
  {
    RowBreaks(t, loff, r + n - 1);
    if n > 1 {
      RowsBreaks(t, loff, r, n - 1);
      BreaksJoin(t, loff[r], loff[r + n - 1], loff[r + n]);
    }
  }

  /** `b` is behind the n-th newline from `a` on, or the end of the text if there are fewer. */
  ghost predicate LinesEnd(t: Text, a: nat, n: nat, b: nat) {
    a <= b <= |t| && ((a < b && t[b - 1] == NEWLINE && Breaks(t, a, b) == n) || (b == |t| && Breaks(t, a, b) < n))
  }

  lemma RowsEnd(t: Text, loff: seq<nat>, r: nat, n: nat, want: nat)
    requires LineTable(t, loff) && 0 < n && r + n < |loff|
    requires want == n || (n < want && r + n + 1 == |loff|)
    ensures LinesEnd(t, loff[r], want, loff[r + n])
  {
    RowsBreaks(t, loff, r, n);
    RowShape(t, loff, r + n - 1);
  }

  /** The `n` lines from the beginning of the cursor's line on, or as many as there are. */
  lemma LinesMeans(t: Text, loff: seq<nat>, cur: nat, count: int)
    requires LineTable(t, loff) && cur <= |t|
    ensures var (a, b) := LinesAt(t, loff, cur, count);
            LineStart(t, a) && SameLine(t, a, cur) && LinesEnd(t, a, if count < 1 then 1 else count, b)
  {
    var r := RowOf(loff, cur, 0);
    var n := Clamp(count, 1, Rows(loff) - r);
    LineAround(t, loff, cur);
    RowsEnd(t, loff, r, n, if count < 1 then 1 else count);
  }

  /** There is only one such end. */
  lemma LinesEndUnique(t: Text, a: nat, n: nat, b: nat, c: nat)
    requires n > 0 && LinesEnd(t, a, n, b) && LinesEnd(t, a, n, c)
    ensures b == c
  {
    if b < c { BreaksJoin(t, a, b, c - 1); }
    if c < b { BreaksJoin(t, a, c, b - 1); }
  }

  /** After the lines are gone, their place is still the beginning of a line. */
  lemma PlaceKept(t: Text, a: nat, b: nat)
    requires a <= b <= |t| && LineStart(t, a)
    ensures Cut(t, a, b - a) == t[..a] + t[b..] && LineStart(Cut(t, a, b - a), a)
  {
  }

  /** Putting the deleted lines back in front of the line the cursor is on restores the text, last line or not. */
  lemma DeletePutRestores(t: Text, loff: seq<nat>, cur: nat, count: int, loff': seq<nat>)
    requires LineTable(t, loff) && cur <= |t|
    requires var (a, b) := LinesAt(t, loff, cur, count); LineTable(Cut(t, a, b - a), loff')
    ensures var (a, b) := LinesAt(t, loff, cur, count);
            var t' := Cut(t, a, b - a);
            && a <= |t'| && loff'[RowOf(loff', a, 0)] == a && Paste(t', a, Piece(t, a, b - a)) == t
  {
    var (a, b) := LinesAt(t, loff, cur, count);
    var t' := Cut(t, a, b - a);
    PlaceKept(t, a, b);
    PasteUndoesCut(t, a, b - a);
    var i := StartIndex(t', loff', a);
    if i + 2 < |loff'| { RowShape(t', loff', i); }
    RowFixed(t', loff', a, i);
  }

  // ---- words ----

  datatype Class = Word | Blank | Other

  function ClassOf(c: byte): Class {
    if IsWord(c) then Word else if c == 32 || c == 9 || c == NEWLINE then Blank else Other
  }

  /** `vim_is_word`: letters, digits and the underscore. */
  predicate IsWord(c: byte) {
    97 <= c <= 122 || 65 <= c <= 90 || 48 <= c <= 57 || c == 95
  }

  /** A word, or a run of other characters, begins at `i`; the end of the text counts. */
  predicate WordStart(t: Text, i: nat) {
    i == |t| || (i < |t| && ClassOf(t[i]) != Blank && (i == 0 || ClassOf(t[i - 1]) != ClassOf(t[i])))
  }

  /** One ends at `i`. */
  predicate WordEnd(t: Text, i: nat) {
    i < |t| && ClassOf(t[i]) != Blank && (i + 1 == |t| || ClassOf(t[i + 1]) != ClassOf(t[i]))
  }

  /** The next beginning behind `i`, or the end of the text. */
  ghost predicate NextStart(t: Text, i: nat, j: nat) {
    if i >= |t| then j == i
    else i < j <= |t| && WordStart(t, j) && forall k | i < k < j :: !WordStart(t, k)
  }

  /** The last beginning before `i`, or the start of the text. */
  ghost predicate PrevStart(t: Text, i: nat, j: nat) {
    if i == 0 then j == 0
    else j < i && (j == 0 || WordStart(t, j)) && forall k | j < k < i :: !WordStart(t, k)
  }

  /** The next end behind `i`; on the last character, that character's if it is one. */
  ghost predicate NextEnd(t: Text, i: nat, j: nat) {
    var k := if i + 1 < |t| then i + 1 else i;
    && k <= j <= |t| && (j < |t| ==> WordEnd(t, j)) && forall m | k <= m < j :: !WordEnd(t, m)
  }

  /** Which of the word motions. */
  datatype Motion = Next | Prev | End

  ghost predicate Moves(m: Motion, t: Text, i: nat, j: nat) {
    match m
    case Next => NextStart(t, i, j)
    case Prev => PrevStart(t, i, j)
    case End => NextEnd(t, i, j)
  }

  /** The motion repeated `n` times leads from `i` to `j`. */
  ghost predicate MovesBy(m: Motion, t: Text, i: nat, n: nat, j: nat)
    decreases n
  {
    if n == 0 then j == i else exists k :: Moves(m, t, i, k) && MovesBy(m, t, k, n - 1, j)
  }

  lemma MovesOne(m: Motion, t: Text, i: nat, k: nat, n: nat, j: nat)
    requires n > 0 && Moves(m, t, i, k) && MovesBy(m, t, k, n - 1, j)
    ensures MovesBy(m, t, i, n, j)
  {
  }
}
