/**
 * The undo of cli/cli_vim.c: a ring of 64 records, against a history that forgets nothing.
 */
module VimSpec {
  import opened Wrappers

  type Text = seq<byte>

  /** CGRTOS_FS_MAX_FILE_BYTES and CGRTOS_VIM_UNDO_MAX. */
  const MAX_TEXT: nat := 32768
  const UNDO_MAX: nat := 64

  // ---- edits ----

  function Min(a: nat, b: nat): nat {
    if a < b then a else b
  }

  /** `data` put in at `pos`, or at the end if the text is shorter. */
  function Paste(t: Text, pos: nat, data: Text): (r: Text)
    ensures |r| == |t| + |data|
  {
    var p := Min(pos, |t|);
    t[..p] + data + t[p..]
  }

  /** The text without the `n` bytes from `pos` on, or those of them that exist. */
  function Cut(t: Text, pos: nat, n: nat): Text {
    if pos > |t| then t else t[..pos] + t[Min(pos + n, |t|)..]
  }

  /** What is cut out. */
  function Piece(t: Text, pos: nat, n: nat): Text {
    if pos > |t| then [] else t[pos..Min(pos + n, |t|)]
  }

  /** Where each byte is after an insertion. */
  lemma PasteBytes(t: Text, pos: nat, data: Text, i: nat)
    requires pos <= |t|
    ensures i < |data| ==> Paste(t, pos, data)[pos + i] == data[i]
    ensures i < |t| ==> Paste(t, pos, data)[if i < pos then i else i + |data|] == t[i]
    ensures Paste(t, |t| + i, data) == t + data
  {
  }

  lemma CutUndoesPaste(t: Text, pos: nat, data: Text)
    ensures Cut(Paste(t, pos, data), Min(pos, |t|), |data|) == t
  {
    var p := Min(pos, |t|);
    var t' := Paste(t, pos, data);
    assert t'[..p] == t[..p] && t'[p + |data|..] == t[p..];
    assert t[..p] + t[p..] == t;
  }

  lemma PasteUndoesCut(t: Text, pos: nat, n: nat)
    requires pos <= |t|
    ensures Paste(Cut(t, pos, n), pos, Piece(t, pos, n)) == t
  {
    var e := Min(pos + n, |t|);
    var t' := Cut(t, pos, n);
    assert t'[..pos] == t[..pos] && t'[pos..] == t[e..];
    assert t[..pos] + t[pos..e] + t[e..] == t;
  }

  /** The cursor after `m` bytes have gone at `pos`, which leaves `len`.  Behind the new end it is put at the end first. */
  function CursorAfterCut(cur: nat, pos: nat, m: nat, len: nat): nat {
    if cur > len then len else if cur <= pos then cur else if cur >= pos + m then cur - m else pos
  }

  /** The cursor on what it was on before, or where the cut was if that has gone. */
  function Carried(cur: nat, pos: nat, m: nat): nat {
    if cur <= pos then cur else if cur >= pos + m then cur - m else pos
  }

  /** The cursor stays with its character unless it was behind the new end: then only at the end of the text, or if the cut reached it. */
  lemma CursorCarriedIff(cur: nat, pos: nat, m: nat, len: nat)
    requires cur <= len + m && pos <= len
    ensures CursorAfterCut(cur, pos, m, len) == Carried(cur, pos, m) <==> cur <= len || cur == len + m || pos == len
  {
  }

  /** The carried cursor is on the same byte. */
  lemma CarriedSameByte(t: Text, cur: nat, pos: nat, n: nat)
    requires cur < |t| && pos <= |t| && (cur < pos || cur >= pos + n)
    ensures var c := Carried(cur, pos, Min(n, |t| - pos)); c < |Cut(t, pos, n)| && Cut(t, pos, n)[c] == t[cur]
  {
  }

  // ---- the editor with its records ----

  /** One undo record: text that was put in at `pos`, or taken out there. */
  datatype Record = Inserted(pos: nat, data: Text) | Deleted(pos: nat, data: Text)

  /** `records` are the valid ones, oldest first. */
  datatype Buffer = Buffer(text: Text, records: seq<Record>)

  datatype Op = Insert(pos: nat, data: Text) | Delete(pos: nat, n: nat) | Undo

  /** A full ring gives up its oldest record. */
  function Push(records: seq<Record>, r: Record): seq<Record> {
    (if |records| >= UNDO_MAX then records[1..] else records) + [r]
  }

  function Revert(r: Record, t: Text): Text {
    match r
    case Inserted(pos, data) => Cut(t, pos, |data|)
    case Deleted(pos, data) => Paste(t, pos, data)
  }

  /** `vim_buf_insert` and `vim_buf_delete` with recording, and `vim_do_undo`. */
  function Apply(b: Buffer, op: Op): Buffer {
    match op
    case Insert(pos, data) =>
      if |b.text| + |data| > MAX_TEXT then b
      else Buffer(Paste(b.text, pos, data), Push(b.records, Inserted(Min(pos, |b.text|), data)))
    case Delete(pos, n) =>
      if pos > |b.text| || n == 0 then b
      else Buffer(Cut(b.text, pos, n), Push(b.records, Deleted(pos, Piece(b.text, pos, n))))
    case Undo =>
      if b.records == [] then b
      else
        var r := b.records[|b.records| - 1];
        if r.Deleted? && |b.text| + |r.data| > MAX_TEXT then b
        else Buffer(Revert(r, b.text), b.records[..|b.records| - 1])
  }

  /** What an edit makes of the text, and that an undo right after it restores text and records, up to one that the full ring gave up. */
  lemma EditAnswers(b: Buffer, op: Op)
    requires |b.text| <= MAX_TEXT && !op.Undo?
    ensures var b' := Apply(b, op);
            var refused := match op { case Insert(_, data) => |b.text| + |data| > MAX_TEXT case Delete(pos, n) => pos > |b.text| || n == 0 case Undo => true };
            && (refused ==> b' == b)
            && (!refused ==>
                  && b'.text == (match op { case Insert(pos, data) => Paste(b.text, pos, data) case Delete(pos, n) => Cut(b.text, pos, n) case Undo => [] })
                  && Apply(b', Undo) == Buffer(b.text, if |b.records| < UNDO_MAX then b.records else b.records[1..]))
  {
    match op {
      case Insert(pos, data) => CutUndoesPaste(b.text, pos, data);
      case Delete(pos, n) => if pos <= |b.text| { PasteUndoesCut(b.text, pos, n); }
      case Undo =>
    }
  }

  // ---- the history ----

  /**
   * `past` holds the text before each recorded edit that has not been undone, oldest first;
   * the first `lost` of them can no longer be reached.
   */
  datatype History = History(text: Text, past: seq<Text>, lost: nat)

  function Max(a: int, b: int): int {
    if a < b then b else a
  }

  /** An edit adds to the past; an undo goes back to its last text, if that is not lost. */
  function Follow(h: History, op: Op): (h': History)
    requires h.lost <= |h.past|
    ensures h'.lost <= |h'.past|
  {
    match op
    case Insert(pos, data) =>
      if |h.text| + |data| > MAX_TEXT then h
      else History(Paste(h.text, pos, data), h.past + [h.text], Max(h.lost, |h.past| + 1 - UNDO_MAX))
    case Delete(pos, n) =>
      if pos > |h.text| || n == 0 then h
      else History(Cut(h.text, pos, n), h.past + [h.text], Max(h.lost, |h.past| + 1 - UNDO_MAX))
    case Undo =>
      if |h.past| == h.lost then h else History(h.past[|h.past| - 1], h.past[..|h.past| - 1], h.lost)
  }

  /** The history forgets nothing: an edit that is not refused adds the text before it, an undo takes the last one back. */
  lemma FollowAnswers(h: History, op: Op)
    requires h.lost <= |h.past| && |h.text| <= MAX_TEXT
    ensures var h', b := Follow(h, op), Buffer(h.text, []);
            if op.Undo? then
              if h.lost < |h.past| then h'.past + [h'.text] == h.past && h'.lost == h.lost else h' == h
            else
              h'.text == Apply(b, op).text && h'.past == if Apply(b, op) == b then h.past else h.past + [h.text]
  {
    if !op.Undo? { EditAnswers(Buffer(h.text, []), op); }
  }

  /** The texts of the history, the present one last. */
  function TextAt(h: History, i: nat): Text
    requires i <= |h.past|
  {
    if i < |h.past| then h.past[i] else h.text
  }

  ghost predicate Restores(h: History, records: seq<Record>, i: nat)
    requires h.lost + i < |h.past| && i < |records|
  {
    && Revert(records[i], TextAt(h, h.lost + i + 1)) == TextAt(h, h.lost + i)
    && records[i].pos <= |TextAt(h, h.lost + i)| && records[i].pos <= |TextAt(h, h.lost + i + 1)|
  }

  /** Record by record, the ring leads from each text of the history to the one before it. */
  ghost predicate Records(b: Buffer, h: History) {
    && b.text == h.text && h.lost <= |h.past| && |b.records| == |h.past| - h.lost <= UNDO_MAX
    && |h.text| <= MAX_TEXT && (forall i | 0 <= i < |h.past| :: |h.past[i]| <= MAX_TEXT)
    && (forall i: nat {:trigger Restores(h, b.records, i)} | i < |b.records| :: Restores(h, b.records, i))
  }

  /** The same record between the same two texts. */
  lemma StillRestores(h: History, records: seq<Record>, i: nat, h': History, records': seq<Record>, j: nat)
    requires h.lost + i < |h.past| && i < |records| && Restores(h, records, i)
    requires h'.lost + j < |h'.past| && j < |records'| && records'[j] == records[i]
    requires TextAt(h', h'.lost + j) == TextAt(h, h.lost + i) && TextAt(h', h'.lost + j + 1) == TextAt(h, h.lost + i + 1)
    ensures Restores(h', records', j)
  {
  }

  lemma EditKeeps(b: Buffer, h: History, text: Text, r: Record)
    requires Records(b, h) && |text| <= MAX_TEXT && Revert(r, text) == b.text && r.pos <= |b.text| && r.pos <= |text|
    ensures Records(Buffer(text, Push(b.records, r)), History(text, h.past + [h.text], Max(h.lost, |h.past| + 1 - UNDO_MAX)))
  {
    var rs, h' := Push(b.records, r), History(text, h.past + [h.text], Max(h.lost, |h.past| + 1 - UNDO_MAX));
    EditRestores(b, h, h', rs, r, if |b.records| >= UNDO_MAX then 1 else 0);
  }

  lemma EditRestores(b: Buffer, h: History, h': History, rs: seq<Record>, r: Record, d: nat)
    requires h.lost <= |h.past| && |b.records| == |h.past| - h.lost && b.text == h.text && d <= |b.records|
    requires forall i: nat {:trigger Restores(h, b.records, i)} | i < |b.records| :: Restores(h, b.records, i)
    requires rs == b.records[d..] + [r] && h'.past == h.past + [h.text] && h'.lost == h.lost + d
    requires Revert(r, h'.text) == b.text && r.pos <= |b.text| && r.pos <= |h'.text|
    ensures forall i: nat {:trigger Restores(h', rs, i)} | i < |rs| :: Restores(h', rs, i)
  {
    forall i: nat | i < |rs|
      ensures Restores(h', rs, i)
    {
      if i < |rs| - 1 { OldRestores(h, b.records, h', rs, r, d, i); } else { NewRestores(h', rs, r, b.text); }
    }
  }

  lemma OldRestores(h: History, records: seq<Record>, h': History, rs: seq<Record>, r: Record, d: nat, i: nat)
    requires h.lost <= |h.past| && |records| == |h.past| - h.lost && i + d < |records| && Restores(h, records, i + d)
    requires rs == records[d..] + [r] && h'.past == h.past + [h.text] && h'.lost == h.lost + d
    ensures Restores(h', rs, i)
  {
    assert rs[i] == records[i + d];
    SameTexts(h, h', h.lost + i + d);
    StillRestores(h, records, i + d, h', rs, i);
  }

  /** The texts of a history that has grown by one. */
  lemma SameTexts(h: History, h': History, j: nat)
    requires h'.past == h.past + [h.text] && j < |h.past|
    ensures TextAt(h', j) == TextAt(h, j) && TextAt(h', j + 1) == TextAt(h, j + 1)
  {
  }

  lemma NewRestores(h: History, rs: seq<Record>, r: Record, t: Text)
    requires rs != [] && rs[|rs| - 1] == r && h.past != [] && h.past[|h.past| - 1] == t && h.lost + |rs| == |h.past|
    requires Revert(r, h.text) == t && r.pos <= |t| && r.pos <= |h.text|
    ensures Restores(h, rs, |rs| - 1)
  {
  }

  lemma UndoKeeps(b: Buffer, h: History)
    requires Records(b, h) && b.records != []
    ensures Records(Apply(b, Undo), Follow(h, Undo))
    ensures var n := |b.records| - 1; Apply(b, Undo) == Buffer(Revert(b.records[n], b.text), b.records[..n])
  {
    var n := |b.records| - 1;
    LastRestores(b, h);
    var rs, h' := b.records[..n], Follow(h, Undo);
    assert Apply(b, Undo) == Buffer(h'.text, rs);
    forall i: nat | i < n
      ensures Restores(h', rs, i)
    {
      assert Restores(h, b.records, i);
      StillRestores(h, b.records, i, h', rs, i);
    }
  }

  lemma LastRestores(b: Buffer, h: History)
    requires Records(b, h) && b.records != []
    ensures var r := b.records[|b.records| - 1];
            && Revert(r, b.text) == h.past[|h.past| - 1] && (r.Deleted? ==> |b.text| + |r.data| <= MAX_TEXT)
            && r.pos <= |b.text| && r.pos <= |h.past[|h.past| - 1]|
  {
    assert Restores(h, b.records, |b.records| - 1);
  }

  /** The ring of 64 records and the history stay together through every edit and every undo. */
  lemma ApplyKeeps(b: Buffer, h: History, op: Op)
    requires Records(b, h)
    ensures Records(Apply(b, op), Follow(h, op))
  {
    match op {
      case Insert(pos, data) => InsertKeeps(b, h, pos, data);
      case Delete(pos, n) => DeleteKeeps(b, h, pos, n);
      case Undo => if b.records != [] { UndoKeeps(b, h); }
    }
  }

  lemma InsertKeeps(b: Buffer, h: History, pos: nat, data: Text)
    requires Records(b, h)
    ensures Records(Apply(b, Insert(pos, data)), Follow(h, Insert(pos, data)))
  {
    if |b.text| + |data| <= MAX_TEXT {
      CutUndoesPaste(b.text, pos, data);
      EditKeeps(b, h, Paste(b.text, pos, data), Inserted(Min(pos, |b.text|), data));
    }
  }

  lemma DeleteKeeps(b: Buffer, h: History, pos: nat, n: nat)
    requires Records(b, h)
    ensures Records(Apply(b, Delete(pos, n)), Follow(h, Delete(pos, n)))
  {
    if pos <= |b.text| && n != 0 {
      PasteUndoesCut(b.text, pos, n);
      EditKeeps(b, h, Cut(b.text, pos, n), Deleted(pos, Piece(b.text, pos, n)));
    }
  }

  // ---- runs ----

  function ApplyAll(b: Buffer, ops: seq<Op>): Buffer
    decreases |ops|
  {
    if ops == [] then b else ApplyAll(Apply(b, ops[0]), ops[1..])
  }

  function FollowAll(h: History, ops: seq<Op>): (h': History)
    requires h.lost <= |h.past|
    ensures h'.lost <= |h'.past|
    decreases |ops|
  {
    if ops == [] then h else FollowAll(Follow(h, ops[0]), ops[1..])
  }

  function Undos(k: nat): (ops: seq<Op>)
    ensures |ops| == k && forall i | 0 <= i < k :: ops[i] == Undo
  {
    seq(k, _ => Undo)
  }

  lemma {:induction false} RunKeeps(b: Buffer, h: History, ops: seq<Op>)
    requires Records(b, h)
    ensures Records(ApplyAll(b, ops), FollowAll(h, ops))
    decreases |ops|
  {
    if ops != [] {
      ApplyKeeps(b, h, ops[0]);
      RunKeeps(Apply(b, ops[0]), Follow(h, ops[0]), ops[1..]);
    }
  }

  lemma {:induction false} UndosGoBack(b: Buffer, h: History, k: nat)
    requires Records(b, h) && k <= |h.past| - h.lost
    ensures ApplyAll(b, Undos(k)).text == TextAt(h, |h.past| - k)
    decreases k
  {
    if k > 0 {
      UndoKeeps(b, h);
      var b', h' := Apply(b, Undo), Follow(h, Undo);
      assert Undos(k)[0] == Undo && Undos(k)[1..] == Undos(k - 1);
      assert ApplyAll(b, Undos(k)) == ApplyAll(b', Undos(k - 1));
      UndosGoBack(b', h', k - 1);
      assert TextAt(h', |h'.past| - (k - 1)) == TextAt(h, |h.past| - k);
    }
  }

  /** After any edits and undos on a new text, k undos restore the text of k recorded edits ago, unless that has been lost. */
  lemma {:induction false} UndoTheorem(text: Text, ops: seq<Op>, k: nat)
    requires |text| <= MAX_TEXT
    ensures var b, h := ApplyAll(Buffer(text, []), ops), FollowAll(History(text, [], 0), ops);
            && b.text == h.text && |b.records| == |h.past| - h.lost
            && (k <= |b.records| ==> ApplyAll(b, Undos(k)).text == TextAt(h, |h.past| - k))
            && (b.records == [] ==> Apply(b, Undo) == b)
  {
    RunKeeps(Buffer(text, []), History(text, [], 0), ops);
    UndosReach(ApplyAll(Buffer(text, []), ops), FollowAll(History(text, [], 0), ops), k);
  }

  lemma {:induction false} UndosReach(b: Buffer, h: History, k: nat)
    requires Records(b, h)
    ensures b.text == h.text && |b.records| == |h.past| - h.lost
    ensures k <= |b.records| ==> ApplyAll(b, Undos(k)).text == TextAt(h, |h.past| - k)
    ensures b.records == [] ==> Apply(b, Undo) == b
  {
    if k <= |b.records| { UndosGoBack(b, h, k); }
  }

  /** The recorded edits not undone never outnumber the lost ones by more than 64, and none is lost while they are 64 at most. */
  lemma {:induction false} LostOnlyPast64(h: History, ops: seq<Op>)
    requires h.lost <= |h.past| <= h.lost + UNDO_MAX
    ensures var h' := FollowAll(h, ops);
            && |h'.past| <= h'.lost + UNDO_MAX && h'.lost >= h.lost
            && ((forall i | 0 <= i <= |ops| :: |FollowAll(h, ops[..i]).past| <= UNDO_MAX) && h.lost == 0 ==> h'.lost == 0)
    decreases |ops|
  {
    if ops != [] {
      var h1 := Follow(h, ops[0]);
      LostOnlyPast64(h1, ops[1..]);
      if (forall i | 0 <= i <= |ops| :: |FollowAll(h, ops[..i]).past| <= UNDO_MAX) && h.lost == 0 {
        assert ops[..1] == [ops[0]] && FollowAll(h, ops[..1]).past == h1.past;
        forall i | 0 <= i <= |ops[1..]|
          ensures |FollowAll(h1, ops[1..][..i]).past| <= UNDO_MAX
        {
          assert ops[..i + 1][1..] == ops[1..][..i] && ops[..i + 1][0] == ops[0];
          assert FollowAll(h, ops[..i + 1]) == FollowAll(h1, ops[1..][..i]);
        }
      }
    }
  }

  /** After some part of `ops`, more than `n` records have not been undone. */
  ghost predicate Exceeds(h: History, ops: seq<Op>, n: nat)
    requires h.lost <= |h.past|
  {
    exists i :: 0 <= i <= |ops| && |FollowAll(h, ops[..i]).past| > n
  }

  /** More than `n` texts are lost iff at some moment more than `n` + 64 records had not been undone. */
  lemma {:induction false} LostIff(h: History, ops: seq<Op>, n: nat)
    requires h.lost <= n && h.lost <= |h.past| <= n + UNDO_MAX
    ensures FollowAll(h, ops).lost > n <==> Exceeds(h, ops, n + UNDO_MAX)
    decreases |ops|
  {
    if ops == [] {
      assert forall i | 0 <= i <= 0 :: ops[..i] == [];
    } else {
      var h1 := Follow(h, ops[0]);
      ExceedsTail(h, ops, n + UNDO_MAX);
      if h1.lost <= n {
        LostIff(h1, ops[1..], n);
      } else {
        LostGrows(h1, ops[1..]);
        assert FollowAll(h1, ops[1..][..0]) == h1;
      }
    }
  }

  lemma {:induction false} LostGrows(h: History, ops: seq<Op>)
    requires h.lost <= |h.past|
    ensures FollowAll(h, ops).lost >= h.lost
    decreases |ops|
  {
    if ops != [] { LostGrows(Follow(h, ops[0]), ops[1..]); }
  }

  lemma ExceedsTail(h: History, ops: seq<Op>, n: nat)
    requires h.lost <= |h.past| <= n && ops != []
    ensures Exceeds(h, ops, n) <==> Exceeds(Follow(h, ops[0]), ops[1..], n)
  {
    var h1 := Follow(h, ops[0]);
    forall i | 0 <= i <= |ops[1..]|
      ensures FollowAll(h, ops[..i + 1]) == FollowAll(h1, ops[1..][..i])
    {
      assert ops[..i + 1][1..] == ops[1..][..i] && ops[..i + 1][0] == ops[0];
    }
    if i :| 0 <= i <= |ops| && |FollowAll(h, ops[..i]).past| > n {
      assert i > 0 && FollowAll(h, ops[..i - 1 + 1]) == FollowAll(h1, ops[1..][..i - 1]);
    }
  }
}
