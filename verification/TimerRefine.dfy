/**
 * The wheel of TimerSpec is a countdown per timer: what a tick keeps, and exactly when it
 * loses a timer.
 */
module TimerRefine {
  import opened TimerSpec

  // ---- lists ----

  lemma {:induction false} Dropped(l: seq<Entry>, t: Tid)
    requires OnePerTimer(l)
    ensures OnePerTimer(Drop(l, t))
    ensures forall e: Entry :: e in Drop(l, t) <==> e in l && e.timer != t
  {
    if l != [] {
      assert l == [l[0]] + l[1..];
      Dropped(l[1..], t);
      if l[0].timer != t {
        assert Drop(l, t) == [l[0]] + Drop(l[1..], t);
        assert forall e: Entry :: e in Drop(l, t) <==> e == l[0] || e in Drop(l[1..], t);
      } else {
        assert forall e: Entry :: e in l <==> e == l[0] || e in l[1..];
      }
    }
  }

  lemma HasEntry(l: seq<Entry>, t: Tid)
    ensures Has(l, t) <==> exists e: Entry :: e in l && e.timer == t
  {
    if e: Entry :| e in l && e.timer == t {
      var i :| 0 <= i < |l| && l[i] == e;
    }
    if Has(l, t) {
      var i :| 0 <= i < |l| && l[i].timer == t;
      assert l[i] in l;
    }
  }

  /** A timer that no entry of the list belongs to can be put in front. */
  lemma PutInFront(l: seq<Entry>, e: Entry)
    requires OnePerTimer(l) && forall x: Entry | x in l :: x.timer != e.timer
    ensures OnePerTimer([e] + l) && forall x: Entry :: x in [e] + l <==> x == e || x in l
  {
    forall i, j | 0 <= i < j < |[e] + l|
      ensures ([e] + l)[i].timer != ([e] + l)[j].timer
    {
      assert ([e] + l)[j] == l[j - 1] && l[j - 1] in l;
    }
  }

  lemma PutAtEnd(l: seq<Entry>, e: Entry)
    requires OnePerTimer(l) && forall x: Entry | x in l :: x.timer != e.timer
    ensures OnePerTimer(l + [e]) && forall x: Entry :: x in l + [e] <==> x == e || x in l
  {
    forall i, j | 0 <= i < j < |l + [e]|
      ensures (l + [e])[i].timer != (l + [e])[j].timer
    {
      assert (l + [e])[i] == l[i] && l[i] in l;
    }
  }

  // ---- arithmetic of the wheel ----

  /** A new entry sits where its delay says. */
  lemma NewSits(left: map<Tid, nat>, cursor: nat, t: Tid, ticks: nat)
    requires t in left && left[t] == Delay(ticks)
    ensures var n := if ticks == 0 then 1 else ticks;
            forall e: Entry, k: nat | e.timer == t :: Sits(left, cursor, k, e) <==> k == SlotOf(cursor, n) && e == NewEntry(t, n)
  {
    var n := if ticks == 0 then 1 else ticks;
    DelayParts(cursor, n - 1, Delay(ticks) - 1);
  }

  /** The rounds and the slot of a delay do not change when whole turns of the rounds counter are left out. */
  lemma DelayParts(cursor: nat, a: nat, b: nat)
    requires b == a % (SLOTS * ROUNDS)
    ensures a / SLOTS % ROUNDS == b / SLOTS
    ensures SlotOf(cursor, a + 1) == SlotOf(cursor, b + 1)
  {
    var m := a / (SLOTS * ROUNDS);
    assert a == SLOTS * (ROUNDS * m) + b;
    assert a / SLOTS == ROUNDS * m + b / SLOTS;
    assert cursor + a + 1 == SLOTS * (ROUNDS * m) + (cursor + b + 1);
  }

  /** One tick nearer: outside the slot the cursor moves to, nothing changes place; inside it, `rounds` says how many turns remain. */
  lemma OneNearer(cursor: nat, left: nat, k: nat, rounds: nat)
    requires cursor < SLOTS && left > 0 && k < SLOTS
    ensures var c := (cursor + 1) % SLOTS;
            && (k != c ==>
                  ((k == SlotOf(cursor, left) && rounds == (left - 1) / SLOTS)
                   <==> (left > 1 && k == SlotOf(c, left - 1) && rounds == (left - 2) / SLOTS)))
            && (k == SlotOf(cursor, left) && k == c && rounds == (left - 1) / SLOTS ==> left - 1 == SLOTS * rounds)
            && (left - 1 == SLOTS * rounds ==> c == SlotOf(cursor, left) && rounds == (left - 1) / SLOTS)
            && (left == 1 ==> SlotOf(cursor, left) == c)
  {
  }

  // ---- the scan ----

  /**
   * In the middle of a tick: `cur` holds the countdowns already brought up to date, all of
   * them sitting where they belong; the others are those of `rest`.
   */
  ghost predicate ScanOk(x: Scan, cur: map<Tid, nat>) {
    var s, c := x.s, x.s.cursor;
    && |s.slots| == SLOTS && c < SLOTS && s.used == |cur| + |x.rest| <= MAX_TIMER && |s.timers| <= MAX_TIMER
    && (forall t | t in cur :: cur[t] > 0)
    && (forall k: nat {:trigger Holds(cur, c, k, s.slots[k])} | k < SLOTS && k != c :: Holds(cur, c, k, s.slots[k]))
    && Holds(cur, c, c, x.front + x.kept)
    && OnePerTimer(x.rest)
    && (forall e: Entry | e in x.rest :: e.timer !in cur)
    && (forall t :: Active(s.timers, t) <==> t in cur || Has(x.rest, t))
  }

  /** The countdowns after one turn of the loop. */
  ghost function StepLeft(x: Scan, cur: map<Tid, nat>): map<Tid, nat>
    requires x.rest != []
  {
    var e := x.rest[0];
    if e.rounds > 0 then cur[e.timer := SLOTS * e.rounds]
    else if Active(x.s.timers, e.timer) && x.s.timers[e.timer].periodic then cur[e.timer := Delay(x.s.timers[e.timer].period)]
    else cur
  }

  /** This turn of the loop loses a timer. */
  predicate Loses(x: Scan) {
    && x.rest != [] && x.rest[0].rounds == 0
    && ((x.kept == [] && x.front != [])
        || (x.s.used >= MAX_TIMER && x.rest[0].timer in x.s.timers && x.s.timers[x.rest[0].timer].active
            && x.s.timers[x.rest[0].timer].periodic))
  }

  lemma RestSplit(x: Scan, cur: map<Tid, nat>)
    requires ScanOk(x, cur) && x.rest != []
    ensures var e := x.rest[0];
            && e.timer !in cur && Active(x.s.timers, e.timer) && OnePerTimer(x.rest[1..]) && !Has(x.rest[1..], e.timer)
            && (forall t :: Has(x.rest, t) <==> t == e.timer || Has(x.rest[1..], t))
            && (forall f: Entry | f in x.rest[1..] :: f.timer !in cur && f.timer != e.timer)
  {
    var e := x.rest[0];
    assert x.rest == [e] + x.rest[1..] && e in x.rest;
    assert Has(x.rest, e.timer);
    forall t
      ensures Has(x.rest, t) <==> t == e.timer || Has(x.rest[1..], t)
    {
      if i :| 0 <= i < |x.rest[1..]| && x.rest[1..][i].timer == t { assert x.rest[i + 1].timer == t; }
      if i :| 0 <= i < |x.rest| && x.rest[i].timer == t { assert i > 0 ==> x.rest[1..][i - 1].timer == t; }
    }
  }

  /** A timer that joins the countdowns changes no other entry's place. */
  lemma OthersSit(cur: map<Tid, nat>, t: Tid, d: nat, c: nat, k: nat, l: seq<Entry>)
    requires Holds(cur, c, k, l) && t !in cur
    ensures OnePerTimer(l) && (forall e: Entry | e in l :: e.timer != t)
    ensures forall e: Entry | e.timer != t :: e in l <==> Sits(cur[t := d], c, k, e)
  {
  }

  lemma Survives(x: Scan, cur: map<Tid, nat>)
    requires ScanOk(x, cur) && x.rest != [] && x.rest[0].rounds > 0
    ensures ScanOk(Visit(x), StepLeft(x, cur))
  {
    var e, c := x.rest[0], x.s.cursor;
    var cur' := StepLeft(x, cur);
    RestSplit(x, cur);
    var e' := Entry(e.timer, e.rounds - 1);
    assert forall f: Entry, k: nat | f.timer == e.timer && k < SLOTS :: Sits(cur', c, k, f) <==> k == c && f == e';
    forall k: nat | k < SLOTS && k != c
      ensures Holds(cur', c, k, x.s.slots[k])
    {
      assert Holds(cur, c, k, x.s.slots[k]);
      OthersSit(cur, e.timer, cur'[e.timer], c, k, x.s.slots[k]);
    }
    OthersSit(cur, e.timer, cur'[e.timer], c, c, x.front + x.kept);
    PutAtEnd(x.front + x.kept, e');
    assert x.front + (x.kept + [e']) == x.front + x.kept + [e'];
  }

  lemma Ends(x: Scan, cur: map<Tid, nat>)
    requires ScanOk(x, cur) && x.rest != [] && x.rest[0].rounds == 0 && !Loses(x)
    requires !x.s.timers[x.rest[0].timer].periodic
    ensures ScanOk(Visit(x), StepLeft(x, cur))
  {
    RestSplit(x, cur);
    assert Unlink(x).front + x.kept == x.front + x.kept;
  }

  /** The slots after a timer without an entry has been given one. */
  lemma JoinsSlot(cur: map<Tid, nat>, t: Tid, ticks: nat, c: nat, k: nat, l: seq<Entry>)
    requires Holds(cur, c, k, l) && t !in cur
    ensures var n := if ticks == 0 then 1 else ticks;
            Holds(cur[t := Delay(ticks)], c, k, if k == SlotOf(c, n) then [NewEntry(t, n)] + l else l)
  {
    var n := if ticks == 0 then 1 else ticks;
    var cur' := cur[t := Delay(ticks)];
    OthersSit(cur, t, Delay(ticks), c, k, l);
    NewSits(cur', c, t, ticks);
    PutInFront(l, NewEntry(t, n));
  }

  lemma StartsAgain(x: Scan, cur: map<Tid, nat>)
    requires ScanOk(x, cur) && x.rest != [] && x.rest[0].rounds == 0 && !Loses(x)
    requires x.rest[0].timer in x.s.timers && x.s.timers[x.rest[0].timer].periodic
    ensures ScanOk(Visit(x), StepLeft(x, cur))
  {
    RestSplit(x, cur);
    assert Unlink(x).front == x.front;
    var t := x.rest[0].timer;
    StartsAgainSlots(x, cur, t, x.s.timers[t].period, Visit(x));
  }

  /** The slots after timer `t` has got its new entry. */
  lemma StartsAgainSlots(x: Scan, cur: map<Tid, nat>, t: Tid, p: nat, y: Scan)
    requires |x.s.slots| == |y.s.slots| == SLOTS && x.s.cursor == y.s.cursor < SLOTS && t !in cur && y.kept == x.kept
    requires forall k: nat {:trigger Holds(cur, x.s.cursor, k, x.s.slots[k])} | k < SLOTS && k != x.s.cursor :: Holds(cur, x.s.cursor, k, x.s.slots[k])
    requires Holds(cur, x.s.cursor, x.s.cursor, x.front + x.kept)
    requires var n := if p == 0 then 1 else p;
             var k := SlotOf(x.s.cursor, n);
             if k == x.s.cursor then y.s.slots == x.s.slots && y.front == [NewEntry(t, n)] + x.front
             else y.s.slots == x.s.slots[k := [NewEntry(t, n)] + x.s.slots[k]] && y.front == x.front
    ensures var c, cur' := x.s.cursor, cur[t := Delay(p)];
            && (forall k: nat {:trigger Holds(cur', c, k, y.s.slots[k])} | k < SLOTS && k != c :: Holds(cur', c, k, y.s.slots[k]))
            && Holds(cur', c, c, y.front + y.kept)
  {
    var c := x.s.cursor;
    var n := if p == 0 then 1 else p;
    var cur' := cur[t := Delay(p)];
    forall k: nat | k < SLOTS && k != c
      ensures Holds(cur', c, k, y.s.slots[k])
    {
      assert Holds(cur, c, k, x.s.slots[k]);
      JoinsSlot(cur, t, p, c, k, x.s.slots[k]);
    }
    JoinsSlot(cur, t, p, c, c, x.front + x.kept);
    assert [NewEntry(t, n)] + x.front + x.kept == [NewEntry(t, n)] + (x.front + x.kept);
  }

  lemma StepOk(x: Scan, cur: map<Tid, nat>)
    requires ScanOk(x, cur) && x.rest != [] && !Loses(x)
    ensures ScanOk(Visit(x), StepLeft(x, cur))
  {
    RestSplit(x, cur);
    if x.rest[0].rounds > 0 {
      Survives(x, cur);
    } else if x.s.timers[x.rest[0].timer].periodic {
      StartsAgain(x, cur);
    } else {
      Ends(x, cur);
    }
  }

  // ---- a whole tick ----

  /** `cur` are the countdowns of `left` after this tick, those of `rest` excepted. */
  ghost predicate PartlyDown(timers: map<Tid, Timer>, left: map<Tid, nat>, rest: seq<Entry>, cur: map<Tid, nat>) {
    && (forall t: Tid :: DownAt(timers, left, rest, cur, t))
    && (forall e: Entry | e in rest :: e.timer in left && left[e.timer] == SLOTS * e.rounds + 1)
  }

  ghost predicate DownAt(timers: map<Tid, Timer>, left: map<Tid, nat>, rest: seq<Entry>, cur: map<Tid, nat>, t: Tid) {
    && (t in cur <==> t in left && !Has(rest, t) && t in timers && (left[t] > 1 || timers[t].periodic))
    && (t in cur ==> cur[t] == if left[t] > 1 then left[t] - 1 else Delay(timers[t].period))
  }

  /** Expiry of one-shot timers apart, a turn of the loop leaves the timers alone. */
  ghost predicate SameTimers(timers: map<Tid, Timer>, timers': map<Tid, Timer>) {
    && timers.Keys == timers'.Keys
    && forall t | t in timers :: t in timers' && timers'[t] == timers[t].(active := timers'[t].active)
  }

  lemma StepSameTimers(x: Scan, timers: map<Tid, Timer>)
    requires x.rest != [] && |x.s.slots| == SLOTS && SameTimers(timers, x.s.timers)
    ensures SameTimers(timers, Visit(x).s.timers)
  {
  }

  lemma StepDown(x: Scan, cur: map<Tid, nat>, timers: map<Tid, Timer>, left: map<Tid, nat>)
    requires ScanOk(x, cur) && x.rest != [] && SameTimers(timers, x.s.timers) && PartlyDown(timers, left, x.rest, cur)
    ensures PartlyDown(timers, left, Visit(x).rest, StepLeft(x, cur))
  {
    RestSplit(x, cur);
    var e, cur' := x.rest[0], StepLeft(x, cur);
    assert e in x.rest;
    assert x.s.timers[e.timer].periodic == timers[e.timer].periodic && x.s.timers[e.timer].period == timers[e.timer].period;
    assert left[e.timer] == SLOTS * e.rounds + 1;
    forall t: Tid
      ensures DownAt(timers, left, x.rest[1..], cur', t)
    {
      if t != e.timer {
        assert DownAt(timers, left, x.rest, cur, t);
        assert Has(x.rest, t) <==> Has(x.rest[1..], t);
      }
    }
    forall f: Entry | f in x.rest[1..]
      ensures f in x.rest
    {
    }
  }

  /** No turn from here on loses a timer. */
  ghost predicate Calm(x: Scan) {
    && (x.s.used < MAX_TIMER || !FirstIsPeriodic(x.s.timers, x.rest))
    && (x.kept == [] ==> !(x.front != [] && x.rest != [] && x.rest[0].rounds == 0) && !Clobbers(x.s.timers, x.rest))
  }

  lemma CalmStep(x: Scan, cur: map<Tid, nat>)
    requires ScanOk(x, cur) && x.rest != [] && Calm(x)
    ensures !Loses(x) && Calm(Visit(x))
  {
    CalmFirst(x);
    if x.rest[0].rounds > 0 {
      CalmSurvivor(x);
    } else {
      RoomAfterExpiry(x, cur);
      if x.kept == [] { CalmExpiry(x, cur); }
    }
  }

  lemma FirstIsPeriodicTail(timers: map<Tid, Timer>, l: seq<Entry>)
    requires l != [] && l[0].rounds > 0
    ensures FirstIsPeriodic(timers, l) <==> FirstIsPeriodic(timers, l[1..])
  {
    if i :| 0 <= i < |l[1..]| && PeriodicAt(timers, l[1..], i) {
      assert forall j | 1 <= j < i + 1 :: l[j] == l[1..][j - 1];
      assert PeriodicAt(timers, l, i + 1);
    }
    if i :| 0 <= i < |l| && PeriodicAt(timers, l, i) {
      assert PeriodicAt(timers, l[1..], i - 1);
    }
  }

  lemma ClobbersTail(timers: map<Tid, Timer>, l: seq<Entry>)
    requires l != [] && l[0].rounds == 0
    ensures Clobbers(timers, l) <==> (|l| > 1 && BackInSlot(timers, l[0]) && l[1].rounds == 0) || Clobbers(timers, l[1..])
  {
    if |l| > 1 && BackInSlot(timers, l[0]) && l[1].rounds == 0 {
      assert ClobberedAt(timers, l, 0);
    }
    if i :| 0 <= i < |l[1..]| && ClobberedAt(timers, l[1..], i) {
      assert forall j | 1 <= j <= i + 2 :: l[j] == l[1..][j - 1];
      assert ClobberedAt(timers, l, i + 1);
    }
    if i :| 0 <= i < |l| && ClobberedAt(timers, l, i) {
      if i > 0 { assert ClobberedAt(timers, l[1..], i - 1); } else { assert l[1].rounds == 0; }
    }
  }

  lemma ClobbersSame(timers: map<Tid, Timer>, timers': map<Tid, Timer>, l: seq<Entry>)
    requires forall e: Entry | e in l :: BackInSlot(timers, e) <==> BackInSlot(timers', e)
    ensures Clobbers(timers, l) <==> Clobbers(timers', l)
  {
    if i :| 0 <= i < |l| && ClobberedAt(timers, l, i) { assert l[i] in l && ClobberedAt(timers', l, i); }
    if i :| 0 <= i < |l| && ClobberedAt(timers', l, i) { assert l[i] in l && ClobberedAt(timers, l, i); }
  }

  lemma CalmSurvivor(x: Scan)
    requires |x.s.slots| == SLOTS && x.rest != [] && Calm(x) && x.rest[0].rounds > 0
    ensures Calm(Visit(x))
  {
    FirstIsPeriodicTail(x.s.timers, x.rest);
  }

  lemma RoomAfterExpiry(x: Scan, cur: map<Tid, nat>)
    requires ScanOk(x, cur) && x.rest != [] && !Loses(x) && x.rest[0].rounds == 0
    ensures Visit(x).s.used < MAX_TIMER
  {
    RestSplit(x, cur);
  }

  /** An expiring entry at the head of the slot: what remains of the list, and whether something is now in front. */
  lemma HeadExpires(x: Scan, cur: map<Tid, nat>)
    requires ScanOk(x, cur) && x.rest != [] && !Loses(x) && x.rest[0].rounds == 0 && x.kept == []
    ensures var y := Visit(x);
            && y.rest == x.rest[1..] && y.kept == []
            && (y.front != [] <==> BackInSlot(x.s.timers, x.rest[0]))
            && (Clobbers(y.s.timers, y.rest) <==> Clobbers(x.s.timers, x.rest[1..]))
  {
    RestSplit(x, cur);
    ComesBack(x.s.cursor, x.s.timers[x.rest[0].timer].period);
    OthersBackInSlot(x);
    ClobbersSame(x.s.timers, Visit(x).s.timers, x.rest[1..]);
  }

  /** Whole turns of the wheel lead back to the same slot. */
  lemma ComesBack(c: nat, n: nat)
    requires c < SLOTS
    ensures SlotOf(c, n) == c <==> n % SLOTS == 0
  {
  }

  lemma OthersBackInSlot(x: Scan)
    requires x.rest != [] && |x.s.slots| == SLOTS && x.rest[0].rounds == 0
    requires forall f: Entry | f in x.rest[1..] :: f.timer != x.rest[0].timer
    ensures forall f: Entry | f in x.rest[1..] :: BackInSlot(x.s.timers, f) <==> BackInSlot(Visit(x).s.timers, f)
  {
  }

  lemma CalmExpiry(x: Scan, cur: map<Tid, nat>)
    requires ScanOk(x, cur) && x.rest != [] && Calm(x) && x.rest[0].rounds == 0 && x.kept == []
    ensures var y := Visit(x); !(y.front != [] && y.rest != [] && y.rest[0].rounds == 0) && !Clobbers(y.s.timers, y.rest)
  {
    CalmFirst(x);
    HeadExpires(x, cur);
    ClobbersTail(x.s.timers, x.rest);
  }

  lemma CalmFirst(x: Scan)
    requires Calm(x) && x.rest != []
    ensures !Loses(x)
  {
    if x.rest[0].rounds == 0 { PeriodicHead(x.s.timers, x.rest); }
  }

  lemma PeriodicHead(timers: map<Tid, Timer>, l: seq<Entry>)
    requires l != [] && l[0].rounds == 0
    ensures l[0].timer in timers && timers[l[0].timer].active && timers[l[0].timer].periodic ==> FirstIsPeriodic(timers, l)
  {
    if l[0].timer in timers && timers[l[0].timer].active && timers[l[0].timer].periodic { assert PeriodicAt(timers, l, 0); }
  }

  /** In the middle of a tick that began with the countdowns `left`. */
  ghost predicate MidTick(x: Scan, cur: map<Tid, nat>, timers: map<Tid, Timer>, left: map<Tid, nat>) {
    && ScanOk(x, cur) && SameTimers(timers, x.s.timers)
    && PartlyDown(timers, left, x.rest, cur)
  }

  lemma MidTickStep(x: Scan, cur: map<Tid, nat>, timers: map<Tid, Timer>, left: map<Tid, nat>)
    requires MidTick(x, cur, timers, left) && x.rest != [] && !Loses(x)
    ensures MidTick(Visit(x), StepLeft(x, cur), timers, left)
  {
    StepOk(x, cur);
    StepSameTimers(x, timers);
    StepDown(x, cur, timers, left);
  }

  lemma CalmMidTick(x: Scan, cur: map<Tid, nat>, timers: map<Tid, Timer>, left: map<Tid, nat>)
    requires MidTick(x, cur, timers, left) && x.rest != [] && Calm(x)
    ensures MidTick(Visit(x), StepLeft(x, cur), timers, left) && Calm(Visit(x))
  {
    CalmStep(x, cur);
    MidTickStep(x, cur, timers, left);
  }

  lemma {:induction false} CalmScan(x: Scan, cur: map<Tid, nat>, timers: map<Tid, Timer>, left: map<Tid, nat>) returns (cur': map<Tid, nat>)
    requires MidTick(x, cur, timers, left) && Calm(x)
    ensures MidTick(VisitAll(x), cur', timers, left)
    decreases |x.rest|
  {
    if x.rest == [] {
      cur' := cur;
    } else {
      var y := Visit(x);
      assert VisitAll(x) == VisitAll(y) && |y.rest| < |x.rest|;
      CalmMidTick(x, cur, timers, left);
      cur' := CalmScan(y, StepLeft(x, cur), timers, left);
    }
  }

  // ---- when a timer is lost ----

  /** An active timer without an entry anywhere. */
  ghost predicate Lost(x: Scan, t: Tid) {
    && Active(x.s.timers, t) && |x.s.slots| == SLOTS && x.s.cursor < SLOTS
    && (forall k | 0 <= k < SLOTS && k != x.s.cursor :: !Has(x.s.slots[k], t))
    && !Has(x.front, t) && !Has(x.kept, t) && !Has(x.rest, t)
  }

  lemma HasAppend(a: seq<Entry>, b: seq<Entry>, t: Tid)
    ensures Has(a + b, t) <==> Has(a, t) || Has(b, t)
  {
    if i :| 0 <= i < |a| && a[i].timer == t { assert (a + b)[i].timer == t; }
    if i :| 0 <= i < |b| && b[i].timer == t { assert (a + b)[|a| + i].timer == t; }
  }

  lemma LostStays(x: Scan, t: Tid)
    requires Lost(x, t) && x.rest != []
    ensures Lost(Visit(x), t)
  {
    var e := x.rest[0];
    assert x.rest == [e] + x.rest[1..];
    HasAppend([e], x.rest[1..], t);
    HasOne(e, t);
    HasAppend(x.kept, [Entry(e.timer, e.rounds - if e.rounds > 0 then 1 else 0)], t);
    HasOne(Entry(e.timer, e.rounds - if e.rounds > 0 then 1 else 0), t);
    if e.rounds == 0 && Active(x.s.timers, e.timer) && x.s.timers[e.timer].periodic {
      var p := x.s.timers[e.timer].period;
      var n := if p == 0 then 1 else p;
      var f, k := NewEntry(e.timer, n), SlotOf(x.s.cursor, n);
      HasAppend([f], x.s.slots[k], t);
      HasAppend([f], Unlink(x).front, t);
      HasOne(f, t);
    }
  }

  lemma HasOne(e: Entry, t: Tid)
    ensures Has([e], t) <==> e.timer == t
  {
    assert [e][0] == e;
  }

  lemma {:induction false} LostForGood(x: Scan, t: Tid)
    requires Lost(x, t)
    ensures Lost(VisitAll(x), t)
    decreases |x.rest|
  {
    if x.rest != [] {
      LostStays(x, t);
      LostForGood(Visit(x), t);
    }
  }

  /** A turn that loses a timer: the one being put back, or one put back before. */
  lemma LosesOne(x: Scan, cur: map<Tid, nat>) returns (t: Tid)
    requires ScanOk(x, cur) && Loses(x)
    ensures Lost(Visit(x), t)
  {
    RestSplit(x, cur);
    var e := x.rest[0];
    if x.s.used >= MAX_TIMER && x.s.timers[e.timer].periodic {
      t := e.timer;
      NowhereElse(x, cur, t);
    } else {
      var f := x.front[0];
      t := f.timer;
      CutOff(x, cur);
    }
  }

  lemma NowhereElse(x: Scan, cur: map<Tid, nat>, t: Tid)
    requires ScanOk(x, cur) && t !in cur
    ensures forall k | 0 <= k < SLOTS && k != x.s.cursor :: !Has(x.s.slots[k], t)
    ensures !Has(x.front, t) && !Has(x.kept, t)
  {
    forall k | 0 <= k < SLOTS && k != x.s.cursor
      ensures !Has(x.s.slots[k], t)
    {
      assert Holds(cur, x.s.cursor, k, x.s.slots[k]);
      HasEntry(x.s.slots[k], t);
    }
    HasEntry(x.front + x.kept, t);
    HasAppend(x.front, x.kept, t);
  }

  /** The first entry in front is the only one of its timer, so it is gone when the slot's head is overwritten. */
  lemma CutOff(x: Scan, cur: map<Tid, nat>)
    requires ScanOk(x, cur) && x.rest != [] && x.rest[0].rounds == 0 && x.kept == [] && x.front != []
    requires x.s.used < MAX_TIMER || !x.s.timers[x.rest[0].timer].periodic
    ensures Lost(Visit(x), x.front[0].timer)
  {
    RestSplit(x, cur);
    var f, c, e := x.front[0], x.s.cursor, x.rest[0];
    var t := f.timer;
    assert f in x.front + x.kept;
    assert Sits(cur, c, c, f);
    forall k | 0 <= k < SLOTS && k != c
      ensures !Has(x.s.slots[k], t)
    {
      assert Holds(cur, c, k, x.s.slots[k]);
      HasEntry(x.s.slots[k], t);
    }
    HasEntry(x.rest, t);
    assert !Has([], t);
    var y := x.(front := []);
    assert Lost(y, t);
    LostStays(y, t);
    assert Visit(y) == Visit(x);
  }

  /** If some turn from here on loses a timer, there is one when the tick is over. */
  lemma {:induction false} NotCalmLoses(x: Scan, cur: map<Tid, nat>) returns (t: Tid)
    requires ScanOk(x, cur) && !Calm(x)
    ensures Lost(VisitAll(x), t)
    decreases |x.rest|
  {
    NotCalmHasRest(x);
    if Loses(x) {
      t := LosesOne(x, cur);
      LostForGood(Visit(x), t);
    } else {
      NotCalmStays(x, cur);
      StepOk(x, cur);
      t := NotCalmLoses(Visit(x), StepLeft(x, cur));
    }
  }

  lemma NotCalmHasRest(x: Scan)
    requires !Calm(x)
    ensures x.rest != []
  {
  }

  lemma NotCalmStays(x: Scan, cur: map<Tid, nat>)
    requires ScanOk(x, cur) && x.rest != [] && !Calm(x) && !Loses(x)
    ensures !Calm(Visit(x))
  {
    if x.s.used >= MAX_TIMER && FirstIsPeriodic(x.s.timers, x.rest) {
      var i :| 0 <= i < |x.rest| && PeriodicAt(x.s.timers, x.rest, i);
      assert i > 0;
      FirstIsPeriodicTail(x.s.timers, x.rest);
    } else {
      var i :| 0 <= i < |x.rest| && ClobberedAt(x.s.timers, x.rest, i);
      HeadExpires(x, cur);
      ClobbersTail(x.s.timers, x.rest);
    }
  }

  // ---- the theorem on ticks ----

  ghost function RestTimers(l: seq<Entry>): set<Tid> {
    set e | e in l :: e.timer
  }

  lemma {:induction false} OneTimerEach(l: seq<Entry>)
    requires OnePerTimer(l)
    ensures |RestTimers(l)| == |l|
  {
    if l != [] {
      OneTimerEach(l[1..]);
      assert l == [l[0]] + l[1..];
      assert RestTimers(l) == {l[0].timer} + RestTimers(l[1..]);
    }
  }

  /** The countdowns of the other slots, one tick on. */
  ghost function Elsewhere(left: map<Tid, nat>, rest: seq<Entry>): map<Tid, nat>
    requires forall t | t in left :: left[t] > 0
  {
    map t | t in left && !Has(rest, t) :: left[t] - 1
  }

  lemma StartRest(s: State, left: map<Tid, nat>)
    requires WheelOk(s, left)
    ensures var x := StartScan(s);
            && OnePerTimer(x.rest)
            && (forall e: Entry | e in x.rest :: e.timer in left && left[e.timer] == SLOTS * e.rounds + 1)
            && (forall t :: Has(x.rest, t) <==> t in left && SlotOf(s.cursor, left[t]) == x.s.cursor)
            && (forall t | t in left && left[t] == 1 :: Has(x.rest, t))
  {
    var x, c := StartScan(s), (s.cursor + 1) % SLOTS;
    assert Holds(left, s.cursor, c, s.slots[c]);
    forall e: Entry | e in x.rest
      ensures e.timer in left && left[e.timer] == SLOTS * e.rounds + 1
    {
      OneNearer(s.cursor, left[e.timer], c, e.rounds);
    }
    forall t
      ensures Has(x.rest, t) <==> t in left && SlotOf(s.cursor, left[t]) == c
    {
      HasEntry(x.rest, t);
      if t in left && SlotOf(s.cursor, left[t]) == c {
        assert Sits(left, s.cursor, c, Entry(t, (left[t] - 1) / SLOTS));
      }
    }
  }

  lemma StartCount(s: State, left: map<Tid, nat>)
    requires WheelOk(s, left)
    ensures |Elsewhere(left, StartScan(s).rest)| + |StartScan(s).rest| == |left|
  {
    var rest := StartScan(s).rest;
    var cur := Elsewhere(left, rest);
    StartRest(s, left);
    OneTimerEach(rest);
    forall t
      ensures t in RestTimers(rest) <==> Has(rest, t)
    {
      HasEntry(rest, t);
    }
    assert left.Keys == cur.Keys + RestTimers(rest) && cur.Keys !! RestTimers(rest);
    assert |left| == |left.Keys| && |cur| == |cur.Keys|;
  }

  /** Seen from the new cursor, the other slots hold what they should, and nothing else belongs in this one. */
  lemma StartHolds(s: State, left: map<Tid, nat>, k: nat)
    requires WheelOk(s, left) && k < SLOTS
    ensures var x := StartScan(s); Holds(Elsewhere(left, x.rest), x.s.cursor, k, if k == x.s.cursor then [] else s.slots[k])
  {
    var x := StartScan(s);
    var cur, c := Elsewhere(left, x.rest), x.s.cursor;
    var l := if k == c then [] else s.slots[k];
    StartRest(s, left);
    assert Holds(left, s.cursor, k, s.slots[k]);
    forall e: Entry
      ensures e in l <==> Sits(cur, c, k, e)
    {
      if e.timer in left {
        OneNearer(s.cursor, left[e.timer], k, e.rounds);
        if k == c { OneNearer(s.cursor, left[e.timer], k, (left[e.timer] - 1) / SLOTS); }
      }
    }
  }

  lemma StartsMidTick(s: State, left: map<Tid, nat>)
    requires Tracks(s, left)
    ensures MidTick(StartScan(s), Elsewhere(left, StartScan(s).rest), s.timers, left)
  {
    var x := StartScan(s);
    var cur := Elsewhere(left, x.rest);
    StartRest(s, left);
    StartCount(s, left);
    ActiveFit(s.timers, left);
    forall k: nat | k < SLOTS
      ensures Holds(cur, x.s.cursor, k, if k == x.s.cursor then x.front + x.kept else x.s.slots[k])
    {
      StartHolds(s, left, k);
    }
  }

  lemma ActiveFit(timers: map<Tid, Timer>, left: map<Tid, nat>)
    requires forall t :: t in left ==> Active(timers, t)
    ensures |left| <= |timers|
    ensures forall t | t in timers && t !in left :: |left| < |timers|
  {
    SubsetSize(left.Keys, timers.Keys);
    forall t | t in timers && t !in left
      ensures |left| < |timers|
    {
      SubsetSize(left.Keys + {t}, timers.Keys);
    }
  }

  lemma {:induction false} SubsetSize(a: set<Tid>, b: set<Tid>)
    requires a <= b
    ensures |a| <= |b|
    decreases a
  {
    if t :| t in a {
      SubsetSize(a - {t}, b - {t});
    }
  }

  lemma EndsMidTick(y: Scan, cur: map<Tid, nat>, timers: map<Tid, Timer>, left: map<Tid, nat>)
    requires MidTick(y, cur, timers, left) && y.rest == []
    ensures Tracks(EndScan(y), cur) && CountedDown(timers, left, cur)
  {
    forall t: Tid
      ensures t in cur <==> t in left && t in timers && (left[t] > 1 || timers[t].periodic)
      ensures t in cur ==> cur[t] == if left[t] > 1 then left[t] - 1 else Delay(timers[t].period)
    {
      assert !Has([], t) && DownAt(timers, left, y.rest, cur, t);
    }
    var s := EndScan(y);
    assert y.front + y.kept + [] == y.front + y.kept;
    forall k: nat | k < SLOTS
      ensures Holds(cur, s.cursor, k, s.slots[k])
    {
      assert k != y.s.cursor ==> Holds(cur, y.s.cursor, k, y.s.slots[k]);
    }
  }

  lemma LostBreaks(y: Scan, t: Tid, left: map<Tid, nat>)
    requires Lost(y, t) && y.rest == []
    ensures !Tracks(EndScan(y), left)
  {
    var s := EndScan(y);
    if t in left && left[t] > 0 {
      var k, e := SlotOf(s.cursor, left[t]), Entry(t, (left[t] - 1) / SLOTS);
      assert Sits(left, s.cursor, k, e);
      HasEntry(s.slots[k], t);
      HasAppend(y.front + y.kept, y.rest, t);
      HasAppend(y.front, y.kept, t);
      assert !Has(s.slots[k], t);
      assert !Holds(left, s.cursor, k, s.slots[k]);
    }
  }

  /** After the tick, the wheel stands for the countdowns one tick on. */
  ghost predicate TickRight(s: State, left: map<Tid, nat>)
    requires |s.slots| == SLOTS
  {
    exists left' :: Tracks(Tick(s), left') && CountedDown(s.timers, left, left')
  }

  /** The wheel is a countdown per timer for one more tick iff that tick is not in trouble. */
  lemma TickRightIff(s: State, left: map<Tid, nat>)
    requires Tracks(s, left)
    ensures TickRight(s, left) <==> !Trouble(s)
  {
    var x := StartScan(s);
    var cur := Elsewhere(left, x.rest);
    StartsMidTick(s, left);
    if Trouble(s) {
      var t := NotCalmLoses(x, cur);
      forall left' | Tracks(Tick(s), left')
        ensures false
      {
        LostBreaks(VisitAll(x), t, left');
      }
    } else {
      var cur' := CalmScan(x, cur, s.timers, left);
      EndsMidTick(VisitAll(x), cur', s.timers, left);
    }
  }

  // ---- what a tick posts ----

  ghost predicate Expiring(l: seq<Entry>, t: Tid) {
    exists e: Entry :: e in l && e.timer == t && e.rounds == 0
  }

  /** The timers of the entries still to visit are active, and none has been posted yet. */
  ghost predicate ToVisit(x: Scan) {
    && |x.s.slots| == SLOTS && OnePerTimer(x.rest)
    && (forall e: Entry | e in x.rest :: Active(x.s.timers, e.timer) && e.timer !in x.s.posted)
    && (forall i, j | 0 <= i < j < |x.s.posted| :: x.s.posted[i] != x.s.posted[j])
  }

  /** A turn of the loop concerns the timer of its entry only. */
  lemma VisitOthers(x: Scan)
    requires |x.s.slots| == SLOTS && x.rest != [] && Active(x.s.timers, x.rest[0].timer)
    ensures forall t | t != x.rest[0].timer :: Active(Visit(x).s.timers, t) <==> Active(x.s.timers, t)
    ensures Visit(x).s.posted == if x.rest[0].rounds == 0 then x.s.posted + [x.rest[0].timer] else x.s.posted
    ensures Visit(x).rest == x.rest[1..] && |Visit(x).s.slots| == SLOTS
  {
  }

  lemma VisitPostsOne(x: Scan, y: Scan)
    requires ToVisit(x) && x.rest != [] && y.rest == x.rest[1..] && |y.s.slots| == SLOTS
    requires forall t | t != x.rest[0].timer :: Active(y.s.timers, t) <==> Active(x.s.timers, t)
    requires y.s.posted == if x.rest[0].rounds == 0 then x.s.posted + [x.rest[0].timer] else x.s.posted
    ensures ToVisit(y)
  {
    assert x.rest == [x.rest[0]] + x.rest[1..] && x.rest[0] in x.rest;
    forall f: Entry | f in y.rest
      ensures f in x.rest && f.timer != x.rest[0].timer
    {
    }
  }

  lemma {:induction false} VisitPosts(x: Scan, t: Tid)
    requires ToVisit(x)
    ensures ToVisit(VisitAll(x))
    ensures t in VisitAll(x).s.posted <==> t in x.s.posted || Expiring(x.rest, t)
    decreases |x.rest|
  {
    if x.rest != [] {
      assert x.rest == [x.rest[0]] + x.rest[1..];
      VisitOthers(x);
      VisitPostsOne(x, Visit(x));
      VisitPosts(Visit(x), t);
    }
  }

  /** In trouble or not, a tick posts exactly the timers with one tick to go, each once. */
  lemma TickPosts(s: State, left: map<Tid, nat>, t: Tid)
    requires Tracks(s, left)
    ensures t in Tick(s).posted <==> t in left && left[t] == 1
    ensures forall i, j | 0 <= i < j < |Tick(s).posted| :: Tick(s).posted[i] != Tick(s).posted[j]
  {
    var x := StartScan(s);
    StartRest(s, left);
    VisitPosts(x, t);
    if t in left && left[t] == 1 {
      HasEntry(x.rest, t);
    }
  }

  // ---- the other operations ----

  lemma {:induction false} RemoveKeepsWheel(s: State, left: map<Tid, nat>, t: Tid)
    requires WheelOk(s, left)
    ensures WheelOk(Remove(s, t), left - {t})
  {
    var k0, s' := FindSlot(s.slots, t, 0), Remove(s, t);
    if t in left {
      var k1 := SlotOf(s.cursor, left[t]);
      assert Holds(left, s.cursor, k1, s.slots[k1]);
      assert Sits(left, s.cursor, k1, Entry(t, (left[t] - 1) / SLOTS));
      HasEntry(s.slots[k1], t);
    }
    if k0 < SLOTS {
      assert Holds(left, s.cursor, k0, s.slots[k0]);
      HasEntry(s.slots[k0], t);
      Dropped(s.slots[k0], t);
    }
    assert (left - {t}).Keys == left.Keys - {t} && |left| == |left.Keys| && |left - {t}| == |(left - {t}).Keys|;
    forall k: nat | k < SLOTS
      ensures Holds(left - {t}, s.cursor, k, s'.slots[k])
    {
      assert Holds(left, s.cursor, k, s.slots[k]);
      if k != k0 { HasEntry(s.slots[k], t); }
    }
  }

  lemma InsertKeepsWheel(s: State, left: map<Tid, nat>, t: Tid, ticks: nat)
    requires WheelOk(s, left) && |left - {t}| < MAX_TIMER
    ensures WheelOk(Insert(s, t, ticks), left[t := Delay(ticks)])
  {
    RemoveKeepsWheel(s, left, t);
    assert (left - {t})[t := Delay(ticks)] == left[t := Delay(ticks)];
    InsertNewKeepsWheel(Remove(s, t), left - {t}, t, ticks, Insert(s, t, ticks));
  }

  lemma InsertNewKeepsWheel(s: State, left: map<Tid, nat>, t: Tid, ticks: nat, s': State)
    requires WheelOk(s, left) && t !in left
    requires var n := if ticks == 0 then 1 else ticks;
             var k := SlotOf(s.cursor, n);
             s' == s.(slots := s.slots[k := [NewEntry(t, n)] + s.slots[k]], used := s.used + 1)
    ensures WheelOk(s', left[t := Delay(ticks)])
  {
    forall k: nat | k < SLOTS
      ensures Holds(left[t := Delay(ticks)], s.cursor, k, s'.slots[k])
    {
      assert Holds(left, s.cursor, k, s.slots[k]);
      JoinsSlot(left, t, ticks, s.cursor, k, s.slots[k]);
    }
  }

  /** Room in the pool: every other countdown belongs to another timer. */
  lemma RoomFor(timers: map<Tid, Timer>, left: map<Tid, nat>, t: Tid)
    requires t in timers && |timers| <= MAX_TIMER && forall u :: u in left ==> u in timers
    ensures |left - {t}| < MAX_TIMER
  {
    assert (left - {t}).Keys + {t} <= timers.Keys;
    SubsetSize((left - {t}).Keys + {t}, timers.Keys);
    assert |left - {t}| == |(left - {t}).Keys|;
  }

  /** The countdowns after an operation: all of them one tick on, or one of them set, or ended. */
  ghost predicate Follows(s: State, left: map<Tid, nat>, op: Op, left': map<Tid, nat>)
    requires Enabled(s, op)
  {
    match op
    case TickOp => CountedDown(s.timers, left, left')
    case StartOp(t) => left' == left[t := Delay(s.timers[t].period)]
    case StopOp(t) => left' == left - {t}
    case ChangeOp(t, period) => left' == if period > 0 && t in left then left[t := Delay(period)] else left
    case CreateOp(_, _, _) => left' == left
    case DeleteOp(t) => left' == left - {t}
  }

  /** The wheel does not depend on the timers' fields. */
  lemma SameWheel(s: State, left: map<Tid, nat>, timers: map<Tid, Timer>)
    requires WheelOk(s, left)
    ensures WheelOk(s.(timers := timers), left)
  {
    forall k: nat | k < SLOTS
      ensures Holds(left, s.cursor, k, s.(timers := timers).slots[k])
    {
      assert Holds(left, s.cursor, k, s.slots[k]);
    }
  }

  lemma StartTracks(s: State, left: map<Tid, nat>, t: Tid)
    requires Tracks(s, left) && t in s.timers
    ensures Tracks(Apply(s, StartOp(t)), left[t := Delay(s.timers[t].period)])
  {
    var timers := s.timers[t := s.timers[t].(active := true)];
    RoomFor(s.timers, left, t);
    SameWheel(s, left, timers);
    InsertKeepsWheel(s.(timers := timers), left, t, s.timers[t].period);
    StartedActive(s.timers, left, t);
    StartKeepsTimers(s, t);
    assert timers.Keys == s.timers.Keys && |timers| == |timers.Keys| && |s.timers| == |s.timers.Keys|;
  }

  lemma StartedActive(timers: map<Tid, Timer>, left: map<Tid, nat>, t: Tid)
    requires t in timers && forall u :: u in left <==> Active(timers, u)
    ensures forall u :: u in left || u == t <==> Active(timers[t := timers[t].(active := true)], u)
  {
    var timers' := timers[t := timers[t].(active := true)];
    forall u
      ensures u in left || u == t <==> Active(timers', u)
    {
      assert u in left <==> Active(timers, u);
      assert u != t ==> (Active(timers', u) <==> Active(timers, u));
    }
  }

  lemma StopTracks(s: State, left: map<Tid, nat>, t: Tid)
    requires Tracks(s, left) && t in s.timers
    ensures Tracks(Apply(s, StopOp(t)), left - {t})
  {
    var timers := s.timers[t := s.timers[t].(active := false)];
    SameWheel(s, left, timers);
    RemoveKeepsWheel(s.(timers := timers), left, t);
    forall u
      ensures u in left - {t} <==> Active(timers, u)
    {
      assert u in left <==> Active(s.timers, u);
    }
  }

  lemma ChangeTracks(s: State, left: map<Tid, nat>, t: Tid, period: nat)
    requires Tracks(s, left) && t in s.timers
    ensures Tracks(Apply(s, ChangeOp(t, period)), if period > 0 && t in left then left[t := Delay(period)] else left)
  {
    if period > 0 && t in left {
      RoomFor(s.timers, left, t);
      InsertKeepsWheel(s.(timers := s.timers[t := s.timers[t].(period := period)]), left, t, period);
    }
  }

  lemma DeleteTracks(s: State, left: map<Tid, nat>, t: Tid)
    requires Tracks(s, left) && t in s.timers
    ensures Tracks(Apply(s, DeleteOp(t)), left - {t})
  {
    var timers := s.timers - {t};
    FewerTimers(s.timers, t);
    SameWheel(s, left, timers);
    RemoveKeepsWheel(s.(timers := timers), left, t);
    DeletedActive(s.timers, left, t);
  }

  lemma DeletedActive(timers: map<Tid, Timer>, left: map<Tid, nat>, t: Tid)
    requires forall u :: u in left <==> Active(timers, u)
    ensures forall u :: u in left - {t} <==> Active(timers - {t}, u)
  {
  }

  lemma FewerTimers(timers: map<Tid, Timer>, t: Tid)
    ensures |timers - {t}| <= |timers|
  {
    SubsetSize((timers - {t}).Keys, timers.Keys);
  }

  /** Every operation keeps one entry per active timer, at the right place. */
  lemma ApplyTracks(s: State, left: map<Tid, nat>, op: Op) returns (left': map<Tid, nat>)
    requires Tracks(s, left) && Enabled(s, op) && (op == TickOp ==> !Trouble(s))
    ensures Tracks(Apply(s, op), left') && Follows(s, left, op, left')
  {
    match op {
      case TickOp =>
        TickRightIff(s, left);
        left' :| Tracks(Tick(s), left') && CountedDown(s.timers, left, left');
      case StartOp(t) =>
        StartTracks(s, left, t);
        left' := left[t := Delay(s.timers[t].period)];
      case StopOp(t) =>
        StopTracks(s, left, t);
        left' := left - {t};
      case ChangeOp(t, period) =>
        ChangeTracks(s, left, t, period);
        left' := if period > 0 && t in left then left[t := Delay(period)] else left;
      case CreateOp(t, _, _) =>
        left' := left;
      case DeleteOp(t) =>
        DeleteTracks(s, left, t);
        left' := left - {t};
    }
  }

  // ---- runs ----

  /** The operations can be applied one after the other, and no tick is in trouble. */
  ghost predicate Smooth(s: State, ops: seq<Op>)
    requires |s.slots| == SLOTS
    decreases |ops|
  {
    ops == [] || (Enabled(s, ops[0]) && (ops[0] == TickOp ==> !Trouble(s))
                  && Smooth(Apply(s, ops[0]), ops[1..]))
  }

  ghost function After(s: State, ops: seq<Op>): (s': State)
    requires |s.slots| == SLOTS && Smooth(s, ops)
    ensures |s'.slots| == SLOTS
    decreases |ops|
  {
    if ops == [] then s else After(Apply(s, ops[0]), ops[1..])
  }

  /** No tick of the run posts `t`. */
  ghost predicate Silent(s: State, ops: seq<Op>, t: Tid)
    requires |s.slots| == SLOTS && Smooth(s, ops)
    decreases |ops|
  {
    ops == [] || ((ops[0] == TickOp ==> t !in Apply(s, ops[0]).posted) && Silent(Apply(s, ops[0]), ops[1..], t))
  }

  function Ticks(ops: seq<Op>): nat {
    if ops == [] then 0 else (if ops[0] == TickOp then 1 else 0) + Ticks(ops[1..])
  }

  /** The operations are ticks and calls for other timers. */
  predicate Untouched(ops: seq<Op>, t: Tid) {
    forall i | 0 <= i < |ops| :: ops[i] != TickOp ==> ops[i].t != t
  }

  lemma {:induction false} CountsDown(s: State, left: map<Tid, nat>, ops: seq<Op>, t: Tid) returns (left': map<Tid, nat>)
    requires Tracks(s, left) && t in left && Smooth(s, ops) && Untouched(ops, t) && Ticks(ops) < left[t]
    ensures Tracks(After(s, ops), left') && t in left' && left'[t] == left[t] - Ticks(ops)
    ensures Silent(s, ops, t)
    decreases |ops|
  {
    if ops == [] {
      left' := left;
    } else {
      var left1 := ApplyTracks(s, left, ops[0]);
      if ops[0] == TickOp { TickPosts(s, left, t); }
      assert ops[0] != TickOp ==> ops[0].t != t;
      assert t in left1 && left1[t] == left[t] - if ops[0] == TickOp then 1 else 0;
      left' := CountsDown(Apply(s, ops[0]), left1, ops[1..], t);
    }
  }

  /** A countdown that nobody touches is posted when it says, and not before. */
  lemma DueOnTime(s: State, left: map<Tid, nat>, t: Tid, ops: seq<Op>)
    requires Tracks(s, left) && t in left && Smooth(s, ops) && Untouched(ops, t) && Ticks(ops) == left[t] - 1
    ensures Silent(s, ops, t) && t in Tick(After(s, ops)).posted
  {
    var left' := CountsDown(s, left, ops, t);
    TickPosts(After(s, ops), left', t);
  }

  /**
   * A timer started with period n is posted on the n-th following tick and on none before,
   * whatever is done to other timers in between.
   */
  lemma ExpiresOnTime(s: State, left: map<Tid, nat>, t: Tid, ops: seq<Op>)
    requires Tracks(s, left) && t in s.timers && 1 <= s.timers[t].period <= SLOTS * ROUNDS
    requires Smooth(Apply(s, StartOp(t)), ops) && Untouched(ops, t) && Ticks(ops) == s.timers[t].period - 1
    ensures Silent(Apply(s, StartOp(t)), ops, t)
    ensures t in Tick(After(Apply(s, StartOp(t)), ops)).posted
  {
    StartTracks(s, left, t);
    DelayExact(s.timers[t].period);
    DueOnTime(Apply(s, StartOp(t)), left[t := Delay(s.timers[t].period)], t, ops);
  }

  /** The period is the delay, unless it is zero or has more rounds than 32 bits can say. */
  lemma DelayExact(period: nat)
    ensures Delay(period) == period <==> 1 <= period <= SLOTS * ROUNDS
  {
  }

  // ---- who stays out of trouble ----

  /** Fewer timers are active than the pool has entries, and none of them is periodic with a multiple of the slot count. */
  ghost predicate Tame(timers: map<Tid, Timer>, left: map<Tid, nat>) {
    && |left| < MAX_TIMER
    && forall t | t in left && t in timers && timers[t].periodic :: timers[t].period == 0 || timers[t].period % SLOTS != 0
  }

  lemma TameAvoidsTrouble(s: State, left: map<Tid, nat>)
    requires Tracks(s, left) && Tame(s.timers, left)
    ensures !Trouble(s)
  {
    forall e: Entry
      ensures !BackInSlot(s.timers, e)
    {
      assert BackInSlot(s.timers, e) ==> Active(s.timers, e.timer) && e.timer in left;
    }
  }

  /** Two periodic timers of one turn of the wheel each, due in the same tick: one of them is lost. */
  lemma SameSlotLosesOne(s: State, left: map<Tid, nat>, t: Tid, u: Tid)
    requires Tracks(s, left) && t != u && left.Keys == {t, u} && left[t] == left[u] == 1
    requires forall v | v in {t, u} :: s.timers[v].periodic && s.timers[v].period > 0 && s.timers[v].period % SLOTS == 0
    ensures Trouble(s) && !TickRight(s, left)
  {
    var x := StartScan(s);
    StartRest(s, left);
    OneTimerEach(x.rest);
    forall v
      ensures v in RestTimers(x.rest) <==> Has(x.rest, v)
    {
      HasEntry(x.rest, v);
    }
    assert RestTimers(x.rest) == {t, u};
    assert x.rest[0] in x.rest && x.rest[1] in x.rest;
    assert ClobberedAt(s.timers, x.rest, 0);
    TickRightIff(s, left);
  }

  /** Timer `t` counts as active, but the wheel does not know it any more. */
  ghost predicate Vanished(s: State, t: Tid) {
    Active(s.timers, t) && forall k | 0 <= k < |s.slots| :: !Has(s.slots[k], t)
  }

  lemma TroubleLoses(s: State, left: map<Tid, nat>) returns (t: Tid)
    requires Tracks(s, left) && Trouble(s)
    ensures Vanished(Tick(s), t)
  {
    var x := StartScan(s);
    StartsMidTick(s, left);
    t := NotCalmLoses(x, Elsewhere(left, x.rest));
    LostVanished(VisitAll(x), t);
  }

  lemma LostVanished(y: Scan, t: Tid)
    requires Lost(y, t)
    ensures Vanished(EndScan(y), t)
  {
    HasAppend(y.front + y.kept, y.rest, t);
    HasAppend(y.front, y.kept, t);
  }

  // ---- a run that loses a timer ----

  /** `cgrtos_timer_init`. */
  function Fresh(): State {
    State(seq(SLOTS, _ => []), 0, 0, map[], [])
  }

  function TickOps(n: nat): (ops: seq<Op>)
    ensures |ops| == n
  {
    if n == 0 then [] else [TickOp] + TickOps(n - 1)
  }

  lemma FreshTracks()
    ensures Tracks(Fresh(), map[])
  {
    assert forall t :: !Has([], t);
  }

  lemma CreateTracks(s: State, left: map<Tid, nat>, t: Tid, period: nat, periodic: bool)
    requires Tracks(s, left) && Enabled(s, CreateOp(t, period, periodic))
    ensures Tracks(Apply(s, CreateOp(t, period, periodic)), left)
  {
    SameWheel(s, left, s.timers[t := Timer(period, periodic, false)]);
    forall u
      ensures u in left <==> Active(s.timers[t := Timer(period, periodic, false)], u)
    {
      assert u in left <==> Active(s.timers, u);
    }
  }

  /** Two periodic timers of one turn each, started in the same tick. */
  function Twins(): (ops: seq<Op>) {
    [CreateOp(0, SLOTS, true), CreateOp(1, SLOTS, true), StartOp(0), StartOp(1)]
  }

  /** Both are due in `n` ticks. */
  ghost predicate TwinsDue(timers: map<Tid, Timer>, left: map<Tid, nat>, n: nat) {
    && left.Keys == {0, 1} && left[0] == n && left[1] == n
    && timers == map[0 := Timer(SLOTS, true, true), 1 := Timer(SLOTS, true, true)]
  }

  lemma SmoothStep(s: State, ops: seq<Op>)
    requires |s.slots| == SLOTS && ops != [] && Enabled(s, ops[0]) && ops[0] != TickOp && Smooth(Apply(s, ops[0]), ops[1..])
    ensures Smooth(s, ops) && After(s, ops) == After(Apply(s, ops[0]), ops[1..])
  {
  }

  lemma TwinsCreated() returns (s: State)
    ensures Tracks(s, map[]) && s.timers == map[0 := Timer(SLOTS, true, false), 1 := Timer(SLOTS, true, false)]
    ensures s == Apply(Apply(Fresh(), Twins()[0]), Twins()[1]) && Enabled(Fresh(), Twins()[0]) && Enabled(Apply(Fresh(), Twins()[0]), Twins()[1])
  {
    FreshTracks();
    CreateTracks(Fresh(), map[], 0, SLOTS, true);
    var s1 := Apply(Fresh(), CreateOp(0, SLOTS, true));
    CreateTracks(s1, map[], 1, SLOTS, true);
    s := Apply(s1, CreateOp(1, SLOTS, true));
  }

  lemma StartKeepsTimers(s: State, t: Tid)
    requires |s.slots| == SLOTS && t in s.timers
    ensures Apply(s, StartOp(t)).timers == s.timers[t := s.timers[t].(active := true)]
  {
  }

  lemma TwinsStarted() returns (s: State, left: map<Tid, nat>)
    ensures Smooth(Fresh(), Twins()) && After(Fresh(), Twins()) == s && Tracks(s, left) && TwinsDue(s.timers, left, SLOTS)
  {
    var s2 := TwinsCreated();
    DelayExact(SLOTS);
    StartTracks(s2, map[], 0);
    StartKeepsTimers(s2, 0);
    var s3 := Apply(s2, StartOp(0));
    StartTracks(s3, map[0 := SLOTS], 1);
    StartKeepsTimers(s3, 1);
    s := Apply(s3, StartOp(1));
    left := map[0 := SLOTS][1 := SLOTS];
    SmoothStep(s3, [StartOp(1)]);
    SmoothStep(s2, [StartOp(0), StartOp(1)]);
    SmoothStep(Apply(Fresh(), Twins()[0]), [CreateOp(1, SLOTS, true), StartOp(0), StartOp(1)]);
    assert Twins()[1..] == [CreateOp(1, SLOTS, true), StartOp(0), StartOp(1)];
    SmoothStep(Fresh(), Twins());
  }

  /** Before they are due, the slot of the tick is empty. */
  lemma NothingDue(s: State, left: map<Tid, nat>)
    requires WheelOk(s, left) && forall t | t in left :: 1 < left[t] <= SLOTS
    ensures StartScan(s).rest == [] && !Trouble(s) && Tick(s).timers == s.timers
  {
    var x := StartScan(s);
    StartRest(s, left);
    if x.rest != [] {
      var e := x.rest[0];
      assert e in x.rest;
      RoundsBelow(left[e.timer], e.rounds);
    }
  }

  lemma RoundsBelow(left: nat, rounds: nat)
    requires left == SLOTS * rounds + 1 && 1 < left
    ensures left > SLOTS
  {
  }

  lemma TwinsNotDue(s: State, left: map<Tid, nat>, n: nat) returns (left': map<Tid, nat>)
    requires 0 < n < SLOTS && Tracks(s, left) && TwinsDue(s.timers, left, n + 1)
    ensures !Trouble(s) && Tracks(Tick(s), left') && TwinsDue(Tick(s).timers, left', n)
  {
    NothingDue(s, left);
    TickRightIff(s, left);
    left' :| Tracks(Tick(s), left') && CountedDown(s.timers, left, left');
    TwinsNearer(s.timers, left, left', n);
  }

  lemma TwinsNearer(timers: map<Tid, Timer>, left: map<Tid, nat>, left': map<Tid, nat>, n: nat)
    requires n > 0 && TwinsDue(timers, left, n + 1) && CountedDown(timers, left, left')
    ensures TwinsDue(timers, left', n)
  {
    assert forall t :: t in left' <==> t in left;
  }

  lemma {:induction false} TwinsTick(s: State, left: map<Tid, nat>, n: nat) returns (left': map<Tid, nat>)
    requires n < SLOTS && Tracks(s, left) && TwinsDue(s.timers, left, n + 1)
    ensures Smooth(s, TickOps(n)) && Tracks(After(s, TickOps(n)), left') && TwinsDue(After(s, TickOps(n)).timers, left', 1)
    decreases n
  {
    if n == 0 {
      left' := left;
    } else {
      var left1 := TwinsNotDue(s, left, n);
      left' := TwinsTick(Tick(s), left1, n - 1);
      SmoothTick(s, TickOps(n - 1));
    }
  }

  lemma SmoothTick(s: State, ops: seq<Op>)
    requires |s.slots| == SLOTS && !Trouble(s) && Smooth(Tick(s), ops)
    ensures Smooth(s, [TickOp] + ops) && After(s, [TickOp] + ops) == After(Tick(s), ops)
  {
    assert ([TickOp] + ops)[1..] == ops;
  }

  lemma {:induction false} SmoothAppend(s: State, a: seq<Op>, b: seq<Op>)
    requires |s.slots| == SLOTS && Smooth(s, a) && Smooth(After(s, a), b)
    ensures Smooth(s, a + b) && After(s, a + b) == After(After(s, a), b)
    decreases |a|
  {
    if a == [] {
      assert a + b == b;
    } else {
      assert (a + b)[1..] == a[1..] + b;
      SmoothAppend(Apply(s, a[0]), a[1..], b);
    }
  }

  /** From an empty wheel, two timers of n + 1 = 256 ticks started together: one of them is gone after the tick in which both expire. */
  lemma LostFromStart(n: nat) returns (t: Tid)
    requires n + 1 == SLOTS
    ensures var ops := Twins() + TickOps(n);
            Smooth(Fresh(), ops) && Trouble(After(Fresh(), ops)) && Vanished(Tick(After(Fresh(), ops)), t)
  {
    var s, left := TwinsStarted();
    t := LostLater(Fresh(), Twins(), left, n);
  }

  lemma LostLater(s0: State, ops: seq<Op>, left: map<Tid, nat>, n: nat) returns (t: Tid)
    requires |s0.slots| == SLOTS && Smooth(s0, ops) && n + 1 == SLOTS
    requires Tracks(After(s0, ops), left) && TwinsDue(After(s0, ops).timers, left, SLOTS)
    ensures var all := ops + TickOps(n);
            Smooth(s0, all) && Trouble(After(s0, all)) && Vanished(Tick(After(s0, all)), t)
  {
    var s := After(s0, ops);
    var left' := TwinsTick(s, left, n);
    SmoothAppend(s0, ops, TickOps(n));
    TwinsLoseOne(After(s, TickOps(n)), left');
    t := TroubleLoses(After(s, TickOps(n)), left');
  }

  lemma TwinsLoseOne(s: State, left: map<Tid, nat>)
    requires Tracks(s, left) && TwinsDue(s.timers, left, 1)
    ensures Trouble(s)
  {
    SameSlotLosesOne(s, left, 0, 1);
  }
}
