/**
 * kernel/timer.c as the code runs it: slots, cursor, pool count and timers updated in place.
 * Every method is tied to the operation of TimerSpec it performs.
 */
module TimerKernel {
  import opened TimerSpec
  import opened TimerRefine

  // ---- one entry per timer ----

  /** No timer has two entries, in one slot or in two; ticks that lose a timer keep this too. */
  ghost predicate OneEach(s: State) {
    && |s.slots| == SLOTS
    && (forall k | 0 <= k < SLOTS :: OnePerTimer(s.slots[k]))
    && (forall t: Tid, j, k | 0 <= j < k < SLOTS && Has(s.slots[j], t) :: !Has(s.slots[k], t))
  }

  /** A slot may lose entries. */
  lemma FewerInSlot(s: State, k: nat, l: seq<Entry>, s': State)
    requires OneEach(s) && k < SLOTS && OnePerTimer(l) && forall t: Tid | Has(l, t) :: Has(s.slots[k], t)
    requires s'.slots == s.slots[k := l]
    ensures OneEach(s')
  {
    forall t: Tid, i, j | 0 <= i < j < SLOTS && Has(s'.slots[i], t)
      ensures !Has(s'.slots[j], t)
    {
      assert Has(s.slots[i], t);
    }
  }

  /** Or gain the entry of a timer that has none. */
  lemma OneMoreInSlot(s: State, k: nat, e: Entry, s': State)
    requires OneEach(s) && k < SLOTS && s'.slots == s.slots[k := [e] + s.slots[k]]
    requires forall j | 0 <= j < SLOTS :: !Has(s.slots[j], e.timer)
    ensures OneEach(s')
  {
    forall t: Tid
      ensures Has(s'.slots[k], t) <==> t == e.timer || Has(s.slots[k], t)
    {
      HasAppend([e], s.slots[k], t);
      HasOne(e, t);
    }
    forall x: Entry | x in s.slots[k]
      ensures x.timer != e.timer
    {
      HasEntry(s.slots[k], x.timer);
    }
    PutInFront(s.slots[k], e);
    forall t: Tid, i, j | 0 <= i < j < SLOTS && Has(s'.slots[i], t)
      ensures !Has(s'.slots[j], t)
    {
      assert t != e.timer ==> Has(s.slots[i], t);
    }
  }

  lemma RemoveOneEach(s: State, t: Tid)
    requires OneEach(s)
    ensures OneEach(Remove(s, t)) && forall k | 0 <= k < SLOTS :: !Has(Remove(s, t).slots[k], t)
  {
    var k := FindSlot(s.slots, t, 0);
    if k < SLOTS {
      Dropped(s.slots[k], t);
      forall u: Tid
        ensures Has(Drop(s.slots[k], t), u) <==> Has(s.slots[k], u) && u != t
      {
        HasEntry(s.slots[k], u);
        HasEntry(Drop(s.slots[k], t), u);
      }
      FewerInSlot(s, k, Drop(s.slots[k], t), Remove(s, t));
    }
  }

  lemma InsertOneEach(s: State, t: Tid, ticks: nat)
    requires OneEach(s)
    ensures OneEach(Insert(s, t, ticks))
  {
    RemoveOneEach(s, t);
    var n := if ticks == 0 then 1 else ticks;
    if Remove(s, t).used < MAX_TIMER { OneMoreInSlot(Remove(s, t), SlotOf(s.cursor, n), NewEntry(t, n), Insert(s, t, ticks)); }
  }

  // ---- the loop of a tick and the calls it makes ----

  lemma StartsHere(s: State)
    requires |s.slots| == SLOTS
    ensures EndScan(StartScan(s)) == s.(cursor := (s.cursor + 1) % SLOTS, posted := [])
  {
    var x := StartScan(s);
    assert x.front + x.kept + x.rest == s.slots[x.s.cursor];
    assert EndScan(x).slots == s.slots;
  }

  /** Timer `t` has no entry. */
  ghost predicate Alone(x: Scan, t: Tid) {
    && |x.s.slots| == SLOTS && x.s.cursor < SLOTS
    && (forall k | 0 <= k < SLOTS && k != x.s.cursor :: !Has(x.s.slots[k], t))
    && !Has(x.front, t) && !Has(x.kept, t) && !Has(x.rest, t)
  }

  lemma ShorterList(l: seq<Entry>, at: nat, from: nat)
    requires from <= at < |l| && OnePerTimer(l)
    ensures var r := l[from..at] + l[at + 1..];
            OnePerTimer(r) && forall u: Tid | Has(r, u) :: Has(l, u) && u != l[at].timer
  {
    var r := l[from..at] + l[at + 1..];
    forall i | 0 <= i < |r|
      ensures r[i] == l[if from + i < at then from + i else from + i + 1]
    {
    }
  }

  /** The timer of the entry being visited has no other entry. */
  lemma UnlinkedAlone(x: Scan)
    requires x.s.cursor < |x.s.slots| == SLOTS && OneEach(EndScan(x)) && x.rest != []
    ensures Alone(Unlink(x), x.rest[0].timer) && OneEach(EndScan(Unlink(x)))
  {
    var s, y, c, t := EndScan(x), Unlink(x), x.s.cursor, x.rest[0].timer;
    var l, at := s.slots[c], |x.front| + |x.kept|;
    var from := if x.kept == [] then at else 0;
    assert l[at] == x.rest[0];
    ShorterList(l, at, from);
    var r := l[from..at] + l[at + 1..];
    assert l[at + 1..] == x.rest[1..] && (x.kept != [] ==> l[..at] == x.front + x.kept);
    assert r == y.front + y.kept + y.rest;
    FewerInSlot(s, c, r, EndScan(y));
    forall k | 0 <= k < SLOTS && k != c
      ensures !Has(x.s.slots[k], t)
    {
      assert s.slots[k] == x.s.slots[k] && Has(l, t);
    }
    HasAppend(y.front + y.kept, y.rest, t);
    HasAppend(y.front, y.kept, t);
  }

  /** An entry that survives the visit keeps its place. */
  lemma SurvivorOneEach(x: Scan)
    requires x.s.cursor < |x.s.slots| == SLOTS && OneEach(EndScan(x)) && x.rest != [] && x.rest[0].rounds > 0
    ensures OneEach(EndScan(Visit(x)))
  {
    var s, c := EndScan(x), x.s.cursor;
    var l, at, e := s.slots[c], |x.front| + |x.kept|, x.rest[0];
    var r := l[at := Entry(e.timer, e.rounds - 1)];
    assert l[at] == e && r == Visit(x).front + Visit(x).kept + Visit(x).rest;
    assert forall i | 0 <= i < |l| :: r[i].timer == l[i].timer;
    FewerInSlot(s, c, r, EndScan(Visit(x)));
  }

  lemma NotFound(s: State, t: Tid)
    requires forall k | 0 <= k < |s.slots| :: !Has(s.slots[k], t)
    ensures Remove(s, t) == s
  {
  }

  /** `wheel_insert` as called from the loop. */
  lemma InsertIsReinsert(y: Scan, t: Tid, ticks: nat)
    requires Alone(y, t)
    ensures Insert(EndScan(y), t, ticks) == EndScan(Reinsert(y, t, ticks))
  {
    var s, c := EndScan(y), y.s.cursor;
    HasAppend(y.front + y.kept, y.rest, t);
    HasAppend(y.front, y.kept, t);
    NotFound(s, t);
    var n := if ticks == 0 then 1 else ticks;
    var k, e := SlotOf(c, n), NewEntry(t, n);
    assert [e] + (y.front + y.kept + y.rest) == [e] + y.front + y.kept + y.rest;
    if s.used < MAX_TIMER {
      var s1, s2 := Insert(s, t, ticks), EndScan(Reinsert(y, t, ticks));
      forall j | 0 <= j < SLOTS
        ensures s1.slots[j] == s2.slots[j]
      {
      }
      assert s1.slots == s2.slots;
    }
  }

  class Wheel {
    const slots: array<seq<Entry>>
    var cursor: nat
    var used: int
    var timers: map<Tid, Timer>
    /** The EXPIRE commands of the last tick. */
    var posted: seq<Tid>

    ghost function View(): State
      reads this, slots
    {
      State(slots[..], cursor, used, timers, posted)
    }

    ghost predicate Valid()
      reads this, slots
    {
      slots.Length == SLOTS && cursor < SLOTS && OneEach(View())
    }

    /** `cgrtos_timer_init`. */
    constructor ()
      ensures Valid() && Tracks(View(), map[]) && timers == map[] && fresh(slots)
    {
      slots := new seq<Entry>[SLOTS](_ => []);
      cursor, used, timers, posted := 0, 0, map[], [];
    }

    /** `wheel_remove_entry`: slot by slot, entry by entry. */
    method RemoveEntry(t: Tid)
      requires Valid()
      modifies this`used, slots
      ensures Valid() && View() == Remove(old(View()), t)
    {
      RemoveOneEach(View(), t);
      var i := 0;
      while i < SLOTS
        invariant 0 <= i <= SLOTS && View() == old(View())
        invariant FindSlot(slots[..], t, 0) == FindSlot(slots[..], t, i)
      {
        var l := slots[i];
        var j := 0;
        while j < |l|
          invariant 0 <= j <= |l| && View() == old(View())
          invariant forall m | 0 <= m < j :: l[m].timer != t
        {
          if l[j].timer == t {
            DropAt(l, t, j);
            slots[i] := l[..j] + l[j + 1..];
            used := used - 1;
            return;
          }
          j := j + 1;
        }
        i := i + 1;
      }
    }

    static lemma {:induction false} DropAt(l: seq<Entry>, t: Tid, j: nat)
      requires j < |l| && l[j].timer == t && forall m | 0 <= m < j :: l[m].timer != t
      ensures Drop(l, t) == l[..j] + l[j + 1..]
    {
      if j > 0 {
        DropAt(l[1..], t, j - 1);
        assert [l[0]] + (l[1..][..j - 1] + l[1..][j..]) == l[..j] + l[j + 1..];
      }
    }

    /** `wheel_insert`. */
    method WheelInsert(t: Tid, ticks: nat)
      requires Valid()
      modifies this`used, slots
      ensures Valid() && View() == Insert(old(View()), t, ticks)
    {
      InsertOneEach(View(), t, ticks);
      RemoveEntry(t);
      if used >= MAX_TIMER {
        return;
      }
      AddEntry(t, if ticks == 0 then 1 else ticks);
    }

    /** A new entry at the head of its slot. */
    method AddEntry(t: Tid, n: nat)
      requires slots.Length == SLOTS && n > 0
      modifies this`used, slots
      ensures var k := SlotOf(cursor, n);
              View() == old(View().(slots := slots[..][k := [NewEntry(t, n)] + slots[k]], used := used + 1))
    {
      used := used + 1;
      var slot := (cursor + n) % SLOTS;
      slots[slot] := [Entry(t, (n - 1) / SLOTS % ROUNDS)] + slots[slot];
    }

    /** `cgrtos_timer_start`. */
    method Start(t: Tid)
      requires Valid() && t in timers
      modifies this, slots
      ensures Valid() && View() == Apply(old(View()), StartOp(t))
    {
      timers := timers[t := timers[t].(active := true)];
      WheelInsert(t, timers[t].period);
    }

    /** `cgrtos_timer_stop`. */
    method Stop(t: Tid)
      requires Valid() && t in timers
      modifies this, slots
      ensures Valid() && View() == Apply(old(View()), StopOp(t))
    {
      timers := timers[t := timers[t].(active := false)];
      RemoveEntry(t);
    }

    /** `cgrtos_timer_change_period`. */
    method ChangePeriod(t: Tid, period: nat) returns (ok: bool)
      requires Valid() && t in timers
      modifies this, slots
      ensures Valid() && View() == Apply(old(View()), ChangeOp(t, period))
      ensures ok <==> period != 0
    {
      if period == 0 {
        return false;
      }
      timers := timers[t := timers[t].(period := period)];
      if timers[t].active {
        WheelInsert(t, period);
      }
      ok := true;
    }

    /** `cgrtos_timer_create`: the place `t` of the pool, unless all are taken. */
    method Create(t: Tid, period: nat, periodic: bool) returns (ok: bool)
      requires Valid() && t !in timers
      modifies this`timers
      ensures Valid() && (ok <==> old(|timers|) < MAX_TIMER)
      ensures View() == if ok then Apply(old(View()), CreateOp(t, period, periodic)) else old(View())
    {
      ok := |timers| < MAX_TIMER;
      if ok {
        timers := timers[t := Timer(period, periodic, false)];
      }
    }

    /** `cgrtos_timer_delete`. */
    method Delete(t: Tid)
      requires Valid() && t in timers
      modifies this, slots
      ensures Valid() && View() == Apply(old(View()), DeleteOp(t))
    {
      RemoveEntry(t);
      timers := timers - {t};
    }

    /** The part of a turn that concerns the expired timer; `shift` tells how far the slot's entries have moved back. */
    method Expired(t: Tid, ghost x: Scan) returns (shift: nat)
      requires Valid() && Alone(x, t) && View() == EndScan(x)
      modifies this, slots
      ensures Valid() && cursor == old(cursor) && View() == EndScan(Expire(x, t))
      ensures shift + |x.front| == |Expire(x, t).front|
    {
      shift := 0;
      if t in timers && timers[t].active {
        posted := posted + [t];
        ghost var y := x.(s := x.s.(posted := x.s.posted + [t]));
        assert View() == EndScan(y);
        if timers[t].periodic {
          InsertIsReinsert(y, t, timers[t].period);
          var size := |slots[cursor]|;
          WheelInsert(t, timers[t].period);
          shift := |slots[cursor]| - size;
        } else {
          timers := timers[t := timers[t].(active := false)];
        }
      }
    }

    /**
     * One turn of the loop in `cgrtos_timer_process_tick`: `at` is the place of `entry` in the slot,
     * `alone` says that `prev` is null.
     */
    method Turn(at: nat, alone: bool, ghost x: Scan) returns (at': nat, alone': bool)
      requires Valid() && x.s.cursor < |x.s.slots| == SLOTS && x.rest != [] && View() == EndScan(x)
      requires at == |x.front| + |x.kept| && (alone <==> x.kept == [])
      modifies this, slots
      ensures Valid() && cursor == old(cursor) && View() == EndScan(Visit(x))
      ensures at' == |Visit(x).front| + |Visit(x).kept| && (alone' <==> Visit(x).kept == [])
    {
      var l := slots[cursor];
      assert l == x.front + x.kept + x.rest;
      var e := l[at];
      assert e == x.rest[0];
      if e.rounds > 0 {
        SurvivorOneEach(x);
        slots[cursor] := l[at := Entry(e.timer, e.rounds - 1)];
        assert slots[cursor] == Visit(x).front + Visit(x).kept + Visit(x).rest;
        assert View().slots == EndScan(Visit(x)).slots;
        return at + 1, false;
      }
      ghost var y := Unlink(x);
      UnlinkedAlone(x);
      at' := at;
      if alone {
        slots[cursor] := l[at + 1..];
        at' := 0;
      } else {
        slots[cursor] := l[..at] + l[at + 1..];
      }
      assert slots[cursor] == y.front + y.kept + y.rest;
      assert View().slots == EndScan(y).slots;
      var shift := Expired(e.timer, y);
      at' := at' + shift;
      used := used - 1;
      alone' := alone;
    }

    /** The loop of `cgrtos_timer_process_tick`. */
    method ScanSlot(ghost start: Scan)
      requires Valid() && start.s.cursor < |start.s.slots| == SLOTS && View() == EndScan(start) && start.front == start.kept == []
      modifies this, slots
      ensures Valid() && View() == EndScan(VisitAll(start))
    {
      ghost var x := start;
      var at, alone := 0, true;
      while at < |slots[cursor]|
        invariant Valid() && x.s.cursor < |x.s.slots| == SLOTS && View() == EndScan(x)
        invariant VisitAll(x) == VisitAll(start)
        invariant at == |x.front| + |x.kept| && (alone <==> x.kept == [])
        decreases |x.rest|
      {
        at, alone := Turn(at, alone, x);
        x := Visit(x);
      }
    }

    /** `cgrtos_timer_process_tick`. */
    method ProcessTick()
      requires Valid()
      modifies this, slots
      ensures Valid() && View() == Tick(old(View()))
    {
      StartsHere(View());
      ghost var x := StartScan(View());
      cursor := (cursor + 1) % SLOTS;
      posted := [];
      ScanSlot(x);
    }
  }
}
