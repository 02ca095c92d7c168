/**
 * The software timers of kernel/timer.c: a wheel of 256 slots whose entries carry a number of
 * rounds, and what it stands for, a plain countdown per active timer.
 */
module TimerSpec {
  import opened Wrappers

  type Tid = nat

  /** CONFIG_TIMER_WHEEL_SLOTS. */
  const SLOTS: nat := 256
  /** CGRTOS_MAX_TIMER, the number of timers and of wheel entries. */
  const MAX_TIMER: nat := 32
  /** `rounds` has 32 bits. */
  const ROUNDS: nat := 0x1_0000_0000

  datatype Entry = Entry(timer: Tid, rounds: nat)

  datatype Timer = Timer(period: nat, periodic: bool, active: bool)

  /** The wheel; `used` counts the entries taken from the pool, `posted` the timers the last tick reported as expired. */
  datatype State = State(slots: seq<seq<Entry>>, cursor: nat, used: int, timers: map<Tid, Timer>, posted: seq<Tid>)

  // ---- the wheel ----

  predicate Has(l: seq<Entry>, t: Tid) {
    exists i :: 0 <= i < |l| && l[i].timer == t
  }

  /** The list without the first entry of `t`. */
  function Drop(l: seq<Entry>, t: Tid): seq<Entry> {
    if l == [] then [] else if l[0].timer == t then l[1..] else [l[0]] + Drop(l[1..], t)
  }

  /** The first slot, from `k` on, with an entry of `t`. */
  function FindSlot(slots: seq<seq<Entry>>, t: Tid, k: nat): (r: nat)
    requires k <= |slots|
    ensures k <= r <= |slots| && (r < |slots| ==> Has(slots[r], t))
    ensures forall j | k <= j < r :: !Has(slots[j], t)
    decreases |slots| - k
  {
    if k == |slots| || Has(slots[k], t) then k else FindSlot(slots, t, k + 1)
  }

  /** `wheel_remove_entry`. */
  function Remove(s: State, t: Tid): State {
    var k := FindSlot(s.slots, t, 0);
    if k == |s.slots| then s else s.(slots := s.slots[k := Drop(s.slots[k], t)], used := s.used - 1)
  }

  function SlotOf(cursor: nat, ticks: nat): nat {
    (cursor + ticks) % SLOTS
  }

  /** The entry `wheel_insert` makes for a timer due in `ticks` ticks. */
  function NewEntry(t: Tid, ticks: nat): Entry
    requires ticks > 0
  {
    Entry(t, (ticks - 1) / SLOTS % ROUNDS)
  }

  /** `wheel_insert`. */
  function Insert(s: State, t: Tid, ticks: nat): State
    requires |s.slots| == SLOTS
  {
    var s1 := Remove(s, t);
    if s1.used >= MAX_TIMER then s1
    else
      var n := if ticks == 0 then 1 else ticks;
      var k := SlotOf(s.cursor, n);
      s1.(slots := s1.slots[k := [NewEntry(t, n)] + s1.slots[k]], used := s1.used + 1)
  }

  // ---- one tick ----

  /**
   * The state of the loop over the current slot: the slot holds `front + kept + rest`, where
   * `rest` is still to be visited, `kept` has been visited and stays, and `front` was put in
   * front during the visit.  The loop's `prev` is null iff `kept` is empty.
   */
  datatype Scan = Scan(s: State, front: seq<Entry>, kept: seq<Entry>, rest: seq<Entry>)

  /** `wheel_insert` of a timer that has no entry, from within the loop. */
  function Reinsert(x: Scan, t: Tid, ticks: nat): Scan
    requires |x.s.slots| == SLOTS
  {
    if x.s.used >= MAX_TIMER then x
    else
      var n := if ticks == 0 then 1 else ticks;
      var k := SlotOf(x.s.cursor, n);
      if k == x.s.cursor then x.(front := [NewEntry(t, n)] + x.front, s := x.s.(used := x.s.used + 1))
      else x.(s := x.s.(slots := x.s.slots[k := [NewEntry(t, n)] + x.s.slots[k]], used := x.s.used + 1))
  }

  /** The entry leaves the list: behind `prev`, or by making the slot start at its successor. */
  function Unlink(x: Scan): Scan
    requires x.rest != []
  {
    x.(front := if x.kept == [] then [] else x.front, rest := x.rest[1..])
  }

  /** What expiry does with the timer itself. */
  function Expire(x: Scan, t: Tid): Scan
    requires |x.s.slots| == SLOTS
  {
    if t in x.s.timers && x.s.timers[t].active then
      var y := x.(s := x.s.(posted := x.s.posted + [t]));
      if x.s.timers[t].periodic then Reinsert(y, t, x.s.timers[t].period)
      else y.(s := y.s.(timers := y.s.timers[t := y.s.timers[t].(active := false)]))
    else x
  }

  /** One turn of the loop. */
  function Visit(x: Scan): Scan
    requires x.rest != [] && |x.s.slots| == SLOTS
  {
    var e := x.rest[0];
    if e.rounds > 0 then x.(kept := x.kept + [Entry(e.timer, e.rounds - 1)], rest := x.rest[1..])
    else
      var y := Expire(Unlink(x), e.timer);
      y.(s := y.s.(used := y.s.used - 1))
  }

  function VisitAll(x: Scan): (y: Scan)
    requires |x.s.slots| == SLOTS
    ensures y.rest == [] && |y.s.slots| == SLOTS && y.s.cursor == x.s.cursor
    decreases |x.rest|
  {
    if x.rest == [] then x else VisitAll(Visit(x))
  }

  function StartScan(s: State): Scan
    requires |s.slots| == SLOTS
  {
    var c := (s.cursor + 1) % SLOTS;
    Scan(s.(cursor := c, posted := []), [], [], s.slots[c])
  }

  function EndScan(x: Scan): State
    requires x.s.cursor < |x.s.slots|
  {
    x.s.(slots := x.s.slots[x.s.cursor := x.front + x.kept + x.rest])
  }

  /** `cgrtos_timer_process_tick`. */
  function Tick(s: State): State
    requires |s.slots| == SLOTS
  {
    EndScan(VisitAll(StartScan(s)))
  }

  // ---- the countdown ----

  /** The ticks a timer of this period really waits: zero counts as one, and `rounds` wraps. */
  function Delay(period: nat): (d: nat)
    ensures 1 <= d <= SLOTS * ROUNDS
  {
    if period == 0 then 1 else (period - 1) % (SLOTS * ROUNDS) + 1
  }

  /** With `left` ticks to go for its timer, entry `e` belongs in slot `k`. */
  predicate Sits(left: map<Tid, nat>, cursor: nat, k: nat, e: Entry) {
    && e.timer in left && left[e.timer] > 0
    && k == SlotOf(cursor, left[e.timer]) && e.rounds == (left[e.timer] - 1) / SLOTS
  }

  ghost predicate OnePerTimer(l: seq<Entry>) {
    forall i, j | 0 <= i < j < |l| :: l[i].timer != l[j].timer
  }

  /** List `l` is slot `k`: it holds exactly the entries that belong there, once each. */
  ghost predicate Holds(left: map<Tid, nat>, cursor: nat, k: nat, l: seq<Entry>) {
    OnePerTimer(l) && forall e: Entry :: e in l <==> Sits(left, cursor, k, e)
  }

  ghost predicate Active(timers: map<Tid, Timer>, t: Tid) {
    t in timers && timers[t].active
  }

  /** The slots hold one entry for each countdown, in the right slot with the right number of rounds. */
  ghost predicate WheelOk(s: State, left: map<Tid, nat>) {
    && |s.slots| == SLOTS && s.cursor < SLOTS && s.used == |left|
    && (forall t | t in left :: left[t] > 0)
    && (forall k: nat {:trigger Holds(left, s.cursor, k, s.slots[k])} | k < SLOTS :: Holds(left, s.cursor, k, s.slots[k]))
  }

  /** The wheel stands for the countdowns `left`, and those counting down are the active timers. */
  ghost predicate Tracks(s: State, left: map<Tid, nat>) {
    WheelOk(s, left) && |s.timers| <= MAX_TIMER && forall t :: t in left <==> Active(s.timers, t)
  }

  /** Every countdown goes down by one; one that reaches zero starts again if periodic and ends otherwise. */
  ghost predicate CountedDown(timers: map<Tid, Timer>, left: map<Tid, nat>, left': map<Tid, nat>) {
    forall t: Tid ::
      && (t in left' <==> t in left && t in timers && (left[t] > 1 || timers[t].periodic))
      && (t in left' ==> left'[t] == if left[t] > 1 then left[t] - 1 else Delay(timers[t].period))
  }

  // ---- what can go wrong in a tick ----

  /** The entry's timer is put back, and into the very slot being visited. */
  predicate BackInSlot(timers: map<Tid, Timer>, e: Entry) {
    && e.timer in timers && timers[e.timer].active && timers[e.timer].periodic
    && timers[e.timer].period > 0 && timers[e.timer].period % SLOTS == 0
  }

  /** The list begins with expiring entries, and entry `i`, which is put back into this slot, is followed by another of them. */
  predicate ClobberedAt(timers: map<Tid, Timer>, l: seq<Entry>, i: int) {
    0 <= i < |l| - 1 && BackInSlot(timers, l[i]) && forall j | 0 <= j <= i + 1 :: l[j].rounds == 0
  }

  /** Unlinking an entry that has no predecessor cuts off what was put in front in the meantime. */
  predicate Clobbers(timers: map<Tid, Timer>, l: seq<Entry>) {
    exists i | 0 <= i < |l| :: ClobberedAt(timers, l, i)
  }

  /** Entry `i` is the first to expire, and its timer is periodic. */
  predicate PeriodicAt(timers: map<Tid, Timer>, l: seq<Entry>, i: int) {
    && 0 <= i < |l| && l[i].rounds == 0 && (forall j | 0 <= j < i :: l[j].rounds > 0)
    && l[i].timer in timers && timers[l[i].timer].active && timers[l[i].timer].periodic
  }

  predicate FirstIsPeriodic(timers: map<Tid, Timer>, l: seq<Entry>) {
    exists i | 0 <= i < |l| :: PeriodicAt(timers, l, i)
  }

  /** The tick loses a timer: one is cut off, or the pool is full when one asks for its second entry. */
  predicate Trouble(s: State)
    requires |s.slots| == SLOTS
  {
    var l := s.slots[(s.cursor + 1) % SLOTS];
    (s.used >= MAX_TIMER && FirstIsPeriodic(s.timers, l)) || Clobbers(s.timers, l)
  }

  // ---- the operations ----

  datatype Op =
    | TickOp
    | StartOp(t: Tid)
    | StopOp(t: Tid)
    | ChangeOp(t: Tid, period: nat)
    | CreateOp(t: Tid, period: nat, periodic: bool)
    | DeleteOp(t: Tid)

  predicate Enabled(s: State, op: Op) {
    match op
    case TickOp => true
    case CreateOp(t, _, _) => t !in s.timers && |s.timers| < MAX_TIMER
    case _ => op.t in s.timers
  }

  /** One call of the timer interface, or one tick. */
  function Apply(s: State, op: Op): (s': State)
    requires |s.slots| == SLOTS && Enabled(s, op)
    ensures |s'.slots| == SLOTS
  {
    match op
    case TickOp => Tick(s)
    case StartOp(t) => Insert(s.(timers := s.timers[t := s.timers[t].(active := true)]), t, s.timers[t].period)
    case StopOp(t) => Remove(s.(timers := s.timers[t := s.timers[t].(active := false)]), t)
    case ChangeOp(t, period) =>
      if period == 0 then s
      else
        var s1 := s.(timers := s.timers[t := s.timers[t].(period := period)]);
        if s.timers[t].active then Insert(s1, t, period) else s1
    case CreateOp(t, period, periodic) => s.(timers := s.timers[t := Timer(period, periodic, false)])
    case DeleteOp(t) => Remove(s.(timers := s.timers - {t}), t)
  }
}
