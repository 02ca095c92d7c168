/**
 * What the operations do to the records of the timers, and when a timer expires over a run:
 * a periodic one on every multiple of its period, a one-shot one once.
 */
module TimerRuns {
  import opened TimerSpec
  import opened TimerRefine

  // ---- the records ----

  /** An operation on one timer leaves the records of all others alone. */
  lemma OtherRecords(s: State, op: Op, u: Tid)
    requires |s.slots| == SLOTS && Enabled(s, op) && op != TickOp && u != op.t
    ensures u in Apply(s, op).timers <==> u in s.timers
    ensures u in s.timers ==> Apply(s, op).timers[u] == s.timers[u]
  {
  }

  /** A new timer is as asked for, and does not run. */
  lemma CreatedRecord(s: State, t: Tid, period: nat, periodic: bool)
    requires |s.slots| == SLOTS && Enabled(s, CreateOp(t, period, periodic))
    ensures var s' := Apply(s, CreateOp(t, period, periodic));
            && t in s'.timers && s'.timers[t].period == period && s'.timers[t].periodic == periodic && !s'.timers[t].active
            && s'.slots == s.slots
  {
  }

  /** Start and stop switch a timer on and off, and leave its period and its kind. */
  lemma SwitchedRecord(s: State, t: Tid)
    requires |s.slots| == SLOTS && t in s.timers
    ensures var x, y := Apply(s, StartOp(t)).timers, Apply(s, StopOp(t)).timers;
            && t in x && x[t].active && x[t].period == s.timers[t].period && x[t].periodic == s.timers[t].periodic
            && t in y && !y[t].active && y[t].period == s.timers[t].period && y[t].periodic == s.timers[t].periodic
  {
  }

  /** A change of period is stored, and nothing else of the timer changes; a period of zero is refused. */
  lemma ChangedRecord(s: State, t: Tid, period: nat)
    requires |s.slots| == SLOTS && t in s.timers
    ensures var x := Apply(s, ChangeOp(t, period)).timers;
            && t in x && x[t].active == s.timers[t].active && x[t].periodic == s.timers[t].periodic
            && (period > 0 ==> x[t].period == period)
    ensures period == 0 ==> Apply(s, ChangeOp(t, period)) == s
    ensures period > 0 && !s.timers[t].active ==> Apply(s, ChangeOp(t, period)).slots == s.slots
  {
  }

  lemma DeletedRecord(s: State, t: Tid)
    requires |s.slots| == SLOTS && t in s.timers
    ensures t !in Apply(s, DeleteOp(t)).timers
  {
  }

  lemma {:induction false} VisitsSameTimers(x: Scan, timers: map<Tid, Timer>)
    requires |x.s.slots| == SLOTS && SameTimers(timers, x.s.timers)
    ensures SameTimers(timers, VisitAll(x).s.timers)
    decreases |x.rest|
  {
    if x.rest != [] {
      StepSameTimers(x, timers);
      VisitsSameTimers(Visit(x), timers);
    }
  }

  /** A tick can only switch timers off: those that expire and are not periodic. */
  lemma TickRecords(s: State, left: map<Tid, nat>, t: Tid)
    requires Tracks(s, left) && !Trouble(s) && t in s.timers
    ensures var x := Tick(s).timers;
            && t in x && x[t].period == s.timers[t].period && x[t].periodic == s.timers[t].periodic
            && (x[t].active <==> s.timers[t].active && (s.timers[t].periodic || t !in Tick(s).posted))
  {
    VisitsSameTimers(StartScan(s), s.timers);
    TickRightIff(s, left);
    var left' :| Tracks(Tick(s), left') && CountedDown(s.timers, left, left');
    TickPosts(s, left, t);
    assert t in left' <==> Active(Tick(s).timers, t);
    assert t in left <==> Active(s.timers, t);
  }

  // ---- the beat of a periodic timer ----

  /** The ticks left after `n` ticks, for a timer of period `p` with `d` to go. */
  function Remaining(d: nat, p: nat, n: nat): nat
    decreases n
  {
    if n == 0 then d else Remaining(if d > 1 then d - 1 else p, p, n - 1)
  }

  lemma {:induction false} RemainingStep(d: nat, p: nat, n: nat)
    ensures var r := Remaining(d, p, n); Remaining(d, p, n + 1) == if r > 1 then r - 1 else p
    decreases n
  {
    if n > 0 { RemainingStep(if d > 1 then d - 1 else p, p, n - 1); }
  }

  /** The `n`-th tick is the `d`-th, or a whole number of periods later. */
  predicate OnBeat(n: nat, d: nat, p: nat)
    requires p > 0
    decreases n
  {
    n == d || (n >= d + p && OnBeat(n - p, d, p))
  }

  /** In particular, from period to period: the multiples of the period. */
  lemma {:induction false} OnBeatMultiple(n: nat, p: nat)
    requires p > 0
    ensures OnBeat(n, p, p) <==> n > 0 && n % p == 0
    decreases n
  {
    if n >= p {
      WholeTurns(n, p);
      if n >= p + p { OnBeatMultiple(n - p, p); } else { Divides(n - p, p, 0, n - p); }
    } else {
      Divides(n, p, 0, n);
    }
  }

  lemma WholeTurns(n: nat, p: nat)
    requires p > 0 && n >= p
    ensures n % p == 0 <==> (n - p) % p == 0
  {
    var q, r := (n - p) / p, (n - p) % p;
    assert n - p == q * p + r;
    assert n == (q + 1) * p + r;
    Divides(n, p, q + 1, r);
  }

  lemma Divides(n: nat, p: nat, q: nat, r: nat)
    requires p > 0 && n == q * p + r && r < p
    ensures n % p == r
  {
    var a, b := n / p, n % p;
    assert n == a * p + b;
    if a < q { Times(a + 1, q, p); }
    if q < a { Times(q + 1, a, p); }
  }

  lemma Times(a: nat, b: nat, p: nat)
    requires a <= b
    ensures a * p <= b * p
  {
  }

  /** One tick is left exactly before every `p`-th tick from the `d`-th on. */
  lemma {:induction false} RemainingOne(d: nat, p: nat, n: nat)
    requires d > 0 && p > 0
    ensures Remaining(d, p, n) == 1 <==> OnBeat(n + 1, d, p)
    decreases n
  {
    if n > 0 {
      if d > 1 {
        RemainingOne(d - 1, p, n - 1);
        SameBeat(n, d - 1, p);
      } else {
        RemainingOne(p, p, n - 1);
        FromFirst(n, p);
      }
    }
  }

  lemma {:induction false} SameBeat(n: nat, d: nat, p: nat)
    requires p > 0
    ensures OnBeat(n + 1, d + 1, p) <==> OnBeat(n, d, p)
    decreases n
  {
    if n >= d + p { SameBeat(n - p, d, p); }
  }

  /** Counting from tick 1 or from tick `p` of the same beat. */
  lemma {:induction false} FromFirst(n: nat, p: nat)
    requires n > 0 && p > 0
    ensures OnBeat(n + 1, 1, p) <==> OnBeat(n, p, p)
    decreases n
  {
    if n > p {
      FromFirst(n - p, p);
      assert OnBeat(n + 1, 1, p) <==> OnBeat(n - p + 1, 1, p);
    }
  }

  /** Timer `t` runs, again and again, with period `p`. */
  ghost predicate Beating(s: State, t: Tid, p: nat) {
    t in s.timers && s.timers[t] == Timer(p, true, true)
  }

  lemma {:induction false} OneBeat(s: State, left: map<Tid, nat>, op: Op, t: Tid, p: nat) returns (left': map<Tid, nat>)
    requires Tracks(s, left) && t in left && Beating(s, t, p) && 1 <= p <= SLOTS * ROUNDS
    requires Enabled(s, op) && (op == TickOp ==> !Trouble(s)) && (op != TickOp ==> op.t != t)
    ensures Tracks(Apply(s, op), left') && t in left' && Beating(Apply(s, op), t, p)
    ensures left'[t] == if op != TickOp then left[t] else if left[t] > 1 then left[t] - 1 else p
  {
    left' := ApplyTracks(s, left, op);
    DelayExact(p);
    if op == TickOp { TickRecords(s, left, t); } else { OtherRecords(s, op, t); }
  }

  /** Over any run that leaves it alone, a periodic timer counts down from its period again and again. */
  lemma {:induction false} KeepsBeat(s: State, left: map<Tid, nat>, ops: seq<Op>, t: Tid, p: nat) returns (left': map<Tid, nat>)
    requires Tracks(s, left) && t in left && Beating(s, t, p) && 1 <= p <= SLOTS * ROUNDS
    requires Smooth(s, ops) && Untouched(ops, t)
    ensures Tracks(After(s, ops), left') && t in left' && left'[t] == Remaining(left[t], p, Ticks(ops))
    decreases |ops|
  {
    if ops == [] {
      left' := left;
    } else {
      assert ops[0] != TickOp ==> ops[0].t != t;
      var left1 := OneBeat(s, left, ops[0], t, p);
      left' := KeepsBeat(Apply(s, ops[0]), left1, ops[1..], t, p);
    }
  }

  /** After the run one tick is left iff the next one is on the beat. */
  lemma {:induction false} BeatNext(s: State, left: map<Tid, nat>, ops: seq<Op>, t: Tid, p: nat) returns (left': map<Tid, nat>)
    requires Tracks(s, left) && t in left && Beating(s, t, p) && 1 <= p <= SLOTS * ROUNDS
    requires Smooth(s, ops) && Untouched(ops, t)
    ensures Tracks(After(s, ops), left') && t in left'
    ensures left'[t] == 1 <==> OnBeat(Ticks(ops) + 1, left[t], p)
  {
    left' := KeepsBeat(s, left, ops, t, p);
    RemainingOne(left[t], p, Ticks(ops));
  }

  /** It is posted on the tick its countdown says and on every `p`-th tick from then on, and on no other. */
  lemma {:induction false} BeatsEvery(s: State, left: map<Tid, nat>, ops: seq<Op>, t: Tid, p: nat)
    requires Tracks(s, left) && t in left && Beating(s, t, p) && 1 <= p <= SLOTS * ROUNDS
    requires Smooth(s, ops) && Untouched(ops, t)
    ensures t in Tick(After(s, ops)).posted <==> OnBeat(Ticks(ops) + 1, left[t], p)
  {
    var left' := BeatNext(s, left, ops, t, p);
    TickPosts(After(s, ops), left', t);
  }

  /** A started periodic timer is posted on every multiple of its period, counted from the start. */
  lemma {:induction false} StartedBeats(s: State, left: map<Tid, nat>, t: Tid, ops: seq<Op>)
    requires Tracks(s, left) && t in s.timers && s.timers[t].periodic && 1 <= s.timers[t].period <= SLOTS * ROUNDS
    requires Smooth(Apply(s, StartOp(t)), ops) && Untouched(ops, t)
    ensures t in Tick(After(Apply(s, StartOp(t)), ops)).posted <==> OnBeat(Ticks(ops) + 1, s.timers[t].period, s.timers[t].period)
  {
    var p := s.timers[t].period;
    StartTracks(s, left, t);
    SwitchedRecord(s, t);
    DelayExact(p);
    BeatsEvery(Apply(s, StartOp(t)), left[t := p], ops, t, p);
  }

  /** A running periodic timer changed to period `p` is posted on every multiple of `p`, counted from the change. */
  lemma {:induction false} ChangedBeats(s: State, left: map<Tid, nat>, t: Tid, p: nat, ops: seq<Op>)
    requires Tracks(s, left) && t in left && t in s.timers && s.timers[t].periodic && 1 <= p <= SLOTS * ROUNDS
    requires Smooth(Apply(s, ChangeOp(t, p)), ops) && Untouched(ops, t)
    ensures t in Tick(After(Apply(s, ChangeOp(t, p)), ops)).posted <==> OnBeat(Ticks(ops) + 1, p, p)
  {
    ChangeTracks(s, left, t, p);
    ChangedRecord(s, t, p);
    DelayExact(p);
    BeatsEvery(Apply(s, ChangeOp(t, p)), left[t := p], ops, t, p);
  }

  /** A running timer of either kind, changed to period `p`, is posted on the p-th following tick and on none before. */
  lemma {:induction false} ChangedOnTime(s: State, left: map<Tid, nat>, t: Tid, p: nat, ops: seq<Op>)
    requires Tracks(s, left) && t in left && t in s.timers && 1 <= p <= SLOTS * ROUNDS
    requires Smooth(Apply(s, ChangeOp(t, p)), ops) && Untouched(ops, t) && Ticks(ops) == p - 1
    ensures Silent(Apply(s, ChangeOp(t, p)), ops, t) && t in Tick(After(Apply(s, ChangeOp(t, p)), ops)).posted
  {
    ChangeTracks(s, left, t, p);
    DelayExact(p);
    DueOnTime(Apply(s, ChangeOp(t, p)), left[t := Delay(p)], t, ops);
  }

  /** A stopped timer changed to period `p` waits, and once started is posted on the p-th tick. */
  lemma {:induction false} ChangedThenStarted(s: State, left: map<Tid, nat>, t: Tid, p: nat, ops: seq<Op>)
    requires Tracks(s, left) && t in s.timers && t !in left && 1 <= p <= SLOTS * ROUNDS
    requires var s1 := Apply(s, ChangeOp(t, p)); t in s1.timers && Smooth(Apply(s1, StartOp(t)), ops)
    requires Untouched(ops, t) && Ticks(ops) == p - 1
    ensures var s2 := Apply(Apply(s, ChangeOp(t, p)), StartOp(t));
            Silent(s2, ops, t) && t in Tick(After(s2, ops)).posted
  {
    ChangeTracks(s, left, t, p);
    ChangedRecord(s, t, p);
    ExpiresOnTime(Apply(s, ChangeOp(t, p)), left, t, ops);
  }

  // ---- a one-shot timer ----

  /** A timer that does not run is not posted until somebody starts it. */
  lemma {:induction false} StaysSilent(s: State, left: map<Tid, nat>, ops: seq<Op>, t: Tid)
    requires Tracks(s, left) && t !in left && Smooth(s, ops) && Untouched(ops, t)
    ensures Silent(s, ops, t)
    decreases |ops|
  {
    if ops != [] {
      var left1 := ApplyTracks(s, left, ops[0]);
      if ops[0] == TickOp { TickPosts(s, left, t); }
      assert ops[0] != TickOp ==> ops[0].t != t;
      StaysSilent(Apply(s, ops[0]), left1, ops[1..], t);
    }
  }

  /** A one-shot timer is posted once: after the tick that posts it it does not run, and is not posted again. */
  lemma {:induction false} OneShotOnce(s: State, left: map<Tid, nat>, t: Tid, ops: seq<Op>)
    requires Tracks(s, left) && !Trouble(s) && t in left && left[t] == 1 && t in s.timers && !s.timers[t].periodic
    requires Smooth(Tick(s), ops) && Untouched(ops, t)
    ensures t in Tick(s).posted && t in Tick(s).timers && !Tick(s).timers[t].active && Silent(Tick(s), ops, t)
  {
    TickPosts(s, left, t);
    TickRecords(s, left, t);
    var left1 := ApplyTracks(s, left, TickOp);
    StaysSilent(Tick(s), left1, ops, t);
  }
}
