/**
 * Blocking with a time limit, kernel/scheduler.c: the delay list, the wait queues of the
 * kernel objects, and the tick handler that gives up on behalf of those whose time has come.
 */
module DelaySpec {
  import opened WaitQueue
  import opened Wrappers
  import L = KernelList

  type Qid = nat

  /** `tick_t` has 64 bits; its largest value, portMAX_DELAY, means no limit (None). */
  const TICKS: nat := 0x1_0000_0000_0000_0000

  /** `limited` says whether the wait has a time limit; the code knows it by the links of the delay list. */
  datatype Task = Task(blocked: bool, waitQ: Option<Qid>, limited: bool, wakeTick: nat, wakeOk: bool)

  datatype State = State(prio: map<Tid, nat>, tasks: map<Tid, Task>, queues: map<Qid, seq<Tid>>, delayed: seq<Tid>, now: nat)

  // ---- the steps ----

  function Wakes(tasks: map<Tid, Task>, q: seq<Tid>): (k: seq<nat>)
    requires forall t | t in q :: t in tasks
    ensures |k| == |q| && forall i | 0 <= i < |q| :: k[i] == tasks[q[i]].wakeTick
  {
    if q == [] then [] else [tasks[q[0]].wakeTick] + Wakes(tasks, q[1..])
  }

  /** `sched_delayed_insert`, into the list of the others. */
  function Delay(tasks: map<Tid, Task>, q: seq<Tid>, t: Tid): seq<Tid>
    requires t in tasks && forall u | u in q :: u in tasks
  {
    L.Inserted(q, L.PlaceBehind(Wakes(tasks, q), tasks[t].wakeTick), t)
  }

  /** The sum of two ticks, in 64 bits. */
  function WakeAt(now: nat, limit: nat): nat {
    if now + limit < TICKS then now + limit else now + limit - TICKS
  }

  /** `block_current_on_waitq`, or `cgrtos_delay` when there is no queue; `limit` is the timeout. */
  ghost function Block(s: State, t: Tid, q: Option<Qid>, limit: Option<nat>): State
    requires Sound(s) && t in s.tasks && !s.tasks[t].blocked && (q.Some? ==> q.value in s.queues)
  {
    var wake := if limit.Some? then WakeAt(s.now, limit.value) else 0;
    var tasks := s.tasks[t := s.tasks[t].(blocked := true, waitQ := q, limited := limit.Some?, wakeTick := wake)];
    QueuesKnown(s);
    s.(tasks := tasks,
       delayed := if limit.Some? then Delay(tasks, s.delayed, t) else s.delayed,
       queues := if q.Some? then s.queues[q.value := Joined(s.prio, s.queues[q.value], t)] else s.queues)
  }

  /** `cgrtos_sched_unblock` of a task that is in no queue any more. */
  function Unblock(s: State, t: Tid, ok: bool): State
    requires t in s.tasks
  {
    s.(tasks := s.tasks[t := Task(false, None, false, 0, ok)], delayed := Removed(s.delayed, t))
  }

  /** An object gives its first waiter what it waits for. */
  ghost function Signal(s: State, q: Qid): State
    requires Sound(s) && q in s.queues && s.queues[q] != []
  {
    assert s.queues[q][0] in s.queues[q] && QueueOk(s, q);
    Unblock(s.(queues := s.queues[q := s.queues[q][1..]]), s.queues[q][0], true)
  }

  /** The first task of the delay list times out: out of the queue it waits in, `wake_ok = 0`. */
  function GiveUp(s: State): State
    requires s.delayed != [] && s.delayed[0] in s.tasks
  {
    Unblock(s.(queues := QueuesWithout(s, s.delayed[0])), s.delayed[0], false)
  }

  /** The loop of `sched_process_delayed_tasks`. */
  ghost function Expire(s: State): State
    requires Sound(s)
    decreases |s.delayed|
  {
    if s.delayed == [] || s.tasks[s.delayed[0]].wakeTick > s.now then s
    else
      GiveUpSound(s);
      Expire(GiveUp(s))
  }

  ghost function Tick(s: State): State
    requires Sound(s)
  {
    LaterSound(s, s.now + 1);
    Expire(s.(now := s.now + 1))
  }

  // ---- the invariant ----

  ghost predicate QueueOk(s: State, q: Qid)
    requires q in s.queues
  {
    NoDup(s.queues[q]) && forall t :: t in s.queues[q] <==> t in s.tasks && s.tasks[t].blocked && s.tasks[t].waitQ == Some(q)
  }

  ghost predicate NoLater(tasks: map<Tid, Task>, t: Tid, u: Tid) {
    t in tasks && u in tasks && tasks[t].wakeTick <= tasks[u].wakeTick
  }

  ghost predicate ByWake(tasks: map<Tid, Task>, q: seq<Tid>) {
    forall i, j | 0 <= i < j < |q| :: NoLater(tasks, q[i], q[j])
  }

  /** The delay list holds exactly the tasks blocked with a limit, sorted by wake-up time; a queue holds exactly the tasks blocked in it. */
  ghost predicate Sound(s: State) {
    && s.prio.Keys == s.tasks.Keys
    && NoDup(s.delayed) && (forall t :: t in s.delayed <==> t in s.tasks && s.tasks[t].blocked && s.tasks[t].limited)
    && ByWake(s.tasks, s.delayed)
    && (forall q {:trigger QueueOk(s, q)} | q in s.queues :: QueueOk(s, q))
    && (forall t | t in s.tasks && s.tasks[t].blocked && s.tasks[t].waitQ.Some? :: s.tasks[t].waitQ.value in s.queues)
  }

  lemma QueuesKnown(s: State)
    requires Sound(s)
    ensures forall q, t | q in s.queues && t in s.queues[q] :: t in s.prio
  {
    forall q, t | q in s.queues && t in s.queues[q]
      ensures t in s.prio
    {
      assert QueueOk(s, q);
    }
  }

  lemma LaterSound(s: State, now: nat)
    requires Sound(s)
    ensures Sound(s.(now := now))
  {
    forall q | q in s.queues
      ensures QueueOk(s.(now := now), q)
    {
      assert QueueOk(s, q);
    }
  }

  lemma DelayPairs(tasks: map<Tid, Task>, q: seq<Tid>, t: Tid, k: nat)
    requires k <= |q| && NoDup(q) && ByWake(tasks, q) && t in tasks
    requires forall i | 0 <= i < |q| ::
      q[i] != t && if i < k then NoLater(tasks, q[i], t) else NoLater(tasks, t, q[i])
    ensures NoDup(L.Inserted(q, k, t)) && ByWake(tasks, L.Inserted(q, k, t))
  {
    var r := L.Inserted(q, k, t);
    forall i, j | 0 <= i < j < |r|
      ensures r[i] != r[j] && NoLater(tasks, r[i], r[j])
    {
      if i != k { assert r[i] == q[if i < k then i else i - 1]; }
      if j != k { assert r[j] == q[if j < k then j else j - 1]; }
    }
  }

  /** A newcomer goes behind everyone who wakes no later. */
  lemma DelayKeepsOrder(tasks: map<Tid, Task>, q: seq<Tid>, t: Tid)
    requires NoDup(q) && ByWake(tasks, q) && t in tasks && t !in q && forall u | u in q :: u in tasks
    ensures var r := Delay(tasks, q, t);
            NoDup(r) && ByWake(tasks, r) && forall u :: u in r <==> u == t || u in q
  {
    var keys := Wakes(tasks, q);
    var k := L.PlaceBehind(keys, tasks[t].wakeTick);
    assert q == q[..k] + q[k..];
    forall i | 0 <= i < |q|
      ensures q[i] != t && if i < k then NoLater(tasks, q[i], t) else NoLater(tasks, t, q[i])
    {
      assert q[i] in q && keys[i] == tasks[q[i]].wakeTick;
      if k < i { assert NoLater(tasks, q[k], q[i]) && keys[k] == tasks[q[k]].wakeTick; }
    }
    DelayPairs(tasks, q, t, k);
  }

  lemma RemovedByWake(tasks: map<Tid, Task>, q: seq<Tid>, t: Tid, x: Task)
    requires ByWake(tasks, q) && NoDup(q) && (forall u | u in q :: u in tasks)
    ensures ByWake(tasks[t := x], Removed(q, t))
  {
    RemovedContent(q, t);
    var r := Removed(q, t);
    if t in q {
      RemovedStillByWake(tasks, q, t);
    }
    forall i, j | 0 <= i < j < |r|
      ensures NoLater(tasks[t := x], r[i], r[j])
    {
      assert NoLater(tasks, r[i], r[j]) && r[i] in r && r[j] in r;
    }
  }

  lemma RemovedStillByWake(tasks: map<Tid, Task>, q: seq<Tid>, t: Tid)
    requires ByWake(tasks, q) && t in q
    ensures ByWake(tasks, Removed(q, t))
  {
    var k := RemovedAt(q, t);
    var r := Removed(q, t);
    forall i, j | 0 <= i < j < |r|
      ensures NoLater(tasks, r[i], r[j])
    {
      var a, b := if i < k then i else i + 1, if j < k then j else j + 1;
      assert r[i] == q[a] && r[j] == q[b] && NoLater(tasks, q[a], q[b]);
    }
  }

  /** Task `t` is in none of the queues `qs`, which are otherwise those of `s`. */
  ghost predicate Left(s: State, qs: map<Qid, seq<Tid>>, t: Tid) {
    && qs.Keys == s.queues.Keys
    && forall q | q in qs :: q in s.queues && NoDup(qs[q]) && forall u :: u in qs[q] <==> u in s.queues[q] && u != t
  }

  lemma LeaveSound(s: State, qs: map<Qid, seq<Tid>>, t: Tid, ok: bool)
    requires Sound(s) && t in s.tasks && Left(s, qs, t)
    ensures Sound(Unblock(s.(queues := qs), t, ok))
  {
    var s' := Unblock(s.(queues := qs), t, ok);
    RemovedContent(s.delayed, t);
    RemovedByWake(s.tasks, s.delayed, t, s'.tasks[t]);
    forall q | q in s'.queues
      ensures QueueOk(s', q)
    {
      assert QueueOk(s, q);
    }
  }

  lemma SignalLeaves(s: State, q: Qid)
    requires Sound(s) && q in s.queues && s.queues[q] != []
    ensures var t := s.queues[q][0]; t in s.tasks && s.tasks[t].blocked && Left(s, s.queues[q := s.queues[q][1..]], t)
  {
    var t, qs := s.queues[q][0], s.queues[q := s.queues[q][1..]];
    assert QueueOk(s, q) && t in s.queues[q];
    assert s.queues[q] == [t] + s.queues[q][1..];
    forall r | r in qs
      ensures r in s.queues && NoDup(qs[r]) && forall u :: u in qs[r] <==> u in s.queues[r] && u != t
    {
      assert QueueOk(s, r);
    }
  }

  lemma SignalSound(s: State, q: Qid)
    requires Sound(s) && q in s.queues && s.queues[q] != []
    ensures Sound(Signal(s, q))
  {
    SignalLeaves(s, q);
    LeaveSound(s, s.queues[q := s.queues[q][1..]], s.queues[q][0], true);
  }

  /** The queues without the task that times out. */
  function QueuesWithout(s: State, t: Tid): map<Qid, seq<Tid>>
    requires t in s.tasks
  {
    var w := s.tasks[t].waitQ;
    if w.Some? && w.value in s.queues then s.queues[w.value := Removed(s.queues[w.value], t)] else s.queues
  }

  lemma GiveUpLeaves(s: State)
    requires Sound(s) && s.delayed != []
    ensures s.delayed[0] in s.delayed && s.delayed[0] in s.tasks && Left(s, QueuesWithout(s, s.delayed[0]), s.delayed[0])
  {
    var t := s.delayed[0];
    assert t in s.delayed;
    var qs := QueuesWithout(s, t);
    forall r | r in qs
      ensures r in s.queues && NoDup(qs[r]) && forall u :: u in qs[r] <==> u in s.queues[r] && u != t
    {
      assert QueueOk(s, r);
      RemovedContent(s.queues[r], t);
    }
  }

  lemma GiveUpSound(s: State)
    requires Sound(s) && s.delayed != []
    ensures s.delayed[0] in s.tasks && Sound(GiveUp(s)) && |GiveUp(s).delayed| < |s.delayed|
  {
    GiveUpLeaves(s);
    LeaveSound(s, QueuesWithout(s, s.delayed[0]), s.delayed[0], false);
    var k := RemovedAt(s.delayed, s.delayed[0]);
  }

  lemma BlockDelays(s: State, t: Tid, x: Task)
    requires Sound(s) && t in s.tasks && !s.tasks[t].blocked && x.blocked
    ensures var tasks := s.tasks[t := x];
            && (forall u | u in s.delayed :: u in tasks) && ByWake(tasks, s.delayed)
            && var r := if x.limited then Delay(tasks, s.delayed, t) else s.delayed;
            && NoDup(r) && ByWake(tasks, r) && (forall u :: u in r <==> u in tasks && tasks[u].blocked && tasks[u].limited)
  {
    var tasks := s.tasks[t := x];
    forall i, j | 0 <= i < j < |s.delayed|
      ensures NoLater(tasks, s.delayed[i], s.delayed[j])
    {
      assert NoLater(s.tasks, s.delayed[i], s.delayed[j]) && s.delayed[i] in s.delayed && s.delayed[j] in s.delayed;
    }
    if x.limited { DelayKeepsOrder(tasks, s.delayed, t); }
  }

  lemma BlockQueues(s: State, t: Tid, x: Task, r: Qid, l: seq<Tid>)
    requires Sound(s) && t in s.tasks && !s.tasks[t].blocked && x.blocked && r in s.queues && (forall u | u in s.queues[r] :: u in s.prio)
    requires l == if x.waitQ == Some(r) then Joined(s.prio, s.queues[r], t) else s.queues[r]
    ensures NoDup(l) && forall u :: u in l <==> u in s.tasks[t := x] && s.tasks[t := x][u].blocked && s.tasks[t := x][u].waitQ == Some(r)
  {
    assert QueueOk(s, r);
    if x.waitQ == Some(r) { JoinedContent(s.prio, s.queues[r], t); }
  }

  lemma BlockedSound(s: State, s': State, t: Tid, x: Task)
    requires Sound(s) && t in s.tasks && !s.tasks[t].blocked && x.blocked && (x.waitQ.Some? ==> x.waitQ.value in s.queues)
    requires s'.prio == s.prio && s'.tasks == s.tasks[t := x] && s'.queues.Keys == s.queues.Keys
    requires forall u | u in s.delayed :: u in s'.tasks
    requires s'.delayed == if x.limited then Delay(s'.tasks, s.delayed, t) else s.delayed
    requires forall r | r in s.queues :: forall u | u in s.queues[r] :: u in s.prio
    requires forall r | r in s.queues :: s'.queues[r] == if x.waitQ == Some(r) then Joined(s.prio, s.queues[r], t) else s.queues[r]
    ensures Sound(s')
  {
    BlockDelays(s, t, x);
    forall r | r in s'.queues
      ensures QueueOk(s', r)
    {
      BlockQueues(s, t, x, r, s'.queues[r]);
    }
  }

  lemma BlockSound(s: State, t: Tid, q: Option<Qid>, limit: Option<nat>)
    requires Sound(s) && t in s.tasks && !s.tasks[t].blocked && (q.Some? ==> q.value in s.queues)
    ensures Sound(Block(s, t, q, limit))
  {
    QueuesKnown(s);
    var s' := Block(s, t, q, limit);
    BlockedSound(s, s', t, s'.tasks[t]);
  }

  // ---- what a tick does ----

  lemma {:induction false} ExpireSound(s: State)
    requires Sound(s)
    ensures Sound(Expire(s)) && Expire(s).now == s.now
    decreases |s.delayed|
  {
    if s.delayed != [] && s.tasks[s.delayed[0]].wakeTick <= s.now {
      GiveUpSound(s);
      ExpireSound(GiveUp(s));
    }
  }

  /** Task `t` has been given up on: running, told that it failed, and in no list. */
  ghost predicate TimedOut(s: State, t: Tid) {
    && t in s.tasks && !s.tasks[t].blocked && !s.tasks[t].wakeOk && t !in s.delayed
    && forall q | q in s.queues :: t !in s.queues[q]
  }

  lemma {:induction false} ExpireExactly(s: State, t: Tid)
    requires Sound(s) && t in s.tasks
    ensures var s' := Expire(s);
            && Sound(s') && s'.now == s.now && s'.tasks.Keys == s.tasks.Keys && s'.queues.Keys == s.queues.Keys
            && (if t in s.delayed && s.tasks[t].wakeTick <= s.now then TimedOut(s', t) else s'.tasks[t] == s.tasks[t])
    decreases |s.delayed|
  {
    if s.delayed != [] && s.tasks[s.delayed[0]].wakeTick <= s.now {
      GiveUpLeaves(s);
      GiveUpSound(s);
      RemovedContent(s.delayed, s.delayed[0]);
      var s1 := GiveUp(s);
      ExpireExactly(s1, t);
      if t == s.delayed[0] {
        NotBlockedNowhere(Expire(s1), t);
      }
    } else if t in s.delayed {
      HeadWakesFirst(s, t);
    }
  }

  lemma HeadWakesFirst(s: State, t: Tid)
    requires Sound(s) && t in s.delayed
    ensures s.delayed[0] in s.tasks && s.tasks[s.delayed[0]].wakeTick <= s.tasks[t].wakeTick
  {
    assert s.delayed[0] in s.delayed;
    var i :| 0 <= i < |s.delayed| && s.delayed[i] == t;
    if i > 0 { assert NoLater(s.tasks, s.delayed[0], s.delayed[i]); }
  }

  lemma NotBlockedNowhere(s: State, t: Tid)
    requires Sound(s) && t in s.tasks && !s.tasks[t].blocked
    ensures t !in s.delayed && forall q | q in s.queues :: t !in s.queues[q]
  {
    forall q | q in s.queues
      ensures t !in s.queues[q]
    {
      assert QueueOk(s, q);
    }
  }

  // ---- runs ----

  datatype Op = BlockOp(t: Tid, waitQ: Option<Qid>, limit: Option<nat>) | SignalOp(q: Qid) | TickOp

  ghost predicate Enabled(s: State, op: Op) {
    match op
    case BlockOp(t, q, limit) =>
      && t in s.tasks && !s.tasks[t].blocked && (q.Some? ==> q.value in s.queues)
      && (limit.Some? ==> limit.value < TICKS - 1 && s.now < TICKS)
    case SignalOp(q) => q in s.queues && s.queues[q] != []
    case TickOp => true
  }

  ghost function Apply(s: State, op: Op): State
    requires Sound(s) && Enabled(s, op)
  {
    match op
    case BlockOp(t, q, limit) => Block(s, t, q, limit)
    case SignalOp(q) => Signal(s, q)
    case TickOp => Tick(s)
  }

  lemma ApplySound(s: State, op: Op)
    requires Sound(s) && Enabled(s, op)
    ensures Sound(Apply(s, op))
  {
    match op {
      case BlockOp(t, q, limit) => BlockSound(s, t, q, limit);
      case SignalOp(q) => SignalSound(s, q);
      case TickOp =>
        LaterSound(s, s.now + 1);
        ExpireSound(s.(now := s.now + 1));
    }
  }

  /** The operations can be applied one after the other, and none of them signals `t`. */
  ghost predicate Spares(s: State, ops: seq<Op>, t: Tid)
    requires Sound(s)
    decreases |ops|
  {
    ops == [] || (
      && Enabled(s, ops[0]) && (ops[0].SignalOp? ==> s.queues[ops[0].q][0] != t)
      && (ApplySound(s, ops[0]); Spares(Apply(s, ops[0]), ops[1..], t)))
  }

  ghost function After(s: State, ops: seq<Op>, t: Tid): (s': State)
    requires Sound(s) && Spares(s, ops, t)
    ensures Sound(s')
    decreases |ops|
  {
    if ops == [] then s
    else
      ApplySound(s, ops[0]);
      After(Apply(s, ops[0]), ops[1..], t)
  }

  function Ticks(ops: seq<Op>): nat {
    if ops == [] then 0 else (if ops[0] == TickOp then 1 else 0) + Ticks(ops[1..])
  }

  /** Task `t` sleeps, to be woken by the tick handler at `wake` at the latest. */
  ghost predicate SleepsUntil(s: State, t: Tid, wake: nat) {
    Sound(s) && t in s.tasks && s.tasks[t].blocked && s.tasks[t].limited && s.tasks[t].wakeTick == wake
  }

  lemma OthersSleepOn(s: State, op: Op, t: Tid, wake: nat)
    requires SleepsUntil(s, t, wake) && Enabled(s, op) && (op.SignalOp? ==> s.queues[op.q][0] != t)
    requires op == TickOp ==> s.now + 1 < wake
    ensures SleepsUntil(Apply(s, op), t, wake) && Apply(s, op).now == s.now + if op == TickOp then 1 else 0
  {
    ApplySound(s, op);
    if op == TickOp { TickSpares(s, t); }
  }

  lemma TickSpares(s: State, t: Tid)
    requires Sound(s) && t in s.tasks && s.now + 1 < s.tasks[t].wakeTick
    ensures t in Tick(s).tasks && Tick(s).tasks[t] == s.tasks[t] && Tick(s).now == s.now + 1
  {
    LaterSound(s, s.now + 1);
    ExpireSound(s.(now := s.now + 1));
    ExpireExactly(s.(now := s.now + 1), t);
  }

  lemma {:induction false} SleepsOn(s: State, ops: seq<Op>, t: Tid, wake: nat)
    requires SleepsUntil(s, t, wake) && Spares(s, ops, t) && s.now + Ticks(ops) < wake
    ensures SleepsUntil(After(s, ops, t), t, wake) && After(s, ops, t).now == s.now + Ticks(ops)
    decreases |ops|
  {
    if ops != [] {
      OthersSleepOn(s, ops[0], t, wake);
      SleepsOn(Apply(s, ops[0]), ops[1..], t, wake);
    }
  }

  lemma TickWakes(s: State, t: Tid, wake: nat)
    requires SleepsUntil(s, t, wake) && s.now + 1 >= wake
    ensures TimedOut(Tick(s), t)
  {
    LaterSound(s, s.now + 1);
    ExpireExactly(s.(now := s.now + 1), t);
  }

  lemma BlockSleeps(s: State, t: Tid, q: Option<Qid>, n: nat)
    requires Sound(s) && Enabled(s, BlockOp(t, q, Some(n)))
    ensures SleepsUntil(Block(s, t, q, Some(n)), t, WakeAt(s.now, n)) && Block(s, t, q, Some(n)).now == s.now
  {
    BlockSound(s, t, q, Some(n));
  }

  /** A sleeping task that is not signalled sleeps through the ticks before `wake` and is given up on in the handler of that tick. */
  lemma SleepEnds(s: State, t: Tid, wake: nat, ops: seq<Op>)
    requires SleepsUntil(s, t, wake) && s.now < wake && Spares(s, ops, t)
    ensures Ticks(ops) < wake - s.now ==> SleepsUntil(After(s, ops, t), t, wake)
    ensures Ticks(ops) == wake - s.now - 1 ==> TimedOut(Tick(After(s, ops, t)), t)
  {
    if Ticks(ops) < wake - s.now {
      SleepsOn(s, ops, t, wake);
      if Ticks(ops) == wake - s.now - 1 { TickWakes(After(s, ops, t), t, wake); }
    }
  }

  /** A task that blocks at tick T with limit n is given up on in tick T + n and not before, provided that number fits a tick. */
  lemma LimitExact(s: State, t: Tid, q: Option<Qid>, n: nat, s1: State, ops: seq<Op>)
    requires Sound(s) && Enabled(s, BlockOp(t, q, Some(n))) && 1 <= n && s.now + n < TICKS
    requires s1 == Apply(s, BlockOp(t, q, Some(n))) && Sound(s1) && Spares(s1, ops, t)
    ensures Ticks(ops) < n ==> SleepsUntil(After(s1, ops, t), t, s.now + n)
    ensures Ticks(ops) == n - 1 ==> TimedOut(Tick(After(s1, ops, t)), t)
  {
    BlockSleeps(s, t, q, n);
    SleepEnds(s1, t, s.now + n, ops);
  }

  /** A limit that takes the sum past 64 bits ends the wait at once: the first tick gives up. */
  lemma LimitWraps(s: State, t: Tid, q: Option<Qid>, n: nat, s1: State)
    requires Sound(s) && Enabled(s, BlockOp(t, q, Some(n))) && TICKS <= s.now + n
    requires s1 == Apply(s, BlockOp(t, q, Some(n)))
    ensures Sound(s1) && TimedOut(Tick(s1), t)
  {
    BlockSleeps(s, t, q, n);
    TickWakes(s1, t, s.now + n - TICKS);
  }

  /** A signalled task runs again, told that it succeeded, and is in no list any more. */
  lemma SignalWakes(s: State, q: Qid)
    requires Sound(s) && q in s.queues && s.queues[q] != []
    ensures var s', t := Signal(s, q), s.queues[q][0];
            && t in s.tasks && s.tasks[t].blocked && t in s'.tasks && !s'.tasks[t].blocked && s'.tasks[t].wakeOk
            && t !in s'.delayed && forall r | r in s'.queues :: t !in s'.queues[r]
  {
    SignalLeaves(s, q);
    SignalSound(s, q);
    NotBlockedNowhere(Signal(s, q), s.queues[q][0]);
  }

  /** A task blocked without a limit is never given up on. */
  lemma NoLimitNoTimeout(s: State, op: Op, t: Tid)
    requires Sound(s) && t in s.tasks && s.tasks[t].blocked && !s.tasks[t].limited
    requires Enabled(s, op) && (op.SignalOp? ==> s.queues[op.q][0] != t)
    ensures t in Apply(s, op).tasks && Apply(s, op).tasks[t] == s.tasks[t]
  {
    if op == TickOp {
      LaterSound(s, s.now + 1);
      ExpireExactly(s.(now := s.now + 1), t);
    }
  }

  // ---- what each step does to the tasks and the lists ----

  /** Who waits longer than whom is recorded in `since`; `clock` is later than all of it. */
  ghost predicate QueueInOrder(s: State, since: map<Tid, nat>, clock: nat, q: Qid)
    requires q in s.queues
  {
    InOrder(s.prio, since, s.queues[q]) && forall t | t in s.queues[q] :: t in since && since[t] < clock
  }

  /** Every wait queue is in order: highest priority first, first come first among equals. */
  ghost predicate QueuesInOrder(s: State, since: map<Tid, nat>, clock: nat) {
    forall q {:trigger QueueInOrder(s, since, clock, q)} | q in s.queues :: QueueInOrder(s, since, clock, q)
  }

  lemma BlockInOrder(s: State, t: Tid, q: Option<Qid>, limit: Option<nat>, since: map<Tid, nat>, clock: nat)
    requires Sound(s) && QueuesInOrder(s, since, clock)
    requires t in s.tasks && !s.tasks[t].blocked && (q.Some? ==> q.value in s.queues)
    ensures QueuesInOrder(Block(s, t, q, limit), since[t := clock], clock + 1)
  {
    var s' := Block(s, t, q, limit);
    QueuesKnown(s);
    NotBlockedNowhere(s, t);
    forall r | r in s'.queues
      ensures QueueInOrder(s', since[t := clock], clock + 1, r)
    {
      assert QueueInOrder(s, since, clock, r) && QueueOk(s, r);
      if q == Some(r) {
        JoinedInOrder(s.prio, since, s.queues[r], t, clock);
      } else {
        LaterArrival(s.prio, since, s.queues[r], t, clock);
      }
    }
  }

  lemma LaterArrival(prio: map<Tid, nat>, since: map<Tid, nat>, q: seq<Tid>, t: Tid, clock: nat)
    requires InOrder(prio, since, q) && t !in q
    ensures InOrder(prio, since[t := clock], q)
  {
    forall i, j | 0 <= i < j < |q|
      ensures Precedes(prio, since[t := clock], q[i], q[j])
    {
      assert Precedes(prio, since, q[i], q[j]) && q[i] in q && q[j] in q;
    }
  }

  lemma SignalInOrder(s: State, q: Qid, since: map<Tid, nat>, clock: nat)
    requires Sound(s) && QueuesInOrder(s, since, clock) && q in s.queues && s.queues[q] != []
    ensures QueuesInOrder(Signal(s, q), since, clock)
  {
    var s' := Signal(s, q);
    forall r | r in s'.queues
      ensures QueueInOrder(s', since, clock, r)
    {
      assert QueueInOrder(s, since, clock, r);
      if r == q {
        var l := s.queues[q];
        forall i, j | 0 <= i < j < |l[1..]|
          ensures Precedes(s.prio, since, l[1..][i], l[1..][j])
        {
          assert Precedes(s.prio, since, l[i + 1], l[j + 1]);
        }
      }
    }
  }

  lemma GiveUpInOrder(s: State, since: map<Tid, nat>, clock: nat)
    requires Sound(s) && QueuesInOrder(s, since, clock) && s.delayed != [] && s.delayed[0] in s.tasks
    ensures QueuesInOrder(GiveUp(s), since, clock)
  {
    var s', t := GiveUp(s), s.delayed[0];
    forall r | r in s'.queues
      ensures QueueInOrder(s', since, clock, r)
    {
      assert QueueInOrder(s, since, clock, r) && QueueOk(s, r);
      RemovedContent(s.queues[r], t);
      if t in s.queues[r] { RemovedInOrder(s.prio, since, s.queues[r], t); }
    }
  }

  lemma {:induction false} ExpireInOrder(s: State, since: map<Tid, nat>, clock: nat)
    requires Sound(s) && QueuesInOrder(s, since, clock)
    ensures QueuesInOrder(Expire(s), since, clock)
    decreases |s.delayed|
  {
    if s.delayed != [] && s.tasks[s.delayed[0]].wakeTick <= s.now {
      GiveUpSound(s);
      GiveUpInOrder(s, since, clock);
      ExpireInOrder(GiveUp(s), since, clock);
    }
  }

  /** When each task began to wait, after one more step. */
  function Arrivals(since: map<Tid, nat>, clock: nat, op: Op): map<Tid, nat> {
    if op.BlockOp? then since[op.t := clock] else since
  }

  /** Every step leaves every wait queue in order of priority, and of arrival among equals. */
  lemma ApplyInOrder(s: State, op: Op, since: map<Tid, nat>, clock: nat)
    requires Sound(s) && Enabled(s, op) && QueuesInOrder(s, since, clock)
    ensures QueuesInOrder(Apply(s, op), Arrivals(since, clock, op), clock + 1)
  {
    match op {
      case BlockOp(t, q, limit) => BlockInOrder(s, t, q, limit, since, clock);
      case SignalOp(q) =>
        SignalInOrder(s, q, since, clock);
        StillInOrder(Signal(s, q), since, clock);
      case TickOp =>
        LaterSound(s, s.now + 1);
        var s1 := s.(now := s.now + 1);
        forall q | q in s1.queues
          ensures QueueInOrder(s1, since, clock, q)
        {
          assert QueueInOrder(s, since, clock, q);
        }
        ExpireInOrder(s1, since, clock);
        StillInOrder(Expire(s1), since, clock);
    }
  }

  lemma StillInOrder(s: State, since: map<Tid, nat>, clock: nat)
    requires QueuesInOrder(s, since, clock)
    ensures QueuesInOrder(s, since, clock + 1)
  {
    forall q | q in s.queues
      ensures QueueInOrder(s, since, clock + 1, q)
    {
      assert QueueInOrder(s, since, clock, q);
    }
  }

  /** The signalled task is one of highest priority, and of those the one that has waited longest. */
  lemma SignalsFirst(s: State, q: Qid, since: map<Tid, nat>, clock: nat, u: Tid)
    requires Sound(s) && QueuesInOrder(s, since, clock) && q in s.queues && u in s.queues[q]
    ensures s.queues[q] != []
    ensures var t, s' := s.queues[q][0], Signal(s, q);
            && t in s.tasks && t in s.prio && u in s.prio && t in since && u in since
            && (t == u || s.prio[t] > s.prio[u] || (s.prio[t] == s.prio[u] && since[t] < since[u]))
            && s'.tasks == s.tasks[t := Task(false, None, false, 0, true)]
            && s'.now == s.now && s'.prio == s.prio && s'.queues == s.queues[q := s.queues[q][1..]]
  {
    assert QueueInOrder(s, since, clock, q) && QueueOk(s, q);
    assert s.queues[q][0] in s.queues[q];
    var i :| 0 <= i < |s.queues[q]| && s.queues[q][i] == u;
    if i > 0 { assert Precedes(s.prio, since, s.queues[q][0], s.queues[q][i]); }
  }

  /** A task that blocks is blocked in the queue it names, and in the delay list iff it has a limit; for the others nothing changes. */
  lemma Blocks(s: State, t: Tid, q: Option<Qid>, limit: Option<nat>)
    requires Sound(s) && Enabled(s, BlockOp(t, q, limit))
    ensures var s' := Apply(s, BlockOp(t, q, limit));
            && s'.prio == s.prio && s'.now == s.now && s'.queues.Keys == s.queues.Keys && s'.tasks.Keys == s.tasks.Keys
            && s'.tasks[t].blocked && s'.tasks[t].waitQ == q && s'.tasks[t].limited == limit.Some? && s'.tasks[t].wakeOk == s.tasks[t].wakeOk
            && (forall u | u in s.tasks && u != t :: s'.tasks[u] == s.tasks[u] && (u in s'.delayed <==> u in s.delayed))
            && (t in s'.delayed <==> limit.Some?)
            && (forall r | r in s.queues :: t in s'.queues[r] <==> q == Some(r))
            && (forall r | r in s.queues && q != Some(r) :: s'.queues[r] == s.queues[r])
  {
    BlockSound(s, t, q, limit);
    var s' := Block(s, t, q, limit);
    forall r | r in s.queues
      ensures t in s'.queues[r] <==> q == Some(r)
    {
      assert QueueOk(s', r);
    }
  }
}
