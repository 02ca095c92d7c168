/**
 * The mutexes of kernel/ipc.c as a transition system.  Every step is one critical section:
 * lock, unlock, the timeout of a waiter in the tick handler, the return of a lock call whose
 * task was put to sleep, and the forced release of everything a deleted task holds.
 */
module MutexSpec {
  import opened WaitQueue
  import opened Wrappers

  type Mid = nat

  /** CONFIG_MUTEX_MAX_RECURSIVE. */
  const MAX_RECURSIVE: nat := 64
  /** CGRTOS_MAX_MUTEX: mutexes 0..31 are the pool, others live in their creator's storage. */
  const POOL: nat := 32
  /** The depth at which `mutex_would_deadlock` gives up. */
  const MAX_DEPTH: nat := 16

  /**
   * What the protocol reads of a task: current and base priority, the mutex it is BLOCKED
   * on, the lock call it has not returned from yet, `wake_ok`, and when it last joined a
   * wait queue.
   */
  datatype Task = Task(prio: nat, base: nat, blockedOn: Option<Mid>, inCall: Option<Mid>, wakeOk: bool, arrival: nat)

  datatype Mutex = Mutex(owner: Option<Tid>, recursive: nat, waitQ: seq<Tid>)

  datatype State = State(tasks: map<Tid, Task>, mutexes: map<Mid, Mutex>, clock: nat)

  datatype Outcome = Pass | ErrTimeout | ErrDeadlock | ErrOverflow | Fail | Asleep

  // ---- the wait-for graph ----

  /** The task that `t` waits for: the owner of the mutex it is blocked on. */
  function Edge(s: State, t: Tid): Option<Tid> {
    if t in s.tasks && s.tasks[t].blockedOn.Some? && s.tasks[t].blockedOn.value in s.mutexes
    then s.mutexes[s.tasks[t].blockedOn.value].owner
    else None
  }

  /** The task reached from `t` in `k` wait-for steps. */
  function Follow(s: State, t: Tid, k: nat): Option<Tid>
    decreases k
  {
    if k == 0 then Some(t)
    else match Edge(s, t) case None => None case Some(u) => Follow(s, u, k - 1)
  }

  /** No task waits, directly or indirectly, for itself. */
  ghost predicate NoCycle(s: State) {
    forall t: Tid, k: nat | k > 0 :: Follow(s, t, k) != Some(t)
  }

  /** What `mutex_would_deadlock` reports. */
  ghost predicate WouldDeadlock(s: State, m: Mid, self: Tid)
    requires m in s.mutexes
  {
    s.mutexes[m].owner.Some? && exists k: nat :: k < MAX_DEPTH && Follow(s, s.mutexes[m].owner.value, k) == Some(self)
  }

  // ---- wait queues ----

  /** The current priorities. */
  function PrioOf(tasks: map<Tid, Task>): (p: map<Tid, nat>)
    ensures p.Keys == tasks.Keys && forall t | t in tasks :: p[t] == tasks[t].prio
  {
    map t | t in tasks :: tasks[t].prio
  }

  /** `cgrtos_wait_list_add_priority`. */
  function Inserted(tasks: map<Tid, Task>, q: seq<Tid>, t: Tid): seq<Tid>
    requires t in tasks && forall u | u in q :: u in tasks
  {
    Joined(PrioOf(tasks), q, t)
  }

  // ---- the invariant ----

  ghost predicate QueueOk(s: State, m: Mid)
    requires m in s.mutexes
  {
    var x := s.mutexes[m];
    && NoDup(x.waitQ)
    && (forall t | t in x.waitQ :: t in s.tasks && s.tasks[t].blockedOn == Some(m))
    && (x.waitQ != [] ==> x.owner.Some?)
    && (x.owner.Some? ==> x.owner.value in s.tasks && x.owner.value !in x.waitQ)
    && (x.owner.None? ==> x.recursive == 0)
  }

  ghost predicate TaskOk(s: State, t: Tid)
    requires t in s.tasks
  {
    var x := s.tasks[t];
    && (x.blockedOn.Some? ==> x.blockedOn.value in s.mutexes && t in s.mutexes[x.blockedOn.value].waitQ && x.inCall == x.blockedOn)
    && (x.blockedOn.None? && x.inCall.Some? ==>
          var m := x.inCall.value;
          && m in s.mutexes
          && (x.wakeOk <==> s.mutexes[m].owner == Some(t))
          && (x.wakeOk ==> s.mutexes[m].recursive == 0))
  }

  /**
   * A task is queued on a mutex iff it is blocked on it; a queue has an owner, who is not in
   * it; a woken task that has not returned yet was woken with success iff it owns the mutex.
   */
  ghost predicate Inv(s: State) {
    && (forall m {:trigger QueueOk(s, m)} | m in s.mutexes :: QueueOk(s, m))
    && (forall t {:trigger TaskOk(s, t)} | t in s.tasks :: TaskOk(s, t))
  }

  /** `t` is running kernel or user code: neither blocked nor inside a lock call. */
  predicate Runs(s: State, t: Tid) {
    t in s.tasks && s.tasks[t].blockedOn.None? && s.tasks[t].inCall.None?
  }

  // ---- the steps ----

  /** `mutex_apply_inheritance`: the owner is raised to the waiter's priority. */
  function Inherit(s: State, owner: Tid, waiter: Tid): State
    requires owner in s.tasks && waiter in s.tasks
  {
    if s.tasks[waiter].prio <= s.tasks[owner].prio then s
    else s.(tasks := s.tasks[owner := s.tasks[owner].(prio := s.tasks[waiter].prio)])
  }

  /** `block_current_on_waitq` on mutex `m`. */
  function Block(s: State, t: Tid, m: Mid): State
    requires t in s.tasks && m in s.mutexes && forall u | u in s.mutexes[m].waitQ :: u in s.tasks
  {
    var x := s.mutexes[m];
    State(s.tasks[t := s.tasks[t].(blockedOn := Some(m), inCall := Some(m), arrival := s.clock)],
          s.mutexes[m := x.(waitQ := Inserted(s.tasks, x.waitQ, t))],
          s.clock + 1)
  }

  /** `cgrtos_mutex_lock`, up to the point where the caller goes to sleep; `wait` is `timeout != 0`. */
  ghost function Lock(s: State, t: Tid, m: Mid, wait: bool): (State, Outcome)
    requires Inv(s) && Runs(s, t) && m in s.mutexes
  {
    var x := s.mutexes[m];
    assert QueueOk(s, m);
    if x.owner == Some(t) then
      if x.recursive >= MAX_RECURSIVE then (s, ErrOverflow)
      else (s.(mutexes := s.mutexes[m := x.(recursive := x.recursive + 1)]), Pass)
    else if x.owner.None? then
      (s.(mutexes := s.mutexes[m := x.(owner := Some(t))]), Pass)
    else if !wait then (s, ErrTimeout)
    else if WouldDeadlock(s, m, t) then (s, ErrDeadlock)
    else
      (Block(Inherit(s, x.owner.value, t), t, m), Asleep)
  }

  /** `mutex_restore_inheritance`. */
  function Restore(s: State, t: Tid): State
    requires t in s.tasks
  {
    s.(tasks := s.tasks[t := s.tasks[t].(prio := s.tasks[t].base)])
  }

  /** The lock goes to the head of the queue, who inherits from the next waiter and is woken; or becomes free. */
  function HandOff(s: State, m: Mid): State
    requires m in s.mutexes && forall u | u in s.mutexes[m].waitQ :: u in s.tasks
  {
    var x := s.mutexes[m];
    if x.waitQ == [] then s.(mutexes := s.mutexes[m := Mutex(None, 0, [])])
    else
      var w, rest := x.waitQ[0], x.waitQ[1..];
      var s1 := s.(mutexes := s.mutexes[m := Mutex(Some(w), 0, rest)]);
      var s2 := if rest == [] then s1 else assert rest[0] in x.waitQ; Inherit(s1, w, rest[0]);
      s2.(tasks := s2.tasks[w := s2.tasks[w].(blockedOn := None, wakeOk := true)])
  }

  /** `cgrtos_mutex_unlock`. */
  ghost function Unlock(s: State, t: Tid, m: Mid): (State, Outcome)
    requires Inv(s) && Runs(s, t) && m in s.mutexes
  {
    var x := s.mutexes[m];
    assert QueueOk(s, m);
    if x.owner != Some(t) then (s, Fail)
    else if x.recursive > 0 then (s.(mutexes := s.mutexes[m := x.(recursive := x.recursive - 1)]), Pass)
    else (HandOff(Restore(s, t), m), Pass)
  }

  /** The tick handler gives up on behalf of waiter `t`: out of the queue, woken without success. */
  ghost function TimeOut(s: State, t: Tid): State
    requires Inv(s) && t in s.tasks && s.tasks[t].blockedOn.Some?
  {
    assert TaskOk(s, t);
    var m := s.tasks[t].blockedOn.value;
    State(s.tasks[t := s.tasks[t].(blockedOn := None, wakeOk := false)],
          s.mutexes[m := s.mutexes[m].(waitQ := Removed(s.mutexes[m].waitQ, t))],
          s.clock)
  }

  /** A woken task returns from its lock call with `wait_result`. */
  function Return(s: State, t: Tid): (State, Outcome)
    requires t in s.tasks && s.tasks[t].blockedOn.None? && s.tasks[t].inCall.Some?
  {
    (s.(tasks := s.tasks[t := s.tasks[t].(inCall := None)]), if s.tasks[t].wakeOk then Pass else ErrTimeout)
  }

  /** One turn of the loop in `cgrtos_mutex_force_release_owned`. */
  ghost function ReleaseNext(s: State, t: Tid, m: Mid): (s': State)
    requires Inv(s) && t in s.tasks && (s.tasks[t].blockedOn.None? ==> s.tasks[t].inCall.None?)
    ensures Inv(s') && t in s'.tasks && s'.tasks.Keys == s.tasks.Keys && s'.mutexes.Keys == s.mutexes.Keys
    ensures s'.tasks[t] == s.tasks[t].(prio := s'.tasks[t].prio)
  {
    if m in s.mutexes && s.mutexes[m].owner == Some(t) then
      assert QueueOk(s, m);
      ReleaseOneKeeps(s, t, m);
      HandOff(Restore(s, t), m)
    else s
  }

  /** `cgrtos_mutex_force_release_owned`, for the pool mutexes below `i`. */
  ghost function ReleaseAll(s: State, t: Tid, i: nat): (s': State)
    requires Inv(s) && t in s.tasks && (s.tasks[t].blockedOn.None? ==> s.tasks[t].inCall.None?)
    ensures Inv(s') && t in s'.tasks && s'.tasks.Keys == s.tasks.Keys && s'.mutexes.Keys == s.mutexes.Keys
    ensures s'.tasks[t] == s.tasks[t].(prio := s'.tasks[t].prio)
  {
    if i == 0 then s else ReleaseNext(ReleaseAll(s, t, i - 1), t, i - 1)
  }

  lemma {:induction false} ReleaseAllFrees(s: State, t: Tid, i: nat)
    requires Inv(s) && t in s.tasks && (s.tasks[t].blockedOn.None? ==> s.tasks[t].inCall.None?)
    ensures forall m | m in ReleaseAll(s, t, i).mutexes && m < i :: ReleaseAll(s, t, i).mutexes[m].owner != Some(t)
  {
    if i > 0 {
      ReleaseAllFrees(s, t, i - 1);
      ReleaseNextFrees(ReleaseAll(s, t, i - 1), t, i - 1);
    }
  }

  lemma ReleaseNextFrees(s: State, t: Tid, m: Mid)
    requires Inv(s) && t in s.tasks && (s.tasks[t].blockedOn.None? ==> s.tasks[t].inCall.None?)
    ensures var s' := ReleaseNext(s, t, m);
            forall n | n in s'.mutexes && (n == m || (n in s.mutexes && s.mutexes[n].owner != Some(t))) :: s'.mutexes[n].owner != Some(t)
  {
    if m in s.mutexes && s.mutexes[m].owner == Some(t) {
      assert QueueOk(s, m);
      ReleaseOneKeeps(s, t, m);
    }
  }

  /** A deleted task: everything it holds from the pool goes to the next waiter, and it leaves the queue it is in. */
  ghost function Delete(s: State, t: Tid): State
    requires Inv(s) && t in s.tasks
  {
    EndCallKeepsInv(s, t);
    var s1 := ReleaseAll(EndCall(s, t), t, POOL);
    if s1.tasks[t].blockedOn.None? then s1
    else var s2 := TimeOut(s1, t); s2.(tasks := s2.tasks[t := s2.tasks[t].(inCall := None)])
  }

  /** The lock call a woken task has not returned from is given up with the task. */
  function EndCall(s: State, t: Tid): State
    requires t in s.tasks
  {
    if s.tasks[t].blockedOn.Some? then s else s.(tasks := s.tasks[t := s.tasks[t].(inCall := None)])
  }

  datatype Step =
    | LockStep(t: Tid, m: Mid, wait: bool)
    | UnlockStep(t: Tid, m: Mid)
    | TimeOutStep(t: Tid)
    | ReturnStep(t: Tid)
    | DeleteStep(t: Tid)

  ghost predicate Enabled(s: State, a: Step)
    requires Inv(s)
  {
    match a
    case LockStep(t, m, _) => Runs(s, t) && m in s.mutexes
    case UnlockStep(t, m) => Runs(s, t) && m in s.mutexes
    case TimeOutStep(t) => t in s.tasks && s.tasks[t].blockedOn.Some?
    case ReturnStep(t) => t in s.tasks && s.tasks[t].blockedOn.None? && s.tasks[t].inCall.Some?
    case DeleteStep(t) => t in s.tasks
  }

  ghost function Next(s: State, a: Step): State
    requires Inv(s) && Enabled(s, a)
  {
    match a
    case LockStep(t, m, wait) => Lock(s, t, m, wait).0
    case UnlockStep(t, m) => Unlock(s, t, m).0
    case TimeOutStep(t) => TimeOut(s, t)
    case ReturnStep(t) => Return(s, t).0
    case DeleteStep(t) => Delete(s, t)
  }

  // ---- every step keeps the invariant ----

  lemma InsertedContent(tasks: map<Tid, Task>, q: seq<Tid>, t: Tid)
    requires t in tasks && (forall u | u in q :: u in tasks) && NoDup(q) && t !in q
    ensures NoDup(Inserted(tasks, q, t))
    ensures forall u :: u in Inserted(tasks, q, t) <==> u in q || u == t
  {
    JoinedContent(PrioOf(tasks), q, t);
  }

  /** The two states differ in current priorities only. */
  ghost predicate SameButPrio(s: State, s': State) {
    && s.mutexes == s'.mutexes
    && s.tasks.Keys == s'.tasks.Keys
    && forall t | t in s.tasks :: t in s'.tasks && s'.tasks[t] == s.tasks[t].(prio := s'.tasks[t].prio)
  }

  lemma PrioKeepsInv(s: State, s': State)
    requires Inv(s) && SameButPrio(s, s')
    ensures Inv(s')
  {
    forall n | n in s'.mutexes
      ensures QueueOk(s', n)
    {
      assert QueueOk(s, n);
    }
    forall u | u in s'.tasks
      ensures TaskOk(s', u)
    {
      assert TaskOk(s, u);
    }
  }

  lemma BlockKeepsInv(s: State, t: Tid, m: Mid)
    requires Inv(s) && Runs(s, t) && m in s.mutexes && s.mutexes[m].owner.Some? && s.mutexes[m].owner != Some(t)
    requires forall u | u in s.mutexes[m].waitQ :: u in s.tasks
    ensures Inv(Block(s, t, m))
  {
    var s' := Block(s, t, m);
    assert TaskOk(s, t);
    forall n | n in s'.mutexes
      ensures QueueOk(s', n)
    {
      assert QueueOk(s, n);
      if n == m { InsertedContent(s.tasks, s.mutexes[m].waitQ, t); }
    }
    forall u | u in s'.tasks
      ensures TaskOk(s', u)
    {
      assert TaskOk(s, u);
      assert QueueOk(s, m);
      InsertedContent(s.tasks, s.mutexes[m].waitQ, t);
    }
  }

  lemma LockKeepsInv(s: State, t: Tid, m: Mid, wait: bool)
    requires Inv(s) && Runs(s, t) && m in s.mutexes
    ensures Inv(Lock(s, t, m, wait).0)
  {
    var (s', r) := Lock(s, t, m, wait);
    var x := s.mutexes[m];
    assert QueueOk(s, m);
    if r == Asleep {
      PrioKeepsInv(s, Inherit(s, x.owner.value, t));
      BlockKeepsInv(Inherit(s, x.owner.value, t), t, m);
    } else {
      GrantKeepsInv(s, t, m, wait);
    }
  }

  /** A lock call that does not sleep. */
  lemma GrantKeepsInv(s: State, t: Tid, m: Mid, wait: bool)
    requires Inv(s) && Runs(s, t) && m in s.mutexes && Lock(s, t, m, wait).1 != Asleep
    ensures Inv(Lock(s, t, m, wait).0)
  {
    var s' := Lock(s, t, m, wait).0;
    forall n | n in s'.mutexes
      ensures QueueOk(s', n)
    {
      assert QueueOk(s, n);
    }
    forall u | u in s'.tasks
      ensures TaskOk(s', u)
    {
      assert TaskOk(s, u) && QueueOk(s, m);
    }
  }

  /** The hand-off without the inheritance from the next waiter. */
  function Passed(s: State, m: Mid): State
    requires m in s.mutexes && forall u | u in s.mutexes[m].waitQ :: u in s.tasks
  {
    var x := s.mutexes[m];
    if x.waitQ == [] then s.(mutexes := s.mutexes[m := Mutex(None, 0, [])])
    else
      var w := x.waitQ[0];
      State(s.tasks[w := s.tasks[w].(blockedOn := None, wakeOk := true)],
            s.mutexes[m := Mutex(Some(w), 0, x.waitQ[1..])], s.clock)
  }

  /** The owner of `m` is not a woken task that has yet to return from its lock call. */
  ghost predicate OwnerReturned(s: State, m: Mid)
    requires m in s.mutexes
  {
    && s.mutexes[m].owner.Some?
    && s.mutexes[m].owner.value in s.tasks
    && (s.tasks[s.mutexes[m].owner.value].blockedOn.Some? || s.tasks[s.mutexes[m].owner.value].inCall != Some(m))
  }

  lemma PassedKeepsInv(s: State, m: Mid)
    requires Inv(s) && m in s.mutexes && OwnerReturned(s, m)
    requires forall u | u in s.mutexes[m].waitQ :: u in s.tasks
    ensures Inv(Passed(s, m))
  {
    var s' := Passed(s, m);
    var x := s.mutexes[m];
    assert QueueOk(s, m);
    assert x.waitQ != [] ==> x.waitQ[0] in x.waitQ && x.waitQ == [x.waitQ[0]] + x.waitQ[1..];
    forall n | n in s'.mutexes
      ensures QueueOk(s', n)
    {
      assert QueueOk(s, n);
    }
    forall u | u in s'.tasks
      ensures TaskOk(s', u)
    {
      PassedTaskOk(s, m, u);
    }
  }

  lemma PassedTaskOk(s: State, m: Mid, u: Tid)
    requires Inv(s) && m in s.mutexes && OwnerReturned(s, m) && u in s.tasks
    requires forall u | u in s.mutexes[m].waitQ :: u in s.tasks
    ensures TaskOk(Passed(s, m), u)
  {
    var q := s.mutexes[m].waitQ;
    assert TaskOk(s, u) && QueueOk(s, m);
    assert q != [] ==> q[0] in q && q == [q[0]] + q[1..];
  }

  lemma HandOffKeepsInv(s: State, m: Mid)
    requires Inv(s) && m in s.mutexes && OwnerReturned(s, m)
    requires forall u | u in s.mutexes[m].waitQ :: u in s.tasks
    ensures Inv(HandOff(s, m))
  {
    PassedKeepsInv(s, m);
    PrioKeepsInv(Passed(s, m), HandOff(s, m));
  }

  lemma UnlockKeepsInv(s: State, t: Tid, m: Mid)
    requires Inv(s) && Runs(s, t) && m in s.mutexes
    ensures Inv(Unlock(s, t, m).0)
  {
    var (s', r) := Unlock(s, t, m);
    var x := s.mutexes[m];
    assert QueueOk(s, m);
    if x.owner == Some(t) && x.recursive == 0 {
      PrioKeepsInv(s, Restore(s, t));
      HandOffKeepsInv(Restore(s, t), m);
    } else {
      forall n | n in s'.mutexes
        ensures QueueOk(s', n)
      {
        assert QueueOk(s, n);
      }
      forall u | u in s'.tasks
        ensures TaskOk(s', u)
      {
        assert TaskOk(s, u);
      }
    }
  }

  lemma TimeOutKeepsInv(s: State, t: Tid)
    requires Inv(s) && t in s.tasks && s.tasks[t].blockedOn.Some?
    ensures Inv(TimeOut(s, t))
  {
    var s' := TimeOut(s, t);
    assert TaskOk(s, t);
    var m := s.tasks[t].blockedOn.value;
    assert QueueOk(s, m);
    RemovedContent(s.mutexes[m].waitQ, t);
    forall n | n in s'.mutexes
      ensures QueueOk(s', n)
    {
      assert QueueOk(s, n);
    }
    forall u | u in s'.tasks
      ensures TaskOk(s', u)
    {
      assert TaskOk(s, u);
    }
  }

  lemma ReturnKeepsInv(s: State, t: Tid)
    requires Inv(s) && t in s.tasks && s.tasks[t].blockedOn.None? && s.tasks[t].inCall.Some?
    ensures Inv(Return(s, t).0)
  {
    var s' := Return(s, t).0;
    forall n | n in s'.mutexes
      ensures QueueOk(s', n)
    {
      assert QueueOk(s, n);
    }
    forall u | u in s'.tasks
      ensures TaskOk(s', u)
    {
      assert TaskOk(s, u);
    }
  }

  lemma EndCallKeepsInv(s: State, t: Tid)
    requires Inv(s) && t in s.tasks
    ensures Inv(EndCall(s, t))
  {
    if s.tasks[t].blockedOn.None? {
      if s.tasks[t].inCall.Some? {
        ReturnKeepsInv(s, t);
      } else {
        assert EndCall(s, t).tasks == s.tasks;
      }
    }
  }

  /** One forced hand-off: the owner is not in a lock call for this mutex. */
  lemma ReleaseOneKeeps(s: State, t: Tid, m: Mid)
    requires Inv(s) && t in s.tasks && m in s.mutexes && s.mutexes[m].owner == Some(t)
    requires s.tasks[t].blockedOn.None? ==> s.tasks[t].inCall.None?
    requires forall u | u in s.mutexes[m].waitQ :: u in s.tasks
    ensures var s' := HandOff(Restore(s, t), m);
            && Inv(s') && s'.tasks.Keys == s.tasks.Keys && s'.mutexes.Keys == s.mutexes.Keys
            && s'.tasks[t] == s.tasks[t].(prio := s'.tasks[t].prio)
            && s'.mutexes[m].owner != Some(t)
            && (forall n | n in s.mutexes && n != m :: s'.mutexes[n] == s.mutexes[n])
  {
    assert QueueOk(s, m) && TaskOk(s, t);
    PrioKeepsInv(s, Restore(s, t));
    HandOffKeepsInv(Restore(s, t), m);
    assert s.mutexes[m].waitQ != [] ==> s.mutexes[m].waitQ[0] in s.mutexes[m].waitQ;
  }

  /** A deleted task waits for nothing, and holds nothing from the pool. */
  lemma DeleteKeepsInv(s: State, t: Tid)
    requires Inv(s) && t in s.tasks
    ensures Inv(Delete(s, t))
    ensures Runs(Delete(s, t), t)
    ensures forall m | m in Delete(s, t).mutexes :: t !in Delete(s, t).mutexes[m].waitQ
    ensures forall m | m in Delete(s, t).mutexes && m < POOL :: Delete(s, t).mutexes[m].owner != Some(t)
  {
    EndCallKeepsInv(s, t);
    var s1 := ReleaseAll(EndCall(s, t), t, POOL);
    ReleaseAllFrees(EndCall(s, t), t, POOL);
    if s1.tasks[t].blockedOn.Some? {
      assert TaskOk(s1, t);
      TimeOutKeepsInv(s1, t);
      ReturnKeepsInv(TimeOut(s1, t), t);
    }
    forall m | m in Delete(s, t).mutexes
      ensures t !in Delete(s, t).mutexes[m].waitQ
    {
      assert QueueOk(Delete(s, t), m);
    }
  }

  lemma NextKeepsInv(s: State, a: Step)
    requires Inv(s) && Enabled(s, a)
    ensures Inv(Next(s, a))
  {
    match a
    case LockStep(t, m, wait) => LockKeepsInv(s, t, m, wait);
    case UnlockStep(t, m) => UnlockKeepsInv(s, t, m);
    case TimeOutStep(t) => TimeOutKeepsInv(s, t);
    case ReturnStep(t) => ReturnKeepsInv(s, t);
    case DeleteStep(t) => DeleteKeepsInv(s, t);
  }
}
