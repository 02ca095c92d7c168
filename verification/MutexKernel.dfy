/**
 * kernel/ipc.c and the wait lists of kernel/scheduler.c as the code runs them: task and mutex
 * fields updated in place inside one critical section per call.  Every method is tied to the
 * step of MutexSpec it performs.
 */
module MutexKernel {
  import opened WaitQueue
  import opened Wrappers
  import S = MutexSpec
  import D = MutexDeadlock

  type Mid = S.Mid

  class Kernel {
    var tasks: map<Tid, S.Task>
    var mutexes: map<Mid, S.Mutex>
    /** Counts arrivals in wait queues; read by no method, it dates the waiters. */
    var clock: nat

    ghost function State(): S.State
      reads this
    {
      S.State(tasks, mutexes, clock)
    }

    /** `mutex_would_deadlock`. */
    method WouldDeadlock(m: Mid, self: Tid) returns (yes: bool)
      requires S.Inv(State()) && m in mutexes
      ensures yes <==> S.WouldDeadlock(State(), m, self)
    {
      ghost var s := State();
      var t := mutexes[m].owner;
      var depth := 0;
      while t.Some? && depth < S.MAX_DEPTH
        invariant 0 <= depth <= S.MAX_DEPTH
        invariant mutexes[m].owner.Some? ==> S.Follow(s, mutexes[m].owner.value, depth) == t
        invariant mutexes[m].owner.Some? ==> forall k: nat | k < depth :: S.Follow(s, mutexes[m].owner.value, k) != Some(self)
        invariant mutexes[m].owner.None? ==> t.None?
        decreases S.MAX_DEPTH - depth
      {
        if t.value == self {
          assert S.Follow(s, mutexes[m].owner.value, depth) == Some(self);
          return true;
        }
        OwnerKnown(m, depth);
        ghost var o := mutexes[m].owner.value;
        D.FollowSplit(s, o, depth, 1);
        if tasks[t.value].blockedOn.None? {
          forall k: nat | k > depth
            ensures S.Follow(s, o, k) == None
          {
            D.FollowSplit(s, o, depth + 1, k - depth - 1);
          }
          return false;
        }
        assert S.TaskOk(s, t.value);
        t := mutexes[tasks[t.value].blockedOn.value].owner;
        depth := depth + 1;
      }
      if t.None? && mutexes[m].owner.Some? {
        forall k: nat | k >= depth
          ensures S.Follow(s, mutexes[m].owner.value, k) == None
        {
          D.FollowSplit(s, mutexes[m].owner.value, depth, k - depth);
        }
      }
      yes := false;
    }

    /** Every task in the chain from the owner of `m` is a task of the kernel. */
    lemma {:induction false} OwnerKnown(m: Mid, k: nat)
      requires S.Inv(State()) && m in mutexes && mutexes[m].owner.Some?
      ensures var t := S.Follow(State(), mutexes[m].owner.value, k); t.Some? ==> t.value in tasks
      decreases k
    {
      var s := State();
      assert S.QueueOk(s, m);
      if k > 0 {
        OwnerKnown(m, k - 1);
        D.FollowSplit(s, mutexes[m].owner.value, k - 1, 1);
        var u := S.Follow(s, mutexes[m].owner.value, k - 1);
        if u.Some? && tasks[u.value].blockedOn.Some? {
          assert S.TaskOk(s, u.value) && S.QueueOk(s, tasks[u.value].blockedOn.value);
        }
      }
    }

    /** `mutex_apply_inheritance`. */
    method ApplyInheritance(owner: Tid, waiter: Tid)
      requires owner in tasks && waiter in tasks
      modifies this`tasks
      ensures State() == S.Inherit(old(State()), owner, waiter)
    {
      if tasks[waiter].prio <= tasks[owner].prio {
        return;
      }
      tasks := tasks[owner := tasks[owner].(prio := tasks[waiter].prio)];
    }

    /** `cgrtos_mutex_lock` up to the yield; `Asleep` means the caller is now in the wait queue. */
    method Lock(cur: Tid, m: Mid, wait: bool) returns (r: S.Outcome)
      requires S.Inv(State()) && S.Runs(State(), cur) && m in mutexes
      modifies this
      ensures (State(), r) == S.Lock(old(State()), cur, m, wait)
      ensures var x := old(mutexes)[m];
              && (r == S.Pass <==> x.owner.None? || (x.owner == Some(cur) && x.recursive < S.MAX_RECURSIVE))
              && (r == S.Pass ==>
                    && tasks == old(tasks)
                    && mutexes == old(mutexes)[m := S.Mutex(Some(cur), if x.owner.None? then 0 else x.recursive + 1, x.waitQ)])
      ensures S.Inv(State())
    {
      S.LockKeepsInv(State(), cur, m, wait);
      assert S.QueueOk(State(), m);
      var x := mutexes[m];
      if x.owner == Some(cur) {
        if x.recursive >= S.MAX_RECURSIVE {
          return S.ErrOverflow;
        }
        mutexes := mutexes[m := x.(recursive := x.recursive + 1)];
        return S.Pass;
      }
      if x.owner.None? {
        mutexes := mutexes[m := x.(owner := Some(cur))];
        return S.Pass;
      }
      if !wait {
        return S.ErrTimeout;
      }
      var cyclic := WouldDeadlock(m, cur);
      if cyclic {
        return S.ErrDeadlock;
      }
      ApplyInheritance(x.owner.value, cur);
      ghost var tasks1 := tasks;
      var q := WaitListAdd(S.PrioOf(tasks), mutexes[m].waitQ, cur);
      mutexes := mutexes[m := mutexes[m].(waitQ := q)];
      tasks := tasks[cur := tasks[cur].(blockedOn := Some(m), inCall := Some(m), arrival := clock)];
      clock := clock + 1;
      r := S.Asleep;
    }

    /** `mutex_restore_inheritance`. */
    method RestoreInheritance(owner: Tid)
      requires owner in tasks
      modifies this`tasks
      ensures State() == S.Restore(old(State()), owner)
    {
      if tasks[owner].prio != tasks[owner].base {
        tasks := tasks[owner := tasks[owner].(prio := tasks[owner].base)];
      }
      assert tasks == old(tasks)[owner := old(tasks)[owner].(prio := old(tasks)[owner].base)];
    }

    /** The end of an unlock: the head of the queue becomes the owner, inherits from the next waiter and is woken. */
    method HandOff(m: Mid)
      requires m in mutexes && forall u | u in mutexes[m].waitQ :: u in tasks
      modifies this
      ensures State() == S.HandOff(old(State()), m)
    {
      var x := mutexes[m];
      mutexes := mutexes[m := S.Mutex(None, 0, x.waitQ)];
      if x.waitQ != [] {
        var waiter := x.waitQ[0];
        assert waiter in x.waitQ;
        mutexes := mutexes[m := S.Mutex(Some(waiter), 0, x.waitQ[1..])];
        if x.waitQ[1..] != [] {
          assert x.waitQ[1..][0] in x.waitQ;
          ApplyInheritance(waiter, x.waitQ[1..][0]);
        }
        tasks := tasks[waiter := tasks[waiter].(blockedOn := None, wakeOk := true)];
      }
    }

    /** `cgrtos_mutex_unlock`. */
    method Unlock(cur: Tid, m: Mid) returns (r: S.Outcome)
      requires S.Inv(State()) && S.Runs(State(), cur) && m in mutexes
      modifies this
      ensures (State(), r) == S.Unlock(old(State()), cur, m)
      ensures S.Inv(State())
    {
      S.UnlockKeepsInv(State(), cur, m);
      assert S.QueueOk(State(), m);
      if mutexes[m].owner != Some(cur) {
        return S.Fail;
      }
      if mutexes[m].recursive > 0 {
        mutexes := mutexes[m := mutexes[m].(recursive := mutexes[m].recursive - 1)];
        return S.Pass;
      }
      RestoreInheritance(cur);
      HandOff(m);
      r := S.Pass;
    }

    /** What `sched_process_delayed_tasks` does to a task whose lock call timed out. */
    method TimeOut(t: Tid)
      requires S.Inv(State()) && t in tasks && tasks[t].blockedOn.Some?
      modifies this
      ensures State() == S.TimeOut(old(State()), t)
      ensures S.Inv(State())
    {
      S.TimeOutKeepsInv(State(), t);
      assert S.TaskOk(State(), t);
      var m := tasks[t].blockedOn.value;
      var q := WaitListRemove(mutexes[m].waitQ, t);
      mutexes := mutexes[m := mutexes[m].(waitQ := q)];
      tasks := tasks[t := tasks[t].(blockedOn := None, wakeOk := false)];
    }

    /** `cgrtos_mutex_force_release_owned` and `cgrtos_task_purge_waits`, as task deletion runs them. */
    method Delete(t: Tid)
      requires S.Inv(State()) && t in tasks
      modifies this
      ensures State() == S.Delete(old(State()), t)
      ensures S.Inv(State())
    {
      S.DeleteKeepsInv(State(), t);
      S.EndCallKeepsInv(State(), t);
      if tasks[t].blockedOn.None? {
        tasks := tasks[t := tasks[t].(inCall := None)];
      }
      ReleaseOwned(t);
      if tasks[t].blockedOn.Some? {
        TimeOut(t);
        tasks := tasks[t := tasks[t].(inCall := None)];
      }
    }

    /** `cgrtos_mutex_force_release_owned`. */
    method ReleaseOwned(t: Tid)
      requires S.Inv(State()) && t in tasks && (tasks[t].blockedOn.None? ==> tasks[t].inCall.None?)
      modifies this
      ensures State() == S.ReleaseAll(old(State()), t, S.POOL)
    {
      ghost var s1 := State();
      var i := 0;
      while i < S.POOL
        invariant 0 <= i <= S.POOL
        invariant State() == S.ReleaseAll(s1, t, i)
      {
        if i in mutexes && mutexes[i].owner == Some(t) {
          assert S.QueueOk(State(), i);
          RestoreInheritance(t);
          HandOff(i);
        }
        i := i + 1;
      }
    }
  }
}
