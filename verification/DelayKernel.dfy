/**
 * kernel/scheduler.c: blocking, waking and the tick handler's loop over the delay list, with
 * the tasks, the wait queues and the list updated in place.
 */
module DelayKernel {
  import opened WaitQueue
  import opened Wrappers
  import L = KernelList
  import S = DelaySpec

  class Kernel {
    const prio: map<Tid, nat>
    var tasks: map<Tid, S.Task>
    var queues: map<S.Qid, seq<Tid>>
    var delayed: seq<Tid>
    var now: nat

    ghost function State(): S.State
      reads this
    {
      S.State(prio, tasks, queues, delayed, now)
    }

    constructor (prio: map<Tid, nat>, queues: set<S.Qid>)
      ensures S.Sound(State()) && this.prio == prio && this.queues.Keys == queues && now == 0
    {
      this.prio := prio;
      tasks := map t | t in prio :: S.Task(false, None, false, 0, false);
      this.queues := map q | q in queues :: [];
      delayed, now := [], 0;
      new;
      forall q | q in this.queues
        ensures S.QueueOk(State(), q)
      {
      }
    }

    /** `sched_delayed_insert`: walk past everyone who wakes no later. */
    method DelayedInsert(t: Tid)
      requires t in tasks && forall u | u in delayed :: u in tasks
      modifies this`delayed
      ensures delayed == S.Delay(tasks, old(delayed), t)
    {
      var i := 0;
      while i < |delayed| && tasks[delayed[i]].wakeTick <= tasks[t].wakeTick
        invariant 0 <= i <= |delayed|
        invariant forall j | 0 <= j < i :: tasks[delayed[j]].wakeTick <= tasks[t].wakeTick
      {
        i := i + 1;
      }
      L.BehindUnique(S.Wakes(tasks, delayed), tasks[t].wakeTick, i);
      delayed := delayed[..i] + [t] + delayed[i..];
    }

    /** `cgrtos_sched_block`. */
    method SchedBlock(t: Tid, q: Option<S.Qid>, limit: Option<nat>)
      requires t in tasks && forall u | u in delayed :: u in tasks
      modifies this`tasks, this`delayed
      ensures tasks == old(tasks)[t := old(tasks)[t].(blocked := true, waitQ := q, limited := limit.Some?,
                                                      wakeTick := if limit.Some? then S.WakeAt(now, limit.value) else 0)]
      ensures delayed == if limit.Some? then S.Delay(tasks, old(delayed), t) else old(delayed)
    {
      var wake := if limit.None? then 0 else S.WakeAt(now, limit.value);
      tasks := tasks[t := tasks[t].(blocked := true, waitQ := q, limited := limit.Some?, wakeTick := wake)];
      if limit.Some? {
        DelayedInsert(t);
      }
    }

    /** `cgrtos_wait_list_add` on queue `q`. */
    method Enqueue(q: S.Qid, t: Tid)
      requires q in queues && t in prio && forall u | u in queues[q] :: u in prio
      modifies this`queues
      ensures queues == old(queues)[q := Joined(prio, old(queues)[q], t)]
    {
      var l := WaitListAdd(prio, queues[q], t);
      queues := queues[q := l];
    }

    /** `block_current_on_waitq`, or `cgrtos_delay` when there is no queue to wait in. */
    method Block(t: Tid, q: Option<S.Qid>, limit: Option<nat>)
      requires S.Sound(State()) && S.Enabled(State(), S.BlockOp(t, q, limit))
      modifies this
      ensures S.Sound(State()) && State() == S.Apply(old(State()), S.BlockOp(t, q, limit))
    {
      ghost var s := State();
      S.QueuesKnown(s);
      SchedBlock(t, q, limit);
      if q.Some? {
        Enqueue(q.value, t);
      }
      assert State() == S.Block(s, t, q, limit);
      S.BlockSound(s, t, q, limit);
    }

    /** `cgrtos_sched_unblock` with the given `wake_ok`. */
    method Unblock(t: Tid, ok: bool)
      requires t in tasks
      modifies this`tasks, this`delayed
      ensures State() == S.Unblock(old(State()), t, ok)
    {
      if t in delayed {
        delayed := WaitListRemove(delayed, t);
      }
      tasks := tasks[t := S.Task(false, None, false, 0, ok)];
    }

    /** The waking half of every IPC call: `cgrtos_wait_list_pop_highest`, `wake_ok = 1`, unblock. */
    method Signal(q: S.Qid)
      requires S.Sound(State()) && q in queues && queues[q] != []
      modifies this
      ensures S.Sound(State()) && State() == S.Signal(old(State()), q)
    {
      S.SignalSound(State(), q);
      S.SignalLeaves(State(), q);
      var waiter := queues[q][0];
      queues := queues[q := queues[q][1..]];
      Unblock(waiter, true);
    }

    /** One turn of the loop: the head of the delay list is purged from its wait queue and unblocked. */
    method GiveUp()
      requires S.Sound(State()) && delayed != []
      modifies this
      ensures S.Sound(State()) && delayed == Removed(old(delayed), old(delayed[0])) && old(delayed[0]) in old(tasks)
      ensures State() == S.GiveUp(old(State()))
    {
      S.GiveUpSound(State());
      S.GiveUpLeaves(State());
      var t := delayed[0];
      var q := tasks[t].waitQ;
      if q.Some? {
        assert S.QueueOk(State(), q.value);
        var l := WaitListRemove(queues[q.value], t);
        queues := queues[q.value := l];
      }
      Unblock(t, false);
    }

    /** `sched_process_delayed_tasks`, right after the tick count has gone up. */
    method TickHandler()
      requires S.Sound(State())
      modifies this
      ensures S.Sound(State()) && State() == S.Tick(old(State()))
    {
      S.LaterSound(State(), now + 1);
      now := now + 1;
      ghost var s := State();
      assert forall t | t in delayed :: t in tasks;
      while delayed != [] && tasks[delayed[0]].wakeTick <= now
        invariant S.Sound(State()) && S.Expire(State()) == S.Expire(s)
        decreases |delayed|
      {
        S.GiveUpSound(State());
        GiveUp();
      }
    }
  }
}
