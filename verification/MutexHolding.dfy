/**
 * What lock and unlock answer, and what the answers add up to: over any run a task holds a
 * mutex as often as it has locked it and not unlocked it, and no two tasks hold one mutex.
 */
module MutexHolding {
  import opened Wrappers
  import opened MutexSpec
  import opened WaitQueue
  import D = MutexDeadlock

  // ---- the answers ----

  /** Which answer a lock call gets at once, and `Asleep` if it gets none. */
  lemma LockAnswers(s: State, t: Tid, m: Mid, wait: bool)
    requires Inv(s) && Runs(s, t) && m in s.mutexes
    ensures var r, x := Lock(s, t, m, wait).1, s.mutexes[m];
            && (r == Pass <==> x.owner.None? || (x.owner == Some(t) && x.recursive < MAX_RECURSIVE))
            && (r == ErrOverflow <==> x.owner == Some(t) && x.recursive >= MAX_RECURSIVE)
            && (r == ErrTimeout <==> x.owner.Some? && x.owner != Some(t) && !wait)
            && (r == ErrDeadlock <==> x.owner.Some? && x.owner != Some(t) && wait && WouldDeadlock(s, m, t))
            && (r == Asleep <==> x.owner.Some? && x.owner != Some(t) && wait && !WouldDeadlock(s, m, t))
  {
  }

  /** A mutex changes hands or count, and nothing else happens. */
  ghost predicate OnlyMutex(s: State, s': State, m: Mid) {
    && s'.tasks == s.tasks && s'.clock == s.clock && s'.mutexes.Keys == s.mutexes.Keys
    && forall n | n in s.mutexes && n != m :: s'.mutexes[n] == s.mutexes[n]
  }

  /** A lock call that passes leaves its caller the owner, once if the mutex was free and once more if it held it. */
  lemma LockTakes(s: State, t: Tid, m: Mid, wait: bool)
    requires Inv(s) && Runs(s, t) && m in s.mutexes && Lock(s, t, m, wait).1 == Pass
    ensures var s' := Lock(s, t, m, wait).0;
            && OnlyMutex(s, s', m) && s'.mutexes[m].owner == Some(t) && s'.mutexes[m].waitQ == s.mutexes[m].waitQ
            && s'.mutexes[m].recursive == if s.mutexes[m].owner == Some(t) then s.mutexes[m].recursive + 1 else 0
  {
    assert QueueOk(s, m);
  }

  /** One that is refused changes nothing; one that sleeps is queued and may lend its priority to the owner. */
  lemma LockLeaves(s: State, t: Tid, m: Mid, wait: bool)
    requires Inv(s) && Runs(s, t) && m in s.mutexes && Lock(s, t, m, wait).1 != Pass
    ensures var (s', r) := Lock(s, t, m, wait);
            && (r != Asleep ==> s' == s)
            && (r == Asleep ==>
                  && s'.mutexes.Keys == s.mutexes.Keys && (forall n | n in s.mutexes && n != m :: s'.mutexes[n] == s.mutexes[n])
                  && s'.mutexes[m].owner == s.mutexes[m].owner && s'.mutexes[m].recursive == s.mutexes[m].recursive
                  && (forall u :: u in s'.mutexes[m].waitQ <==> u == t || u in s.mutexes[m].waitQ)
                  && s'.tasks.Keys == s.tasks.Keys && s'.tasks[t].blockedOn == Some(m) && s'.tasks[t].inCall == Some(m)
                  && forall u | u in s.tasks && u != t && s.mutexes[m].owner != Some(u) :: s'.tasks[u] == s.tasks[u])
  {
    assert QueueOk(s, m) && TaskOk(s, t);
    if Lock(s, t, m, wait).1 == Asleep {
      InsertedContent(Inherit(s, s.mutexes[m].owner.value, t).tasks, s.mutexes[m].waitQ, t);
    }
  }

  /** Unlock passes for the owner only; all but the last one takes one off the count, the last one gives the mutex away. */
  lemma UnlockAnswers(s: State, t: Tid, m: Mid)
    requires Inv(s) && Runs(s, t) && m in s.mutexes
    ensures var (s', r) := Unlock(s, t, m);
            && (r == Pass <==> s.mutexes[m].owner == Some(t)) && (r != Pass ==> r == Fail && s' == s)
            && (r == Pass && s.mutexes[m].recursive > 0 ==>
                  OnlyMutex(s, s', m) && s'.mutexes[m] == s.mutexes[m].(recursive := s.mutexes[m].recursive - 1))
            && (r == Pass && s.mutexes[m].recursive == 0 ==>
                  && s'.mutexes.Keys == s.mutexes.Keys && s'.mutexes[m].owner != Some(t) && s'.mutexes[m].recursive == 0
                  && (s'.mutexes[m].owner.None? <==> s.mutexes[m].waitQ == [])
                  && forall n | n in s.mutexes && n != m :: s'.mutexes[n] == s.mutexes[n])
  {
    assert QueueOk(s, m);
    assert s.mutexes[m].waitQ != [] ==> s.mutexes[m].waitQ[0] in s.mutexes[m].waitQ;
  }

  /** `x` with the priority of `y` if that is higher. */
  function Raised(x: Task, y: Task): Task {
    x.(prio := if y.prio > x.prio then y.prio else x.prio)
  }

  /** A sleeping caller lends its priority to the owner, who is otherwise as before; the caller keeps its own. */
  lemma LockLends(s: State, t: Tid, m: Mid, wait: bool)
    requires Inv(s) && Runs(s, t) && m in s.mutexes && Lock(s, t, m, wait).1 == Asleep
    ensures var s', o := Lock(s, t, m, wait).0, s.mutexes[m].owner;
            && o.Some? && o != Some(t) && o.value in s.tasks && o.value in s'.tasks
            && s'.tasks[o.value] == Raised(s.tasks[o.value], s.tasks[t])
            && t in s'.tasks && s'.tasks[t].prio == s.tasks[t].prio && s'.tasks[t].base == s.tasks[t].base
            && s'.tasks[t].wakeOk == s.tasks[t].wakeOk
  {
    assert QueueOk(s, m);
  }

  /** The last unlock puts its caller back to its own priority; the next owner is woken with success and has that of the waiter behind it if higher. */
  lemma UnlockWakes(s: State, t: Tid, m: Mid)
    requires Inv(s) && Runs(s, t) && m in s.mutexes && s.mutexes[m].owner == Some(t) && s.mutexes[m].recursive == 0
    ensures var s', q := Unlock(s, t, m).0, s.mutexes[m].waitQ;
            && (forall u | u in q :: u in s.tasks && u != t)
            && (if q == [] then
                  s'.tasks == s.tasks[t := s.tasks[t].(prio := s.tasks[t].base)]
                else
                  var w := s.tasks[q[0]].(blockedOn := None, wakeOk := true);
                  s'.tasks == s.tasks[t := s.tasks[t].(prio := s.tasks[t].base)]
                                     [q[0] := if |q| > 1 then Raised(w, s.tasks[q[1]]) else w])
  {
    assert QueueOk(s, m);
    var q := s.mutexes[m].waitQ;
    if q != [] { assert q[0] in q; }
    if |q| > 1 { assert q[1] in q && q[1..][0] == q[1]; }
  }

  /** A waiter that times out is in no queue and told that it failed; one that returns has left its call.  Neither touches anything else. */
  lemma TimeOutAnswers(s: State, t: Tid)
    requires Inv(s) && t in s.tasks && s.tasks[t].blockedOn.Some?
    ensures var s', m := TimeOut(s, t), s.tasks[t].blockedOn.value;
            && s'.tasks == s.tasks[t := s.tasks[t].(blockedOn := None, wakeOk := false)]
            && m in s.mutexes && s'.mutexes.Keys == s.mutexes.Keys && (forall n | n in s.mutexes :: t !in s'.mutexes[n].waitQ)
            && (forall n | n in s.mutexes && n != m :: s'.mutexes[n] == s.mutexes[n])
            && s'.mutexes[m].owner == s.mutexes[m].owner && s'.mutexes[m].recursive == s.mutexes[m].recursive
            && s.mutexes[m].waitQ != [] && Subsequence(s'.mutexes[m].waitQ, s.mutexes[m].waitQ)
            && forall u | u != t :: u in s'.mutexes[m].waitQ <==> u in s.mutexes[m].waitQ
  {
    assert TaskOk(s, t);
    var m := s.tasks[t].blockedOn.value;
    assert QueueOk(s, m);
    RemovedContent(s.mutexes[m].waitQ, t);
    SubsequenceRemoved(s.mutexes[m].waitQ, t);
    forall n | n in s.mutexes
      ensures t !in TimeOut(s, t).mutexes[n].waitQ
    {
      assert QueueOk(s, n);
    }
  }

  lemma ReturnAnswers(s: State, t: Tid)
    requires Inv(s) && t in s.tasks && s.tasks[t].blockedOn.None? && s.tasks[t].inCall.Some?
    ensures var (s', r) := Return(s, t);
            && s'.mutexes == s.mutexes && Runs(s', t) && s'.tasks[t].prio == s.tasks[t].prio && s'.tasks[t].base == s.tasks[t].base
            && s'.tasks.Keys == s.tasks.Keys && (forall u | u in s.tasks && u != t :: s'.tasks[u] == s.tasks[u])
            && var m := s.tasks[t].inCall.value;
               (r == Pass <==> m in s.mutexes && s.mutexes[m].owner == Some(t)) && (r != Pass ==> r == ErrTimeout)
  {
    assert TaskOk(s, t);
  }

  // ---- counting ----

  /** How often `t` has mutex `m`, as far as `t` has been told. */
  function Held(s: State, t: Tid, m: Mid): nat {
    if m in s.mutexes && s.mutexes[m].owner == Some(t) && t in s.tasks && !Granted(s, t, m) then s.mutexes[m].recursive + 1 else 0
  }

  /** `t` has been given `m` but has not returned from the lock call yet. */
  predicate Granted(s: State, t: Tid, m: Mid) {
    t in s.tasks && s.tasks[t].blockedOn.None? && s.tasks[t].inCall == Some(m)
  }

  /** A step counts as one when a lock call of `t` on `m` reports success, and as minus one when an unlock does. */
  ghost function Counts(s: State, a: Step, t: Tid, m: Mid): int
    requires Inv(s) && Enabled(s, a)
  {
    match a
    case LockStep(u, n, wait) => if u == t && n == m && Lock(s, u, n, wait).1 == Pass then 1 else 0
    case ReturnStep(u) => if u == t && s.tasks[u].inCall == Some(m) && Return(s, u).1 == Pass then 1 else 0
    case UnlockStep(u, n) => if u == t && n == m && Unlock(s, u, n).1 == Pass then -1 else 0
    case _ => 0
  }

  /** Mutexes that `u` gives away can only change hands; their new owners have not been told yet. */
  ghost predicate GivenAway(s: State, s': State, u: Tid, m: Mid) {
    && m in s.mutexes && m in s'.mutexes
    && (s'.mutexes[m] == s.mutexes[m]
        || (s.mutexes[m].owner == Some(u)
            && (s'.mutexes[m].owner.None?
                || (s'.mutexes[m].owner.value in s.mutexes[m].waitQ && Granted(s', s'.mutexes[m].owner.value, m)))))
  }

  /** Only tasks that have been given `m` change their place in lock calls, and keep the call. */
  ghost predicate CallsKept(s: State, s': State, t: Tid, u: Tid) {
    && t in s.tasks && t in s'.tasks && s'.tasks[t].inCall == s.tasks[t].inCall
    && (s'.tasks[t].blockedOn == s.tasks[t].blockedOn
        || (s'.tasks[t].blockedOn.None? && s.tasks[t].blockedOn.Some? && s.tasks[t].blockedOn.value in s.mutexes
            && t in s.mutexes[s.tasks[t].blockedOn.value].waitQ && s.mutexes[s.tasks[t].blockedOn.value].owner == Some(u)))
  }

  /** A hand-off takes a mutex from its owner and tells nobody. */
  lemma HandOffGives(s: State, u: Tid, m: Mid, n: Mid, t: Tid)
    requires Inv(s) && u in s.tasks && m in s.mutexes && s.mutexes[m].owner == Some(u) && n in s.mutexes && t in s.tasks && t != u
    requires forall w | w in s.mutexes[m].waitQ :: w in s.tasks
    ensures var s' := HandOff(Restore(s, u), m);
            GivenAway(s, s', u, n) && CallsKept(s, s', t, u) && (n == m ==> s'.mutexes[n].owner != Some(u))
  {
    assert QueueOk(s, m) && TaskOk(s, t);
    var q := s.mutexes[m].waitQ;
    if q != [] {
      assert q[0] in q;
      assert TaskOk(s, q[0]);
    }
  }

  /** What a step of another task may do to what `t` holds: nothing. */
  lemma HeldKept(s: State, s': State, t: Tid, u: Tid, m: Mid)
    requires Inv(s) && t != u && GivenAway(s, s', u, m) && CallsKept(s, s', t, u)
    ensures Held(s', t, m) == Held(s, t, m)
  {
    assert QueueOk(s, m) && TaskOk(s, t);
  }

  lemma LockCounts(s: State, u: Tid, n: Mid, wait: bool, t: Tid, m: Mid)
    requires Inv(s) && Runs(s, u) && n in s.mutexes && t in s.tasks && m in s.mutexes
    ensures Held(Lock(s, u, n, wait).0, t, m) == Held(s, t, m) + Counts(s, LockStep(u, n, wait), t, m)
  {
    assert QueueOk(s, n) && QueueOk(s, m) && TaskOk(s, t);
    if Lock(s, u, n, wait).1 == Pass { LockTakes(s, u, n, wait); } else { LockLeaves(s, u, n, wait); }
  }

  lemma UnlockCounts(s: State, u: Tid, n: Mid, t: Tid, m: Mid)
    requires Inv(s) && Runs(s, u) && n in s.mutexes && t in s.tasks && m in s.mutexes
    ensures Held(Unlock(s, u, n).0, t, m) == Held(s, t, m) + Counts(s, UnlockStep(u, n), t, m)
  {
    UnlockAnswers(s, u, n);
    assert QueueOk(s, n);
    if s.mutexes[n].owner == Some(u) && s.mutexes[n].recursive == 0 && t != u {
      HandOffGives(s, u, n, m, t);
      HeldKept(s, Unlock(s, u, n).0, t, u, m);
    }
  }

  lemma TimeOutCounts(s: State, u: Tid, t: Tid, m: Mid)
    requires Inv(s) && u in s.tasks && s.tasks[u].blockedOn.Some? && t in s.tasks && m in s.mutexes
    ensures Held(TimeOut(s, u), t, m) == Held(s, t, m)
  {
    assert TaskOk(s, u) && QueueOk(s, m);
  }

  lemma ReturnCounts(s: State, u: Tid, t: Tid, m: Mid)
    requires Inv(s) && Enabled(s, ReturnStep(u)) && t in s.tasks && m in s.mutexes
    ensures Held(Return(s, u).0, t, m) == Held(s, t, m) + Counts(s, ReturnStep(u), t, m)
  {
    assert TaskOk(s, u) && QueueOk(s, m);
  }

  lemma ReleaseCounts(s: State, u: Tid, n: Mid, t: Tid, m: Mid)
    requires Inv(s) && u in s.tasks && (s.tasks[u].blockedOn.None? ==> s.tasks[u].inCall.None?)
    requires t in s.tasks && t != u && m in s.mutexes
    ensures Held(ReleaseNext(s, u, n), t, m) == Held(s, t, m)
  {
    if n in s.mutexes && s.mutexes[n].owner == Some(u) {
      assert QueueOk(s, n);
      HandOffGives(s, u, n, m, t);
      HeldKept(s, ReleaseNext(s, u, n), t, u, m);
    }
  }

  /** The mutexes of a deleted task go to others, who are not told yet. */
  lemma DeleteCounts(s: State, u: Tid, t: Tid, m: Mid)
    requires Inv(s) && u in s.tasks && t in s.tasks && t != u && m in s.mutexes
    ensures Held(Delete(s, u), t, m) == Held(s, t, m)
  {
    EndCallKeepsInv(s, u);
    var s0 := EndCall(s, u);
    var s1 := ReleaseAllCounts(s0, u, t, m);
    if s1.tasks[u].blockedOn.Some? {
      assert TaskOk(s1, u);
      TimeOutCounts(s1, u, t, m);
    }
  }

  lemma ReleaseAllCounts(s: State, u: Tid, t: Tid, m: Mid) returns (s': State)
    requires Inv(s) && u in s.tasks && (s.tasks[u].blockedOn.None? ==> s.tasks[u].inCall.None?)
    requires t in s.tasks && t != u && m in s.mutexes
    ensures s' == ReleaseAll(s, u, POOL) && Held(s', t, m) == Held(s, t, m)
  {
    s' := s;
    for k := 0 to POOL
      invariant s' == ReleaseAll(s, u, k) && Held(s', t, m) == Held(s, t, m)
    {
      ReleaseCounts(s', u, k, t, m);
      s' := ReleaseNext(s', u, k);
    }
  }

  /** Every step but the deletion of `t` changes what `t` holds by what it is told. */
  lemma StepCounts(s: State, a: Step, t: Tid, m: Mid)
    requires Inv(s) && Enabled(s, a) && t in s.tasks && m in s.mutexes && a != DeleteStep(t)
    ensures Held(Next(s, a), t, m) == Held(s, t, m) + Counts(s, a, t, m)
  {
    match a
    case LockStep(u, n, wait) => LockCounts(s, u, n, wait, t, m);
    case UnlockStep(u, n) => UnlockCounts(s, u, n, t, m);
    case TimeOutStep(u) => TimeOutCounts(s, u, t, m);
    case ReturnStep(u) => ReturnCounts(s, u, t, m);
    case DeleteStep(u) => DeleteCounts(s, u, t, m);
  }

  // ---- runs ----

  /** The lock calls of `t` on `m` that have reported success in the first `i` steps, less its unlocks that have. */
  ghost function Balance(trace: seq<State>, steps: seq<Step>, t: Tid, m: Mid, i: nat): int
    requires D.IsRun(trace, steps) && i <= |steps|
  {
    if i == 0 then 0
    else
      RunInv(trace, steps, i - 1);
      Balance(trace, steps, t, m, i - 1) + Counts(trace[i - 1], steps[i - 1], t, m)
  }

  lemma {:induction false} RunInv(trace: seq<State>, steps: seq<Step>, i: nat)
    requires D.IsRun(trace, steps) && i < |trace|
    ensures Inv(trace[i]) && (i < |steps| ==> Enabled(trace[i], steps[i]) && trace[i + 1] == Next(trace[i], steps[i]))
  {
    if i == 0 {
      D.InitialSafe(trace[0]);
    } else {
      RunInv(trace, steps, i - 1);
      NextKeepsInv(trace[i - 1], steps[i - 1]);
    }
  }

  lemma NextKeepsTasks(s: State, a: Step)
    requires Inv(s) && Enabled(s, a)
    ensures Next(s, a).tasks.Keys == s.tasks.Keys
  {
    match a
    case LockStep(t, m, wait) => assert QueueOk(s, m);
    case UnlockStep(t, m) => UnlockKeepsTasks(s, t, m);
    case TimeOutStep(t) =>
    case ReturnStep(t) =>
    case DeleteStep(t) => EndCallKeepsInv(s, t); assert TaskOk(ReleaseAll(EndCall(s, t), t, POOL), t);
  }

  lemma UnlockKeepsTasks(s: State, t: Tid, m: Mid)
    requires Inv(s) && Runs(s, t) && m in s.mutexes
    ensures Unlock(s, t, m).0.tasks.Keys == s.tasks.Keys
  {
    assert QueueOk(s, m);
    assert s.mutexes[m].waitQ != [] ==> s.mutexes[m].waitQ[0] in s.mutexes[m].waitQ;
  }

  /**
   * Over every run in which `t` is not deleted: what `t` holds is what it has locked and not
   * unlocked, so nested calls balance and an unlock too many fails.
   */
  lemma {:induction false} HeldIsBalance(trace: seq<State>, steps: seq<Step>, t: Tid, m: Mid, i: nat)
    requires D.IsRun(trace, steps) && i <= |steps| && t in trace[0].tasks && m in trace[0].mutexes
    requires forall j | 0 <= j < i :: steps[j] != DeleteStep(t)
    ensures t in trace[i].tasks && m in trace[i].mutexes
    ensures Held(trace[i], t, m) == Balance(trace, steps, t, m, i)
  {
    if i == 0 {
      assert trace[0].mutexes[m] == Mutex(None, 0, []);
    } else {
      HeldIsBalance(trace, steps, t, m, i - 1);
      RunInv(trace, steps, i - 1);
      StepCounts(trace[i - 1], steps[i - 1], t, m);
      NextKeepsTasks(trace[i - 1], steps[i - 1]);
      D.NextKeepsMutexes(trace[i - 1], steps[i - 1]);
    }
  }

  /** No two tasks are ahead with their lock calls on one mutex: at most one is in its critical section. */
  lemma MutualExclusion(trace: seq<State>, steps: seq<Step>, t: Tid, u: Tid, m: Mid, i: nat)
    requires D.IsRun(trace, steps) && i <= |steps| && t in trace[0].tasks && u in trace[0].tasks && m in trace[0].mutexes && t != u
    requires forall j | 0 <= j < i :: steps[j] != DeleteStep(t) && steps[j] != DeleteStep(u)
    ensures Balance(trace, steps, t, m, i) >= 0 && Balance(trace, steps, u, m, i) >= 0
    ensures Balance(trace, steps, t, m, i) == 0 || Balance(trace, steps, u, m, i) == 0
  {
    HeldIsBalance(trace, steps, t, m, i);
    HeldIsBalance(trace, steps, u, m, i);
  }

  /** The next unlock of a task passes iff it has locked the mutex more often than unlocked it. */
  lemma UnlockIffBalance(trace: seq<State>, steps: seq<Step>, t: Tid, m: Mid, i: nat)
    requires D.IsRun(trace, steps) && i <= |steps| && t in trace[0].tasks && m in trace[0].mutexes
    requires forall j | 0 <= j < i :: steps[j] != DeleteStep(t)
    requires t in trace[i].tasks && Runs(trace[i], t)
    ensures Inv(trace[i]) && m in trace[i].mutexes
    ensures Unlock(trace[i], t, m).1 == Pass <==> Balance(trace, steps, t, m, i) > 0
  {
    HeldIsBalance(trace, steps, t, m, i);
    RunInv(trace, steps, i);
    UnlockAnswers(trace[i], t, m);
  }
}
