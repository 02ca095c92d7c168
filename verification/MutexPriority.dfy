/**
 * Priorities around mutexes: who gets the lock next, and what priority inheritance promises
 * and does not promise.
 */
module MutexPriority {
  import opened Wrappers
  import opened MutexSpec
  import opened WaitQueue
  import D = MutexDeadlock

  // ---- who is next ----

  /** `t` comes before `u` in a wait queue: higher priority, or equal and earlier. */
  ghost predicate Before(s: State, t: Tid, u: Tid) {
    Precedes(PrioOf(s.tasks), SinceOf(s.tasks), t, u)
  }

  /** When each task last joined a queue. */
  function SinceOf(tasks: map<Tid, Task>): (since: map<Tid, nat>)
    ensures since.Keys == tasks.Keys && forall t | t in tasks :: since[t] == tasks[t].arrival
  {
    map t | t in tasks :: tasks[t].arrival
  }

  ghost predicate QueueOrdered(s: State, m: Mid)
    requires m in s.mutexes
  {
    InOrder(PrioOf(s.tasks), SinceOf(s.tasks), s.mutexes[m].waitQ)
  }

  /** Every wait queue is sorted by priority, equal priorities by arrival. */
  ghost predicate Ordered(s: State) {
    && (forall m {:trigger QueueOrdered(s, m)} | m in s.mutexes :: QueueOrdered(s, m))
    && (forall t | t in s.tasks && s.tasks[t].blockedOn.Some? :: s.tasks[t].arrival < s.clock)
  }

  /** Unlock gives the mutex to the earliest arrival among the waiters of highest priority, and to nobody else. */
  lemma UnlockPicksFirst(s: State, t: Tid, m: Mid)
    requires Inv(s) && Ordered(s) && Runs(s, t) && m in s.mutexes
    requires s.mutexes[m].owner == Some(t) && s.mutexes[m].recursive == 0
    ensures var x' := Unlock(s, t, m).0.mutexes[m];
            && x'.recursive == 0
            && (x'.owner.None? <==> s.mutexes[m].waitQ == [])
            && (x'.owner.Some? ==>
                  var w := x'.owner.value;
                  && w in s.mutexes[m].waitQ && w !in x'.waitQ
                  && (forall u | u in s.mutexes[m].waitQ && u != w :: u in s.tasks && w in s.tasks && Before(s, w, u) && u in x'.waitQ))
  {
    var q := s.mutexes[m].waitQ;
    assert QueueOk(s, m) && QueueOrdered(s, m);
    if q != [] {
      forall u | u in q && u != q[0]
        ensures u in s.tasks && Before(s, q[0], u) && u in q[1..]
      {
        var j :| 0 <= j < |q| && q[j] == u;
        assert q[1..][j - 1] == u;
      }
    }
  }

  /** Two states that agree on the fields the order looks at, for every blocked task. */
  lemma OrderedSame(s: State, s': State)
    requires Inv(s) && Ordered(s) && s'.clock == s.clock && s'.mutexes.Keys == s.mutexes.Keys
    requires forall m | m in s'.mutexes :: Subsequence(s'.mutexes[m].waitQ, s.mutexes[m].waitQ)
    requires forall t | t in s'.tasks && s'.tasks[t].blockedOn.Some? ::
      t in s.tasks && s'.tasks[t].prio == s.tasks[t].prio && s'.tasks[t].arrival == s.tasks[t].arrival && s.tasks[t].blockedOn.Some?
    requires Inv(s')
    ensures Ordered(s')
  {
    forall m | m in s'.mutexes
      ensures QueueOrdered(s', m)
    {
      assert QueueOrdered(s, m) && QueueOk(s', m);
      var f :| Embeds(s'.mutexes[m].waitQ, s.mutexes[m].waitQ, f);
      var q, q' := s.mutexes[m].waitQ, s'.mutexes[m].waitQ;
      forall i, j | 0 <= i < j < |q'|
        ensures Before(s', q'[i], q'[j])
      {
        assert Before(s, q[f[i]], q[f[j]]) && q'[i] in q' && q'[j] in q';
      }
    }
  }

  // ---- when inheritance disturbs a queue ----

  /** Raising `o` to priority `p` moves it past the waiter in front of it in the queue it is blocked in. */
  ghost predicate Overtakes(s: State, o: Tid, p: nat)
    requires o in s.tasks
  {
    exists n: Mid, i: nat ::
      && s.tasks[o].blockedOn == Some(n) && n in s.mutexes && 0 < i < |s.mutexes[n].waitQ| && s.mutexes[n].waitQ[i] == o
      && s.mutexes[n].waitQ[i - 1] in s.tasks
      && (var f := s.tasks[s.mutexes[n].waitQ[i - 1]]; f.prio < p || (f.prio == p && f.arrival >= s.tasks[o].arrival))
  }

  /** Inheritance keeps the queues ordered iff the raised owner is not itself waiting behind someone it now outranks. */
  lemma InheritKeepsOrderIff(s: State, o: Tid, t: Tid)
    requires Inv(s) && Ordered(s) && o in s.tasks && Runs(s, t)
    ensures Ordered(Inherit(s, o, t)) <==> s.tasks[t].prio <= s.tasks[o].prio || !Overtakes(s, o, s.tasks[t].prio)
  {
    var s' := Inherit(s, o, t);
    var p := s.tasks[t].prio;
    if p > s.tasks[o].prio {
      if Overtakes(s, o, p) {
        RaisedPast(s, s', o, p);
      } else {
        forall m | m in s'.mutexes
          ensures QueueOrdered(s', m)
        {
          RaisedInPlace(s, s', m, o, p);
        }
      }
    }
  }

  lemma RaisedPast(s: State, s': State, o: Tid, p: nat)
    requires Inv(s) && o in s.tasks && Overtakes(s, o, p)
    requires s' == s.(tasks := s.tasks[o := s.tasks[o].(prio := p)])
    ensures !Ordered(s')
  {
    var n: Mid, i: nat :| s.tasks[o].blockedOn == Some(n) && n in s.mutexes && 0 < i < |s.mutexes[n].waitQ| && s.mutexes[n].waitQ[i] == o
      && s.mutexes[n].waitQ[i - 1] in s.tasks
      && (var f := s.tasks[s.mutexes[n].waitQ[i - 1]]; f.prio < p || (f.prio == p && f.arrival >= s.tasks[o].arrival));
    assert QueueOk(s, n);
    var q := s.mutexes[n].waitQ;
    assert q[i - 1] != o && s'.tasks[q[i - 1]] == s.tasks[q[i - 1]];
    assert !Precedes(PrioOf(s'.tasks), SinceOf(s'.tasks), q[i - 1], q[i]);
    assert !QueueOrdered(s', n);
  }

  lemma RaisedInPlace(s: State, s': State, m: Mid, o: Tid, p: nat)
    requires Inv(s) && Ordered(s) && m in s.mutexes && o in s.tasks && p > s.tasks[o].prio && !Overtakes(s, o, p)
    requires s' == s.(tasks := s.tasks[o := s.tasks[o].(prio := p)])
    ensures QueueOrdered(s', m)
  {
    var q := s.mutexes[m].waitQ;
    assert QueueOk(s, m) && QueueOrdered(s, m) && TaskOk(s, o);
    forall i, j | 0 <= i < j < |q|
      ensures q[i] in s'.tasks && q[j] in s'.tasks && Before(s', q[i], q[j])
    {
      assert Before(s, q[i], q[j]) && q[i] in q && q[j] in q;
      if q[j] == o {
        assert q[j - 1] in q;
        assert s.tasks[q[j - 1]].prio >= p;
        assert i < j - 1 ==> Before(s, q[i], q[j - 1]);
        assert Before(s, q[j - 1], o);
      }
    }
  }

  /** The order looks at the priorities and arrivals of those in the queue only. */
  lemma SameOrder(s: State, s': State, q: seq<Tid>)
    requires InOrder(PrioOf(s.tasks), SinceOf(s.tasks), q)
    requires forall u | u in q :: u in s.tasks && u in s'.tasks && s'.tasks[u].prio == s.tasks[u].prio && s'.tasks[u].arrival == s.tasks[u].arrival
    ensures InOrder(PrioOf(s'.tasks), SinceOf(s'.tasks), q)
  {
    forall i, j | 0 <= i < j < |q|
      ensures Precedes(PrioOf(s'.tasks), SinceOf(s'.tasks), q[i], q[j])
    {
      assert Precedes(PrioOf(s.tasks), SinceOf(s.tasks), q[i], q[j]) && q[i] in q && q[j] in q;
    }
  }

  /** Joining a queue at the place `cgrtos_wait_list_add` picks keeps it ordered. */
  lemma BlockKeepsOrder(s: State, t: Tid, m: Mid)
    requires Inv(s) && Ordered(s) && Runs(s, t) && m in s.mutexes
    requires forall u | u in s.mutexes[m].waitQ :: u in s.tasks
    ensures Ordered(Block(s, t, m))
  {
    var s' := Block(s, t, m);
    assert TaskOk(s, t);
    forall n | n in s'.mutexes
      ensures QueueOrdered(s', n)
    {
      assert QueueOk(s, n) && QueueOrdered(s, n);
      if n == m { InsertedInOrder(s, t, m); } else { SameOrder(s, s', s.mutexes[n].waitQ); }
    }
  }

  lemma InsertedInOrder(s: State, t: Tid, m: Mid)
    requires Inv(s) && Ordered(s) && Runs(s, t) && m in s.mutexes
    requires forall u | u in s.mutexes[m].waitQ :: u in s.tasks
    ensures QueueOrdered(Block(s, t, m), m)
  {
    var s' := Block(s, t, m);
    assert QueueOk(s, m) && QueueOrdered(s, m);
    JoinedInOrder(PrioOf(s.tasks), SinceOf(s.tasks), s.mutexes[m].waitQ, t, s.clock);
    var r, since := s'.mutexes[m].waitQ, SinceOf(s.tasks)[t := s.clock];
    forall i, j | 0 <= i < j < |r|
      ensures Precedes(PrioOf(s'.tasks), SinceOf(s'.tasks), r[i], r[j])
    {
      assert Precedes(PrioOf(s.tasks), since, r[i], r[j]);
    }
  }

  // ---- priority inheritance ----

  /** `t` holds mutex `m` or waits for it. */
  predicate Involved(s: State, t: Tid, m: Mid) {
    m in s.mutexes && (s.mutexes[m].owner == Some(t) || t in s.mutexes[m].waitQ)
  }

  /** Each task holds or waits for at most one mutex. */
  ghost predicate Simple(s: State) {
    forall t: Tid, m: Mid, n: Mid | Involved(s, t, m) && Involved(s, t, n) :: m == n
  }

  /** An owner runs at no less than the priority of any of its waiters; everyone else at base priority. */
  ghost predicate Inherited(s: State) {
    && (forall m, w | m in s.mutexes && w in s.mutexes[m].waitQ ::
          s.mutexes[m].owner.Some? && s.mutexes[m].owner.value in s.tasks && w in s.tasks &&
          s.tasks[s.mutexes[m].owner.value].prio >= s.tasks[w].prio)
    && (forall t | t in s.tasks && !Owns(s, t) :: s.tasks[t].prio == s.tasks[t].base)
  }

  ghost predicate Owns(s: State, t: Tid) {
    exists m :: m in s.mutexes && s.mutexes[m].owner == Some(t)
  }

  lemma SameOwners(s: State, s': State)
    requires s.mutexes.Keys == s'.mutexes.Keys && forall m | m in s.mutexes :: s'.mutexes[m].owner == s.mutexes[m].owner
    ensures forall t: Tid :: Owns(s', t) <==> Owns(s, t)
  {
    forall t: Tid
      ensures Owns(s', t) <==> Owns(s, t)
    {
      assert Owns(s, t) ==> exists m :: m in s'.mutexes && s'.mutexes[m].owner == Some(t);
    }
  }

  /** A mutex may gain owner `t`; no owner is lost. */
  lemma FreshOwner(s: State, s': State, t: Tid)
    requires s.mutexes.Keys == s'.mutexes.Keys
    requires forall m | m in s.mutexes :: s'.mutexes[m].owner == s.mutexes[m].owner || s.mutexes[m].owner.None?
    ensures forall u: Tid :: Owns(s, u) ==> Owns(s', u)
  {
    forall u: Tid | Owns(s, u)
      ensures Owns(s', u)
    {
      var m :| m in s.mutexes && s.mutexes[m].owner == Some(u);
      assert s'.mutexes[m].owner == Some(u);
    }
  }

  /** Steps by which a task never comes to hold or wait for a second mutex. */
  ghost predicate Frugal(s: State, a: Step) {
    a.LockStep? ==> forall n | Involved(s, a.t, n) :: n == a.m
  }

  ghost predicate Good(s: State) {
    Inv(s) && Ordered(s) && Simple(s) && Inherited(s)
  }

  /** Only `t` got involved, and only with the one mutex it may be involved with. */
  lemma SimpleWith(s: State, s': State, t: Tid, m: Mid)
    requires Simple(s) && forall n | Involved(s, t, n) :: n == m
    requires forall u: Tid, n: Mid | Involved(s', u, n) :: Involved(s, u, n) || (u == t && n == m)
    ensures Simple(s')
  {
    forall u: Tid, n: Mid, n': Mid | Involved(s', u, n) && Involved(s', u, n')
      ensures n == n'
    {
      assert Involved(s, u, n) || (u == t && n == m);
      assert Involved(s, u, n') || (u == t && n' == m);
    }
  }

  lemma LockGood(s: State, t: Tid, m: Mid, wait: bool)
    requires Good(s) && Runs(s, t) && m in s.mutexes && Frugal(s, LockStep(t, m, wait))
    ensures Good(Lock(s, t, m, wait).0)
  {
    LockKeepsInv(s, t, m, wait);
    assert QueueOk(s, m) && TaskOk(s, t);
    if Lock(s, t, m, wait).1 == Asleep {
      SleepOrdered(s, t, m);
      SleepSimple(s, t, m);
      var o := s.mutexes[m].owner.value;
      OwnerInNoQueue(s, o, m);
      SleepFields(s, t, m, o);
      SleepInherited(s, Lock(s, t, m, wait).0, t, m, o);
    } else {
      GrantGood(s, t, m, wait);
    }
  }

  /** A lock call that does not sleep leaves every queue alone. */
  lemma GrantGood(s: State, t: Tid, m: Mid, wait: bool)
    requires Good(s) && Runs(s, t) && m in s.mutexes && Frugal(s, LockStep(t, m, wait))
    requires Lock(s, t, m, wait).1 != Asleep && Inv(Lock(s, t, m, wait).0)
    ensures Good(Lock(s, t, m, wait).0)
  {
    var s' := Lock(s, t, m, wait).0;
    forall n | n in s'.mutexes
      ensures s'.mutexes[n].waitQ == s.mutexes[n].waitQ && Subsequence(s'.mutexes[n].waitQ, s.mutexes[n].waitQ)
    {
      SubsequenceSelf(s.mutexes[n].waitQ);
    }
    OrderedSame(s, s');
    FreshOwner(s, s', t);
    SimpleWith(s, s', t, m);
    assert QueueOk(s, m);
  }

  lemma SleepOrdered(s: State, t: Tid, m: Mid)
    requires Good(s) && Runs(s, t) && m in s.mutexes
    requires s.mutexes[m].owner.Some? && s.mutexes[m].owner != Some(t) && s.mutexes[m].owner.value in s.tasks
    requires forall u | u in s.mutexes[m].waitQ :: u in s.tasks
    ensures Ordered(Block(Inherit(s, s.mutexes[m].owner.value, t), t, m))
  {
    var o := s.mutexes[m].owner.value;
    var s1 := Inherit(s, o, t);
    OwnerNotQueued(s, o, m);
    InheritKeepsOrderIff(s, o, t);
    PrioKeepsInv(s, s1);
    BlockKeepsOrder(s1, t, m);
  }

  /** `t` has joined the queue of `m`, whose owner `o` has inherited from it. */
  ghost predicate Slept(s: State, s': State, t: Tid, m: Mid, o: Tid)
    requires t in s.tasks && o in s.tasks
  {
    && s'.tasks.Keys == s.tasks.Keys && s'.mutexes.Keys == s.mutexes.Keys
    && (forall n | n in s.mutexes :: s'.mutexes[n].owner == s.mutexes[n].owner)
    && (forall n, w | n in s.mutexes && w in s'.mutexes[n].waitQ :: w in s.mutexes[n].waitQ || (n == m && w == t))
    && (forall u | u in s.tasks :: s'.tasks[u].base == s.tasks[u].base && (u != o ==> s'.tasks[u].prio == s.tasks[u].prio))
    && s'.tasks[o].prio >= s.tasks[o].prio && s'.tasks[o].prio >= s.tasks[t].prio
  }

  lemma SleepFields(s: State, t: Tid, m: Mid, o: Tid)
    requires Inv(s) && Runs(s, t) && m in s.mutexes && s.mutexes[m].owner == Some(o) && o in s.tasks && o != t
    requires forall u | u in s.mutexes[m].waitQ :: u in s.tasks
    ensures Slept(s, Block(Inherit(s, o, t), t, m), t, m, o)
  {
    assert QueueOk(s, m);
    InsertedContent(Inherit(s, o, t).tasks, s.mutexes[m].waitQ, t);
    var s' := Block(Inherit(s, o, t), t, m);
    forall u | u in s.tasks
      ensures s'.tasks[u].base == s.tasks[u].base && (u != o ==> s'.tasks[u].prio == s.tasks[u].prio)
    {
    }
    assert s'.tasks[o].prio >= s.tasks[o].prio && s'.tasks[o].prio >= s.tasks[t].prio;
  }

  lemma SleepInherited(s: State, s': State, t: Tid, m: Mid, o: Tid)
    requires Inherited(s) && t in s.tasks && o in s.tasks && Slept(s, s', t, m, o)
    requires m in s.mutexes && s.mutexes[m].owner == Some(o) && o != t
    requires forall n | n in s.mutexes :: o !in s.mutexes[n].waitQ
    ensures Inherited(s')
  {
    assert Owns(s, o);
    SameOwners(s, s');
    forall n, w | n in s'.mutexes && w in s'.mutexes[n].waitQ
      ensures s'.mutexes[n].owner.Some? && s'.mutexes[n].owner.value in s'.tasks && w in s'.tasks
      ensures s'.tasks[s'.mutexes[n].owner.value].prio >= s'.tasks[w].prio
    {
      assert w in s.mutexes[n].waitQ || (n == m && w == t);
    }
  }

  lemma OwnerInNoQueue(s: State, o: Tid, m: Mid)
    requires Inv(s) && Simple(s) && m in s.mutexes && s.mutexes[m].owner == Some(o) && o in s.tasks
    ensures forall n | n in s.mutexes :: o !in s.mutexes[n].waitQ
  {
    OwnerNotQueued(s, o, m);
    forall n | n in s.mutexes
      ensures o !in s.mutexes[n].waitQ
    {
      assert QueueOk(s, n);
    }
  }

  lemma OwnerNotQueued(s: State, o: Tid, m: Mid)
    requires Inv(s) && Simple(s) && m in s.mutexes && s.mutexes[m].owner == Some(o) && o in s.tasks
    ensures s.tasks[o].blockedOn.None?
  {
    assert TaskOk(s, o) && QueueOk(s, m) && Involved(s, o, m);
    if s.tasks[o].blockedOn.Some? {
      assert Involved(s, o, s.tasks[o].blockedOn.value);
    }
  }

  lemma SleepSimple(s: State, t: Tid, m: Mid)
    requires Good(s) && Runs(s, t) && m in s.mutexes && forall n | Involved(s, t, n) :: n == m
    requires s.mutexes[m].owner.Some? && s.mutexes[m].owner.value in s.tasks
    requires forall u | u in s.mutexes[m].waitQ :: u in s.tasks
    ensures Simple(Block(Inherit(s, s.mutexes[m].owner.value, t), t, m))
  {
    var s1 := Inherit(s, s.mutexes[m].owner.value, t);
    var s' := Block(s1, t, m);
    assert QueueOk(s, m) && TaskOk(s, t);
    InsertedContent(s1.tasks, s.mutexes[m].waitQ, t);
    SimpleWith(s, s', t, m);
  }

  lemma TimeOutGood(s: State, t: Tid)
    requires Good(s) && t in s.tasks && s.tasks[t].blockedOn.Some?
    ensures Good(TimeOut(s, t))
  {
    var s' := TimeOut(s, t);
    TimeOutKeepsInv(s, t);
    assert TaskOk(s, t);
    var m := s.tasks[t].blockedOn.value;
    assert QueueOk(s, m);
    RemovedContent(s.mutexes[m].waitQ, t);
    forall n | n in s'.mutexes
      ensures Subsequence(s'.mutexes[n].waitQ, s.mutexes[n].waitQ)
    {
      SubsequenceSelf(s.mutexes[n].waitQ);
      SubsequenceRemoved(s.mutexes[m].waitQ, t);
    }
    OrderedSame(s, s');
    forall u: Tid, n: Mid | Involved(s', u, n)
      ensures Involved(s, u, n)
    {
    }
    SameOwners(s, s');
  }

  lemma SimpleWithin(s: State, s': State)
    requires Simple(s) && forall u: Tid, n: Mid | Involved(s', u, n) :: Involved(s, u, n)
    ensures Simple(s')
  {
  }

  lemma ReleaseOrdered(s: State, t: Tid, m: Mid)
    requires Good(s) && Runs(s, t) && m in s.mutexes && s.mutexes[m].owner == Some(t) && s.mutexes[m].recursive == 0
    requires Inv(Unlock(s, t, m).0)
    ensures Ordered(Unlock(s, t, m).0)
  {
    var s' := Unlock(s, t, m).0;
    ReleasedFields(s, t, m);
    forall n | n in s'.mutexes
      ensures Subsequence(s'.mutexes[n].waitQ, s.mutexes[n].waitQ)
    {
      SubsequenceSelf(s.mutexes[n].waitQ);
      if s.mutexes[m].waitQ != [] { SubsequenceTail(s.mutexes[m].waitQ); }
    }
    OrderedSame(s, s');
  }

  /** What a final unlock does to the queues and to the tasks that stay in them. */
  lemma ReleasedFields(s: State, t: Tid, m: Mid)
    requires Inv(s) && Runs(s, t) && m in s.mutexes && s.mutexes[m].owner == Some(t) && s.mutexes[m].recursive == 0
    ensures var s', q := Unlock(s, t, m).0, s.mutexes[m].waitQ;
            && s'.clock == s.clock && s'.mutexes.Keys == s.mutexes.Keys
            && (forall n | n in s'.mutexes :: s'.mutexes[n].waitQ == if n == m && q != [] then q[1..] else s.mutexes[n].waitQ)
            && (forall u | u in s'.tasks && s'.tasks[u].blockedOn.Some? ::
                  u in s.tasks && s'.tasks[u].prio == s.tasks[u].prio && s'.tasks[u].arrival == s.tasks[u].arrival && s.tasks[u].blockedOn.Some?)
  {
    assert QueueOk(s, m);
    assert s.mutexes[m].waitQ != [] ==> s.mutexes[m].waitQ[0] in s.mutexes[m].waitQ;
  }

  lemma ReleaseSimple(s: State, t: Tid, m: Mid)
    requires Good(s) && Runs(s, t) && m in s.mutexes && s.mutexes[m].owner == Some(t) && s.mutexes[m].recursive == 0
    ensures Simple(Unlock(s, t, m).0)
  {
    var s' := Unlock(s, t, m).0;
    var q := s.mutexes[m].waitQ;
    assert QueueOk(s, m);
    assert q != [] ==> q[0] in q && q == [q[0]] + q[1..];
    SimpleWithin(s, s');
  }

  /** Whoever waits for a mutex other than `m` that `t` holds is at most at the base priority of `t`. */
  ghost predicate OthersCovered(s: State, t: Tid, m: Mid)
    requires t in s.tasks
  {
    forall n, w | n in s.mutexes && n != m && s.mutexes[n].owner == Some(t) && w in s.mutexes[n].waitQ ::
      w in s.tasks && s.tasks[t].base >= s.tasks[w].prio
  }

  /** A final unlock keeps every owner at least at the priority of its waiters iff nothing else the task holds made it inherit. */
  lemma UnlockKeepsInheritedIff(s: State, t: Tid, m: Mid)
    requires Inv(s) && Ordered(s) && Inherited(s) && Runs(s, t) && m in s.mutexes
    requires s.mutexes[m].owner == Some(t) && s.mutexes[m].recursive == 0
    ensures Inherited(Unlock(s, t, m).0) <==> OthersCovered(s, t, m)
    ensures Unlock(s, t, m).0.tasks[t].prio == s.tasks[t].base
  {
    ReleasedPrios(s, t, m);
    if OthersCovered(s, t, m) { CoveredInherited(s, t, m); } else { UncoveredLost(s, t, m); }
  }

  lemma CoveredInherited(s: State, t: Tid, m: Mid)
    requires Inv(s) && Ordered(s) && Inherited(s) && Runs(s, t) && m in s.mutexes && OthersCovered(s, t, m)
    requires s.mutexes[m].owner == Some(t) && s.mutexes[m].recursive == 0
    ensures Inherited(Unlock(s, t, m).0)
  {
    var s' := Unlock(s, t, m).0;
    ReleasedPrios(s, t, m);
    forall n, w | n in s'.mutexes && w in s'.mutexes[n].waitQ
      ensures s'.mutexes[n].owner.Some? && s'.mutexes[n].owner.value in s'.tasks && w in s'.tasks
      ensures s'.tasks[s'.mutexes[n].owner.value].prio >= s'.tasks[w].prio
    {
      if n == m { HandedAbove(s, t, m, w); } else { assert QueueOk(s, n) && QueueOk(s, m); }
    }
    forall u | u in s'.tasks && !Owns(s', u)
      ensures s'.tasks[u].prio == s'.tasks[u].base
    {
      if u != t { OthersKeepOwning(s, s', t, m, u); }
    }
  }

  lemma UncoveredLost(s: State, t: Tid, m: Mid)
    requires Inv(s) && Runs(s, t) && m in s.mutexes && !OthersCovered(s, t, m)
    requires s.mutexes[m].owner == Some(t) && s.mutexes[m].recursive == 0
    ensures !Inherited(Unlock(s, t, m).0)
  {
    var s' := Unlock(s, t, m).0;
    ReleasedPrios(s, t, m);
    var n, w :| n in s.mutexes && n != m && s.mutexes[n].owner == Some(t) && w in s.mutexes[n].waitQ
      && !(w in s.tasks && s.tasks[t].base >= s.tasks[w].prio);
    assert QueueOk(s, n) && QueueOk(s, m);
    assert s'.mutexes[n] == s.mutexes[n];
  }

  /** What a final unlock does to priorities and owners. */
  lemma ReleasedPrios(s: State, t: Tid, m: Mid)
    requires Inv(s) && Runs(s, t) && m in s.mutexes && s.mutexes[m].owner == Some(t) && s.mutexes[m].recursive == 0
    ensures var s', q := Unlock(s, t, m).0, s.mutexes[m].waitQ;
            && s'.tasks.Keys == s.tasks.Keys && s'.mutexes.Keys == s.mutexes.Keys
            && s'.tasks[t].prio == s'.tasks[t].base == s.tasks[t].base
            && (forall n | n in s.mutexes && n != m :: s'.mutexes[n] == s.mutexes[n])
            && s'.mutexes[m].owner == (if q == [] then None else Some(q[0]))
            && (forall u | u in s.tasks && u != t ::
                  s'.tasks[u].base == s.tasks[u].base && s'.tasks[u].prio >= s.tasks[u].prio
                  && (s'.mutexes[m].owner != Some(u) ==> s'.tasks[u].prio == s.tasks[u].prio))
  {
    assert QueueOk(s, m);
    assert s.mutexes[m].waitQ != [] ==> s.mutexes[m].waitQ[0] in s.mutexes[m].waitQ;
  }

  lemma ReleaseInherited(s: State, t: Tid, m: Mid)
    requires Good(s) && Runs(s, t) && m in s.mutexes && s.mutexes[m].owner == Some(t) && s.mutexes[m].recursive == 0
    ensures Inherited(Unlock(s, t, m).0)
    ensures Unlock(s, t, m).0.tasks[t].prio == s.tasks[t].base
  {
    UnlockKeepsInheritedIff(s, t, m);
    forall n | n in s.mutexes && s.mutexes[n].owner == Some(t)
      ensures n == m
    {
      assert Involved(s, t, n) && Involved(s, t, m);
    }
  }

  lemma OthersKeepOwning(s: State, s': State, t: Tid, m: Mid, u: Tid)
    requires m in s.mutexes && s.mutexes[m].owner == Some(t) && u != t
    requires s.mutexes.Keys == s'.mutexes.Keys && forall n | n in s.mutexes && n != m :: s'.mutexes[n].owner == s.mutexes[n].owner
    ensures Owns(s, u) ==> Owns(s', u)
  {
    if Owns(s, u) {
      var n :| n in s.mutexes && s.mutexes[n].owner == Some(u);
      assert s'.mutexes[n].owner == Some(u);
    }
  }

  lemma HandedAbove(s: State, t: Tid, m: Mid, w: Tid)
    requires Inv(s) && Ordered(s) && Runs(s, t) && m in s.mutexes && s.mutexes[m].owner == Some(t) && s.mutexes[m].recursive == 0
    requires w in Unlock(s, t, m).0.mutexes[m].waitQ
    ensures var s' := Unlock(s, t, m).0;
            && s'.mutexes[m].owner.Some? && s'.mutexes[m].owner.value in s'.tasks && w in s'.tasks
            && s'.tasks[s'.mutexes[m].owner.value].prio >= s'.tasks[w].prio
  {
    var q := s.mutexes[m].waitQ;
    assert QueueOk(s, m) && QueueOrdered(s, m);
    var j :| 0 <= j < |q[1..]| && q[1..][j] == w;
    assert q[0] in q && q[1] in q && q[j + 1] in q;
    assert j > 0 ==> Before(s, q[1], q[j + 1]);
  }

  lemma UnlockGood(s: State, t: Tid, m: Mid)
    requires Good(s) && Runs(s, t) && m in s.mutexes
    ensures Good(Unlock(s, t, m).0)
    ensures s.mutexes[m].owner == Some(t) && s.mutexes[m].recursive == 0 ==>
              Unlock(s, t, m).0.tasks[t].prio == s.tasks[t].base
  {
    var s' := Unlock(s, t, m).0;
    UnlockKeepsInv(s, t, m);
    assert QueueOk(s, m);
    if s.mutexes[m].owner == Some(t) && s.mutexes[m].recursive == 0 {
      ReleaseOrdered(s, t, m);
      ReleaseSimple(s, t, m);
      ReleaseInherited(s, t, m);
    } else {
      forall n | n in s'.mutexes
        ensures s'.mutexes[n].waitQ == s.mutexes[n].waitQ && Subsequence(s'.mutexes[n].waitQ, s.mutexes[n].waitQ)
      {
        SubsequenceSelf(s.mutexes[n].waitQ);
      }
      OrderedSame(s, s');
      SameOwners(s, s');
      SimpleWithin(s, s');
    }
  }

  lemma ReturnGood(s: State, t: Tid)
    requires Good(s) && t in s.tasks && s.tasks[t].blockedOn.None? && s.tasks[t].inCall.Some?
    ensures Good(Return(s, t).0)
  {
    var s' := Return(s, t).0;
    ReturnKeepsInv(s, t);
    forall n | n in s'.mutexes
      ensures Subsequence(s'.mutexes[n].waitQ, s.mutexes[n].waitQ)
    {
      SubsequenceSelf(s.mutexes[n].waitQ);
    }
    OrderedSame(s, s');
    SameOwners(s, s');
    SimpleWithin(s, s');
  }

  // ---- deletion ----

  /** The same state with mutex `m` locked only once. */
  function LockedOnce(s: State, m: Mid): State
    requires m in s.mutexes
  {
    s.(mutexes := s.mutexes[m := s.mutexes[m].(recursive := 0)])
  }

  lemma LockedOnceInv(s: State, m: Mid)
    requires Inv(s) && m in s.mutexes
    ensures Inv(LockedOnce(s, m))
  {
    var z := LockedOnce(s, m);
    forall n | n in z.mutexes
      ensures QueueOk(z, n)
    {
      assert QueueOk(s, n);
    }
    forall u | u in z.tasks
      ensures TaskOk(z, u)
    {
      assert TaskOk(s, u);
    }
  }

  lemma LockedOnceGood(s: State, m: Mid)
    requires Good(s) && m in s.mutexes
    ensures Good(LockedOnce(s, m))
  {
    var z := LockedOnce(s, m);
    LockedOnceInv(s, m);
    forall n | n in z.mutexes
      ensures QueueOrdered(z, n)
    {
      assert QueueOrdered(s, n);
    }
    SimpleWithin(s, z);
    SameOwners(s, z);
  }

  /** The forced release of a mutex is a final unlock. */
  lemma ReleaseNextGood(s: State, t: Tid, m: Mid)
    requires Good(s) && t in s.tasks && (s.tasks[t].blockedOn.None? ==> s.tasks[t].inCall.None?)
    ensures Good(ReleaseNext(s, t, m))
  {
    if m in s.mutexes && s.mutexes[m].owner == Some(t) {
      OwnerNotQueued(s, t, m);
      LockedOnceGood(s, m);
      var z := LockedOnce(s, m);
      assert QueueOk(s, m) && QueueOk(z, m);
      UnlockGood(z, t, m);
      SameHandOff(Restore(s, t), Restore(z, t), m);
    }
  }

  /** A hand-off does not depend on the recursion count. */
  lemma SameHandOff(s: State, z: State, m: Mid)
    requires m in s.mutexes && (forall u | u in s.mutexes[m].waitQ :: u in s.tasks) && z == LockedOnce(s, m)
    ensures HandOff(z, m) == HandOff(s, m)
  {
    var x := if s.mutexes[m].waitQ == [] then Mutex(None, 0, []) else Mutex(Some(s.mutexes[m].waitQ[0]), 0, s.mutexes[m].waitQ[1..]);
    assert z.mutexes[m := x] == s.mutexes[m := x];
  }

  lemma ReleaseAllGood(s: State, t: Tid, i: nat) returns (s': State)
    requires Good(s) && t in s.tasks && (s.tasks[t].blockedOn.None? ==> s.tasks[t].inCall.None?)
    ensures s' == ReleaseAll(s, t, i) && Good(s')
  {
    s' := s;
    for k := 0 to i
      invariant s' == ReleaseAll(s, t, k) && Good(s')
    {
      s' := ReleaseLastGood(s, t, k, s');
    }
  }

  lemma ReleaseLastGood(s: State, t: Tid, i: nat, s1: State) returns (s': State)
    requires Inv(s) && t in s.tasks && (s.tasks[t].blockedOn.None? ==> s.tasks[t].inCall.None?)
    requires Good(s1) && s1 == ReleaseAll(s, t, i)
    ensures s' == ReleaseAll(s, t, i + 1) && Good(s')
  {
    var s2 := ReleaseAllStep(s, t, i);
    ReleaseNextGood(s1, t, i);
    s' := ReleaseNext(s1, t, i);
  }

  lemma ReleaseAllStep(s: State, t: Tid, i: nat) returns (s1: State)
    requires Inv(s) && t in s.tasks && (s.tasks[t].blockedOn.None? ==> s.tasks[t].inCall.None?)
    ensures s1 == ReleaseAll(s, t, i) && Inv(s1) && t in s1.tasks && (s1.tasks[t].blockedOn.None? ==> s1.tasks[t].inCall.None?)
    ensures ReleaseAll(s, t, i + 1) == ReleaseNext(s1, t, i)
  {
    s1 := ReleaseAll(s, t, i);
  }

  lemma EndCallGood(s: State, t: Tid)
    requires Good(s) && t in s.tasks
    ensures Good(EndCall(s, t))
  {
    if s.tasks[t].blockedOn.None? {
      if s.tasks[t].inCall.Some? { ReturnGood(s, t); } else { assert EndCall(s, t).tasks == s.tasks; }
    }
  }

  /** A deleted task gives its mutex to the next waiter and leaves the queue it is in. */
  lemma DeleteGood(s: State, t: Tid)
    requires Good(s) && t in s.tasks
    ensures Good(Delete(s, t))
  {
    EndCallGood(s, t);
    var s1 := ReleaseAllGood(EndCall(s, t), t, POOL);
    if s1.tasks[t].blockedOn.Some? {
      assert TaskOk(s1, t);
      TimeOutGood(s1, t);
      ReturnGood(TimeOut(s1, t), t);
    }
  }

  /** As long as no task takes a second mutex, inheritance and queue order survive every step. */
  lemma NextKeepsGood(s: State, a: Step)
    requires Good(s) && Enabled(s, a) && Frugal(s, a)
    ensures Good(Next(s, a))
  {
    match a
    case LockStep(t, m, wait) => LockGood(s, t, m, wait);
    case UnlockStep(t, m) => UnlockGood(s, t, m);
    case TimeOutStep(t) => TimeOutGood(s, t);
    case ReturnStep(t) => ReturnGood(s, t);
    case DeleteStep(t) => DeleteGood(s, t);
  }

  lemma InitialGood(s: State)
    requires D.Initial(s)
    ensures Good(s)
  {
    D.InitialSafe(s);
  }

  /** In every state of a run in which no task takes a second mutex, owners run at their waiters' priority and everyone else at base. */
  lemma {:induction false} RunsKeepGood(trace: seq<State>, steps: seq<Step>, i: nat)
    requires D.IsRun(trace, steps) && i < |trace|
    requires forall j | 0 <= j < |steps| :: Frugal(trace[j], steps[j])
    ensures Good(trace[i])
  {
    if i == 0 {
      InitialGood(trace[0]);
    } else {
      RunsKeepGood(trace, steps, i - 1);
      NextKeepsGood(trace[i - 1], steps[i - 1]);
    }
  }

  /** A lock call that had to wait reports success exactly when its caller now owns the mutex, once. */
  lemma ReturnTellsTheTruth(s: State, t: Tid)
    requires Inv(s) && t in s.tasks && s.tasks[t].blockedOn.None? && s.tasks[t].inCall.Some?
    ensures var m := s.tasks[t].inCall.value;
            && m in s.mutexes
            && (Return(s, t).1 == Pass <==> s.mutexes[m].owner == Some(t))
            && (Return(s, t).1 == Pass ==> s.mutexes[m].recursive == 0)
  {
    assert TaskOk(s, t);
  }

  /** Task 2 holds mutex 1 and waits behind task 1 for mutex 0; task 3, of higher priority, holds nothing. */
  ghost predicate Crossed(s: State) {
    && s.tasks.Keys == {0, 1, 2, 3} && s.mutexes.Keys == {0, 1} && s.clock == 2
    && s.tasks[0] == Task(3, 1, None, None, false, 0) && s.tasks[1] == Task(3, 3, Some(0), Some(0), false, 0)
    && s.tasks[2] == Task(2, 2, Some(0), Some(0), false, 1) && s.tasks[3] == Task(9, 9, None, None, false, 0)
    && s.mutexes[0] == Mutex(Some(0), 0, [1, 2]) && s.mutexes[1] == Mutex(Some(2), 0, [])
  }

  lemma CrossedOk(s: State)
    requires Crossed(s)
    ensures Inv(s) && Ordered(s)
  {
    assert QueueOk(s, 0) && QueueOk(s, 1);
    assert TaskOk(s, 0) && TaskOk(s, 1) && TaskOk(s, 2) && TaskOk(s, 3);
    assert Before(s, 1, 2);
    assert QueueOrdered(s, 0) && QueueOrdered(s, 1);
  }

  lemma CrossedInherited(s: State)
    requires Crossed(s)
    ensures Inherited(s)
  {
    assert s.mutexes[0].owner == Some(0) && s.mutexes[1].owner == Some(2);
    assert Owns(s, 0) && Owns(s, 2);
  }

  lemma CrossedOvertakes(s: State)
    requires Crossed(s) && Inv(s) && Ordered(s)
    ensures Lock(s, 3, 1, true).1 == Asleep && !Ordered(Lock(s, 3, 1, true).0)
  {
    assert Edge(s, 2) == Some(0) && Edge(s, 0) == None;
    NeverReaches(s);
    assert !WouldDeadlock(s, 1, 3);
    var s' := Lock(s, 3, 1, true).0;
    assert s'.mutexes[0].waitQ == [1, 2] && s'.tasks[2].prio == 9 && s'.tasks[1].prio == 3;
    assert !Before(s', s'.mutexes[0].waitQ[0], s'.mutexes[0].waitQ[1]);
    assert !QueueOrdered(s', 0);
  }

  /**
   * A task that is queued itself can be raised past the waiter in front of it: the queue of
   * mutex 0 is then no longer in priority order.
   */
  lemma OrderLostByInheritance() returns (s: State, t: Tid, m: Mid)
    ensures Inv(s) && Ordered(s) && Inherited(s) && Runs(s, t) && m in s.mutexes
    ensures Lock(s, t, m, true).1 == Asleep && !Ordered(Lock(s, t, m, true).0)
  {
    t, m := 3, 1;
    s := State(
      map[0 := Task(3, 1, None, None, false, 0), 1 := Task(3, 3, Some(0), Some(0), false, 0),
          2 := Task(2, 2, Some(0), Some(0), false, 1), 3 := Task(9, 9, None, None, false, 0)],
      map[0 := Mutex(Some(0), 0, [1, 2]), 1 := Mutex(Some(2), 0, [])],
      2);
    assert Crossed(s);
    CrossedOk(s);
    CrossedInherited(s);
    CrossedOvertakes(s);
  }

  lemma NeverReaches(s: State)
    requires Edge(s, 2) == Some(0) && Edge(s, 0) == None
    ensures forall k: nat :: Follow(s, 2, k) != Some(3)
  {
    forall k: nat
      ensures Follow(s, 2, k) != Some(3)
    {
      if k > 0 {
        assert Follow(s, 2, k) == Follow(s, 0, k - 1);
      }
    }
  }

  /** Task 0 holds both mutexes, and task 1 waits for the second. */
  ghost predicate HoldsTwo(s: State) {
    && s.tasks.Keys == {0, 1} && s.mutexes.Keys == {0, 1} && s.clock == 1
    && s.tasks[0] == Task(9, 1, None, None, false, 0) && s.tasks[1] == Task(9, 9, Some(1), Some(1), false, 0)
    && s.mutexes[0] == Mutex(Some(0), 0, []) && s.mutexes[1] == Mutex(Some(0), 0, [1])
  }

  lemma HoldsTwoOk(s: State)
    requires HoldsTwo(s)
    ensures Inv(s) && Ordered(s)
  {
    assert QueueOk(s, 0) && QueueOk(s, 1) && TaskOk(s, 0) && TaskOk(s, 1);
    assert QueueOrdered(s, 0) && QueueOrdered(s, 1);
  }

  lemma HoldsTwoUncovered(s: State)
    requires HoldsTwo(s)
    ensures Inherited(s) && !OthersCovered(s, 0, 0)
  {
    assert s.mutexes[0].owner == Some(0) && Owns(s, 0);
    assert 1 in s.mutexes[1].waitQ && s.mutexes[1].owner == Some(0);
  }

  /**
   * With two mutexes held, releasing one takes back the priority inherited through the other:
   * the owner of mutex 1 then runs below its waiter.
   */
  lemma InheritanceLostWithTwoMutexes() returns (s: State, t: Tid, m: Mid)
    ensures Inv(s) && Ordered(s) && Inherited(s) && Runs(s, t) && m in s.mutexes && !Inherited(Unlock(s, t, m).0)
  {
    t, m := 0, 0;
    s := State(
      map[0 := Task(9, 1, None, None, false, 0), 1 := Task(9, 9, Some(1), Some(1), false, 0)],
      map[0 := Mutex(Some(0), 0, []), 1 := Mutex(Some(0), 0, [1])],
      1);
    assert HoldsTwo(s);
    HoldsTwoOk(s);
    HoldsTwoUncovered(s);
    UnlockKeepsInheritedIff(s, 0, 0);
  }
}
