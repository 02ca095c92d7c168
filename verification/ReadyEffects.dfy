/**
 * What the operations on tasks do, told from outside: the field each of them sets, where its
 * task is afterwards, and that nothing happens to the others.
 */
module ReadyEffects {
  import opened Bits
  import opened ReadySpec
  import opened ReadySteps
  import opened WaitQueue
  import opened Wrappers
  import L = KernelList
  import M = McEdf

  // ---- where tasks are ----

  /** Task `t` is ready and linked where it belongs; nowhere else. */
  ghost predicate Queued(s: State, t: Tid) {
    && Sound(s) && t in s.tasks && s.tasks[t].status == Ready
    && forall h | h in s.lists :: t in s.lists[h] <==> h == HomeOf(s.online, s.tasks[t])
  }

  /** Task `t` is in no list. */
  ghost predicate Nowhere(s: State, t: Tid) {
    Sound(s) && t in s.tasks && forall h | h in s.lists :: t !in s.lists[h]
  }

  /** Nobody is behind `t` in its list. */
  ghost predicate Last(s: State, t: Tid)
    requires Sound(s) && t in s.tasks
  {
    var h := HomeOf(s.online, s.tasks[t]);
    h in s.lists && s.lists[h] != [] && s.lists[h][|s.lists[h]| - 1] == t
  }

  /** Every task but `t` is as before, and in every list the others are as before and in the same order. */
  ghost predicate OthersKept(s: State, s': State, t: Tid) {
    && s'.online == s.online && s'.tasks.Keys == s.tasks.Keys + {t}
    && (forall u | u in s.tasks && u != t :: u in s'.tasks && s'.tasks[u] == s.tasks[u])
    && SameOthers(s.lists, s'.lists, t)
  }

  /** The list of a ready task, policy by policy. */
  lemma WhereReady(s: State, t: Tid)
    requires Queued(s, t)
    ensures var x, c := s.tasks[t], TargetCore(s.online, s.tasks[t]);
            && PrioHome(c, x.prio) in s.lists && FairHome(c) in s.lists && EdfHome in s.lists
            && (t in s.lists[PrioHome(c, x.prio)] <==> x.policy == RoundRobin || x.policy == Priority || (x.policy == Hybrid && x.prio >= 20))
            && (t in s.lists[FairHome(c)] <==> x.policy == Fair || (x.policy == Hybrid && x.prio < 20))
            && (t in s.lists[EdfHome] <==> x.policy == Edf)
  {
    assert IsHome(s.online, PrioHome(TargetCore(s.online, s.tasks[t]), s.tasks[t].prio));
    assert IsHome(s.online, FairHome(TargetCore(s.online, s.tasks[t]))) && IsHome(s.online, EdfHome);
  }

  /** The core of a task: the one it is bound to, or else the one it ran on last; core 0 if that one is off line. */
  lemma WhichCore(online: seq<bool>, x: Task)
    requires online != []
    ensures var wanted := if x.aff.Some? then x.aff.value else x.runCpu;
            TargetCore(online, x) == if wanted < |online| && (wanted == 0 || online[wanted]) then wanted else 0
  {
  }

  lemma QueuedIfReady(s: State, t: Tid)
    requires Sound(s) && t in s.tasks
    ensures if s.tasks[t].status == Ready then Queued(s, t) else Nowhere(s, t)
  {
    forall h | h in s.lists
      ensures t in s.lists[h] <==> s.tasks[t].status == Ready && h == HomeOf(s.online, s.tasks[t])
    {
      assert ListOk(s, h, {});
    }
  }

  // ---- the others ----

  lemma {:induction false} RemovedInserted(q: seq<Tid>, k: nat, t: Tid)
    requires t !in q && k <= |q|
    ensures Removed(L.Inserted(q, k, t), t) == q
    decreases k
  {
    var r := L.Inserted(q, k, t);
    if k == 0 {
      assert r == [t] + q && r[1..] == q;
    } else {
      assert q[0] in q && r[0] == q[0] && r[1..] == L.Inserted(q[1..], k - 1, t);
      RemovedInserted(q[1..], k - 1, t);
      assert [q[0]] + q[1..] == q;
    }
  }

  /** In every list the others are as before, in the same order. */
  ghost predicate SameOthers(a: map<Home, seq<Tid>>, b: map<Home, seq<Tid>>, t: Tid) {
    a.Keys == b.Keys && forall h | h in a :: h in b && Removed(b[h], t) == Removed(a[h], t)
  }

  lemma SameThrough(a: map<Home, seq<Tid>>, b: map<Home, seq<Tid>>, c: map<Home, seq<Tid>>, t: Tid)
    requires SameOthers(a, b, t) && SameOthers(b, c, t)
    ensures SameOthers(a, c, t)
  {
  }

  /** Taking a task out of its list and putting it into one keeps the order of all others. */
  lemma MoveKeepsOthers(s: State, t: Tid, x: Task)
    requires Sound(s) && x.prio < PRIOS
    ensures OthersKept(s, Move(s, t, x), t)
    ensures Sound(Move(s, t, x)) && Move(s, t, x).tasks == s.tasks[t := x]
  {
    MoveKeepsTasks(s, t, x);
    MoveKeepsLists(s, t, x);
  }

  lemma MoveKeepsTasks(s: State, t: Tid, x: Task)
    requires Sound(s) && x.prio < PRIOS
    ensures Sound(Move(s, t, x)) && Move(s, t, x).tasks == s.tasks[t := x] && Move(s, t, x).online == s.online
  {
    MoveSound(s, t, x);
  }

  lemma MoveKeepsLists(s: State, t: Tid, x: Task)
    requires Sound(s) && x.prio < PRIOS
    ensures SameOthers(s.lists, Move(s, t, x).lists, t)
  {
    MoveSound(s, t, x);
    var s1 := UnlinkedOthers(s, t);
    if x.status == Ready {
      LinkedBack(s1, t, x);
      SameThrough(s.lists, s1.lists, Link(s1.(tasks := s1.tasks[t := x]), t).lists, t);
    }
  }

  lemma LinkedBack(s: State, t: Tid, x: Task)
    requires SoundBut(s, {t}) && x.prio < PRIOS && forall h | h in s.lists :: t !in s.lists[h]
    ensures var s2 := s.(tasks := s.tasks[t := x]);
            && HomeOf(s2.online, x) in s2.lists && s2.online != [] && (forall u | u in s2.lists[HomeOf(s2.online, x)] :: u in s2.tasks)
            && SameOthers(s.lists, Link(s2, t).lists, t)
  {
    ChangeSound(s, t, x);
    LinkedOthers(s.(tasks := s.tasks[t := x]), t);
  }

  lemma LinkedOthers(s: State, t: Tid)
    requires SoundBut(s, {t}) && t in s.tasks && forall h | h in s.lists :: t !in s.lists[h]
    ensures HomeOf(s.online, s.tasks[t]) in s.lists && (forall u | u in s.lists[HomeOf(s.online, s.tasks[t])] :: u in s.tasks)
    ensures SameOthers(s.lists, Link(s, t).lists, t)
  {
    LinkSound(s, t);
    var h := HomeOf(s.online, s.tasks[t]);
    RemovedInserted(s.lists[h], Place(s.tasks, h, s.lists[h], s.tasks[t]), t);
  }

  lemma UnlinkedOthers(s: State, t: Tid) returns (s1: State)
    requires Sound(s)
    ensures t in s.tasks && s.tasks[t].status == Ready ==> HomeOf(s.online, s.tasks[t]) in s.lists
    ensures s1 == if t in s.tasks && s.tasks[t].status == Ready then Unlink(s, t) else s
    ensures SoundBut(s1, {t}) && SameOthers(s.lists, s1.lists, t) && forall h | h in s1.lists :: t !in s1.lists[h]
  {
    var linked := t in s.tasks && s.tasks[t].status == Ready;
    if linked { UnlinkSound(s, t); } else { SkipMore(s, t); }
    s1 := if linked then Unlink(s, t) else s;
    forall h | h in s1.lists
      ensures t !in s1.lists[h]
    {
      assert ListOk(s1, h, {t});
    }
  }

  lemma JoinedLast(s: State, t: Tid, x: Task)
    requires Sound(s) && x.prio < PRIOS && x.status == Ready && HomeOf(s.online, x).PrioHome?
    ensures Sound(Move(s, t, x)) && t in Move(s, t, x).tasks && Last(Move(s, t, x), t)
  {
    MoveSound(s, t, x);
    HomeInLists(s, x);
    var linked := t in s.tasks && s.tasks[t].status == Ready;
    var s1 := if linked then Unlink(s, t) else s;
    var h := HomeOf(s.online, x);
    assert Move(s, t, x).lists[h] == s1.lists[h] + [t];
  }

  // ---- operation by operation ----

  /** A created task is ready at once, as asked for, with its priority as threshold and no affinity, behind all others of its priority. */
  lemma Creates(s: State, t: Tid, policy: Policy, prio: nat, runCpu: nat, now: nat)
    requires Sound(s) && Enabled(s, Create(t, policy, prio, runCpu, now))
    ensures var s' := Apply(s, Create(t, policy, prio, runCpu, now));
            && OthersKept(s, s', t) && Queued(s', t) && (HomeOf(s'.online, s'.tasks[t]).PrioHome? ==> Last(s', t))
            && var y := s'.tasks[t];
               && y.policy == policy && y.prio == prio && y.thresh == prio && y.aff == None && y.runCpu == runCpu && y.vruntime == 0
               && (policy == Edf ==> y.deadline == now)
  {
    var op := Create(t, policy, prio, runCpu, now);
    Moved(s, op);
  }

  /** Unblocked or resumed, a task is ready again, unchanged otherwise, behind all others of its priority. */
  lemma Wakes(s: State, op: Op)
    requires Sound(s) && Enabled(s, op) && (op.Unblock? || op.Resume?)
    ensures var s' := Apply(s, op);
            && OthersKept(s, s', op.t) && Queued(s', op.t) && (HomeOf(s'.online, s'.tasks[op.t]).PrioHome? ==> Last(s', op.t))
            && s'.tasks[op.t] == s.tasks[op.t].(status := Ready)
  {
    Moved(s, op);
  }

  /** Blocked, suspended or deleted, a task is in no list and says so. */
  lemma Parks(s: State, op: Op)
    requires Sound(s) && Enabled(s, op) && (op.Block? || op.Suspend? || op.Delete?)
    ensures var s' := Apply(s, op);
            && OthersKept(s, s', op.t) && Nowhere(s', op.t)
            && s'.tasks[op.t] == s.tasks[op.t].(status := if op.Block? then Blocked else if op.Suspend? then Suspended else Deleted)
  {
    Moved(s, op);
  }

  /** The setters set what they are for; a ready task is then where the new value says, any other in no list. */
  lemma Sets(s: State, op: Op)
    requires Sound(s) && Enabled(s, op)
    requires op.SetPriority? || op.Lend? || op.SetAffinity? || op.SetDeadline? || op.SetThreshold? || op.Migrate? || op.SetPeriod?
    ensures var s', t := Apply(s, op), op.t;
            && OthersKept(s, s', t) && t in s.tasks && t in s'.tasks && s'.tasks[t].status == s.tasks[t].status
            && (if s.tasks[t].status == Ready then Queued(s', t) else Nowhere(s', t))
            && var x, y := s.tasks[t], s'.tasks[t];
               && y.policy == x.policy && y.vruntime == x.vruntime
               && y.prio == (if op.SetPriority? || op.Lend? then op.prio else x.prio)
               && y.aff == (if op.SetAffinity? then op.aff else x.aff)
               && y.runCpu == (if op.Migrate? then op.core else x.runCpu)
               && y.deadline == (if op.SetDeadline? then op.deadline
                                 else if op.SetPeriod? && x.policy == Edf && op.period > 0 then op.now + op.period else x.deadline)
               && y.thresh == (if op.SetThreshold? then op.thresh
                               else if op.SetPriority? && x.thresh < op.prio then op.prio else x.thresh)
  {
    if InPlace(op) { KeptInPlace(s, op); } else { Moved(s, op); }
  }

  /** A ready task given a new priority, affinity, core or deadline joins its priority list last, its own old one included. */
  lemma SetsLast(s: State, op: Op)
    requires Sound(s) && Enabled(s, op) && (op.SetPriority? || op.Lend? || op.SetAffinity? || op.SetDeadline? || op.Migrate?)
    requires s.tasks[op.t].status == Ready && HomeOf(s.online, Apply(s, op).tasks[op.t]).PrioHome?
    ensures Sound(Apply(s, op)) && Last(Apply(s, op), op.t)
  {
    ApplySound(s, op);
    JoinedLast(s, op.t, Changed(s, op));
  }

  lemma Moved(s: State, op: Op)
    requires Sound(s) && Enabled(s, op) && !InPlace(op)
    ensures var s', x := Apply(s, op), Changed(s, op);
            && OthersKept(s, s', op.t) && op.t in s'.tasks && s'.tasks[op.t] == x
            && (if x.status == Ready then Queued(s', op.t) else Nowhere(s', op.t))
            && (x.status == Ready && HomeOf(s'.online, x).PrioHome? ==> Last(s', op.t))
  {
    var x := Changed(s, op);
    MoveKeepsOthers(s, op.t, x);
    QueuedIfReady(Apply(s, op), op.t);
    if x.status == Ready && HomeOf(s.online, x).PrioHome? { JoinedLast(s, op.t, x); }
  }

  lemma KeptInPlace(s: State, op: Op)
    requires Sound(s) && Enabled(s, op) && InPlace(op) && op.t in s.tasks
    ensures var s' := Apply(s, op);
            && OthersKept(s, s', op.t) && s'.tasks[op.t] == Changed(s, op)
            && (if s.tasks[op.t].status == Ready then Queued(s', op.t) else Nowhere(s', op.t))
  {
    ApplySound(s, op);
    QueuedIfReady(Apply(s, op), op.t);
  }

  // ---- the choice ----

  /** Urgent EDF comes first, then priority, then EDF, then fair share. */
  lemma ChoiceOrder(s: State, cpu: nat, now: nat)
    requires Sound(s) && cpu < |s.online|
    ensures var next, edf, pri, fair := PickNext(s, cpu, now), PickEdf(s, cpu), PickPriority(s, cpu), PickFair(s, cpu);
            && (edf.Some? && edf.value in s.tasks && s.tasks[edf.value].deadline <= now + 1 ==> next == edf)
            && (pri.Some? && (edf.None? || (edf.value in s.tasks && s.tasks[edf.value].deadline > now + 1)) ==> next == pri)
            && (pri.None? && edf.Some? ==> next == edf)
            && (pri.None? && edf.None? ==> next == fair)
  {
  }

  /** The fair-share choice is a ready task of this core with the least virtual runtime, if there is one. */
  lemma FairLeast(s: State, cpu: nat, u: Tid)
    requires Sound(s) && cpu < |s.online| && u in s.tasks && s.tasks[u].status == Ready && HomeOf(s.online, s.tasks[u]) == FairHome(cpu)
    ensures var r := PickFair(s, cpu);
            r.Some? && r.value in s.tasks && HomeOf(s.online, s.tasks[r.value]) == FairHome(cpu) && s.tasks[r.value].vruntime <= s.tasks[u].vruntime
  {
    assert IsHome(s.online, FairHome(cpu)) && ListOk(s, FairHome(cpu), {});
    var q := s.lists[FairHome(cpu)];
    assert q[0] in q;
    var i :| 0 <= i < |q| && q[i] == u;
    if i > 0 { assert KeyAtMost(s.tasks, FairHome(cpu), q[0], q[i]); }
  }

  /** A task that yields, or is not of a priority policy, never holds on to the core: the choice runs. */
  lemma OthersGiveWay(s: State, cpu: nat, cur: Tid, forced: bool, now: nat)
    requires Sound(s) && cpu < |s.online| && cur in s.tasks && s.tasks[cur].status == Running
    requires !UsesPriority(s.tasks[cur]) || Yields(s.tasks[cur], forced)
    ensures Switch(s, cpu, Some(cur), forced, now).1 == PickNext(s, cpu, now)
  {
  }

  /** A switch concerns no task but the one that ran and the one that runs. */
  lemma SwitchSpares(s: State, cpu: nat, cur: Option<Tid>, forced: bool, now: nat, u: Tid)
    requires Sound(s) && cpu < |s.online| && (cur.Some? ==> cur.value in s.tasks) && u in s.tasks
    requires Some(u) != cur && Some(u) != Switch(s, cpu, cur, forced, now).1
    ensures var s' := Switch(s, cpu, cur, forced, now).0;
            u in s'.tasks && s'.tasks[u] == s.tasks[u]
  {
    SwitchSound(s, cpu, cur, PickNext(s, cpu, now));
  }

  /** The task that takes over has left its list, runs, and notes the core; the idle task gives way to any other. */
  lemma TakesOver(s: State, cpu: nat, cur: Option<Tid>, forced: bool, now: nat)
    requires Sound(s) && cpu < |s.online| && (cur.Some? ==> cur.value in s.tasks)
    ensures var (s', r) := Switch(s, cpu, cur, forced, now);
            && (r.Some? && r != cur ==> r.value in s'.tasks && s'.tasks[r.value] == s.tasks[r.value].(status := Running, runCpu := cpu))
            && (cur.None? ==> r == PickNext(s, cpu, now))
  {
    SwitchSound(s, cpu, cur, PickNext(s, cpu, now));
  }
}
