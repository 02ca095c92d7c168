/**
 * The operations on the ready structures of kernel/scheduler.c and kernel/task.c, the choice of
 * the next task, and the switch on the way out of a trap.
 */
module ReadySteps {
  import opened Bits
  import opened ReadySpec
  import opened WaitQueue
  import opened Wrappers
  import M = McEdf

  // ---- the operations that concern one task ----

  datatype Op =
    | Create(t: Tid, policy: Policy, prio: nat, runCpu: nat, now: nat)
    | Block(t: Tid)
    | Unblock(t: Tid)
    | SetPriority(t: Tid, prio: nat)
    | SetAffinity(t: Tid, aff: Option<nat>)
    | SetDeadline(t: Tid, deadline: nat)
    | SetPeriod(t: Tid, period: nat, now: nat)
    | SetThreshold(t: Tid, thresh: nat)
    | Lend(t: Tid, prio: nat)
    | Migrate(t: Tid, core: nat)
    | Suspend(t: Tid)
    | Resume(t: Tid)
    | Delete(t: Tid)

  predicate Enabled(s: State, op: Op) {
    match op
    case Create(t, _, prio, _, _) => t !in s.tasks && prio < PRIOS
    case SetPriority(t, prio) => t in s.tasks && prio < PRIOS
    case Lend(t, prio) => t in s.tasks && prio < PRIOS
    case SetAffinity(t, aff) => t in s.tasks && (aff.Some? ==> M.Online(s.online, aff.value))
    case Migrate(t, _) => t in s.tasks && s.tasks[t].status == Ready
    case Block(t) => t in s.tasks && (s.tasks[t].status == Running || s.tasks[t].status == Ready)
    case Unblock(t) => t in s.tasks && s.tasks[t].status == Blocked
    case Resume(t) => t in s.tasks && s.tasks[t].status == Suspended
    case _ => op.t in s.tasks
  }

  /** What becomes of the task. */
  function Changed(s: State, op: Op): (x: Task)
    requires Enabled(s, op) && forall t | t in s.tasks :: s.tasks[t].prio < PRIOS
    ensures x.prio < PRIOS
  {
    match op
    case Create(_, policy, prio, runCpu, now) => Task(policy, prio, prio, None, runCpu, Ready, 0, if policy == Edf then now else 0)
    case Block(t) => s.tasks[t].(status := Blocked)
    case Unblock(t) => s.tasks[t].(status := Ready)
    case SetPriority(t, prio) => s.tasks[t].(prio := prio, thresh := if s.tasks[t].thresh < prio then prio else s.tasks[t].thresh)
    case SetAffinity(t, aff) => s.tasks[t].(aff := aff)
    case SetDeadline(t, deadline) => s.tasks[t].(deadline := deadline)
    case SetPeriod(t, period, now) =>
      if s.tasks[t].policy == Edf && period > 0 then s.tasks[t].(deadline := now + period) else s.tasks[t]
    case SetThreshold(t, thresh) => s.tasks[t].(thresh := thresh)
    case Lend(t, prio) => s.tasks[t].(prio := prio)
    case Migrate(t, core) => s.tasks[t].(runCpu := core)
    case Suspend(t) => s.tasks[t].(status := Suspended)
    case Resume(t) => s.tasks[t].(status := Ready)
    case Delete(t) => s.tasks[t].(status := Deleted)
  }

  /** `cgrtos_task_set_period` and `cgrtos_task_set_preempt_threshold` leave the task where it is. */
  predicate InPlace(op: Op) {
    op.SetPeriod? || op.SetThreshold?
  }

  ghost function Apply(s: State, op: Op): State
    requires Sound(s) && Enabled(s, op)
  {
    if InPlace(op) then s.(tasks := s.tasks[op.t := Changed(s, op)]) else Move(s, op.t, Changed(s, op))
  }

  /** Each operation leaves every task in exactly the list it belongs in, or in none if it is not ready. */
  lemma ApplySound(s: State, op: Op)
    requires Sound(s) && Enabled(s, op)
    ensures Sound(Apply(s, op)) && Apply(s, op).tasks == s.tasks[op.t := Changed(s, op)] && Apply(s, op).online == s.online
  {
    if InPlace(op) { InPlaceSound(s, op.t, Changed(s, op)); } else { MoveSound(s, op.t, Changed(s, op)); }
  }

  /** A period set on a ready EDF task gives it a deadline that does not belong at its place in the list. */
  ghost predicate Misplaces(s: State, op: Op)
    requires Sound(s) && Enabled(s, op) && EdfHome in s.lists
  {
    op.SetPeriod? && s.tasks[op.t].policy == Edf && op.period > 0 && OutOfOrder(s, op.t, op.now + op.period)
  }

  /** The EDF list stays sorted by deadline iff the operation is not a change of period that misplaces its task. */
  lemma EdfSortedIff(s: State, op: Op)
    requires Sound(s) && EdfSorted(s) && Enabled(s, op)
    ensures EdfSorted(Apply(s, op)) <==> !Misplaces(s, op)
  {
    var x := Changed(s, op);
    if !InPlace(op) {
      MoveSorted(s, op.t, x);
    } else if op.SetPeriod? && s.tasks[op.t].policy == Edf && op.period > 0 {
      DeadlineInPlaceIff(s, op.t, op.now + op.period);
    } else {
      assert ListOk(s, EdfHome, {});
      SameKeys(s.tasks, Apply(s, op).tasks, EdfHome, s.lists[EdfHome]);
    }
  }

  /** In a sound state a task is ready iff it is in one list, and then only in the one for its policy, priority and core. */
  lemma ReadyIffLinked(s: State, t: Tid, h: Home)
    requires Sound(s) && t in s.tasks && h in s.lists
    ensures t in s.lists[h] <==> s.tasks[t].status == Ready && h == HomeOf(s.online, s.tasks[t])
    ensures s.tasks[t].status == Ready ==> HomeOf(s.online, s.tasks[t]) in s.lists
  {
    assert ListOk(s, h, {});
    HomeInLists(s, s.tasks[t]);
  }

  /** A task that joins a priority list joins behind everyone in it. */
  lemma JoinsLast(s: State, t: Tid, x: Task, u: Tid)
    requires Sound(s) && x.prio < PRIOS && x.status == Ready
    requires HomeOf(s.online, x).PrioHome? && HomeOf(s.online, x) in s.lists && u in s.lists[HomeOf(s.online, x)] && u != t
    ensures HomeOf(s.online, x) in Move(s, t, x).lists && Earlier(Move(s, t, x).lists[HomeOf(s.online, x)], u, t)
  {
    MoveSound(s, t, x);
    var h := HomeOf(s.online, x);
    var s1 := if t in s.tasks && s.tasks[t].status == Ready then Unlink(s, t) else s;
    if t in s.tasks && s.tasks[t].status == Ready {
      assert ListOk(s, HomeOf(s.online, s.tasks[t]), {});
      RemovedContent(s.lists[HomeOf(s.online, s.tasks[t])], t);
    }
    var q := s1.lists[h];
    assert u in q;
    var i :| 0 <= i < |q| && q[i] == u;
    var r := Move(s, t, x).lists[h];
    assert r == q + [t];
    assert r[i] == u && r[|q|] == t;
  }

  // ---- the choice among priorities ----

  predicate Allowed(x: Task, cpu: nat) {
    x.aff == None || x.aff == Some(cpu)
  }

  /** The first task of a list that may run on this core. */
  function FirstAllowed(tasks: map<Tid, Task>, q: seq<Tid>, cpu: nat): (r: Option<Tid>)
    requires forall t | t in q :: t in tasks
    ensures r.Some? ==> r.value in q && Allowed(tasks[r.value], cpu)
    ensures r.None? ==> forall t | t in q :: !Allowed(tasks[t], cpu)
    decreases |q|
  {
    if q == [] then None
    else
      assert q == [q[0]] + q[1..];
      if Allowed(tasks[q[0]], cpu) then Some(q[0]) else FirstAllowed(tasks, q[1..], cpu)
  }

  /** `sched_pick_priority`: the highest bit of the bitmap, then the list behind it. */
  ghost function PickPriority(s: State, cpu: nat): Option<Tid>
    requires Sound(s) && cpu < |s.online|
  {
    if !NonZero(s.bits[cpu]) then None
    else
      var h := PrioHome(cpu, HighestSet(s.bits[cpu]));
      assert IsHome(s.online, h);
      ListKnown(s, h, {});
      FirstAllowed(s.tasks, s.lists[h], cpu)
  }

  /** Task `t` is ready at this core with priority `p`, and may run here. */
  ghost predicate Candidate(s: State, cpu: nat, t: Tid, p: nat) {
    && s.online != [] && t in s.tasks && s.tasks[t].status == Ready && HomeOf(s.online, s.tasks[t]) == PrioHome(cpu, p)
    && Allowed(s.tasks[t], cpu)
  }

  /** `t` comes before `u` in list `q`. */
  ghost predicate Earlier(q: seq<Tid>, t: Tid, u: Tid) {
    exists i, j :: 0 <= i < j < |q| && q[i] == t && q[j] == u
  }

  lemma {:induction false} FirstIsEarliest(tasks: map<Tid, Task>, q: seq<Tid>, cpu: nat, u: Tid)
    requires (forall t | t in q :: t in tasks) && u in q && Allowed(tasks[u], cpu)
    ensures var r := FirstAllowed(tasks, q, cpu); r.Some? && (r.value == u || Earlier(q, r.value, u))
    decreases |q|
  {
    assert q == [q[0]] + q[1..];
    if Allowed(tasks[q[0]], cpu) {
      var j :| 0 <= j < |q| && q[j] == u;
      if j > 0 { assert q[0] == FirstAllowed(tasks, q, cpu).value; }
    } else {
      FirstIsEarliest(tasks, q[1..], cpu, u);
      var r := FirstAllowed(tasks, q, cpu);
      if r.value != u {
        var i, j :| 0 <= i < j < |q[1..]| && q[1..][i] == r.value && q[1..][j] == u;
        assert q[i + 1] == r.value && q[j + 1] == u;
      }
    }
  }

  /** A ready task's bit is set. */
  lemma CandidateBit(s: State, cpu: nat, t: Tid, p: nat)
    requires Sound(s) && cpu < |s.online| && Candidate(s, cpu, t, p)
    ensures p < PRIOS && PrioHome(cpu, p) in s.lists && t in s.lists[PrioHome(cpu, p)] && s.bits[cpu][p] && NonZero(s.bits[cpu])
  {
    HomeInLists(s, s.tasks[t]);
    assert IsHome(s.online, PrioHome(cpu, p));
    assert ListOk(s, PrioHome(cpu, p), {});
  }

  /** What is picked is what a scan over all ready tasks would find: none of higher priority, none of the same that came earlier. */
  lemma PickIsBest(s: State, cpu: nat, u: Tid, q: nat)
    requires Sound(s) && cpu < |s.online| && PickPriority(s, cpu).Some? && Candidate(s, cpu, u, q)
    ensures var t := PickPriority(s, cpu).value;
            var p := HighestSet(s.bits[cpu]);
            && Candidate(s, cpu, t, p) && s.tasks[t].prio == p
            && (q < p || (q == p && (u == t || Earlier(s.lists[PrioHome(cpu, p)], t, u))))
  {
    var p := HighestSet(s.bits[cpu]);
    PickedHere(s, cpu);
    CandidateBit(s, cpu, u, q);
    ListKnown(s, PrioHome(cpu, p), {});
    if q == p { FirstIsEarliest(s.tasks, s.lists[PrioHome(cpu, p)], cpu, u); }
  }

  lemma PickedHere(s: State, cpu: nat)
    requires Sound(s) && cpu < |s.online| && PickPriority(s, cpu).Some?
    ensures var t := PickPriority(s, cpu).value;
            var p := HighestSet(s.bits[cpu]);
            PrioHome(cpu, p) in s.lists && Candidate(s, cpu, t, p) && s.tasks[t].prio == p && UsesPriority(s.tasks[t]) && !UsesFair(s.tasks[t])
  {
    var h := PrioHome(cpu, HighestSet(s.bits[cpu]));
    assert IsHome(s.online, h) && ListOk(s, h, {});
  }

  /** The highest list that is not empty holds only tasks bound to other cores. */
  ghost predicate Masked(s: State, cpu: nat) {
    exists p: nat ::
      && PrioHome(cpu, p) in s.lists && s.lists[PrioHome(cpu, p)] != []
      && (forall h | h in s.lists && h.PrioHome? && h.core == cpu && h.prio > p :: s.lists[h] == [])
      && forall t | t in s.lists[PrioHome(cpu, p)] :: t in s.tasks && !Allowed(s.tasks[t], cpu)
  }

  /** Nothing is picked although a task could run here iff the tasks of the highest priority mask it. */
  lemma PickMissesIff(s: State, cpu: nat, u: Tid, q: nat)
    requires Sound(s) && cpu < |s.online| && Candidate(s, cpu, u, q)
    ensures PickPriority(s, cpu) == None <==> Masked(s, cpu)
  {
    CandidateBit(s, cpu, u, q);
    var p := HighestSet(s.bits[cpu]);
    var top := PrioHome(cpu, p);
    assert IsHome(s.online, top) && s.bits[cpu][p];
    ListKnown(s, top, {});
    forall h | h in s.lists && h.PrioHome? && h.core == cpu && h.prio > p
      ensures s.lists[h] == []
    {
      assert IsHome(s.online, h) && !s.bits[cpu][h.prio];
    }
    if Masked(s, cpu) {
      var r: nat :| PrioHome(cpu, r) in s.lists && s.lists[PrioHome(cpu, r)] != []
        && (forall h | h in s.lists && h.PrioHome? && h.core == cpu && h.prio > r :: s.lists[h] == [])
        && forall t | t in s.lists[PrioHome(cpu, r)] :: t in s.tasks && !Allowed(s.tasks[t], cpu);
      assert IsHome(s.online, PrioHome(cpu, r)) && s.bits[cpu][r];
      assert r == p;
    }
  }

  /** Every hard affinity is to a core that is online, as `cgrtos_task_set_affinity` sees to. */
  ghost predicate Affine(s: State) {
    forall t | t in s.tasks && s.tasks[t].aff.Some? :: M.Online(s.online, s.tasks[t].aff.value)
  }

  /** Then whatever is in a core's list may run there, and nothing is masked. */
  lemma AffineNeverMasked(s: State, cpu: nat)
    requires Sound(s) && Affine(s) && cpu < |s.online|
    ensures !Masked(s, cpu)
    ensures PickPriority(s, cpu) == None <==> forall p: nat | p < PRIOS :: PrioHome(cpu, p) in s.lists && s.lists[PrioHome(cpu, p)] == []
  {
    forall p: nat | p < PRIOS
      ensures PrioHome(cpu, p) in s.lists && forall t | t in s.lists[PrioHome(cpu, p)] :: Candidate(s, cpu, t, p)
    {
      assert IsHome(s.online, PrioHome(cpu, p)) && ListOk(s, PrioHome(cpu, p), {});
    }
    forall p: nat | p < PRIOS && s.lists[PrioHome(cpu, p)] != []
      ensures s.bits[cpu][p]
    {
    }
    if p: nat :| p < PRIOS && PrioHome(cpu, p) in s.lists && s.lists[PrioHome(cpu, p)] != [] {
      assert s.lists[PrioHome(cpu, p)][0] in s.lists[PrioHome(cpu, p)];
    }
    forall p: nat | PrioHome(cpu, p) in s.lists && s.lists[PrioHome(cpu, p)] != []
      ensures exists t :: t in s.lists[PrioHome(cpu, p)] && t in s.tasks && Allowed(s.tasks[t], cpu)
    {
      assert IsHome(s.online, PrioHome(cpu, p));
      var t := s.lists[PrioHome(cpu, p)][0];
      assert t in s.lists[PrioHome(cpu, p)] && Candidate(s, cpu, t, p);
    }
  }

  /** Operations keep affinities to cores that are online. */
  lemma ApplyAffine(s: State, op: Op)
    requires Sound(s) && Affine(s) && Enabled(s, op)
    ensures Affine(Apply(s, op))
  {
    ApplySound(s, op);
  }

  // ---- the next task, and the switch ----

  function EdfView(tasks: map<Tid, Task>): map<Tid, M.Task> {
    map t | t in tasks :: M.Task(tasks[t].deadline, tasks[t].aff, tasks[t].runCpu)
  }

  /** `sched_pick_edf`: the task that has this core's seat. */
  ghost function PickEdf(s: State, cpu: nat): (r: Option<Tid>)
    requires Sound(s) && cpu < |s.online|
    ensures r.Some? ==> r.value in s.tasks && s.tasks[r.value].status == Ready && UsesEdf(s.tasks[r.value])
  {
    assert IsHome(s.online, EdfHome) && ListOk(s, EdfHome, {});
    var q := s.lists[EdfHome];
    assert forall t | t in q :: t in EdfView(s.tasks);
    M.SeatsAreProper(s.online, EdfView(s.tasks), q, cpu, cpu);
    M.Seating(s.online, EdfView(s.tasks), q)[cpu]
  }

  /** `sched_pick_cfs`: the task with the least virtual runtime. */
  ghost function PickFair(s: State, cpu: nat): (r: Option<Tid>)
    requires Sound(s) && cpu < |s.online|
    ensures r.Some? ==> r.value in s.tasks && s.tasks[r.value].status == Ready && UsesFair(s.tasks[r.value]) && !UsesEdf(s.tasks[r.value])
  {
    assert IsHome(s.online, FairHome(cpu)) && ListOk(s, FairHome(cpu), {});
    var q := s.lists[FairHome(cpu)];
    if q == [] then None else assert q[0] in q; Some(q[0])
  }

  /** `sched_pick_next`: an EDF task if it is urgent or there is no priority task, then priority, then fair share; None is the idle task. */
  ghost function PickNext(s: State, cpu: nat, now: nat): (r: Option<Tid>)
    requires Sound(s) && cpu < |s.online|
    ensures r.Some? ==> r.value in s.tasks && s.tasks[r.value].status == Ready
  {
    var edf, pri := PickEdf(s, cpu), PickPriority(s, cpu);
    if pri.Some? then
      PickedHere(s, cpu);
      if edf.Some? && s.tasks[edf.value].deadline <= now + SLACK then edf else pri
    else if edf.Some? then edf
    else PickFair(s, cpu)
  }

  /** An EDF task that may take the core from a priority task. */
  predicate Urgent(x: Task, now: nat) {
    UsesEdf(x) && x.deadline <= now + SLACK
  }

  /** The running task `x` keeps the core although `next` was picked. */
  predicate Sticks(x: Task, next: Option<Task>, forced: bool, now: nat) {
    && !forced && (x.policy == Priority || (x.policy == Hybrid && x.prio >= RT_THRESHOLD))
    && match next
       case None => true
       case Some(y) =>
         || (UsesFair(y) && !UsesEdf(y))
         || (UsesPriority(y) && y.prio <= x.thresh && !Urgent(y, now))
         || (UsesEdf(y) && y.deadline > now + SLACK)
  }

  /**
   * `cgrtos_sched_switch_from_trap` on core `cpu`, whose current task is `cur` (None is idle):
   * the new state and the task that runs then.
   */
  ghost function Switch(s: State, cpu: nat, cur: Option<Tid>, forced: bool, now: nat): (State, Option<Tid>)
    requires Sound(s) && cpu < |s.online| && (cur.Some? ==> cur.value in s.tasks)
  {
    var next := PickNext(s, cpu, now);
    var runs := cur.Some? && s.tasks[cur.value].status == Running;
    if runs && Sticks(s.tasks[cur.value], if next.Some? then Some(s.tasks[next.value]) else None, forced, now) then (s, cur)
    else
      SwitchSound(s, cpu, cur, next);
      var s1 := if runs then Move(s, cur.value, s.tasks[cur.value].(status := Ready)) else s;
      if next.None? then (s1, None)
      else (Move(s1, next.value, s1.tasks[next.value].(status := Running, runCpu := if cur == next then s1.tasks[next.value].runCpu else cpu)), next)
  }

  lemma SwitchSound(s: State, cpu: nat, cur: Option<Tid>, next: Option<Tid>)
    requires Sound(s) && (cur.Some? ==> cur.value in s.tasks) && (next.Some? ==> next.value in s.tasks && s.tasks[next.value].status == Ready)
    ensures var runs := cur.Some? && s.tasks[cur.value].status == Running;
            var s1 := if runs then Move(s, cur.value, s.tasks[cur.value].(status := Ready)) else s;
            && Sound(s1) && s1.online == s.online
            && (next.Some? ==>
                  var x := s1.tasks[next.value].(status := Running, runCpu := if cur == next then s1.tasks[next.value].runCpu else cpu);
                  next.value in s1.tasks && s1.tasks[next.value] == s.tasks[next.value] && x.prio < PRIOS && Sound(Move(s1, next.value, x))
                  && Move(s1, next.value, x).tasks == s1.tasks[next.value := x])
  {
    if cur.Some? && s.tasks[cur.value].status == Running {
      MoveSound(s, cur.value, s.tasks[cur.value].(status := Ready));
    }
    var s1 := if cur.Some? && s.tasks[cur.value].status == Running then Move(s, cur.value, s.tasks[cur.value].(status := Ready)) else s;
    if next.Some? {
      MoveSound(s1, next.value, s1.tasks[next.value].(status := Running, runCpu := if cur == next then s1.tasks[next.value].runCpu else cpu));
    }
  }

  /** The switch keeps every list right, and the task that runs then is running and in no list. */
  lemma SwitchKeeps(s: State, cpu: nat, cur: Option<Tid>, forced: bool, now: nat, h: Home)
    requires Sound(s) && cpu < |s.online| && (cur.Some? ==> cur.value in s.tasks) && h in s.lists
    ensures var (s', r) := Switch(s, cpu, cur, forced, now);
            && Sound(s') && s'.online == s.online && h in s'.lists
            && (r.Some? ==> r.value in s'.tasks && s'.tasks[r.value].status == Running && r.value !in s'.lists[h])
  {
    var next := PickNext(s, cpu, now);
    SwitchSound(s, cpu, cur, next);
    var (s', r) := Switch(s, cpu, cur, forced, now);
    assert IsHome(s.online, h);
    if r.Some? { ReadyIffLinked(s', r.value, h); }
  }

  /** The running task that loses the core is ready again, in the list it belongs in. */
  lemma SwitchRequeues(s: State, cpu: nat, cur: Tid, forced: bool, now: nat)
    requires Sound(s) && cpu < |s.online| && cur in s.tasks && s.tasks[cur].status == Running
    requires Switch(s, cpu, Some(cur), forced, now).1 != Some(cur)
    ensures var s' := Switch(s, cpu, Some(cur), forced, now).0;
            var h := HomeOf(s.online, s.tasks[cur]);
            && cur in s'.tasks && s'.tasks[cur] == s.tasks[cur].(status := Ready) && h in s'.lists && cur in s'.lists[h]
  {
    var next := PickNext(s, cpu, now);
    SwitchSound(s, cpu, Some(cur), next);
    var s' := Switch(s, cpu, Some(cur), forced, now).0;
    HomeInLists(s', s'.tasks[cur]);
    ReadyIffLinked(s', cur, HomeOf(s.online, s.tasks[cur]));
  }

  /** The switch does not disturb the order of the EDF list. */
  lemma SwitchKeepsEdfSorted(s: State, cpu: nat, cur: Option<Tid>, forced: bool, now: nat)
    requires Sound(s) && EdfSorted(s) && cpu < |s.online| && (cur.Some? ==> cur.value in s.tasks)
    ensures EdfSorted(Switch(s, cpu, cur, forced, now).0)
  {
    var next := PickNext(s, cpu, now);
    var runs := cur.Some? && s.tasks[cur.value].status == Running;
    SwitchSound(s, cpu, cur, next);
    var s1 := if runs then Move(s, cur.value, s.tasks[cur.value].(status := Ready)) else s;
    if runs { MoveSorted(s, cur.value, s.tasks[cur.value].(status := Ready)); }
    if next.Some? {
      MoveSorted(s1, next.value, s1.tasks[next.value].(status := Running, runCpu := if cur == next then s1.tasks[next.value].runCpu else cpu));
    }
  }

  /** Nor does it change an affinity. */
  lemma SwitchAffine(s: State, cpu: nat, cur: Option<Tid>, forced: bool, now: nat)
    requires Sound(s) && Affine(s) && cpu < |s.online| && (cur.Some? ==> cur.value in s.tasks)
    ensures Affine(Switch(s, cpu, cur, forced, now).0)
  {
    var next := PickNext(s, cpu, now);
    var runs := cur.Some? && s.tasks[cur.value].status == Running;
    SwitchSound(s, cpu, cur, next);
    var s1 := if runs then Move(s, cur.value, s.tasks[cur.value].(status := Ready)) else s;
    if runs { MovedAffine(s, cur.value, s.tasks[cur.value].(status := Ready)); }
    if next.Some? {
      MovedAffine(s1, next.value, s1.tasks[next.value].(status := Running, runCpu := if cur == next then s1.tasks[next.value].runCpu else cpu));
    }
  }

  lemma MovedAffine(s: State, t: Tid, x: Task)
    requires Sound(s) && Affine(s) && t in s.tasks && x.prio < PRIOS && x.aff == s.tasks[t].aff
    ensures Affine(Move(s, t, x))
  {
    MoveSound(s, t, x);
  }

  // ---- who runs after a switch ----

  /** No ready task of this core outranks task `t`. */
  ghost predicate Unrivalled(s: State, cpu: nat, t: Tid) {
    t in s.tasks && forall u, q: nat | Candidate(s, cpu, u, q) :: q <= s.tasks[t].prio
  }

  /** A priority task runs that nobody ready at this core outranks. */
  ghost predicate HighestHere(s: State, cpu: nat, r: Option<Tid>) {
    r.Some? && r.value in s.tasks && UsesPriority(s.tasks[r.value]) && Unrivalled(s, cpu, r.value)
  }

  /** The highest priority that is ready at this core. */
  function Top(s: State, cpu: nat): nat
    requires cpu < |s.bits|
  {
    if NonZero(s.bits[cpu]) then HighestSet(s.bits[cpu]) else 0
  }

  /** An EDF task with the seat of this core is urgent. */
  ghost predicate EdfUrgent(s: State, cpu: nat, now: nat)
    requires Sound(s) && cpu < |s.online|
  {
    var e := PickEdf(s, cpu);
    e.Some? && s.tasks[e.value].deadline <= now + SLACK
  }

  /** The running task puts itself behind the others: it was told to, or it is round-robin. */
  predicate Yields(x: Task, forced: bool) {
    forced || x.policy == RoundRobin
  }

  /**
   * The situations in which the core goes to the highest priority.  A task that yields must
   * leave the core to one of at least its own priority, because the choice is made before it
   * is ready again; one that does not must not have a threshold between its own priority and
   * a higher one.  An urgent EDF task comes before all of them.
   */
  ghost predicate RunsRight(s: State, cpu: nat, cur: Tid, forced: bool, now: nat)
    requires Sound(s) && cpu < |s.online| && cur in s.tasks
  {
    var x := s.tasks[cur];
    var some := PickPriority(s, cpu).Some?;
    var handsOver := TargetCore(s.online, x) == cpu ==> Top(s, cpu) >= x.prio;
    && !EdfUrgent(s, cpu, now)
    && (if Yields(x, forced) then some && handsOver
        else some ==> if Top(s, cpu) <= x.thresh then Top(s, cpu) <= x.prio else handsOver)
  }

  /** After the switch a priority task runs that nobody outranks, exactly in these situations. */
  lemma HighestRunsIff(s: State, cpu: nat, cur: Tid, forced: bool, now: nat)
    requires Sound(s) && Affine(s) && cpu < |s.online| && cur in s.tasks && s.tasks[cur].status == Running && UsesPriority(s.tasks[cur])
    ensures var (s', r) := Switch(s, cpu, Some(cur), forced, now);
            HighestHere(s', cpu, r) <==> RunsRight(s, cpu, cur, forced, now)
  {
    var x := s.tasks[cur];
    var next := PickNext(s, cpu, now);
    SwitchSound(s, cpu, Some(cur), next);
    NextIs(s, cpu, now);
    if Sticks(x, if next.Some? then Some(s.tasks[next.value]) else None, forced, now) {
      StaysIff(s, cpu, cur);
    } else if next.Some? && UsesPriority(s.tasks[next.value]) {
      HandsOverIff(s, cpu, cur, forced, now);
    }
  }

  /** The choice, case by case. */
  lemma NextIs(s: State, cpu: nat, now: nat)
    requires Sound(s) && cpu < |s.online|
    ensures var next, pri := PickNext(s, cpu, now), PickPriority(s, cpu);
            && (pri.Some? ==> pri.value in s.tasks && UsesPriority(s.tasks[pri.value]) && s.tasks[pri.value].prio == Top(s, cpu))
            && (EdfUrgent(s, cpu, now) ==> next.Some? && Urgent(s.tasks[next.value], now))
            && (!EdfUrgent(s, cpu, now) && pri.Some? ==> next == pri)
            && (!EdfUrgent(s, cpu, now) && pri.None? && next.Some? ==>
                  var y := s.tasks[next.value]; !UsesPriority(y) && !Urgent(y, now))
  {
    if PickPriority(s, cpu).Some? { PickedHere(s, cpu); }
  }

  /** Who stays is outranked by nobody iff nothing higher is ready. */
  lemma StaysIff(s: State, cpu: nat, cur: Tid)
    requires Sound(s) && Affine(s) && cpu < |s.online| && cur in s.tasks
    ensures Unrivalled(s, cpu, cur) <==> (PickPriority(s, cpu).Some? ==> Top(s, cpu) <= s.tasks[cur].prio)
  {
    if PickPriority(s, cpu).Some? { PickedHere(s, cpu); } else { AffineNeverMasked(s, cpu); }
    forall u, q: nat | Candidate(s, cpu, u, q)
      ensures PickPriority(s, cpu).Some? && q <= Top(s, cpu)
    {
      PickMissesIff(s, cpu, u, q);
      if PickPriority(s, cpu).Some? { PickIsBest(s, cpu, u, q); } else { AffineNeverMasked(s, cpu); }
    }
  }

  /** Who takes over is outranked by nobody iff not by the one that left, if that one is ready at this core. */
  lemma HandsOverIff(s: State, cpu: nat, cur: Tid, forced: bool, now: nat)
    requires Sound(s) && Affine(s) && cpu < |s.online| && cur in s.tasks && s.tasks[cur].status == Running && UsesPriority(s.tasks[cur])
    requires PickPriority(s, cpu).Some? && PickNext(s, cpu, now) == PickPriority(s, cpu)
    requires !Sticks(s.tasks[cur], Some(s.tasks[PickPriority(s, cpu).value]), forced, now)
    ensures var (s', r) := Switch(s, cpu, Some(cur), forced, now);
            r == PickPriority(s, cpu) && (HighestHere(s', cpu, r) <==> (TargetCore(s.online, s.tasks[cur]) == cpu ==> Top(s, cpu) >= s.tasks[cur].prio))
  {
    var t := PickPriority(s, cpu).value;
    PickedHere(s, cpu);
    SwitchSound(s, cpu, Some(cur), Some(t));
    SuccessorIff(s, Switch(s, cpu, Some(cur), forced, now).0, cpu, cur, t);
  }

  lemma SuccessorIff(s: State, s': State, cpu: nat, cur: Tid, t: Tid)
    requires Sound(s) && Affine(s) && cpu < |s.online| && cur in s.tasks && s.tasks[cur].status == Running && UsesPriority(s.tasks[cur])
    requires PickPriority(s, cpu) == Some(t) && t in s.tasks && t != cur && s.tasks[t].prio == Top(s, cpu) && UsesPriority(s.tasks[t])
    requires s'.online == s.online && s'.tasks == s.tasks[cur := s.tasks[cur].(status := Ready)][t := s.tasks[t].(status := Running, runCpu := cpu)]
    ensures HighestHere(s', cpu, Some(t)) <==> (TargetCore(s.online, s.tasks[cur]) == cpu ==> Top(s, cpu) >= s.tasks[cur].prio)
  {
    if TargetCore(s.online, s.tasks[cur]) == cpu {
      assert Candidate(s', cpu, cur, s.tasks[cur].prio);
    }
    forall u, q: nat | Candidate(s', cpu, u, q) && u != cur
      ensures q <= Top(s, cpu)
    {
      assert Candidate(s, cpu, u, q);
      PickIsBest(s, cpu, u, q);
    }
  }

  /** A running task that does not give up the core itself, with no threshold above its priority, is followed by the highest, unless an EDF task is urgent. */
  lemma HighestRuns(s: State, cpu: nat, cur: Tid, now: nat)
    requires Sound(s) && Affine(s) && cpu < |s.online| && cur in s.tasks && s.tasks[cur].status == Running
    requires UsesPriority(s.tasks[cur]) && !Yields(s.tasks[cur], false) && s.tasks[cur].thresh == s.tasks[cur].prio && !EdfUrgent(s, cpu, now)
    ensures var (s', r) := Switch(s, cpu, Some(cur), false, now); HighestHere(s', cpu, r)
  {
    HighestRunsIff(s, cpu, cur, false, now);
  }

  /** A task that yields can hand the core to a lower priority, because the choice is made before it is ready again. */
  lemma YieldRunsLower(s: State, cpu: nat, cur: Tid, now: nat)
    requires Sound(s) && Affine(s) && cpu < |s.online| && cur in s.tasks && s.tasks[cur].status == Running && UsesPriority(s.tasks[cur])
    requires TargetCore(s.online, s.tasks[cur]) == cpu && !EdfUrgent(s, cpu, now)
    requires PickPriority(s, cpu).Some? && Top(s, cpu) < s.tasks[cur].prio
    ensures var (s', r) := Switch(s, cpu, Some(cur), true, now);
            r.Some? && r.value in s'.tasks && cur in s'.tasks && s'.tasks[r.value].prio < s'.tasks[cur].prio && Candidate(s', cpu, cur, s'.tasks[cur].prio)
  {
    PickedHere(s, cpu);
    SwitchSound(s, cpu, Some(cur), PickNext(s, cpu, now));
  }

  // ---- EDF tasks ----

  /** Task `t` is a ready EDF task, and no core has a seat for it. */
  ghost predicate Seatless(s: State, t: Tid)
    requires Sound(s)
  {
    t in s.tasks && EdfHome in s.lists && t in s.lists[EdfHome] && forall c: nat | c < |s.online| :: PickEdf(s, c) != Some(t)
  }

  lemma EdfListKnown(s: State)
    requires Sound(s)
    ensures EdfHome in s.lists && forall t | t in s.lists[EdfHome] :: t in EdfView(s.tasks)
  {
    assert IsHome(s.online, EdfHome) && ListOk(s, EdfHome, {});
  }

  /** While the list is sorted, a ready EDF task without a seat finds every core it may use taken by one that is due no later. */
  lemma EdfServed(s: State, t: Tid, c: nat)
    requires Sound(s) && EdfSorted(s) && Seatless(s, t) && M.Online(s.online, c) && Allowed(s.tasks[t], c)
    ensures var r := PickEdf(s, c); r.Some? && r.value in s.tasks && s.tasks[r.value].deadline <= s.tasks[t].deadline
  {
    EdfListKnown(s);
    var q, view := s.lists[EdfHome], EdfView(s.tasks);
    var i :| 0 <= i < |q| && q[i] == t;
    forall j: nat | j < i
      ensures view[q[j]].deadline <= view[q[i]].deadline
    {
      assert KeyAtMost(s.tasks, EdfHome, q[j], q[i]);
    }
    var r := M.Seating(s.online, view, q);
    forall d: nat | d < |r|
      ensures r[d] != Some(t)
    {
      assert PickEdf(s, d) == r[d];
    }
    M.NoBlockingPair(s.online, view, q, i, c);
  }

  /** A longer period set on the first ready EDF task leaves it in front: on one core it runs, although the next is due earlier. */
  lemma PeriodKeepsTurn(s: State, t: Tid, u: Tid, period: nat, now: nat)
    requires Sound(s) && s.online == [true] && EdfHome in s.lists && |s.lists[EdfHome]| > 1 && s.lists[EdfHome][0] == t && s.lists[EdfHome][1] == u
    requires t in s.tasks && u in s.tasks && s.tasks[t].aff == None && period > 0 && now + period > s.tasks[u].deadline
    ensures var s' := Apply(s, SetPeriod(t, period, now));
            && Sound(s') && !EdfSorted(s') && PickEdf(s', 0) == Some(t)
            && t in s'.tasks && u in s'.tasks && s'.tasks[t].deadline > s'.tasks[u].deadline
  {
    EdfListKnown(s);
    assert ListOk(s, EdfHome, {}) && t in s.lists[EdfHome] && u in s.lists[EdfHome] && s.lists[EdfHome][0] != s.lists[EdfHome][1];
    ApplySound(s, SetPeriod(t, period, now));
    var s' := Apply(s, SetPeriod(t, period, now));
    EdfListKnown(s');
    M.HeadSeated(EdfView(s'.tasks), s'.lists[EdfHome]);
    assert !KeyAtMost(s'.tasks, EdfHome, s'.lists[EdfHome][0], s'.lists[EdfHome][1]);
  }
}
