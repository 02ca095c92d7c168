/**
 * kernel/scheduler.c and kernel/task.c: the ready lists, their bitmaps and the tasks, updated in
 * place.  The list of a priority runs through the links of its tasks.  Every method is tied to
 * the step of ReadySteps it performs.
 */
module ReadyKernel {
  import opened Bits
  import opened TaskLinks
  import opened WaitQueue
  import opened Wrappers
  import L = KernelList
  import M = McEdf
  import S = ReadySpec
  import T = ReadySteps

  /** The fields of home `h` hold its list. */
  ghost predicate Holds(links: map<Tid, Link>, ready: map<S.Home, ReadyList>, sorted: map<S.Home, seq<Tid>>, lists: map<S.Home, seq<Tid>>, h: S.Home) {
    && h in lists
    && (if h.PrioHome? then h in ready && ReadyChain(links, ready[h], lists[h])
        else h in sorted && sorted[h] == lists[h])
  }

  /** Linking or unlinking a task leaves the lists it is not in alone. */
  lemma OtherLists(links: map<Tid, Link>, links': map<Tid, Link>, ready: map<S.Home, ReadyList>, sorted: map<S.Home, seq<Tid>>, s: S.State, h: S.Home, t: Tid, g: S.Home)
    requires Holds(links, ready, sorted, s.lists, g) && g != h && S.Apart(s, h, t) && Others(links, links', s.lists[h], t)
    ensures Holds(links', ready, sorted, s.lists, g)
  {
    if g.PrioHome? {
      ChainKnown(links, ready[g].head, s.lists[g]);
      forall u | u in s.lists[g]
        ensures u != t && u !in s.lists[h]
      {
        S.ApartAt(s, h, t, g, u);
      }
      ChainApart(links, links', ready[g].head, s.lists[g]);
    }
  }

  class Scheduler {
    const online: seq<bool>
    var tasks: map<Tid, S.Task>
    const tcbs: Tcbs
    /** `g_ready`: head, tail and count of the list of each core and priority. */
    var ready: map<S.Home, ReadyList>
    /** `g_cfs_ready` and `g_edf_global`, lists of kernel/list.c. */
    var sorted: map<S.Home, seq<Tid>>
    var bits: seq<Word>
    /** What all these lists hold. */
    ghost var lists: map<S.Home, seq<Tid>>

    ghost function State(): S.State
      reads this
    {
      S.State(online, tasks, lists, bits)
    }

    /** Every list is what its fields say, and every task has its links. */
    ghost predicate Linked()
      reads this, tcbs
    {
      && tcbs.links.Keys == tasks.Keys
      && forall h {:trigger Holds(tcbs.links, ready, sorted, lists, h)} | h in lists :: Holds(tcbs.links, ready, sorted, lists, h)
    }

    ghost predicate Valid()
      reads this, tcbs
    {
      Linked() && S.Sound(State())
    }

    constructor (online: seq<bool>)
      requires online != []
      ensures Valid() && tasks == map[] && this.online == online && fresh(tcbs)
    {
      this.online := online;
      tasks := map[];
      tcbs := new Tcbs();
      var homes := set c, p | 0 <= c < |online| && 0 <= p < S.PRIOS :: S.PrioHome(c, p);
      var others := (set c | 0 <= c < |online| :: S.FairHome(c)) + {S.EdfHome};
      ready := map h | h in homes :: NO_TASKS;
      sorted := map h | h in others :: [];
      lists := map h | h in homes + others :: [];
      bits := seq(|online|, _ => ZERO);
      new;
      forall h
        ensures h in lists <==> S.IsHome(online, h)
      {
      }
      forall h | h in lists
        ensures S.ListOk(State(), h, {}) && Holds(tcbs.links, ready, sorted, lists, h)
      {
      }
    }

    /** The walk of `list_insert_sorted_asc` over the keys of a list. */
    method FindPlace(h: S.Home, q: seq<Tid>, x: S.Task) returns (k: nat)
      requires !h.PrioHome? && forall t | t in q :: t in tasks
      ensures k == S.Place(tasks, h, q, x)
    {
      k := 0;
      while k < |q| && S.KeyOf(h, tasks[q[k]]) < S.KeyOf(h, x)
        invariant 0 <= k <= |q|
        invariant forall j | 0 <= j < k :: S.KeyOf(h, tasks[q[j]]) < S.KeyOf(h, x)
      {
        k := k + 1;
      }
      L.BeforeUnique(S.Keys(tasks, h, q), S.KeyOf(h, x), k);
    }

    /** `sched_add_priority_ready`. */
    method AddPriorityReady(t: Tid)
      requires Linked() && online != [] && S.SoundBut(State(), {t}) && t in tasks && S.UsesPriority(tasks[t])
      requires S.HomeOf(online, tasks[t]) in lists
      modifies this`ready, this`lists, this`bits, tcbs
      ensures Linked()
      ensures var h := S.HomeOf(online, tasks[t]);
              lists == old(lists)[h := old(lists)[h] + [t]] && bits == S.SetBit(old(bits), h, true)
    {
      var h := S.PrioHome(S.TargetCore(online, tasks[t]), tasks[t].prio);
      assert S.IsHome(online, h);
      AppendTo(h, t);
      SetBit(h, true);
    }

    method AppendTo(h: S.Home, t: Tid)
      requires Linked() && online != [] && S.SoundBut(State(), {t}) && t in tasks && h.PrioHome? && h in lists
      modifies this`ready, this`lists, tcbs
      ensures Linked() && lists == old(lists)[h := old(lists)[h] + [t]]
    {
      S.UnlinkedApart(State(), h, t);
      assert Holds(tcbs.links, ready, sorted, lists, h);
      ghost var s0, links0, ready0 := State(), tcbs.links, ready;
      var r := tcbs.Append(ready[h], t, lists[h]);
      ready := ready[h := r];
      lists := lists[h := lists[h] + [t]];
      forall g | g in lists
        ensures Holds(tcbs.links, ready, sorted, lists, g)
      {
        assert Holds(links0, ready0, sorted, s0.lists, g);
        if g != h { OtherLists(links0, tcbs.links, ready0, sorted, s0, h, t, g); }
      }
    }

    /** `list_insert_sorted_asc` into the EDF list or a fair-share list. */
    method AddSorted(h: S.Home, t: Tid)
      requires Linked() && t in tasks && !h.PrioHome? && h in lists && forall u | u in lists[h] :: u in tasks
      modifies this`sorted, this`lists
      ensures Linked()
      ensures lists == old(lists)[h := L.Inserted(old(lists)[h], S.Place(tasks, h, old(lists)[h], tasks[t]), t)]
    {
      assert Holds(tcbs.links, ready, sorted, lists, h);
      ghost var lists0, sorted0 := lists, sorted;
      var q := sorted[h];
      var k := FindPlace(h, q, tasks[t]);
      sorted := sorted[h := q[..k] + [t] + q[k..]];
      lists := lists[h := q[..k] + [t] + q[k..]];
      forall g | g in lists
        ensures Holds(tcbs.links, ready, sorted, lists, g)
      {
        assert Holds(tcbs.links, ready, sorted0, lists0, g);
      }
    }

    /** `sched_add_ready_locked`: by policy, into the EDF list, a fair-share list or a priority list. */
    method AddReady(t: Tid)
      requires Linked() && online != [] && S.SoundBut(State(), {t}) && t in tasks
      requires S.HomeOf(online, tasks[t]) in lists && forall u | u in lists[S.HomeOf(online, tasks[t])] :: u in tasks
      modifies this, tcbs
      ensures Linked() && State() == S.Link(old(State()), t)
    {
      var x := tasks[t];
      if S.UsesEdf(x) {
        AddSorted(S.EdfHome, t);
      } else if S.UsesFair(x) {
        AddSorted(S.FairHome(S.TargetCore(online, x)), t);
      } else {
        ghost var h := S.HomeOf(online, x);
        assert L.Inserted(lists[h], |lists[h]|, t) == lists[h] + [t];
        AddPriorityReady(t);
      }
      SetTask(t, x.(status := S.Ready));
    }

    /** A write to the fields of a task other than its links. */
    method SetTask(t: Tid, x: S.Task)
      requires Linked() && t in tasks
      modifies this`tasks
      ensures Linked() && tasks == old(tasks)[t := x]
    {
      tasks := tasks[t := x];
    }

    /** `sched_remove_priority_ready`: the bit goes when the count says that nobody is left. */
    method RemovePriorityReady(t: Tid)
      requires Valid() && t in tasks && S.UsesPriority(tasks[t])
      requires S.HomeOf(online, tasks[t]) in lists && t in lists[S.HomeOf(online, tasks[t])]
      modifies this`ready, this`lists, this`bits, tcbs
      ensures Linked() && State() == S.Unlink(old(State()), t)
    {
      var h := S.PrioHome(S.TargetCore(online, tasks[t]), tasks[t].prio);
      assert S.IsHome(online, h);
      RemoveFrom(h, t);
      assert Holds(tcbs.links, ready, sorted, lists, h);
      if ready[h].count == 0 {
        SetBit(h, false);
      }
    }

    method RemoveFrom(h: S.Home, t: Tid)
      requires Valid() && h.PrioHome? && h in lists && t in lists[h]
      modifies this`ready, this`lists, tcbs
      ensures Linked() && lists == old(lists)[h := Removed(old(lists)[h], t)]
    {
      S.LinkedApart(State(), h, t);
      assert Holds(tcbs.links, ready, sorted, lists, h);
      ghost var s0, links0, ready0 := State(), tcbs.links, ready;
      var r := tcbs.Remove(ready[h], t, lists[h]);
      ready := ready[h := r];
      lists := lists[h := Removed(lists[h], t)];
      forall g | g in lists
        ensures Holds(tcbs.links, ready, sorted, lists, g)
      {
        assert Holds(links0, ready0, sorted, s0.lists, g);
        if g != h { OtherLists(links0, tcbs.links, ready0, sorted, s0, h, t, g); }
      }
    }

    /** The bit of a list in `g_ready_bitmap`. */
    method SetBit(h: S.Home, on: bool)
      requires Linked() && h.PrioHome? && h.core < |bits| && h.prio < WIDTH
      modifies this`bits
      ensures Linked() && bits == S.SetBit(old(bits), h, on)
    {
      bits := bits[h.core := bits[h.core][h.prio := on]];
    }

    /** `list_remove` from the EDF list or a fair-share list. */
    method RemoveSorted(h: S.Home, t: Tid)
      requires Linked() && !h.PrioHome? && h in lists && t in lists[h]
      modifies this`sorted, this`lists
      ensures Linked() && lists == old(lists)[h := Removed(old(lists)[h], t)]
    {
      assert Holds(tcbs.links, ready, sorted, lists, h);
      ghost var lists0, sorted0 := lists, sorted;
      var q := WaitListRemove(sorted[h], t);
      sorted := sorted[h := q];
      lists := lists[h := q];
      forall g | g in lists
        ensures Holds(tcbs.links, ready, sorted, lists, g)
      {
        assert Holds(tcbs.links, ready, sorted0, lists0, g);
      }
    }

    /** `sched_remove_ready_locked` of a task that is ready. */
    method RemoveReady(t: Tid)
      requires Valid() && t in tasks && S.HomeOf(online, tasks[t]) in lists && t in lists[S.HomeOf(online, tasks[t])]
      modifies this`ready, this`sorted, this`lists, this`bits, tcbs
      ensures Linked() && State() == S.Unlink(old(State()), t)
    {
      var x := tasks[t];
      if S.UsesEdf(x) {
        RemoveSorted(S.EdfHome, t);
      } else if S.UsesFair(x) {
        RemoveSorted(S.FairHome(S.TargetCore(online, x)), t);
      } else {
        RemovePriorityReady(t);
      }
    }

    /** The fields of a task, which may be a new one; its links are empty then. */
    method WriteTask(t: Tid, x: S.Task)
      requires Linked()
      modifies this`tasks, tcbs
      ensures Linked() && tasks == old(tasks)[t := x]
    {
      if t in tasks {
        SetTask(t, x);
      } else {
        NewTask(t, x);
      }
    }

    method NewTask(t: Tid, x: S.Task)
      requires Linked() && t !in tasks
      modifies this`tasks, tcbs
      ensures Linked() && tasks == old(tasks)[t := x]
    {
      ghost var links0 := tcbs.links;
      tcbs.Add(t);
      tasks := tasks[t := x];
      forall h | h in lists
        ensures Holds(tcbs.links, ready, sorted, lists, h)
      {
        assert Holds(links0, ready, sorted, lists, h);
        if h.PrioHome? {
          ChainKnown(links0, ready[h].head, lists[h]);
          ChainApart(links0, tcbs.links, ready[h].head, lists[h]);
        }
      }
    }

    /** The pattern of every operation: a ready task is taken out of its list, changed, and put into the list it belongs in then. */
    method Change(t: Tid, x: S.Task)
      requires Valid() && x.prio < S.PRIOS
      modifies this, tcbs
      ensures Valid() && State() == S.Move(old(State()), t, x)
    {
      S.MoveSound(State(), t, x);
      if t in tasks && tasks[t].status == S.Ready {
        assert S.ListOk(State(), S.HomeOf(online, tasks[t]), {});
        S.UnlinkSound(State(), t);
        RemoveReady(t);
      } else {
        S.SkipMore(State(), t);
      }
      S.ChangeSound(State(), t, x);
      WriteTask(t, x);
      if x.status == S.Ready {
        AddReady(t);
      }
    }

    /** `cgrtos_task_create`, `cgrtos_sched_block`, `cgrtos_sched_unblock` and the setters, with their parameters checked. */
    method Apply(op: T.Op)
      requires Valid() && T.Enabled(State(), op)
      modifies this, tcbs
      ensures Valid() && State() == T.Apply(old(State()), op)
    {
      var x;
      match op {
        case Create(t, policy, prio, runCpu, now) =>
          x := S.Task(policy, prio, prio, None, runCpu, S.Ready, 0, if policy == S.Edf then now else 0);
        case Block(t) => x := tasks[t].(status := S.Blocked);
        case Unblock(t) => x := tasks[t].(status := S.Ready);
        case SetPriority(t, prio) =>
          x := tasks[t].(prio := prio);
          if x.thresh < prio {
            x := x.(thresh := prio);
          }
        case SetAffinity(t, aff) => x := tasks[t].(aff := aff);
        case SetDeadline(t, deadline) => x := tasks[t].(deadline := deadline);
        case SetPeriod(t, period, now) =>
          x := tasks[t];
          if x.policy == S.Edf && period > 0 {
            x := x.(deadline := now + period);
          }
        case SetThreshold(t, thresh) => x := tasks[t].(thresh := thresh);
        case Lend(t, prio) => x := tasks[t].(prio := prio);
        case Migrate(t, core) => x := tasks[t].(runCpu := core);
        case Suspend(t) => x := tasks[t].(status := S.Suspended);
        case Resume(t) => x := tasks[t].(status := S.Ready);
        case Delete(t) => x := tasks[t].(status := S.Deleted);
      }
      assert x == T.Changed(State(), op);
      if T.InPlace(op) {
        T.ApplySound(State(), op);
        SetTask(op.t, x);
      } else {
        Change(op.t, x);
      }
    }

    /** `sched_highest_ready_prio` and the walk of `sched_pick_priority`. */
    method PickPriority(cpu: nat) returns (r: Option<Tid>)
      requires Valid() && cpu < |online|
      ensures r == T.PickPriority(State(), cpu)
    {
      if !NonZero(bits[cpu]) {
        return None;
      }
      var h := S.PrioHome(cpu, HighestSet(bits[cpu]));
      assert S.IsHome(online, h);
      S.ListKnown(State(), h, {});
      assert Holds(tcbs.links, ready, sorted, lists, h);
      r := FirstFit(cpu, ready[h].head, lists[h]);
    }

    /** From the head along the links, to the first task that may run here. */
    method FirstFit(cpu: nat, head: Option<Tid>, ghost q: seq<Tid>) returns (r: Option<Tid>)
      requires Chain(tcbs.links, head, q) && tcbs.links.Keys == tasks.Keys && forall t | t in q :: t in tasks
      ensures r == T.FirstAllowed(tasks, q, cpu)
    {
      r := head;
      ghost var i := 0;
      assert q[0..] == q;
      while r.Some?
        invariant 0 <= i <= |q| && r == (if i < |q| then Some(q[i]) else None)
        invariant T.FirstAllowed(tasks, q, cpu) == T.FirstAllowed(tasks, q[i..], cpu)
        decreases |q| - i
      {
        assert q[i..] == [q[i]] + q[i + 1..] && q[i] in q && Node(tcbs.links, q, i);
        if tasks[r.value].aff == None || tasks[r.value].aff == Some(cpu) {
          return;
        }
        r := tcbs.links[r.value].next;
        i := i + 1;
      }
    }

    /** `sched_pick_next`. */
    method PickNext(cpu: nat, now: nat) returns (r: Option<Tid>)
      requires Valid() && cpu < |online|
      ensures r == T.PickNext(State(), cpu, now)
    {
      assert S.IsHome(online, S.EdfHome) && S.IsHome(online, S.FairHome(cpu));
      assert S.ListOk(State(), S.EdfHome, {}) && S.ListOk(State(), S.FairHome(cpu), {});
      assert Holds(tcbs.links, ready, sorted, lists, S.EdfHome) && Holds(tcbs.links, ready, sorted, lists, S.FairHome(cpu));
      var edf := M.PickEdf(online, T.EdfView(tasks), sorted[S.EdfHome], cpu);
      assert edf == T.PickEdf(State(), cpu);
      var pri := PickPriority(cpu);
      var fair := sorted[S.FairHome(cpu)];
      if edf.Some? {
        if pri == None || tasks[edf.value].deadline <= now + S.SLACK {
          return edf;
        }
      }
      if pri.Some? {
        return pri;
      }
      if fair != [] {
        return Some(fair[0]);
      }
      r := None;
    }

    /** `cgrtos_sched_switch_from_trap`. */
    method SwitchFromTrap(cpu: nat, cur: Option<Tid>, forced: bool, now: nat) returns (r: Option<Tid>)
      requires Valid() && cpu < |online| && (cur.Some? ==> cur.value in tasks)
      modifies this, tcbs
      ensures Valid() && (State(), r) == T.Switch(old(State()), cpu, cur, forced, now)
    {
      var next := PickNext(cpu, now);
      T.SwitchSound(State(), cpu, cur, next);
      if cur.Some? && tasks[cur.value].status == S.Running {
        if T.Sticks(tasks[cur.value], if next.Some? then Some(tasks[next.value]) else None, forced, now) {
          return cur;
        }
        Change(cur.value, tasks[cur.value].(status := S.Ready));
      }
      if next.Some? {
        var x := tasks[next.value].(status := S.Running);
        if cur != next {
          x := x.(runCpu := cpu);
        }
        Change(next.value, x);
      }
      r := next;
    }
  }
}
