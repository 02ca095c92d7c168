/**
 * The ready structures of kernel/scheduler.c: one list per core and priority with a bitmap over
 * them, one list per core for fair-share tasks, one list for all EDF tasks.  Every operation of
 * the scheduler moves one task, or two, between these lists; none may leave a task in two of
 * them or in the wrong one.
 */
module ReadySpec {
  import opened Bits
  import opened WaitQueue
  import opened Wrappers
  import L = KernelList
  import M = McEdf

  /** CONFIG_RT_PRIO_THRESHOLD and CONFIG_MCEDF_PRIO_SLACK_TICKS; priorities are 0..31. */
  const RT_THRESHOLD: nat := 20
  const SLACK: nat := 1
  const PRIOS: nat := 32

  datatype Policy = RoundRobin | Priority | Fair | Edf | Hybrid

  datatype Status = Ready | Running | Blocked | Suspended | Deleted

  /** `thresh` is the preemption threshold; `aff` the hard affinity, None for 0xFF. */
  datatype Task = Task(policy: Policy, prio: nat, thresh: nat, aff: Option<nat>, runCpu: nat, status: Status, vruntime: nat, deadline: nat)

  /** The list a ready task belongs in. */
  datatype Home = PrioHome(core: nat, prio: nat) | FairHome(core: nat) | EdfHome

  datatype State = State(online: seq<bool>, tasks: map<Tid, Task>, lists: map<Home, seq<Tid>>, bits: seq<Word>)

  // ---- where a ready task belongs ----

  predicate UsesEdf(x: Task) { x.policy == Edf }

  predicate UsesFair(x: Task) { x.policy == Fair || (x.policy == Hybrid && x.prio < RT_THRESHOLD) }

  predicate UsesPriority(x: Task) { x.policy == Priority || x.policy == RoundRobin || (x.policy == Hybrid && x.prio >= RT_THRESHOLD) }

  /** `cgrtos_sched_target_core`. */
  function TargetCore(online: seq<bool>, x: Task): (c: nat)
    requires online != []
    ensures c < |online| && (M.Online(online, c))
    ensures x.aff.Some? && M.Online(online, x.aff.value) ==> c == x.aff.value
  {
    if x.aff.Some? then if M.Online(online, x.aff.value) then x.aff.value else 0
    else if M.Online(online, x.runCpu) then x.runCpu else 0
  }

  function HomeOf(online: seq<bool>, x: Task): Home
    requires online != []
  {
    if UsesEdf(x) then EdfHome
    else if UsesFair(x) then FairHome(TargetCore(online, x))
    else PrioHome(TargetCore(online, x), x.prio)
  }

  /** What a list is sorted by; priority lists are in order of arrival. */
  function KeyOf(h: Home, x: Task): nat {
    match h
    case PrioHome(_, _) => 0
    case FairHome(_) => x.vruntime
    case EdfHome => x.deadline
  }

  predicate IsHome(online: seq<bool>, h: Home) {
    match h
    case PrioHome(c, p) => c < |online| && p < PRIOS
    case FairHome(c) => c < |online|
    case EdfHome => true
  }

  function Keys(tasks: map<Tid, Task>, h: Home, q: seq<Tid>): (k: seq<nat>)
    requires forall t | t in q :: t in tasks
    ensures |k| == |q| && forall i | 0 <= i < |q| :: k[i] == KeyOf(h, tasks[q[i]])
    decreases |q|
  {
    if q == [] then [] else [KeyOf(h, tasks[q[0]])] + Keys(tasks, h, q[1..])
  }

  // ---- the invariant ----

  ghost predicate KeyAtMost(tasks: map<Tid, Task>, h: Home, t: Tid, u: Tid) {
    t in tasks && u in tasks && KeyOf(h, tasks[t]) <= KeyOf(h, tasks[u])
  }

  ghost predicate ByKey(tasks: map<Tid, Task>, h: Home, q: seq<Tid>) {
    forall i, j | 0 <= i < j < |q| :: KeyAtMost(tasks, h, q[i], q[j])
  }

  /** The list of home `h` holds exactly the ready tasks that belong there, those of `skip` excepted; a fair-share list is sorted. */
  ghost predicate ListOk(s: State, h: Home, skip: set<Tid>)
    requires h in s.lists && s.online != []
  {
    var q := s.lists[h];
    && NoDup(q)
    && (forall t :: t in q <==> t in s.tasks && t !in skip && s.tasks[t].status == Ready && HomeOf(s.online, s.tasks[t]) == h)
    && (h != EdfHome ==> ByKey(s.tasks, h, q))
  }

  ghost predicate Shape(s: State) {
    && s.online != [] && |s.bits| == |s.online|
    && (forall h :: h in s.lists <==> IsHome(s.online, h))
    && (forall t | t in s.tasks :: s.tasks[t].prio < PRIOS)
  }

  /** A bit is set iff its list is not empty. */
  ghost predicate BitsOk(s: State)
    requires Shape(s)
  {
    forall c: nat, p: nat {:trigger s.bits[c][p]} | c < |s.online| && p < PRIOS :: s.bits[c][p] <==> s.lists[PrioHome(c, p)] != []
  }

  ghost predicate SoundBut(s: State, skip: set<Tid>) {
    Shape(s) && BitsOk(s) && forall h {:trigger ListOk(s, h, skip)} | h in s.lists :: ListOk(s, h, skip)
  }

  /** A task is ready iff it is linked in exactly one list, the one it belongs in now; the bits are right. */
  ghost predicate Sound(s: State) {
    SoundBut(s, {})
  }

  /** The list of the EDF tasks is sorted by deadline; not every operation sees to that. */
  ghost predicate EdfSorted(s: State) {
    EdfHome in s.lists && ByKey(s.tasks, EdfHome, s.lists[EdfHome])
  }

  // ---- linking and unlinking ----

  /** The place a task takes in its list: the end of a priority list, before its equals in a sorted one. */
  function Place(tasks: map<Tid, Task>, h: Home, q: seq<Tid>, x: Task): (k: nat)
    requires forall t | t in q :: t in tasks
    ensures k <= |q|
  {
    if h.PrioHome? then |q| else L.PlaceBefore(Keys(tasks, h, q), KeyOf(h, x))
  }

  function SetBit(bits: seq<Word>, h: Home, on: bool): seq<Word> {
    if h.PrioHome? && h.core < |bits| && h.prio < WIDTH then bits[h.core := bits[h.core][h.prio := on]] else bits
  }

  /** `sched_add_ready_locked`. */
  function Link(s: State, t: Tid): State
    requires s.online != [] && t in s.tasks && HomeOf(s.online, s.tasks[t]) in s.lists
    requires forall u | u in s.lists[HomeOf(s.online, s.tasks[t])] :: u in s.tasks
  {
    var h := HomeOf(s.online, s.tasks[t]);
    var q := s.lists[h];
    s.(tasks := s.tasks[t := s.tasks[t].(status := Ready)],
       lists := s.lists[h := L.Inserted(q, Place(s.tasks, h, q, s.tasks[t]), t)],
       bits := SetBit(s.bits, h, true))
  }

  /** `sched_remove_ready_locked` of a ready task. */
  function Unlink(s: State, t: Tid): State
    requires s.online != [] && t in s.tasks && HomeOf(s.online, s.tasks[t]) in s.lists
  {
    var h := HomeOf(s.online, s.tasks[t]);
    var q := Removed(s.lists[h], t);
    s.(lists := s.lists[h := q], bits := if q == [] then SetBit(s.bits, h, false) else s.bits)
  }

  lemma HomeInLists(s: State, x: Task)
    requires Shape(s) && x.prio < PRIOS
    ensures HomeOf(s.online, x) in s.lists
  {
    assert IsHome(s.online, HomeOf(s.online, x));
  }

  lemma ListKnown(s: State, h: Home, skip: set<Tid>)
    requires SoundBut(s, skip) && h in s.lists
    ensures forall u | u in s.lists[h] :: u in s.tasks
  {
    assert ListOk(s, h, skip);
  }

  lemma SetBitOk(s: State, h: Home, q: seq<Tid>)
    requires Shape(s) && BitsOk(s) && h in s.lists
    ensures var bits := if q == [] then SetBit(s.bits, h, false) else SetBit(s.bits, h, true);
            var s' := s.(lists := s.lists[h := q], bits := bits);
            |bits| == |s.bits| && Shape(s') && BitsOk(s')
  {
    assert IsHome(s.online, h);
    var s' := s.(lists := s.lists[h := q], bits := if q == [] then SetBit(s.bits, h, false) else SetBit(s.bits, h, true));
    assert forall g :: g in s'.lists <==> g in s.lists;
    forall c: nat, p: nat | c < |s.online| && p < PRIOS
      ensures s'.bits[c][p] <==> s'.lists[PrioHome(c, p)] != []
    {
      assert s.bits[c][p] <==> s.lists[PrioHome(c, p)] != [];
    }
  }

  lemma SortedWithout(tasks: map<Tid, Task>, h: Home, q: seq<Tid>, t: Tid)
    requires ByKey(tasks, h, q) && t in q
    ensures ByKey(tasks, h, Removed(q, t))
  {
    var k := RemovedAt(q, t);
    var r := Removed(q, t);
    forall i, j | 0 <= i < j < |r|
      ensures KeyAtMost(tasks, h, r[i], r[j])
    {
      var a, b := if i < k then i else i + 1, if j < k then j else j + 1;
      assert r[i] == q[a] && r[j] == q[b] && KeyAtMost(tasks, h, q[a], q[b]);
    }
  }

  lemma ListWithout(s: State, h: Home, t: Tid)
    requires Sound(s) && h in s.lists && t in s.lists[h]
    ensures ListOk(s.(lists := s.lists[h := Removed(s.lists[h], t)]), h, {t})
  {
    assert ListOk(s, h, {});
    RemovedContent(s.lists[h], t);
    if h != EdfHome { SortedWithout(s.tasks, h, s.lists[h], t); }
  }

  lemma UnlinkSound(s: State, t: Tid)
    requires Sound(s) && t in s.tasks && s.tasks[t].status == Ready
    ensures HomeOf(s.online, s.tasks[t]) in s.lists && SoundBut(Unlink(s, t), {t})
  {
    HomeInLists(s, s.tasks[t]);
    var h := HomeOf(s.online, s.tasks[t]);
    assert ListOk(s, h, {});
    var s', q := Unlink(s, t), Removed(s.lists[h], t);
    SetBitOk(s, h, q);
    SameBits(s, h, q, s'.bits);
    ListWithout(s, h, t);
    forall g | g in s'.lists
      ensures ListOk(s', g, {t})
    {
      assert ListOk(s, g, {});
      if g == h { assert ListOk(s.(lists := s.lists[h := q]), h, {t}); }
    }
  }

  /** Setting a bit that is set already changes nothing. */
  lemma SameBits(s: State, h: Home, q: seq<Tid>, bits: seq<Word>)
    requires Shape(s) && BitsOk(s) && h in s.lists && s.lists[h] != []
    requires bits == if q == [] then SetBit(s.bits, h, false) else s.bits
    ensures bits == if q == [] then SetBit(s.bits, h, false) else SetBit(s.bits, h, true)
  {
    assert IsHome(s.online, h);
    if q != [] && h.PrioHome? {
      assert s.bits[h.core][h.prio];
      assert s.bits[h.core][h.prio := true] == s.bits[h.core];
      assert s.bits[h.core := s.bits[h.core]] == s.bits;
    }
  }

  lemma LinkContent(q: seq<Tid>, k: nat, t: Tid)
    requires NoDup(q) && t !in q && k <= |q|
    ensures NoDup(L.Inserted(q, k, t)) && forall u :: u in L.Inserted(q, k, t) <==> u == t || u in q
  {
    assert q == q[..k] + q[k..];
    forall i, j | 0 <= i < j <= |q|
      ensures L.Inserted(q, k, t)[i] != L.Inserted(q, k, t)[j]
    {
      StillDifferent(q, k, t, i, j);
    }
  }

  lemma StillDifferent(q: seq<Tid>, k: nat, t: Tid, i: nat, j: nat)
    requires NoDup(q) && t !in q && k <= |q| && i < j <= |q|
    ensures L.Inserted(q, k, t)[i] != L.Inserted(q, k, t)[j]
  {
    var r := L.Inserted(q, k, t);
    var a, b := if i < k then i else i - 1, if j < k then j else j - 1;
    if i == k {
      assert r[j] == q[b] && q[b] in q;
    } else if j == k {
      assert r[i] == q[a] && q[a] in q;
    } else {
      assert r[i] == q[a] && r[j] == q[b];
    }
  }

  /** The place of a task keeps its list sorted. */
  lemma LinkPlace(tasks: map<Tid, Task>, h: Home, q: seq<Tid>, t: Tid)
    requires ByKey(tasks, h, q) && t in tasks && forall u | u in q :: u in tasks
    ensures ByKey(tasks, h, L.Inserted(q, Place(tasks, h, q, tasks[t]), t))
  {
    var k, keys := Place(tasks, h, q, tasks[t]), Keys(tasks, h, q);
    forall i | 0 <= i < |q|
      ensures if i < k then KeyAtMost(tasks, h, q[i], t) else KeyAtMost(tasks, h, t, q[i])
    {
      assert q[i] in q && keys[i] == KeyOf(h, tasks[q[i]]);
      if k < i { assert KeyAtMost(tasks, h, q[k], q[i]) && keys[k] == KeyOf(h, tasks[q[k]]); }
    }
    PairsInOrder(tasks, h, q, k, t);
  }

  lemma PairsInOrder(tasks: map<Tid, Task>, h: Home, q: seq<Tid>, k: nat, t: Tid)
    requires k <= |q| && t in tasks && ByKey(tasks, h, q)
    requires forall i | 0 <= i < |q| :: if i < k then KeyAtMost(tasks, h, q[i], t) else KeyAtMost(tasks, h, t, q[i])
    ensures ByKey(tasks, h, L.Inserted(q, k, t))
  {
    var r := L.Inserted(q, k, t);
    forall i, j | 0 <= i < j < |r|
      ensures KeyAtMost(tasks, h, r[i], r[j])
    {
      if i != k { assert r[i] == q[if i < k then i else i - 1]; }
      if j != k { assert r[j] == q[if j < k then j else j - 1]; }
    }
  }

  /** Keys and homes do not depend on the status. */
  lemma ReadyByKey(tasks: map<Tid, Task>, tasks': map<Tid, Task>, h: Home, q: seq<Tid>, t: Tid)
    requires t in tasks && ByKey(tasks, h, q) && tasks' == tasks[t := tasks[t].(status := Ready)]
    ensures ByKey(tasks', h, q)
  {
    forall i, j | 0 <= i < j < |q|
      ensures KeyAtMost(tasks', h, q[i], q[j])
    {
      assert KeyAtMost(tasks, h, q[i], q[j]);
    }
  }

  lemma LinkedList(s: State, t: Tid)
    requires SoundBut(s, {t}) && t in s.tasks && HomeOf(s.online, s.tasks[t]) in s.lists
    requires forall u | u in s.lists[HomeOf(s.online, s.tasks[t])] :: u in s.tasks
    ensures ListOk(Link(s, t), HomeOf(s.online, s.tasks[t]), {})
  {
    var h := HomeOf(s.online, s.tasks[t]);
    assert ListOk(s, h, {t});
    LinkContent(s.lists[h], Place(s.tasks, h, s.lists[h], s.tasks[t]), t);
    if h != EdfHome {
      LinkPlace(s.tasks, h, s.lists[h], t);
      ReadyByKey(s.tasks, Link(s, t).tasks, h, Link(s, t).lists[h], t);
    }
  }

  lemma OtherList(s: State, s': State, t: Tid, x: Task, g: Home)
    requires s.online != [] && s'.online == s.online && g in s.lists && g in s'.lists && ListOk(s, g, {t})
    requires s'.tasks == s.tasks[t := x] && s'.lists[g] == s.lists[g] && HomeOf(s.online, x) != g
    ensures ListOk(s', g, {})
  {
    if g != EdfHome { UntouchedByKey(s.tasks, s'.tasks, g, s.lists[g], t); }
  }

  lemma UntouchedByKey(tasks: map<Tid, Task>, tasks': map<Tid, Task>, h: Home, q: seq<Tid>, t: Tid)
    requires ByKey(tasks, h, q) && t !in q && forall u | u in q :: u in tasks && u in tasks' && tasks'[u] == tasks[u]
    ensures ByKey(tasks', h, q)
  {
    forall i, j | 0 <= i < j < |q|
      ensures KeyAtMost(tasks', h, q[i], q[j])
    {
      assert KeyAtMost(tasks, h, q[i], q[j]) && q[i] in q && q[j] in q;
    }
  }

  lemma LinkSound(s: State, t: Tid)
    requires SoundBut(s, {t}) && t in s.tasks
    ensures HomeOf(s.online, s.tasks[t]) in s.lists && (forall u | u in s.lists[HomeOf(s.online, s.tasks[t])] :: u in s.tasks)
    ensures Sound(Link(s, t))
  {
    HomeInLists(s, s.tasks[t]);
    var h := HomeOf(s.online, s.tasks[t]);
    ListKnown(s, h, {t});
    LinkedList(s, t);
    var s' := Link(s, t);
    SetBitOk(s, h, s'.lists[h]);
    forall g | g in s'.lists
      ensures ListOk(s', g, {})
    {
      assert ListOk(s, g, {t});
      if g != h { OtherList(s, s', t, s'.tasks[t], g); }
    }
  }

  /** No list but `h` holds task `t` or a task of `h`. */
  ghost predicate Apart(s: State, h: Home, t: Tid) {
    h in s.lists && forall g, u | g in s.lists && g != h && u in s.lists[g] :: u != t && u !in s.lists[h]
  }

  lemma ApartAt(s: State, h: Home, t: Tid, g: Home, u: Tid)
    requires Apart(s, h, t) && g in s.lists && g != h && u in s.lists[g]
    ensures u != t && u !in s.lists[h]
  {
  }

  lemma LinkedApart(s: State, h: Home, t: Tid)
    requires Sound(s) && h in s.lists && t in s.lists[h]
    ensures Apart(s, h, t)
  {
    forall g, u | g in s.lists && g != h && u in s.lists[g]
      ensures u !in s.lists[h]
    {
      assert ListOk(s, g, {}) && ListOk(s, h, {});
    }
  }

  lemma UnlinkedApart(s: State, h: Home, t: Tid)
    requires SoundBut(s, {t}) && h in s.lists
    ensures Apart(s, h, t) && t !in s.lists[h]
  {
    forall g, u | g in s.lists && g != h && u in s.lists[g]
      ensures u != t && u !in s.lists[h]
    {
      assert ListOk(s, g, {t}) && ListOk(s, h, {t});
    }
    assert ListOk(s, h, {t});
  }

  // ---- moving a task ----

  /** What every operation does with a task: out of its list if it is in one, changed, and into the list it belongs in then, if ready. */
  ghost function Move(s: State, t: Tid, x: Task): State
    requires Sound(s) && x.prio < PRIOS
  {
    MoveSound(s, t, x);
    var s1 := if t in s.tasks && s.tasks[t].status == Ready then Unlink(s, t) else s;
    var s2 := s1.(tasks := s1.tasks[t := x]);
    if x.status == Ready then Link(s2, t) else s2
  }

  lemma ChangeSound(s: State, t: Tid, x: Task)
    requires SoundBut(s, {t}) && x.prio < PRIOS
    ensures SoundBut(s.(tasks := s.tasks[t := x]), {t})
  {
    var s' := s.(tasks := s.tasks[t := x]);
    forall h | h in s'.lists
      ensures ListOk(s', h, {t})
    {
      assert ListOk(s, h, {t});
      if h != EdfHome { UntouchedByKey(s.tasks, s'.tasks, h, s.lists[h], t); }
    }
  }

  lemma SkipMore(s: State, t: Tid)
    requires Sound(s) && (t in s.tasks ==> s.tasks[t].status != Ready)
    ensures SoundBut(s, {t})
  {
    forall h | h in s.lists
      ensures ListOk(s, h, {t})
    {
      assert ListOk(s, h, {});
    }
  }

  lemma SkipLess(s: State, t: Tid)
    requires SoundBut(s, {t}) && t in s.tasks && s.tasks[t].status != Ready
    ensures Sound(s)
  {
    forall h | h in s.lists
      ensures ListOk(s, h, {})
    {
      assert ListOk(s, h, {t});
    }
  }

  lemma MoveSound(s: State, t: Tid, x: Task)
    requires Sound(s) && x.prio < PRIOS
    ensures t in s.tasks && s.tasks[t].status == Ready ==> HomeOf(s.online, s.tasks[t]) in s.lists
    ensures var s1 := if t in s.tasks && s.tasks[t].status == Ready then Unlink(s, t) else s;
            var s2 := s1.(tasks := s1.tasks[t := x]);
            && (x.status == Ready ==> s2.online != [] && HomeOf(s2.online, x) in s2.lists && (forall u | u in s2.lists[HomeOf(s2.online, x)] :: u in s2.tasks))
            && Sound(if x.status == Ready then Link(s2, t) else s2)
  {
    if t in s.tasks && s.tasks[t].status == Ready { UnlinkSound(s, t); } else { SkipMore(s, t); }
    var s1 := if t in s.tasks && s.tasks[t].status == Ready then Unlink(s, t) else s;
    ChangeSound(s1, t, x);
    var s2 := s1.(tasks := s1.tasks[t := x]);
    if x.status == Ready { LinkSound(s2, t); } else { SkipLess(s2, t); }
  }

  /** What is done to a task keeps the EDF list sorted, since it leaves the list before and joins it after. */
  lemma MoveSorted(s: State, t: Tid, x: Task)
    requires Sound(s) && EdfSorted(s) && x.prio < PRIOS
    ensures EdfSorted(Move(s, t, x))
  {
    MoveSound(s, t, x);
    var s1 := if t in s.tasks && s.tasks[t].status == Ready then Unlink(s, t) else s;
    assert ListOk(s, EdfHome, {});
    if t in s.tasks && s.tasks[t].status == Ready {
      UnlinkSound(s, t);
      if t in s.lists[EdfHome] { SortedWithout(s.tasks, EdfHome, s.lists[EdfHome], t); }
    } else {
      SkipMore(s, t);
    }
    assert ListOk(s1, EdfHome, {t});
    var s2 := s1.(tasks := s1.tasks[t := x]);
    UntouchedByKey(s1.tasks, s2.tasks, EdfHome, s1.lists[EdfHome], t);
    if x.status == Ready {
      if UsesEdf(x) { LinkPlace(s2.tasks, EdfHome, s2.lists[EdfHome], t); }
      ReadyByKey(s2.tasks, Link(s2, t).tasks, EdfHome, Link(s2, t).lists[EdfHome], t);
    }
  }

  // ---- changing a task in place ----

  /** A change that affects neither where a task belongs nor its place in a fair-share list. */
  predicate SamePlace(x: Task, y: Task) {
    x.policy == y.policy && x.prio == y.prio && x.aff == y.aff && x.runCpu == y.runCpu && x.status == y.status && x.vruntime == y.vruntime
  }

  lemma InPlaceSound(s: State, t: Tid, x: Task)
    requires Sound(s) && t in s.tasks && SamePlace(s.tasks[t], x)
    ensures Sound(s.(tasks := s.tasks[t := x]))
  {
    var s' := s.(tasks := s.tasks[t := x]);
    forall h | h in s'.lists
      ensures ListOk(s', h, {})
    {
      assert ListOk(s, h, {});
      if h != EdfHome { SameKeys(s.tasks, s'.tasks, h, s.lists[h]); }
    }
  }

  lemma SameKeys(tasks: map<Tid, Task>, tasks': map<Tid, Task>, h: Home, q: seq<Tid>)
    requires ByKey(tasks, h, q) && forall u | u in q :: u in tasks && u in tasks' && KeyOf(h, tasks'[u]) == KeyOf(h, tasks[u])
    ensures ByKey(tasks', h, q)
  {
    forall i, j | 0 <= i < j < |q|
      ensures KeyAtMost(tasks', h, q[i], q[j])
    {
      assert KeyAtMost(tasks, h, q[i], q[j]) && q[i] in q && q[j] in q;
    }
  }

  /** Deadline `d` would be out of order at the place of task `t`, which has a neighbour in the EDF list that is due later before it, or earlier behind it. */
  ghost predicate OutOfOrder(s: State, t: Tid, d: nat)
    requires EdfHome in s.lists
  {
    exists i: nat :: i < |s.lists[EdfHome]| && s.lists[EdfHome][i] == t && BadAt(s, i, d)
  }

  ghost predicate BadAt(s: State, i: nat, d: nat)
    requires EdfHome in s.lists && i < |s.lists[EdfHome]|
  {
    var q := s.lists[EdfHome];
    || (i > 0 && q[i - 1] in s.tasks && s.tasks[q[i - 1]].deadline > d)
    || (i + 1 < |q| && q[i + 1] in s.tasks && s.tasks[q[i + 1]].deadline < d)
  }

  /** A deadline set in place keeps the EDF list sorted iff it lies between those of the neighbours, or the task is not in the list. */
  lemma DeadlineInPlaceIff(s: State, t: Tid, d: nat)
    requires Sound(s) && EdfSorted(s) && t in s.tasks
    ensures EdfSorted(s.(tasks := s.tasks[t := s.tasks[t].(deadline := d)])) <==> !OutOfOrder(s, t, d)
  {
    var s' := s.(tasks := s.tasks[t := s.tasks[t].(deadline := d)]);
    var q := s.lists[EdfHome];
    assert ListOk(s, EdfHome, {});
    if t !in q {
      UntouchedByKey(s.tasks, s'.tasks, EdfHome, q, t);
    } else if OutOfOrder(s, t, d) {
      NotInOrder(s, t, d);
    } else {
      var k :| 0 <= k < |q| && q[k] == t;
      assert !BadAt(s, k, d);
      forall i, j | 0 <= i < j < |q|
        ensures KeyAtMost(s'.tasks, EdfHome, q[i], q[j])
      {
        StillInOrder(s, t, d, k, i, j);
      }
    }
  }

  lemma NotInOrder(s: State, t: Tid, d: nat)
    requires Sound(s) && EdfHome in s.lists && t in s.tasks && OutOfOrder(s, t, d)
    ensures !EdfSorted(s.(tasks := s.tasks[t := s.tasks[t].(deadline := d)]))
  {
    var q, s' := s.lists[EdfHome], s.(tasks := s.tasks[t := s.tasks[t].(deadline := d)]);
    assert ListOk(s, EdfHome, {});
    var i: nat :| i < |q| && q[i] == t && BadAt(s, i, d);
    var j := if i > 0 && q[i - 1] in s.tasks && s.tasks[q[i - 1]].deadline > d then i - 1 else i;
    assert q[j] != q[j + 1];
    assert !KeyAtMost(s'.tasks, EdfHome, q[j], q[j + 1]);
  }

  lemma StillInOrder(s: State, t: Tid, d: nat, k: nat, i: nat, j: nat)
    requires Sound(s) && EdfSorted(s) && t in s.tasks && i < j < |s.lists[EdfHome]| && k < |s.lists[EdfHome]|
    requires s.lists[EdfHome][k] == t && !BadAt(s, k, d)
    ensures KeyAtMost(s.tasks[t := s.tasks[t].(deadline := d)], EdfHome, s.lists[EdfHome][i], s.lists[EdfHome][j])
  {
    var q := s.lists[EdfHome];
    assert ListOk(s, EdfHome, {});
    assert KeyAtMost(s.tasks, EdfHome, q[i], q[j]);
    if i < k - 1 { assert KeyAtMost(s.tasks, EdfHome, q[i], q[k - 1]); }
    if k + 1 < j { assert KeyAtMost(s.tasks, EdfHome, q[k + 1], q[j]); }
    if 0 < k { assert q[k - 1] in q; }
    if k + 1 < |q| { assert q[k + 1] in q; }
  }
}
