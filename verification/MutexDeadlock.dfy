/**
 * Deadlock among mutexes: which lock requests close a cycle of waiting tasks, which of them
 * the depth-limited check refuses, and what that means for whole runs.
 */
module MutexDeadlock {
  import opened Wrappers
  import opened MutexSpec
  import opened WaitQueue

  lemma {:induction false} FollowSplit(s: State, t: Tid, i: nat, j: nat)
    ensures Follow(s, t, i + j) == (match Follow(s, t, i) case None => None case Some(u) => Follow(s, u, j))
    decreases i
  {
    if i > 0 {
      match Edge(s, t)
      case None =>
      case Some(u) => FollowSplit(s, u, i - 1, j);
    }
  }

  // ---- steps that add no edge ----

  /** Every edge of `s'` is an edge of `s`, or leads to a task that waits for nobody. */
  ghost predicate EdgesDropped(s: State, s': State) {
    forall t: Tid {:trigger Edge(s', t)} ::
      Edge(s', t) == Edge(s, t) || Edge(s', t).None? || Edge(s', Edge(s', t).value).None?
  }

  lemma {:induction false} PathKept(s: State, s': State, t: Tid, k: nat)
    requires EdgesDropped(s, s')
    requires Follow(s', t, k).Some? && Edge(s', Follow(s', t, k).value).Some?
    ensures Follow(s, t, k) == Follow(s', t, k)
    decreases k
  {
    if k > 0 {
      PathKept(s, s', Edge(s', t).value, k - 1);
    }
  }

  lemma CycleKept(s: State, s': State, t: Tid, k: nat)
    requires EdgesDropped(s, s') && k > 0
    ensures Follow(s', t, k) == Some(t) ==> Follow(s, t, k) == Some(t)
  {
    if Follow(s', t, k) == Some(t) {
      PathKept(s, s', t, k);
    }
  }

  lemma DroppedKeepsNoCycle(s: State, s': State)
    requires EdgesDropped(s, s') && NoCycle(s)
    ensures NoCycle(s')
  {
    forall t: Tid, k: nat | k > 0
      ensures Follow(s', t, k) != Some(t)
    {
      CycleKept(s, s', t, k);
    }
  }

  // ---- the one step that adds an edge ----

  /** `s'` has one edge more than `s`: from `cur`, which waited for nobody, to `o`. */
  ghost predicate EdgeAdded(s: State, s': State, cur: Tid, o: Tid) {
    && Edge(s, cur) == None && Edge(s', cur) == Some(o)
    && forall t: Tid {:trigger Edge(s', t)} | t != cur :: Edge(s', t) == Edge(s, t)
  }

  /** `o` waits, directly or not, for `cur`, or is `cur`. */
  ghost predicate Reaches(s: State, o: Tid, cur: Tid) {
    exists k: nat :: Follow(s, o, k) == Some(cur)
  }

  /** `cur` comes up in the chain from `o` at depth 16 or later, where `mutex_would_deadlock` has stopped looking. */
  ghost predicate ReachesBeyond(s: State, o: Tid, cur: Tid) {
    exists k: nat :: k >= MAX_DEPTH && Follow(s, o, k) == Some(cur)
  }

  /** A path of the new graph is a path of the old one, or goes once through the new edge. */
  lemma {:induction false} PathOnceThrough(s: State, s': State, cur: Tid, o: Tid, t: Tid, k: nat) returns (i: nat)
    requires EdgeAdded(s, s', cur, o) && !Reaches(s, o, cur) && Follow(s', t, k).Some?
    ensures i <= k
    ensures i == k ==> Follow(s, t, k) == Follow(s', t, k)
    ensures i < k ==> Follow(s, t, i) == Some(cur) && Follow(s, o, k - 1 - i) == Follow(s', t, k)
    decreases k
  {
    if k == 0 {
      i := 0;
    } else if t == cur {
      i := PathOnceThrough(s, s', cur, o, o, k - 1);
      assert i == k - 1;
      i := 0;
    } else {
      i := PathOnceThrough(s, s', cur, o, Edge(s, t).value, k - 1);
      i := i + 1;
    }
  }

  lemma CycleReaches(s: State, s': State, cur: Tid, o: Tid, t: Tid, k: nat)
    requires EdgeAdded(s, s', cur, o) && !Reaches(s, o, cur) && k > 0
    ensures Follow(s', t, k) == Some(t) ==> Follow(s, t, k) == Some(t)
  {
    if Follow(s', t, k) == Some(t) {
      var i := PathOnceThrough(s, s', cur, o, t, k);
      if i < k {
        FollowSplit(s, o, k - 1 - i, i);
      }
    }
  }

  lemma {:induction false} PathExtends(s: State, s': State, cur: Tid, o: Tid, t: Tid, k: nat)
    requires EdgeAdded(s, s', cur, o) && Follow(s, t, k).Some?
    ensures Follow(s', t, k) == Follow(s, t, k)
    decreases k
  {
    if k > 0 { PathExtends(s, s', cur, o, Edge(s, t).value, k - 1); }
  }

  /** Adding the edge closes a cycle iff the new neighbour already waits for `cur`. */
  lemma EdgeClosesCycle(s: State, s': State, cur: Tid, o: Tid)
    requires EdgeAdded(s, s', cur, o) && NoCycle(s)
    ensures NoCycle(s') <==> !Reaches(s, o, cur)
  {
    if Reaches(s, o, cur) {
      var k: nat :| Follow(s, o, k) == Some(cur);
      PathExtends(s, s', cur, o, o, k);
      assert Follow(s', cur, k + 1) == Some(cur);
    } else {
      forall t: Tid, k: nat | k > 0
        ensures Follow(s', t, k) != Some(t)
      {
        CycleReaches(s, s', cur, o, t, k);
      }
    }
  }

  // ---- the depth limit ----

  /** The mutexes met on the way: `m`, then for each task passed the mutex it is blocked on. */
  function Held(s: State, m: Mid, k: nat): (q: seq<Mid>)
    requires m in s.mutexes && s.mutexes[m].owner.Some? && Follow(s, s.mutexes[m].owner.value, k).Some?
    ensures |q| == k + 1 && forall n | n in q :: n in s.mutexes
    decreases k
  {
    if k == 0 then [m] else [m] + Held(s, s.tasks[s.mutexes[m].owner.value].blockedOn.value, k - 1)
  }

  lemma {:induction false} HeldOwner(s: State, m: Mid, k: nat, j: nat)
    requires m in s.mutexes && s.mutexes[m].owner.Some? && Follow(s, s.mutexes[m].owner.value, k).Some? && j <= k
    ensures var n := Held(s, m, k)[j];
            n in s.mutexes && s.mutexes[n].owner == Follow(s, s.mutexes[m].owner.value, j) && s.mutexes[n].owner.Some?
    decreases k
  {
    if j > 0 {
      HeldOwner(s, s.tasks[s.mutexes[m].owner.value].blockedOn.value, k - 1, j - 1);
    }
  }

  /** Without a cycle the mutexes met are all different. */
  lemma HeldDistinct(s: State, m: Mid, k: nat)
    requires m in s.mutexes && s.mutexes[m].owner.Some? && Follow(s, s.mutexes[m].owner.value, k).Some? && NoCycle(s)
    ensures NoDup(Held(s, m, k))
  {
    var o, q := s.mutexes[m].owner.value, Held(s, m, k);
    forall i, j | 0 <= i < j < |q|
      ensures q[i] != q[j]
    {
      HeldOwner(s, m, k, i);
      HeldOwner(s, m, k, j);
      FollowSplit(s, o, i, j - i);
      assert Follow(s, Follow(s, o, i).value, j - i) != Follow(s, o, i);
    }
  }

  lemma {:induction false} DistinctFit(q: seq<Mid>, room: set<Mid>)
    requires NoDup(q) && forall n | n in q :: n in room
    ensures |q| <= |room|
  {
    if q != [] {
      assert q[0] !in q[1..];
      DistinctFit(q[1..], room - {q[0]});
    }
  }

  /** A chain of waiting tasks is shorter than the number of mutexes. */
  lemma ChainBound(s: State, m: Mid, k: nat)
    requires m in s.mutexes && s.mutexes[m].owner.Some? && Follow(s, s.mutexes[m].owner.value, k).Some? && NoCycle(s)
    ensures k < |s.mutexes|
  {
    HeldDistinct(s, m, k);
    DistinctFit(Held(s, m, k), s.mutexes.Keys);
    assert |s.mutexes.Keys| == |s.mutexes|;
  }

  // ---- lock ----

  lemma LockEdge(s: State, t: Tid, m: Mid)
    requires Inv(s) && Runs(s, t) && m in s.mutexes && s.mutexes[m].owner.Some? && s.mutexes[m].owner != Some(t)
    requires s.mutexes[m].owner.value in s.tasks && forall u | u in s.mutexes[m].waitQ :: u in s.tasks
    ensures EdgeAdded(s, Block(Inherit(s, s.mutexes[m].owner.value, t), t, m), t, s.mutexes[m].owner.value)
  {
  }

  /**
   * A request that goes to sleep leaves the graph without a cycle iff the chain from the
   * owner does not reach the caller at depth 16 or beyond.
   */
  lemma LockClosesCycleIff(s: State, t: Tid, m: Mid, wait: bool)
    requires Inv(s) && NoCycle(s) && Runs(s, t) && m in s.mutexes && Lock(s, t, m, wait).1 == Asleep
    ensures s.mutexes[m].owner.Some?
    ensures NoCycle(Lock(s, t, m, wait).0) <==> !ReachesBeyond(s, s.mutexes[m].owner.value, t)
  {
    assert QueueOk(s, m);
    var o := s.mutexes[m].owner.value;
    LockEdge(s, t, m);
    EdgeClosesCycle(s, Lock(s, t, m, wait).0, t, o);
    ReachesDeep(s, t, m);
  }

  lemma ReachesDeep(s: State, t: Tid, m: Mid)
    requires m in s.mutexes && s.mutexes[m].owner.Some? && !WouldDeadlock(s, m, t)
    ensures Reaches(s, s.mutexes[m].owner.value, t) <==> ReachesBeyond(s, s.mutexes[m].owner.value, t)
  {
    var o := s.mutexes[m].owner.value;
    if Reaches(s, o, t) {
      var k: nat :| Follow(s, o, k) == Some(t);
      assert k >= MAX_DEPTH;
    }
  }

  /** With at most 16 mutexes: lock refuses exactly the requests that would close a cycle. */
  lemma LockRefusesExactly(s: State, t: Tid, m: Mid)
    requires Inv(s) && NoCycle(s) && Runs(s, t) && m in s.mutexes && |s.mutexes| <= MAX_DEPTH
    requires s.mutexes[m].owner.Some? && s.mutexes[m].owner != Some(t)
    requires s.mutexes[m].owner.value in s.tasks && forall u | u in s.mutexes[m].waitQ :: u in s.tasks
    ensures Lock(s, t, m, true).1 == ErrDeadlock <==> !NoCycle(Block(Inherit(s, s.mutexes[m].owner.value, t), t, m))
  {
    var o := s.mutexes[m].owner.value;
    LockEdge(s, t, m);
    EdgeClosesCycle(s, Block(Inherit(s, o, t), t, m), t, o);
    forall k: nat | Follow(s, o, k) == Some(t)
      ensures k < MAX_DEPTH
    {
      ChainBound(s, m, k);
    }
  }

  lemma LockKeepsNoCycle(s: State, t: Tid, m: Mid, wait: bool)
    requires Inv(s) && NoCycle(s) && Runs(s, t) && m in s.mutexes && |s.mutexes| <= MAX_DEPTH
    ensures NoCycle(Lock(s, t, m, wait).0)
  {
    var (s', r) := Lock(s, t, m, wait);
    assert QueueOk(s, m) && TaskOk(s, t);
    if r == Asleep {
      LockRefusesExactly(s, t, m);
    } else {
      assert forall u :: u in s.tasks && s.tasks[u].blockedOn == Some(m) ==> TaskOk(s, u);
      assert EdgesDropped(s, s');
      DroppedKeepsNoCycle(s, s');
    }
  }

  // ---- the other steps only drop edges ----

  lemma HandOffDrops(s: State, m: Mid)
    requires Inv(s) && m in s.mutexes && forall u | u in s.mutexes[m].waitQ :: u in s.tasks
    ensures EdgesDropped(s, HandOff(s, m))
  {
    var s' := HandOff(s, m);
    var q := s.mutexes[m].waitQ;
    assert QueueOk(s, m);
    assert q != [] ==> q[0] in q;
    forall t: Tid
      ensures Edge(s', t) == Edge(s, t) || Edge(s', t).None? || Edge(s', Edge(s', t).value).None?
    {
    }
  }

  lemma NextKeepsNoCycle(s: State, a: Step)
    requires Inv(s) && Enabled(s, a) && NoCycle(s) && |s.mutexes| <= MAX_DEPTH
    ensures NoCycle(Next(s, a))
  {
    match a
    case LockStep(t, m, wait) => LockKeepsNoCycle(s, t, m, wait);
    case UnlockStep(t, m) =>
      assert QueueOk(s, m);
      if s.mutexes[m].owner == Some(t) && s.mutexes[m].recursive == 0 {
        ReleaseOneKeepsNoCycle(s, t, m);
      } else {
        DroppedKeepsNoCycle(s, Next(s, a));
      }
    case TimeOutStep(t) =>
      assert TaskOk(s, t);
      DroppedKeepsNoCycle(s, Next(s, a));
    case ReturnStep(t) => DroppedKeepsNoCycle(s, Next(s, a));
    case DeleteStep(t) => DeleteKeepsNoCycle(s, t);
  }

  lemma ReleaseOneKeepsNoCycle(s: State, t: Tid, m: Mid)
    requires Inv(s) && NoCycle(s) && t in s.tasks && m in s.mutexes && forall u | u in s.mutexes[m].waitQ :: u in s.tasks
    ensures NoCycle(HandOff(Restore(s, t), m))
  {
    var s1 := Restore(s, t);
    PrioKeepsInv(s, s1);
    DroppedKeepsNoCycle(s, s1);
    HandOffDrops(s1, m);
    DroppedKeepsNoCycle(s1, HandOff(s1, m));
  }

  lemma {:induction false} ReleaseAllKeepsNoCycle(s: State, t: Tid, i: nat)
    requires Inv(s) && t in s.tasks && (s.tasks[t].blockedOn.None? ==> s.tasks[t].inCall.None?) && NoCycle(s)
    ensures NoCycle(ReleaseAll(s, t, i))
  {
    if i > 0 {
      ReleaseAllKeepsNoCycle(s, t, i - 1);
      var s1 := ReleaseAll(s, t, i - 1);
      ReleaseNextKeepsNoCycle(s1, t, i - 1);
      assert ReleaseAll(s, t, i) == ReleaseNext(s1, t, i - 1);
    }
  }

  lemma ReleaseNextKeepsNoCycle(s: State, t: Tid, m: Mid)
    requires Inv(s) && NoCycle(s) && t in s.tasks && (s.tasks[t].blockedOn.None? ==> s.tasks[t].inCall.None?)
    ensures NoCycle(ReleaseNext(s, t, m))
  {
    if m in s.mutexes && s.mutexes[m].owner == Some(t) {
      assert QueueOk(s, m);
      ReleaseOneKeepsNoCycle(s, t, m);
    }
  }

  lemma DeleteKeepsNoCycle(s: State, t: Tid)
    requires Inv(s) && t in s.tasks && NoCycle(s)
    ensures NoCycle(Delete(s, t))
  {
    EndCallKeepsInv(s, t);
    DroppedKeepsNoCycle(s, EndCall(s, t));
    ReleaseAllKeepsNoCycle(EndCall(s, t), t, POOL);
    var s1 := ReleaseAll(EndCall(s, t), t, POOL);
    if s1.tasks[t].blockedOn.Some? {
      assert TaskOk(s1, t);
    }
    DroppedKeepsNoCycle(s1, Delete(s, t));
  }

  // ---- whole runs ----

  /** Nobody holds or waits for anything. */
  ghost predicate Initial(s: State) {
    && (forall t | t in s.tasks :: s.tasks[t].blockedOn == None && s.tasks[t].inCall == None && s.tasks[t].prio == s.tasks[t].base)
    && (forall m | m in s.mutexes :: s.mutexes[m] == Mutex(None, 0, []))
  }

  /** `trace` is a run: it starts initially and every state follows from the one before by an enabled step. */
  ghost predicate IsRun(trace: seq<State>, steps: seq<Step>) {
    && |trace| == |steps| + 1
    && Initial(trace[0])
    && forall i | 0 <= i < |steps| :: Inv(trace[i]) ==> Enabled(trace[i], steps[i]) && trace[i + 1] == Next(trace[i], steps[i])
  }

  lemma InitialSafe(s: State)
    requires Initial(s)
    ensures Inv(s) && NoCycle(s)
  {
    forall t: Tid, k: nat | k > 0
      ensures Follow(s, t, k) != Some(t)
    {
      assert Edge(s, t) == None;
    }
  }

  /** No run of a kernel with at most 16 mutexes ever has a cycle of waiting tasks. */
  lemma {:induction false} RunsNeverDeadlock(trace: seq<State>, steps: seq<Step>, i: nat)
    requires IsRun(trace, steps) && i < |trace| && |trace[0].mutexes| <= MAX_DEPTH
    ensures Inv(trace[i]) && NoCycle(trace[i]) && trace[i].mutexes.Keys == trace[0].mutexes.Keys
  {
    if i == 0 {
      InitialSafe(trace[0]);
    } else {
      RunsNeverDeadlock(trace, steps, i - 1);
      var s, a := trace[i - 1], steps[i - 1];
      assert |s.mutexes| == |s.mutexes.Keys| && |trace[0].mutexes| == |trace[0].mutexes.Keys|;
      NextKeepsInv(s, a);
      NextKeepsNoCycle(s, a);
      NextKeepsMutexes(s, a);
    }
  }

  lemma NextKeepsMutexes(s: State, a: Step)
    requires Inv(s) && Enabled(s, a)
    ensures Next(s, a).mutexes.Keys == s.mutexes.Keys
  {
    match a
    case LockStep(t, m, wait) =>
    case UnlockStep(t, m) =>
    case TimeOutStep(t) => assert TaskOk(s, t);
    case ReturnStep(t) =>
    case DeleteStep(t) => assert TaskOk(ReleaseAll(EndCall(s, t), t, POOL), t) by { EndCallKeepsInv(s, t); }
  }

  // ---- beyond 16 mutexes ----

  /** n tasks in a row: task i holds mutex i and, but for the last, waits for mutex i + 1. */
  function Row(n: nat): State {
    State(map i: nat | i < n :: RowTask(n, i), map i: nat | i < n :: RowMutex(i), n)
  }

  function RowTask(n: nat, i: nat): Task {
    if i + 1 < n then Task(1, 1, Some(i + 1), Some(i + 1), false, i) else Task(1, 1, None, None, false, 0)
  }

  function RowMutex(i: nat): Mutex {
    Mutex(Some(i), 0, if i == 0 then [] else [i - 1])
  }

  lemma {:induction false} RowFollow(n: nat, i: nat, k: nat)
    requires i < n
    ensures Follow(Row(n), i, k) == if i + k < n then Some(i + k) else None
    decreases k
  {
    if k > 0 && i + 1 < n { RowFollow(n, i + 1, k - 1); }
  }

  lemma RowNoCycle(n: nat)
    ensures NoCycle(Row(n))
  {
    forall t: Tid, k: nat | k > 0
      ensures Follow(Row(n), t, k) != Some(t)
    {
      if t < n { RowFollow(n, t, k); }
    }
  }

  lemma RowInv(n: nat)
    ensures Inv(Row(n))
  {
    var s := Row(n);
    forall m | m in s.mutexes
      ensures QueueOk(s, m)
    {
    }
    forall t | t in s.tasks
      ensures TaskOk(s, t)
    {
      if t + 1 < n { assert s.mutexes[t + 1].waitQ == [t]; }
    }
  }

  /**
   * The last task of the row asks for the first mutex, which always closes the cycle.  With up
   * to 16 tasks the request is refused; with 17 or more it is not, and the tasks deadlock.
   */
  lemma RowRefusedUpTo16(n: nat)
    requires n >= 2
    ensures Inv(Row(n)) && NoCycle(Row(n)) && Runs(Row(n), n - 1)
    ensures n <= MAX_DEPTH ==> Lock(Row(n), n - 1, 0, true).1 == ErrDeadlock
    ensures n > MAX_DEPTH ==> Lock(Row(n), n - 1, 0, true).1 == Asleep && !NoCycle(Lock(Row(n), n - 1, 0, true).0)
  {
    RowInv(n);
    RowNoCycle(n);
    var s := Row(n);
    forall k: nat
      ensures Follow(s, 0, k) == Some(n - 1) <==> k == n - 1
    {
      RowFollow(n, 0, k);
    }
    assert Follow(s, 0, n - 1) == Some(n - 1);
    if n > MAX_DEPTH {
      LockClosesCycleIff(s, n - 1, 0, true);
    } else {
      assert WouldDeadlock(s, 0, n - 1);
    }
  }
}
