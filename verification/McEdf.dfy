/**
 * The seat assignment of kernel/scheduler.c: the ready EDF tasks, earliest deadline first, are
 * given the cores that are online, and each core runs the task that got its seat.
 */
module McEdf {
  import opened WaitQueue
  import opened Wrappers

  /** `aff` is the hard affinity (0xFF is None), `runCpu` the core the task ran on last. */
  datatype Task = Task(deadline: nat, aff: Option<nat>, runCpu: nat)

  /** One seat per core; `online` has one flag per core and core 0 counts as online always. */
  type Seats = seq<Option<Tid>>

  predicate Online(online: seq<bool>, c: nat) {
    c < |online| && (c == 0 || online[c])
  }

  predicate MayRun(online: seq<bool>, t: Task, c: nat) {
    Online(online, c) && (t.aff == None || t.aff == Some(c))
  }

  predicate Free(online: seq<bool>, seats: Seats, c: nat) {
    Online(online, c) && c < |seats| && seats[c] == None
  }

  /** The lowest core, from `c` on, that is online and free. */
  function FirstFree(online: seq<bool>, seats: Seats, c: nat): (r: Option<nat>)
    ensures r.Some? ==> r.value >= c && Free(online, seats, r.value)
    ensures forall d: nat | c <= d && Free(online, seats, d) :: r.Some? && r.value <= d
    decreases |online| - c
  {
    if c >= |online| then None
    else if Free(online, seats, c) then Some(c)
    else FirstFree(online, seats, c + 1)
  }

  /** The seat a task takes: its own core under hard affinity; else its last core, else the first free one. */
  function SeatFor(online: seq<bool>, seats: Seats, t: Task): (r: Option<nat>)
    ensures r.Some? ==> Free(online, seats, r.value) && MayRun(online, t, r.value)
    ensures r.None? ==> forall c: nat | MayRun(online, t, c) && c < |seats| :: seats[c].Some?
  {
    match t.aff
    case Some(a) => if Free(online, seats, a) then Some(a) else None
    case None =>
      if Free(online, seats, t.runCpu) then Some(t.runCpu)
      else
        var r := FirstFree(online, seats, 0);
        assert forall c: nat | MayRun(online, t, c) && c < |seats| && seats[c] == None :: Free(online, seats, c);
        r
  }

  /** The seats after the tasks of `q` have taken theirs, in this order, while seats remain. */
  function Fill(online: seq<bool>, tasks: map<Tid, Task>, q: seq<Tid>, seats: Seats, room: nat): (r: Seats)
    requires forall t | t in q :: t in tasks
    ensures |r| == |seats|
    decreases |q|
  {
    if q == [] || room == 0 then seats
    else
      match SeatFor(online, seats, tasks[q[0]])
      case Some(c) => Fill(online, tasks, q[1..], seats[c := Some(q[0])], room - 1)
      case None => Fill(online, tasks, q[1..], seats, room)
  }

  function Empty(n: nat): Seats {
    seq(n, _ => None)
  }

  /** The number of cores online. */
  function Cores(online: seq<bool>, c: nat): nat
    decreases |online| - c
  {
    if c >= |online| then 0 else (if Online(online, c) then 1 else 0) + Cores(online, c + 1)
  }

  function Seating(online: seq<bool>, tasks: map<Tid, Task>, q: seq<Tid>): (r: Seats)
    requires forall t | t in q :: t in tasks
    ensures |r| == |online|
  {
    Fill(online, tasks, q, Empty(|online|), Cores(online, 0))
  }

  // ---- what the seating is ----

  /** The seats that are still free and online. */
  function FreeSeats(online: seq<bool>, seats: Seats, c: nat): nat
    decreases |online| - c
  {
    if c >= |online| then 0 else (if Free(online, seats, c) then 1 else 0) + FreeSeats(online, seats, c + 1)
  }

  lemma {:induction false} TakesOne(online: seq<bool>, seats: Seats, s: nat, t: Tid, c: nat)
    requires Free(online, seats, s)
    ensures FreeSeats(online, seats, c) == FreeSeats(online, seats[s := Some(t)], c) + if c <= s then 1 else 0
    decreases |online| - c
  {
    if c < |online| { TakesOne(online, seats, s, t, c + 1); }
  }

  lemma {:induction false} AllFree(online: seq<bool>, c: nat)
    ensures FreeSeats(online, Empty(|online|), c) == Cores(online, c)
    decreases |online| - c
  {
    if c < |online| { AllFree(online, c + 1); }
  }

  lemma {:induction false} NoneFree(online: seq<bool>, seats: Seats, c: nat)
    requires FreeSeats(online, seats, c) == 0
    ensures forall d: nat | c <= d :: !Free(online, seats, d)
    decreases |online| - c
  {
    if c < |online| { NoneFree(online, seats, c + 1); }
  }

  ghost predicate Seated(seats: Seats, t: Tid) {
    exists c :: 0 <= c < |seats| && seats[c] == Some(t)
  }

  /** Task `t` of the queue has no seat although it may run on core `c`: then a task before it in the queue has that seat. */
  ghost predicate Outranked(q: seq<Tid>, seats: Seats, i: nat, c: nat) {
    c < |seats| && exists j: nat :: j < i < |q| && seats[c] == Some(q[j])
  }

  /** Seats once taken stay taken. */
  lemma {:induction false} FillKeeps(online: seq<bool>, tasks: map<Tid, Task>, q: seq<Tid>, seats: Seats, room: nat)
    requires forall t | t in q :: t in tasks
    ensures forall c | 0 <= c < |seats| && seats[c].Some? :: Fill(online, tasks, q, seats, room)[c] == seats[c]
    decreases |q|
  {
    if q != [] && room != 0 {
      match SeatFor(online, seats, tasks[q[0]]) {
        case Some(c) => FillKeeps(online, tasks, q[1..], seats[c := Some(q[0])], room - 1);
        case None => FillKeeps(online, tasks, q[1..], seats, room);
      }
    }
  }

  /** A new occupant comes from the queue and may run there. */
  lemma {:induction false} FillFrom(online: seq<bool>, tasks: map<Tid, Task>, q: seq<Tid>, seats: Seats, room: nat, c: nat)
    requires (forall t | t in q :: t in tasks) && c < |seats| && seats[c] == None
    ensures var x := Fill(online, tasks, q, seats, room)[c];
            x.Some? ==> x.value in q && MayRun(online, tasks[x.value], c)
    decreases |q|
  {
    if q != [] && room != 0 {
      match SeatFor(online, seats, tasks[q[0]]) {
        case Some(d) =>
          if d == c {
            FillKeeps(online, tasks, q[1..], seats[c := Some(q[0])], room - 1);
          } else {
            FillFrom(online, tasks, q[1..], seats[d := Some(q[0])], room - 1, c);
          }
        case None => FillFrom(online, tasks, q[1..], seats, room, c);
      }
    }
  }

  /** Nobody has two seats. */
  lemma {:induction false} FillOnce(online: seq<bool>, tasks: map<Tid, Task>, q: seq<Tid>, seats: Seats, room: nat, c: nat, d: nat)
    requires (forall t | t in q :: t in tasks) && NoDup(q) && c < d < |seats|
    requires forall t | t in q :: !Seated(seats, t)
    requires seats[c].Some? ==> seats[c] != seats[d]
    ensures var r := Fill(online, tasks, q, seats, room); r[c].Some? ==> r[c] != r[d]
    decreases |q|
  {
    if q != [] && room != 0 {
      assert q[0] in q && !Seated(seats, q[0]);
      assert forall t | t in q[1..] :: t in q;
      match SeatFor(online, seats, tasks[q[0]]) {
        case Some(e) =>
          var next := seats[e := Some(q[0])];
          forall t | t in q[1..]
            ensures !Seated(next, t)
          {
            assert t in q && t != q[0] && !Seated(seats, t);
          }
          FillOnce(online, tasks, q[1..], next, room - 1, c, d);
        case None => FillOnce(online, tasks, q[1..], seats, room, c, d);
      }
    }
  }

  /** A task likes its last core best, and else a core the more, the lower its number. */
  predicate AsGood(t: Task, d: nat, c: nat) {
    d == c || d == t.runCpu || (c != t.runCpu && d < c)
  }

  /** Task `t` has a seat that it likes no less than core `c`. */
  ghost predicate Content(tasks: map<Tid, Task>, r: Seats, t: Tid, c: nat)
    requires t in tasks
  {
    exists d: nat :: d < |r| && r[d] == Some(t) && AsGood(tasks[t], d, c)
  }

  /** No free core that the task may use is better than the seat it takes. */
  lemma SeatBest(online: seq<bool>, seats: Seats, t: Task, c: nat)
    requires MayRun(online, t, c) && c < |seats| && seats[c] == None
    ensures var d := SeatFor(online, seats, t); d.Some? && AsGood(t, d.value, c)
  {
    assert Free(online, seats, c);
  }

  /** A task has a seat at least as good as core `c`, or finds that core taken by a task served before it. */
  lemma {:induction false} FillPrefers(online: seq<bool>, tasks: map<Tid, Task>, q: seq<Tid>, seats: Seats, room: nat, i: nat, c: nat)
    requires (forall t | t in q :: t in tasks) && i < |q| && |seats| == |online|
    requires room == FreeSeats(online, seats, 0) && MayRun(online, tasks[q[i]], c) && seats[c] == None
    ensures var r := Fill(online, tasks, q, seats, room); Content(tasks, r, q[i], c) || Outranked(q, r, i, c)
    decreases |q|
  {
    var r := Fill(online, tasks, q, seats, room);
    if room == 0 {
      NoneFree(online, seats, 0);
      assert Free(online, seats, c);
    }
    match SeatFor(online, seats, tasks[q[0]]) {
      case Some(d) =>
        var next := seats[d := Some(q[0])];
        TakesOne(online, seats, d, q[0], 0);
        FillKeeps(online, tasks, q[1..], next, room - 1);
        assert r == Fill(online, tasks, q[1..], next, room - 1) && r[d] == Some(q[0]);
        if i == 0 {
          SeatBest(online, seats, tasks[q[0]], c);
        } else if d != c {
          FillPrefers(online, tasks, q[1..], next, room - 1, i - 1, c);
          OutrankedTail(q, r, i, c);
        }
      case None =>
        assert i > 0;
        FillPrefers(online, tasks, q[1..], seats, room, i - 1, c);
        OutrankedTail(q, r, i, c);
    }
  }

  lemma OutrankedTail(q: seq<Tid>, r: Seats, i: nat, c: nat)
    requires 0 < i < |q|
    ensures Outranked(q[1..], r, i - 1, c) ==> Outranked(q, r, i, c)
  {
    if Outranked(q[1..], r, i - 1, c) {
      var j: nat :| j < i - 1 < |q[1..]| && r[c] == Some(q[1..][j]);
      assert q[j + 1] == q[1..][j];
    }
  }

  ghost predicate ByDeadline(tasks: map<Tid, Task>, q: seq<Tid>) {
    forall i, j | 0 <= i < j < |q| :: q[i] in tasks && q[j] in tasks && tasks[q[i]].deadline <= tasks[q[j]].deadline
  }

  /** A core runs a task that is ready and may run there, and no task runs on two cores. */
  lemma SeatsAreProper(online: seq<bool>, tasks: map<Tid, Task>, q: seq<Tid>, c: nat, d: nat)
    requires (forall t | t in q :: t in tasks) && NoDup(q) && c < |online| && d < |online|
    ensures var r := Seating(online, tasks, q);
            && (r[c].Some? ==> r[c].value in q && MayRun(online, tasks[r[c].value], c))
            && (r[c].Some? && r[c] == r[d] ==> c == d)
  {
    var e, n := Empty(|online|), Cores(online, 0);
    FillFrom(online, tasks, q, e, n, c);
    if c < d { FillOnce(online, tasks, q, e, n, c, d); }
    if d < c { FillOnce(online, tasks, q, e, n, d, c); }
  }

  /** If a ready task has no seat, each core it may use runs a task that is ahead of it in the list. */
  lemma SeatedAhead(online: seq<bool>, tasks: map<Tid, Task>, q: seq<Tid>, i: nat, c: nat)
    requires (forall t | t in q :: t in tasks) && i < |q| && MayRun(online, tasks[q[i]], c)
    ensures var r := Seating(online, tasks, q); Seated(r, q[i]) || Outranked(q, r, i, c)
  {
    AllFree(online, 0);
    FillPrefers(online, tasks, q, Empty(|online|), Cores(online, 0), i, c);
  }

  /** Nobody ahead of task `i` in the list is due later. */
  ghost predicate InTurn(tasks: map<Tid, Task>, q: seq<Tid>, i: nat)
    requires i < |q| && forall t | t in q :: t in tasks
  {
    forall j: nat | j < i :: tasks[q[j]].deadline <= tasks[q[i]].deadline
  }

  /** If a ready task has no seat and nobody ahead of it is due later, each core it may use runs a task that is due no later. */
  lemma NoBlockingPair(online: seq<bool>, tasks: map<Tid, Task>, q: seq<Tid>, i: nat, c: nat)
    requires (forall t | t in q :: t in tasks) && i < |q| && InTurn(tasks, q, i) && MayRun(online, tasks[q[i]], c)
    ensures var r := Seating(online, tasks, q);
            !Seated(r, q[i]) ==> r[c].Some? && r[c].value in q && tasks[r[c].value].deadline <= tasks[q[i]].deadline
  {
    var r := Seating(online, tasks, q);
    SeatedAhead(online, tasks, q, i, c);
    if !Seated(r, q[i]) {
      var j: nat :| j < i < |q| && r[c] == Some(q[j]);
    }
  }

  /** In a list sorted by deadline everyone is in turn. */
  lemma SortedInTurn(tasks: map<Tid, Task>, q: seq<Tid>, i: nat)
    requires (forall t | t in q :: t in tasks) && ByDeadline(tasks, q) && i < |q|
    ensures InTurn(tasks, q, i)
  {
  }

  /** On one core, the head of the list has the seat, whatever its deadline. */
  lemma HeadSeated(tasks: map<Tid, Task>, q: seq<Tid>)
    requires (forall t | t in q :: t in tasks) && q != [] && MayRun([true], tasks[q[0]], 0)
    ensures Seating([true], tasks, q) == [Some(q[0])]
  {
    assert q[0] in q && Free([true], Empty(1), 0);
    assert SeatFor([true], Empty(1), tasks[q[0]]) == Some(0);
    assert Cores([true], 0) == 1 + Cores([true], 1) == 1;
    assert Empty(1)[0 := Some(q[0])] == [Some(q[0])];
    assert Fill([true], tasks, q[1..], [Some(q[0])], 0) == [Some(q[0])];
  }

  lemma {:induction false} SoftFill(online: seq<bool>, tasks: map<Tid, Task>, q: seq<Tid>, seats: Seats, room: nat, i: nat)
    requires (forall t | t in q :: t in tasks && tasks[t].aff == None) && i < |q| && |seats| == |online|
    requires room == FreeSeats(online, seats, 0) && NoDup(q) && (forall t | t in q :: !Seated(seats, t))
    ensures Seated(Fill(online, tasks, q, seats, room), q[i]) <==> i < room
    decreases |q|
  {
    assert q[i] in q;
    if room > 0 {
      SomeFree(online, seats, 0);
      assert q[0] in q && SeatFor(online, seats, tasks[q[0]]).Some?;
      var d := SeatFor(online, seats, tasks[q[0]]).value;
      var next := seats[d := Some(q[0])];
      TakesOne(online, seats, d, q[0], 0);
      FillKeeps(online, tasks, q[1..], next, room - 1);
      assert Fill(online, tasks, q, seats, room)[d] == Some(q[0]);
      if i > 0 {
        forall t | t in q[1..]
          ensures t in q && !Seated(next, t)
        {
          assert t in q && t != q[0] && !Seated(seats, t);
        }
        SoftFill(online, tasks, q[1..], next, room - 1, i - 1);
      }
    }
  }

  lemma {:induction false} SomeFree(online: seq<bool>, seats: Seats, c: nat)
    requires FreeSeats(online, seats, c) > 0
    ensures exists d: nat :: c <= d && Free(online, seats, d)
    decreases |online| - c
  {
    if !Free(online, seats, c) { SomeFree(online, seats, c + 1); }
  }

  /** Without hard affinities the tasks that run are the earliest ones, as many as there are cores: Global EDF. */
  lemma GlobalEdf(online: seq<bool>, tasks: map<Tid, Task>, q: seq<Tid>, i: nat)
    requires (forall t | t in q :: t in tasks && tasks[t].aff == None) && NoDup(q) && i < |q|
    ensures Seated(Seating(online, tasks, q), q[i]) <==> i < Cores(online, 0)
  {
    AllFree(online, 0);
    SoftFill(online, tasks, q, Empty(|online|), Cores(online, 0), i);
  }

  /** Hard affinities break this: an earlier task that could go elsewhere takes the only core of a later one. */
  lemma SeatLeftEmpty(tasks: map<Tid, Task>, t: Tid, u: Tid)
    requires t in tasks && u in tasks && t != u
    requires tasks[t].aff == None && tasks[t].runCpu == 0 && tasks[u].aff == Some(0)
    ensures Seating([true, true], tasks, [t, u]) == [Some(t), None]
  {
    var online := [true, true];
    assert Free(online, Empty(2), 0);
    var one := Empty(2)[0 := Some(t)];
    assert !Free(online, one, 0);
    assert [t, u][1..] == [u] && [u][1..] == [];
    assert Cores(online, 0) == 2;
    assert Fill(online, tasks, [u], one, 1) == Fill(online, tasks, [], one, 1) == one;
    assert one == [Some(t), None];
  }

  // ---- how many run ----

  /** A seating that respects affinities and gives nobody two seats. */
  ghost predicate Proper(online: seq<bool>, tasks: map<Tid, Task>, q: seq<Tid>, r: Seats) {
    && |r| == |online|
    && (forall c: nat | c < |r| && r[c].Some? :: r[c].value in q && r[c].value in tasks && MayRun(online, tasks[r[c].value], c))
    && (forall c: nat, d: nat | c < d < |r| && r[c].Some? :: r[c] != r[d])
  }

  ghost function Taken(r: Seats): set<nat> {
    set c: nat | c < |r| && r[c].Some?
  }

  /** No other seating lets more tasks run. */
  ghost predicate Largest(online: seq<bool>, tasks: map<Tid, Task>, q: seq<Tid>, r: Seats) {
    forall r': Seats | Proper(online, tasks, q, r') :: |Taken(r')| <= |Taken(r)|
  }

  /** A core stays empty, and a task that may run anywhere sits on the only core of another one. */
  ghost predicate Wasted(online: seq<bool>, tasks: map<Tid, Task>, q: seq<Tid>, r: Seats) {
    exists c: nat, u: Tid | Vacant(online, r, c) && u in q :: Ousted(online, tasks, r, u)
  }

  ghost predicate Vacant(online: seq<bool>, r: Seats, c: nat) {
    c < |r| && Online(online, c) && r[c] == None
  }

  ghost predicate Ousted(online: seq<bool>, tasks: map<Tid, Task>, r: Seats, u: Tid) {
    && u in tasks && tasks[u].aff.Some?
    && var d := tasks[u].aff.value;
       d < |r| && Online(online, d) && r[d].Some? && r[d].value in tasks && tasks[r[d].value].aff == None
  }

  lemma SeatingProper(online: seq<bool>, tasks: map<Tid, Task>, q: seq<Tid>)
    requires (forall t | t in q :: t in tasks) && NoDup(q)
    ensures Proper(online, tasks, q, Seating(online, tasks, q))
  {
    var r := Seating(online, tasks, q);
    forall c: nat | c < |r| && r[c].Some?
      ensures r[c].value in q && r[c].value in tasks && MayRun(online, tasks[r[c].value], c)
    {
      SeatsAreProper(online, tasks, q, c, c);
    }
    forall c: nat, d: nat | c < d < |r| && r[c].Some?
      ensures r[c] != r[d]
    {
      SeatsAreProper(online, tasks, q, c, d);
    }
  }

  /** The ousted task back on its core and the other one on the empty core: one more task runs. */
  lemma WastedNotLargest(online: seq<bool>, tasks: map<Tid, Task>, q: seq<Tid>, r: Seats)
    requires Proper(online, tasks, q, r) && Wasted(online, tasks, q, r)
    ensures !Largest(online, tasks, q, r)
  {
    var c: nat, u: Tid :| Vacant(online, r, c) && u in q && Ousted(online, tasks, r, u);
    var d := tasks[u].aff.value;
    var r' := r[c := r[d]][d := Some(u)];
    SwapProper(online, tasks, q, r, c, u, d);
    assert Taken(r') == Taken(r) + {c} && c !in Taken(r);
  }

  lemma SwapProper(online: seq<bool>, tasks: map<Tid, Task>, q: seq<Tid>, r: Seats, c: nat, u: Tid, d: nat)
    requires Proper(online, tasks, q, r) && Vacant(online, r, c) && u in q && Ousted(online, tasks, r, u) && tasks[u].aff == Some(d)
    ensures Proper(online, tasks, q, r[c := r[d]][d := Some(u)])
  {
    var r' := r[c := r[d]][d := Some(u)];
    forall e: nat | e < |r| && e != d
      ensures r[e] != Some(u)
    {
    }
    forall e: nat, f: nat | e < f < |r'| && r'[e].Some?
      ensures r'[e] != r'[f]
    {
      assert e != c && e != d ==> r'[e] == r[e];
      assert f != c && f != d ==> r'[f] == r[f];
    }
  }

  lemma {:induction false} InjectionSize(a: set<nat>, b: set<nat>, f: map<nat, nat>)
    requires forall x | x in a :: x in f && f[x] in b
    requires forall x, y | x in a && y in a && f[x] == f[y] :: x == y
    ensures |a| <= |b|
    decreases a
  {
    if x :| x in a { InjectionSize(a - {x}, b - {f[x]}, f); }
  }

  /** With a core left empty, a core at which another seating has a task under hard affinity has such a task here too. */
  lemma HardKept(online: seq<bool>, tasks: map<Tid, Task>, q: seq<Tid>, x: Tid, c: nat)
    requires (forall t | t in q :: t in tasks) && x in q && tasks[x].aff == Some(c) && Online(online, c)
    requires !Wasted(online, tasks, q, Seating(online, tasks, q)) && exists e: nat :: Vacant(online, Seating(online, tasks, q), e)
    ensures var r := Seating(online, tasks, q); r[c].Some? && r[c].value in tasks && tasks[r[c].value].aff.Some?
  {
    var r := Seating(online, tasks, q);
    var e: nat :| Vacant(online, r, e);
    var i :| 0 <= i < |q| && q[i] == x;
    SeatedAhead(online, tasks, q, i, c);
    if Seated(r, x) {
      var g :| 0 <= g < |r| && r[g] == Some(x);
      FillFrom(online, tasks, q, Empty(|online|), Cores(online, 0), g);
    } else {
      var j: nat :| j < i < |q| && r[c] == Some(q[j]);
      assert q[j] in q;
    }
    assert !Ousted(online, tasks, r, x);
  }

  /** With a core left empty, every task that may run anywhere has a seat. */
  lemma SoftSeated(online: seq<bool>, tasks: map<Tid, Task>, q: seq<Tid>, x: Tid, e: nat)
    requires (forall t | t in q :: t in tasks) && x in q && tasks[x].aff == None
    requires Vacant(online, Seating(online, tasks, q), e)
    ensures Seated(Seating(online, tasks, q), x)
  {
    var i :| 0 <= i < |q| && q[i] == x;
    SeatedAhead(online, tasks, q, i, e);
  }

  /** The core at which `r` has task `x`. */
  ghost function HostOf(r: Seats, x: Tid): (c: nat)
    requires Seated(r, x)
    ensures c < |r| && r[c] == Some(x)
  {
    var c :| 0 <= c < |r| && r[c] == Some(x); c
  }

  /** The cores of another seating, told apart by the cores of this one: a hard task's own, a soft task's seat here. */
  lemma NotMore(online: seq<bool>, tasks: map<Tid, Task>, q: seq<Tid>, r': Seats, e: nat)
    requires (forall t | t in q :: t in tasks) && NoDup(q) && Proper(online, tasks, q, r')
    requires !Wasted(online, tasks, q, Seating(online, tasks, q)) && Vacant(online, Seating(online, tasks, q), e)
    ensures |Taken(r')| <= |Taken(Seating(online, tasks, q))|
  {
    var r := Seating(online, tasks, q);
    forall c: nat | c in Taken(r')
      ensures tasks[r'[c].value].aff == None ==> Seated(r, r'[c].value)
      ensures tasks[r'[c].value].aff != None ==> r[c].Some? && r[c].value in tasks && tasks[r[c].value].aff.Some?
    {
      var x := r'[c].value;
      if tasks[x].aff == None { SoftSeated(online, tasks, q, x, e); } else { HardKept(online, tasks, q, x, c); }
    }
    var f := map c | c in Taken(r') :: if tasks[r'[c].value].aff == None then HostOf(r, r'[c].value) else c;
    forall c, d | c in Taken(r') && d in Taken(r') && f[c] == f[d]
      ensures c == d
    {
      assert r[f[c]] == r[f[d]];
    }
    InjectionSize(Taken(r'), Taken(r), f);
  }

  /**
   * No seating under the same affinities lets more tasks run, unless a core stays empty while a
   * task that could use it sits on the only core of another one.
   */
  lemma SeatingLargestIff(online: seq<bool>, tasks: map<Tid, Task>, q: seq<Tid>)
    requires (forall t | t in q :: t in tasks) && NoDup(q)
    ensures Largest(online, tasks, q, Seating(online, tasks, q)) <==> !Wasted(online, tasks, q, Seating(online, tasks, q))
  {
    var r := Seating(online, tasks, q);
    SeatingProper(online, tasks, q);
    if Wasted(online, tasks, q, r) {
      WastedNotLargest(online, tasks, q, r);
    } else {
      forall r': Seats | Proper(online, tasks, q, r')
        ensures |Taken(r')| <= |Taken(r)|
      {
        if e: nat :| Vacant(online, r, e) {
          NotMore(online, tasks, q, r', e);
        } else {
          FullHouse(online, tasks, q, r, r');
        }
      }
    }
  }

  lemma FullHouse(online: seq<bool>, tasks: map<Tid, Task>, q: seq<Tid>, r: Seats, r': Seats)
    requires Proper(online, tasks, q, r) && Proper(online, tasks, q, r') && forall e: nat :: !Vacant(online, r, e)
    ensures |Taken(r')| <= |Taken(r)|
  {
    forall c | c in Taken(r')
      ensures c in Taken(r)
    {
      assert !Vacant(online, r, c);
    }
    InjectionSize(Taken(r'), Taken(r), map c | c in Taken(r') :: c);
  }

  /** In particular, the seating is largest when the tasks under hard affinity come first in the list. */
  lemma HardFirstLargest(online: seq<bool>, tasks: map<Tid, Task>, q: seq<Tid>)
    requires (forall t | t in q :: t in tasks) && NoDup(q)
    requires forall i, j | 0 <= i < j < |q| && tasks[q[j]].aff.Some? :: tasks[q[i]].aff.Some?
    ensures Largest(online, tasks, q, Seating(online, tasks, q))
  {
    var r := Seating(online, tasks, q);
    forall u | u in q
      ensures !Ousted(online, tasks, r, u)
    {
      if Ousted(online, tasks, r, u) {
        var i, d := IndexOf(q, u), tasks[u].aff.value;
        SeatedAhead(online, tasks, q, i, d);
        if Seated(r, u) { FillFrom(online, tasks, q, Empty(|online|), Cores(online, 0), HostOf(r, u)); }
      }
    }
    SeatingLargestIff(online, tasks, q);
  }

  ghost function IndexOf(q: seq<Tid>, t: Tid): (i: nat)
    requires t in q
    ensures i < |q| && q[i] == t
  {
    var i :| 0 <= i < |q| && q[i] == t; i
  }

  // ---- which core a task gets ----

  /** Every task has a seat at least as good as each core it may run on, unless a task ahead of it in the list has that core. */
  ghost predicate Stable(online: seq<bool>, tasks: map<Tid, Task>, q: seq<Tid>, r: Seats)
    requires forall t | t in q :: t in tasks
  {
    forall i: nat, c: nat | i < |q| && MayRun(online, tasks[q[i]], c) :: Content(tasks, r, q[i], c) || Outranked(q, r, i, c)
  }

  /** In two such seatings a task sits on the same core if all the tasks ahead of it do. */
  lemma SameSeat(online: seq<bool>, tasks: map<Tid, Task>, q: seq<Tid>, r: Seats, r': Seats, i: nat, c: nat)
    requires (forall t | t in q :: t in tasks) && NoDup(q) && i < |q| && c < |r| && r[c] == Some(q[i])
    requires Proper(online, tasks, q, r) && Stable(online, tasks, q, r)
    requires Proper(online, tasks, q, r') && Stable(online, tasks, q, r')
    requires forall j: nat, d: nat | j < i && d < |r| :: r[d] == Some(q[j]) <==> r'[d] == Some(q[j])
    ensures r'[c] == Some(q[i])
  {
    assert MayRun(online, tasks[q[i]], c);
    assert !Outranked(q, r', i, c);
    var d: nat :| d < |r'| && r'[d] == Some(q[i]) && AsGood(tasks[q[i]], d, c);
    assert MayRun(online, tasks[q[i]], d);
    assert !Outranked(q, r, i, d);
    var e: nat :| e < |r| && r[e] == Some(q[i]) && AsGood(tasks[q[i]], e, d);
    assert e == c;
  }

  /** There is one such seating, and it is the one computed. */
  lemma SeatingUnique(online: seq<bool>, tasks: map<Tid, Task>, q: seq<Tid>, r: Seats)
    requires (forall t | t in q :: t in tasks) && NoDup(q)
    ensures Proper(online, tasks, q, r) && Stable(online, tasks, q, r) <==> r == Seating(online, tasks, q)
  {
    var s := Seating(online, tasks, q);
    SeatingProper(online, tasks, q);
    SeatingStable(online, tasks, q);
    if Proper(online, tasks, q, r) && Stable(online, tasks, q, r) {
      for k := 0 to |q|
        invariant forall j: nat, d: nat | j < k && d < |r| :: r[d] == Some(q[j]) <==> s[d] == Some(q[j])
      {
        forall d: nat | d < |r|
          ensures r[d] == Some(q[k]) <==> s[d] == Some(q[k])
        {
          if r[d] == Some(q[k]) { SameSeat(online, tasks, q, r, s, k, d); }
          if s[d] == Some(q[k]) { SameSeat(online, tasks, q, s, r, k, d); }
        }
      }
      forall d: nat | d < |r|
        ensures r[d] == s[d]
      {
        if r[d].Some? { var j := IndexOf(q, r[d].value); }
        if s[d].Some? { var j := IndexOf(q, s[d].value); }
      }
    }
  }

  lemma SeatingStable(online: seq<bool>, tasks: map<Tid, Task>, q: seq<Tid>)
    requires forall t | t in q :: t in tasks
    ensures Stable(online, tasks, q, Seating(online, tasks, q))
  {
    AllFree(online, 0);
    forall i: nat, c: nat | i < |q| && MayRun(online, tasks[q[i]], c)
      ensures Content(tasks, Seating(online, tasks, q), q[i], c) || Outranked(q, Seating(online, tasks, q), i, c)
    {
      FillPrefers(online, tasks, q, Empty(|online|), Cores(online, 0), i, c);
    }
  }

  // ---- the code ----

  /** `sched_pick_edf`: every core computes the whole seating and takes its own seat. */
  method PickEdf(online: seq<bool>, tasks: map<Tid, Task>, ready: seq<Tid>, cpu: nat) returns (r: Option<Tid>)
    requires (forall t | t in ready :: t in tasks) && |online| > 0
    ensures r == if cpu < |online| then Seating(online, tasks, ready)[cpu] else None
  {
    if cpu >= |online| {
      return None;
    }
    var seated := new Option<Tid>[|online|](_ => None);
    assert seated[..] == Empty(|online|);
    var cores := OnlineCores(online);
    var filled, at := 0, 0;
    while at < |ready| && filled < |cores|
      invariant 0 <= at <= |ready| && 0 <= filled <= |cores|
      invariant Fill(online, tasks, ready[at..], seated[..], |cores| - filled) == Seating(online, tasks, ready)
    {
      var t := tasks[ready[at]];
      assert ready[at] in ready && ready[at..] == [ready[at]] + ready[at + 1..];
      var seat := FindSeat(online, seated, cores, t);
      if seat.Some? {
        seated[seat.value] := Some(ready[at]);
        filled := filled + 1;
      }
      at := at + 1;
    }
    r := seated[cpu];
  }

  /** The list of cores that are online, lowest first. */
  method OnlineCores(online: seq<bool>) returns (cores: seq<nat>)
    requires |online| > 0
    ensures |cores| == Cores(online, 0)
    ensures forall c: nat :: c in cores <==> Online(online, c)
    ensures forall i, j | 0 <= i < j < |cores| :: cores[i] < cores[j]
  {
    cores := [0];
    var c := 1;
    while c < |online|
      invariant 1 <= c <= |online| && |cores| + Cores(online, c) == Cores(online, 0)
      invariant forall d: nat :: d in cores <==> d < c && Online(online, d)
      invariant forall i, j | 0 <= i < j < |cores| :: cores[i] < cores[j]
    {
      if online[c] {
        assert forall i | 0 <= i < |cores| :: cores[i] in cores;
        cores := cores + [c];
      }
      c := c + 1;
    }
  }

  /** The three ways to a seat, in the order the code tries them. */
  method FindSeat(online: seq<bool>, seated: array<Option<Tid>>, cores: seq<nat>, t: Task) returns (seat: Option<nat>)
    requires seated.Length == |online| && (forall c: nat :: c in cores <==> Online(online, c))
    requires forall i, j | 0 <= i < j < |cores| :: cores[i] < cores[j]
    ensures seat == SeatFor(online, seated[..], t)
  {
    if t.aff.Some? {
      var a := t.aff.value;
      return if a < |online| && seated[a] == None && (a == 0 || online[a]) then Some(a) else None;
    }
    var prefer := t.runCpu;
    if prefer < |online| && seated[prefer] == None && (prefer == 0 || online[prefer]) {
      return Some(prefer);
    }
    var i := 0;
    while i < |cores|
      invariant 0 <= i <= |cores|
      invariant forall j | 0 <= j < i :: !Free(online, seated[..], cores[j])
    {
      var c := cores[i];
      assert c in cores;
      if seated[c] == None {
        LowestFree(online, seated[..], cores, i);
        return Some(c);
      }
      i := i + 1;
    }
    seat := None;
    FirstFreeListed(online, seated[..], cores);
  }

  lemma FirstFreeListed(online: seq<bool>, seats: Seats, cores: seq<nat>)
    requires forall c: nat :: c in cores <==> Online(online, c)
    ensures FirstFree(online, seats, 0).Some? ==> FirstFree(online, seats, 0).value in cores
  {
  }

  lemma LowestFree(online: seq<bool>, seats: Seats, cores: seq<nat>, i: nat)
    requires i < |cores| && (forall c: nat :: c in cores <==> Online(online, c)) && Free(online, seats, cores[i])
    requires forall a, b | 0 <= a < b < |cores| :: cores[a] < cores[b]
    requires forall j | 0 <= j < i :: !Free(online, seats, cores[j])
    ensures FirstFree(online, seats, 0) == Some(cores[i])
  {
    var r := FirstFree(online, seats, 0);
    assert r.value in cores;
  }
}
