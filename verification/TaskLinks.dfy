/**
 * The lists of kernel/scheduler.c that run through the `next` and `prev` fields of the tasks
 * themselves: the ready list of a priority, with head, tail and count, and the wait queue of
 * an object, with a head only.  A task has one pair of links and is in one such list at most.
 */
module TaskLinks {
  import opened WaitQueue
  import opened Wrappers

  datatype Link = Link(next: Option<Tid>, prev: Option<Tid>)

  const UNLINKED := Link(None, None)

  /** `ready_list_t`. */
  datatype ReadyList = ReadyList(head: Option<Tid>, tail: Option<Tid>, count: nat)

  const NO_TASKS := ReadyList(None, None, 0)

  /** The links of the task at place `i` lead to its neighbours. */
  ghost predicate Node(links: map<Tid, Link>, q: seq<Tid>, i: nat)
    requires i < |q|
  {
    && q[i] in links
    && links[q[i]].next == (if i + 1 < |q| then Some(q[i + 1]) else None)
    && links[q[i]].prev == (if i > 0 then Some(q[i - 1]) else None)
  }

  /** From `head` the links spell out `q`. */
  ghost predicate Chain(links: map<Tid, Link>, head: Option<Tid>, q: seq<Tid>) {
    && NoDup(q) && head == (if q == [] then None else Some(q[0]))
    && (forall i: nat {:trigger Node(links, q, i)} | i < |q| :: Node(links, q, i))
  }

  ghost predicate ReadyChain(links: map<Tid, Link>, r: ReadyList, q: seq<Tid>) {
    && Chain(links, r.head, q)
    && r.tail == (if q == [] then None else Some(q[|q| - 1])) && r.count == |q|
  }

  lemma ChainKnown(links: map<Tid, Link>, head: Option<Tid>, q: seq<Tid>)
    requires Chain(links, head, q)
    ensures forall i: nat {:trigger q[i]} | i < |q| :: q[i] in links
    ensures forall u | u in q :: u in links
  {
    forall i: nat | i < |q|
      ensures q[i] in links
    {
      assert Node(links, q, i);
    }
  }

  /** What happens to the links of other tasks does not touch a list. */
  lemma ChainApart(links: map<Tid, Link>, links': map<Tid, Link>, head: Option<Tid>, q: seq<Tid>)
    requires Chain(links, head, q) && forall u | u in q :: u in links' && (u in links ==> links'[u] == links[u])
    ensures Chain(links', head, q)
  {
    forall i: nat | i < |q|
      ensures Node(links', q, i)
    {
      assert Node(links, q, i) && q[i] in q;
    }
  }

  /** The links after task `t` has come between places `k - 1` and `k`. */
  ghost predicate LinkedIn(links: map<Tid, Link>, links': map<Tid, Link>, q: seq<Tid>, t: Tid, k: nat)
    requires k <= |q|
  {
    && t in links' && links'[t] == Link(if k < |q| then Some(q[k]) else None, if k > 0 then Some(q[k - 1]) else None)
    && forall i: nat {:trigger q[i]} | i < |q| ::
         && q[i] in links && q[i] in links'
         && links'[q[i]].next == (if i + 1 == k then Some(t) else links[q[i]].next)
         && links'[q[i]].prev == (if i == k then Some(t) else links[q[i]].prev)
  }

  lemma LinkedInChain(links: map<Tid, Link>, links': map<Tid, Link>, head: Option<Tid>, q: seq<Tid>, t: Tid, k: nat)
    requires Chain(links, head, q) && t !in q && k <= |q| && LinkedIn(links, links', q, t, k)
    ensures Chain(links', if k == 0 then Some(t) else head, q[..k] + [t] + q[k..])
  {
    var r := q[..k] + [t] + q[k..];
    forall i: nat | i < |r|
      ensures Node(links', r, i)
    {
      if i < k {
        assert r[i] == q[i] && Node(links, q, i);
      } else if i > k {
        assert r[i] == q[i - 1] && Node(links, q, i - 1);
      }
    }
    forall i, j | 0 <= i < j < |r|
      ensures r[i] != r[j]
    {
      if i != k { assert r[i] == q[if i < k then i else i - 1]; }
      if j != k { assert r[j] == q[if j < k then j else j - 1]; }
    }
  }

  /** The links after the task at place `k` has left. */
  ghost predicate LinkedOut(links: map<Tid, Link>, links': map<Tid, Link>, q: seq<Tid>, k: nat)
    requires k < |q|
  {
    forall i: nat {:trigger q[i]} | i < |q| && i != k ::
      && q[i] in links && q[i] in links'
      && links'[q[i]].next == (if i + 1 == k then (if k + 1 < |q| then Some(q[k + 1]) else None) else links[q[i]].next)
      && links'[q[i]].prev == (if i == k + 1 then (if k > 0 then Some(q[k - 1]) else None) else links[q[i]].prev)
  }

  lemma LinkedOutChain(links: map<Tid, Link>, links': map<Tid, Link>, head: Option<Tid>, q: seq<Tid>, k: nat)
    requires Chain(links, head, q) && k < |q| && LinkedOut(links, links', q, k)
    ensures Chain(links', if k > 0 then head else if |q| > 1 then Some(q[1]) else None, q[..k] + q[k + 1..])
  {
    var r := q[..k] + q[k + 1..];
    forall i: nat | i < |r|
      ensures Node(links', r, i)
    {
      var a := if i < k then i else i + 1;
      assert r[i] == q[a] && Node(links, q, a);
    }
    forall i, j | 0 <= i < j < |r|
      ensures r[i] != r[j]
    {
      assert r[i] == q[if i < k then i else i + 1] && r[j] == q[if j < k then j else j + 1];
    }
  }

  lemma LastWithout(q: seq<Tid>, k: nat)
    requires k < |q|
    ensures var r := q[..k] + q[k + 1..];
            |r| == |q| - 1 && (r != [] ==> r[|r| - 1] == if k + 1 < |q| then q[|q| - 1] else q[k - 1])
  {
  }

  lemma PlaceOf(q: seq<Tid>, t: Tid) returns (k: nat)
    requires NoDup(q) && t in q
    ensures k < |q| && q[k] == t && Removed(q, t) == q[..k] + q[k + 1..]
  {
    k := RemovedAt(q, t);
  }

  /** Only the links of `t` and of the tasks in `q` have changed. */
  ghost predicate Others(was: map<Tid, Link>, links: map<Tid, Link>, q: seq<Tid>, t: Tid) {
    && links.Keys == was.Keys
    && forall u | u in links && u != t && u !in q :: u in was && links[u] == was[u]
  }

  class Tcbs {
    var links: map<Tid, Link>

    constructor ()
      ensures links == map[]
    {
      links := map[];
    }

    /** A new task is in no list. */
    method Add(t: Tid)
      requires t !in links
      modifies this
      ensures links == old(links)[t := UNLINKED]
    {
      links := links[t := UNLINKED];
    }

    /** `sched_add_priority_ready`: behind the tail. */
    method Append(r: ReadyList, t: Tid, ghost q: seq<Tid>) returns (r': ReadyList)
      requires ReadyChain(links, r, q) && t !in q && t in links
      modifies this
      ensures ReadyChain(links, r', q + [t]) && Others(old(links), links, q, t)
    {
      ghost var was := links;
      ChainKnown(links, r.head, q);
      assert q != [] ==> Node(links, q, |q| - 1) && q[|q| - 1] in q;
      links := links[t := Link(None, r.tail)];
      var head := r.head;
      if r.tail.Some? {
        links := links[r.tail.value := links[r.tail.value].(next := Some(t))];
      } else {
        head := Some(t);
      }
      r' := ReadyList(head, Some(t), r.count + 1);
      assert q[..|q|] + [t] + q[|q|..] == q + [t];
      assert LinkedIn(was, links, q, t, |q|);
      LinkedInChain(was, links, r.head, q, t, |q|);
    }

    /** What both removals do to the neighbours and to the task itself. */
    method Bridge(t: Tid, ghost q: seq<Tid>, ghost head: Option<Tid>, ghost k: nat)
      requires Chain(links, head, q) && k < |q| && q[k] == t
      modifies this
      ensures Chain(links, if k > 0 then head else if |q| > 1 then Some(q[1]) else None, q[..k] + q[k + 1..])
      ensures Others(old(links), links, q, t) && t in links && links[t] == UNLINKED
    {
      ghost var was := links;
      ChainKnown(links, head, q);
      assert Node(links, q, k) && (k > 0 ==> Node(links, q, k - 1)) && (k + 1 < |q| ==> Node(links, q, k + 1));
      var l := links[t];
      if l.prev.Some? {
        links := links[l.prev.value := links[l.prev.value].(next := l.next)];
      }
      if l.next.Some? {
        links := links[l.next.value := links[l.next.value].(prev := l.prev)];
      }
      links := links[t := UNLINKED];
      assert LinkedOut(was, links, q, k);
      LinkedOutChain(was, links, head, q, k);
    }

    /** `sched_remove_priority_ready`. */
    method Remove(r: ReadyList, t: Tid, ghost q: seq<Tid>) returns (r': ReadyList)
      requires ReadyChain(links, r, q) && t in q
      modifies this
      ensures ReadyChain(links, r', Removed(q, t)) && Others(old(links), links, q, t) && t in links && links[t] == UNLINKED
    {
      ghost var k := PlaceOf(q, t);
      assert Node(links, q, k);
      var l := links[t];
      var head := if l.prev.Some? then r.head else l.next;
      var tail := if l.next.Some? then r.tail else l.prev;
      Bridge(t, q, r.head, k);
      r' := ReadyList(head, tail, if r.count > 0 then r.count - 1 else 0);
      LastWithout(q, k);
    }

    /** `cgrtos_wait_list_add_priority`: walk past every waiter of at least this priority. */
    method WaitAdd(head: Option<Tid>, t: Tid, prio: map<Tid, nat>, ghost q: seq<Tid>) returns (head': Option<Tid>)
      requires Chain(links, head, q) && t !in q && t in links && t in prio && forall u | u in q :: u in prio
      modifies this
      ensures Chain(links, head', Joined(prio, q, t)) && Others(old(links), links, q, t)
    {
      var cur, prev;
      ghost var k;
      cur, prev, k := FindPlace(head, t, prio, q);
      head' := PutBetween(head, t, cur, prev, q, k);
    }

    /** The walk past every waiter of at least this priority. */
    method FindPlace(head: Option<Tid>, t: Tid, prio: map<Tid, nat>, ghost q: seq<Tid>) returns (cur: Option<Tid>, prev: Option<Tid>, ghost k: nat)
      requires Chain(links, head, q) && t in prio && forall u | u in q :: u in prio
      ensures k <= |q| && q[..k] + [t] + q[k..] == Joined(prio, q, t)
      ensures cur == (if k < |q| then Some(q[k]) else None) && prev == (if k > 0 then Some(q[k - 1]) else None)
    {
      k := 0;
      ChainKnown(links, head, q);
      cur, prev := head, None;
      while cur.Some? && prio[cur.value] >= prio[t]
        invariant 0 <= k <= |q|
        invariant cur == (if k < |q| then Some(q[k]) else None) && prev == (if k > 0 then Some(q[k - 1]) else None)
        invariant forall j | 0 <= j < k :: prio[q[j]] >= prio[t]
        decreases |q| - k
      {
        assert Node(links, q, k) && q[k] in q;
        prev := cur;
        cur := links[cur.value].next;
        k := k + 1;
      }
      PosUnique(PriosOf(prio, q), prio[t], k);
    }

    method PutBetween(head: Option<Tid>, t: Tid, cur: Option<Tid>, prev: Option<Tid>, ghost q: seq<Tid>, ghost k: nat) returns (head': Option<Tid>)
      requires Chain(links, head, q) && t !in q && t in links && k <= |q|
      requires cur == (if k < |q| then Some(q[k]) else None) && prev == (if k > 0 then Some(q[k - 1]) else None)
      modifies this
      ensures Chain(links, head', q[..k] + [t] + q[k..]) && Others(old(links), links, q, t)
    {
      ghost var was := links;
      ChainKnown(links, head, q);
      assert (k > 0 ==> Node(links, q, k - 1) && q[k - 1] in q) && (k < |q| ==> Node(links, q, k) && q[k] in q);
      links := links[t := Link(cur, prev)];
      if cur.Some? {
        links := links[cur.value := links[cur.value].(prev := Some(t))];
      }
      head' := head;
      if prev.Some? {
        links := links[prev.value := links[prev.value].(next := Some(t))];
      } else {
        head' := Some(t);
      }
      assert LinkedIn(was, links, q, t, k);
      LinkedInChain(was, links, head, q, t, k);
    }

    /** `cgrtos_wait_list_remove`. */
    method WaitRemove(head: Option<Tid>, t: Tid, ghost q: seq<Tid>) returns (head': Option<Tid>)
      requires Chain(links, head, q) && t in q
      modifies this
      ensures Chain(links, head', Removed(q, t)) && Others(old(links), links, q, t) && t in links && links[t] == UNLINKED
    {
      ghost var k := PlaceOf(q, t);
      assert Node(links, q, k);
      head' := if links[t].prev.None? && head == Some(t) then links[t].next else head;
      Bridge(t, q, head, k);
    }

    /** `cgrtos_wait_list_pop_highest`: the head, which comes before all others. */
    method PopHighest(head: Option<Tid>, ghost q: seq<Tid>) returns (best: Option<Tid>, head': Option<Tid>)
      requires Chain(links, head, q)
      modifies this
      ensures best == (if q == [] then None else Some(q[0])) && Chain(links, head', if q == [] then [] else q[1..])
      ensures if q == [] then links == old(links) else Others(old(links), links, q, q[0]) && q[0] in links && links[q[0]] == UNLINKED
    {
      best, head' := head, head;
      if head.Some? {
        head' := WaitRemove(head, head.value, q);
      }
    }
  }
}
