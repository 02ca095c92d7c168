/**
 * The wait queues of kernel/scheduler.c, as lists of task identifiers: highest priority first,
 * and in order of arrival among equals.
 */
module WaitQueue {
  type Tid = nat

  ghost predicate NoDup(q: seq<Tid>) {
    forall i, j | 0 <= i < j < |q| :: q[i] != q[j]
  }

  /** Where a waiter of priority `p` goes: behind everyone whose priority is at least `p`, up to the first lower one. */
  function InsertPos(prios: seq<nat>, p: nat): (i: nat)
    ensures i <= |prios|
    ensures forall j | 0 <= j < i :: prios[j] >= p
    ensures i < |prios| ==> prios[i] < p
  {
    if prios == [] || prios[0] < p then 0 else 1 + InsertPos(prios[1..], p)
  }

  lemma {:induction false} PosUnique(prios: seq<nat>, p: nat, i: nat)
    requires i <= |prios| && (forall j | 0 <= j < i :: prios[j] >= p) && (i < |prios| ==> prios[i] < p)
    ensures InsertPos(prios, p) == i
  {
    if i > 0 { PosUnique(prios[1..], p, i - 1); }
  }

  function Removed(q: seq<Tid>, t: Tid): (r: seq<Tid>)
    ensures t !in q ==> r == q
  {
    if q == [] then [] else if q[0] == t then q[1..] else [q[0]] + Removed(q[1..], t)
  }

  lemma {:induction false} RemovedContent(q: seq<Tid>, t: Tid)
    requires NoDup(q)
    ensures NoDup(Removed(q, t))
    ensures forall u :: u in Removed(q, t) <==> u in q && u != t
  {
    if q != [] && q[0] != t {
      RemovedContent(q[1..], t);
      var r := Removed(q[1..], t);
      assert q == [q[0]] + q[1..];
      assert forall u :: u in Removed(q, t) <==> u == q[0] || u in r;
      assert q[0] !in r;
    } else if q != [] {
      assert q == [t] + q[1..];
      assert forall u :: u in q <==> u == t || u in q[1..];
    }
  }

  lemma {:induction false} RemovedHere(q: seq<Tid>, t: Tid, i: nat)
    requires i < |q| && q[i] == t && forall j | 0 <= j < i :: q[j] != t
    ensures Removed(q, t) == q[..i] + q[i + 1..]
  {
    if i > 0 {
      RemovedHere(q[1..], t, i - 1);
      assert [q[0]] + (q[1..][..i - 1] + q[1..][i..]) == q[..i] + q[i + 1..];
    }
  }

  /** `f` gives, in increasing order, the places of the elements of `r` in `q`. */
  ghost predicate Embeds(r: seq<Tid>, q: seq<Tid>, f: seq<nat>) {
    && |f| == |r|
    && (forall i | 0 <= i < |f| :: f[i] < |q| && q[f[i]] == r[i])
    && (forall i, j | 0 <= i < j < |f| :: f[i] < f[j])
  }

  ghost predicate Subsequence(r: seq<Tid>, q: seq<Tid>) {
    exists f :: Embeds(r, q, f)
  }

  lemma SubsequenceSelf(q: seq<Tid>)
    ensures Subsequence(q, q)
  {
    assert Embeds(q, q, seq(|q|, i => i));
  }

  lemma SubsequenceTail(q: seq<Tid>)
    requires q != []
    ensures Subsequence(q[1..], q)
  {
    assert Embeds(q[1..], q, seq(|q| - 1, i => i + 1));
  }

  lemma {:induction false} RemovedAt(q: seq<Tid>, t: Tid) returns (k: nat)
    requires t in q
    ensures k < |q| && q[k] == t && Removed(q, t) == q[..k] + q[k + 1..]
  {
    if q[0] == t {
      k := 0;
    } else {
      k := RemovedAt(q[1..], t);
      k := k + 1;
      assert [q[0]] + (q[1..][..k - 1] + q[1..][k..]) == q[..k] + q[k + 1..];
    }
  }

  lemma SubsequenceRemoved(q: seq<Tid>, t: Tid)
    requires t in q
    ensures Subsequence(Removed(q, t), q)
  {
    var k := RemovedAt(q, t);
    assert Embeds(q[..k] + q[k + 1..], q, seq(|q| - 1, i => if i < k then i else i + 1));
  }

  // ---- queues of tasks whose priorities do not change while they wait ----

  function PriosOf(prio: map<Tid, nat>, q: seq<Tid>): (p: seq<nat>)
    requires forall t | t in q :: t in prio
    ensures |p| == |q| && forall i | 0 <= i < |q| :: p[i] == prio[q[i]]
  {
    if q == [] then [] else [prio[q[0]]] + PriosOf(prio, q[1..])
  }

  /** `cgrtos_wait_list_add_priority`. */
  function Joined(prio: map<Tid, nat>, q: seq<Tid>, t: Tid): seq<Tid>
    requires t in prio && forall u | u in q :: u in prio
  {
    var i := InsertPos(PriosOf(prio, q), prio[t]);
    q[..i] + [t] + q[i..]
  }

  /** `t` is served before `u`: higher priority, or the same and an earlier arrival. */
  ghost predicate Precedes(prio: map<Tid, nat>, since: map<Tid, nat>, t: Tid, u: Tid) {
    && t in prio && u in prio && t in since && u in since
    && (prio[t] > prio[u] || (prio[t] == prio[u] && since[t] < since[u]))
  }

  ghost predicate InOrder(prio: map<Tid, nat>, since: map<Tid, nat>, q: seq<Tid>) {
    forall i, j | 0 <= i < j < |q| :: Precedes(prio, since, q[i], q[j])
  }

  lemma JoinedContent(prio: map<Tid, nat>, q: seq<Tid>, t: Tid)
    requires t in prio && (forall u | u in q :: u in prio) && NoDup(q) && t !in q
    ensures NoDup(Joined(prio, q, t)) && forall u :: u in Joined(prio, q, t) <==> u == t || u in q
  {
    var k := InsertPos(PriosOf(prio, q), prio[t]);
    assert q == q[..k] + q[k..];
  }

  /** A newcomer joins behind its equals, so the queue stays in order. */
  lemma JoinedInOrder(prio: map<Tid, nat>, since: map<Tid, nat>, q: seq<Tid>, t: Tid, now: nat)
    requires InOrder(prio, since, q) && NoDup(q) && t !in q && t in prio
    requires forall u | u in q :: u in prio && u in since && since[u] < now
    ensures var r := Joined(prio, q, t);
            && NoDup(r) && InOrder(prio, since[t := now], r)
            && forall u :: u in r <==> u == t || u in q
  {
    var k := InsertPos(PriosOf(prio, q), prio[t]);
    var r, since' := Joined(prio, q, t), since[t := now];
    assert q == q[..k] + q[k..];
    forall i | 0 <= i < |q|
      ensures q[i] != t && if i < k then Precedes(prio, since', q[i], t) else Precedes(prio, since', t, q[i])
    {
      assert q[i] in q && PriosOf(prio, q)[i] == prio[q[i]];
      if k < i { assert Precedes(prio, since, q[k], q[i]) && PriosOf(prio, q)[k] == prio[q[k]]; }
    }
    forall i, j | 0 <= i < j < |q|
      ensures Precedes(prio, since', q[i], q[j])
    {
      assert Precedes(prio, since, q[i], q[j]);
    }
    JoinedPairs(prio, since', q, t, k);
  }

  lemma JoinedPairs(prio: map<Tid, nat>, since: map<Tid, nat>, q: seq<Tid>, t: Tid, k: nat)
    requires k <= |q| && NoDup(q) && InOrder(prio, since, q)
    requires forall i | 0 <= i < |q| :: q[i] != t && if i < k then Precedes(prio, since, q[i], t) else Precedes(prio, since, t, q[i])
    ensures var r := q[..k] + [t] + q[k..]; NoDup(r) && InOrder(prio, since, r)
  {
    var r := q[..k] + [t] + q[k..];
    forall i, j | 0 <= i < j < |r|
      ensures r[i] != r[j] && Precedes(prio, since, r[i], r[j])
    {
      if i != k { assert r[i] == q[if i < k then i else i - 1]; }
      if j != k { assert r[j] == q[if j < k then j else j - 1]; }
    }
  }

  lemma RemovedInOrder(prio: map<Tid, nat>, since: map<Tid, nat>, q: seq<Tid>, t: Tid)
    requires InOrder(prio, since, q) && t in q
    ensures InOrder(prio, since, Removed(q, t))
  {
    var k := RemovedAt(q, t);
    var r := Removed(q, t);
    forall i, j | 0 <= i < j < |r|
      ensures Precedes(prio, since, r[i], r[j])
    {
      var a, b := if i < k then i else i + 1, if j < k then j else j + 1;
      assert r[i] == q[a] && r[j] == q[b] && Precedes(prio, since, q[a], q[b]);
    }
  }

  /** `cgrtos_wait_list_add_priority`: walk past every waiter of at least this priority. */
  method WaitListAdd(prio: map<Tid, nat>, q: seq<Tid>, t: Tid) returns (r: seq<Tid>)
    requires t in prio && forall u | u in q :: u in prio
    ensures r == Joined(prio, q, t)
  {
    var i := 0;
    while i < |q| && prio[q[i]] >= prio[t]
      invariant 0 <= i <= |q|
      invariant forall j | 0 <= j < i :: prio[q[j]] >= prio[t]
    {
      i := i + 1;
    }
    PosUnique(PriosOf(prio, q), prio[t], i);
    r := q[..i] + [t] + q[i..];
  }

  /** `cgrtos_wait_list_remove`. */
  method WaitListRemove(q: seq<Tid>, t: Tid) returns (r: seq<Tid>)
    requires t in q
    ensures r == Removed(q, t)
  {
    var i := 0;
    while q[i] != t
      invariant 0 <= i < |q|
      invariant forall j | 0 <= j < i :: q[j] != t
      invariant t in q[i..]
      decreases |q| - i
    {
      i := i + 1;
      assert q[i - 1..] == [q[i - 1]] + q[i..];
    }
    RemovedHere(q, t, i);
    r := q[..i] + q[i + 1..];
  }
}
