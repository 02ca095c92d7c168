/**
 * The message queues of kernel/ipc.c as a transition system.  A step is one critical section:
 * one turn of the send or receive loop, the interrupt forms of both, and the timeout of a waiter.
 */
module QueueSpec {
  import opened WaitQueue
  import opened Wrappers

  /** One message, `item_sz` bytes. */
  type Item = seq<byte>

  /**
   * Where a task is with this queue: in neither call, asleep in one of its wait queues, or woken
   * there and not yet back in its loop.  `ok` is `wake_ok`: woken for a reason, or timed out.
   */
  datatype Phase = Running | RecvBlocked | RecvWoken(ok: bool) | SendBlocked(item: Item) | SendWoken(item: Item, ok: bool)

  /** `sent` and `received` are the histories of all messages that went in and came out. */
  datatype State = State(
    prio: map<Tid, nat>, since: map<Tid, nat>, phase: map<Tid, Phase>, clock: nat,
    len: nat, items: seq<Item>, recvQ: seq<Tid>, sendQ: seq<Tid>, sent: seq<Item>, received: seq<Item>)

  datatype Outcome = Pass | Got(item: Item) | Full | Empty | Fail | Asleep

  // ---- the steps ----

  /** The first waiting receiver, if any, is woken. */
  function WakeReceiver(s: State): State {
    if s.recvQ == [] then s else s.(recvQ := s.recvQ[1..], phase := s.phase[s.recvQ[0] := RecvWoken(true)])
  }

  function WakeSender(s: State): State
    requires s.sendQ != [] ==> s.sendQ[0] in s.phase && s.phase[s.sendQ[0]].SendBlocked?
  {
    if s.sendQ == [] then s
    else s.(sendQ := s.sendQ[1..], phase := s.phase[s.sendQ[0] := SendWoken(s.phase[s.sendQ[0]].item, true)])
  }

  /** `queue_send_internal` on a queue with room. */
  function Put(s: State, item: Item): State {
    WakeReceiver(s.(items := s.items + [item], sent := s.sent + [item]))
  }

  /** `queue_pop` on a queue with a message, and the wake-up of a sender. */
  ghost function Take(s: State): State
    requires Sound(s) && s.items != []
  {
    SendersKnown(s);
    WakeSender(s.(items := s.items[1..], received := s.received + [s.items[0]]))
  }

  /** `block_current_on_waitq` on the queue of senders. */
  function SleepSending(s: State, t: Tid, item: Item): State
    requires t in s.prio && forall u | u in s.sendQ :: u in s.prio
  {
    s.(phase := s.phase[t := SendBlocked(item)], since := s.since[t := s.clock], clock := s.clock + 1, sendQ := Joined(s.prio, s.sendQ, t))
  }

  function SleepReceiving(s: State, t: Tid): State
    requires t in s.prio && forall u | u in s.recvQ :: u in s.prio
  {
    s.(phase := s.phase[t := RecvBlocked], since := s.since[t := s.clock], clock := s.clock + 1, recvQ := Joined(s.prio, s.recvQ, t))
  }

  /** One turn of the loop in `cgrtos_queue_send`; `wait` is `timeout != 0`. */
  ghost function TrySend(s: State, t: Tid, item: Item, wait: bool): (State, Outcome)
    requires Sound(s) && t in s.phase && s.phase[t] == Running
  {
    if |s.items| < s.len then (Put(s, item), Pass)
    else if !wait then (s, Full)
    else (SleepSending(s, t, item), Asleep)
  }

  /** One turn of the loop in `cgrtos_queue_receive`. */
  ghost function TryReceive(s: State, t: Tid, wait: bool): (State, Outcome)
    requires Sound(s) && t in s.phase && s.phase[t] == Running
  {
    if s.items != [] then (Take(s), Got(s.items[0]))
    else if !wait then (s, Empty)
    else (SleepReceiving(s, t), Asleep)
  }

  /** A woken task runs again: it gives up, or takes one more turn that does not wait. */
  ghost function Resume(s: State, t: Tid): (State, Outcome)
    requires Sound(s) && t in s.phase && (s.phase[t].RecvWoken? || s.phase[t].SendWoken?)
  {
    var s' := s.(phase := s.phase[t := Running]);
    if !s.phase[t].ok then (s', Fail)
    else if s.phase[t].RecvWoken? then TryReceive(s', t, false)
    else TrySend(s', t, s.phase[t].item, false)
  }

  /** The tick handler gives up on behalf of a waiter: `wake_ok = 0`. */
  function TimeOut(s: State, t: Tid): State
    requires t in s.phase && (s.phase[t] == RecvBlocked || s.phase[t].SendBlocked?)
  {
    if s.phase[t] == RecvBlocked
    then s.(phase := s.phase[t := RecvWoken(false)], recvQ := Removed(s.recvQ, t))
    else s.(phase := s.phase[t := SendWoken(s.phase[t].item, false)], sendQ := Removed(s.sendQ, t))
  }

  datatype Step =
    | SendStep(t: Tid, item: Item, wait: bool)
    | ReceiveStep(t: Tid, wait: bool)
    | IsrSend(item: Item)
    | IsrReceive
    | ResumeStep(t: Tid)
    | TimeOutStep(t: Tid)

  ghost predicate Enabled(s: State, e: Step) {
    match e
    case SendStep(t, _, _) => t in s.phase && s.phase[t] == Running
    case ReceiveStep(t, _) => t in s.phase && s.phase[t] == Running
    case IsrSend(_) => true
    case IsrReceive => true
    case ResumeStep(t) => t in s.phase && (s.phase[t].RecvWoken? || s.phase[t].SendWoken?)
    case TimeOutStep(t) => t in s.phase && (s.phase[t] == RecvBlocked || s.phase[t].SendBlocked?)
  }

  ghost function Next(s: State, e: Step): State
    requires Sound(s) && Enabled(s, e)
  {
    match e
    case SendStep(t, item, wait) => TrySend(s, t, item, wait).0
    case ReceiveStep(t, wait) => TryReceive(s, t, wait).0
    case IsrSend(item) => if |s.items| < s.len then Put(s, item) else s
    case IsrReceive => if s.items != [] then Take(s) else s
    case ResumeStep(t) => Resume(s, t).0
    case TimeOutStep(t) => TimeOut(s, t)
  }

  // ---- what every step keeps ----

  /** A task waits in a queue iff it is asleep in that call; both queues are in serving order; nothing is lost or made up. */
  ghost predicate Sound(s: State) {
    && 0 < s.len && |s.items| <= s.len && s.sent == s.received + s.items
    && s.prio.Keys == s.phase.Keys == s.since.Keys
    && NoDup(s.recvQ) && NoDup(s.sendQ)
    && (forall t :: t in s.recvQ <==> t in s.phase && s.phase[t] == RecvBlocked)
    && (forall t :: t in s.sendQ <==> t in s.phase && s.phase[t].SendBlocked?)
    && (forall t | t in s.since :: s.since[t] < s.clock)
    && InOrder(s.prio, s.since, s.recvQ) && InOrder(s.prio, s.since, s.sendQ)
  }

  lemma SendersKnown(s: State)
    requires Sound(s)
    ensures s.sendQ != [] ==> s.sendQ[0] in s.phase && s.phase[s.sendQ[0]].SendBlocked?
    ensures s.recvQ != [] ==> s.recvQ[0] in s.phase && s.phase[s.recvQ[0]] == RecvBlocked
  {
    assert s.sendQ != [] ==> s.sendQ[0] in s.sendQ;
    assert s.recvQ != [] ==> s.recvQ[0] in s.recvQ;
  }

  /** Receivers that were promised a message and have not come back for it. */
  ghost function WokenReceivers(phase: map<Tid, Phase>): set<Tid> {
    set t | t in phase && phase[t] == RecvWoken(true)
  }

  /** Senders that were promised a slot and have not come back for it. */
  ghost function WokenSenders(phase: map<Tid, Phase>): set<Tid> {
    set t | t in phase && phase[t].SendWoken? && phase[t].ok
  }

  /** While a receiver sleeps, every message is spoken for; while a sender sleeps, every free slot is. */
  ghost predicate NoLostWakeup(s: State) {
    && (s.recvQ != [] ==> |s.items| <= |WokenReceivers(s.phase)|)
    && (s.sendQ != [] ==> s.len - |s.items| <= |WokenSenders(s.phase)|)
  }

  lemma WakeReceiverSound(s: State)
    requires Sound(s)
    ensures Sound(WakeReceiver(s))
  {
    SendersKnown(s);
    if s.recvQ != [] { assert s.recvQ == [s.recvQ[0]] + s.recvQ[1..]; }
  }

  lemma WakeSenderSound(s: State)
    requires Sound(s)
    ensures s.sendQ != [] ==> s.sendQ[0] in s.phase && s.phase[s.sendQ[0]].SendBlocked?
    ensures Sound(WakeSender(s))
  {
    SendersKnown(s);
    if s.sendQ != [] { assert s.sendQ == [s.sendQ[0]] + s.sendQ[1..]; }
  }

  lemma TakeSound(s: State)
    requires Sound(s) && s.items != []
    ensures Sound(Take(s))
  {
    assert s.received + s.items == s.received + [s.items[0]] + s.items[1..];
    WakeSenderSound(s.(items := s.items[1..], received := s.received + [s.items[0]]));
  }

  lemma TrySendSound(s: State, t: Tid, item: Item, wait: bool)
    requires Sound(s) && t in s.phase && s.phase[t] == Running
    ensures Sound(TrySend(s, t, item, wait).0)
  {
    if |s.items| < s.len {
      WakeReceiverSound(s.(items := s.items + [item], sent := s.sent + [item]));
    } else if wait {
      JoinedInOrder(s.prio, s.since, s.sendQ, t, s.clock);
      LaterElsewhere(s, t, s.recvQ);
    }
  }

  lemma TryReceiveSound(s: State, t: Tid, wait: bool)
    requires Sound(s) && t in s.phase && s.phase[t] == Running
    ensures Sound(TryReceive(s, t, wait).0)
  {
    if s.items != [] {
      TakeSound(s);
    } else if wait {
      JoinedInOrder(s.prio, s.since, s.recvQ, t, s.clock);
      LaterElsewhere(s, t, s.sendQ);
    }
  }

  lemma LaterElsewhere(s: State, t: Tid, q: seq<Tid>)
    requires InOrder(s.prio, s.since, q) && t !in q
    ensures InOrder(s.prio, s.since[t := s.clock], q)
  {
    forall i, j | 0 <= i < j < |q|
      ensures Precedes(s.prio, s.since[t := s.clock], q[i], q[j])
    {
      assert Precedes(s.prio, s.since, q[i], q[j]) && q[i] in q && q[j] in q;
    }
  }

  lemma TimeOutSound(s: State, t: Tid)
    requires Sound(s) && Enabled(s, TimeOutStep(t))
    ensures Sound(TimeOut(s, t))
  {
    if s.phase[t] == RecvBlocked {
      RemovedContent(s.recvQ, t);
      RemovedInOrder(s.prio, s.since, s.recvQ, t);
    } else {
      RemovedContent(s.sendQ, t);
      RemovedInOrder(s.prio, s.since, s.sendQ, t);
    }
  }

  lemma NextSound(s: State, e: Step)
    requires Sound(s) && Enabled(s, e)
    ensures Sound(Next(s, e))
  {
    match e {
      case SendStep(t, item, wait) => TrySendSound(s, t, item, wait);
      case ReceiveStep(t, wait) => TryReceiveSound(s, t, wait);
      case IsrSend(item) => if |s.items| < s.len { WakeReceiverSound(s.(items := s.items + [item], sent := s.sent + [item])); }
      case IsrReceive => if s.items != [] { TakeSound(s); }
      case ResumeStep(t) =>
        var s' := s.(phase := s.phase[t := Running]);
        if s.phase[t].ok {
          if s.phase[t].RecvWoken? { TryReceiveSound(s', t, false); } else { TrySendSound(s', t, s.phase[t].item, false); }
        }
      case TimeOutStep(t) => TimeOutSound(s, t);
    }
  }

  // ---- no wake-up is lost ----

  lemma PhaseChanges(phase: map<Tid, Phase>, t: Tid, x: Phase)
    ensures var w, w' := WokenReceivers(phase), WokenReceivers(phase[t := x]);
            w' == (if x == RecvWoken(true) then w + {t} else w - {t})
    ensures var w, w' := WokenSenders(phase), WokenSenders(phase[t := x]);
            w' == (if x.SendWoken? && x.ok then w + {t} else w - {t})
  {
  }

  /** Sending spends one promise of a slot, whoever sends, and makes one promise of a message. */
  lemma PutKeepsWakeups(s: State, item: Item)
    requires Sound(s) && |s.items| < s.len
    requires s.recvQ != [] ==> |s.items| <= |WokenReceivers(s.phase)|
    requires s.sendQ != [] ==> s.len - |s.items| <= |WokenSenders(s.phase)| + 1
    ensures NoLostWakeup(Put(s, item))
  {
    SendersKnown(s);
    if s.recvQ != [] { PhaseChanges(s.phase, s.recvQ[0], RecvWoken(true)); }
  }

  lemma TakeKeepsWakeups(s: State)
    requires Sound(s) && s.items != []
    requires s.recvQ != [] ==> |s.items| <= |WokenReceivers(s.phase)| + 1
    requires s.sendQ != [] ==> s.len - |s.items| <= |WokenSenders(s.phase)|
    ensures NoLostWakeup(Take(s))
  {
    SendersKnown(s);
    if s.sendQ != [] { PhaseChanges(s.phase, s.sendQ[0], SendWoken(s.phase[s.sendQ[0]].item, true)); }
  }

  lemma ResumeKeepsWakeups(s: State, t: Tid)
    requires Sound(s) && NoLostWakeup(s) && Enabled(s, ResumeStep(t))
    ensures NoLostWakeup(Resume(s, t).0)
  {
    var s' := s.(phase := s.phase[t := Running]);
    PhaseChanges(s.phase, t, Running);
    if s.phase[t].ok {
      if s.phase[t].RecvWoken? {
        if s'.items != [] { TakeKeepsWakeups(s'); }
      } else {
        if |s'.items| < s'.len { PutKeepsWakeups(s', s.phase[t].item); }
      }
    }
  }

  /** Every step keeps the promise. */
  lemma NextKeepsWakeups(s: State, e: Step)
    requires Sound(s) && NoLostWakeup(s) && Enabled(s, e)
    ensures NoLostWakeup(Next(s, e))
  {
    match e {
      case SendStep(t, item, wait) =>
        if |s.items| < s.len { PutKeepsWakeups(s, item); } else { PhaseChanges(s.phase, t, SendBlocked(item)); }
      case ReceiveStep(t, wait) =>
        if s.items != [] { TakeKeepsWakeups(s); } else { PhaseChanges(s.phase, t, RecvBlocked); }
      case IsrSend(item) => if |s.items| < s.len { PutKeepsWakeups(s, item); }
      case IsrReceive => if s.items != [] { TakeKeepsWakeups(s); }
      case ResumeStep(t) => ResumeKeepsWakeups(s, t);
      case TimeOutStep(t) =>
        RemovedContent(s.recvQ, t);
        RemovedContent(s.sendQ, t);
        PhaseChanges(s.phase, t, Next(s, e).phase[t]);
    }
  }

  // ---- runs ----

  ghost predicate Fresh(s: State) {
    && 0 < s.len && s.items == [] && s.recvQ == [] && s.sendQ == [] && s.sent == [] && s.received == []
    && s.prio.Keys == s.phase.Keys == s.since.Keys
    && (forall t | t in s.phase :: s.phase[t] == Running)
    && (forall t | t in s.since :: s.since[t] < s.clock)
  }

  /** The run `steps` leads from `s` to `s'`. */
  ghost predicate Runs(s: State, steps: seq<Step>, s': State)
    decreases |steps|
  {
    if steps == [] then s' == s
    else Sound(s) && Enabled(s, steps[0]) && Runs(Next(s, steps[0]), steps[1..], s')
  }

  lemma {:induction false} RunsKeep(s: State, steps: seq<Step>, s': State)
    requires Sound(s) && NoLostWakeup(s) && Runs(s, steps, s')
    ensures Sound(s') && NoLostWakeup(s')
    decreases |steps|
  {
    if steps != [] {
      NextSound(s, steps[0]);
      NextKeepsWakeups(s, steps[0]);
      RunsKeep(Next(s, steps[0]), steps[1..], s');
    }
  }

  /** Over any run of a new queue: received messages are the first of the sent ones, in order, and the rest are in the queue. */
  lemma FirstInFirstOut(s: State, steps: seq<Step>, s': State)
    requires Fresh(s) && Runs(s, steps, s')
    ensures s'.received <= s'.sent && s'.items == s'.sent[|s'.received|..]
  {
    RunsKeep(s, steps, s');
  }

  /** Over any run: once every woken task has come back, a sleeping receiver means an empty queue and a sleeping sender a full one. */
  lemma SleepersHaveReason(s: State, steps: seq<Step>, s': State)
    requires Fresh(s) && Runs(s, steps, s')
    ensures s'.recvQ != [] ==> |s'.items| <= |WokenReceivers(s'.phase)|
    ensures s'.sendQ != [] ==> s'.len - |s'.items| <= |WokenSenders(s'.phase)|
    ensures WokenReceivers(s'.phase) == {} && s'.recvQ != [] ==> s'.items == []
    ensures WokenSenders(s'.phase) == {} && s'.sendQ != [] ==> |s'.items| == s'.len
    ensures s'.recvQ != [] && s'.sendQ != [] ==> |WokenReceivers(s'.phase)| + |WokenSenders(s'.phase)| >= s'.len
  {
    RunsKeep(s, steps, s');
  }

  /** The receiver that is woken is the one of highest priority, and among those the one that has waited longest. */
  lemma WakesFirst(s: State, item: Item, t: Tid)
    requires Sound(s) && |s.items| < s.len && t in s.phase && s.phase[t] == RecvBlocked
    ensures var s' := Put(s, item);
            && s.recvQ != [] && s'.phase[s.recvQ[0]] == RecvWoken(true)
            && (t == s.recvQ[0] || (Precedes(s.prio, s.since, s.recvQ[0], t) && s'.phase[t] == RecvBlocked))
  {
    assert t in s.recvQ;
    var i :| 0 <= i < |s.recvQ| && s.recvQ[i] == t;
    assert i > 0 ==> Precedes(s.prio, s.since, s.recvQ[0], s.recvQ[i]);
  }

  /** What the calls report is what happened: a message got is the first that was in the queue, a send that passes has put its own in. */
  lemma OutcomesTrue(s: State, t: Tid, item: Item, wait: bool)
    requires Sound(s) && t in s.phase && s.phase[t] == Running
    ensures var (s', r) := TrySend(s, t, item, wait);
            && (r == Pass ==> s'.items == s.items + [item] && s'.sent == s.sent + [item])
            && (r != Pass ==> s'.items == s.items && s'.sent == s.sent && |s.items| == s.len)
            && (r == Asleep <==> wait && |s.items| == s.len) && (r == Asleep <==> t in s'.sendQ)
    ensures var (s', r) := TryReceive(s, t, wait);
            && (r.Got? ==> s.items == [r.item] + s'.items && s'.received == s.received + [r.item])
            && (!r.Got? ==> s.items == [] && s'.items == [] && s'.received == s.received)
            && (r == Asleep <==> wait && s.items == []) && (r == Asleep <==> t in s'.recvQ)
  {
    TrySendSound(s, t, item, wait);
    TryReceiveSound(s, t, wait);
    SendersKnown(s);
  }

  // ---- what a woken receiver finds ----

  /** There is a message for every woken receiver. */
  ghost predicate PromisesCovered(s: State) {
    |WokenReceivers(s.phase)| <= |s.items|
  }

  /** A message is taken by someone to whom it was not promised. */
  ghost predicate Steals(s: State, e: Step) {
    && (e.ReceiveStep? || e.IsrReceive?)
    && s.items != [] && |s.items| == |WokenReceivers(s.phase)|
  }

  /** The promises stay covered exactly as long as nobody steals. */
  lemma CoveredUnlessStolen(s: State, e: Step)
    requires Sound(s) && PromisesCovered(s) && Enabled(s, e)
    ensures PromisesCovered(Next(s, e)) <==> !Steals(s, e)
  {
    SendersKnown(s);
    match e {
      case SendStep(t, item, wait) =>
        if |s.items| < s.len { PutCovers(s, item); } else { PhaseChanges(s.phase, t, SendBlocked(item)); }
      case ReceiveStep(t, wait) =>
        if s.items != [] { TakeKeepsWoken(s); } else { PhaseChanges(s.phase, t, RecvBlocked); }
      case IsrSend(item) => if |s.items| < s.len { PutCovers(s, item); }
      case IsrReceive => if s.items != [] { TakeKeepsWoken(s); }
      case ResumeStep(t) => ResumeCovers(s, t);
      case TimeOutStep(t) => PhaseChanges(s.phase, t, Next(s, e).phase[t]);
    }
  }

  lemma PutCovers(s: State, item: Item)
    requires Sound(s) && PromisesCovered(s) && |s.items| < s.len
    ensures PromisesCovered(Put(s, item))
  {
    if s.recvQ != [] { PhaseChanges(s.phase, s.recvQ[0], RecvWoken(true)); }
  }

  lemma TakeKeepsWoken(s: State)
    requires Sound(s) && s.items != []
    ensures WokenReceivers(Take(s).phase) == WokenReceivers(s.phase)
  {
    SendersKnown(s);
    if s.sendQ != [] { PhaseChanges(s.phase, s.sendQ[0], SendWoken(s.phase[s.sendQ[0]].item, true)); }
  }

  lemma ResumeCovers(s: State, t: Tid)
    requires Sound(s) && PromisesCovered(s) && Enabled(s, ResumeStep(t))
    ensures PromisesCovered(Resume(s, t).0)
  {
    var s' := s.(phase := s.phase[t := Running]);
    PhaseChanges(s.phase, t, Running);
    if s.phase[t] == RecvWoken(true) {
      assert t in WokenReceivers(s.phase);
      if s'.items != [] { TakeKeepsWoken(s'); }
    } else if s.phase[t].ok && |s'.items| < s'.len {
      PutCovers(s', s.phase[t].item);
    }
  }

  /** A woken receiver whose promise is covered gets a message. */
  lemma CoveredReceiverServed(s: State, t: Tid)
    requires Sound(s) && PromisesCovered(s) && t in s.phase && s.phase[t] == RecvWoken(true)
    ensures s.items != [] && Resume(s, t).1 == Got(s.items[0])
  {
    assert t in WokenReceivers(s.phase);
  }

  lemma SleepsFirst(s: State, t: Tid)
    requires Fresh(s) && t in s.phase
    ensures var s' := Next(s, ReceiveStep(t, true));
            Sound(s') && s'.items == [] && s'.recvQ == [t] && s'.sendQ == [] && s'.phase == s.phase[t := RecvBlocked]
  {
    TryReceiveSound(s, t, true);
  }

  lemma WokenNext(s: State, t: Tid, u: Tid, item: Item)
    requires Sound(s) && s.items == [] && s.recvQ == [t] && s.sendQ == [] && u in s.phase && s.phase[u] == Running
    ensures var s' := Next(s, IsrSend(item));
            && Sound(s') && u in s'.phase && s'.phase[u] == Running && s'.items == [item] && s'.sendQ == []
            && t in s'.phase && s'.phase[t] == RecvWoken(true)
  {
    SendersKnown(s);
    WakeReceiverSound(s.(items := s.items + [item], sent := s.sent + [item]));
  }

  lemma StolenFrom(s: State, t: Tid, u: Tid, item: Item)
    requires Sound(s) && s.items == [item] && s.sendQ == [] && u in s.phase && s.phase[u] == Running
    requires t in s.phase && s.phase[t] == RecvWoken(true)
    ensures InVain(Next(s, ReceiveStep(u, true)), t)
  {
    TakeSound(s);
  }

  /** Receiver `t` was woken for a message and finds none. */
  ghost predicate InVain(s: State, t: Tid) {
    Sound(s) && t in s.phase && s.phase[t] == RecvWoken(true) && Resume(s, t).1 == Empty
  }

  /** Waiting without a time limit does not exclude coming back with nothing: another receiver may take the message first. */
  lemma WaitedInVain(s: State, t: Tid, u: Tid, item: Item) returns (s': State)
    requires Fresh(s) && t in s.phase && u in s.phase && t != u
    ensures Runs(s, [ReceiveStep(t, true), IsrSend(item), ReceiveStep(u, true)], s') && InVain(s', t)
  {
    SleepsFirst(s, t);
    s' := VainRun(Next(s, ReceiveStep(t, true)), t, u, item);
    RunsOne(s, ReceiveStep(t, true), [IsrSend(item), ReceiveStep(u, true)], s');
  }

  lemma VainRun(s: State, t: Tid, u: Tid, item: Item) returns (s': State)
    requires Sound(s) && s.items == [] && s.recvQ == [t] && s.sendQ == [] && u in s.phase && s.phase[u] == Running
    ensures Runs(s, [IsrSend(item), ReceiveStep(u, true)], s') && InVain(s', t)
  {
    WokenNext(s, t, u, item);
    var s1 := Next(s, IsrSend(item));
    StolenFrom(s1, t, u, item);
    s' := Next(s1, ReceiveStep(u, true));
    assert Runs(s', [], s');
    RunsOne(s1, ReceiveStep(u, true), [], s');
    RunsOne(s, IsrSend(item), [ReceiveStep(u, true)], s');
  }

  lemma RunsOne(s: State, e: Step, rest: seq<Step>, s': State)
    requires Sound(s) && Enabled(s, e) && Runs(Next(s, e), rest, s')
    ensures Runs(s, [e] + rest, s')
  {
    assert ([e] + rest)[1..] == rest;
  }

  // ---- each answer, and what it leaves behind ----

  /** Every task but `t` and `u` is where it was. */
  ghost predicate OthersKept(s: State, s': State, t: Option<Tid>, u: Option<Tid>) {
    && s'.prio == s.prio && s'.len == s.len && s'.phase.Keys == s.phase.Keys
    && forall v | v in s.phase && t != Some(v) && u != Some(v) :: s'.phase[v] == s.phase[v]
  }

  function Head(q: seq<Tid>): Option<Tid> {
    if q == [] then None else Some(q[0])
  }

  /** A message is in and the first waiting receiver is awake; nobody else notices. */
  ghost predicate PutDone(s: State, s': State, item: Item) {
    && s'.items == s.items + [item] && s'.sent == s.sent + [item] && s'.received == s.received && s'.sendQ == s.sendQ
    && s'.recvQ == (if s.recvQ == [] then [] else s.recvQ[1..])
    && (s.recvQ != [] ==> s.recvQ[0] in s'.phase && s'.phase[s.recvQ[0]] == RecvWoken(true))
  }

  /** The first message is out and the first waiting sender is awake, its own message still with it. */
  ghost predicate TakeDone(s: State, s': State, item: Item) {
    && s.items == [item] + s'.items && s'.received == s.received + [item] && s'.sent == s.sent && s'.recvQ == s.recvQ
    && s'.sendQ == (if s.sendQ == [] then [] else s.sendQ[1..])
    && (s.sendQ != [] ==> s.sendQ[0] in s.phase && s.phase[s.sendQ[0]].SendBlocked?
                          && s.sendQ[0] in s'.phase && s'.phase[s.sendQ[0]] == SendWoken(s.phase[s.sendQ[0]].item, true))
  }

  ghost predicate NothingMoved(s: State, s': State) {
    s'.items == s.items && s'.sent == s.sent && s'.received == s.received && s'.recvQ == s.recvQ && s'.sendQ == s.sendQ
  }

  lemma SendAnswers(s: State, t: Tid, item: Item, wait: bool)
    requires Sound(s) && t in s.phase && s.phase[t] == Running
    ensures var (s', r) := TrySend(s, t, item, wait);
            if |s.items| < s.len then r == Pass && PutDone(s, s', item) && OthersKept(s, s', Head(s.recvQ), None)
            else if !wait then r == Full && s' == s
            else
              && r == Asleep && OthersKept(s, s', Some(t), None) && s'.phase[t] == SendBlocked(item)
              && s'.items == s.items && s'.sent == s.sent && s'.received == s.received && s'.recvQ == s.recvQ
              && forall u :: u in s'.sendQ <==> u == t || u in s.sendQ
  {
    SendersKnown(s);
    if |s.items| == s.len { JoinedContent(s.prio, s.sendQ, t); }
  }

  lemma ReceiveAnswers(s: State, t: Tid, wait: bool)
    requires Sound(s) && t in s.phase && s.phase[t] == Running
    ensures var (s', r) := TryReceive(s, t, wait);
            if s.items != [] then r == Got(s.items[0]) && TakeDone(s, s', s.items[0]) && OthersKept(s, s', Head(s.sendQ), None)
            else if !wait then r == Empty && s' == s
            else
              && r == Asleep && OthersKept(s, s', Some(t), None) && s'.phase[t] == RecvBlocked
              && s'.items == s.items && s'.sent == s.sent && s'.received == s.received && s'.sendQ == s.sendQ
              && forall u :: u in s'.recvQ <==> u == t || u in s.recvQ
  {
    SendersKnown(s);
    if s.items == [] { JoinedContent(s.prio, s.recvQ, t); }
  }

  /**
   * A woken task that was given up on fails, and takes or leaves nothing.  One that was woken
   * for a reason takes the first message, or puts in the message it came with, if it still can.
   */
  lemma ResumeAnswers(s: State, t: Tid)
    requires Sound(s) && Enabled(s, ResumeStep(t))
    ensures var (s', r) := Resume(s, t);
            && t in s'.phase && s'.phase[t] == Running
            && (if !s.phase[t].ok then r == Fail && NothingMoved(s, s') && OthersKept(s, s', Some(t), None)
                else if s.phase[t].RecvWoken? then
                  if s.items != [] then r == Got(s.items[0]) && TakeDone(s, s', s.items[0]) && OthersKept(s, s', Some(t), Head(s.sendQ))
                  else r == Empty && NothingMoved(s, s') && OthersKept(s, s', Some(t), None)
                else
                  if |s.items| < s.len then r == Pass && PutDone(s, s', s.phase[t].item) && OthersKept(s, s', Some(t), Head(s.recvQ))
                  else r == Full && NothingMoved(s, s') && OthersKept(s, s', Some(t), None))
  {
    SendersKnown(s);
    assert t !in s.recvQ && t !in s.sendQ;
    assert s.recvQ != [] ==> s.recvQ[0] in s.recvQ;
    assert s.sendQ != [] ==> s.sendQ[0] in s.sendQ;
  }

  /** A waiter whose time is up leaves its queue, keeps what it came with and is told that it failed. */
  lemma TimeOutAnswers(s: State, t: Tid)
    requires Sound(s) && Enabled(s, TimeOutStep(t))
    ensures var s' := TimeOut(s, t);
            && s'.items == s.items && s'.sent == s.sent && s'.received == s.received && OthersKept(s, s', Some(t), None)
            && s'.phase[t] == (if s.phase[t] == RecvBlocked then RecvWoken(false) else SendWoken(s.phase[t].item, false))
            && (forall u :: u in s'.recvQ <==> u in s.recvQ && u != t) && (forall u :: u in s'.sendQ <==> u in s.sendQ && u != t)
  {
    RemovedContent(s.recvQ, t);
    RemovedContent(s.sendQ, t);
  }

  /** The interrupt forms: in iff there is room, out iff there is something. */
  lemma IsrAnswers(s: State, item: Item)
    requires Sound(s)
    ensures if |s.items| < s.len then PutDone(s, Next(s, IsrSend(item)), item) && OthersKept(s, Next(s, IsrSend(item)), Head(s.recvQ), None)
            else Next(s, IsrSend(item)) == s
    ensures if s.items != [] then TakeDone(s, Next(s, IsrReceive), s.items[0]) && OthersKept(s, Next(s, IsrReceive), Head(s.sendQ), None)
            else Next(s, IsrReceive) == s
  {
    SendersKnown(s);
  }

  /** `t` is in a send call with this message. */
  ghost predicate Carries(s: State, t: Tid, item: Item) {
    t in s.phase && (s.phase[t] == SendBlocked(item) || (s.phase[t].SendWoken? && s.phase[t].item == item))
  }

  /** A sender that had to wait keeps its message through every step until it is back. */
  lemma KeepsItsMessage(s: State, e: Step, t: Tid, item: Item)
    requires Sound(s) && Enabled(s, e) && Carries(s, t, item) && e != ResumeStep(t)
    ensures Carries(Next(s, e), t, item)
  {
    match e {
      case SendStep(u, i, wait) => CallsKeepIt(s, e, t, item);
      case ReceiveStep(u, wait) => CallsKeepIt(s, e, t, item);
      case IsrSend(i) => IsrKeepsIt(s, i, t, item);
      case IsrReceive => IsrKeepsIt(s, item, t, item);
      case ResumeStep(u) => ResumeKeepsIt(s, u, t, item);
      case TimeOutStep(u) => TimeOutAnswers(s, u);
    }
  }

  lemma CallsKeepIt(s: State, e: Step, t: Tid, item: Item)
    requires Sound(s) && Enabled(s, e) && Carries(s, t, item) && (e.SendStep? || e.ReceiveStep?)
    ensures Carries(Next(s, e), t, item)
  {
    SendersKnown(s);
    if e.SendStep? { SendAnswers(s, e.t, e.item, e.wait); } else { ReceiveAnswers(s, e.t, e.wait); }
  }

  lemma IsrKeepsIt(s: State, i: Item, t: Tid, item: Item)
    requires Sound(s) && Carries(s, t, item)
    ensures Carries(Next(s, IsrSend(i)), t, item) && Carries(Next(s, IsrReceive), t, item)
  {
    SendersKnown(s);
    IsrAnswers(s, i);
  }

  lemma ResumeKeepsIt(s: State, u: Tid, t: Tid, item: Item)
    requires Sound(s) && Enabled(s, ResumeStep(u)) && Carries(s, t, item) && u != t
    ensures Carries(Next(s, ResumeStep(u)), t, item)
  {
    SendersKnown(s);
    ResumeAnswers(s, u);
  }

  /** The sender that is woken is the one of highest priority, and among those the one that has waited longest. */
  lemma WakesFirstSender(s: State, t: Tid)
    requires Sound(s) && s.items != [] && t in s.phase && s.phase[t].SendBlocked?
    ensures var s' := Take(s);
            && s.sendQ != [] && s.sendQ[0] in s'.phase && s'.phase[s.sendQ[0]].SendWoken? && s'.phase[s.sendQ[0]].ok
            && (t == s.sendQ[0] || (Precedes(s.prio, s.since, s.sendQ[0], t) && t in s'.phase && s'.phase[t] == s.phase[t]))
  {
    SendersKnown(s);
    assert t in s.sendQ;
    var i :| 0 <= i < |s.sendQ| && s.sendQ[i] == t;
    assert i > 0 ==> Precedes(s.prio, s.since, s.sendQ[0], s.sendQ[i]);
  }
}
