/**
 * The message buffers of kernel/stream_buffer.c as a transition system.  A step is one critical
 * section: one turn of the send or receive loop, their interrupt forms, and a timeout.
 */
module MessageSpec {
  import opened WaitQueue
  import opened Wrappers

  type Payload = seq<byte>

  /** The length prefix and the longest payload. */
  const PREFIX: nat := 4
  const MAX_PAYLOAD: nat := 0xFFFF

  /** Where a task is with this buffer; a woken task comes back with `wake_ok` set or not. */
  datatype Phase =
    | Running
    | RecvBlocked(room: nat)
    | RecvWoken(room: nat, ok: bool)
    | SendBlocked(item: Payload)
    | SendWoken(item: Payload, ok: bool)

  /** `sent` and `received` are the histories of all messages that went in and came out. */
  datatype State = State(
    prio: map<Tid, nat>, phase: map<Tid, Phase>, size: nat, messages: seq<Payload>,
    recvQ: seq<Tid>, sendQ: seq<Tid>, sent: seq<Payload>, received: seq<Payload>)

  /** Zero is the code's only error value; it stands for all refusals. */
  datatype Outcome = Done | Got(item: Payload) | Zero | Asleep

  // ---- space ----

  function Need(item: Payload): nat {
    PREFIX + |item|
  }

  function Used(ms: seq<Payload>): nat {
    if ms == [] then 0 else Need(ms[0]) + Used(ms[1..])
  }

  lemma {:induction false} UsedAppend(ms: seq<Payload>, item: Payload)
    ensures Used(ms + [item]) == Used(ms) + Need(item)
  {
    if ms == [] {
      assert [] + [item] == [item];
    } else {
      assert (ms + [item])[1..] == ms[1..] + [item];
      UsedAppend(ms[1..], item);
    }
  }

  predicate Fits(s: State, item: Payload) {
    Used(s.messages) + Need(item) <= s.size
  }

  /** What the parameter checks of a send let through. */
  predicate Sendable(s: State, item: Payload) {
    0 < |item| <= MAX_PAYLOAD && Need(item) <= s.size
  }

  // ---- the steps ----

  /** `sb_wake_recv` and `sb_wake_send`: the level does not change in the loop, so everyone is woken. */
  function WakeAll(phase: map<Tid, Phase>, q: seq<Tid>): (r: map<Tid, Phase>)
    ensures r.Keys == phase.Keys
    ensures forall t | t in phase :: t in r && r[t] == if t in q then Woken(phase[t]) else phase[t]
    decreases |q|
  {
    if q == [] then phase
    else
      assert q == [q[0]] + q[1..];
      var p := if q[0] in phase then phase[q[0] := Woken(phase[q[0]])] else phase;
      WakeAll(p, q[1..])
  }

  function Woken(x: Phase): Phase {
    match x
    case RecvBlocked(room) => RecvWoken(room, true)
    case SendBlocked(item) => SendWoken(item, true)
    case _ => x
  }

  function Put(s: State, item: Payload): State {
    s.(messages := s.messages + [item], sent := s.sent + [item], recvQ := [], phase := WakeAll(s.phase, s.recvQ))
  }

  /** After a message has left there is space, whatever its size. */
  function Take(s: State): State
    requires s.messages != []
  {
    s.(messages := s.messages[1..], received := s.received + [s.messages[0]], sendQ := [], phase := WakeAll(s.phase, s.sendQ))
  }

  /** `sb_block` in the queue of senders. */
  function SleepSending(s: State, t: Tid, item: Payload): State
    requires t in s.prio && forall u | u in s.sendQ :: u in s.prio
  {
    s.(phase := s.phase[t := SendBlocked(item)], sendQ := Joined(s.prio, s.sendQ, t))
  }

  function SleepReceiving(s: State, t: Tid, room: nat): State
    requires t in s.prio && forall u | u in s.recvQ :: u in s.prio
  {
    s.(phase := s.phase[t := RecvBlocked(room)], recvQ := Joined(s.prio, s.recvQ, t))
  }

  /** One turn of the loop in `cgrtos_message_buffer_send`. */
  function TrySend(s: State, t: Tid, item: Payload, wait: bool): (State, Outcome)
    requires t in s.prio && forall u | u in s.sendQ :: u in s.prio
  {
    if !Sendable(s, item) then (s, Zero)
    else if Fits(s, item) then (Put(s, item), Done)
    else if !wait then (s, Zero)
    else (SleepSending(s, t, item), Asleep)
  }

  /** One turn of the loop in `cgrtos_message_buffer_recv`, with `room` bytes to receive into. */
  function TryReceive(s: State, t: Tid, room: nat, wait: bool): (State, Outcome)
    requires t in s.prio && forall u | u in s.recvQ :: u in s.prio
  {
    if room == 0 then (s, Zero)
    else if s.messages != [] then
      if |s.messages[0]| > room then (s, Zero) else (Take(s), Got(s.messages[0]))
    else if !wait then (s, Zero)
    else (SleepReceiving(s, t, room), Asleep)
  }

  /** A woken task runs again: it gives up, or takes one more turn that does not wait. */
  function Resume(s: State, t: Tid): (State, Outcome)
    requires Known(s) && t in s.phase && (s.phase[t].RecvWoken? || s.phase[t].SendWoken?)
  {
    var s' := s.(phase := s.phase[t := Running]);
    if !s.phase[t].ok then (s', Zero)
    else if s.phase[t].RecvWoken? then TryReceive(s', t, s.phase[t].room, false)
    else TrySend(s', t, s.phase[t].item, false)
  }

  function TimeOut(s: State, t: Tid): State
    requires t in s.phase && (s.phase[t].RecvBlocked? || s.phase[t].SendBlocked?)
  {
    if s.phase[t].RecvBlocked?
    then s.(phase := s.phase[t := RecvWoken(s.phase[t].room, false)], recvQ := Removed(s.recvQ, t))
    else s.(phase := s.phase[t := SendWoken(s.phase[t].item, false)], sendQ := Removed(s.sendQ, t))
  }

  predicate Known(s: State) {
    && s.prio.Keys == s.phase.Keys
    && (forall u | u in s.recvQ :: u in s.prio) && (forall u | u in s.sendQ :: u in s.prio)
  }

  datatype Step =
    | SendStep(t: Tid, item: Payload, wait: bool)
    | ReceiveStep(t: Tid, room: nat, wait: bool)
    | IsrSend(item: Payload)
    | IsrReceive(room: nat)
    | ResumeStep(t: Tid)
    | TimeOutStep(t: Tid)

  predicate Enabled(s: State, e: Step) {
    match e
    case SendStep(t, _, _) => t in s.phase && s.phase[t] == Running
    case ReceiveStep(t, _, _) => t in s.phase && s.phase[t] == Running
    case IsrSend(_) => true
    case IsrReceive(_) => true
    case ResumeStep(t) => t in s.phase && (s.phase[t].RecvWoken? || s.phase[t].SendWoken?)
    case TimeOutStep(t) => t in s.phase && (s.phase[t].RecvBlocked? || s.phase[t].SendBlocked?)
  }

  function Next(s: State, e: Step): State
    requires Known(s) && Enabled(s, e)
  {
    match e
    case SendStep(t, item, wait) => TrySend(s, t, item, wait).0
    case ReceiveStep(t, room, wait) => TryReceive(s, t, room, wait).0
    case IsrSend(item) => if Sendable(s, item) && Fits(s, item) then Put(s, item) else s
    case IsrReceive(room) => if s.messages != [] && 0 < room && |s.messages[0]| <= room then Take(s) else s
    case ResumeStep(t) => Resume(s, t).0
    case TimeOutStep(t) => TimeOut(s, t)
  }

  // ---- what every step keeps ----

  /**
   * Sleeping receivers mean an empty buffer, and a sleeping sender's message does not fit;
   * messages come out as they went in.
   */
  ghost predicate Sound(s: State) {
    && Known(s) && NoDup(s.recvQ) && NoDup(s.sendQ)
    && Used(s.messages) <= s.size && (forall i | 0 <= i < |s.messages| :: 0 < |s.messages[i]| <= MAX_PAYLOAD)
    && s.sent == s.received + s.messages
    && (forall t :: t in s.recvQ <==> t in s.phase && s.phase[t].RecvBlocked?)
    && (forall t :: t in s.sendQ <==> t in s.phase && s.phase[t].SendBlocked?)
    && (s.recvQ != [] ==> s.messages == [])
    && (forall t | t in s.sendQ :: Sendable(s, s.phase[t].item) && !Fits(s, s.phase[t].item))
  }

  lemma PutSound(s: State, item: Payload)
    requires Sound(s) && Sendable(s, item) && Fits(s, item)
    ensures Sound(Put(s, item))
  {
    UsedAppend(s.messages, item);
    assert s.received + (s.messages + [item]) == s.received + s.messages + [item];
    assert forall t | t in s.sendQ :: t !in s.recvQ;
  }

  lemma TakeSound(s: State)
    requires Sound(s) && s.messages != []
    ensures Sound(Take(s))
  {
    assert s.received + s.messages == s.received + [s.messages[0]] + s.messages[1..];
    assert Used(s.messages) == Need(s.messages[0]) + Used(s.messages[1..]);
    assert s.recvQ == [];
  }

  lemma TrySendSound(s: State, t: Tid, item: Payload, wait: bool)
    requires Sound(s) && t in s.phase && s.phase[t] == Running
    ensures Sound(TrySend(s, t, item, wait).0)
  {
    if Sendable(s, item) {
      if Fits(s, item) { PutSound(s, item); } else if wait { SleepSound(s, t, item); }
    }
  }

  lemma SleepSound(s: State, t: Tid, item: Payload)
    requires Sound(s) && t in s.phase && s.phase[t] == Running && Sendable(s, item) && !Fits(s, item)
    ensures Sound(SleepSending(s, t, item))
  {
    JoinedContent(s.prio, s.sendQ, t);
    var s' := SleepSending(s, t, item);
    forall u
      ensures u in s'.sendQ <==> u in s'.phase && s'.phase[u].SendBlocked?
      ensures u in s'.recvQ <==> u in s'.phase && s'.phase[u].RecvBlocked?
    {
      assert u in s'.sendQ <==> u == t || u in s.sendQ;
    }
    forall u | u in s'.sendQ
      ensures Sendable(s', s'.phase[u].item) && !Fits(s', s'.phase[u].item)
    {
      assert u != t ==> u in s.sendQ && s'.phase[u] == s.phase[u];
    }
  }

  lemma TryReceiveSound(s: State, t: Tid, room: nat, wait: bool)
    requires Sound(s) && t in s.phase && s.phase[t] == Running
    ensures Sound(TryReceive(s, t, room, wait).0)
  {
    if s.messages != [] { TakeSound(s); } else if room != 0 && wait { JoinedContent(s.prio, s.recvQ, t); }
  }

  lemma TimeOutSound(s: State, t: Tid)
    requires Sound(s) && Enabled(s, TimeOutStep(t))
    ensures Sound(TimeOut(s, t))
  {
    if s.phase[t].RecvBlocked? { RemovedContent(s.recvQ, t); } else { RemovedContent(s.sendQ, t); }
  }

  lemma ResumeSound(s: State, t: Tid)
    requires Sound(s) && Enabled(s, ResumeStep(t))
    ensures Sound(Resume(s, t).0)
  {
    var s' := s.(phase := s.phase[t := Running]);
    if s.phase[t].ok {
      if s.phase[t].RecvWoken? { TryReceiveSound(s', t, s.phase[t].room, false); } else { TrySendSound(s', t, s.phase[t].item, false); }
    }
  }

  lemma NextSound(s: State, e: Step)
    requires Sound(s) && Enabled(s, e)
    ensures Sound(Next(s, e))
  {
    match e {
      case SendStep(t, item, wait) => TrySendSound(s, t, item, wait);
      case ReceiveStep(t, room, wait) => TryReceiveSound(s, t, room, wait);
      case IsrSend(item) => if Sendable(s, item) && Fits(s, item) { PutSound(s, item); }
      case IsrReceive(room) => if s.messages != [] { TakeSound(s); }
      case ResumeStep(t) => ResumeSound(s, t);
      case TimeOutStep(t) => TimeOutSound(s, t);
    }
  }

  // ---- runs ----

  ghost predicate Fresh(s: State) {
    && s.prio.Keys == s.phase.Keys && s.messages == [] && s.recvQ == [] && s.sendQ == [] && s.sent == [] && s.received == []
    && forall t | t in s.phase :: s.phase[t] == Running
  }

  /** The run `steps` leads from `s` to `s'`. */
  ghost predicate Runs(s: State, steps: seq<Step>, s': State)
    decreases |steps|
  {
    if steps == [] then s' == s
    else Known(s) && Enabled(s, steps[0]) && Runs(Next(s, steps[0]), steps[1..], s')
  }

  lemma {:induction false} RunsKeep(s: State, steps: seq<Step>, s': State)
    requires Sound(s) && Runs(s, steps, s')
    ensures Sound(s')
    decreases |steps|
  {
    if steps != [] {
      NextSound(s, steps[0]);
      RunsKeep(Next(s, steps[0]), steps[1..], s');
    }
  }

  /** Over any run: whole messages, in order, and every sleeper has reason to sleep. */
  lemma MessagesInOrder(s: State, steps: seq<Step>, s': State, t: Tid)
    requires Fresh(s) && Runs(s, steps, s')
    ensures s'.received <= s'.sent && s'.messages == s'.sent[|s'.received|..]
    ensures t in s'.recvQ ==> s'.messages == []
    ensures t in s'.sendQ ==> t in s'.phase && s'.phase[t].SendBlocked? && Used(s'.messages) + Need(s'.phase[t].item) > s'.size
  {
    RunsKeep(s, steps, s');
  }

  /** What the calls report is what happened. */
  lemma OutcomesTrue(s: State, t: Tid, item: Payload, room: nat, wait: bool)
    requires Sound(s) && t in s.phase && s.phase[t] == Running
    ensures var (s', r) := TrySend(s, t, item, wait);
            && (r == Done <==> Sendable(s, item) && Fits(s, item))
            && s'.messages == (if r == Done then s.messages + [item] else s.messages)
            && (r == Asleep <==> Sendable(s, item) && !Fits(s, item) && wait)
    ensures var (s', r) := TryReceive(s, t, room, wait);
            && (r.Got? <==> s.messages != [] && 0 < |s.messages[0]| <= room)
            && (r.Got? ==> s.messages == [r.item] + s'.messages && s'.received == s.received + [r.item])
            && (!r.Got? ==> s'.messages == s.messages && s'.received == s.received)
            && (r == Asleep <==> s.messages == [] && room > 0 && wait)
  {
  }

  /** A receive buffer that is too short gets nothing and takes nothing, waiting or not. */
  lemma ShortBufferTakesNothing(s: State, t: Tid, room: nat, wait: bool)
    requires Sound(s) && t in s.phase && s.phase[t] == Running && s.messages != [] && room < |s.messages[0]|
    ensures TryReceive(s, t, room, wait) == (s, Zero)
  {
  }

  /** What was sent into an empty buffer is what the next receiver gets, and the buffer is empty again. */
  lemma SentIsReceived(s: State, t: Tid, u: Tid, item: Payload, room: nat, wait: bool)
    requires Sound(s) && s.messages == [] && t in s.phase && s.phase[t] == Running && u in s.phase && s.phase[u] == Running
    requires Sendable(s, item) && |item| <= room
    ensures var (s1, r) := TrySend(s, t, item, wait);
            && r == Done && Known(s1) && TryReceive(s1, u, room, wait).1 == Got(item)
            && TryReceive(s1, u, room, wait).0.messages == []
  {
    assert [] + [item] == [item];
    PutSound(s, item);
  }

  /** A woken sender succeeds iff its message fits by then; otherwise it gives up, even if it was to wait for ever. */
  lemma WokenSenderIff(s: State, t: Tid)
    requires Sound(s) && t in s.phase && s.phase[t].SendWoken? && s.phase[t].ok && Sendable(s, s.phase[t].item)
    ensures Resume(s, t).1 == Done <==> Fits(s, s.phase[t].item)
    ensures Resume(s, t).1 != Done ==> Resume(s, t).1 == Zero && Resume(s, t).0.messages == s.messages
  {
  }

  /** A receive that frees too little wakes a sender in vain. */
  lemma WokenTooEarly(s: State, t: Tid, room: nat)
    requires Sound(s) && t in s.sendQ && s.messages != [] && 0 < |s.messages[0]| <= room
    requires Used(s.messages[1..]) + Need(s.phase[t].item) > s.size
    ensures var s1 := Next(s, IsrReceive(room));
            Sound(s1) && t in s1.phase && s1.phase[t] == SendWoken(s.phase[t].item, true) && Resume(s1, t).1 == Zero
  {
    TakeSound(s);
  }

  lemma FreshSound(s: State)
    requires Fresh(s)
    ensures Sound(s)
  {
  }

  lemma RunsOne(s: State, e: Step, rest: seq<Step>, s': State)
    requires Sound(s) && Enabled(s, e) && Runs(Next(s, e), rest, s')
    ensures Runs(s, [e] + rest, s')
  {
    assert ([e] + rest)[1..] == rest;
  }

  /**
   * From a new buffer: `a` and `b` are sent, `t` waits without a time limit to send `c`, and one
   * message is taken out.  If `c` does not fit beside `b`, the call of `t` returns 0.
   */
  lemma SentInVain(s: State, t: Tid, a: Payload, b: Payload, c: Payload) returns (s': State)
    requires Fresh(s) && t in s.phase && Sendable(s, a) && Sendable(s, b) && Sendable(s, c)
    requires Need(a) + Need(b) <= s.size && Need(b) + Need(c) > s.size
    ensures Runs(s, [IsrSend(a), IsrSend(b), SendStep(t, c, true), IsrReceive(|a|)], s')
    ensures Known(s') && t in s'.phase && s'.phase[t] == SendWoken(c, true) && Resume(s', t).1 == Zero
  {
    FreshSound(s);
    NextSound(s, IsrSend(a));
    var s1 := Next(s, IsrSend(a));
    assert s1.messages == [a];
    s' := FilledRun(s1, t, a, b, c);
    RunsOne(s, IsrSend(a), [IsrSend(b), SendStep(t, c, true), IsrReceive(|a|)], s');
  }

  lemma FilledRun(s: State, t: Tid, a: Payload, b: Payload, c: Payload) returns (s': State)
    requires Sound(s) && s.messages == [a] && t in s.phase && s.phase[t] == Running && Sendable(s, b) && Sendable(s, c)
    requires Need(a) + Need(b) <= s.size && Need(b) + Need(c) > s.size
    ensures Runs(s, [IsrSend(b), SendStep(t, c, true), IsrReceive(|a|)], s')
    ensures Known(s') && t in s'.phase && s'.phase[t] == SendWoken(c, true) && Resume(s', t).1 == Zero
  {
    NextSound(s, IsrSend(b));
    var s1 := Next(s, IsrSend(b));
    assert Used([a]) == Need(a) + Used([]);
    UsedAppend([a], b);
    assert s1.messages == [a, b] && t !in s.recvQ;
    s' := BlockedRun(s1, t, a, b, c);
    RunsOne(s, IsrSend(b), [SendStep(t, c, true), IsrReceive(|a|)], s');
  }

  lemma BlockedRun(s: State, t: Tid, a: Payload, b: Payload, c: Payload) returns (s': State)
    requires Sound(s) && s.messages == [a, b] && t in s.phase && s.phase[t] == Running && Sendable(s, c)
    requires Need(b) + Need(c) > s.size
    ensures Runs(s, [SendStep(t, c, true), IsrReceive(|a|)], s')
    ensures Known(s') && t in s'.phase && s'.phase[t] == SendWoken(c, true) && Resume(s', t).1 == Zero
  {
    NextSound(s, SendStep(t, c, true));
    var s1 := Next(s, SendStep(t, c, true));
    assert [a, b][1..] == [b] && Used([b]) == Need(b) + Used([]) && Used([a, b]) == Need(a) + Used([b]);
    assert s1 == SleepSending(s, t, c) && 0 < |s.messages[0]|;
    WokenTooEarly(s1, t, |a|);
    s' := Next(s1, IsrReceive(|a|));
    assert Runs(s', [], s');
    RunsOne(s1, IsrReceive(|a|), [], s');
    RunsOne(s, SendStep(t, c, true), [IsrReceive(|a|)], s');
  }

  // ---- each answer, and what it leaves behind ----

  /** Nothing but the places of tasks has changed, and those only as `WakeAll` of `q` changes them, task `t` aside. */
  ghost predicate OnlyWoken(s: State, s': State, q: seq<Tid>, t: Option<Tid>) {
    && s'.prio == s.prio && s'.size == s.size && s'.phase.Keys == s.phase.Keys
    && forall u | u in s.phase && t != Some(u) ::
         s'.phase[u] == if u !in q then s.phase[u]
                        else match s.phase[u]
                             case RecvBlocked(room) => RecvWoken(room, true)
                             case SendBlocked(item) => SendWoken(item, true)
                             case x => x
  }

  /** The whole message is behind the others, and everyone who waited for one is awake. */
  ghost predicate PutDone(s: State, s': State, item: Payload, t: Option<Tid>) {
    && s'.messages == s.messages + [item] && s'.sent == s.sent + [item] && s'.received == s.received
    && s'.recvQ == [] && s'.sendQ == s.sendQ && OnlyWoken(s, s', s.recvQ, t)
  }

  /** The whole first message is out, and everyone who waited for space is awake. */
  ghost predicate TakeDone(s: State, s': State, t: Option<Tid>) {
    && s.messages != [] && s'.messages == s.messages[1..] && s'.received == s.received + [s.messages[0]] && s'.sent == s.sent
    && s'.sendQ == [] && s'.recvQ == s.recvQ && OnlyWoken(s, s', s.sendQ, t)
  }

  ghost predicate NothingMoved(s: State, s': State, t: Tid) {
    && s'.messages == s.messages && s'.sent == s.sent && s'.received == s.received && s'.recvQ == s.recvQ && s'.sendQ == s.sendQ
    && OnlyWoken(s, s', [], Some(t))
  }

  /**
   * A payload of 1 to 65535 bytes goes in as a whole iff it and its four bytes of length have
   * space; one that could never have space is refused at once, any other waits if told to.
   */
  lemma SendAnswers(s: State, t: Tid, item: Payload, wait: bool)
    requires Sound(s) && t in s.phase && s.phase[t] == Running
    ensures var (s', r) := TrySend(s, t, item, wait);
            if !(1 <= |item| <= 65535) || 4 + |item| > s.size then r == Zero && s' == s
            else if Used(s.messages) + 4 + |item| <= s.size then r == Done && PutDone(s, s', item, None)
            else if !wait then r == Zero && s' == s
            else
              && r == Asleep && s'.phase.Keys == s.phase.Keys && s'.phase[t] == SendBlocked(item) && OnlyWoken(s, s', [], Some(t))
              && s'.messages == s.messages && s'.sent == s.sent && s'.received == s.received && s'.recvQ == s.recvQ
              && forall u :: u in s'.sendQ <==> u == t || u in s.sendQ
  {
    if Sendable(s, item) && !Fits(s, item) { JoinedContent(s.prio, s.sendQ, t); }
  }

  /** The first message comes out as a whole iff there is one and it fits the buffer given; a call without a buffer, or with one too short, gets nothing. */
  lemma ReceiveAnswers(s: State, t: Tid, room: nat, wait: bool)
    requires Sound(s) && t in s.phase && s.phase[t] == Running
    ensures var (s', r) := TryReceive(s, t, room, wait);
            if room == 0 || (s.messages != [] && |s.messages[0]| > room) || (s.messages == [] && !wait) then r == Zero && s' == s
            else if s.messages != [] then r == Got(s.messages[0]) && TakeDone(s, s', None)
            else
              && r == Asleep && s'.phase.Keys == s.phase.Keys && s'.phase[t] == RecvBlocked(room) && OnlyWoken(s, s', [], Some(t))
              && s'.messages == s.messages && s'.sent == s.sent && s'.received == s.received && s'.sendQ == s.sendQ
              && forall u :: u in s'.recvQ <==> u == t || u in s.recvQ
  {
    if s.messages == [] { JoinedContent(s.prio, s.recvQ, t); }
  }

  /** A woken task that was given up on gets 0 and leaves nothing; any other takes one more turn with what it came with, without waiting. */
  lemma ResumeAnswers(s: State, t: Tid)
    requires Sound(s) && Enabled(s, ResumeStep(t))
    ensures var (s', r) := Resume(s, t);
            && t in s'.phase && s'.phase[t] == Running && r != Asleep
            && (if !s.phase[t].ok then r == Zero && NothingMoved(s, s', t)
                else if s.phase[t].RecvWoken? then
                  if s.messages != [] && 0 < s.phase[t].room && |s.messages[0]| <= s.phase[t].room
                  then r == Got(s.messages[0]) && TakeDone(s, s', Some(t))
                  else r == Zero && NothingMoved(s, s', t)
                else
                  if 1 <= |s.phase[t].item| <= 65535 && Used(s.messages) + 4 + |s.phase[t].item| <= s.size
                  then r == Done && PutDone(s, s', s.phase[t].item, Some(t))
                  else r == Zero && NothingMoved(s, s', t))
  {
    assert t !in s.recvQ && t !in s.sendQ;
  }

  /** A waiter whose time is up leaves its queue and keeps what it came with. */
  lemma TimeOutAnswers(s: State, t: Tid)
    requires Sound(s) && Enabled(s, TimeOutStep(t))
    ensures var s' := TimeOut(s, t);
            && s'.messages == s.messages && s'.sent == s.sent && s'.received == s.received && OnlyWoken(s, s', [], Some(t))
            && s'.phase.Keys == s.phase.Keys
            && s'.phase[t] == (match s.phase[t]
                               case RecvBlocked(room) => RecvWoken(room, false)
                               case SendBlocked(item) => SendWoken(item, false)
                               case x => x)
            && (forall u :: u in s'.recvQ <==> u in s.recvQ && u != t) && (forall u :: u in s'.sendQ <==> u in s.sendQ && u != t)
  {
    RemovedContent(s.recvQ, t);
    RemovedContent(s.sendQ, t);
  }

  /** The interrupt forms never wait, and take or leave whole messages. */
  lemma IsrAnswers(s: State, item: Payload, room: nat)
    requires Sound(s)
    ensures if 1 <= |item| <= 65535 && Used(s.messages) + 4 + |item| <= s.size then PutDone(s, Next(s, IsrSend(item)), item, None)
            else Next(s, IsrSend(item)) == s
    ensures if s.messages != [] && 0 < room && |s.messages[0]| <= room then TakeDone(s, Next(s, IsrReceive(room)), None)
            else Next(s, IsrReceive(room)) == s
  {
  }
}
