/**
 * kernel/ipc.c: a message queue as the code keeps it, a ring of `len` slots of `item_sz` bytes
 * with two wait queues.  Every method is tied to the step of QueueSpec it performs.
 */
module QueueKernel {
  import opened RingIndex
  import opened WaitQueue
  import opened Wrappers
  import S = QueueSpec

  /** CGRTOS sizes are 32-bit. */
  const UINT32_MAX: nat := 0xFFFF_FFFF

  // ---- the ring ----

  /** The bytes of slot `i`. */
  function Slot(b: seq<byte>, sz: nat, i: nat): seq<byte> {
    if i * sz + sz <= |b| then b[i * sz..i * sz + sz] else []
  }

  /** The messages in the `cnt` slots from `tail` on, around the end of the ring. */
  function Items(b: seq<byte>, sz: nat, len: nat, tail: nat, cnt: nat): (r: seq<S.Item>)
    ensures |r| == cnt
    decreases cnt
  {
    if cnt == 0 then [] else [Slot(b, sz, tail)] + Items(b, sz, len, Behind(tail, len), cnt - 1)
  }

  lemma SlotsApart(i: nat, j: nat, sz: nat)
    requires i < j
    ensures i * sz + sz <= j * sz
  {
    assert (i + 1) * sz <= j * sz;
  }

  /** Writing slot `h` changes slot `h` only. */
  lemma SlotWritten(b: seq<byte>, b': seq<byte>, sz: nat, len: nat, h: nat, data: seq<byte>)
    requires |b| == |b'| == len * sz && h < len && |data| == sz && h * sz + sz <= len * sz
    requires b' == b[..h * sz] + data + b[h * sz + sz..]
    ensures Slot(b', sz, h) == data
    ensures forall i: nat | i < len && i != h :: Slot(b', sz, i) == Slot(b, sz, i)
  {
    forall i: nat | i < len && i != h
      ensures Slot(b', sz, i) == Slot(b, sz, i)
    {
      SlotsApart(i, len, sz);
      if i < h { SlotsApart(i, h, sz); } else { SlotsApart(h, i, sz); }
    }
  }

  lemma {:induction false} ItemsPushed(b: seq<byte>, b': seq<byte>, sz: nat, len: nat, tail: nat, cnt: nat, data: seq<byte>)
    requires tail < len && cnt < len && Slot(b', sz, Ahead(tail, cnt, len)) == data
    requires forall i: nat | i < len && i != Ahead(tail, cnt, len) :: Slot(b', sz, i) == Slot(b, sz, i)
    ensures Items(b', sz, len, tail, cnt + 1) == Items(b, sz, len, tail, cnt) + [data]
    decreases cnt
  {
    if cnt == 0 {
      assert Items(b', sz, len, Behind(tail, len), 0) == [];
    } else {
      ItemsPushed(b, b', sz, len, Behind(tail, len), cnt - 1, data);
    }
  }

  /** The size check of `cgrtos_queue_create` is exactly that the buffer size fits 32 bits. */
  lemma SizeCheck(len: nat, sz: nat)
    requires 0 < len
    ensures sz > UINT32_MAX / len <==> len * sz > UINT32_MAX
  {
    var q := UINT32_MAX / len;
    assert q * len <= UINT32_MAX < (q + 1) * len;
    if sz > q {
      assert sz * len >= (q + 1) * len;
    } else {
      assert sz * len <= q * len;
    }
  }

  class Queue {
    const len: nat
    const itemSz: nat
    const buf: array<byte>
    var head: nat
    var tail: nat
    var cnt: nat
    var recvWait: seq<Tid>
    var sendWait: seq<Tid>
    /** The tasks of the kernel: their priorities, and where each is with this queue. */
    const prio: map<Tid, nat>
    var phase: map<Tid, S.Phase>
    ghost var since: map<Tid, nat>
    ghost var clock: nat
    ghost var sent: seq<S.Item>
    ghost var received: seq<S.Item>

    ghost predicate RingOk()
      reads this
    {
      && 0 < len && 0 < itemSz && buf.Length == len * itemSz <= UINT32_MAX
      && head < len && tail < len && cnt <= len && head == Ahead(tail, cnt, len)
    }

    ghost function State(): S.State
      reads this, buf
    {
      S.State(prio, since, phase, clock, len, Items(buf[..], itemSz, len, tail, cnt), recvWait, sendWait, sent, received)
    }

    ghost predicate Valid()
      reads this, buf
    {
      RingOk() && S.Sound(State())
    }

    /** `cgrtos_queue_create` with both sizes positive and a product that fits, on a kernel with these tasks. */
    constructor (len: nat, itemSz: nat, prio: map<Tid, nat>)
      requires 0 < len && 0 < itemSz && itemSz <= UINT32_MAX / len
      ensures Valid() && S.Fresh(State()) && this.len == len && this.itemSz == itemSz && this.prio == prio && fresh(buf)
    {
      SizeCheck(len, itemSz);
      this.len, this.itemSz, this.prio := len, itemSz, prio;
      buf := new byte[len * itemSz](_ => 0);
      head, tail, cnt, recvWait, sendWait := 0, 0, 0, [], [];
      phase := map t | t in prio :: S.Running;
      since := map t | t in prio :: 0;
      clock, sent, received := 1, [], [];
    }

    /** `queue_push` on a queue that is not full. */
    method Push(data: seq<byte>)
      requires RingOk() && cnt < len && |data| == itemSz
      modifies this`head, this`cnt, buf
      ensures RingOk() && cnt == old(cnt) + 1
      ensures Items(buf[..], itemSz, len, tail, cnt) == old(Items(buf[..], itemSz, len, tail, cnt)) + [data]
    {
      ghost var b := buf[..];
      var at := head * itemSz;
      SlotsApart(head, len, itemSz);
      forall i | 0 <= i < itemSz {
        buf[at + i] := data[i];
      }
      assert buf[..] == b[..at] + data + b[at + itemSz..];
      SlotWritten(b, buf[..], itemSz, len, head, data);
      ItemsPushed(b, buf[..], itemSz, len, tail, cnt, data);
      NextPlace(head, len);
      head := (head + 1) % len;
      cnt := cnt + 1;
    }

    /** `queue_pop` on a queue that is not empty. */
    method Pop() returns (data: seq<byte>)
      requires RingOk() && cnt > 0
      modifies this`tail, this`cnt
      ensures RingOk() && cnt == old(cnt) - 1
      ensures old(Items(buf[..], itemSz, len, tail, cnt)) == [data] + Items(buf[..], itemSz, len, tail, cnt)
    {
      SlotsApart(tail, len, itemSz);
      data := buf[tail * itemSz..tail * itemSz + itemSz];
      assert data == Slot(buf[..], itemSz, tail);
      NextPlace(tail, len);
      tail := (tail + 1) % len;
      cnt := cnt - 1;
    }

    /** The head of the queue of receivers, if there is one, is woken with `wake_ok` set. */
    method WakeReceiver()
      modifies this`recvWait, this`phase
      ensures State() == S.WakeReceiver(old(State()))
    {
      if recvWait != [] {
        phase := phase[recvWait[0] := S.RecvWoken(true)];
        recvWait := recvWait[1..];
      }
    }

    method WakeSender()
      requires sendWait != [] ==> sendWait[0] in phase && phase[sendWait[0]].SendBlocked?
      modifies this`sendWait, this`phase
      ensures State() == S.WakeSender(old(State()))
    {
      if sendWait != [] {
        var waiter := sendWait[0];
        phase := phase[waiter := S.SendWoken(phase[waiter].item, true)];
        sendWait := sendWait[1..];
      }
    }

    /** `queue_send_internal`: the message goes in, and the first waiting receiver is woken. */
    method SendInternal(data: seq<byte>) returns (r: S.Outcome)
      requires Valid() && |data| == itemSz
      modifies this, buf
      ensures Valid()
      ensures (State(), r) == if old(cnt) < len then (S.Put(old(State()), data), S.Pass) else (old(State()), S.Full)
    {
      if cnt >= len {
        return S.Full;
      }
      ghost var s := State();
      Push(data);
      sent := sent + [data];
      assert State() == s.(items := s.items + [data], sent := s.sent + [data]);
      S.WakeReceiverSound(State());
      WakeReceiver();
      r := S.Pass;
    }

    /** The receiving half: the first message comes out, and the first waiting sender is woken. */
    method ReceiveInternal() returns (data: seq<byte>)
      requires Valid() && cnt > 0
      modifies this
      ensures Valid()
      ensures State() == S.Take(old(State())) && data == old(State()).items[0]
    {
      ghost var s := State();
      S.TakeSound(s);
      data := Pop();
      received := received + [data];
      assert State() == s.(items := s.items[1..], received := s.received + [s.items[0]]);
      S.SendersKnown(s);
      WakeSender();
    }

    /** `block_current_on_waitq` for a sender. */
    method BlockSender(cur: Tid, data: seq<byte>)
      requires cur in prio && forall u | u in sendWait :: u in prio
      modifies this`phase, this`since, this`clock, this`sendWait
      ensures State() == S.SleepSending(old(State()), cur, data)
    {
      phase := phase[cur := S.SendBlocked(data)];
      since, clock := since[cur := clock], clock + 1;
      sendWait := WaitListAdd(prio, sendWait, cur);
    }

    method BlockReceiver(cur: Tid)
      requires cur in prio && forall u | u in recvWait :: u in prio
      modifies this`phase, this`since, this`clock, this`recvWait
      ensures State() == S.SleepReceiving(old(State()), cur)
    {
      phase := phase[cur := S.RecvBlocked];
      since, clock := since[cur := clock], clock + 1;
      recvWait := WaitListAdd(prio, recvWait, cur);
    }

    /** One turn of `cgrtos_queue_send`; `Asleep` means the caller is now in the wait queue. */
    method Send(cur: Tid, data: seq<byte>, wait: bool) returns (r: S.Outcome)
      requires Valid() && cur in phase && phase[cur] == S.Running && |data| == itemSz
      modifies this, buf
      ensures Valid()
      ensures (State(), r) == S.TrySend(old(State()), cur, data, wait)
    {
      S.TrySendSound(State(), cur, data, wait);
      if cnt < len {
        r := SendInternal(data);
      } else if !wait {
        r := S.Full;
      } else {
        BlockSender(cur, data);
        r := S.Asleep;
      }
    }

    /** One turn of `cgrtos_queue_receive`. */
    method Receive(cur: Tid, wait: bool) returns (r: S.Outcome)
      requires Valid() && cur in phase && phase[cur] == S.Running
      modifies this
      ensures Valid()
      ensures (State(), r) == S.TryReceive(old(State()), cur, wait)
    {
      S.TryReceiveSound(State(), cur, wait);
      if cnt > 0 {
        var data := ReceiveInternal();
        r := S.Got(data);
      } else if !wait {
        r := S.Empty;
      } else {
        BlockReceiver(cur);
        r := S.Asleep;
      }
    }

    /** The woken caller is back: `wait_result`, then another turn with `timeout = 0`. */
    method Resume(cur: Tid) returns (r: S.Outcome)
      requires Valid() && S.Enabled(State(), S.ResumeStep(cur))
      requires phase[cur].SendWoken? ==> |phase[cur].item| == itemSz
      modifies this, buf
      ensures Valid()
      ensures (State(), r) == S.Resume(old(State()), cur)
    {
      var was := phase[cur];
      phase := phase[cur := S.Running];
      if !was.ok {
        return S.Fail;
      }
      if was.RecvWoken? {
        r := Receive(cur, false);
      } else {
        r := Send(cur, was.item, false);
      }
    }

    /** `cgrtos_queue_send_from_isr`. */
    method SendFromIsr(data: seq<byte>) returns (r: S.Outcome)
      requires Valid() && |data| == itemSz
      modifies this, buf
      ensures Valid()
      ensures State() == S.Next(old(State()), S.IsrSend(data))
      ensures r == if old(cnt) < len then S.Pass else S.Full
    {
      if cnt < len {
        r := SendInternal(data);
      } else {
        r := S.Full;
      }
    }

    /** `cgrtos_queue_receive_from_isr`. */
    method ReceiveFromIsr() returns (r: S.Outcome)
      requires Valid()
      modifies this
      ensures Valid()
      ensures State() == S.Next(old(State()), S.IsrReceive)
      ensures r == if old(State()).items == [] then S.Empty else S.Got(old(State()).items[0])
    {
      if cnt == 0 {
        return S.Empty;
      }
      var data := ReceiveInternal();
      r := S.Got(data);
    }

    /** `cgrtos_task_purge_waits` in the tick handler, for a waiter whose time is up. */
    method TimeOut(t: Tid)
      requires Valid() && S.Enabled(State(), S.TimeOutStep(t))
      modifies this
      ensures Valid()
      ensures State() == S.TimeOut(old(State()), t)
    {
      S.TimeOutSound(State(), t);
      if phase[t] == S.RecvBlocked {
        recvWait := WaitListRemove(recvWait, t);
        phase := phase[t := S.RecvWoken(false)];
      } else {
        sendWait := WaitListRemove(sendWait, t);
        phase := phase[t := S.SendWoken(phase[t].item, false)];
      }
    }
  }
}
