/**
 * kernel/stream_buffer.c: a message buffer as the code keeps it, a ring of bytes in which every
 * message is preceded by its length.  Every method is tied to the step of MessageSpec it performs.
 */
module MessageKernel {
  import opened RingIndex
  import opened WaitQueue
  import opened Wrappers
  import S = MessageSpec

  // ---- frames ----

  /** A 32-bit length, lowest byte first. */
  function Prefix(n: nat): (r: seq<byte>)
    requires n <= S.MAX_PAYLOAD
    ensures |r| == S.PREFIX
  {
    [n % 256, n / 256, 0, 0]
  }

  function Number(p: seq<byte>): nat
    requires |p| == S.PREFIX
  {
    var a: nat, b: nat, c: nat, d: nat := p[0], p[1], p[2], p[3];
    a + 0x100 * b + 0x1_0000 * c + 0x100_0000 * d
  }

  ghost predicate AllShort(ms: seq<S.Payload>) {
    forall i | 0 <= i < |ms| :: |ms[i]| <= S.MAX_PAYLOAD
  }

  function Frame(m: S.Payload): (r: seq<byte>)
    requires |m| <= S.MAX_PAYLOAD
    ensures |r| == S.Need(m)
  {
    Prefix(|m|) + m
  }

  function Encode(ms: seq<S.Payload>): (r: seq<byte>)
    requires AllShort(ms)
    ensures |r| == S.Used(ms)
  {
    if ms == [] then [] else Frame(ms[0]) + Encode(ms[1..])
  }

  lemma {:induction false} EncodeAppend(ms: seq<S.Payload>, m: S.Payload)
    requires AllShort(ms) && |m| <= S.MAX_PAYLOAD
    ensures AllShort(ms + [m]) && Encode(ms + [m]) == Encode(ms) + Frame(m)
  {
    if ms == [] {
      assert [] + [m] == [m] && Encode([m]) == Frame(m) + Encode([]);
    } else {
      assert (ms + [m])[1..] == ms[1..] + [m];
      EncodeAppend(ms[1..], m);
      assert Frame(ms[0]) + (Encode(ms[1..]) + Frame(m)) == Frame(ms[0]) + Encode(ms[1..]) + Frame(m);
    }
  }

  /** The first frame: its prefix is the length of its payload. */
  lemma FirstFrame(ms: seq<S.Payload>)
    requires AllShort(ms) && ms != []
    ensures var d, n := Encode(ms), |ms[0]|;
            && |d| >= S.PREFIX + n && Number(d[..S.PREFIX]) == n && d[S.PREFIX..][..n] == ms[0] && d[S.PREFIX..][n..] == Encode(ms[1..])
  {
    var d, rest := Encode(ms), Encode(ms[1..]);
    assert d == Prefix(|ms[0]|) + ms[0] + rest;
    Parts(Prefix(|ms[0]|), ms[0], rest);
    PrefixNumber(|ms[0]|);
  }

  lemma Parts(a: seq<byte>, b: seq<byte>, c: seq<byte>)
    ensures var d := a + b + c; d[..|a|] == a && d[|a|..][..|b|] == b && d[|a|..][|b|..] == c
  {
  }

  lemma PrefixNumber(n: nat)
    requires n <= S.MAX_PAYLOAD
    ensures Number(Prefix(n)) == n
  {
  }

  // ---- the ring ----

  /** The `n` bytes from `tail` on, around the end of the ring. */
  function Ring(b: seq<byte>, tail: nat, n: nat): (r: seq<byte>)
    requires tail < |b|
    ensures |r| == n
    decreases n
  {
    if n == 0 then [] else [b[tail]] + Ring(b, Behind(tail, |b|), n - 1)
  }

  lemma SplitAt(d: seq<byte>, a: seq<byte>, b: seq<byte>)
    requires d == a + b
    ensures d[..|a|] == a && d[|a|..] == b
  {
  }

  /** One byte moves from the ring to what has been read. */
  lemma RingStep(b: seq<byte>, tail: nat, n: nat, read: seq<byte>)
    requires tail < |b| && n > 0
    ensures read + Ring(b, tail, n) == read + [b[tail]] + Ring(b, Behind(tail, |b|), n - 1)
  {
    assert Ring(b, tail, n) == [b[tail]] + Ring(b, Behind(tail, |b|), n - 1);
  }

  /** A byte written behind the `n` bytes of the ring is one more byte of it. */
  lemma {:induction false} RingWrite(b: seq<byte>, tail: nat, n: nat, x: byte)
    requires tail < |b| && n < |b|
    ensures Ring(b[Ahead(tail, n, |b|) := x], tail, n + 1) == Ring(b, tail, n) + [x]
    decreases n
  {
    var b' := b[Ahead(tail, n, |b|) := x];
    if n == 0 {
      assert Ring(b', Behind(tail, |b|), 0) == [];
    } else {
      RingWrite(b, Behind(tail, |b|), n - 1, x);
    }
  }

  /** The ring from the `i`-th byte on. */
  lemma {:induction false} RingSplit(b: seq<byte>, tail: nat, n: nat, i: nat)
    requires tail < |b| && i <= n <= |b|
    ensures Ring(b, tail, n)[..i] == Ring(b, tail, i) && Ring(b, tail, n)[i..] == Ring(b, Ahead(tail, i, |b|), n - i)
    decreases i
  {
    if i > 0 {
      RingSplit(b, Behind(tail, |b|), n - 1, i - 1);
      var r := Ring(b, Behind(tail, |b|), n - 1);
      assert Ring(b, tail, n) == [b[tail]] + r;
      assert Ring(b, tail, n)[i..] == r[i - 1..] && Ring(b, tail, n)[..i] == [b[tail]] + r[..i - 1];
    }
  }

  class Buffer {
    const buf: array<byte>
    var head: nat
    var tail: nat
    var avail: nat
    var recvWait: seq<Tid>
    var sendWait: seq<Tid>
    /** The tasks of the kernel: their priorities, and where each is with this buffer. */
    const prio: map<Tid, nat>
    var phase: map<Tid, S.Phase>
    ghost var messages: seq<S.Payload>
    ghost var sent: seq<S.Payload>
    ghost var received: seq<S.Payload>

    ghost predicate RingOk()
      reads this
    {
      tail < buf.Length && head < buf.Length && avail <= buf.Length && head == Ahead(tail, avail, buf.Length)
    }

    ghost function Bytes(): seq<byte>
      requires RingOk()
      reads this, buf
    {
      Ring(buf[..], tail, avail)
    }

    ghost function State(): S.State
      reads this
    {
      S.State(prio, phase, buf.Length, messages, recvWait, sendWait, sent, received)
    }

    /** The bytes in the ring are the frames of the messages, one after the other. */
    ghost predicate Valid()
      reads this, buf
    {
      && RingOk() && S.Sound(State()) && AllShort(messages) && Bytes() == Encode(messages)
    }

    /** `cgrtos_message_buffer_create`, which asks for two bytes at least. */
    constructor (size: nat, prio: map<Tid, nat>)
      requires size >= 2
      ensures Valid() && S.Fresh(State()) && buf.Length == size && this.prio == prio && fresh(buf)
    {
      buf := new byte[size](_ => 0);
      head, tail, avail, recvWait, sendWait := 0, 0, 0, [], [];
      this.prio := prio;
      phase := map t | t in prio :: S.Running;
      messages, sent, received := [], [], [];
      new;
      S.FreshSound(State());
    }

    /** `sb_write_bytes`. */
    method WriteBytes(src: seq<byte>)
      requires RingOk() && avail + |src| <= buf.Length
      modifies this`head, this`avail, buf
      ensures RingOk() && avail == old(avail) + |src| && Bytes() == old(Bytes()) + src
    {
      var i := 0;
      while i < |src|
        invariant 0 <= i <= |src| && head < buf.Length && tail < buf.Length && avail + |src| <= buf.Length
        invariant head == Ahead(tail, avail + i, buf.Length)
        invariant Ring(buf[..], tail, avail + i) == old(Bytes()) + src[..i]
      {
        RingWrite(buf[..], tail, avail + i, src[i]);
        NextPlace(head, buf.Length);
        buf[head] := src[i];
        head := (head + 1) % buf.Length;
        assert src[..i + 1] == src[..i] + [src[i]];
        i := i + 1;
      }
      assert src[..i] == src;
      avail := avail + |src|;
    }

    /** `sb_read_bytes`. */
    method ReadBytes(n: nat) returns (dst: seq<byte>)
      requires RingOk() && n <= avail
      modifies this`tail, this`avail
      ensures RingOk() && avail == old(avail) - n
      ensures dst == old(Bytes())[..n] && Bytes() == old(Bytes())[n..]
    {
      ghost var d := Bytes();
      dst := [];
      var i := 0;
      while i < n
        invariant 0 <= i <= n <= avail <= buf.Length && tail < buf.Length && head == Ahead(tail, avail - i, buf.Length)
        invariant |dst| == i && d == dst + Ring(buf[..], tail, avail - i)
      {
        RingStep(buf[..], tail, avail - i, dst);
        dst := dst + [buf[tail]];
        NextTail();
        i := i + 1;
      }
      avail := avail - n;
      SplitAt(d, dst, Bytes());
    }

    /** `sb->tail = (sb->tail + 1) % sb->size`. */
    method NextTail()
      requires tail < buf.Length
      modifies this`tail
      ensures tail == Behind(old(tail), buf.Length)
    {
      NextPlace(tail, buf.Length);
      tail := (tail + 1) % buf.Length;
    }

    /** The length prefix is read without moving `tail`. */
    method PeekLength() returns (n: nat)
      requires RingOk() && avail >= S.PREFIX
      ensures n == Number(Bytes()[..S.PREFIX])
    {
      var t: nat, p: seq<byte> := tail, [];
      RingSplit(buf[..], tail, avail, S.PREFIX);
      var i: nat := 0;
      while i < S.PREFIX
        invariant 0 <= i && i <= S.PREFIX
        invariant t < buf.Length && |p| == i
        invariant Ring(buf[..], tail, S.PREFIX) == p + Ring(buf[..], t, S.PREFIX - i)
      {
        RingStep(buf[..], t, S.PREFIX - i, p);
        p := p + [buf[t]];
        NextPlace(t, buf.Length);
        t := (t + 1) % buf.Length;
        i := i + 1;
      }
      assert p == Bytes()[..S.PREFIX];
      n := Number(p);
    }

    /** `sb_wake_recv`: while there is anything in the buffer. */
    method WakeReceivers()
      requires avail > 0
      modifies this`recvWait, this`phase
      ensures recvWait == [] && phase == S.WakeAll(old(phase), old(recvWait))
    {
      while recvWait != []
        invariant S.WakeAll(phase, recvWait) == S.WakeAll(old(phase), old(recvWait))
        decreases |recvWait|
      {
        var w := recvWait[0];
        recvWait := recvWait[1..];
        if w in phase {
          phase := phase[w := S.Woken(phase[w])];
        }
      }
    }

    /** `sb_wake_send`: while there is any space. */
    method WakeSenders()
      requires avail < buf.Length
      modifies this`sendWait, this`phase
      ensures sendWait == [] && phase == S.WakeAll(old(phase), old(sendWait))
    {
      while sendWait != []
        invariant S.WakeAll(phase, sendWait) == S.WakeAll(old(phase), old(sendWait))
        decreases |sendWait|
      {
        var w := sendWait[0];
        sendWait := sendWait[1..];
        if w in phase {
          phase := phase[w := S.Woken(phase[w])];
        }
      }
    }

    /** A frame goes in: prefix, then payload. */
    method WriteFrame(data: seq<byte>)
      requires RingOk() && |data| <= S.MAX_PAYLOAD && avail + S.Need(data) <= buf.Length
      modifies this`head, this`avail, buf
      ensures RingOk() && avail == old(avail) + S.Need(data) && Bytes() == old(Bytes()) + Frame(data)
    {
      WriteBytes(Prefix(|data|));
      WriteBytes(data);
    }

    /** What a send does once there is space. */
    method Deliver(data: seq<byte>)
      requires Valid() && S.Sendable(State(), data) && S.Fits(State(), data)
      modifies this, buf
      ensures Valid() && State() == S.Put(old(State()), data)
    {
      S.PutSound(State(), data);
      EncodeAppend(messages, data);
      WriteFrame(data);
      messages, sent := messages + [data], sent + [data];
      WakeReceivers();
    }

    /** One turn of `cgrtos_message_buffer_send`. */
    method Send(cur: Tid, data: seq<byte>, wait: bool) returns (r: S.Outcome)
      requires Valid() && cur in phase && phase[cur] == S.Running
      modifies this, buf
      ensures Valid()
      ensures (State(), r) == S.TrySend(old(State()), cur, data, wait)
    {
      S.TrySendSound(State(), cur, data, wait);
      if |data| == 0 || |data| > S.MAX_PAYLOAD || S.PREFIX + |data| > buf.Length {
        return S.Zero;
      }
      if buf.Length - avail >= S.PREFIX + |data| {
        Deliver(data);
        return S.Done;
      }
      if !wait {
        return S.Zero;
      }
      phase := phase[cur := S.SendBlocked(data)];
      sendWait := WaitListAdd(prio, sendWait, cur);
      r := S.Asleep;
    }

    /** The first message comes out, prefix and payload. */
    method Collect(n: nat) returns (data: seq<byte>)
      requires Valid() && messages != [] && n == |messages[0]|
      modifies this
      ensures Valid() && State() == S.Take(old(State())) && data == old(messages)[0]
    {
      S.TakeSound(State());
      FirstFrame(messages);
      var discard := ReadBytes(S.PREFIX);
      data := ReadBytes(n);
      messages, received := messages[1..], received + [messages[0]];
      WakeSenders();
    }

    /** One turn of `cgrtos_message_buffer_recv`. */
    method Receive(cur: Tid, room: nat, wait: bool) returns (r: S.Outcome)
      requires Valid() && cur in phase && phase[cur] == S.Running
      modifies this
      ensures Valid()
      ensures (State(), r) == S.TryReceive(old(State()), cur, room, wait)
    {
      S.TryReceiveSound(State(), cur, room, wait);
      if room == 0 {
        return S.Zero;
      }
      if avail >= S.PREFIX {
        var n := PeekLength();
        FirstFrame(messages);
        if avail >= S.PREFIX + n {
          if n > room {
            return S.Zero;
          }
          var data := Collect(n);
          return S.Got(data);
        }
      }
      if !wait {
        return S.Zero;
      }
      phase := phase[cur := S.RecvBlocked(room)];
      recvWait := WaitListAdd(prio, recvWait, cur);
      r := S.Asleep;
    }

    /** `cgrtos_message_buffer_send_from_isr`. */
    method SendFromIsr(data: seq<byte>) returns (ok: bool)
      requires Valid()
      modifies this, buf
      ensures Valid() && State() == S.Next(old(State()), S.IsrSend(data))
      ensures ok <==> S.Sendable(old(State()), data) && S.Fits(old(State()), data)
    {
      if |data| == 0 || |data| > S.MAX_PAYLOAD || S.PREFIX + |data| > buf.Length || buf.Length - avail < S.PREFIX + |data| {
        return false;
      }
      Deliver(data);
      ok := true;
    }

    /** `cgrtos_message_buffer_recv_from_isr`. */
    method ReceiveFromIsr(room: nat) returns (r: S.Outcome)
      requires Valid()
      modifies this
      ensures Valid() && State() == S.Next(old(State()), S.IsrReceive(room))
      ensures r == if messages == old(messages) then S.Zero else S.Got(old(messages)[0])
    {
      if room == 0 || avail < S.PREFIX {
        return S.Zero;
      }
      var n := PeekLength();
      FirstFrame(messages);
      if avail < S.PREFIX + n || n > room {
        return S.Zero;
      }
      var data := Collect(n);
      r := S.Got(data);
    }
  }
}
