/** The protocol engine of the NovaXR UDP emulator: a two-state command machine
    driven by inbound datagrams, and a framer that, while streaming, builds one
    1440-byte datagram of twenty 72-byte packets per loop iteration. */
module NovaXR {
  import opened Wrappers

  /** One element of a Python `bytes` object. */
  type Byte = x: int | 0 <= x < 256

  // The numbers of the wire format, written as literals throughout so that
  // the verifier sees linear arithmetic:
  //   72   = `self.package_size`, the length of one packet;
  //   20   = packets per datagram, the `range (20)` of the batch loop;
  //   63   = random bytes per packet, the `range (1, package_size - 8)`;
  //   8    = timestamp bytes per packet, the size of `struct.pack ("d", ...)`;
  //   1440 = 20 * 72, the length of every outbound datagram;
  //   255  = the counter is reset when it becomes divisible by 255;
  //   128  = the most bytes `recvfrom (128)` returns.

  // ---------------------------------------------------------------------------
  // The command state machine

  /** `State`: idle (`wait`, the initial value) or streaming (`stream`). */
  datatype State = Wait | Stream

  /** `Message`: the two recognised commands. */
  datatype Message = StartStream | StopStream

  /** The wire form of each command: `b'b'` (0x62) and `b's'` (0x73). */
  function MessageBytes(m: Message): seq<Byte> {
    match m
    case StartStream => [0x62]
    case StopStream => [0x73]
  }

  /** Recognises a received datagram as a command; exactly the two one-byte
      command datagrams are recognised. */
  function ParseMessage(msg: seq<Byte>): (r: Option<Message>)
    ensures forall m :: r == Some(m) <==> msg == MessageBytes(m)
  {
    if msg == MessageBytes(StartStream) then Some(StartStream)
    else if msg == MessageBytes(StopStream) then Some(StopStream)
    else None
  }

  /** The state after receiving `msg`: `b'b'` starts streaming, `b's'` stops it,
      and every other datagram, the empty one included, changes nothing. */
  function Transition(state: State, msg: seq<Byte>): (next: State)
    ensures msg == [0x62] ==> next == Stream
    ensures msg == [0x73] ==> next == Wait
    ensures msg != [0x62] && msg != [0x73] ==> next == state
  {
    match ParseMessage(msg)
    case Some(StartStream) => Stream
    case Some(StopStream) => Wait
    case None => state
  }

  /** A recognised command decides the next state whatever the prior state. */
  lemma TransitionIgnoresPrior(s1: State, s2: State, m: Message)
    ensures Transition(s1, MessageBytes(m)) == Transition(s2, MessageBytes(m))
    ensures Transition(s1, MessageBytes(m)) == (if m == StartStream then Stream else Wait)
  {
  }

  /** Receiving the same datagram twice is the same as receiving it once. */
  lemma TransitionIdempotent(s: State, msg: seq<Byte>)
    ensures Transition(Transition(s, msg), msg) == Transition(s, msg)
  {
  }

  /** The state can only change on a recognised command, and then it moves to
      the state that command names. */
  lemma TransitionChangeMeansCommand(s: State, msg: seq<Byte>)
    requires Transition(s, msg) != s
    ensures s == Wait ==> msg == MessageBytes(StartStream)
    ensures s == Stream ==> msg == MessageBytes(StopStream)
  {
  }

  // ---------------------------------------------------------------------------
  // The sequence counter

  /** `package_num` after one packet, on the counter's range 0..254: one more,
      and back to 0 after 254. */
  function NextPackageNum(n: nat): (r: nat)
    requires n < 255
    ensures r < 255
  {
    if n == 254 then 0 else n + 1
  }

  /** This is the source's rule: increment, then reset to 0 when the new value
      is divisible by 255; and it is counting modulo 255. */
  lemma NextPackageNumRule(n: nat)
    requires n < 255
    ensures NextPackageNum(n) == (if (n + 1) % 255 == 0 then 0 else n + 1)
    ensures NextPackageNum(n) == (n + 1) % 255
  {
  }

  /** `package_num` after `k` packets starting from `n`. */
  function PackageNumAfter(n: nat, k: nat): (r: nat)
    requires n < 255
    ensures r < 255
    decreases k
  {
    if k == 0 then n else PackageNumAfter(NextPackageNum(n), k - 1)
  }

  /** Counting `k` packets from a counter in range is addition modulo 255. */
  lemma {:induction false} PackageNumAfterMod(n: nat, k: nat)
    requires n < 255
    ensures PackageNumAfter(n, k) == (n + k) % 255
    decreases k
  {
    if k > 0 {
      PackageNumAfterMod(NextPackageNum(n), k - 1);
      if n == 254 {
        assert (n + k) % 255 == (k - 1) % 255 by {
          assert n + k == 255 + (k - 1);
        }
      }
    }
  }

  /** One more packet advances the counter by one more step. */
  lemma {:induction false} PackageNumAfterSucc(n: nat, k: nat)
    requires n < 255
    ensures PackageNumAfter(n, k + 1) == NextPackageNum(PackageNumAfter(n, k))
    decreases k
  {
    if k > 0 {
      PackageNumAfterSucc(NextPackageNum(n), k - 1);
    }
  }

  /** Counting `a` packets and then `b` more is counting `a + b` packets. */
  lemma {:induction false} PackageNumAfterAdd(n: nat, a: nat, b: nat)
    requires n < 255
    ensures PackageNumAfter(PackageNumAfter(n, a), b) == PackageNumAfter(n, a + b)
    decreases a
  {
    if a > 0 {
      PackageNumAfterAdd(NextPackageNum(n), a - 1, b);
    }
  }

  // ---------------------------------------------------------------------------
  // The packet-batch framer

  /** One packet: the sequence byte, 63 random bytes, 8 timestamp bytes. */
  function Packet(num: Byte, random: seq<Byte>, stamp: seq<Byte>): (p: seq<Byte>)
    requires |random| == 63 && |stamp| == 8
    ensures |p| == 72
    ensures p[0] == num
    ensures p[1 .. 64] == random
    ensures p[64 ..] == stamp
  {
    [num] + random + stamp
  }

  /** The random and timestamp bytes supplied for a run of packets: one
      63-byte and one 8-byte sequence per packet. */
  predicate Supply(randoms: seq<seq<Byte>>, stamps: seq<seq<Byte>>) {
    |randoms| == |stamps| &&
    (forall j :: 0 <= j < |randoms| ==> |randoms[j]| == 63) &&
    (forall j :: 0 <= j < |stamps| ==> |stamps[j]| == 8)
  }

  /** The packets built from counter value `n` on, concatenated. */
  function Batch(n: nat, randoms: seq<seq<Byte>>, stamps: seq<seq<Byte>>): (b: seq<Byte>)
    requires n < 255 && Supply(randoms, stamps)
    ensures |b| == 72 * |randoms|
    decreases |randoms|
  {
    if randoms == [] then []
    else Packet(n, randoms[0], stamps[0]) + Batch(NextPackageNum(n), randoms[1..], stamps[1..])
  }

  /** Appending one packet at the end of a batch, as the framer's loop does. */
  lemma {:induction false} BatchSnoc(n: nat, randoms: seq<seq<Byte>>, stamps: seq<seq<Byte>>,
                                     random: seq<Byte>, stamp: seq<Byte>)
    requires n < 255 && Supply(randoms, stamps)
    requires |random| == 63 && |stamp| == 8
    ensures Supply(randoms + [random], stamps + [stamp])
    ensures Batch(n, randoms + [random], stamps + [stamp])
         == Batch(n, randoms, stamps) + Packet(PackageNumAfter(n, |randoms|), random, stamp)
    decreases |randoms|
  {
    var rs, ss := randoms + [random], stamps + [stamp];
    var last := Packet(PackageNumAfter(n, |randoms|), random, stamp);
    if randoms == [] {
      assert rs == [random] && ss == [stamp];
      assert Batch(n, rs, ss) == Packet(n, random, stamp) + Batch(NextPackageNum(n), [], []);
    } else {
      var n1 := NextPackageNum(n);
      assert rs[1..] == randoms[1..] + [random] && ss[1..] == stamps[1..] + [stamp];
      BatchSnoc(n1, randoms[1..], stamps[1..], random, stamp);
      var head := Packet(n, randoms[0], stamps[0]);
      calc {
        Batch(n, rs, ss);
        head + Batch(n1, randoms[1..] + [random], stamps[1..] + [stamp]);
        head + (Batch(n1, randoms[1..], stamps[1..]) + last);
        (head + Batch(n1, randoms[1..], stamps[1..])) + last;
        Batch(n, randoms, stamps) + last;
      }
    }
  }

  /** A slice of `a + b` lying wholly inside `b`. */
  lemma SliceAfter(a: seq<Byte>, b: seq<Byte>, i: nat, k: nat)
    requires |a| <= i <= k <= |a| + |b|
    ensures (a + b)[i..k] == b[i - |a| .. k - |a|]
  {
  }

  /** Packet `j` of a batch occupies bytes `72*j .. 72*j+71`: its sequence byte
      is the counter after `j` packets, then its random bytes, then its
      timestamp bytes. */
  lemma {:induction false} BatchLayout(n: nat, randoms: seq<seq<Byte>>, stamps: seq<seq<Byte>>, j: nat)
    requires n < 255 && Supply(randoms, stamps) && j < |randoms|
    ensures Batch(n, randoms, stamps)[72 * j] == PackageNumAfter(n, j)
    ensures Batch(n, randoms, stamps)[72 * j + 1 .. 72 * j + 64]
         == randoms[j]
    ensures Batch(n, randoms, stamps)[72 * j + 64 .. 72 * j + 72]
         == stamps[j]
    decreases j
  {
    var p := Packet(n, randoms[0], stamps[0]);
    var rest := Batch(NextPackageNum(n), randoms[1..], stamps[1..]);
    assert Batch(n, randoms, stamps) == p + rest;
    if j == 0 {
      assert (p + rest)[1 .. 64] == p[1 .. 64];
      assert (p + rest)[64 .. 72] == p[64 ..];
    } else {
      BatchLayout(NextPackageNum(n), randoms[1..], stamps[1..], j - 1);
      var at := 72 * j;
      assert at == |p| + 72 * (j - 1);
      SliceAfter(p, rest, at + 1, at + 64);
      SliceAfter(p, rest, at + 64, at + 72);
    }
  }

  /** Within a batch no sequence byte is 255, and each packet's sequence byte
      is one more, modulo 255, than the packet before it. */
  lemma {:induction false} BatchSequenceBytes(n: nat, randoms: seq<seq<Byte>>, stamps: seq<seq<Byte>>, j: nat)
    requires n < 255 && Supply(randoms, stamps) && j + 1 < |randoms|
    ensures Batch(n, randoms, stamps)[72 * j] < 255
    ensures Batch(n, randoms, stamps)[72 * (j + 1)]
         == (Batch(n, randoms, stamps)[72 * j] + 1) % 255
  {
    BatchLayout(n, randoms, stamps, j);
    BatchLayout(n, randoms, stamps, j + 1);
    PackageNumAfterSucc(n, j);
  }

  // ---------------------------------------------------------------------------
  // One loop iteration and a run of them, as values

  /** The peer's `(ip, port)` pair. */
  datatype Address = Address(host: string, port: nat)

  /** A datagram returned by `recvfrom`, and its sender. */
  datatype Received = Received(msg: seq<Byte>, sender: Address)

  /** A datagram handed to `sendto`, and its destination (absent when no
      datagram has yet been received). */
  datatype Outbound = Outbound(payload: seq<Byte>, dest: Option<Address>)

  /** What the environment supplies to one loop iteration: the received
      datagram or `None` for a receive timeout, and the random and timestamp
      bytes for each of the twenty packets should a batch be built. */
  datatype Tick = Tick(received: Option<Received>, randoms: seq<seq<Byte>>, stamps: seq<seq<Byte>>)

  predicate ValidTick(t: Tick) {
    (t.received.Some? ==> |t.received.value.msg| <= 128) &&
    |t.randoms| == 20 && Supply(t.randoms, t.stamps)
  }

  /** The emulator's fields `state`, `addr` and `package_num`, as a value. */
  datatype Emu = Emu(state: State, addr: Option<Address>, packageNum: nat)

  /** The fields as the constructor leaves them. */
  const Initial: Emu := Emu(Wait, None, 0)

  /** One iteration of the receive/transition/send loop: the transition comes
      first, so the command received in an iteration decides whether that
      same iteration sends a batch. */
  function StepSpec(e: Emu, t: Tick): (r: (Emu, Option<Outbound>))
    requires e.packageNum < 255 && ValidTick(t)
    ensures r.0.packageNum < 255
    ensures t.received.Some? ==> r.0.addr == Some(t.received.value.sender)
    ensures t.received.Some? ==> r.0.state == Transition(e.state, t.received.value.msg)
    ensures t.received.None? ==> r.0.addr == e.addr && r.0.state == e.state
    ensures r.1.Some? <==> r.0.state == Stream
    ensures r.0.state == Wait ==> r.0.packageNum == e.packageNum
    ensures r.1.Some? ==> |r.1.value.payload| == 1440 && r.1.value.dest == r.0.addr
    ensures r.1.Some? ==> r.1.value.payload == Batch(e.packageNum, t.randoms, t.stamps)
    ensures r.1.Some? ==> r.0.packageNum == PackageNumAfter(e.packageNum, 20)
  {
    var state := if t.received.Some? then Transition(e.state, t.received.value.msg) else e.state;
    var addr := if t.received.Some? then Some(t.received.value.sender) else e.addr;
    if state == Stream then
      (Emu(state, addr, PackageNumAfter(e.packageNum, 20)),
       Some(Outbound(Batch(e.packageNum, t.randoms, t.stamps), addr)))
    else
      (Emu(state, addr, e.packageNum), None)
  }

  predicate ValidTicks(ticks: seq<Tick>) {
    forall i :: 0 <= i < |ticks| ==> ValidTick(ticks[i])
  }

  /** The loop run for as many iterations as there are ticks: the final
      fields and what each iteration sent. */
  function RunSpec(e: Emu, ticks: seq<Tick>): (r: (Emu, seq<Option<Outbound>>))
    requires e.packageNum < 255 && ValidTicks(ticks)
    ensures |r.1| == |ticks| && r.0.packageNum < 255
    decreases |ticks|
  {
    if ticks == [] then (e, [])
    else
      var (e1, out) := StepSpec(e, ticks[0]);
      var rest := RunSpec(e1, ticks[1..]);
      (rest.0, [out] + rest.1)
  }

  /** How many of the iterations sent a batch. */
  function Sent(outs: seq<Option<Outbound>>): nat {
    if outs == [] then 0 else (if outs[0].Some? then 1 else 0) + Sent(outs[1..])
  }

  /** A batch sent by one iteration carries the sequence bytes that follow
      the counter it started from. */
  lemma {:induction false} StepSequenceBytes(e: Emu, t: Tick, j: nat)
    requires e.packageNum < 255 && ValidTick(t)
    requires StepSpec(e, t).1.Some? && j < 20
    ensures StepSpec(e, t).1.value.payload[72 * j] == PackageNumAfter(e.packageNum, j)
  {
    BatchLayout(e.packageNum, t.randoms, t.stamps, j);
  }

  /** One iteration advances the counter by twenty packets if it sent a batch
      and not at all otherwise. */
  lemma StepCounter(e: Emu, t: Tick)
    requires e.packageNum < 255 && ValidTick(t)
    ensures StepSpec(e, t).0.packageNum
         == PackageNumAfter(e.packageNum, if StepSpec(e, t).1.Some? then 20 else 0)
  {
  }

  /** The first iteration of a run, taken apart from the rest. */
  lemma RunUnfold(e: Emu, ticks: seq<Tick>)
    requires e.packageNum < 255 && ValidTicks(ticks) && ticks != []
    ensures StepSpec(e, ticks[0]).0.packageNum < 255 && ValidTicks(ticks[1..])
    ensures RunSpec(e, ticks)
         == (RunSpec(StepSpec(e, ticks[0]).0, ticks[1..]).0,
             [StepSpec(e, ticks[0]).1] + RunSpec(StepSpec(e, ticks[0]).0, ticks[1..]).1)
  {
  }

  /** Counting the packets of earlier batches, then those of later ones. */
  lemma {:induction false} CounterAcrossBatches(n: nat, n1: nat, s0: nat, s1: nat, j: nat)
    requires n < 255 && n1 == PackageNumAfter(n, 20 * s0)
    ensures PackageNumAfter(n1, 20 * s1 + j)
         == PackageNumAfter(n, 20 * (s0 + s1) + j)
  {
    PackageNumAfterAdd(n, 20 * s0, 20 * s1 + j);
    assert 20 * s0 + (20 * s1 + j) == 20 * (s0 + s1) + j;
  }

  /** A run of `a` followed by `b` is the run of `a`, then the run of `b` from
      where `a` left the fields. */
  lemma {:induction false} RunAppend(e: Emu, a: seq<Tick>, b: seq<Tick>)
    requires e.packageNum < 255 && ValidTicks(a) && ValidTicks(b)
    ensures ValidTicks(a + b)
    ensures RunSpec(e, a + b)
         == (RunSpec(RunSpec(e, a).0, b).0, RunSpec(e, a).1 + RunSpec(RunSpec(e, a).0, b).1)
    decreases |a|
  {
    ValidConcat(a, b);
    if a == [] {
      assert a + b == b;
      assert RunSpec(e, a) == (e, []);
      assert [] + RunSpec(e, b).1 == RunSpec(e, b).1;
    } else {
      var e1 := StepSpec(e, a[0]).0;
      RunUnfold(e, a);
      RunUnfold(e, a + b);
      assert (a + b)[0] == a[0] && (a + b)[1..] == a[1..] + b;
      RunAppend(e1, a[1..], b);
      var o := StepSpec(e, a[0]).1;
      var r1 := RunSpec(e1, a[1..]);
      var rb := RunSpec(r1.0, b);
      assert RunSpec(e, a) == (r1.0, [o] + r1.1);
      assert RunSpec(e1, (a + b)[1..]) == (rb.0, r1.1 + rb.1);
      assert [o] + (r1.1 + rb.1) == ([o] + r1.1) + rb.1;
    }
  }

  /** Two valid runs of ticks make a valid run. */
  lemma ValidConcat(a: seq<Tick>, b: seq<Tick>)
    requires ValidTicks(a) && ValidTicks(b)
    ensures ValidTicks(a + b)
  {
    forall i | 0 <= i < |a + b| ensures ValidTick((a + b)[i]) {
      if i < |a| { assert (a + b)[i] == a[i]; } else { assert (a + b)[i] == b[i - |a|]; }
    }
  }

  /** Iteration `i` of a run is one `StepSpec` from the fields the first `i`
      iterations left: what it sends, and the prefix of the run before it. */
  lemma {:induction false} RunAt(e: Emu, ticks: seq<Tick>, i: nat)
    requires e.packageNum < 255 && ValidTicks(ticks) && i < |ticks|
    ensures RunSpec(e, ticks).1[..i] == RunSpec(e, ticks[..i]).1
    ensures RunSpec(e, ticks).1[i] == StepSpec(RunSpec(e, ticks[..i]).0, ticks[i]).1
  {
    var pre, post := ticks[..i], ticks[i..];
    assert ValidTicks(pre) && ValidTicks(post) by {
      forall k | 0 <= k < |pre| ensures ValidTick(pre[k]) { assert pre[k] == ticks[k]; }
      forall k | 0 <= k < |post| ensures ValidTick(post[k]) { assert post[k] == ticks[i + k]; }
    }
    assert pre + post == ticks;
    RunAppend(e, pre, post);
    var ei := RunSpec(e, pre).0;
    RunUnfold(ei, post);
    var outs := RunSpec(e, ticks).1;
    assert outs == RunSpec(e, pre).1 + ([StepSpec(ei, post[0]).1] + RunSpec(StepSpec(ei, post[0]).0, post[1..]).1);
    assert outs[..i] == RunSpec(e, pre).1;
    assert outs[i] == StepSpec(ei, post[0]).1;
  }

  /** The datagram sent by iteration `i` of a run is the `Batch` of that
      iteration's supply, numbered from the counter the earlier iterations
      left. */
  lemma {:induction false} RunPayload(e: Emu, ticks: seq<Tick>, i: nat)
    requires e.packageNum < 255 && ValidTicks(ticks) && i < |ticks|
    requires RunSpec(e, ticks).1[i].Some?
    ensures RunSpec(e, ticks[..i]).0.packageNum < 255
    ensures RunSpec(e, ticks).1[i].value.payload
         == Batch(RunSpec(e, ticks[..i]).0.packageNum, ticks[i].randoms, ticks[i].stamps)
  {
    RunAt(e, ticks, i);
  }

  /** Without a start command an idle emulator sends nothing and keeps its
      counter, however long it runs. */
  lemma {:induction false} QuietWithoutStart(e: Emu, ticks: seq<Tick>)
    requires e.packageNum < 255 && ValidTicks(ticks) && e.state == Wait
    requires forall i :: 0 <= i < |ticks| && ticks[i].received.Some? ==>
               ticks[i].received.value.msg != MessageBytes(StartStream)
    ensures forall i :: 0 <= i < |ticks| ==> RunSpec(e, ticks).1[i].None?
    ensures RunSpec(e, ticks).0.state == Wait
    ensures RunSpec(e, ticks).0.packageNum == e.packageNum
    decreases |ticks|
  {
    if ticks != [] {
      var (e1, out) := StepSpec(e, ticks[0]);
      QuietWithoutStart(e1, ticks[1..]);
      var outs := RunSpec(e, ticks).1;
      assert outs == [out] + RunSpec(e1, ticks[1..]).1;
      forall i | 0 <= i < |ticks| ensures outs[i].None? {
        if i > 0 { assert outs[i] == RunSpec(e1, ticks[1..]).1[i - 1]; }
      }
    }
  }

  /** In a run that begins with a stop command, from any state, and receives
      no start command after it, nothing is sent; `StopSilencesUntilStart`
      covers the window up to a later start. */
  lemma {:induction false} StopSilences(e: Emu, ticks: seq<Tick>)
    requires e.packageNum < 255 && ValidTicks(ticks) && |ticks| > 0
    requires ticks[0].received.Some? && ticks[0].received.value.msg == MessageBytes(StopStream)
    requires forall i :: 0 < i < |ticks| && ticks[i].received.Some? ==>
               ticks[i].received.value.msg != MessageBytes(StartStream)
    ensures forall i :: 0 <= i < |ticks| ==> RunSpec(e, ticks).1[i].None?
  {
    var (e1, out) := StepSpec(e, ticks[0]);
    var tail := ticks[1..];
    forall i | 0 <= i < |tail| && tail[i].received.Some?
      ensures tail[i].received.value.msg != MessageBytes(StartStream)
    {
      assert tail[i] == ticks[i + 1];
    }
    QuietWithoutStart(e1, tail);
    var outs := RunSpec(e, ticks).1;
    assert outs == [out] + RunSpec(e1, tail).1;
    forall i | 0 <= i < |ticks| ensures outs[i].None? {
      if i > 0 { assert outs[i] == RunSpec(e1, tail).1[i - 1]; }
    }
  }

  /** An idle emulator that receives no start command in its first `k`
      iterations sends nothing in them, whatever comes after. */
  lemma {:induction false} QuietUntilStart(e: Emu, ticks: seq<Tick>, k: nat)
    requires e.packageNum < 255 && ValidTicks(ticks) && e.state == Wait && k <= |ticks|
    requires forall m :: 0 <= m < k && ticks[m].received.Some? ==>
               ticks[m].received.value.msg != MessageBytes(StartStream)
    ensures forall m :: 0 <= m < k ==> RunSpec(e, ticks).1[m].None?
    decreases k
  {
    if k > 0 {
      RunUnfold(e, ticks);
      var (e1, out) := StepSpec(e, ticks[0]);
      var tail := ticks[1..];
      forall m | 0 <= m < k - 1 && tail[m].received.Some?
        ensures tail[m].received.value.msg != MessageBytes(StartStream)
      {
        assert tail[m] == ticks[m + 1];
      }
      QuietUntilStart(e1, tail, k - 1);
      var outs := RunSpec(e, ticks).1;
      forall m | 0 <= m < k ensures outs[m].None? {
        if m > 0 { assert outs[m] == RunSpec(e1, tail).1[m - 1]; }
      }
    }
  }

  /** After a stop command received in iteration `i` of a run, from any
      state, nothing is sent in iterations `i` up to (not including) `k`,
      provided no start command arrives after `i` and before `k`. */
  lemma {:induction false} StopSilencesUntilStart(e: Emu, ticks: seq<Tick>, i: nat, k: nat)
    requires e.packageNum < 255 && ValidTicks(ticks) && i < k <= |ticks|
    requires ticks[i].received.Some? && ticks[i].received.value.msg == MessageBytes(StopStream)
    requires forall m :: i < m < k && ticks[m].received.Some? ==>
               ticks[m].received.value.msg != MessageBytes(StartStream)
    ensures forall m :: i <= m < k ==> RunSpec(e, ticks).1[m].None?
    decreases i
  {
    RunUnfold(e, ticks);
    var (e1, out) := StepSpec(e, ticks[0]);
    var tail := ticks[1..];
    var outs := RunSpec(e, ticks).1;
    if i == 0 {
      forall m | 0 <= m < k - 1 && tail[m].received.Some?
        ensures tail[m].received.value.msg != MessageBytes(StartStream)
      {
        assert tail[m] == ticks[m + 1];
      }
      QuietUntilStart(e1, tail, k - 1);
    } else {
      assert tail[i - 1] == ticks[i];
      forall m | i - 1 < m < k - 1 && tail[m].received.Some?
        ensures tail[m].received.value.msg != MessageBytes(StartStream)
      {
        assert tail[m] == ticks[m + 1];
      }
      StopSilencesUntilStart(e1, tail, i - 1, k - 1);
    }
    forall m | i <= m < k ensures outs[m].None? {
      if m > 0 { assert outs[m] == RunSpec(e1, tail).1[m - 1]; }
    }
  }

  /** The first `k` iterations of a run send what a run of just those `k`
      iterations sends. */
  lemma {:induction false} RunPrefix(e: Emu, ticks: seq<Tick>, k: nat)
    requires e.packageNum < 255 && ValidTicks(ticks) && k <= |ticks|
    ensures ValidTicks(ticks[..k])
    ensures RunSpec(e, ticks).1[..k] == RunSpec(e, ticks[..k]).1
  {
    ValidSlice(ticks, 0, k);
    ValidSlice(ticks, k, |ticks|);
    assert ticks[0..k] == ticks[..k] && ticks[k..|ticks|] == ticks[k..];
    assert ticks[..k] + ticks[k..] == ticks;
    RunAppend(e, ticks[..k], ticks[k..]);
  }

  /** The iterations of a run from `i` on send what a run of just those
      iterations sends, started from the fields the first `i` left. */
  lemma {:induction false} RunSuffix(e: Emu, ticks: seq<Tick>, i: nat)
    requires e.packageNum < 255 && ValidTicks(ticks) && i <= |ticks|
    ensures ValidTicks(ticks[..i]) && ValidTicks(ticks[i..])
    ensures RunSpec(e, ticks[..i]).0.packageNum < 255
    ensures RunSpec(e, ticks).1[i..] == RunSpec(RunSpec(e, ticks[..i]).0, ticks[i..]).1
  {
    ValidSlice(ticks, 0, i);
    ValidSlice(ticks, i, |ticks|);
    assert ticks[0..i] == ticks[..i] && ticks[i..|ticks|] == ticks[i..];
    assert ticks[..i] + ticks[i..] == ticks;
    RunAppend(e, ticks[..i], ticks[i..]);
  }

  /** Every slice of a valid run of ticks is valid. */
  lemma {:induction false} ValidSlice(ticks: seq<Tick>, lo: nat, hi: nat)
    requires ValidTicks(ticks) && lo <= hi <= |ticks|
    ensures ValidTicks(ticks[lo..hi])
  {
    forall m | 0 <= m < hi - lo ensures ValidTick(ticks[lo..hi][m]) {
      assert ticks[lo..hi][m] == ticks[lo + m];
    }
  }

  /** The counter after a run has advanced by twenty packets per batch sent. */
  lemma {:induction false} RunCounter(e: Emu, ticks: seq<Tick>)
    requires e.packageNum < 255 && ValidTicks(ticks)
    ensures RunSpec(e, ticks).0.packageNum
         == PackageNumAfter(e.packageNum, 20 * Sent(RunSpec(e, ticks).1))
    decreases |ticks|
  {
    if ticks != [] {
      RunUnfold(e, ticks);
      var (e1, out) := StepSpec(e, ticks[0]);
      var rest := RunSpec(e1, ticks[1..]).1;
      RunCounter(e1, ticks[1..]);
      StepCounter(e, ticks[0]);
      assert ([out] + rest)[1..] == rest;
      CounterAcrossBatches(e.packageNum, e1.packageNum, if out.Some? then 1 else 0, Sent(rest), 0);
    }
  }

  /** From the initial fields, after a run that sent `k` batches the counter
      is `20*k` modulo 255. */
  lemma {:induction false} CounterFromInitial(ticks: seq<Tick>)
    requires ValidTicks(ticks)
    ensures RunSpec(Initial, ticks).0.packageNum
         == (20 * Sent(RunSpec(Initial, ticks).1)) % 255
  {
    RunCounter(Initial, ticks);
    PackageNumAfterMod(0, 20 * Sent(RunSpec(Initial, ticks).1));
  }

  /** Carrying the sequence-byte statement of a run over one more iteration
      in front. */
  lemma {:induction false} SequenceBytesCons(n: nat, n1: nat, out: Option<Outbound>, rest: seq<Option<Outbound>>, i: nat, j: nat)
    requires n < 255 && n1 == PackageNumAfter(n, if out.Some? then 20 else 0)
    requires 0 < i <= |rest| && rest[i - 1].Some? && |rest[i - 1].value.payload| == 1440 && j < 20
    requires rest[i - 1].value.payload[72 * j] == PackageNumAfter(n1, 20 * Sent(rest[..i - 1]) + j)
    ensures ([out] + rest)[i].value.payload[72 * j] == PackageNumAfter(n, 20 * Sent(([out] + rest)[..i]) + j)
  {
    var outs := [out] + rest;
    assert outs[..i][1..] == rest[..i - 1];
    CounterAcrossBatches(n, n1, if out.Some? then 1 else 0, Sent(rest[..i - 1]), j);
  }

  /** The sequence bytes of everything sent in a run continue one another:
      packet `j` of the batch sent in iteration `i` carries the counter after
      all packets of the earlier batches and the `j` before it in its own. */
  lemma {:induction false} RunSequenceBytes(e: Emu, ticks: seq<Tick>, i: nat, j: nat)
    requires e.packageNum < 255 && ValidTicks(ticks)
    requires i < |ticks| && RunSpec(e, ticks).1[i].Some? && j < 20
    ensures |RunSpec(e, ticks).1[i].value.payload| == 1440
    ensures RunSpec(e, ticks).1[i].value.payload[72 * j]
         == PackageNumAfter(e.packageNum, 20 * Sent(RunSpec(e, ticks).1[..i]) + j)
    decreases i
  {
    RunUnfold(e, ticks);
    var (e1, out) := StepSpec(e, ticks[0]);
    if i == 0 {
      StepSequenceBytes(e, ticks[0], j);
      assert RunSpec(e, ticks).1[..i] == [];
    } else {
      RunSequenceBytes(e1, ticks[1..], i - 1, j);
      StepCounter(e, ticks[0]);
      SequenceBytesCons(e.packageNum, e1.packageNum, out, RunSpec(e1, ticks[1..]).1, i, j);
    }
  }

  /** The sequence bytes continue across datagrams too: when iteration `i2`
      is the next after `i` to send, its first packet carries one more,
      modulo 255, than the last packet sent by `i`, and no sequence byte sent
      is 255. */
  lemma {:induction false} SequenceBytesAcrossBatches(e: Emu, ticks: seq<Tick>, i: nat, i2: nat)
    requires e.packageNum < 255 && ValidTicks(ticks)
    requires i < i2 < |ticks|
    requires RunSpec(e, ticks).1[i].Some? && RunSpec(e, ticks).1[i2].Some?
    requires forall m :: i < m < i2 ==> RunSpec(e, ticks).1[m].None?
    ensures |RunSpec(e, ticks).1[i].value.payload| == 1440
    ensures |RunSpec(e, ticks).1[i2].value.payload| == 1440
    ensures RunSpec(e, ticks).1[i].value.payload[72 * 19] < 255
    ensures RunSpec(e, ticks).1[i2].value.payload[0]
         == (RunSpec(e, ticks).1[i].value.payload[72 * 19] + 1) % 255
  {
    RunSequenceBytes(e, ticks, i, 19);
    RunSequenceBytes(e, ticks, i2, 0);
    CounterAcrossGap(e.packageNum, RunSpec(e, ticks).1, i, i2);
  }

  /** The counter for the first packet of the next batch sent follows the one
      for the last packet of the batch before it. */
  lemma {:induction false} CounterAcrossGap(n: nat, outs: seq<Option<Outbound>>, i: nat, i2: nat)
    requires n < 255 && i < i2 < |outs| && outs[i].Some? && outs[i2].Some?
    requires forall m :: i < m < i2 ==> outs[m].None?
    requires |outs[i].value.payload| == 1440 && |outs[i2].value.payload| == 1440
    requires outs[i].value.payload[72 * 19] == PackageNumAfter(n, 20 * Sent(outs[..i]) + 19)
    requires outs[i2].value.payload[72 * 0] == PackageNumAfter(n, 20 * Sent(outs[..i2]) + 0)
    ensures outs[i].value.payload[72 * 19] < 255
    ensures outs[i2].value.payload[0] == (outs[i].value.payload[72 * 19] + 1) % 255
  {
    SentGap(outs, i, i2);
    var s := Sent(outs[..i]);
    PackageNumAfterSucc(n, 20 * s + 19);
    assert 20 * Sent(outs[..i2]) + 0 == (20 * s + 19) + 1;
    NextPackageNumRule(PackageNumAfter(n, 20 * s + 19));
  }

  /** Counting the batches in front of the next one sent after iteration `i`
      counts one more than in front of `i`. */
  lemma {:induction false} SentGap(outs: seq<Option<Outbound>>, i: nat, i2: nat)
    requires i < i2 <= |outs| && outs[i].Some?
    requires forall m :: i < m < i2 ==> outs[m].None?
    ensures Sent(outs[..i2]) == Sent(outs[..i]) + 1
  {
    SentSplit(outs[..i2], i);
    assert outs[..i2][..i] == outs[..i];
    var gap := outs[..i2][i..];
    assert gap[0] == outs[i];
    SentNone(gap[1..]);
    assert forall m :: 0 <= m < |gap[1..]| ==> gap[1..][m] == outs[i + 1 + m];
  }

  /** Counting the batches of a split sequence adds the two counts. */
  lemma {:induction false} SentSplit(outs: seq<Option<Outbound>>, i: nat)
    requires i <= |outs|
    ensures Sent(outs) == Sent(outs[..i]) + Sent(outs[i..])
    decreases i
  {
    if i > 0 {
      SentSplit(outs[1..], i - 1);
      assert outs[..i][1..] == outs[1..][..i - 1];
      assert outs[i..] == outs[1..][i - 1..];
    }
  }

  /** A sequence of iterations that sent nothing counts no batches. */
  lemma {:induction false} SentNone(outs: seq<Option<Outbound>>)
    requires forall m :: 0 <= m < |outs| ==> outs[m].None?
    ensures Sent(outs) == 0
    decreases |outs|
  {
    if outs != [] {
      SentNone(outs[1..]);
    }
  }

  /** A streaming emulator that hears nothing sends a batch every iteration. */
  lemma {:induction false} StreamsThroughTimeouts(e: Emu, ticks: seq<Tick>)
    requires e.packageNum < 255 && ValidTicks(ticks) && e.state == Stream
    requires forall k :: 0 <= k < |ticks| ==> ticks[k].received.None?
    ensures forall i :: 0 <= i < |ticks| ==> RunSpec(e, ticks).1[i].Some?
    decreases |ticks|
  {
    if ticks != [] {
      RunUnfold(e, ticks);
      var (e1, out) := StepSpec(e, ticks[0]);
      StreamsThroughTimeouts(e1, ticks[1..]);
      var outs := RunSpec(e, ticks).1;
      forall i | 0 <= i < |ticks| ensures outs[i].Some? {
        if i > 0 { assert outs[i] == RunSpec(e1, ticks[1..]).1[i - 1]; }
      }
    }
  }

  /** When every iteration sent, the count of batches is the count of iterations. */
  lemma {:induction false} SentAll(outs: seq<Option<Outbound>>)
    requires forall i :: 0 <= i < |outs| ==> outs[i].Some?
    ensures Sent(outs) == |outs|
    decreases |outs|
  {
    if outs != [] {
      SentAll(outs[1..]);
    }
  }

  /** From the initial fields, a start command followed by nothing but receive
      timeouts yields one batch per iteration, and packet `j` of the batch of
      iteration `i` carries the sequence byte `(20*i + j) mod 255`: the first
      batch starts at 0, the third at 40, and the counter wraps from 254 to 0. */
  lemma {:induction false} StartThenTimeouts(ticks: seq<Tick>, i: nat, j: nat)
    requires ValidTicks(ticks) && i < |ticks| && j < 20
    requires ticks[0].received.Some? && ticks[0].received.value.msg == MessageBytes(StartStream)
    requires forall k :: 0 < k < |ticks| ==> ticks[k].received.None?
    ensures RunSpec(Initial, ticks).1[i].Some?
    ensures |RunSpec(Initial, ticks).1[i].value.payload| == 1440
    ensures RunSpec(Initial, ticks).1[i].value.payload[72 * j] == (20 * i + j) % 255
  {
    RunUnfold(Initial, ticks);
    var (e1, out) := StepSpec(Initial, ticks[0]);
    var tail := ticks[1..];
    forall k | 0 <= k < |tail| ensures tail[k].received.None? {
      assert tail[k] == ticks[k + 1];
    }
    StreamsThroughTimeouts(e1, tail);
    var outs := RunSpec(Initial, ticks).1;
    forall k | 0 <= k < |ticks| ensures outs[k].Some? {
      if k > 0 { assert outs[k] == RunSpec(e1, tail).1[k - 1]; }
    }
    SentAll(outs[..i]);
    RunSequenceBytes(Initial, ticks, i, j);
    PackageNumAfterMod(0, 20 * i + j);
  }

  /** Once a peer is known it is never forgotten. */
  lemma {:induction false} AddrNeverCleared(e: Emu, ticks: seq<Tick>)
    requires e.packageNum < 255 && ValidTicks(ticks) && e.addr.Some?
    ensures RunSpec(e, ticks).0.addr.Some?
    decreases |ticks|
  {
    if ticks != [] {
      AddrNeverCleared(StepSpec(e, ticks[0]).0, ticks[1..]);
    }
  }

  /** After a run the peer is the sender of the last datagram received,
      recognised or not. */
  lemma {:induction false} AddrIsLatestSender(e: Emu, ticks: seq<Tick>, i: nat)
    requires e.packageNum < 255 && ValidTicks(ticks)
    requires i < |ticks| && ticks[i].received.Some?
    requires forall k :: i < k < |ticks| ==> ticks[k].received.None?
    ensures RunSpec(e, ticks).0.addr == Some(ticks[i].received.value.sender)
    decreases |ticks|
  {
    var e1 := StepSpec(e, ticks[0]).0;
    if i == 0 {
      KeepsAddrOnTimeouts(e1, ticks[1..]);
    } else {
      AddrIsLatestSender(e1, ticks[1..], i - 1);
    }
  }

  /** A run of receive timeouts leaves both the state and the peer alone. */
  lemma {:induction false} KeepsAddrOnTimeouts(e: Emu, ticks: seq<Tick>)
    requires e.packageNum < 255 && ValidTicks(ticks)
    requires forall k :: 0 <= k < |ticks| ==> ticks[k].received.None?
    ensures RunSpec(e, ticks).0.addr == e.addr
    ensures RunSpec(e, ticks).0.state == e.state
    decreases |ticks|
  {
    if ticks != [] {
      KeepsAddrOnTimeouts(StepSpec(e, ticks[0]).0, ticks[1..]);
    }
  }

  /** Streaming implies a known peer: `state` only becomes `stream` on a
      received datagram, which also sets `addr`. */
  predicate PeerKnownWhenStreaming(e: Emu) {
    e.state == Stream ==> e.addr.Some?
  }

  /** A run that starts with the peer invariant keeps it, and every batch it
      sends has a destination, so `sendto` is never handed `None`. */
  lemma {:induction false} NeverSendsWithoutPeer(e: Emu, ticks: seq<Tick>)
    requires e.packageNum < 255 && ValidTicks(ticks) && PeerKnownWhenStreaming(e)
    ensures PeerKnownWhenStreaming(RunSpec(e, ticks).0)
    ensures forall i :: 0 <= i < |ticks| && RunSpec(e, ticks).1[i].Some? ==>
              RunSpec(e, ticks).1[i].value.dest.Some?
    decreases |ticks|
  {
    if ticks != [] {
      RunUnfold(e, ticks);
      var (e1, out) := StepSpec(e, ticks[0]);
      NeverSendsWithoutPeer(e1, ticks[1..]);
      var outs := RunSpec(e, ticks).1;
      forall i | 0 <= i < |ticks| && outs[i].Some? ensures outs[i].value.dest.Some? {
        if i > 0 { assert outs[i] == RunSpec(e1, ticks[1..]).1[i - 1]; }
      }
    }
  }

  /** From the initial fields no batch is ever addressed to an unknown peer. */
  lemma {:induction false} InitialNeverSendsWithoutPeer(ticks: seq<Tick>)
    requires ValidTicks(ticks)
    ensures forall i :: 0 <= i < |ticks| && RunSpec(Initial, ticks).1[i].Some? ==>
              RunSpec(Initial, ticks).1[i].value.dest.Some?
  {
    NeverSendsWithoutPeer(Initial, ticks);
  }

  // ---------------------------------------------------------------------------
  // The emulator object

  /** `NovaXREmulator`: the fields the receive loop updates in place. */
  class NovaXREmulator {
    var state: State
    var addr: Option<Address>
    var packageNum: nat

    /** The counter stays within 0..254, and a streaming emulator knows its
        peer. */
    ghost predicate Valid()
      reads this
    {
      packageNum < 255 && PeerKnownWhenStreaming(Snapshot())
    }

    ghost function Snapshot(): Emu
      reads this
    {
      Emu(state, addr, packageNum)
    }

    /** `__init__`: idle, no peer, counter 0. */
    constructor ()
      ensures Valid()
      ensures state == Wait && addr == None && packageNum == 0
      ensures Snapshot() == Initial
    {
      state := Wait;
      addr := None;
      packageNum := 0;
    }

    /** One iteration of `run`: handle the received datagram (or timeout),
        then, if streaming, build the batch and return it for sending. */
    method Step(t: Tick) returns (sent: Option<Outbound>)
      requires Valid() && ValidTick(t)
      modifies this
      ensures Valid()
      ensures (Snapshot(), sent) == StepSpec(old(Snapshot()), t)
      ensures sent.Some? ==> sent.value.dest.Some?
    {
      if t.received.Some? {
        var msg := t.received.value.msg;
        addr := Some(t.received.value.sender);
        if msg == MessageBytes(StartStream) {
          state := Stream;
        } else if msg == MessageBytes(StopStream) {
          state := Wait;
        }
      }
      sent := None;
      if state == Stream {
        var package := BuildBatch(t.randoms, t.stamps);
        sent := Some(Outbound(package, addr));
      }
    }

    /** The batch loop: twenty packets appended one after another, the
        counter advancing once per packet. */
    method BuildBatch(randoms: seq<seq<Byte>>, stamps: seq<seq<Byte>>) returns (package: seq<Byte>)
      requires Valid() && |randoms| == 20 && Supply(randoms, stamps)
      modifies this`packageNum
      ensures Valid()
      ensures package == Batch(old(packageNum), randoms, stamps)
      ensures packageNum == PackageNumAfter(old(packageNum), 20)
    {
      package := [];
      for j := 0 to 20
        invariant packageNum == PackageNumAfter(old(packageNum), j)
        invariant package == Batch(old(packageNum), randoms[..j], stamps[..j])
      {
        BatchSnoc(old(packageNum), randoms[..j], stamps[..j], randoms[j], stamps[j]);
        PackageNumAfterSucc(old(packageNum), j);
        package := AppendPacket(package, randoms[j], stamps[j]);
        assert randoms[..j + 1] == randoms[..j] + [randoms[j]];
        assert stamps[..j + 1] == stamps[..j] + [stamps[j]];
      }
      assert randoms[..20] == randoms && stamps[..20] == stamps;
    }

    /** One packet of the batch loop: the sequence byte, the counter's
        increment and reset, the 63 random bytes, the timestamp. */
    method AppendPacket(package: seq<Byte>, random: seq<Byte>, stamp: seq<Byte>)
      returns (extended: seq<Byte>)
      requires Valid() && |random| == 63 && |stamp| == 8
      modifies this`packageNum
      ensures Valid()
      ensures extended == package + Packet(old(packageNum), random, stamp)
      ensures packageNum == NextPackageNum(old(packageNum))
    {
      NextPackageNumRule(packageNum);
      extended := package + [packageNum];
      packageNum := packageNum + 1;
      if packageNum % 255 == 0 {
        packageNum := 0;
      }
      ghost var header := extended;
      for i := 1 to 64
        invariant extended == header + random[..i - 1]
      {
        extended := extended + [random[i - 1]];
      }
      extended := extended + stamp;
      assert random[..63] == random;
    }

    /** `run` for as many iterations as there are ticks (the shutdown flag is
        cleared after the last one); returns what each iteration sent. */
    method Run(ticks: seq<Tick>) returns (sent: seq<Option<Outbound>>)
      requires Valid() && ValidTicks(ticks)
      modifies this
      ensures Valid()
      ensures (Snapshot(), sent) == RunSpec(old(Snapshot()), ticks)
    {
      sent := [];
      var k := 0;
      assert ticks[k..] == ticks && sent + RunSpec(Snapshot(), ticks).1 == RunSpec(Snapshot(), ticks).1;
      while k < |ticks|
        invariant 0 <= k <= |ticks| && Valid()
        invariant RunSpec(old(Snapshot()), ticks)
               == (RunSpec(Snapshot(), ticks[k..]).0, sent + RunSpec(Snapshot(), ticks[k..]).1)
      {
        ghost var before := Snapshot();
        var out := Step(ticks[k]);
        RunUnfold(before, ticks[k..]);
        assert ticks[k..][1..] == ticks[k + 1..];
        assert sent + RunSpec(before, ticks[k..]).1 == (sent + [out]) + RunSpec(Snapshot(), ticks[k + 1..]).1;
        sent := sent + [out];
        k := k + 1;
      }
      assert sent + RunSpec(Snapshot(), ticks[k..]).1 == sent;
    }
  }
}
