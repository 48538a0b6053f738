/** Segmentation and reassembly: the wire packets, the sender and the receiver.
    Each party is a state with one function per atomic step, and remembers what it has
    written; `Send` and `Receive` are the two loops, proved to be exactly the folds of
    those steps. */
module Sar {
  import opened Bytes

  type Packet = seq<byte>

  const FIN_PACKET: Packet := [4, 0]

  predicate IsLast(flags: byte) { flags / 2 % 2 == 1 }
  predicate IsFin(flags: byte) { flags / 4 % 2 == 1 }

  // ----- fragments

  /** `data` cut into pieces of `frag` bytes; empty data is one empty piece. */
  function Fragments(data: seq<byte>, frag: nat): (fs: seq<seq<byte>>)
    requires frag > 0
    ensures |fs| >= 1
    ensures Concat(fs) == data
    ensures forall i :: 0 <= i < |fs| ==> |fs[i]| <= frag && (i < |fs| - 1 ==> |fs[i]| == frag)
  {
    if |data| <= frag then
      assert Concat([data]) == data + Concat([]);
      [data]
    else
      [data[..frag]] + Fragments(data[frag..], frag)
  }

  /** The number of fragments, as the caller can compute it from the length of the data. */
  lemma {:induction false} FragmentCount(data: seq<byte>, frag: nat, k: nat)
    requires frag > 0 && k > 0
    ensures |Fragments(data, frag)| <= k <==> |data| <= k * frag
  {
    TimesLess(k, frag);
    if |data| > frag && k > 1 {
      FragmentCount(data[frag..], frag, k - 1);
    }
  }

  lemma TimesLess(k: nat, frag: nat)
    requires k > 0
    ensures k * frag == (k - 1) * frag + frag && (k - 1) * frag >= 0
  {
  }

  function DataPacket(frags: seq<seq<byte>>, idx: nat): (p: Packet)
    requires idx < |frags| && idx < 256
    ensures |p| >= 2 && !IsFin(p[0]) && (IsLast(p[0]) <==> idx == |frags| - 1)
    ensures p[1] == idx && p[2..] == frags[idx]
  {
    [(if idx == 0 then 1 else 0) + (if idx == |frags| - 1 then 2 else 0), idx] + frags[idx]
  }

  /** The first `k` data packets. */
  function Packets(frags: seq<seq<byte>>, k: nat): (ps: seq<Packet>)
    requires k <= |frags| <= 256
    ensures |ps| == k && forall i :: 0 <= i < k ==> ps[i] == DataPacket(frags, i)
  {
    if k == 0 then [] else Packets(frags, k - 1) + [DataPacket(frags, k - 1)]
  }

  // ----- sender

  datatype SenderPhase = AwaitAck | Burst(target: byte) | Sent | SendFailed

  /** `next` is the 8-bit sequence number; `out` is everything written so far. */
  datatype Sender = Sender(next: byte, sentLast: bool, phase: SenderPhase, out: seq<Packet>)

  const NEW_SENDER := Sender(0, false, AwaitAck, [])

  /** Handling one ack up to, and not including, the writes it allows. */
  function TakeAck(s: Sender, ack: Packet): Sender
    requires s.phase.AwaitAck?
  {
    if |ack| != 3 || ack[0] != 0 then
      s.(phase := SendFailed)
    else if s.sentLast then
      if ack[1] == Low8(s.next - 1) then s.(phase := Sent, out := s.out + [FIN_PACKET]) else s
    else
      s.(phase := Burst(Low8(ack[1] as int + ack[2] + 1)))
  }

  /** The next fragment to write exists. */
  predicate Indexable(frags: seq<seq<byte>>, s: Sender) {
    !s.sentLast ==> s.next < |frags|
  }

  /** One turn of the inner loop: write one fragment, or leave the loop. */
  function Write(frags: seq<seq<byte>>, s: Sender): (s': Sender)
    requires s.phase.Burst? && Indexable(frags, s)
    ensures Indexable(frags, s')
    ensures s'.phase.Burst? ==> Distance(s') < Distance(s)
  {
    if s.next == s.phase.target || s.sentLast then
      s.(phase := AwaitAck)
    else
      Sender(Low8(s.next + 1), s.next == |frags| - 1, s.phase, s.out + [DataPacket(frags, s.next)])
  }

  /** Writes still allowed before the 8-bit number meets the target. */
  function Distance(s: Sender): nat
    requires s.phase.Burst?
  {
    Low8(s.phase.target - s.next)
  }

  function Drain(frags: seq<seq<byte>>, s: Sender): (s': Sender)
    requires Indexable(frags, s)
    ensures Indexable(frags, s') && !s'.phase.Burst?
    decreases if s.phase.Burst? then 1 + Distance(s) else 0
  {
    if s.phase.Burst? then Drain(frags, Write(frags, s)) else s
  }

  /** The whole of `send`, given the acks that arrive before the timeout. */
  function SendRun(frags: seq<seq<byte>>, s: Sender, acks: seq<Packet>): Sender
    requires Indexable(frags, s)
    decreases |acks|
  {
    if !s.phase.AwaitAck? then s
    else if acks == [] then s.(phase := SendFailed)
    else SendRun(frags, Drain(frags, TakeAck(s, acks[0])), acks[1..])
  }

  /** How many fragments have been written, when no 8-bit number was used twice. */
  function SentCount(frags: seq<seq<byte>>, s: Sender): nat {
    if s.sentLast then |frags| else s.next
  }

  /** With at most 256 fragments: each data packet was written at most once and in order,
      and FIN exactly on normal return, after all of them. */
  predicate InOrder(frags: seq<seq<byte>>, s: Sender) {
    && 1 <= |frags| <= 256
    && s.next == Low8(SentCount(frags, s))
    && (!s.sentLast ==> s.next < |frags|)
    && (s.phase.Sent? ==> s.sentLast)
    && s.out == Packets(frags, SentCount(frags, s)) + (if s.phase.Sent? then [FIN_PACKET] else [])
  }

  lemma TakeAckInOrder(frags: seq<seq<byte>>, s: Sender, ack: Packet)
    requires InOrder(frags, s) && s.phase.AwaitAck?
    ensures InOrder(frags, TakeAck(s, ack))
  {
  }

  lemma WriteInOrder(frags: seq<seq<byte>>, s: Sender)
    requires InOrder(frags, s) && s.phase.Burst?
    ensures InOrder(frags, Write(frags, s))
    ensures s.out <= Write(frags, s).out
  {
  }

  lemma {:induction false} DrainInOrder(frags: seq<seq<byte>>, s: Sender)
    requires InOrder(frags, s)
    ensures InOrder(frags, Drain(frags, s))
    decreases if s.phase.Burst? then 1 + Distance(s) else 0
  {
    if s.phase.Burst? {
      WriteInOrder(frags, s);
      DrainInOrder(frags, Write(frags, s));
    }
  }

  lemma {:induction false} SendInOrder(frags: seq<seq<byte>>, s: Sender, acks: seq<Packet>)
    requires InOrder(frags, s)
    ensures InOrder(frags, SendRun(frags, s, acks))
    decreases |acks|
  {
    if s.phase.AwaitAck? && acks != [] {
      var t := TakeAck(s, acks[0]);
      DrainInOrder(frags, t);
      SendInOrder(frags, Drain(frags, t), acks[1..]);
    }
  }

  /** A data packet on the wire: FIRST is bit 0, on number 0; LAST is bit 1, on the last number; no
      other bit is set; then the number and the fragment. */
  predicate IsDataPacket(frags: seq<seq<byte>>, p: Packet) {
    && |p| >= 2 && p[1] < |frags| && p[2..] == frags[p[1]]
    && p[0] == (if p[1] == 0 then 1 else 0) + (if p[1] == |frags| - 1 then 2 else 0)
  }

  /** Everything written is a data packet, but for the closing one of a normal return. */
  predicate OnWire(frags: seq<seq<byte>>, out: seq<Packet>, closed: bool) {
    && (closed ==> out != [])
    && forall i :: 0 <= i < |out| ==>
         if closed && i == |out| - 1 then out[i] == [4, 0] else IsDataPacket(frags, out[i])
  }

  lemma {:induction false} DrainOnWire(frags: seq<seq<byte>>, s: Sender)
    requires Indexable(frags, s) && !s.phase.Sent? && OnWire(frags, s.out, false)
    ensures var t := Drain(frags, s); !t.phase.Sent? && OnWire(frags, t.out, false)
    decreases if s.phase.Burst? then 1 + Distance(s) else 0
  {
    if s.phase.Burst? {
      DrainOnWire(frags, Write(frags, s));
    }
  }

  /** Whatever acks arrive, and however many fragments there are. */
  lemma {:induction false} SendOnWire(frags: seq<seq<byte>>, s: Sender, acks: seq<Packet>)
    requires Indexable(frags, s) && OnWire(frags, s.out, s.phase.Sent?)
    ensures var t := SendRun(frags, s, acks); OnWire(frags, t.out, t.phase.Sent?)
    decreases |acks|
  {
    if s.phase.AwaitAck? && acks != [] {
      var t := TakeAck(s, acks[0]);
      if !t.phase.Sent? {
        DrainOnWire(frags, t);
      }
      SendOnWire(frags, Drain(frags, t), acks[1..]);
    }
  }

  /** With more than 256 fragments the LAST fragment is never reached. */
  predicate NeverLast(frags: seq<seq<byte>>, s: Sender) {
    && |frags| > 256 && !s.sentLast && !s.phase.Sent?
    && forall p :: p in s.out ==> |p| >= 2 && !IsFin(p[0]) && !IsLast(p[0])
  }

  lemma {:induction false} DrainNeverLast(frags: seq<seq<byte>>, s: Sender)
    requires NeverLast(frags, s)
    ensures NeverLast(frags, Drain(frags, s))
    decreases if s.phase.Burst? then 1 + Distance(s) else 0
  {
    if s.phase.Burst? {
      DrainNeverLast(frags, Write(frags, s));
    }
  }

  lemma {:induction false} SendNeverLast(frags: seq<seq<byte>>, s: Sender, acks: seq<Packet>)
    requires NeverLast(frags, s)
    ensures NeverLast(frags, SendRun(frags, s, acks))
    decreases |acks|
  {
    if s.phase.AwaitAck? && acks != [] {
      var t := TakeAck(s, acks[0]);
      DrainNeverLast(frags, t);
      SendNeverLast(frags, Drain(frags, t), acks[1..]);
    }
  }

  /** `send`: `acks` are the ack packets that arrive, in order, before the wait times out. */
  method Send(data: seq<byte>, maxlen: nat, acks: seq<Packet>) returns (out: seq<Packet>, ok: bool)
    requires maxlen > 2
    ensures var s := SendRun(Fragments(data, maxlen - 2), NEW_SENDER, acks);
      out == s.out && (ok <==> s.phase.Sent?)
    ensures var frags := Fragments(data, maxlen - 2);
      |frags| <= 256 && ok ==> out == Packets(frags, |frags|) + [FIN_PACKET]
    ensures |data| > 256 * (maxlen - 2) ==> !ok
    ensures OnWire(Fragments(data, maxlen - 2), out, ok)
  {
    var frags := Fragments(data, maxlen - 2);
    FragmentCount(data, maxlen - 2, 256);
    if |frags| <= 256 {
      SendInOrder(frags, NEW_SENDER, acks);
    } else {
      SendNeverLast(frags, NEW_SENDER, acks);
    }
    SendOnWire(frags, NEW_SENDER, acks);
    out, ok := SendLoop(frags, acks);
  }

  method SendLoop(frags: seq<seq<byte>>, acks: seq<Packet>) returns (out: seq<Packet>, ok: bool)
    requires |frags| >= 1
    ensures var s := SendRun(frags, NEW_SENDER, acks); out == s.out && (ok <==> s.phase.Sent?)
  {
    var next: byte, sentLast, i := 0, false, 0;
    out, ok := [], false;
    ghost var s := NEW_SENDER;
    while i < |acks|
      invariant 0 <= i <= |acks| && !ok
      invariant s == Sender(next, sentLast, AwaitAck, out) && Indexable(frags, s)
      invariant SendRun(frags, s, acks[i..]) == SendRun(frags, NEW_SENDER, acks)
    {
      var ack := acks[i];
      assert acks[i..][0] == ack && acks[i..][1..] == acks[i + 1..];
      i := i + 1;
      if |ack| != 3 || ack[0] != 0 {
        return;
      }
      var target := Low8(ack[1] as int + ack[2] + 1);
      if sentLast {
        if ack[1] == Low8(next - 1) {
          return out + [FIN_PACKET], true;
        }
        continue;
      }
      ghost var burst := s.(phase := Burst(target));
      next, sentLast, out := WriteBurst(frags, next, target, out);
      s := Drain(frags, burst);
    }
  }

  /** The inner loop of `send`. */
  method WriteBurst(frags: seq<seq<byte>>, start: byte, target: byte, out0: seq<Packet>)
    returns (next: byte, sentLast: bool, out: seq<Packet>)
    requires start < |frags|
    ensures Sender(next, sentLast, AwaitAck, out) == Drain(frags, Sender(start, false, Burst(target), out0))
  {
    next, sentLast, out := start, false, out0;
    ghost var s := Sender(next, sentLast, Burst(target), out);
    ghost var end := Drain(frags, s);
    while next != target && !sentLast
      invariant s == Sender(next, sentLast, Burst(target), out) && Indexable(frags, s)
      invariant Drain(frags, s) == end
      decreases Distance(s)
    {
      s := Write(frags, s);
      out := out + [DataPacket(frags, next)];
      sentLast := next == |frags| - 1;
      next := Low8(next as int + 1);
    }
  }

  // ----- receiver

  datatype ReceiveError = ShortPacket | FinBeforeLast | FinCode | FragmentAfterLast | Deadline

  datatype ReceiverPhase = Listening | Returned(blob: seq<byte>) | ReceiveFailed(error: ReceiveError)

  /** `last` is the last in-order sequence number, 0xFF before any; `acks` is everything written so far. */
  datatype Receiver = Receiver(chunks: seq<seq<byte>>, expected: byte, last: byte, ended: bool,
                               phase: ReceiverPhase, acks: seq<Packet>)

  function Ack(last: byte, window: byte): Packet { [0, last, window] }

  function NewReceiver(window: byte): Receiver { Receiver([], 0, 255, false, Listening, [Ack(255, window)]) }

  /** An expired re-ack interval. */
  function Reack(r: Receiver, window: byte): Receiver {
    r.(acks := r.acks + [Ack(r.last, window)])
  }

  /** Handling one packet. */
  function TakePacket(r: Receiver, window: byte, p: Packet): Receiver
    requires r.phase.Listening?
  {
    if |p| < 2 then
      r.(phase := ReceiveFailed(ShortPacket))
    else if IsFin(p[0]) then
      r.(phase := if !r.ended then ReceiveFailed(FinBeforeLast)
                  else if p[1] == 0 then Returned(Concat(r.chunks))
                  else ReceiveFailed(FinCode))
    else if p[1] != r.expected then
      Reack(r, window)
    else if r.ended then
      r.(phase := ReceiveFailed(FragmentAfterLast))
    else
      Receiver(r.chunks + [p[2..]], Low8(p[1] as int + 1), p[1], IsLast(p[0]), Listening,
               r.acks + [Ack(p[1], window)])
  }

  /** The loop of `receive`: an arrival, or `None` for an expired re-ack interval. */
  function ReceiveRun(r: Receiver, window: byte, arrivals: seq<Option<Packet>>): Receiver
    decreases |arrivals|
  {
    if !r.phase.Listening? then r
    else if arrivals == [] then r.(phase := ReceiveFailed(Deadline))
    else
      var r' := if arrivals[0].None? then Reack(r, window) else TakePacket(r, window, arrivals[0].value);
      ReceiveRun(r', window, arrivals[1..])
  }

  /** `receive`: what arrives before the deadline, in order. */
  method Receive(window: byte, arrivals: seq<Option<Packet>>) returns (acks: seq<Packet>, result: ReceiverPhase)
    requires 1 <= window <= 127
    ensures var r := ReceiveRun(NewReceiver(window), window, arrivals); acks == r.acks && result == r.phase
  {
    var chunks: seq<seq<byte>>, expected: byte, last: byte, ended := [], 0, 255, false;
    acks := [Ack(last, window)];
    var i := 0;
    ghost var r := NewReceiver(window);
    while i < |arrivals|
      invariant 0 <= i <= |arrivals|
      invariant r == Receiver(chunks, expected, last, ended, Listening, acks)
      invariant ReceiveRun(r, window, arrivals[i..]) == ReceiveRun(NewReceiver(window), window, arrivals)
    {
      assert arrivals[i..][0] == arrivals[i] && arrivals[i..][1..] == arrivals[i + 1..];
      var arrival := arrivals[i];
      i := i + 1;
      if arrival.None? {
        acks := acks + [Ack(last, window)];
        r := Reack(r, window);
        continue;
      }
      var p := arrival.value;
      r := TakePacket(r, window, p);
      if |p| < 2 {
        return acks, ReceiveFailed(ShortPacket);
      }
      if IsFin(p[0]) {
        if !ended {
          return acks, ReceiveFailed(FinBeforeLast);
        }
        if p[1] == 0 {
          return acks, Returned(Concat(chunks));
        }
        return acks, ReceiveFailed(FinCode);
      }
      if p[1] != expected {
        acks := acks + [Ack(last, window)];
        continue;
      }
      if ended {
        return acks, ReceiveFailed(FragmentAfterLast);
      }
      chunks, last, expected := chunks + [p[2..]], p[1], Low8(p[1] as int + 1);
      if IsLast(p[0]) {
        ended := true;
      }
      acks := acks + [Ack(last, window)];
    }
    result := ReceiveFailed(Deadline);
  }
}
