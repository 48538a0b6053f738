/** One sender and one receiver over channels that lose, duplicate and reorder packets both
    ways: anything a party has ever written may reach the other side at any time, any number
    of times, or never. An event that is not enabled changes nothing, so every sequence of
    events is a run. */
module SarNet {
  import opened Bytes
  import opened Sar

  datatype Net = Net(s: Sender, r: Receiver)

  datatype Event =
    | AckArrives(ack: Packet)
    | SenderWrites
    | SenderGivesUp
    | PacketArrives(packet: Packet)
    | ReackTimer
    | ReceiverGivesUp

  predicate Enabled(frags: seq<seq<byte>>, c: Net, e: Event) {
    match e
    case AckArrives(ack) => c.s.phase.AwaitAck? && ack in c.r.acks
    case SenderWrites => c.s.phase.Burst? && Indexable(frags, c.s)
    case SenderGivesUp => c.s.phase.AwaitAck? || c.s.phase.Burst?
    case PacketArrives(p) => c.r.phase.Listening? && p in c.s.out
    case ReackTimer => c.r.phase.Listening?
    case ReceiverGivesUp => c.r.phase.Listening?
  }

  function Step(frags: seq<seq<byte>>, window: byte, c: Net, e: Event): Net {
    if !Enabled(frags, c, e) then c else
    match e
    case AckArrives(ack) => c.(s := TakeAck(c.s, ack))
    case SenderWrites => c.(s := Write(frags, c.s))
    case SenderGivesUp => c.(s := c.s.(phase := SendFailed))
    case PacketArrives(p) => c.(r := TakePacket(c.r, window, p))
    case ReackTimer => c.(r := Reack(c.r, window))
    case ReceiverGivesUp => c.(r := c.r.(phase := ReceiveFailed(Deadline)))
  }

  function Start(window: byte): Net { Net(NEW_SENDER, NewReceiver(window)) }

  /** The state after a run from `c`. */
  function Run(frags: seq<seq<byte>>, window: byte, c: Net, es: seq<Event>): Net {
    if es == [] then c else Step(frags, window, Run(frags, window, c, es[..|es| - 1]), es[|es| - 1])
  }

  // ----- at most 256 fragments: what is on the wire and what has been accepted

  /** The receiver holds a prefix of the fragments, and its counters say which. */
  predicate Prefix(frags: seq<seq<byte>>, r: Receiver) {
    && |frags| <= 256
    && r.chunks <= frags
    && r.expected == Low8(|r.chunks|)
    && r.last == Low8(|r.chunks| - 1)
    && (r.ended <==> r.chunks == frags)
    && (r.phase.Returned? ==> r.ended && r.phase.blob == Concat(frags))
  }

  predicate Inv(frags: seq<seq<byte>>, c: Net) {
    InOrder(frags, c.s) && Prefix(frags, c.r)
  }

  lemma TakePacketPrefix(frags: seq<seq<byte>>, window: byte, c: Net, p: Packet)
    requires Inv(frags, c) && c.r.phase.Listening? && p in c.s.out
    ensures Prefix(frags, TakePacket(c.r, window, p))
  {
    var r := c.r;
    if p != FIN_PACKET && p[1] == r.expected && !r.ended {
      assert p == DataPacket(frags, p[1]);
      assert p[1] == |r.chunks|;
      assert r.chunks + [p[2..]] == frags[..|r.chunks| + 1];
    }
  }

  lemma StepInv(frags: seq<seq<byte>>, window: byte, c: Net, e: Event)
    requires Inv(frags, c)
    ensures Inv(frags, Step(frags, window, c, e))
  {
    if Enabled(frags, c, e) {
      match e {
        case AckArrives(ack) => TakeAckInOrder(frags, c.s, ack);
        case SenderWrites => WriteInOrder(frags, c.s);
        case PacketArrives(p) => TakePacketPrefix(frags, window, c, p);
        case _ =>
      }
    }
  }

  lemma {:induction false} RunInv(frags: seq<seq<byte>>, window: byte, es: seq<Event>)
    requires 1 <= |frags| <= 256
    ensures Inv(frags, Run(frags, window, Start(window), es))
  {
    if es == [] {
      assert Packets(frags, 0) == [];
    } else {
      RunInv(frags, window, es[..|es| - 1]);
      StepInv(frags, window, Run(frags, window, Start(window), es[..|es| - 1]), es[|es| - 1]);
    }
  }

  // ----- more than 256 fragments: LAST and FIN never appear

  predicate Endless(frags: seq<seq<byte>>, c: Net) {
    NeverLast(frags, c.s) && !c.r.ended && !c.r.phase.Returned?
    && (c.r.phase.ReceiveFailed? ==> c.r.phase.error == Deadline)
  }

  lemma {:induction false} RunEndless(frags: seq<seq<byte>>, window: byte, es: seq<Event>)
    requires |frags| > 256
    ensures Endless(frags, Run(frags, window, Start(window), es))
  {
    if es != [] {
      RunEndless(frags, window, es[..|es| - 1]);
    }
  }

  // ----- at most 255 fragments: acks never run ahead of the receiver

  /** Every ack on the wire names a fragment the receiver holds, or is an opening ack. */
  predicate AcksHonest(r: Receiver, window: byte) {
    forall a :: a in r.acks ==> |a| == 3 && a[0] == 0 && a[2] == window && (a[1] == 255 || a[1] < |r.chunks|)
  }

  predicate NoProtocolError(r: Receiver) {
    r.phase.ReceiveFailed? ==> r.phase.error == Deadline
  }

  predicate StrongInv(frags: seq<seq<byte>>, window: byte, c: Net) {
    && Inv(frags, c)
    && |frags| <= 255
    && AcksHonest(c.r, window)
    && (c.s.phase.Sent? ==> c.r.ended)
    && NoProtocolError(c.r)
  }

  lemma HonestGrows(r: Receiver, r': Receiver, window: byte, last: byte)
    requires AcksHonest(r, window) && |r.chunks| <= |r'.chunks|
    requires last == 255 || last < |r'.chunks|
    requires r'.acks == r.acks + [Ack(last, window)]
    ensures AcksHonest(r', window)
  {
    forall a | a in r'.acks
      ensures |a| == 3 && a[0] == 0 && a[2] == window && (a[1] == 255 || a[1] < |r'.chunks|)
    {
      assert a in r.acks || a == Ack(last, window);
    }
  }

  lemma TakeFinHonest(frags: seq<seq<byte>>, window: byte, c: Net)
    requires StrongInv(frags, window, c) && c.r.phase.Listening? && FIN_PACKET in c.s.out
    ensures c.r.ended
  {
    PacketsHaveNoFin(frags, SentCount(frags, c.s));
  }

  lemma TakeDataHonest(frags: seq<seq<byte>>, window: byte, c: Net, k: nat)
    requires StrongInv(frags, window, c) && c.r.phase.Listening? && k < |frags|
    ensures var r := TakePacket(c.r, window, DataPacket(frags, k));
      AcksHonest(r, window) && (c.r.ended ==> r.ended) && NoProtocolError(r)
  {
    var r := TakePacket(c.r, window, DataPacket(frags, k));
    if k != c.r.expected {
      HonestGrows(c.r, r, window, c.r.last);
    } else {
      assert !c.r.ended;
      HonestGrows(c.r, r, window, k);
    }
  }

  lemma TakePacketHonest(frags: seq<seq<byte>>, window: byte, c: Net, p: Packet)
    requires StrongInv(frags, window, c) && c.r.phase.Listening? && p in c.s.out
    ensures var r := TakePacket(c.r, window, p);
      AcksHonest(r, window) && (c.r.ended ==> r.ended) && NoProtocolError(r)
  {
    if p == FIN_PACKET {
      TakeFinHonest(frags, window, c);
    } else {
      var k := WrittenPacket(frags, c.s, p);
      TakeDataHonest(frags, window, c, k);
    }
  }

  lemma WrittenPacket(frags: seq<seq<byte>>, s: Sender, p: Packet) returns (k: nat)
    requires InOrder(frags, s) && p in s.out && p != FIN_PACKET
    ensures k < |frags| && p == DataPacket(frags, k)
  {
    var ps := Packets(frags, SentCount(frags, s));
    assert p in ps;
    k :| 0 <= k < |ps| && ps[k] == p;
  }

  lemma PacketsHaveNoFin(frags: seq<seq<byte>>, k: nat)
    requires k <= |frags| <= 256
    ensures FIN_PACKET !in Packets(frags, k)
  {
  }

  lemma TakeAckHonest(frags: seq<seq<byte>>, window: byte, c: Net, ack: Packet)
    requires StrongInv(frags, window, c) && c.s.phase.AwaitAck? && ack in c.r.acks
    ensures TakeAck(c.s, ack).phase.Sent? ==> c.r.ended
  {
    HonestAck(c.r, window, ack);
    if c.s.sentLast {
      LastNumber(frags, c.s);
    }
  }

  lemma HonestAck(r: Receiver, window: byte, ack: Packet)
    requires AcksHonest(r, window) && ack in r.acks
    ensures |ack| == 3 && (ack[1] == 255 || ack[1] < |r.chunks|)
  {
  }

  lemma LastNumber(frags: seq<seq<byte>>, s: Sender)
    requires InOrder(frags, s) && s.sentLast && |frags| <= 255
    ensures Low8(s.next - 1) == |frags| - 1
  {
  }

  lemma StepStrongInv(frags: seq<seq<byte>>, window: byte, c: Net, e: Event)
    requires StrongInv(frags, window, c)
    ensures StrongInv(frags, window, Step(frags, window, c, e))
  {
    if Enabled(frags, c, e) {
      match e {
        case AckArrives(ack) => AckStrong(frags, window, c, ack);
        case SenderWrites => WriteStrong(frags, window, c);
        case PacketArrives(p) => PacketStrong(frags, window, c, p);
        case ReackTimer => ReackStrong(frags, window, c);
        case SenderGivesUp =>
        case ReceiverGivesUp =>
      }
    }
  }

  lemma ReackStrong(frags: seq<seq<byte>>, window: byte, c: Net)
    requires StrongInv(frags, window, c)
    ensures StrongInv(frags, window, c.(r := Reack(c.r, window)))
  {
    HonestGrows(c.r, Reack(c.r, window), window, c.r.last);
  }

  lemma AckStrong(frags: seq<seq<byte>>, window: byte, c: Net, ack: Packet)
    requires StrongInv(frags, window, c) && c.s.phase.AwaitAck? && ack in c.r.acks
    ensures StrongInv(frags, window, c.(s := TakeAck(c.s, ack)))
  {
    TakeAckInOrder(frags, c.s, ack);
    TakeAckHonest(frags, window, c, ack);
  }

  lemma WriteStrong(frags: seq<seq<byte>>, window: byte, c: Net)
    requires StrongInv(frags, window, c) && c.s.phase.Burst?
    ensures StrongInv(frags, window, c.(s := Write(frags, c.s)))
  {
    WriteInOrder(frags, c.s);
  }

  lemma PacketStrong(frags: seq<seq<byte>>, window: byte, c: Net, p: Packet)
    requires StrongInv(frags, window, c) && c.r.phase.Listening? && p in c.s.out
    ensures StrongInv(frags, window, c.(r := TakePacket(c.r, window, p)))
  {
    TakePacketPrefix(frags, window, c, p);
    TakePacketHonest(frags, window, c, p);
  }

  lemma {:induction false} RunStrongInv(frags: seq<seq<byte>>, window: byte, es: seq<Event>)
    requires 1 <= |frags| <= 255
    ensures StrongInv(frags, window, Run(frags, window, Start(window), es))
  {
    if es == [] {
      assert Packets(frags, 0) == [];
    } else {
      RunStrongInv(frags, window, es[..|es| - 1]);
      StepStrongInv(frags, window, Run(frags, window, Start(window), es[..|es| - 1]), es[|es| - 1]);
    }
  }

  // ----- main results

  /** Whatever the channels do and however long the data, a blob `receive` returns is the data
      given to `send`. */
  lemma ReturnedBlobIsTheData(data: seq<byte>, maxlen: nat, window: byte, es: seq<Event>)
    requires maxlen > 2
    ensures var r := Run(Fragments(data, maxlen - 2), window, Start(window), es).r;
      r.phase.Returned? ==> r.phase.blob == data
  {
    var frags := Fragments(data, maxlen - 2);
    if |frags| <= 256 {
      RunInv(frags, window, es);
    } else {
      RunEndless(frags, window, es);
    }
  }

  /** What `send` promises on normal return, and what `receive` promises never to meet. */
  predicate Delivered(frags: seq<seq<byte>>, c: Net) {
    && (c.s.phase.Sent? ==> c.r.chunks == frags && c.r.ended)
    && NoProtocolError(c.r)
  }

  /** Except with exactly 256 fragments, in every run: when `send` has returned normally the
      receiver holds every fragment, and "FIN before LAST", "fragment after LAST", a short
      packet and a failing FIN code are never met. */
  lemma DeliveredAlways(frags: seq<seq<byte>>, window: byte, es: seq<Event>)
    requires |frags| >= 1 && |frags| != 256
    ensures Delivered(frags, Run(frags, window, Start(window), es))
  {
    if |frags| <= 255 {
      RunStrongInv(frags, window, es);
    } else {
      RunEndless(frags, window, es);
    }
  }

  // ----- exactly 256 fragments: the opening ack reads as the ack of the last fragment

  function Repeat(e: Event, k: nat): (es: seq<Event>)
    ensures |es| == k
  {
    seq(k, _ => e)
  }

  lemma RunSnoc(frags: seq<seq<byte>>, window: byte, c: Net, es: seq<Event>, e: Event)
    ensures Run(frags, window, c, es + [e]) == Step(frags, window, Run(frags, window, c, es), e)
  {
    assert (es + [e])[..|es|] == es;
  }

  lemma {:induction false} RunAppend(frags: seq<seq<byte>>, window: byte, c: Net, a: seq<Event>, b: seq<Event>)
    ensures Run(frags, window, c, a + b) == Run(frags, window, Run(frags, window, c, a), b)
    decreases |b|
  {
    if b == [] {
      assert a + b == a;
    } else {
      var m := |b| - 1;
      assert a + b == (a + b[..m]) + [b[m]];
      RunSnoc(frags, window, c, a + b[..m], b[m]);
      RunAppend(frags, window, c, a, b[..m]);
    }
  }

  /** Letting the sender write until its burst is over is a run: the sender's big step `Drain`
      is reached by `SenderWrites` events alone. */
  lemma {:induction false} DrainIsARun(frags: seq<seq<byte>>, window: byte, c: Net) returns (k: nat)
    requires Indexable(frags, c.s)
    ensures Run(frags, window, c, Repeat(SenderWrites, k)) == c.(s := Drain(frags, c.s))
    decreases if c.s.phase.Burst? then 1 + Distance(c.s) else 0
  {
    if c.s.phase.Burst? {
      var c' := Step(frags, window, c, SenderWrites);
      var j := DrainIsARun(frags, window, c');
      k := j + 1;
      assert Repeat(SenderWrites, k) == [SenderWrites] + Repeat(SenderWrites, j);
      assert Run(frags, window, c, [SenderWrites]) == c' by { RunSnoc(frags, window, c, [], SenderWrites); }
      RunAppend(frags, window, c, [SenderWrites], Repeat(SenderWrites, j));
    } else {
      k := 0;
    }
  }

  /** One turn of the `send` loop, as `Send` takes it, is a run of the system. */
  lemma SendTurnIsARun(frags: seq<seq<byte>>, window: byte, c: Net, ack: Packet) returns (es: seq<Event>)
    requires Indexable(frags, c.s) && c.s.phase.AwaitAck? && ack in c.r.acks
    ensures Run(frags, window, c, es) == c.(s := Drain(frags, TakeAck(c.s, ack)))
  {
    var c' := Step(frags, window, c, AckArrives(ack));
    var k := DrainIsARun(frags, window, c');
    es := [AckArrives(ack)] + Repeat(SenderWrites, k);
    assert Run(frags, window, c, [AckArrives(ack)]) == c' by { RunSnoc(frags, window, c, [], AckArrives(ack)); }
    RunAppend(frags, window, c, [AckArrives(ack)], Repeat(SenderWrites, k));
  }

  /** Where a burst stops: at the target if that lies ahead, otherwise past the last fragment. */
  lemma {:induction false} DrainStops(frags: seq<seq<byte>>, s: Sender)
    requires InOrder(frags, s) && s.phase.Burst? && !s.sentLast
    ensures var t := s.phase.target; var s' := Drain(frags, s);
      && InOrder(frags, s') && s'.phase.AwaitAck?
      && (s.next <= t < |frags| ==> !s'.sentLast && s'.next == t)
      && (t < s.next || |frags| <= t ==> s'.sentLast)
    decreases Distance(s)
  {
    DrainInOrder(frags, s);
    if s.next != s.phase.target {
      WriteInOrder(frags, s);
      var w := Write(frags, s);
      if !w.sentLast {
        DrainStops(frags, w);
      } else {
        assert Drain(frags, w) == w.(phase := AwaitAck);
      }
    }
  }

  /** One turn of `send` on a well-formed ack, before the last fragment is written. */
  lemma AckTurn(frags: seq<seq<byte>>, window: byte, c: Net, last: byte) returns (es: seq<Event>)
    requires Inv(frags, c) && c.s.phase.AwaitAck? && !c.s.sentLast && Ack(last, window) in c.r.acks
    ensures var c' := Run(frags, window, c, es); var t := Low8(last + window + 1);
      && c'.r == c.r && InOrder(frags, c'.s) && c'.s.phase.AwaitAck?
      && (c.s.next <= t < |frags| ==> !c'.s.sentLast && c'.s.next == t)
      && (t < c.s.next || |frags| <= t ==> c'.s.sentLast)
  {
    es := SendTurnIsARun(frags, window, c, Ack(last, window));
    DrainStops(frags, TakeAck(c.s, Ack(last, window)));
  }

  /** First the window's worth of fragments is written, then the first of them accepted. */
  lemma OneAccepted(frags: seq<seq<byte>>, window: byte) returns (es: seq<Event>)
    requires |frags| == 256 && 1 <= window <= 127
    ensures var c := Run(frags, window, Start(window), es);
      && Inv(frags, c) && !c.s.sentLast && c.s.next == window && c.s.phase.AwaitAck?
      && c.r.phase.Listening? && |c.r.chunks| == 1 && c.r.acks == [Ack(255, window), Ack(0, window)]
  {
    var c0 := Start(window);
    RunInv(frags, window, []);
    var e1 := AckTurn(frags, window, c0, 255);
    var p := DataPacket(frags, 0);
    assert Packets(frags, window)[0] == p;
    es := e1 + [PacketArrives(p)];
    RunSnoc(frags, window, c0, e1, PacketArrives(p));
    RunInv(frags, window, es);
  }

  /** A run after which all 256 fragments are written and only the first has been accepted,
      because a repeated opening ack lies behind the sender. */
  lemma AllWrittenOneAccepted(frags: seq<seq<byte>>, window: byte) returns (es: seq<Event>)
    requires |frags| == 256 && 1 <= window <= 127
    ensures var c := Run(frags, window, Start(window), es);
      && Inv(frags, c) && c.s.sentLast && c.s.phase.AwaitAck? && c.r.phase.Listening?
      && |c.r.chunks| == 1 && Ack(255, window) in c.r.acks
  {
    var e1 := OneAccepted(frags, window);
    var c1 := Run(frags, window, Start(window), e1);
    var e2 := AckTurn(frags, window, c1, 0);
    var c2 := Run(frags, window, c1, e2);
    var e3 := AckTurn(frags, window, c2, 255);
    es := e1 + (e2 + e3);
    RunAppend(frags, window, c1, e2, e3);
    RunAppend(frags, window, Start(window), e1, e2 + e3);
  }

  /** With 256 fragments `send` can return normally while the receiver holds one fragment, and
      the receiver then meets FIN before LAST. */
  lemma EarlyReturnAt256(frags: seq<seq<byte>>, window: byte) returns (es: seq<Event>)
    requires |frags| == 256 && 1 <= window <= 127
    ensures var c := Run(frags, window, Start(window), es);
      c.s.phase.Sent? && |c.r.chunks| == 1 && c.r.phase == ReceiveFailed(FinBeforeLast)
  {
    var e1 := AllWrittenOneAccepted(frags, window);
    var open := AckArrives(Ack(255, window));
    var fin := PacketArrives(FIN_PACKET);
    es := e1 + [open] + [fin];
    RunSnoc(frags, window, Start(window), e1, open);
    RunSnoc(frags, window, Start(window), e1 + [open], fin);
  }

  lemma {:induction false} DeliverUpTo(frags: seq<seq<byte>>, window: byte, es0: seq<Event>, k: nat)
      returns (es: seq<Event>)
    requires |frags| == 256 && 1 <= k <= 256
    requires var c := Run(frags, window, Start(window), es0);
      c.s.sentLast && c.s.phase.AwaitAck? && c.r.phase.Listening? && |c.r.chunks| == 1
    ensures var c := Run(frags, window, Start(window), es);
      c.s == Run(frags, window, Start(window), es0).s && c.r.phase.Listening? && |c.r.chunks| == k
  {
    if k == 1 {
      es := es0;
    } else {
      var e := DeliverUpTo(frags, window, es0, k - 1);
      RunInv(frags, window, e);
      var p := DataPacket(frags, k - 1);
      assert p == Packets(frags, 256)[k - 1];
      es := e + [PacketArrives(p)];
      RunSnoc(frags, window, Start(window), e, PacketArrives(p));
    }
  }

  /** With 256 fragments a duplicate of the first one can also arrive as a fragment after LAST. */
  lemma DuplicateAfterLastAt256(frags: seq<seq<byte>>, window: byte) returns (es: seq<Event>)
    requires |frags| == 256 && 1 <= window <= 127
    ensures Run(frags, window, Start(window), es).r.phase == ReceiveFailed(FragmentAfterLast)
  {
    var e1 := AllWrittenOneAccepted(frags, window);
    var e2 := DeliverUpTo(frags, window, e1, 256);
    RunInv(frags, window, e2);
    var p := DataPacket(frags, 0);
    assert p == Packets(frags, 256)[0];
    es := e2 + [PacketArrives(p)];
    RunSnoc(frags, window, Start(window), e2, PacketArrives(p));
  }

  /** The delivery promise holds of every run exactly when the number of fragments is not 256. */
  lemma DeliveredIffNot256(frags: seq<seq<byte>>, window: byte)
    requires |frags| >= 1 && 1 <= window <= 127
    ensures (forall es :: Delivered(frags, Run(frags, window, Start(window), es))) <==> |frags| != 256
  {
    if |frags| == 256 {
      var es := EarlyReturnAt256(frags, window);
      assert !Delivered(frags, Run(frags, window, Start(window), es));
    } else {
      forall es ensures Delivered(frags, Run(frags, window, Start(window), es)) {
        DeliveredAlways(frags, window, es);
      }
    }
  }
}
