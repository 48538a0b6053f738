/** One sender and one receiver over lossless first-in first-out channels, with or without
    the periodic re-ack. Each side reads the other's output in order; `counts` remembers, for
    every ack written, how many fragments it stood for (the steps never look at it). */
module SarFifo {
  import opened Bytes
  import opened Sar
  import SarNet

  datatype Fifo = Fifo(s: Sender, r: Receiver, acksRead: nat, packetsRead: nat, counts: seq<nat>)

  datatype Event = SenderTakes | SenderWrites | ReceiverTakes | ReackTimer

  predicate Enabled(frags: seq<seq<byte>>, c: Fifo, e: Event) {
    match e
    case SenderTakes => c.s.phase.AwaitAck? && c.acksRead < |c.r.acks|
    case SenderWrites => c.s.phase.Burst? && Indexable(frags, c.s)
    case ReceiverTakes => c.r.phase.Listening? && c.packetsRead < |c.s.out|
    case ReackTimer => c.r.phase.Listening?
  }

  /** The receiver's new state, with what a newly written ack stands for. */
  function WithReceiver(c: Fifo, r: Receiver): Fifo {
    c.(r := r, counts := if |r.acks| > |c.r.acks| then c.counts + [|r.chunks|] else c.counts)
  }

  function Step(frags: seq<seq<byte>>, window: byte, c: Fifo, e: Event): Fifo {
    if !Enabled(frags, c, e) then c else
    match e
    case SenderTakes => c.(s := TakeAck(c.s, c.r.acks[c.acksRead]), acksRead := c.acksRead + 1)
    case SenderWrites => c.(s := Write(frags, c.s))
    case ReceiverTakes =>
      WithReceiver(c, TakePacket(c.r, window, c.s.out[c.packetsRead])).(packetsRead := c.packetsRead + 1)
    case ReackTimer => WithReceiver(c, Reack(c.r, window))
  }

  function Start(window: byte): Fifo { Fifo(NEW_SENDER, NewReceiver(window), 0, 0, [0]) }

  function Run(frags: seq<seq<byte>>, window: byte, es: seq<Event>): Fifo {
    if es == [] then Start(window) else Step(frags, window, Run(frags, window, es[..|es| - 1]), es[|es| - 1])
  }

  function Min(a: int, b: int): int { if a < b then a else b }

  // ----- what every step keeps

  /** The ack written when `count` fragments have been accepted. */
  function AckFor(count: nat, window: byte): Packet { Ack(Low8(count - 1), window) }

  predicate AcksInv(window: byte, c: Fifo) {
    && |c.counts| == |c.r.acks| >= 1
    && c.acksRead <= |c.r.acks|
    && (forall j :: 0 <= j < |c.counts| ==> c.r.acks[j] == AckFor(c.counts[j], window))
    && (forall i, j :: 0 <= i <= j < |c.counts| ==> c.counts[i] <= c.counts[j])
    && c.counts[|c.counts| - 1] == |c.r.chunks|
  }

  /** Fragments the last ack taken stood for. */
  function Acked(c: Fifo): nat
    requires 0 < c.acksRead <= |c.counts|
  {
    c.counts[c.acksRead - 1]
  }

  predicate SenderInv(frags: seq<seq<byte>>, window: byte, c: Fifo)
    requires c.acksRead <= |c.counts|
  {
    && InOrder(frags, c.s)
    && (c.acksRead == 0 ==> c.s == NEW_SENDER)
    && (c.acksRead > 0 ==>
          var sent := SentCount(frags, c.s);
          match c.s.phase
          case AwaitAck => sent == Min(|frags|, Acked(c) + window) && Acked(c) < |frags|
          case Burst(t) => && t == Low8(Acked(c) + window) && Acked(c) < |frags|
                           && sent <= Acked(c) + window <= sent + 255
          case Sent => Acked(c) == |frags|
          case SendFailed => false)
  }

  predicate ReceiverInv(frags: seq<seq<byte>>, c: Fifo) {
    && SarNet.Prefix(frags, c.r)
    && !c.r.phase.ReceiveFailed?
    && |c.r.chunks| <= SentCount(frags, c.s)
    && c.packetsRead == |c.r.chunks| + (if c.r.phase.Returned? then 1 else 0)
    && (c.r.phase.Returned? ==> c.s.phase.Sent?)
  }

  predicate Inv(frags: seq<seq<byte>>, window: byte, c: Fifo) {
    1 <= window <= 127 && AcksInv(window, c) && SenderInv(frags, window, c) && ReceiverInv(frags, c)
  }

  lemma NextAck(frags: seq<seq<byte>>, window: byte, c: Fifo)
    requires Inv(frags, window, c) && Enabled(frags, c, SenderTakes)
    ensures var v := c.counts[c.acksRead];
      && c.r.acks[c.acksRead] == AckFor(v, window)
      && v <= |c.r.chunks| <= SentCount(frags, c.s)
      && (c.acksRead > 0 ==> Acked(c) <= v)
  {
    assert c.counts[c.acksRead] <= c.counts[|c.counts| - 1];
  }

  /** Within half the number space the 8-bit comparison cannot confuse two counts. */
  lemma SameLow8(v: nat, n: nat)
    requires v <= n && n - v < 256
    ensures Low8(v) == Low8(n) <==> v == n
    ensures Low8(v - 1) == Low8(Low8(n) - 1) <==> v == n
  {
  }

  lemma TakesFinal(frags: seq<seq<byte>>, window: byte, c: Fifo)
    requires Inv(frags, window, c) && Enabled(frags, c, SenderTakes) && c.s.sentLast
    ensures var v := c.counts[c.acksRead];
      TakeAck(c.s, c.r.acks[c.acksRead])
        == if v == |frags| then c.s.(phase := Sent, out := c.s.out + [FIN_PACKET]) else c.s
  {
    NextAck(frags, window, c);
    SameLow8(c.counts[c.acksRead], |frags|);
  }

  lemma TakesTarget(frags: seq<seq<byte>>, window: byte, c: Fifo)
    requires Inv(frags, window, c) && Enabled(frags, c, SenderTakes) && !c.s.sentLast
    ensures TakeAck(c.s, c.r.acks[c.acksRead]) == c.s.(phase := Burst(Low8(c.counts[c.acksRead] + window)))
  {
    NextAck(frags, window, c);
    Low8Shift(c.counts[c.acksRead], window);
  }

  lemma Low8Shift(v: nat, w: nat)
    ensures Low8(Low8(v - 1) + w + 1) == Low8(v + w)
  {
  }

  lemma TakesInv(frags: seq<seq<byte>>, window: byte, c: Fifo)
    requires Inv(frags, window, c) && Enabled(frags, c, SenderTakes)
    ensures Inv(frags, window, Step(frags, window, c, SenderTakes))
  {
    NextAck(frags, window, c);
    if c.s.sentLast {
      TakesFinal(frags, window, c);
    } else {
      TakesTarget(frags, window, c);
    }
  }

  lemma WritesInv(frags: seq<seq<byte>>, window: byte, c: Fifo)
    requires Inv(frags, window, c) && Enabled(frags, c, SenderWrites)
    ensures Inv(frags, window, Step(frags, window, c, SenderWrites))
  {
    WriteInOrder(frags, c.s);
  }

  lemma ReceivesData(frags: seq<seq<byte>>, window: byte, c: Fifo)
    requires Inv(frags, window, c) && Enabled(frags, c, ReceiverTakes)
    ensures var a := |c.r.chunks|;
      c.s.out[c.packetsRead] == if a < SentCount(frags, c.s) then DataPacket(frags, a) else FIN_PACKET
    ensures |c.r.chunks| == SentCount(frags, c.s) ==> c.s.phase.Sent?
  {
  }

  lemma AcceptReceiver(frags: seq<seq<byte>>, window: byte, r: Receiver)
    requires SarNet.Prefix(frags, r) && r.phase.Listening? && |r.chunks| < |frags|
    ensures var r' := TakePacket(r, window, DataPacket(frags, |r.chunks|));
      && SarNet.Prefix(frags, r') && r'.phase.Listening? && |r'.chunks| == |r.chunks| + 1
      && r'.acks == r.acks + [AckFor(|r'.chunks|, window)]
  {
    var a := |r.chunks|;
    assert r.chunks + [frags[a]] == frags[..a + 1];
  }

  lemma AckWritten(window: byte, c: Fifo, r: Receiver)
    requires AcksInv(window, c) && |c.r.chunks| <= |r.chunks|
    requires r.acks == c.r.acks + [AckFor(|r.chunks|, window)]
    ensures AcksInv(window, WithReceiver(c, r))
    ensures c.acksRead > 0 ==> Acked(WithReceiver(c, r)) == Acked(c)
  {
  }

  lemma AcceptInv(frags: seq<seq<byte>>, window: byte, c: Fifo)
    requires Inv(frags, window, c) && Enabled(frags, c, ReceiverTakes)
    requires |c.r.chunks| < SentCount(frags, c.s)
    ensures Inv(frags, window, Step(frags, window, c, ReceiverTakes))
  {
    ReceivesData(frags, window, c);
    AcceptReceiver(frags, window, c.r);
    var r := TakePacket(c.r, window, DataPacket(frags, |c.r.chunks|));
    AckWritten(window, c, r);
    var c' := WithReceiver(c, r).(packetsRead := c.packetsRead + 1);
    assert Step(frags, window, c, ReceiverTakes) == c';
    assert c'.r == r && c'.s == c.s && c'.acksRead == c.acksRead && c'.counts == c.counts + [|r.chunks|];
    SenderUnaffected(frags, window, c, c');
  }

  lemma SenderUnaffected(frags: seq<seq<byte>>, window: byte, c: Fifo, c': Fifo)
    requires c.acksRead <= |c.counts| && SenderInv(frags, window, c)
    requires c'.s == c.s && c'.acksRead == c.acksRead <= |c'.counts|
    requires c.acksRead > 0 ==> Acked(c') == Acked(c)
    ensures SenderInv(frags, window, c')
  {
  }

  lemma ReceivesInv(frags: seq<seq<byte>>, window: byte, c: Fifo)
    requires Inv(frags, window, c) && Enabled(frags, c, ReceiverTakes)
    ensures Inv(frags, window, Step(frags, window, c, ReceiverTakes))
  {
    if |c.r.chunks| < SentCount(frags, c.s) {
      AcceptInv(frags, window, c);
    } else {
      ReceivesData(frags, window, c);
    }
  }

  lemma StepInv(frags: seq<seq<byte>>, window: byte, c: Fifo, e: Event)
    requires Inv(frags, window, c)
    ensures Inv(frags, window, Step(frags, window, c, e))
  {
    if Enabled(frags, c, e) {
      match e {
        case SenderTakes => TakesInv(frags, window, c);
        case SenderWrites => WritesInv(frags, window, c);
        case ReceiverTakes => ReceivesInv(frags, window, c);
        case ReackTimer => ReacksInv(frags, window, c);
      }
    }
  }

  lemma ReacksInv(frags: seq<seq<byte>>, window: byte, c: Fifo)
    requires Inv(frags, window, c) && Enabled(frags, c, ReackTimer)
    ensures Inv(frags, window, Step(frags, window, c, ReackTimer))
  {
    var r := Reack(c.r, window);
    AckWritten(window, c, r);
    SenderUnaffected(frags, window, c, WithReceiver(c, r));
  }

  lemma {:induction false} RunInv(frags: seq<seq<byte>>, window: byte, es: seq<Event>)
    requires 1 <= |frags| <= 256 && 1 <= window <= 127
    ensures Inv(frags, window, Run(frags, window, es))
  {
    if es == [] {
      assert Packets(frags, 0) == [];
    } else {
      RunInv(frags, window, es[..|es| - 1]);
      StepInv(frags, window, Run(frags, window, es[..|es| - 1]), es[|es| - 1]);
    }
  }

  // ----- the window

  /** At most a window of fragments is ever written and not yet accepted, re-acks or not. */
  lemma WindowRespected(frags: seq<seq<byte>>, window: byte, es: seq<Event>)
    requires 1 <= |frags| <= 256 && 1 <= window <= 127
    ensures var c := Run(frags, window, es); SentCount(frags, c.s) <= |c.r.chunks| + window
  {
    RunInv(frags, window, es);
    var c := Run(frags, window, es);
    if c.acksRead > 0 {
      assert Acked(c) <= c.counts[|c.counts| - 1];
    }
  }

  /** The 8-bit test that drives a burst agrees with the same test on unbounded counters. */
  lemma TargetTestIsExact(frags: seq<seq<byte>>, window: byte, es: seq<Event>)
    requires 1 <= |frags| <= 256 && 1 <= window <= 127
    ensures var c := Run(frags, window, es);
      c.s.phase.Burst? && !c.s.sentLast ==>
        0 < c.acksRead <= |c.counts|
        && (c.s.next != c.s.phase.target <==> SentCount(frags, c.s) != Acked(c) + window)
  {
    RunInv(frags, window, es);
    var c := Run(frags, window, es);
    if c.s.phase.Burst? && !c.s.sentLast {
      SameLow8(SentCount(frags, c.s), Acked(c) + window);
    }
  }

  lemma Low8Before(v: nat, n: nat)
    requires v <= n && n - v < 256
    ensures Low8(v - 1) == Low8(n - 1) <==> v == n
  {
  }

  /** Two acks in a row with the same bytes stand for the same number of fragments. */
  lemma RepeatedAckSameCount(frags: seq<seq<byte>>, window: byte, c: Fifo)
    requires Inv(frags, window, c) && Enabled(frags, c, SenderTakes) && c.acksRead > 0
    requires c.r.acks[c.acksRead] == c.r.acks[c.acksRead - 1]
    ensures c.counts[c.acksRead] == Acked(c)
  {
    NextAck(frags, window, c);
    var a, v := Acked(c), c.counts[c.acksRead];
    assert AckFor(a, window)[1] == AckFor(v, window)[1];
    Low8Before(a, v);
  }

  lemma RepeatedCount(frags: seq<seq<byte>>, window: byte, c: Fifo)
    requires Inv(frags, window, c) && Enabled(frags, c, SenderTakes) && c.acksRead > 0
    requires c.counts[c.acksRead] == Acked(c)
    ensures TakeAck(c.s, c.r.acks[c.acksRead]) == if c.s.sentLast then c.s else c.s.(phase := Burst(c.s.next))
  {
    if c.s.sentLast {
      TakesFinal(frags, window, c);
    } else {
      TakesTarget(frags, window, c);
    }
  }

  lemma DrainNothing(frags: seq<seq<byte>>, s: Sender)
    requires s.phase.AwaitAck? && Indexable(frags, s)
    ensures Drain(frags, s) == s && Drain(frags, s.(phase := Burst(s.next))) == s
  {
    var t := s.(phase := Burst(s.next));
    assert Write(frags, t) == s;
  }

  /** An ack that repeats the one before it makes the sender write nothing. */
  lemma RepeatedAckWritesNothing(frags: seq<seq<byte>>, window: byte, es: seq<Event>)
    requires 1 <= |frags| <= 256 && 1 <= window <= 127
    requires var c := Run(frags, window, es);
      0 < c.acksRead && Enabled(frags, c, SenderTakes) && c.r.acks[c.acksRead] == c.r.acks[c.acksRead - 1]
    ensures var c := Run(frags, window, es); var t := Step(frags, window, c, SenderTakes).s;
      Indexable(frags, t) && Drain(frags, t) == c.s
  {
    RunInv(frags, window, es);
    var c := Run(frags, window, es);
    RepeatedAckSameCount(frags, window, c);
    RepeatedCount(frags, window, c);
    DrainNothing(frags, c.s);
  }

  // ----- progress

  predicate Done(frags: seq<seq<byte>>, c: Fifo) {
    c.s.phase.Sent? && c.r.phase == Returned(Concat(frags))
  }

  /** No reachable state is stuck short of the end. */
  lemma NotStuck(frags: seq<seq<byte>>, window: byte, c: Fifo) returns (e: Event)
    requires Inv(frags, window, c) && !Done(frags, c)
    ensures Enabled(frags, c, e) && e != ReackTimer
  {
    if c.s.phase.Burst? {
      return SenderWrites;
    }
    if c.r.phase.Listening? && c.packetsRead < |c.s.out| {
      return ReceiverTakes;
    }
    // Nothing to write and nothing in flight to the receiver: an ack must be waiting.
    return SenderTakes;
  }

  /** Unsent fragments, packets and acks in flight, and how far the sender is from returning. */
  function Measure(frags: seq<seq<byte>>, c: Fifo): int {
    4 * (|frags| - SentCount(frags, c.s)) + 3 * (|c.s.out| - c.packetsRead) + 2 * (|c.r.acks| - c.acksRead)
    + (match c.s.phase case Sent => 0 case AwaitAck => 3 case Burst(_) => 4 case SendFailed => 0)
  }

  lemma MeasureNonNegative(frags: seq<seq<byte>>, window: byte, c: Fifo)
    requires Inv(frags, window, c)
    ensures Measure(frags, c) >= 0
  {
  }

  lemma MeasureDecreases(frags: seq<seq<byte>>, window: byte, c: Fifo, e: Event)
    requires Inv(frags, window, c) && Enabled(frags, c, e) && e != ReackTimer
    ensures Measure(frags, Step(frags, window, c, e)) < Measure(frags, c)
  {
    match e {
      case SenderTakes => TakesMeasure(frags, window, c);
      case SenderWrites => WritesMeasure(frags, c);
      case ReceiverTakes => ReceivesMeasure(frags, window, c);
    }
  }

  lemma TakesMeasure(frags: seq<seq<byte>>, window: byte, c: Fifo)
    requires Inv(frags, window, c) && Enabled(frags, c, SenderTakes)
    ensures Measure(frags, Step(frags, window, c, SenderTakes)) < Measure(frags, c)
  {
    if c.s.sentLast {
      TakesFinal(frags, window, c);
    } else {
      TakesTarget(frags, window, c);
    }
  }

  lemma WritesMeasure(frags: seq<seq<byte>>, c: Fifo)
    requires InOrder(frags, c.s) && Enabled(frags, c, SenderWrites)
    ensures Measure(frags, c.(s := Write(frags, c.s))) < Measure(frags, c)
  {
  }

  lemma ReceivesMeasure(frags: seq<seq<byte>>, window: byte, c: Fifo)
    requires Inv(frags, window, c) && Enabled(frags, c, ReceiverTakes)
    ensures Measure(frags, Step(frags, window, c, ReceiverTakes)) < Measure(frags, c)
  {
    ReceivesData(frags, window, c);
  }

  /** Every event of `es` happens, one after the other from `c`, and none is the re-ack timer. */
  predicate Happens(frags: seq<seq<byte>>, window: byte, c: Fifo, es: seq<Event>)
    decreases |es|
  {
    es == [] ||
    (&& es[0] != ReackTimer && Enabled(frags, c, es[0])
     && Happens(frags, window, Step(frags, window, c, es[0]), es[1..]))
  }

  lemma {:induction false} HappensBounded(frags: seq<seq<byte>>, window: byte, c: Fifo, es: seq<Event>)
    requires Inv(frags, window, c) && Happens(frags, window, c, es)
    ensures |es| <= Measure(frags, c)
    decreases |es|
  {
    if es == [] {
      MeasureNonNegative(frags, window, c);
    } else {
      StepInv(frags, window, c, es[0]);
      MeasureDecreases(frags, window, c, es[0]);
      HappensBounded(frags, window, Step(frags, window, c, es[0]), es[1..]);
    }
  }

  /** Without the re-ack timer every run is over after at most 4n + 5 events. */
  lemma RunsAreBounded(frags: seq<seq<byte>>, window: byte, es: seq<Event>)
    requires 1 <= |frags| <= 256 && 1 <= window <= 127
    requires Happens(frags, window, Start(window), es)
    ensures |es| <= 4 * |frags| + 5
  {
    RunInv(frags, window, []);
    HappensBounded(frags, window, Start(window), es);
  }

  /** From any state any run reached, re-acks included, the transfer can be completed, and it is
      complete as soon as nothing but the re-ack timer can happen. */
  lemma {:induction false} Completes(frags: seq<seq<byte>>, window: byte, es: seq<Event>) returns (more: seq<Event>)
    requires 1 <= |frags| <= 256 && 1 <= window <= 127
    ensures Done(frags, Run(frags, window, es + more)) && |more| <= Measure(frags, Run(frags, window, es))
    ensures var c := Run(frags, window, es);
      (forall e :: Enabled(frags, c, e) ==> e == ReackTimer) ==> Done(frags, c)
    decreases var c := Run(frags, window, es); Measure(frags, c)
  {
    RunInv(frags, window, es);
    var c := Run(frags, window, es);
    MeasureNonNegative(frags, window, c);
    if Done(frags, c) {
      more := [];
      assert es + more == es;
    } else {
      var e := NotStuck(frags, window, c);
      MeasureDecreases(frags, window, c, e);
      assert (es + [e])[..|es|] == es;
      MeasureNonNegative(frags, window, Step(frags, window, c, e)) by { StepInv(frags, window, c, e); }
      var rest := Completes(frags, window, es + [e]);
      more := [e] + rest;
      assert es + more == (es + [e]) + rest;
    }
  }

  lemma {:induction false} RunNeverLast(frags: seq<seq<byte>>, window: byte, es: seq<Event>)
    requires |frags| > 256
    ensures NeverLast(frags, Run(frags, window, es).s)
  {
    if es != [] {
      RunNeverLast(frags, window, es[..|es| - 1]);
    }
  }

  ghost predicate CanComplete(frags: seq<seq<byte>>, window: byte) {
    exists es :: Done(frags, Run(frags, window, es))
  }

  /** Over these channels a transfer can complete exactly when the data fits in 256 fragments. */
  lemma CompletesIffAtMost256(data: seq<byte>, maxlen: nat, window: byte)
    requires maxlen > 2 && 1 <= window <= 127
    ensures CanComplete(Fragments(data, maxlen - 2), window) <==> |data| <= 256 * (maxlen - 2)
  {
    var frags := Fragments(data, maxlen - 2);
    FragmentCount(data, maxlen - 2, 256);
    if |frags| <= 256 {
      var more := Completes(frags, window, []);
      assert [] + more == more;
    } else {
      forall es ensures !Done(frags, Run(frags, window, es)) {
        RunNeverLast(frags, window, es);
      }
    }
  }
}
