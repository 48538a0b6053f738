/** The receiver and the sender against arbitrary peers: what each makes of any sequence of packets
    or acks, in terms of the bytes that arrive. */
module SarWire {
  import opened Bytes
  import opened Sar

  // ----- the receiver

  predicate LastBit(p: Packet)
    requires p != []
  {
    p[0] / 2 % 2 == 1
  }

  predicate FinBit(p: Packet)
    requires p != []
  {
    p[0] / 4 % 2 == 1
  }

  /** A packet that carries a fragment. */
  predicate Fragment(x: Option<Packet>) { x.Some? && |x.value| >= 2 && !FinBit(x.value) }

  /** The last packet taken has LAST. */
  predicate Closed(t: seq<Packet>) { t != [] && t[|t| - 1] != [] && LastBit(t[|t| - 1]) }

  /** The packets taken in order: the next one is the first that carries the next number, modulo 256;
      none is taken behind LAST. */
  function Taken(a: seq<Option<Packet>>): (t: seq<Packet>)
    ensures forall j :: 0 <= j < |t| ==>
      Some(t[j]) in a && |t[j]| >= 2 && !FinBit(t[j]) && t[j][1] == j % 256 && (LastBit(t[j]) ==> j == |t| - 1)
  {
    if a == [] then [] else
    var t, x := Taken(a[..|a| - 1]), a[|a| - 1];
    if !Closed(t) && Fragment(x) && x.value[1] == |t| % 256 then t + [x.value] else t
  }

  function Payloads(t: seq<Packet>): (ps: seq<seq<byte>>)
    requires forall j :: 0 <= j < |t| ==> |t[j]| >= 2
    ensures |ps| == |t|
  {
    seq(|t|, j requires 0 <= j < |t| => t[j][2..])
  }

  /** An arrival that ends `receive`, after `t` were taken: too short, FIN, or the number that would
      come after LAST. */
  predicate Stops(t: seq<Packet>, x: Option<Packet>) {
    x.Some? && (|x.value| < 2 || FinBit(x.value) || (Closed(t) && x.value[1] == |t| % 256))
  }

  /** And how. */
  function Ending(t: seq<Packet>, x: Packet): ReceiverPhase
    requires forall j :: 0 <= j < |t| ==> |t[j]| >= 2
  {
    if |x| < 2 then ReceiveFailed(ShortPacket)
    else if !FinBit(x) then ReceiveFailed(FragmentAfterLast)
    else if !Closed(t) then ReceiveFailed(FinBeforeLast)
    else if x[1] != 0 then ReceiveFailed(FinCode)
    else Returned(Concat(Payloads(t)))
  }

  predicate GoesOn(a: seq<Option<Packet>>) { forall i :: 0 <= i < |a| ==> !Stops(Taken(a[..i]), a[i]) }

  /** The opening ack, and one for every arrival or expired interval: code 0, the number of the last
      fragment taken, the window. */
  function AcksFor(window: byte, a: seq<Option<Packet>>): seq<Packet> {
    if a == [] then [[0, 255, window]]
    else AcksFor(window, a[..|a| - 1]) + [[0, Low8(|Taken(a)| - 1), window]]
  }

  function TakeArrival(r: Receiver, window: byte, x: Option<Packet>): Receiver
    requires r.phase.Listening?
  {
    if x.None? then Reack(r, window) else TakePacket(r, window, x.value)
  }

  /** The receiver that has taken `t` and written `acks`. */
  function Listener(t: seq<Packet>, acks: seq<Packet>): Receiver
    requires forall j :: 0 <= j < |t| ==> |t[j]| >= 2
  {
    Receiver(Payloads(t), Low8(|t|), Low8(|t| - 1), Closed(t), Listening, acks)
  }

  /** The receiver after `a`, none of which ended it. */
  function Listens(window: byte, a: seq<Option<Packet>>): Receiver { Listener(Taken(a), AcksFor(window, a)) }

  lemma TakesNext(t: seq<Packet>, acks: seq<Packet>, window: byte, x: Packet)
    requires (forall j :: 0 <= j < |t| ==> |t[j]| >= 2) && !Closed(t) && Fragment(Some(x)) && x[1] == |t| % 256
    ensures TakePacket(Listener(t, acks), window, x) == Listener(t + [x], acks + [[0, x[1], window]])
  {
    Low8Next(|t|);
    assert Payloads(t + [x]) == Payloads(t) + [x[2..]];
  }

  lemma Skips(t: seq<Packet>, acks: seq<Packet>, window: byte, x: Option<Packet>)
    requires (forall j :: 0 <= j < |t| ==> |t[j]| >= 2) && !Stops(t, x)
    requires !(!Closed(t) && Fragment(x) && x.value[1] == |t| % 256)
    ensures TakeArrival(Listener(t, acks), window, x) == Listener(t, acks + [[0, Low8(|t| - 1), window]])
  {
  }

  lemma Low8Next(n: nat)
    ensures Low8(Low8(n) as int + 1) == Low8(n + 1)
  {
  }

  lemma TakenSnoc(a: seq<Option<Packet>>, x: Option<Packet>)
    ensures var t := Taken(a);
      Taken(a + [x]) == if !Closed(t) && Fragment(x) && x.value[1] == |t| % 256 then t + [x.value] else t
  {
    assert (a + [x])[..|a|] == a;
  }

  lemma AcksSnoc(window: byte, a: seq<Option<Packet>>, x: Option<Packet>)
    ensures AcksFor(window, a + [x]) == AcksFor(window, a) + [[0, Low8(|Taken(a + [x])| - 1), window]]
  {
    assert (a + [x])[..|a|] == a;
  }

  lemma ListensSnoc(window: byte, a: seq<Option<Packet>>, x: Option<Packet>)
    requires !Stops(Taken(a), x)
    ensures TakeArrival(Listens(window, a), window, x) == Listens(window, a + [x])
  {
    var t := Taken(a);
    TakenSnoc(a, x);
    AcksSnoc(window, a, x);
    if !Closed(t) && Fragment(x) && x.value[1] == |t| % 256 {
      TakesNext(t, AcksFor(window, a), window, x.value);
    } else {
      Skips(t, AcksFor(window, a), window, x);
    }
  }

  lemma StopsEnds(window: byte, a: seq<Option<Packet>>, x: Packet)
    requires Stops(Taken(a), Some(x))
    ensures var r := TakePacket(Listens(window, a), window, x);
      r.phase == Ending(Taken(a), x) && r.acks == AcksFor(window, a)
  {
  }

  /** The front of `a` up to `i` goes on, and `a[i]` stops. */
  predicate StopsAt(a: seq<Option<Packet>>, i: nat) { i < |a| && GoesOn(a[..i]) && Stops(Taken(a[..i]), a[i]) }

  lemma RunOne(window: byte, a: seq<Option<Packet>>, i: nat, k: nat)
    requires k < i <= |a| && GoesOn(a[..i])
    ensures ReceiveRun(Listens(window, a[..k]), window, a[k..])
         == ReceiveRun(Listens(window, a[..k + 1]), window, a[k + 1..])
  {
    RunHead(Listens(window, a[..k]), window, a, k);
    FrontGoesOn(a, i, k);
    assert a[..k] + [a[k]] == a[..k + 1];
    ListensSnoc(window, a[..k], a[k]);
  }

  /** While nothing stops it, the receiver is listening. */
  lemma {:induction false} RunReaches(window: byte, a: seq<Option<Packet>>, i: nat, k: nat)
    requires k <= i <= |a| && GoesOn(a[..i])
    ensures ReceiveRun(NewReceiver(window), window, a) == ReceiveRun(Listens(window, a[..k]), window, a[k..])
    decreases k
  {
    if k == 0 {
      assert Listens(window, []) == NewReceiver(window);
      assert a[0..] == a && a[..0] == [];
    } else {
      RunReaches(window, a, i, k - 1);
      RunOne(window, a, i, k - 1);
    }
  }

  lemma RunHead(r: Receiver, window: byte, a: seq<Option<Packet>>, k: nat)
    requires r.phase.Listening? && k < |a|
    ensures ReceiveRun(r, window, a[k..]) == ReceiveRun(TakeArrival(r, window, a[k]), window, a[k + 1..])
  {
    assert a[k..][0] == a[k] && a[k..][1..] == a[k + 1..];
  }

  lemma FrontGoesOn(a: seq<Option<Packet>>, i: nat, k: nat)
    requires k < i <= |a| && GoesOn(a[..i])
    ensures !Stops(Taken(a[..k]), a[k])
  {
    var front := a[..i];
    assert front[..k] == a[..k] && front[k] == a[k];
  }

  /** `receive` on arrivals none of which stops it runs into the deadline, having written one ack for
      each. */
  lemma ReceiveTimesOut(window: byte, a: seq<Option<Packet>>)
    requires GoesOn(a)
    ensures var r := ReceiveRun(NewReceiver(window), window, a);
      r.phase == ReceiveFailed(Deadline) && r.acks == AcksFor(window, a)
  {
    assert a[..|a|] == a && a[|a|..] == [];
    RunReaches(window, a, |a|, |a|);
  }

  /** Otherwise it ends at the first arrival that stops it, the way the bytes say, having written one
      ack for each before. */
  lemma ReceiveEnds(window: byte, a: seq<Option<Packet>>, i: nat)
    requires StopsAt(a, i)
    ensures var r := ReceiveRun(NewReceiver(window), window, a);
      r.phase == Ending(Taken(a[..i]), a[i].value) && r.acks == AcksFor(window, a[..i])
  {
    RunReaches(window, a, i, i);
    RunHead(Listens(window, a[..i]), window, a, i);
    StopsEnds(window, a[..i], a[i].value);
  }

  lemma GoesOnSnoc(a: seq<Option<Packet>>, x: Option<Packet>)
    requires GoesOn(a) && !Stops(Taken(a), x)
    ensures GoesOn(a + [x])
  {
    assert forall i :: 0 <= i <= |a| ==> (a + [x])[..i] == a[..i];
    assert a[..|a|] == a;
  }

  /** One of the two is the case. */
  lemma {:induction false} GoesOnOrStops(a: seq<Option<Packet>>) returns (i: nat)
    ensures GoesOn(a) || StopsAt(a, i)
  {
    i := 0;
    if a != [] {
      var m := |a| - 1;
      assert a == a[..m] + [a[m]];
      i := GoesOnOrStops(a[..m]);
      if GoesOn(a[..m]) {
        i := m;
        if !Stops(Taken(a[..m]), a[m]) {
          GoesOnSnoc(a[..m], a[m]);
        }
      } else {
        assert a[..m][..i] == a[..i] && a[..m][i] == a[i];
      }
    }
  }

  // ----- the sender

  predicate PlainAck(ack: Packet) { |ack| == 3 && ack[0] == 0 }

  lemma LastIsAcked(frags: seq<seq<byte>>, s: Sender)
    requires InOrder(frags, s) && s.sentLast
    ensures Low8(s.next - 1) == |frags| - 1
  {
  }

  lemma AckTaken(frags: seq<seq<byte>>, s: Sender, ack: Packet)
    requires InOrder(frags, s) && s.phase.AwaitAck?
    ensures var t := TakeAck(s, ack);
      && (t.phase.Sent? ==> PlainAck(ack) && ack[1] == |frags| - 1)
      && (if PlainAck(ack) then !t.phase.SendFailed? else t.phase.SendFailed?)
  {
    if s.sentLast {
      LastIsAcked(frags, s);
    }
  }

  lemma SendStep(frags: seq<seq<byte>>, s: Sender, ack: Packet)
    requires InOrder(frags, s) && s.phase.AwaitAck?
    ensures var t := Drain(frags, TakeAck(s, ack));
      && InOrder(frags, t)
      && (t.phase.Sent? ==> PlainAck(ack) && ack[1] == |frags| - 1)
      && (t.phase.AwaitAck? ==> PlainAck(ack))
  {
    var t := TakeAck(s, ack);
    AckTaken(frags, s, ack);
    TakeAckInOrder(frags, s, ack);
    DrainInOrder(frags, t);
    if t.phase.Burst? {
      DrainAwaits(frags, t);
    }
  }

  lemma {:induction false} DrainAwaits(frags: seq<seq<byte>>, s: Sender)
    requires Indexable(frags, s) && (s.phase.Burst? || s.phase.AwaitAck?)
    ensures Drain(frags, s).phase.AwaitAck?
    decreases if s.phase.Burst? then 1 + Distance(s) else 0
  {
    if s.phase.Burst? {
      DrainAwaits(frags, Write(frags, s));
    }
  }

  /** `send` returns normally only on a plain ack of the last fragment, and only if every ack before
      it was plain: a negative or misshapen one ends it. */
  lemma {:induction false} SendReturnsOnAck(frags: seq<seq<byte>>, s: Sender, acks: seq<Packet>) returns (j: nat)
    requires InOrder(frags, s) && s.phase.AwaitAck? && SendRun(frags, s, acks).phase.Sent?
    ensures j < |acks| && |acks[j]| == 3 && acks[j][1] == |frags| - 1
    ensures forall i :: 0 <= i <= j ==> PlainAck(acks[i])
    decreases |acks|
  {
    var t := Drain(frags, TakeAck(s, acks[0]));
    SendStep(frags, s, acks[0]);
    if t.phase.Sent? {
      j := 0;
    } else {
      j := SendReturnsOnAck(frags, t, acks[1..]);
      j := j + 1;
      assert forall i :: 0 < i <= j ==> acks[i] == acks[1..][i - 1];
    }
  }
}
