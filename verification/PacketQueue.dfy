/** The single-consumer packet queue with timed waits. Every `receive` call has its own
    continuation, numbered from 0; a wait arms a timer that may fire at any later time. */
module PacketQueueModel {
  import opened Bytes

  type Packet = seq<byte>

  // ----- the object

  datatype Waiter = Waiter(id: nat, continuation: nat)

  datatype Queue = Queue(buffer: seq<Packet>, waiter: Option<Waiter>, nextId: nat)

  /** A continuation resumed with a packet, or with nothing on timeout. */
  datatype Resumption = Resumption(continuation: nat, value: Option<Packet>)

  function FeedStep(q: Queue, p: Packet): (Queue, Option<Resumption>) {
    if q.waiter.Some? then (q.(waiter := None), Some(Resumption(q.waiter.value.continuation, Some(p))))
    else (q.(buffer := q.buffer + [p]), None)
  }

  function ReceiveStep(q: Queue, continuation: nat): (Queue, Option<Resumption>) {
    if q.buffer != [] then (q.(buffer := q.buffer[1..]), Some(Resumption(continuation, Some(q.buffer[0]))))
    else (q.(nextId := q.nextId + 1, waiter := Some(Waiter(q.nextId + 1, continuation))), None)
  }

  function ExpireStep(q: Queue, id: nat): (Queue, Option<Resumption>) {
    if q.waiter.Some? && q.waiter.value.id == id then
      (q.(waiter := None), Some(Resumption(q.waiter.value.continuation, None)))
    else (q, None)
  }

  class PacketQueue {
    var buffer: seq<Packet>
    var waiter: Option<Waiter>
    var nextId: nat

    function Fields(): Queue reads this { Queue(buffer, waiter, nextId) }

    constructor ()
      ensures Fields() == Queue([], None, 0)
    {
      buffer, waiter, nextId := [], None, 0;
    }

    method Feed(p: Packet) returns (resume: Option<Resumption>)
      modifies this
      ensures (Fields(), resume) == FeedStep(old(Fields()), p)
    {
      if waiter.Some? {
        resume := Some(Resumption(waiter.value.continuation, Some(p)));
        waiter := None;
      } else {
        buffer := buffer + [p];
        resume := None;
      }
    }

    method Receive(continuation: nat) returns (resume: Option<Resumption>)
      modifies this
      ensures (Fields(), resume) == ReceiveStep(old(Fields()), continuation)
    {
      if buffer != [] {
        var p := buffer[0];
        buffer := buffer[1..];
        return Some(Resumption(continuation, Some(p)));
      }
      nextId := nextId + 1;
      waiter := Some(Waiter(nextId, continuation));
      resume := None;
    }

    method Expire(id: nat) returns (resume: Option<Resumption>)
      modifies this
      ensures (Fields(), resume) == ExpireStep(old(Fields()), id)
    {
      if waiter.None? || waiter.value.id != id {
        return None;
      }
      resume := Some(Resumption(waiter.value.continuation, None));
      waiter := None;
    }
  }

  // ----- every interleaving

  /** `calls` counts `receive` calls; `timers` says which call armed which timer. */
  datatype World = World(q: Queue, fed: seq<Packet>, calls: nat, resumed: seq<Resumption>, timers: map<nat, nat>)

  datatype Event = Feeds(p: Packet) | Receives | Fires(id: nat)

  /** One consumer: it calls again only after its last call returned. */
  predicate Enabled(w: World, e: Event) {
    match e
    case Feeds(_) => true
    case Receives => |w.resumed| == w.calls
    case Fires(id) => id in w.timers
  }

  function Log(w: World, r: Option<Resumption>): seq<Resumption> {
    if r.Some? then w.resumed + [r.value] else w.resumed
  }

  function Step(w: World, e: Event): World {
    if !Enabled(w, e) then w else
    match e
    case Feeds(p) =>
      var (q, r) := FeedStep(w.q, p);
      w.(q := q, fed := w.fed + [p], resumed := Log(w, r))
    case Receives =>
      var (q, r) := ReceiveStep(w.q, w.calls);
      w.(q := q, calls := w.calls + 1, resumed := Log(w, r),
         timers := if r.None? then w.timers[q.nextId := w.calls] else w.timers)
    case Fires(id) =>
      var (q, r) := ExpireStep(w.q, id);
      w.(q := q, resumed := Log(w, r))
  }

  const START := World(Queue([], None, 0), [], 0, [], map[])

  function Run(es: seq<Event>): World {
    if es == [] then START else Step(Run(es[..|es| - 1]), es[|es| - 1])
  }

  /** The packets among the results, in order. */
  function Delivered(rs: seq<Resumption>): seq<Packet> {
    if rs == [] then []
    else Delivered(rs[..|rs| - 1]) + (if rs[|rs| - 1].value.Some? then [rs[|rs| - 1].value.value] else [])
  }

  lemma DeliveredSnoc(rs: seq<Resumption>, r: Resumption)
    ensures Delivered(rs + [r]) == Delivered(rs) + (if r.value.Some? then [r.value.value] else [])
  {
    assert (rs + [r])[..|rs|] == rs;
  }

  predicate WaiterInv(w: World) {
    match w.q.waiter
    case None => |w.resumed| == w.calls
    case Some(x) =>
      && w.q.buffer == []
      && |w.resumed| + 1 == w.calls && x.continuation == w.calls - 1
      && x.id == w.q.nextId && x.id in w.timers && w.timers[x.id] == x.continuation
  }

  predicate TimersInv(w: World) { TimersFrom(w.timers, w.q.nextId, w.calls) }

  predicate Inv(w: World) {
    && Delivered(w.resumed) + w.q.buffer == w.fed
    && WaiterInv(w)
    && TimersInv(w)
    && forall i :: 0 <= i < |w.resumed| ==> w.resumed[i].continuation == i
  }

  lemma FeedsInv(w: World, p: Packet)
    requires Inv(w)
    ensures Inv(Step(w, Feeds(p)))
  {
    var w' := Step(w, Feeds(p));
    if w.q.waiter.Some? {
      DeliveredSnoc(w.resumed, Resumption(w.q.waiter.value.continuation, Some(p)));
    } else {
      assert Delivered(w.resumed) + (w.q.buffer + [p]) == w.fed + [p];
    }
  }

  lemma ReceivesInv(w: World)
    requires Inv(w) && Enabled(w, Receives)
    ensures Inv(Step(w, Receives))
  {
    if w.q.buffer != [] {
      TakesStored(w);
    } else {
      StartsWait(w);
    }
  }

  lemma TakesStored(w: World)
    requires Inv(w) && Enabled(w, Receives) && w.q.buffer != []
    ensures Inv(Step(w, Receives))
  {
    var r := Resumption(w.calls, Some(w.q.buffer[0]));
    assert Step(w, Receives) == w.(q := w.q.(buffer := w.q.buffer[1..]), calls := w.calls + 1,
                                   resumed := w.resumed + [r]);
    DeliveredSnoc(w.resumed, r);
    MoveOver(Delivered(w.resumed), w.q.buffer);
  }

  lemma MoveOver(a: seq<Packet>, b: seq<Packet>)
    requires b != []
    ensures (a + [b[0]]) + b[1..] == a + b
  {
  }

  lemma StartsWait(w: World)
    requires Inv(w) && Enabled(w, Receives) && w.q.buffer == []
    ensures Inv(Step(w, Receives))
  {
    var id := w.q.nextId + 1;
    assert Step(w, Receives) == w.(q := Queue([], Some(Waiter(id, w.calls)), id), calls := w.calls + 1,
                                   timers := w.timers[id := w.calls]);
    ArmedTimers(w.timers, w.q.nextId, w.calls);
  }

  /** Timer ids are handed out in order, one per call. */
  predicate TimersFrom(timers: map<nat, nat>, nextId: nat, calls: nat) {
    && (forall id :: id in timers ==> id <= nextId && timers[id] < calls)
    && (forall a, b :: a in timers && b in timers && timers[a] == timers[b] ==> a == b)
  }

  lemma ArmedTimers(timers: map<nat, nat>, nextId: nat, calls: nat)
    requires TimersFrom(timers, nextId, calls)
    ensures TimersFrom(timers[nextId + 1 := calls], nextId + 1, calls + 1)
  {
  }

  lemma FiresInv(w: World, id: nat)
    requires Inv(w) && Enabled(w, Fires(id))
    ensures Inv(Step(w, Fires(id)))
  {
    if w.q.waiter.Some? {
      DeliveredSnoc(w.resumed, Resumption(w.q.waiter.value.continuation, None));
    }
  }

  lemma StepInv(w: World, e: Event)
    requires Inv(w)
    ensures Inv(Step(w, e))
  {
    if Enabled(w, e) {
      match e {
        case Feeds(p) => FeedsInv(w, p);
        case Receives => ReceivesInv(w);
        case Fires(id) => FiresInv(w, id);
      }
    }
  }

  lemma {:induction false} RunInv(es: seq<Event>)
    ensures Inv(Run(es))
  {
    if es != [] {
      RunInv(es[..|es| - 1]);
      StepInv(Run(es[..|es| - 1]), es[|es| - 1]);
    }
  }

  /** Nothing fed is lost, duplicated or reordered, timeouts or not. */
  lemma FedIsDeliveredPlusBuffer(es: seq<Event>)
    ensures var w := Run(es); Delivered(w.resumed) + w.q.buffer == w.fed
  {
    RunInv(es);
  }

  /** A wait and a stored packet never coexist. */
  lemma {:induction false} WaiterMeansEmpty(es: seq<Event>)
    ensures Run(es).q.waiter.Some? ==> Run(es).q.buffer == []
  {
    RunInv(es);
  }

  /** The calls return one after the other, each once: the i-th result belongs to call i. */
  lemma ResumedOnceInOrder(es: seq<Event>)
    ensures var w := Run(es);
      && (forall i :: 0 <= i < |w.resumed| ==> w.resumed[i].continuation == i)
      && |w.resumed| == w.calls - (if w.q.waiter.Some? then 1 else 0)
  {
    RunInv(es);
  }

  /** A timer ends the wait of the call that armed it, and only while that call still waits: one
      whose call has returned changes nothing, however many waits came after. */
  lemma TimerEndsOnlyItsOwnWait(es: seq<Event>, id: nat)
    requires id in Run(es).timers
    ensures var w := Run(es); var w' := Step(w, Fires(id));
      if w.timers[id] < |w.resumed| then w' == w
      else w' == w.(q := w.q.(waiter := None), resumed := w.resumed + [Resumption(w.timers[id], None)])
  {
    RunInv(es);
  }
}
