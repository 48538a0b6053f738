/** The FIFO async mutex. A task is named by its one `acquire` call; the critical sections
    under the inner lock are the atomic steps, and a continuation runs some time after the
    step that resumes it. */
module AsyncMutexModel {
  import opened Bytes

  // ----- the object

  datatype Mutex = Mutex(locked: bool, waiters: seq<nat>)

  /** `acquire`: the new fields, and whether the caller's continuation is resumed at once. */
  function AcquireStep(m: Mutex, t: nat): (Mutex, bool) {
    if !m.locked then (m.(locked := true), true) else (m.(waiters := m.waiters + [t]), false)
  }

  /** `release`: the new fields, and the waiter whose continuation is resumed, if any. */
  function ReleaseStep(m: Mutex): (Mutex, Option<nat>) {
    if m.waiters == [] then (m.(locked := false), None)
    else (m.(waiters := m.waiters[1..]), Some(m.waiters[0]))
  }

  class AsyncMutex {
    var locked: bool
    var waiters: seq<nat>

    function Fields(): Mutex reads this { Mutex(locked, waiters) }

    constructor ()
      ensures Fields() == Mutex(false, [])
    {
      locked, waiters := false, [];
    }

    method Acquire(t: nat) returns (resumed: bool)
      modifies this
      ensures (Fields(), resumed) == AcquireStep(old(Fields()), t)
    {
      if !locked {
        locked := true;
        resumed := true;
      } else {
        waiters := waiters + [t];
        resumed := false;
      }
    }

    method Release() returns (next: Option<nat>)
      modifies this
      ensures (Fields(), next) == ReleaseStep(old(Fields()))
    {
      if waiters == [] {
        locked := false;
        next := None;
      } else {
        next := Some(waiters[0]);
        waiters := waiters[1..];
      }
    }
  }

  // ----- every interleaving

  /** `arrivals`: tasks in the order of their `acquire` critical sections. `granted`: tasks in
      the order they were given the lock. `running`: tasks whose `acquire` has returned.
      `released`: tasks that have released. */
  datatype World = World(m: Mutex, arrivals: seq<nat>, granted: seq<nat>, running: seq<nat>, released: seq<nat>)

  datatype Event = Acquires(t: nat) | Continues(t: nat) | Releases(t: nat)

  /** Inside its critical region: `acquire` has returned and `release` has not been called. */
  predicate Holds(w: World, t: nat) { t in w.running && t !in w.released }

  predicate Enabled(w: World, e: Event) {
    match e
    case Acquires(t) => t !in w.arrivals
    case Continues(t) => t in w.granted && t !in w.running
    case Releases(t) => Holds(w, t)
  }

  function Step(w: World, e: Event): World {
    if !Enabled(w, e) then w else
    match e
    case Acquires(t) =>
      var (m, resumed) := AcquireStep(w.m, t);
      w.(m := m, arrivals := w.arrivals + [t], granted := if resumed then w.granted + [t] else w.granted)
    case Continues(t) => w.(running := w.running + [t])
    case Releases(t) =>
      var (m, next) := ReleaseStep(w.m);
      w.(m := m, released := w.released + [t], granted := if next.Some? then w.granted + [next.value] else w.granted)
  }

  const START := World(Mutex(false, []), [], [], [], [])

  function Run(es: seq<Event>): World {
    if es == [] then START else Step(Run(es[..|es| - 1]), es[|es| - 1])
  }

  predicate Distinct(s: seq<nat>) { forall i, j :: 0 <= i < j < |s| ==> s[i] != s[j] }

  predicate Inv(w: World) {
    && Distinct(w.arrivals)
    && w.arrivals == w.granted + w.m.waiters
    && w.released <= w.running <= w.granted
    && |w.granted| == |w.released| + (if w.m.locked then 1 else 0)
    && (!w.m.locked ==> w.m.waiters == [])
  }

  /** The one task that may run or release is the last one granted. */
  lemma OwnerIsLastGranted(w: World, t: nat)
    requires Inv(w)
    ensures t in w.granted && t !in w.released <==> w.m.locked && t == w.granted[|w.granted| - 1]
  {
    var k := |w.released|;
    assert w.released == w.granted[..k];
    if w.m.locked {
      assert forall i :: 0 <= i < |w.granted| ==> w.granted[i] == w.arrivals[i];
      assert forall i :: 0 <= i < k ==> w.released[i] == w.arrivals[i] != w.arrivals[k];
    }
  }

  lemma StepInv(w: World, e: Event)
    requires Inv(w)
    ensures Inv(Step(w, e))
  {
    if Enabled(w, e) {
      match e {
        case Acquires(t) => AcquiresInv(w, t);
        case Continues(t) => ContinuesInv(w, t);
        case Releases(t) => ReleasesInv(w, t);
      }
    }
  }

  lemma AcquiresInv(w: World, t: nat)
    requires Inv(w) && t !in w.arrivals
    ensures Inv(Step(w, Acquires(t)))
  {
    assert (w.granted + [t]) + [] == w.granted + [t];
  }

  lemma ContinuesInv(w: World, t: nat)
    requires Inv(w) && Enabled(w, Continues(t))
    ensures Inv(Step(w, Continues(t)))
  {
    OwnerIsLastGranted(w, t);
    assert w.running + [t] == w.granted;
  }

  lemma ReleasesInv(w: World, t: nat)
    requires Inv(w) && Enabled(w, Releases(t))
    ensures Inv(Step(w, Releases(t)))
  {
    assert t in w.granted;
    OwnerIsLastGranted(w, t);
    assert w.released + [t] == w.granted;
    var w' := Step(w, Releases(t));
    if w.m.waiters != [] {
      assert w'.granted + w'.m.waiters == w.arrivals;
    }
  }

  lemma {:induction false} RunInv(es: seq<Event>)
    ensures Inv(Run(es))
  {
    if es != [] {
      RunInv(es[..|es| - 1]);
      StepInv(Run(es[..|es| - 1]), es[|es| - 1]);
    }
  }

  /** At most one task is inside its critical region. */
  lemma MutualExclusion(es: seq<Event>, t: nat, u: nat)
    requires Holds(Run(es), t) && Holds(Run(es), u)
    ensures t == u
  {
    RunInv(es);
    OwnerIsLastGranted(Run(es), t);
    OwnerIsLastGranted(Run(es), u);
  }

  /** A queued task means the lock is owned by some other task, so a release is still to come. */
  lemma NoLostWakeup(es: seq<Event>)
    ensures var w := Run(es);
      w.m.waiters != [] ==>
        && w.m.locked && w.granted != []
        && w.granted[|w.granted| - 1] !in w.released && w.granted[|w.granted| - 1] !in w.m.waiters
  {
    RunInv(es);
    var w := Run(es);
    if w.m.waiters != [] {
      var last := w.granted[|w.granted| - 1];
      OwnerIsLastGranted(w, last);
      assert w.arrivals[|w.granted| - 1] == last;
      assert forall i :: 0 <= i < |w.m.waiters| ==> w.m.waiters[i] == w.arrivals[|w.granted| + i];
    }
  }

  function Min(a: nat, b: nat): nat { if a < b then a else b }

  /** The lock goes to the tasks in the order they asked, never to a later one first, and each
      release lets in exactly the next one: after k releases the first k + 1 have had it. */
  lemma GrantedInArrivalOrder(es: seq<Event>)
    ensures var w := Run(es); w.granted == w.arrivals[..Min(|w.arrivals|, |w.released| + 1)]
  {
    RunInv(es);
  }

  /** No continuation is resumed twice. */
  lemma ResumedOnce(es: seq<Event>)
    ensures Distinct(Run(es).granted) && Distinct(Run(es).running)
  {
    RunInv(es);
    var w := Run(es);
    assert forall i :: 0 <= i < |w.granted| ==> w.granted[i] == w.arrivals[i];
  }
}
