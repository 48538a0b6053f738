/** The Wi-Fi station state machine: staged parameters, the attempt in flight, the retry
    timer, and the stored networks, driven by requests, driver results and the timer. */
module WifiConfigModel {
  import opened Bytes

  const SSID_MAX := 32
  const PASS_MAX := 63
  const MAC_LEN := 6
  const CHANNEL_ANY := 255

  // ----- state

  datatype Sta = Connected | Connecting | Disconnected | Failed
  datatype FailReason = AuthError | NetworkNotFound
  datatype Status = StatusOk | InvalidArgument | InternalError | InvalidState
  datatype ConnStatus = ApNotFound | WrongPassword | OtherStatus(code: int)

  datatype Params = Params(ssid: seq<byte>, pass: seq<byte>, bssid: Option<seq<byte>>, channel: byte)

  const NO_PARAMS := Params([], [], None, 0)

  /** What a client sends to stage a network. */
  datatype Config = Config(ssid: seq<byte>, pass: Option<seq<byte>>, bssid: Option<seq<byte>>, channel: Option<nat>)

  /** What the driver is asked: a key only for a non-empty passphrase, any channel for none. */
  datatype Request =
    Request(ssid: seq<byte>, psk: Option<seq<byte>>, security: Security, channel: nat, bssid: Option<seq<byte>>)

  datatype Security = Open | Psk

  function RequestOf(p: Params): Request {
    Request(p.ssid,
            if p.pass != [] then Some(p.pass) else None,
            if p.pass != [] then Psk else Open,
            if p.channel > 0 then p.channel else CHANNEL_ANY,
            p.bssid)
  }

  /** How the environment answers a connect attempt made now. */
  datatype Driver = NoInterface | Rejects | Accepts

  /** `timer`: the retry is scheduled. `stored`: the networks in the credential store.
      `requests` and `snapshot` remember the connect requests since the last effective apply and
      the parameters staged at that moment; no step reads them. */
  datatype Wifi = Wifi(
    staged: Params,
    inflight: Params,
    attemptsMax: nat,
    attempts: nat,
    lastStatus: ConnStatus,
    sta: Sta,
    failReason: FailReason,
    timer: bool,
    stored: map<seq<byte>, Params>,
    requests: seq<Request>,
    snapshot: Params)

  function Start(attemptsMax: nat): Wifi {
    Wifi(NO_PARAMS, NO_PARAMS, attemptsMax, 0, OtherStatus(0), Disconnected, AuthError, false, map[], [], NO_PARAMS)
  }

  // ----- steps

  function Connect(w: Wifi, d: Driver): (Wifi, bool) {
    if d.NoInterface? then (w, false) else (w.(requests := w.requests + [RequestOf(w.inflight)]), d.Accepts?)
  }

  function FinalFailure(w: Wifi): Wifi {
    w.(sta := Failed,
       failReason := if w.lastStatus == ApNotFound then NetworkNotFound else AuthError,
       stored := w.stored - {w.inflight.ssid},
       inflight := NO_PARAMS)
  }

  function RetryFires(w: Wifi, d: Driver): Wifi {
    var w := w.(timer := false);
    if w.inflight.ssid == [] then w else
    var (w', ok) := Connect(w, d);
    if ok then w' else FinalFailure(w')
  }

  function ConnectResult(w: Wifi, success: bool, conn: ConnStatus): Wifi {
    if w.inflight.ssid == [] then w
    else if success then w.(sta := Connected, inflight := NO_PARAMS)
    else
      var w := w.(lastStatus := conn);
      if w.attemptsMax > 0 then
        var w := w.(attempts := w.attempts + 1);
        if w.attempts < w.attemptsMax then w.(sta := Connecting, timer := true) else FinalFailure(w)
      else FinalFailure(w)
  }

  function Reset(w: Wifi): Wifi {
    w.(inflight := NO_PARAMS, timer := false, staged := NO_PARAMS, attempts := 0, sta := Disconnected,
       failReason := AuthError)
  }

  function Reprovision(w: Wifi): Wifi { Reset(w.(stored := map[])) }

  predicate ConfigOk(cfg: Config) {
    1 <= |cfg.ssid| <= SSID_MAX && (cfg.pass.Some? ==> |cfg.pass.value| <= PASS_MAX)
  }

  function ParamsOf(cfg: Config): Params {
    Params(cfg.ssid,
           if cfg.pass.Some? then cfg.pass.value else [],
           if cfg.bssid.Some? && |cfg.bssid.value| == MAC_LEN then cfg.bssid else None,
           if cfg.channel.Some? then Low8(cfg.channel.value) else 0)
  }

  function Set(w: Wifi, cfg: Config): (Wifi, Status) {
    if ConfigOk(cfg) then (w.(staged := ParamsOf(cfg)), StatusOk) else (w, InvalidArgument)
  }

  /** `present`: an interface exists when the request arrives. `saved`: the store accepts it. */
  function Apply(w: Wifi, present: bool, saved: bool, d: Driver): (Wifi, Status) {
    if !present || w.staged.ssid == [] then (w, InvalidState) else
    var w := w.(stored := w.stored - {w.staged.ssid});
    if !saved then (w, InternalError) else
    (Begin(w.(stored := w.stored[w.staged.ssid := w.staged]), d), StatusOk)
  }

  /** A fresh attempt with the staged parameters. */
  function Begin(w: Wifi, d: Driver): Wifi {
    var (w', ok) := Connect(Snapshot(w), d);
    if ok then w' else FinalFailure(w'.(lastStatus := WrongPassword))
  }

  function Snapshot(w: Wifi): Wifi {
    w.(sta := Connecting, timer := false, inflight := w.staged, attempts := 0, requests := [], snapshot := w.staged)
  }

  // ----- runs

  datatype Event =
    | Sets(cfg: Config)
    | Applies(present: bool, saved: bool, d: Driver)
    | Results(success: bool, conn: ConnStatus)
    | TimerFires(d: Driver)
    | Resets
    | Reprovisions

  function Step(w: Wifi, e: Event): Wifi {
    match e
    case Sets(cfg) => Set(w, cfg).0
    case Applies(present, saved, d) => Apply(w, present, saved, d).0
    case Results(success, conn) => ConnectResult(w, success, conn)
    case TimerFires(d) => if w.timer then RetryFires(w, d) else w
    case Resets => Reset(w)
    case Reprovisions => Reprovision(w)
  }

  function Run(w: Wifi, es: seq<Event>): Wifi {
    if es == [] then w else Step(Run(w, es[..|es| - 1]), es[|es| - 1])
  }

  function Max(a: nat, b: nat): nat { if a < b then b else a }

  /** Requests made, and the one the timer may still make, against attempts used up. */
  predicate CountInv(w: Wifi) {
    && (w.sta == Connecting ==> |w.requests| + (if w.timer then 1 else 0) <= w.attempts + 1)
    && (w.sta == Connecting && w.attemptsMax > 0 ==> w.attempts < w.attemptsMax)
    && (w.sta == Connecting && w.attemptsMax == 0 ==> w.attempts == 0)
    && |w.requests| <= Max(1, w.attemptsMax)
  }

  predicate Inv(w: Wifi) {
    && (w.sta == Connecting <==> w.inflight.ssid != [])
    && (w.sta == Connecting ==> w.inflight == w.snapshot)
    && (forall r :: r in w.requests ==> r == RequestOf(w.snapshot))
    && (w.sta == Failed ==> w.snapshot.ssid !in w.stored)
    && (w.attemptsMax == 0 && w.sta == Connecting ==> !w.timer)
    && CountInv(w)
  }

  lemma ConnectInv(w: Wifi, d: Driver)
    requires Inv(w) && w.sta == Connecting && !w.timer && |w.requests| <= w.attempts
    ensures var (w', ok) := Connect(w, d); Inv(w') && Inv(FinalFailure(w')) && w'.sta == Connecting
  {
  }

  lemma BeginInv(w: Wifi, d: Driver)
    requires Inv(w) && w.staged.ssid != []
    ensures Inv(Begin(w, d))
  {
    var w1 := Snapshot(w);
    var (w', ok) := Connect(w1, d);
    assert w'.requests == [] || w'.requests == [RequestOf(w.staged)];
  }

  lemma ApplyInv(w: Wifi, present: bool, saved: bool, d: Driver)
    requires Inv(w)
    ensures Inv(Apply(w, present, saved, d).0)
  {
    if present && saved && w.staged.ssid != [] {
      // The station may still report an old failure here; a new attempt starts at once.
      var w1 := w.(stored := (w.stored - {w.staged.ssid})[w.staged.ssid := w.staged], sta := Disconnected,
                    inflight := NO_PARAMS);
      assert Inv(w1);
      BeginInv(w1, d);
      assert Snapshot(w1) == Snapshot(w.(stored := w1.stored));
    }
  }

  lemma ResultInv(w: Wifi, success: bool, conn: ConnStatus)
    requires Inv(w)
    ensures Inv(ConnectResult(w, success, conn))
  {
  }

  lemma TimerInv(w: Wifi, d: Driver)
    requires Inv(w) && w.timer
    ensures Inv(RetryFires(w, d))
  {
    if w.sta == Connecting {
      ConnectInv(w.(timer := false), d);
    }
  }

  lemma StepInv(w: Wifi, e: Event)
    requires Inv(w)
    ensures Inv(Step(w, e))
  {
    match e {
      case Applies(present, saved, d) => ApplyInv(w, present, saved, d);
      case Results(success, conn) => ResultInv(w, success, conn);
      case TimerFires(d) => if w.timer { TimerInv(w, d); }
      case _ =>
    }
  }

  lemma {:induction false} RunInv(w: Wifi, es: seq<Event>)
    requires Inv(w)
    ensures Inv(Run(w, es))
  {
    if es != [] {
      RunInv(w, es[..|es| - 1]);
      StepInv(Run(w, es[..|es| - 1]), es[|es| - 1]);
    }
  }

  lemma {:induction false} AttemptsMaxFixed(w: Wifi, es: seq<Event>)
    ensures Run(w, es).attemptsMax == w.attemptsMax
  {
    if es != [] {
      AttemptsMaxFixed(w, es[..|es| - 1]);
    }
  }

  /** The station reports `connecting` exactly while an attempt is in flight. */
  lemma {:induction false} ConnectingIffInFlight(attemptsMax: nat, es: seq<Event>)
    ensures var w := Run(Start(attemptsMax), es); w.sta == Connecting <==> w.inflight.ssid != []
  {
    RunInv(Start(attemptsMax), es);
  }

  /** One apply leads to at most max(1, attempts_max) connect requests, whatever the driver and
      the timer do. */
  lemma RequestsBounded(attemptsMax: nat, es: seq<Event>)
    ensures |Run(Start(attemptsMax), es).requests| <= Max(1, attemptsMax)
  {
    RunInv(Start(attemptsMax), es);
    AttemptsMaxFixed(Start(attemptsMax), es);
  }

  /** A failed station leaves the network it was last told to join out of the store. */
  lemma FailedIsNotStored(attemptsMax: nat, es: seq<Event>)
    ensures var w := Run(Start(attemptsMax), es); w.sta == Failed ==> w.snapshot.ssid !in w.stored
  {
    RunInv(Start(attemptsMax), es);
  }

  /** Out of `connecting`, only an apply or a reset changes what the station reports. */
  lemma {:induction false} SettledStays(attemptsMax: nat, es: seq<Event>, e: Event)
    requires Run(Start(attemptsMax), es).sta != Connecting
    requires e.Sets? || e.Results? || e.TimerFires?
    ensures var w := Run(Start(attemptsMax), es);
      Step(w, e).sta == w.sta && Step(w, e).failReason == w.failReason && Step(w, e).requests == w.requests
  {
    RunInv(Start(attemptsMax), es);
  }

  lemma RunSnoc(w: Wifi, es: seq<Event>, e: Event)
    ensures Run(w, es + [e]) == Step(Run(w, es), e)
  {
    assert (es + [e])[..|es|] == es;
  }

  lemma {:induction false} SnapshotFixed(w: Wifi, es: seq<Event>)
    requires forall e :: e in es ==> !e.Applies?
    ensures Run(w, es).snapshot == w.snapshot
  {
    if es != [] {
      var m := |es| - 1;
      SnapshotFixed(w, es[..m]);
      assert es[m] in es;
    }
  }

  lemma {:induction false} RunAppend(w: Wifi, a: seq<Event>, b: seq<Event>)
    ensures Run(w, a + b) == Run(Run(w, a), b)
    decreases |b|
  {
    if b == [] {
      assert a + b == a;
    } else {
      var m := |b| - 1;
      assert a + b == (a + b[..m]) + [b[m]];
      RunSnoc(w, a + b[..m], b[m]);
      RunAppend(w, a, b[..m]);
    }
  }

  /** After an accepted apply, and until the next one, every connect request carries what was
      staged when it was accepted, whatever is staged since, and a failure removes that network. */
  lemma RequestsCarryWhatWasApplied(attemptsMax: nat, before: seq<Event>, e: Event, after: seq<Event>)
    requires e.Applies? && Apply(Run(Start(attemptsMax), before), e.present, e.saved, e.d).1 == StatusOk
    requires forall x :: x in after ==> !x.Applies?
    ensures var p := Run(Start(attemptsMax), before).staged;
      var w := Run(Start(attemptsMax), (before + [e]) + after);
      && (forall r :: r in w.requests ==> r == RequestOf(p))
      && (w.sta == Connecting ==> w.inflight == p)
      && (w.sta == Failed ==> p.ssid !in w.stored)
  {
    var w0 := Start(attemptsMax);
    RunSnoc(w0, before, e);
    RunAppend(w0, before + [e], after);
    SnapshotFixed(Run(w0, before + [e]), after);
    RunInv(w0, (before + [e]) + after);
  }

  // ----- a driver that always fails is tried exactly max(1, attempts_max) times

  /** One failure after the other, each followed by a retry the driver accepts. */
  function FailedRounds(conns: seq<ConnStatus>): seq<Event> {
    if conns == [] then []
    else FailedRounds(conns[..|conns| - 1]) + [Results(false, conns[|conns| - 1])] + [TimerFires(Accepts)]
  }

  lemma {:induction false} RoundsMakeRequests(w: Wifi, conns: seq<ConnStatus>)
    requires Inv(w) && w.sta == Connecting && !w.timer && w.attempts == 0 && |w.requests| == 1
    requires |conns| < w.attemptsMax
    ensures var w' := Run(w, FailedRounds(conns));
      && Inv(w') && w'.sta == Connecting && !w'.timer && w'.attempts == |conns| && |w'.requests| == |conns| + 1
      && w'.attemptsMax == w.attemptsMax
  {
    if conns != [] {
      var m := |conns| - 1;
      var es := FailedRounds(conns[..m]);
      var fails := Results(false, conns[m]);
      RoundsMakeRequests(w, conns[..m]);
      RunSnoc(w, es, fails);
      RunSnoc(w, es + [fails], TimerFires(Accepts));
      OneRound(Run(w, es), conns[m]);
    }
  }

  lemma OneRound(w: Wifi, conn: ConnStatus)
    requires Inv(w) && w.sta == Connecting && !w.timer && w.attempts + 1 < w.attemptsMax
    ensures var w' := Step(Step(w, Results(false, conn)), TimerFires(Accepts));
      && Inv(w') && w'.sta == Connecting && !w'.timer && w'.attempts == w.attempts + 1
      && |w'.requests| == |w.requests| + 1 && w'.attemptsMax == w.attemptsMax
  {
    StepInv(w, Results(false, conn));
    StepInv(Step(w, Results(false, conn)), TimerFires(Accepts));
  }

  /** The state an accepted apply leaves when the driver takes the request. */
  lemma AppliedState(w: Wifi, saved: bool)
    requires Inv(w) && Apply(w, true, saved, Accepts).1 == StatusOk
    ensures var w' := Step(w, Applies(true, saved, Accepts));
      && Inv(w') && w'.sta == Connecting && !w'.timer && w'.attempts == 0 && |w'.requests| == 1
      && w'.attemptsMax == w.attemptsMax
  {
    StepInv(w, Applies(true, saved, Accepts));
  }

  lemma LastFailure(w: Wifi, conn: ConnStatus)
    requires Inv(w) && w.sta == Connecting && w.attempts + 1 >= w.attemptsMax
    ensures var w' := Step(w, Results(false, conn));
      && w'.sta == Failed && w'.requests == w.requests
      && w'.failReason == if conn == ApNotFound then NetworkNotFound else AuthError
  {
  }

  /** If every attempt fails, whatever the statuses, and every retry is accepted, the station gives
      up after exactly max(1, attempts_max) requests, and the last status alone decides the reason. */
  lemma GivesUpAfterAllAttempts(attemptsMax: nat, before: seq<Event>, saved: bool, conns: seq<ConnStatus>,
                                last: ConnStatus)
    requires Apply(Run(Start(attemptsMax), before), true, saved, Accepts).1 == StatusOk
    requires |conns| + 1 == Max(1, attemptsMax)
    ensures var es := (before + [Applies(true, saved, Accepts)]) + FailedRounds(conns);
      var w := Run(Start(attemptsMax), es + [Results(false, last)]);
      && w.sta == Failed && |w.requests| == Max(1, attemptsMax)
      && w.failReason == if last == ApNotFound then NetworkNotFound else AuthError
  {
    var w0, apply := Start(attemptsMax), Applies(true, saved, Accepts);
    RunInv(w0, before);
    AttemptsMaxFixed(w0, before);
    RunSnoc(w0, before, apply);
    AppliedState(Run(w0, before), saved);
    RunAppend(w0, before + [apply], FailedRounds(conns));
    if conns != [] {
      RoundsMakeRequests(Run(w0, before + [apply]), conns);
    }
    var es := (before + [apply]) + FailedRounds(conns);
    RunSnoc(w0, es, Results(false, last));
    LastFailure(Run(w0, es), last);
  }

  // ----- the object

  class WifiConfig {
    var staged: Params
    var inflight: Params
    var attemptsMax: nat
    var attempts: nat
    var lastStatus: ConnStatus
    var sta: Sta
    var failReason: FailReason
    var retryScheduled: bool
    var stored: map<seq<byte>, Params>
    ghost var requests: seq<Request>
    ghost var snapshot: Params

    ghost function View(): Wifi reads this {
      Wifi(staged, inflight, attemptsMax, attempts, lastStatus, sta, failReason, retryScheduled, stored, requests,
           snapshot)
    }

    constructor (connAttempts: nat)
      ensures View() == Start(connAttempts)
    {
      staged, inflight := NO_PARAMS, NO_PARAMS;
      attemptsMax, attempts, lastStatus := connAttempts, 0, OtherStatus(0);
      sta, failReason, retryScheduled := Disconnected, AuthError, false;
      stored, requests, snapshot := map[], [], NO_PARAMS;
    }

    method ConnectFromInflight(d: Driver) returns (ok: bool)
      modifies this`requests
      ensures (View(), ok) == Connect(old(View()), d)
    {
      if d.NoInterface? {
        return false;
      }
      requests := requests + [RequestOf(inflight)];
      ok := d.Accepts?;
    }

    method DoFinalFailure()
      modifies this
      ensures View() == FinalFailure(old(View()))
    {
      sta := Failed;
      failReason := if lastStatus == ApNotFound then NetworkNotFound else AuthError;
      stored := stored - {inflight.ssid};
      inflight := NO_PARAMS;
    }

    method RetryWork(d: Driver)
      modifies this
      ensures View() == RetryFires(old(View()), d)
    {
      retryScheduled := false;
      if inflight.ssid == [] {
        return;
      }
      var ok := ConnectFromInflight(d);
      if !ok {
        DoFinalFailure();
      }
    }

    method OnConnectResult(success: bool, conn: ConnStatus)
      modifies this
      ensures View() == ConnectResult(old(View()), success, conn)
    {
      if inflight.ssid == [] {
        return;
      }
      if success {
        sta := Connected;
        inflight := NO_PARAMS;
        return;
      }
      lastStatus := conn;
      if attemptsMax > 0 {
        attempts := attempts + 1;
        if attempts < attemptsMax {
          sta := Connecting;
          retryScheduled := true;
          return;
        }
      }
      DoFinalFailure();
    }

    method DoReset()
      modifies this
      ensures View() == Reset(old(View()))
    {
      inflight := NO_PARAMS;
      retryScheduled := false;
      staged := NO_PARAMS;
      attempts := 0;
      sta := Disconnected;
      failReason := AuthError;
    }

    method DoReprovision()
      modifies this
      ensures View() == Reprovision(old(View()))
    {
      stored := map[];
      DoReset();
    }

    method DoSet(cfg: Config) returns (status: Status)
      modifies this
      ensures (View(), status) == Set(old(View()), cfg)
    {
      if |cfg.ssid| == 0 || |cfg.ssid| > SSID_MAX {
        return InvalidArgument;
      }
      if cfg.pass.Some? && |cfg.pass.value| > PASS_MAX {
        return InvalidArgument;
      }
      staged := Params(cfg.ssid, [], None, 0);
      if cfg.pass.Some? {
        staged := staged.(pass := cfg.pass.value);
      }
      if cfg.bssid.Some? && |cfg.bssid.value| == MAC_LEN {
        staged := staged.(bssid := cfg.bssid);
      }
      if cfg.channel.Some? {
        staged := staged.(channel := Low8(cfg.channel.value));
      }
      status := StatusOk;
    }

    method DoApply(present: bool, saved: bool, d: Driver) returns (status: Status)
      modifies this
      ensures (View(), status) == Apply(old(View()), present, saved, d)
    {
      if !present || staged.ssid == [] {
        return InvalidState;
      }
      stored := stored - {staged.ssid};
      if !saved {
        return InternalError;
      }
      stored := stored[staged.ssid := staged];
      TakeSnapshot();
      var ok := ConnectFromInflight(d);
      if !ok {
        lastStatus := WrongPassword;
        DoFinalFailure();
      }
      status := StatusOk;
    }

    /** The part of `do_apply` that copies the staged parameters into the attempt in flight. */
    method TakeSnapshot()
      modifies this
      ensures View() == Snapshot(old(View()))
    {
      sta := Connecting;
      retryScheduled := false;
      inflight := staged;
      attempts := 0;
      requests, snapshot := [], staged;
    }
  }
}
