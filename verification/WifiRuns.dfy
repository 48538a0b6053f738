/** What the station reports and asks the driver for, over whole runs, in terms of what the client
    staged and what the driver answered. */
module WifiRuns {
  import opened Bytes
  import opened WifiConfigModel

  // ----- success

  /** An apply that takes effect in state `w`. */
  predicate TakesEffect(w: Wifi, e: Event) { e.Applies? && e.present && w.staged.ssid != [] && e.saved }

  /** The last of: an apply that took effect, a reset, a result that found an attempt in flight, was
      a successful result. */
  predicate Joined(attemptsMax: nat, es: seq<Event>) {
    es != [] &&
    var before, e := es[..|es| - 1], es[|es| - 1];
    var w := Run(Start(attemptsMax), before);
    if TakesEffect(w, e) || e.Resets? || e.Reprovisions? then false
    else if e.Results? && w.inflight.ssid != [] then e.success
    else Joined(attemptsMax, before)
  }

  lemma StepConnected(w: Wifi, e: Event)
    requires Inv(w)
    ensures Step(w, e).sta == Connected <==>
      if TakesEffect(w, e) || e.Resets? || e.Reprovisions? then false
      else if e.Results? && w.inflight.ssid != [] then e.success
      else w.sta == Connected
  {
  }

  /** In every run the station reports connected exactly when that is how the last attempt ended. */
  lemma {:induction false} ConnectedExactlyWhenJoined(attemptsMax: nat, es: seq<Event>)
    ensures Run(Start(attemptsMax), es).sta == Connected <==> Joined(attemptsMax, es)
  {
    if es != [] {
      var before := es[..|es| - 1];
      ConnectedExactlyWhenJoined(attemptsMax, before);
      RunInv(Start(attemptsMax), before);
      StepConnected(Run(Start(attemptsMax), before), es[|es| - 1]);
    }
  }

  /** `p` is kept in the store as long as the station is on it. */
  predicate OnStored(w: Wifi, p: Params) {
    && w.snapshot == p
    && (w.sta == Connecting || w.sta == Connected ==> p.ssid in w.stored && w.stored[p.ssid] == p)
  }

  lemma StepOnStored(w: Wifi, e: Event, p: Params)
    requires Inv(w) && OnStored(w, p) && !e.Applies?
    ensures OnStored(Step(w, e), p)
  {
  }

  lemma AppliedOnStored(w: Wifi, e: Event)
    requires Inv(w) && TakesEffect(w, e)
    ensures OnStored(Step(w, e), w.staged)
  {
  }

  /** From an apply that took effect until the next apply, while the station is connecting or
      connected, the store holds what was staged at that apply. */
  lemma {:induction false} AppliedIsStored(attemptsMax: nat, before: seq<Event>, e: Event, after: seq<Event>)
    requires TakesEffect(Run(Start(attemptsMax), before), e) && forall x :: x in after ==> !x.Applies?
    ensures OnStored(Run(Start(attemptsMax), (before + [e]) + after), Run(Start(attemptsMax), before).staged)
    decreases |after|
  {
    var w0 := Start(attemptsMax);
    if after == [] {
      RunInv(w0, before);
      RunSnoc(w0, before, e);
      assert (before + [e]) + after == before + [e];
      AppliedOnStored(Run(w0, before), e);
    } else {
      var m := |after| - 1;
      AppliedIsStored(attemptsMax, before, e, after[..m]);
      assert (before + [e]) + after == ((before + [e]) + after[..m]) + [after[m]];
      RunSnoc(w0, (before + [e]) + after[..m], after[m]);
      RunInv(w0, (before + [e]) + after[..m]);
      assert after[m] in after;
      StepOnStored(Run(w0, (before + [e]) + after[..m]), after[m], Run(w0, before).staged);
    }
  }

  /** After an apply the driver accepts and any number of failed rounds short of the limit, a
      successful result leaves the station connected, nothing in flight, and what was staged at the
      apply in the store. */
  lemma SuccessConnects(attemptsMax: nat, before: seq<Event>, conns: seq<ConnStatus>, conn: ConnStatus)
    requires TakesEffect(Run(Start(attemptsMax), before), Applies(true, true, Accepts))
    requires |conns| < Max(1, attemptsMax)
    ensures var p := Run(Start(attemptsMax), before).staged;
      var es := (before + [Applies(true, true, Accepts)]) + (FailedRounds(conns) + [Results(true, conn)]);
      var w := Run(Start(attemptsMax), es);
      w.sta == Connected && w.inflight == NO_PARAMS && p.ssid in w.stored && w.stored[p.ssid] == p
  {
    var w0, apply, success := Start(attemptsMax), Applies(true, true, Accepts), Results(true, conn);
    var after := FailedRounds(conns) + [success];
    NoApplies(conns);
    AppliedIsStored(attemptsMax, before, apply, after);
    RunInv(w0, before);
    AttemptsMaxFixed(w0, before);
    RunSnoc(w0, before, apply);
    AppliedState(Run(w0, before), true);
    var w1 := Run(w0, before + [apply]);
    if conns != [] {
      RoundsMakeRequests(w1, conns);
    }
    RunAppend(w0, before + [apply], after);
    RunSnoc(w1, FailedRounds(conns), success);
  }

  lemma {:induction false} NoApplies(conns: seq<ConnStatus>)
    ensures forall e :: e in FailedRounds(conns) ==> !e.Applies?
  {
    if conns != [] {
      NoApplies(conns[..|conns| - 1]);
    }
  }

  // ----- connecting is never left hanging

  /** A connect request the driver accepted has not been answered: no result found an attempt in
      flight, and nothing reset the station, since. */
  predicate Awaited(attemptsMax: nat, es: seq<Event>) {
    es != [] &&
    var before, e := es[..|es| - 1], es[|es| - 1];
    var w := Run(Start(attemptsMax), before);
    if TakesEffect(w, e) || (e.TimerFires? && w.timer && w.inflight.ssid != []) then e.d.Accepts?
    else if e.Resets? || e.Reprovisions? || (e.Results? && w.inflight.ssid != []) then false
    else Awaited(attemptsMax, before)
  }

  /** In every run, a connecting station has its retry scheduled or an answer to come. */
  lemma {:induction false} ConnectingIsPending(attemptsMax: nat, es: seq<Event>)
    ensures var w := Run(Start(attemptsMax), es); w.sta == Connecting ==> w.timer || Awaited(attemptsMax, es)
  {
    if es != [] {
      var before := es[..|es| - 1];
      ConnectingIsPending(attemptsMax, before);
      RunInv(Start(attemptsMax), before);
      StepPending(Run(Start(attemptsMax), before), es[|es| - 1], Awaited(attemptsMax, before));
    }
  }

  lemma StepPending(w: Wifi, e: Event, awaited: bool)
    requires Inv(w) && (w.sta == Connecting ==> w.timer || awaited)
    ensures Step(w, e).sta == Connecting ==>
      || Step(w, e).timer
      || (if TakesEffect(w, e) || (e.TimerFires? && w.timer && w.inflight.ssid != []) then e.d.Accepts?
          else if e.Resets? || e.Reprovisions? || (e.Results? && w.inflight.ssid != []) then false
          else awaited)
  {
  }

  /** A request the driver refuses, or that finds no interface, fails the station at once: at the
      apply as an authentication error, at a retry with the reason of the last failure. */
  lemma RefusedFails(attemptsMax: nat, es: seq<Event>, e: Event)
    requires var w := Run(Start(attemptsMax), es);
      TakesEffect(w, e) || (e.TimerFires? && w.timer && w.inflight.ssid != [])
    requires !e.d.Accepts?
    ensures var w := Run(Start(attemptsMax), es); var w' := Step(w, e);
      && w'.sta == Failed && w'.inflight == NO_PARAMS
      && w'.failReason == (if e.TimerFires? && w.lastStatus == ApNotFound then NetworkNotFound else AuthError)
      && (if e.Applies? then w.staged.ssid else w.inflight.ssid) !in w'.stored
  {
    RunInv(Start(attemptsMax), es);
  }

  // ----- what the client staged is what the driver is asked for

  /** What a configuration asks for. */
  predicate Asks(cfg: Config, r: Request) {
    && r.ssid == cfg.ssid
    && (if cfg.pass.Some? && cfg.pass.value != [] then r.psk == cfg.pass && r.security == Psk
        else r.psk == None && r.security == Open)
    && (if cfg.channel.Some? && cfg.channel.value % 256 != 0 then r.channel == cfg.channel.value % 256
        else r.channel == 255)
    && r.bssid == (if cfg.bssid.Some? && |cfg.bssid.value| == 6 then cfg.bssid else None)
  }

  lemma StagedAsks(cfg: Config)
    ensures Asks(cfg, RequestOf(ParamsOf(cfg)))
  {
  }

  /** Nothing that replaces what is staged. */
  predicate KeepsStaged(e: Event) { !e.Sets? && !e.Resets? && !e.Reprovisions? }

  lemma {:induction false} StagedKept(w: Wifi, es: seq<Event>)
    requires forall e :: e in es ==> KeepsStaged(e)
    ensures Run(w, es).staged == w.staged
  {
    if es != [] {
      assert es[|es| - 1] in es;
      StagedKept(w, es[..|es| - 1]);
    }
  }

  /** An SSID of 1 to 32 bytes and a passphrase of at most 63 are taken; anything else is refused and
      changes nothing. */
  lemma SetAccepts(w: Wifi, cfg: Config)
    ensures var (w', status) := Set(w, cfg);
      if 1 <= |cfg.ssid| <= 32 && (cfg.pass.Some? ==> |cfg.pass.value| <= 63)
      then status == StatusOk && Asks(cfg, RequestOf(w'.staged)) && w' == w.(staged := w'.staged)
      else status == InvalidArgument && w' == w
  {
    StagedAsks(cfg);
  }

  /** An apply is answered ok exactly when it takes effect. Without an interface or a staged network it
      changes nothing; if the store refuses it, the network's old entry is gone and nothing else. */
  lemma ApplyAnswers(w: Wifi, e: Event)
    requires e.Applies?
    ensures var (w', status) := Apply(w, e.present, e.saved, e.d);
      && (status == StatusOk <==> TakesEffect(w, e))
      && (!e.present || w.staged.ssid == [] ==> status == InvalidState && w' == w)
      && (status != StatusOk && status != InvalidState ==>
            status == InternalError && w' == w.(stored := w.stored - {w.staged.ssid}))
  {
  }

  /** Set an acceptable configuration, then apply it, whatever happens in between short of another set
      or a reset: until the next apply every connect request asks for exactly that configuration. */
  lemma RequestsAskForConfig(attemptsMax: nat, before: seq<Event>, cfg: Config, between: seq<Event>, apply: Event,
                             after: seq<Event>)
    requires Set(Run(Start(attemptsMax), before), cfg).1 == StatusOk
    requires forall e :: e in between ==> KeepsStaged(e)
    requires TakesEffect(Run(Start(attemptsMax), (before + [Sets(cfg)]) + between), apply)
    requires forall e :: e in after ==> !e.Applies?
    ensures var es := (((before + [Sets(cfg)]) + between) + [apply]) + after;
      forall r :: r in Run(Start(attemptsMax), es).requests ==> Asks(cfg, r)
  {
    var w0, staging := Start(attemptsMax), before + [Sets(cfg)];
    RunSnoc(w0, before, Sets(cfg));
    RunAppend(w0, staging, between);
    StagedKept(Run(w0, staging), between);
    RequestsCarryWhatWasApplied(attemptsMax, staging + between, apply, after);
    StagedAsks(cfg);
  }

  // ----- a reset forgets

  /** Nothing staged, nothing in flight, no retry, and the state a fresh station reports. */
  predicate Idle(w: Wifi) {
    && w.staged == NO_PARAMS && w.inflight == NO_PARAMS && w.attempts == 0 && !w.timer
    && w.sta == Disconnected && w.failReason == AuthError
  }

  lemma {:induction false} IdleStays(w: Wifi, es: seq<Event>)
    requires Idle(w) && forall e :: e in es ==> !e.Sets? && !e.Reprovisions?
    ensures var w' := Run(w, es); Idle(w') && w'.stored == w.stored && w'.requests == w.requests
  {
    if es != [] {
      assert es[|es| - 1] in es;
      IdleStays(w, es[..|es| - 1]);
    }
  }

  /** So is a fresh one: until a network is staged nothing is asked for and nothing stored. */
  lemma {:induction false} FreshIsIdle(attemptsMax: nat, es: seq<Event>)
    requires forall e :: e in es ==> !e.Sets?
    ensures var w := Run(Start(attemptsMax), es); Idle(w) && w.stored == map[] && w.requests == []
  {
    if es != [] {
      assert es[|es| - 1] in es;
      FreshIsIdle(attemptsMax, es[..|es| - 1]);
    }
  }

  /** After a reset, until a network is staged again, every apply is refused and no late result or timer
      changes anything: no connect request is made and the stored networks stay as they were, or, after a
      reprovision, none is left. */
  lemma ResetForgets(attemptsMax: nat, es: seq<Event>, e: Event, after: seq<Event>, apply: Event)
    requires (e.Resets? || e.Reprovisions?) && apply.Applies?
    requires forall x :: x in after ==> !x.Sets? && !x.Reprovisions?
    ensures var w := Run(Start(attemptsMax), es); var w' := Run(Start(attemptsMax), (es + [e]) + after);
      && Idle(w') && w'.requests == w.requests && w'.stored == (if e.Resets? then w.stored else map[])
      && Apply(w', apply.present, apply.saved, apply.d) == (w', InvalidState)
  {
    var w0 := Start(attemptsMax);
    RunSnoc(w0, es, e);
    RunAppend(w0, es + [e], after);
    IdleStays(Run(w0, es + [e]), after);
  }
}
