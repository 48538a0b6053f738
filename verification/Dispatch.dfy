/** The device's downlink dispatcher and the proof-of-possession state machine behind it. */
module DispatchModel {
  import opened Bytes

  const MSG_MAX: nat := 384
  const CONTENT_TYPE_CBOR := 60
  const NONCE_LEN := 16
  const PROOF_LEN := 32
  const MAX_ATTEMPTS := 3

  /** Nonces and proofs are octets as bit vectors, because the comparison works on their bits. */
  type Octets = seq<bv8>

  // ----- endpoints

  datatype Handler = Ver | Auth | Ctrl | Config | Scan | Cred

  datatype Endpoint = Endpoint(path: string, handler: Handler, requireAuth: bool)

  const ENDPOINTS: seq<Endpoint> := [
    Endpoint(".prov/ver", Ver, false),
    Endpoint(".prov/auth", Auth, false),
    Endpoint(".prov/ctrl", Ctrl, true),
    Endpoint(".prov/config", Config, true),
    Endpoint(".prov/scan", Scan, true),
    Endpoint(".prov/cred", Cred, true)
  ]

  /** The first endpoint from `i` on with that path. */
  function FindFrom(path: string, i: nat): (r: Option<Endpoint>)
    requires i <= |ENDPOINTS|
    ensures r.Some? ==> r.value in ENDPOINTS && r.value.path == path
    decreases |ENDPOINTS| - i
  {
    if i == |ENDPOINTS| then None
    else if ENDPOINTS[i].path == path then Some(ENDPOINTS[i])
    else FindFrom(path, i + 1)
  }

  function EndpointOf(path: string): (r: Option<Endpoint>)
    ensures r.Some? ==> r.value in ENDPOINTS && r.value.path == path
  {
    FindFrom(path, 0)
  }

  // ----- the environment

  /** A decoded `.prov/auth` request. */
  datatype AuthMsg = Challenge(nonce: Octets) | Proof(proof: Octets) | Undecodable

  /** `pop`: the configured secret. `decode`: the generated decoder of `.prov/auth` requests.
      `hmac`: HMAC-SHA256 of a three-letter tag and two nonces under the secret. */
  datatype Env = Env(pop: Option<seq<byte>>, decode: seq<byte> -> AuthMsg,
                     hmac: (seq<byte>, string, Octets, Octets) -> Octets)

  /** The digest has its fixed length. */
  ghost predicate EnvOk(env: Env) {
    forall key, tag, a, b :: |env.hmac(key, tag, a, b)| == PROOF_LEN
  }

  /** What is sent back on the endpoint's path: a bare `[op, status]`, one of the two responses of
      `.prov/auth`, whatever another handler encodes, or nothing. */
  datatype Reply =
    | NoReply
    | StatusReply(op: nat, status: nat)
    | ChallengeReply(devNonce: Octets, devProof: Octets)
    | ProofReply(status: nat)
    | HandlerReply(bytes: seq<byte>)

  /** What a handler returns: a response, `-EBADMSG`, or another error. */
  datatype Result = Answers(reply: Reply) | BadMessage | Fails

  /** What one call gets from outside: the random device nonce, whether the crypto service works,
      whether a `ctrl` handler that runs ends the session, and what a handler other than that of
      `.prov/auth` returns. */
  datatype Outside = Outside(random: Octets, crypto: bool, ends: bool, result: Result)

  const STATUS_OK := 0
  const STATUS_INVALID_ARGUMENT := 2
  const STATUS_INTERNAL_ERROR := 3
  const STATUS_UNAUTHORIZED := 4
  const STATUS_INVALID_STATE := 5

  // ----- proof of possession

  datatype AuthState = AuthState(cliNonce: Octets, devNonce: Octets, challenged: bool, attempts: byte)

  const NO_AUTH := AuthState([], [], false, 0)

  /** The state after a request, whether it authorizes the session, and what the handler returns. */
  function HandleAuth(env: Env, a: AuthState, msg: seq<byte>, o: Outside): (AuthState, bool, Result) {
    match env.decode(msg)
    case Undecodable => (a, false, BadMessage)
    case Challenge(nonce) =>
      if |nonce| != NONCE_LEN then (a, false, BadMessage) else
      var a := a.(cliNonce := nonce, devNonce := o.random, challenged := true);
      if !o.crypto || env.pop.None? then (a, false, Fails)
      else (a, false, Answers(ChallengeReply(o.random, env.hmac(env.pop.value, "dev", nonce, o.random))))
    case Proof(proof) =>
      if !a.challenged || |proof| != PROOF_LEN then (a, false, Answers(ProofReply(STATUS_INVALID_STATE))) else
      var a := a.(attempts := Low8(a.attempts + 1));
      if a.attempts > MAX_ATTEMPTS then (a, false, Answers(ProofReply(STATUS_UNAUTHORIZED)))
      else if !o.crypto || env.pop.None? then (a, false, Fails)
      else if env.hmac(env.pop.value, "cli", a.devNonce, a.cliNonce) != proof then
        (a, false, Answers(ProofReply(STATUS_UNAUTHORIZED)))
      else (a, true, Answers(ProofReply(STATUS_OK)))
  }

  // ----- dispatch

  /** `buf` are the bytes accumulated for the entry at hand. */
  datatype Dispatch = Dispatch(endpoint: Option<Endpoint>, buf: seq<byte>, overflow: bool,
                               authorized: bool, auth: AuthState)

  const FRESH := Dispatch(None, [], false, false, NO_AUTH)

  /** What a completed entry led to, and what was sent back. */
  datatype Action =
    | Overflowed(ep: Endpoint, reply: Reply)
    | Unauthorized(ep: Endpoint, msg: seq<byte>, reply: Reply)
    | Handled(ep: Endpoint, msg: seq<byte>, o: Outside, reply: Reply)
    | SessionReset

  function PeekOp(msg: seq<byte>): nat {
    if |msg| >= 2 && 0x81 <= msg[0] <= 0x84 && msg[1] <= 0x17 then msg[1] else 0
  }

  /** `[op, status]`, which the encoder refuses for an op above 2. */
  function ErrorReply(msg: seq<byte>, status: nat): Reply {
    if PeekOp(msg) <= 2 then StatusReply(PeekOp(msg), status) else NoReply
  }

  function ReplyTo(msg: seq<byte>, r: Result): Reply {
    match r
    case Answers(reply) => reply
    case BadMessage => ErrorReply(msg, STATUS_INVALID_ARGUMENT)
    case Fails => ErrorReply(msg, STATUS_INTERNAL_ERROR)
  }

  function ResetSession(d: Dispatch): Dispatch { d.(endpoint := None, authorized := false, auth := NO_AUTH) }

  function StartEntry(d: Dispatch, stream: nat, path: string, contentType: nat): Dispatch {
    d.(endpoint := if stream != 0 || contentType != CONTENT_TYPE_CBOR then None else EndpointOf(path),
       buf := [], overflow := false)
  }

  function Accumulate(d: Dispatch, data: seq<byte>): Dispatch {
    if |d.buf| + |data| > MSG_MAX then d.(overflow := true) else d.(buf := d.buf + data)
  }

  predicate SessionAuthorized(env: Env, d: Dispatch) { d.authorized || env.pop.None? }

  /** Running a handler on a complete message. */
  function RunHandler(env: Env, d: Dispatch, handler: Handler, msg: seq<byte>, o: Outside): (Dispatch, Result) {
    if handler == Auth then
      var (a, ok, r) := HandleAuth(env, d.auth, msg, o);
      (d.(auth := a, authorized := d.authorized || ok), r)
    else if handler == Ctrl && o.ends then (ResetSession(d), o.result)
    else (d, o.result)
  }

  /** The end of an entry. */
  function Complete(env: Env, d: Dispatch, ep: Endpoint, o: Outside): (Dispatch, Action) {
    var d := d.(endpoint := None);
    if d.overflow then (d, Overflowed(ep, StatusReply(0, STATUS_INVALID_ARGUMENT)))
    else if ep.requireAuth && !SessionAuthorized(env, d) then
      (d, Unauthorized(ep, d.buf, ErrorReply(d.buf, STATUS_UNAUTHORIZED)))
    else
      var (d', r) := RunHandler(env, d, ep.handler, d.buf, o);
      (d', Handled(ep, d.buf, o, ReplyTo(d.buf, r)))
  }

  function TakeData(env: Env, d: Dispatch, stream: nat, data: seq<byte>, last: bool, o: Outside)
      : (Dispatch, Option<Action>)
  {
    if d.endpoint.None? || stream != 0 then (d, None) else
    var d' := Accumulate(d, data);
    if !last then (d', None) else
    var (d'', action) := Complete(env, d', d.endpoint.value, o);
    (d'', Some(action))
  }

  // ----- runs

  datatype Event =
    | Starts(stream: nat, path: string, contentType: nat)
    | Data(stream: nat, data: seq<byte>, last: bool, o: Outside)
    | Resets

  /** `log`: what happened so far, in order. */
  datatype World = World(d: Dispatch, log: seq<Action>)

  function Step(env: Env, w: World, e: Event): World {
    match e
    case Starts(stream, path, contentType) => w.(d := StartEntry(w.d, stream, path, contentType))
    case Data(stream, data, last, o) =>
      var (d, action) := TakeData(env, w.d, stream, data, last, o);
      World(d, if action.Some? then w.log + [action.value] else w.log)
    case Resets => World(ResetSession(w.d), w.log + [SessionReset])
  }

  function Run(env: Env, w: World, es: seq<Event>): World {
    if es == [] then w else Step(env, Run(env, w, es[..|es| - 1]), es[|es| - 1])
  }

  const START := World(FRESH, [])

  // ----- dispatch sees only the concatenation of an entry's fragments

  /** All but the accumulator's leftovers, which the next entry clears before use. */
  function Observable(w: World): (Option<Endpoint>, bool, AuthState, seq<Action>) {
    (w.d.endpoint, w.d.authorized, w.d.auth, w.log)
  }

  function Unfinished(frags: seq<seq<byte>>, o: Outside): seq<Event> {
    if frags == [] then [] else Unfinished(frags[..|frags| - 1], o) + [Data(0, frags[|frags| - 1], false, o)]
  }

  lemma RunSnoc(env: Env, w: World, es: seq<Event>, e: Event)
    ensures Run(env, w, es + [e]) == Step(env, Run(env, w, es), e)
  {
    assert (es + [e])[..|es|] == es;
  }

  /** The accumulator holds what came before, plus everything since, or has overflowed. */
  predicate Accumulated(w: World, w': World, all: seq<byte>) {
    && w'.log == w.log && w'.d.endpoint == w.d.endpoint && w'.d.authorized == w.d.authorized && w'.d.auth == w.d.auth
    && (w'.d.overflow <==> |all| > MSG_MAX)
    && (!w'.d.overflow ==> w'.d.buf == all)
    && |w'.d.buf| <= |all|
  }

  lemma {:induction false} FragmentsAccumulate(env: Env, w: World, frags: seq<seq<byte>>, o: Outside)
    requires w.d.endpoint.Some? && w.d.buf == [] && !w.d.overflow
    ensures Accumulated(w, Run(env, w, Unfinished(frags, o)), Concat(frags))
  {
    if frags != [] {
      var m := |frags| - 1;
      FragmentsAccumulate(env, w, frags[..m], o);
      RunSnoc(env, w, Unfinished(frags[..m], o), Data(0, frags[m], false, o));
      assert frags == frags[..m] + [frags[m]];
      ConcatSnoc(frags[..m], frags[m]);
      AccumulatesOne(w, Run(env, w, Unfinished(frags[..m], o)), Concat(frags[..m]), frags[m]);
    }
  }

  lemma AccumulatesOne(w: World, w': World, all: seq<byte>, data: seq<byte>)
    requires Accumulated(w, w', all)
    ensures Accumulated(w, w'.(d := Accumulate(w'.d, data)), all + data)
  {
  }

  lemma CompleteSame(env: Env, w: World, w1: World, w2: World, a: seq<byte>, b: seq<byte>, last: seq<byte>, o: Outside)
    requires w.d.endpoint.Some? && Accumulated(w, w1, a) && Accumulated(w, w2, b) && a + last == b
    ensures var ep := w.d.endpoint.value;
      var (d1, x1) := Complete(env, Accumulate(w1.d, last), ep, o);
      var (d2, x2) := Complete(env, w2.d, ep, o);
      && x1 == x2 && d1.endpoint == d2.endpoint && d1.authorized == d2.authorized && d1.auth == d2.auth
      && (x1.Overflowed? <==> |b| > MSG_MAX)
      && (x1.Handled? <==> |b| <= MSG_MAX && (ep.requireAuth ==> SessionAuthorized(env, w.d)))
      && !x1.SessionReset? && x1.ep == ep && (!x1.Overflowed? ==> x1.msg == b)
  {
  }

  /** However an entry is cut into fragments, dispatch does what it does for the whole message in
      one piece; it overflows exactly when the total exceeds 384 bytes, and otherwise the handler
      gets exactly the whole message unless the endpoint needs an authorized session. */
  lemma {:induction false} DispatchSeesConcatenation(env: Env, w: World, path: string, frags: seq<seq<byte>>,
                                                     last: seq<byte>, o: Outside)
    requires EndpointOf(path).Some?
    ensures var start := Starts(0, path, CONTENT_TYPE_CBOR);
      var whole := Concat(frags) + last;
      var cut := Run(env, Step(env, w, start), Unfinished(frags, o) + [Data(0, last, true, o)]);
      var once := Run(env, Step(env, w, start), [Data(0, whole, true, o)]);
      && Observable(cut) == Observable(once)
      && |cut.log| == |w.log| + 1 && cut.log[..|w.log|] == w.log
      && var x := cut.log[|w.log|];
         && !x.SessionReset? && x.ep == EndpointOf(path).value && (!x.Overflowed? ==> x.msg == whole)
         && (x.Overflowed? <==> |whole| > MSG_MAX)
         && (x.Handled? <==> |whole| <= MSG_MAX && (x.ep.requireAuth ==> SessionAuthorized(env, w.d)))
  {
    var w0 := Step(env, w, Starts(0, path, CONTENT_TYPE_CBOR));
    var whole := Concat(frags) + last;
    FragmentsAccumulate(env, w0, frags, o);
    RunSnoc(env, w0, Unfinished(frags, o), Data(0, last, true, o));
    RunSnoc(env, w0, [], Data(0, whole, true, o));
    assert [] + [Data(0, whole, true, o)] == [Data(0, whole, true, o)];
    var w1 := Run(env, w0, Unfinished(frags, o));
    var w2 := w0.(d := Accumulate(w0.d, whole));
    CompleteSame(env, w0, w1, w2, Concat(frags), whole, last, o);
  }

  // ----- what the log says about authorization

  /** The session was reset here: explicitly, or by a `ctrl` request that ended it. */
  predicate IsReset(x: Action) { x.SessionReset? || (x.Handled? && x.ep.handler == Ctrl && x.o.ends) }

  /** A challenge with a nonce of the right length. */
  predicate IsChallenge(env: Env, x: Action) {
    x.Handled? && x.ep.handler == Auth && env.decode(x.msg).Challenge? && |env.decode(x.msg).nonce| == NONCE_LEN
  }

  /** The nonces of the challenge in force, if any: the last well-formed one since the last reset. */
  function ChallengeInForce(env: Env, log: seq<Action>): Option<(Octets, Octets)> {
    if log == [] then None else
    var x := log[|log| - 1];
    if IsReset(x) then None
    else if IsChallenge(env, x) then
      Some((env.decode(x.msg).nonce, x.o.random))
    else ChallengeInForce(env, log[..|log| - 1])
  }

  /** `x` is a proof of the right length answering a challenge in force. */
  predicate IsAttempt(env: Env, before: seq<Action>, x: Action) {
    && x.Handled? && x.ep.handler == Auth && env.decode(x.msg).Proof?
    && |env.decode(x.msg).proof| == PROOF_LEN && ChallengeInForce(env, before).Some?
  }

  /** Proof attempts since the last reset. */
  function Attempts(env: Env, log: seq<Action>): nat {
    if log == [] then 0 else
    var before, x := log[..|log| - 1], log[|log| - 1];
    if IsReset(x) then 0 else Attempts(env, before) + (if IsAttempt(env, before, x) then 1 else 0)
  }

  /** `x` is an attempt that the counter lets through and whose bytes are the expected HMAC over
      the nonces of the challenge in force. */
  predicate IsGoodProof(env: Env, before: seq<Action>, x: Action) {
    && IsAttempt(env, before, x)
    && (Attempts(env, before) + 1) % 256 <= MAX_ATTEMPTS
    && x.o.crypto && env.pop.Some?
    && var (cli, dev) := ChallengeInForce(env, before).value;
       env.decode(x.msg).proof == env.hmac(env.pop.value, "cli", dev, cli)
  }

  /** Since the last reset there was a good proof. */
  predicate Proved(env: Env, log: seq<Action>) {
    log != [] &&
    var before, x := log[..|log| - 1], log[|log| - 1];
    !IsReset(x) && (IsGoodProof(env, before, x) || Proved(env, before))
  }

  /** The authorization state is what the log says it is. */
  predicate LogTells(env: Env, authorized: bool, a: AuthState, log: seq<Action>) {
    && (authorized <==> Proved(env, log))
    && (a.challenged <==> ChallengeInForce(env, log).Some?)
    && (a.challenged ==> ChallengeInForce(env, log).value == (a.cliNonce, a.devNonce))
    && a.attempts == Attempts(env, log) % 256
  }

  predicate Inv(env: Env, w: World) { LogTells(env, w.d.authorized, w.d.auth, w.log) }

  lemma LogSnoc(env: Env, log: seq<Action>, x: Action)
    ensures ChallengeInForce(env, log + [x])
      == if IsReset(x) then None
         else if IsChallenge(env, x) then
           Some((env.decode(x.msg).nonce, x.o.random))
         else ChallengeInForce(env, log)
    ensures Attempts(env, log + [x])
      == if IsReset(x) then 0 else Attempts(env, log) + (if IsAttempt(env, log, x) then 1 else 0)
    ensures Proved(env, log + [x]) <==> !IsReset(x) && (IsGoodProof(env, log, x) || Proved(env, log))
  {
    assert (log + [x])[..|log|] == log;
  }

  lemma ModSucc(n: nat)
    ensures (n + 1) % 256 == (n % 256 + 1) % 256
  {
  }

  predicate ToAuth(x: Action) { x.Handled? && x.ep.handler == Auth }

  lemma AuthInv(env: Env, w: World, x: Action)
    requires Inv(env, w) && ToAuth(x)
    ensures Inv(env, World(RunHandler(env, w.d, Auth, x.msg, x.o).0, w.log + [x]))
  {
    var (a, ok, _) := HandleAuth(env, w.d.auth, x.msg, x.o);
    if IsAttempt(env, w.log, x) {
      AttemptInv(env, w, x);
      TellsAttempt(env, w.d.authorized, w.d.auth, w.log, x, ok);
    } else {
      OtherInv(env, w, x);
      TellsOther(env, w.d.authorized, w.d.auth, w.log, x, a);
    }
  }

  lemma TellsAttempt(env: Env, authorized: bool, a: AuthState, log: seq<Action>, x: Action, ok: bool)
    requires LogTells(env, authorized, a, log) && IsAttempt(env, log, x) && (ok <==> IsGoodProof(env, log, x))
    ensures LogTells(env, authorized || ok, a.(attempts := (Attempts(env, log) + 1) % 256), log + [x])
  {
    LogSnoc(env, log, x);
  }

  /** What a request that is no attempt does: a challenge replaces the nonces, anything else nothing. */
  predicate NonAttempt(env: Env, a: AuthState, x: Action, a': AuthState) {
    if IsChallenge(env, x)
    then a' == a.(cliNonce := env.decode(x.msg).nonce, devNonce := x.o.random, challenged := true)
    else a' == a
  }

  lemma TellsOther(env: Env, authorized: bool, a: AuthState, log: seq<Action>, x: Action, a': AuthState)
    requires LogTells(env, authorized, a, log) && !IsAttempt(env, log, x) && !IsReset(x) && NonAttempt(env, a, x, a')
    ensures LogTells(env, authorized, a', log + [x])
  {
    LogSnoc(env, log, x);
  }

  lemma OtherInv(env: Env, w: World, x: Action)
    requires Inv(env, w) && ToAuth(x) && !IsAttempt(env, w.log, x)
    ensures var (a, ok, _) := HandleAuth(env, w.d.auth, x.msg, x.o);
      !ok && NonAttempt(env, w.d.auth, x, a)
  {
  }

  lemma AttemptInv(env: Env, w: World, x: Action)
    requires Inv(env, w) && IsAttempt(env, w.log, x)
    ensures var (a, ok, _) := HandleAuth(env, w.d.auth, x.msg, x.o);
      && a == w.d.auth.(attempts := (Attempts(env, w.log) + 1) % 256)
      && (ok <==> IsGoodProof(env, w.log, x))
  {
    ModSucc(Attempts(env, w.log));
  }

  lemma CompleteInv(env: Env, w: World, ep: Endpoint, o: Outside)
    requires Inv(env, w)
    ensures var (d, x) := Complete(env, w.d, ep, o); Inv(env, World(d, w.log + [x]))
  {
    var (d, x) := Complete(env, w.d, ep, o);
    if ToAuth(x) {
      AuthInv(env, w.(d := w.d.(endpoint := None)), x);
    } else {
      LogSnoc(env, w.log, x);
    }
  }

  lemma StepInv(env: Env, w: World, e: Event)
    requires Inv(env, w)
    ensures Inv(env, Step(env, w, e))
  {
    match e {
      case Starts(_, _, _) =>
      case Data(stream, data, last, o) =>
        if w.d.endpoint.Some? && stream == 0 && last {
          CompleteInv(env, w.(d := Accumulate(w.d, data)), w.d.endpoint.value, o);
        }
      case Resets => LogSnoc(env, w.log, SessionReset);
    }
  }

  lemma {:induction false} RunInv(env: Env, es: seq<Event>)
    ensures Inv(env, Run(env, START, es))
  {
    if es != [] {
      RunInv(env, es[..|es| - 1]);
      StepInv(env, Run(env, START, es[..|es| - 1]), es[|es| - 1]);
    }
  }

  /** In every run the session is authorized exactly when, since the last reset, some proof was
      let through by the counter and equalled the HMAC for the challenge then in force. */
  lemma AuthorizedExactlyWhenProved(env: Env, es: seq<Event>)
    ensures var w := Run(env, START, es); w.d.authorized <==> Proved(env, w.log)
  {
    RunInv(env, es);
  }

  /** Every gated handler run in the log came after a good proof, or no secret is configured. */
  predicate Gated(env: Env, log: seq<Action>) {
    forall i :: 0 <= i < |log| && log[i].Handled? && log[i].ep.requireAuth ==> env.pop.None? || Proved(env, log[..i])
  }

  lemma StepGated(env: Env, w: World, e: Event)
    requires Inv(env, w) && Gated(env, w.log)
    ensures Gated(env, Step(env, w, e).log)
  {
    match e {
      case Starts(_, _, _) =>
      case Data(stream, data, last, o) =>
        if w.d.endpoint.Some? && stream == 0 && last {
          GatedSnoc(env, w.log, Complete(env, Accumulate(w.d, data), w.d.endpoint.value, o).1);
        }
      case Resets => GatedSnoc(env, w.log, SessionReset);
    }
  }

  lemma GatedSnoc(env: Env, log: seq<Action>, x: Action)
    requires Gated(env, log)
    requires x.Handled? && x.ep.requireAuth ==> env.pop.None? || Proved(env, log)
    ensures Gated(env, log + [x])
  {
    assert forall i :: 0 <= i <= |log| ==> (log + [x])[..i] == log[..i];
    assert log[..|log|] == log;
  }

  /** A protected handler runs, in any run, only if no secret is configured or a good proof
      preceded it with no reset since. */
  lemma {:induction false} ProtectedHandlersAreGated(env: Env, es: seq<Event>)
    ensures Gated(env, Run(env, START, es).log)
  {
    if es != [] {
      var m := |es| - 1;
      ProtectedHandlersAreGated(env, es[..m]);
      RunInv(env, es[..m]);
      StepGated(env, Run(env, START, es[..m]), es[m]);
    }
  }

  /** What `Proved` says, spelled out: a position in the log with a good proof and no reset after. */
  lemma {:induction false} ProvedMeans(env: Env, log: seq<Action>) returns (k: nat)
    requires Proved(env, log)
    ensures k < |log| && IsGoodProof(env, log[..k], log[k])
    ensures forall j :: k < j < |log| ==> !IsReset(log[j])
  {
    var m := |log| - 1;
    if IsGoodProof(env, log[..m], log[m]) {
      k := m;
    } else {
      k := ProvedMeans(env, log[..m]);
      assert log[..m][..k] == log[..k];
      assert forall j :: k < j < m ==> log[j] == log[..m][j];
    }
  }

  /** With a secret configured, each protected handler run in any run follows a good proof, with no
      reset in between. */
  lemma ProtectedHandlerFollowsProof(env: Env, es: seq<Event>, i: nat) returns (k: nat)
    requires env.pop.Some? && i < |Run(env, START, es).log|
    requires Run(env, START, es).log[i].Handled? && Run(env, START, es).log[i].ep.requireAuth
    ensures k < i
    ensures var log := Run(env, START, es).log;
      IsGoodProof(env, log[..k], log[k]) && forall j :: k < j < i ==> !IsReset(log[j])
  {
    var log := Run(env, START, es).log;
    ProtectedHandlersAreGated(env, es);
    k := ProvedMeans(env, log[..i]);
    assert log[..i][..k] == log[..k];
    assert forall j :: k < j < i ==> log[j] == log[..i][j];
  }

  // ----- the attempt counter

  /** How many of the first `n` attempts since a reset reach the comparison. */
  function Compared(n: nat): nat {
    if n == 0 then 0 else Compared(n - 1) + (if n % 256 <= MAX_ATTEMPTS then 1 else 0)
  }

  lemma {:induction false} ComparedBelow256(n: nat)
    requires n < 256
    ensures Compared(n) == if n <= 3 then n else 3
  {
    if n > 0 {
      ComparedBelow256(n - 1);
    }
  }

  lemma {:induction false} ComparedFrom256(n: nat)
    requires n >= 256
    ensures Compared(n) >= 4
  {
    if n == 256 {
      ComparedBelow256(255);
    } else {
      ComparedFrom256(n - 1);
    }
  }

  /** `x` is an attempt that passes the counter: the state it meets makes the handler go on to the HMAC. */
  predicate PassesCounter(env: Env, a: AuthState, x: Action) {
    && x.Handled? && x.ep.handler == Auth && env.decode(x.msg).Proof? && a.challenged
    && |env.decode(x.msg).proof| == PROOF_LEN && Low8(a.attempts + 1) <= MAX_ATTEMPTS
  }

  /** Attempts since the last reset that pass the counter, along a run. */
  function Passed(env: Env, es: seq<Event>): nat {
    if es == [] then 0 else
    var w := Run(env, START, es[..|es| - 1]);
    var w' := Run(env, START, es);
    if w'.log == w.log then Passed(env, es[..|es| - 1])
    else if IsReset(w'.log[|w'.log| - 1]) then 0
    else Passed(env, es[..|es| - 1]) + (if PassesCounter(env, w.d.auth, w'.log[|w'.log| - 1]) then 1 else 0)
  }

  lemma StepExtendsLog(env: Env, w: World, e: Event)
    ensures var log := Step(env, w, e).log; log != w.log ==> log != [] && log == w.log + [log[|log| - 1]]
  {
  }

  lemma PassesIff(env: Env, w: World, x: Action)
    requires Inv(env, w)
    ensures PassesCounter(env, w.d.auth, x)
      <==> IsAttempt(env, w.log, x) && (Attempts(env, w.log) + 1) % 256 <= MAX_ATTEMPTS
  {
  }

  lemma {:induction false} PassedIsCompared(env: Env, es: seq<Event>)
    ensures Passed(env, es) == Compared(Attempts(env, Run(env, START, es).log))
  {
    if es != [] {
      var m := |es| - 1;
      PassedIsCompared(env, es[..m]);
      RunInv(env, es[..m]);
      PassedStep(env, Run(env, START, es[..m]), es[m]);
    }
  }

  lemma PassedStep(env: Env, w: World, e: Event)
    requires Inv(env, w)
    ensures var log := Step(env, w, e).log;
      Compared(Attempts(env, log))
        == if log == w.log then Compared(Attempts(env, w.log))
           else if IsReset(log[|log| - 1]) then 0
           else Compared(Attempts(env, w.log)) + (if PassesCounter(env, w.d.auth, log[|log| - 1]) then 1 else 0)
  {
    var log := Step(env, w, e).log;
    StepExtendsLog(env, w, e);
    if log != w.log {
      LogSnoc(env, w.log, log[|log| - 1]);
      PassesIff(env, w, log[|log| - 1]);
    }
  }

  /** The limit of three proofs per session that reach the comparison holds, in any run, exactly
      while fewer than 256 attempts were made: the 8-bit counter then starts over. */
  lemma {:induction false} ThreeProofsIff(env: Env, es: seq<Event>)
    ensures Passed(env, es) <= MAX_ATTEMPTS <==> Attempts(env, Run(env, START, es).log) < 256
  {
    PassedIsCompared(env, es);
    var n := Attempts(env, Run(env, START, es).log);
    if n < 256 {
      ComparedBelow256(n);
    } else {
      ComparedFrom256(n);
    }
  }

  // ----- a session that makes many attempts

  /** A request to `.prov/auth`, in one piece. */
  function AuthEntry(msg: seq<byte>, o: Outside): seq<Event> {
    [Starts(0, ".prov/auth", CONTENT_TYPE_CBOR), Data(0, msg, true, o)]
  }

  function AuthHandled(msg: seq<byte>, o: Outside, r: Result): Action {
    Handled(Endpoint(".prov/auth", Auth, false), msg, o, ReplyTo(msg, r))
  }

  lemma AuthPath()
    ensures EndpointOf(".prov/auth") == Some(Endpoint(".prov/auth", Auth, false))
  {
    assert ENDPOINTS[0].path == ".prov/ver" && ".prov/ver"[6] != ".prov/auth"[6];
    assert FindFrom(".prov/auth", 1) == Some(ENDPOINTS[1]);
  }

  lemma AuthEntryHandled(env: Env, w: World, msg: seq<byte>, o: Outside)
    requires |msg| <= MSG_MAX
    ensures var w' := Run(env, w, AuthEntry(msg, o)); var (a, ok, r) := HandleAuth(env, w.d.auth, msg, o);
      && w'.d.auth == a && w'.d.authorized == (w.d.authorized || ok)
      && w'.log == w.log + [AuthHandled(msg, o, r)]
  {
    AuthPath();
    var start, data := Starts(0, ".prov/auth", CONTENT_TYPE_CBOR), Data(0, msg, true, o);
    RunSnoc(env, w, [], start);
    RunSnoc(env, w, [start], data);
    assert [] + [start] == [start] && [start] + [data] == AuthEntry(msg, o);
    assert [] + msg == msg;
  }

  lemma {:induction false} RunAppend(env: Env, w: World, a: seq<Event>, b: seq<Event>)
    ensures Run(env, w, a + b) == Run(env, Run(env, w, a), b)
    decreases |b|
  {
    if b == [] {
      assert a + b == a;
    } else {
      var m := |b| - 1;
      assert a + b == (a + b[..m]) + [b[m]];
      RunSnoc(env, w, a + b[..m], b[m]);
      RunAppend(env, w, a, b[..m]);
    }
  }

  /** Three requests: a challenge, a proof that is wrong for it and the proof that is right. */
  datatype Requests = Requests(challenge: seq<byte>, wrong: seq<byte>, right: seq<byte>)

  ghost predicate Suitable(env: Env, q: Requests, o: Outside) {
    && |q.challenge| <= MSG_MAX && |q.wrong| <= MSG_MAX && |q.right| <= MSG_MAX
    && env.pop.Some? && o.crypto
    && env.decode(q.challenge).Challenge? && |env.decode(q.challenge).nonce| == NONCE_LEN
    && var expected := env.hmac(env.pop.value, "cli", o.random, env.decode(q.challenge).nonce);
       && env.decode(q.wrong).Proof? && |env.decode(q.wrong).proof| == PROOF_LEN
       && env.decode(q.wrong).proof != expected
       && env.decode(q.right) == Proof(expected)
  }

  /** The challenge, then `k` wrong proofs. */
  function WrongProofs(q: Requests, o: Outside, k: nat): seq<Event> {
    if k == 0 then AuthEntry(q.challenge, o) else WrongProofs(q, o, k - 1) + AuthEntry(q.wrong, o)
  }

  predicate NoReset(log: seq<Action>) { forall x :: x in log ==> !IsReset(x) }

  lemma {:induction false} AfterWrongProofs(env: Env, q: Requests, o: Outside, k: nat)
    requires EnvOk(env) && Suitable(env, q, o)
    ensures var w := Run(env, START, WrongProofs(q, o, k));
      && w.d.auth == AuthState(env.decode(q.challenge).nonce, o.random, true, Low8(k))
      && !w.d.authorized && NoReset(w.log) && |w.log| == k + 1
  {
    if k == 0 {
      AuthEntryHandled(env, START, q.challenge, o);
    } else {
      AfterWrongProofs(env, q, o, k - 1);
      RunAppend(env, START, WrongProofs(q, o, k - 1), AuthEntry(q.wrong, o));
      OneWrongProof(env, q, o, Run(env, START, WrongProofs(q, o, k - 1)), k - 1);
    }
  }

  lemma OneWrongProof(env: Env, q: Requests, o: Outside, w: World, k: nat)
    requires Suitable(env, q, o) && !w.d.authorized && NoReset(w.log)
    requires w.d.auth == AuthState(env.decode(q.challenge).nonce, o.random, true, Low8(k))
    ensures var w' := Run(env, w, AuthEntry(q.wrong, o));
      && w'.d.auth == w.d.auth.(attempts := Low8(k + 1))
      && !w'.d.authorized && NoReset(w'.log) && |w'.log| == |w.log| + 1
  {
    AuthEntryHandled(env, w, q.wrong, o);
    ModSucc(k);
  }

  /** After a challenge and any number of wrong proofs the session is still there, and the right
      proof authorizes it exactly when the attempt's number is at most three modulo 256. */
  lemma RightProofAfterWrong(env: Env, q: Requests, o: Outside, k: nat)
    requires EnvOk(env) && Suitable(env, q, o)
    ensures var w := Run(env, START, WrongProofs(q, o, k) + AuthEntry(q.right, o));
      NoReset(w.log) && (w.d.authorized <==> (k + 1) % 256 <= MAX_ATTEMPTS)
  {
    AfterWrongProofs(env, q, o, k);
    RunAppend(env, START, WrongProofs(q, o, k), AuthEntry(q.right, o));
    AuthEntryHandled(env, Run(env, START, WrongProofs(q, o, k)), q.right, o);
    ModSucc(k);
  }

  /** In particular after 255 wrong ones, and whenever the counter has wrapped since: the limit of three
      does not hold of every session. */
  lemma LimitIsPassed(env: Env, q: Requests, o: Outside, k: nat)
    requires EnvOk(env) && Suitable(env, q, o) && k >= 255 && (k + 1) % 256 <= MAX_ATTEMPTS
    ensures var es := WrongProofs(q, o, k) + AuthEntry(q.right, o); var w := Run(env, START, es);
      w.d.authorized && NoReset(w.log) && Attempts(env, w.log) == k + 1 && Passed(env, es) > MAX_ATTEMPTS
  {
    RightProofAfterWrong(env, q, o, k);
    AttemptsAfterWrong(env, q, o, k);
    ThreeProofsIff(env, WrongProofs(q, o, k) + AuthEntry(q.right, o));
  }

  predicate Counted(env: Env, log: seq<Action>, k: nat) {
    Attempts(env, log) == k && ChallengeInForce(env, log).Some?
  }

  lemma {:induction false} CountWrong(env: Env, q: Requests, o: Outside, k: nat)
    requires EnvOk(env) && Suitable(env, q, o)
    ensures Counted(env, Run(env, START, WrongProofs(q, o, k)).log, k)
  {
    if k == 0 {
      CountNone(env, q.challenge, o);
    } else {
      CountWrong(env, q, o, k - 1);
      CountOne(env, q.wrong, o, WrongProofs(q, o, k - 1), k - 1);
    }
  }

  lemma CountNone(env: Env, msg: seq<byte>, o: Outside)
    requires |msg| <= MSG_MAX && env.decode(msg).Challenge? && |env.decode(msg).nonce| == NONCE_LEN
    ensures Counted(env, Run(env, START, AuthEntry(msg, o)).log, 0)
  {
    AuthEntryHandled(env, START, msg, o);
    LogSnoc(env, [], AuthHandled(msg, o, HandleAuth(env, NO_AUTH, msg, o).2));
  }

  lemma CountOne(env: Env, msg: seq<byte>, o: Outside, es: seq<Event>, k: nat)
    requires |msg| <= MSG_MAX && env.decode(msg).Proof? && |env.decode(msg).proof| == PROOF_LEN
    requires Counted(env, Run(env, START, es).log, k)
    ensures Counted(env, Run(env, START, es + AuthEntry(msg, o)).log, k + 1)
  {
    var w := Run(env, START, es);
    RunAppend(env, START, es, AuthEntry(msg, o));
    AuthEntryHandled(env, w, msg, o);
    LogSnoc(env, w.log, AuthHandled(msg, o, HandleAuth(env, w.d.auth, msg, o).2));
  }

  lemma AttemptsAfterWrong(env: Env, q: Requests, o: Outside, k: nat)
    requires EnvOk(env) && Suitable(env, q, o)
    ensures Attempts(env, Run(env, START, WrongProofs(q, o, k) + AuthEntry(q.right, o)).log) == k + 1
  {
    CountWrong(env, q, o, k);
    CountOne(env, q.right, o, WrongProofs(q, o, k), k);
  }

  /** The only events that end a session are an explicit reset and a `ctrl` request that asks for
      it: no proof does, failed or not. */
  lemma OnlyResetsEnd(env: Env, w: World, e: Event)
    ensures var w' := Step(env, w, e);
      w'.log != w.log && IsReset(w'.log[|w'.log| - 1]) ==>
        e.Resets? || (e.Data? && e.last && e.stream == 0 && e.o.ends
                       && w.d.endpoint.Some? && w.d.endpoint.value.handler == Ctrl)
    ensures var w' := Step(env, w, e);
      w.d.endpoint.Some? && w.d.endpoint.value.handler == Auth && !e.Resets? ==>
        && (w.d.authorized ==> w'.d.authorized)
        && (w.d.auth.challenged ==> w'.d.auth.challenged)
  {
  }

  // ----- comparing proofs

  lemma OrXorZero(d: bv8, a: bv8, b: bv8)
    ensures d | (a ^ b) == 0 <==> d == 0 && a == b
  {
  }

  /** The constant-time comparison. */
  method SameProof(expected: Octets, proof: Octets) returns (same: bool)
    requires |expected| == |proof|
    ensures same <==> expected == proof
  {
    var diff: bv8 := 0;
    var i := 0;
    while i < |expected|
      invariant 0 <= i <= |expected|
      invariant diff == 0 <==> expected[..i] == proof[..i]
    {
      OrXorZero(diff, expected[i], proof[i]);
      assert expected[..i + 1] == expected[..i] + [expected[i]];
      assert proof[..i + 1] == proof[..i] + [proof[i]];
      diff := diff | (expected[i] ^ proof[i]);
      i := i + 1;
    }
    assert expected[..i] == expected && proof[..i] == proof;
    same := diff == 0;
  }

  // ----- the object

  lemma OnlyProvPaths(path: string)
    ensures EndpointOf(path).Some? ==> ".prov/" <= path
  {
    assert forall i :: 0 <= i < |ENDPOINTS| ==> ".prov/" <= ENDPOINTS[i].path;
  }

  class Dispatcher {
    const env: Env
    const buf: array<byte>
    var endpoint: Option<Endpoint>
    var len: nat
    var overflow: bool
    var authorized: bool
    var auth: AuthState

    ghost predicate Valid() reads this { len <= buf.Length == MSG_MAX }

    ghost function View(): Dispatch
      requires Valid()
      reads this, buf
    {
      Dispatch(endpoint, buf[..len], overflow, authorized, auth)
    }

    constructor (env: Env)
      ensures Valid() && this.env == env && View() == FRESH
    {
      this.env := env;
      buf := new byte[MSG_MAX](_ => 0);
      endpoint, len, overflow, authorized, auth := None, 0, false, false, NO_AUTH;
    }

    method Reset()
      requires Valid()
      modifies this
      ensures Valid() && View() == ResetSession(old(View()))
    {
      endpoint := None;
      authorized := false;
      auth := NO_AUTH;
    }

    method DownlinkStart(stream: nat, path: string, contentType: nat)
      requires Valid()
      modifies this
      ensures Valid() && View() == StartEntry(old(View()), stream, path, contentType)
    {
      endpoint, len, overflow := None, 0, false;
      if stream != 0 || !(".prov/" <= path) {
        OnlyProvPaths(path);
        return;
      }
      if contentType != CONTENT_TYPE_CBOR {
        return;
      }
      var i := 0;
      while i < |ENDPOINTS|
        invariant 0 <= i <= |ENDPOINTS| && endpoint == None
        invariant FindFrom(path, i) == EndpointOf(path)
      {
        if ENDPOINTS[i].path == path {
          endpoint := Some(ENDPOINTS[i]);
          return;
        }
        i := i + 1;
      }
    }

    /** `memcpy` of a fragment behind the bytes accumulated so far. */
    method Append(data: seq<byte>)
      requires Valid() && len + |data| <= MSG_MAX
      modifies this`len, buf
      ensures Valid() && len == old(len) + |data| && buf[..len] == old(buf[..len]) + data
    {
      var i := 0;
      while i < |data|
        invariant 0 <= i <= |data| && len == old(len)
        invariant forall j :: 0 <= j < len ==> buf[j] == old(buf[j])
        invariant forall j :: 0 <= j < i ==> buf[len + j] == data[j]
      {
        buf[len + i] := data[i];
        i := i + 1;
      }
      len := len + |data|;
      assert buf[..len] == old(buf[..len]) + data;
    }

    method RequestAuth(msg: seq<byte>, o: Outside) returns (ok: bool, r: Result)
      requires EnvOk(env)
      modifies this`auth
      ensures (auth, ok, r) == HandleAuth(env, old(auth), msg, o)
    {
      ok := false;
      match env.decode(msg)
      case Undecodable => r := BadMessage;
      case Challenge(nonce) =>
        if |nonce| != NONCE_LEN {
          return false, BadMessage;
        }
        auth := auth.(cliNonce := nonce, devNonce := o.random, challenged := true);
        if !o.crypto || env.pop.None? {
          return false, Fails;
        }
        var proof := env.hmac(env.pop.value, "dev", auth.cliNonce, auth.devNonce);
        r := Answers(ChallengeReply(auth.devNonce, proof));
      case Proof(proof) =>
        if !auth.challenged || |proof| != PROOF_LEN {
          return false, Answers(ProofReply(STATUS_INVALID_STATE));
        }
        auth := auth.(attempts := Low8(auth.attempts + 1));
        if auth.attempts > MAX_ATTEMPTS {
          return false, Answers(ProofReply(STATUS_UNAUTHORIZED));
        }
        if !o.crypto || env.pop.None? {
          return false, Fails;
        }
        var expected := env.hmac(env.pop.value, "cli", auth.devNonce, auth.cliNonce);
        ok := SameProof(expected, proof);
        r := Answers(ProofReply(if ok then STATUS_OK else STATUS_UNAUTHORIZED));
    }

    method Finish(ep: Endpoint, o: Outside) returns (action: Action)
      requires Valid() && EnvOk(env)
      modifies this
      ensures Valid() && (View(), action) == Complete(env, old(View()), ep, o)
    {
      endpoint := None;
      if overflow {
        return Overflowed(ep, StatusReply(0, STATUS_INVALID_ARGUMENT));
      }
      var msg := buf[..len];
      if ep.requireAuth && !(authorized || env.pop.None?) {
        return Unauthorized(ep, msg, ErrorReply(msg, STATUS_UNAUTHORIZED));
      }
      var r := o.result;
      if ep.handler == Auth {
        var ok;
        ok, r := RequestAuth(msg, o);
        if ok {
          authorized := true;
        }
      } else if ep.handler == Ctrl && o.ends {
        Reset();
      }
      action := Handled(ep, msg, o, ReplyTo(msg, r));
    }

    method DownlinkData(stream: nat, data: seq<byte>, last: bool, o: Outside) returns (action: Option<Action>)
      requires Valid() && EnvOk(env)
      modifies this, buf
      ensures Valid() && (View(), action) == TakeData(env, old(View()), stream, data, last, o)
    {
      if endpoint.None? || stream != 0 {
        return None;
      }
      var ep := endpoint.value;
      if len + |data| > buf.Length {
        overflow := true;
      } else {
        Append(data);
      }
      if !last {
        return None;
      }
      var done := Finish(ep, o);
      action := Some(done);
    }
  }
}
