/** What the dispatcher promises on the wire, over whole runs: which paths are gated and by what,
    what every request is answered, and that the handshake authorizes both ways. Everything is
    said about the log of a run: paths, messages, nonces and replies. */
module DispatchRuns {
  import opened Bytes
  import opened DispatchModel
  import Cbor

  // ----- the endpoints of a run

  predicate GatedPath(path: string) {
    path == ".prov/ctrl" || path == ".prov/config" || path == ".prov/scan" || path == ".prov/cred"
  }

  predicate OpenPath(path: string) { path == ".prov/ver" || path == ".prov/auth" }

  /** The handler named after the path, and the gate its path calls for. */
  predicate OwnEndpoint(ep: Endpoint) {
    && (GatedPath(ep.path) || OpenPath(ep.path))
    && (ep.requireAuth <==> GatedPath(ep.path))
    && (ep.handler == Ver <==> ep.path == ".prov/ver")
    && (ep.handler == Auth <==> ep.path == ".prov/auth")
    && (ep.handler == Ctrl <==> ep.path == ".prov/ctrl")
    && (ep.handler == Config <==> ep.path == ".prov/config")
    && (ep.handler == Scan <==> ep.path == ".prov/scan")
    && (ep.handler == Cred <==> ep.path == ".prov/cred")
  }

  /** What tells the six paths apart. */
  lemma PathsDiffer()
    ensures |".prov/ver"| == 9 && |".prov/config"| == 12
    ensures |".prov/auth"| == |".prov/ctrl"| == |".prov/scan"| == |".prov/cred"| == 10
    ensures ".prov/auth"[6] == 'a' && ".prov/scan"[6] == 's' && ".prov/ctrl"[6] == 'c' && ".prov/cred"[6] == 'c'
    ensures ".prov/ctrl"[7] == 't' && ".prov/cred"[7] == 'r'
  {
  }

  lemma OwnEndpoints(ep: Endpoint)
    requires ep in ENDPOINTS
    ensures OwnEndpoint(ep)
  {
    PathsDiffer();
    var i :| 0 <= i < |ENDPOINTS| && ENDPOINTS[i] == ep;
    assert i == 0 || i == 1 || i == 2 || i == 3 || i == 4 || i == 5;
  }

  lemma EveryPathFound(path: string)
    ensures EndpointOf(path).Some? <==> GatedPath(path) || OpenPath(path)
  {
    if EndpointOf(path).Some? {
      OwnEndpoints(EndpointOf(path).value);
    } else {
      FoundFrom(path, 0);
      assert forall i :: 0 <= i < |ENDPOINTS| ==> ENDPOINTS[i].path != path;
      assert ENDPOINTS[0].path != path && ENDPOINTS[1].path != path && ENDPOINTS[2].path != path;
      assert ENDPOINTS[3].path != path && ENDPOINTS[4].path != path && ENDPOINTS[5].path != path;
    }
  }

  lemma {:induction false} FoundFrom(path: string, i: nat)
    requires i <= |ENDPOINTS| && FindFrom(path, i).None?
    ensures forall j :: i <= j < |ENDPOINTS| ==> ENDPOINTS[j].path != path
    decreases |ENDPOINTS| - i
  {
    if i < |ENDPOINTS| {
      FoundFrom(path, i + 1);
    }
  }

  predicate Known(w: World) {
    && (w.d.endpoint.Some? ==> OwnEndpoint(w.d.endpoint.value))
    && forall x :: x in w.log && !x.SessionReset? ==> OwnEndpoint(x.ep)
  }

  lemma StepKnown(env: Env, w: World, e: Event)
    requires Known(w)
    ensures Known(Step(env, w, e))
  {
    if e.Starts? && EndpointOf(e.path).Some? {
      OwnEndpoints(EndpointOf(e.path).value);
    }
    StepExtendsLog(env, w, e);
  }

  /** In every run each message goes to the handler of its own path. */
  lemma {:induction false} RunKnown(env: Env, es: seq<Event>)
    ensures Known(Run(env, START, es))
  {
    if es != [] {
      RunKnown(env, es[..|es| - 1]);
      StepKnown(env, Run(env, START, es[..|es| - 1]), es[|es| - 1]);
    }
  }

  // ----- what a protected message follows

  /** A challenge with a 16-byte nonce, handled on `.prov/auth`. */
  predicate ChallengeOn(env: Env, x: Action, nonce: Octets) {
    x.Handled? && x.ep.path == ".prov/auth" && |nonce| == 16 && env.decode(x.msg) == Challenge(nonce)
  }

  /** The session ends here: from outside, or by a handled `.prov/ctrl` message that asks for it. */
  predicate EndsSession(x: Action) {
    x.SessionReset? || (x.Handled? && x.ep.path == ".prov/ctrl" && x.o.ends)
  }

  /** At `k` a proof was handled that is the client's HMAC over the device nonce and the client
      nonce of the challenge at `c`, which no other challenge and no end of the session separates
      from it. */
  ghost predicate ProofAt(env: Env, log: seq<Action>, c: nat, k: nat)
    requires c < k < |log|
  {
    && log[c].Handled? && env.decode(log[c].msg).Challenge?
    && var nonce := env.decode(log[c].msg).nonce;
       && ChallengeOn(env, log[c], nonce)
       && (forall j :: c < j < k ==> !EndsSession(log[j]))
       && (forall j, n :: c < j < k ==> !ChallengeOn(env, log[j], n))
       && log[k].Handled? && log[k].ep.path == ".prov/auth" && env.pop.Some?
       && env.decode(log[k].msg) == Proof(env.hmac(env.pop.value, "cli", log[c].o.random, nonce))
  }

  lemma {:induction false} InForceAt(env: Env, log: seq<Action>) returns (c: nat)
    requires ChallengeInForce(env, log).Some?
    ensures c < |log| && IsChallenge(env, log[c])
    ensures ChallengeInForce(env, log).value == (env.decode(log[c].msg).nonce, log[c].o.random)
    ensures forall j :: c < j < |log| ==> !IsReset(log[j]) && !IsChallenge(env, log[j])
  {
    var m := |log| - 1;
    if IsChallenge(env, log[m]) {
      c := m;
    } else {
      c := InForceAt(env, log[..m]);
      assert forall j :: 0 <= j < m ==> log[..m][j] == log[j];
    }
  }

  lemma OwnPaths(env: Env, x: Action)
    requires !x.SessionReset? ==> OwnEndpoint(x.ep)
    ensures IsReset(x) <==> EndsSession(x)
    ensures IsChallenge(env, x) ==> ChallengeOn(env, x, env.decode(x.msg).nonce)
    ensures forall n :: ChallengeOn(env, x, n) ==> IsChallenge(env, x)
  {
  }

  lemma GoodProofIsProofAt(env: Env, log: seq<Action>, k: nat) returns (c: nat)
    requires k < |log| && IsGoodProof(env, log[..k], log[k])
    requires forall x :: x in log && !x.SessionReset? ==> OwnEndpoint(x.ep)
    ensures c < k && ProofAt(env, log, c, k)
  {
    c := InForceAt(env, log[..k]);
    forall j | 0 <= j <= k ensures IsReset(log[j]) <==> EndsSession(log[j])
      ensures IsChallenge(env, log[j]) ==> ChallengeOn(env, log[j], env.decode(log[j].msg).nonce)
      ensures forall n :: ChallengeOn(env, log[j], n) ==> IsChallenge(env, log[j])
    {
      OwnPaths(env, log[j]);
    }
    assert forall j :: 0 <= j < k ==> log[..k][j] == log[j];
    assert OwnEndpoint(log[k].ep);
  }

  /** With a secret configured, in every run, a message handled on one of the four protected paths
      follows a right proof for the challenge before it, and the session has not ended since. */
  lemma {:induction false} ProtectedPathsFollowProof(env: Env, es: seq<Event>, i: nat) returns (c: nat, k: nat)
    requires env.pop.Some? && i < |Run(env, START, es).log|
    requires var x := Run(env, START, es).log[i]; x.Handled? && GatedPath(x.ep.path)
    ensures c < k < i
    ensures var log := Run(env, START, es).log;
      ProofAt(env, log, c, k) && forall j :: k < j < i ==> !EndsSession(log[j])
  {
    var log := Run(env, START, es).log;
    RunKnown(env, es);
    assert OwnEndpoint(log[i].ep);
    k := ProtectedHandlerFollowsProof(env, es, i);
    c := GoodProofIsProofAt(env, log, k);
    forall j | k < j < i ensures !EndsSession(log[j]) {
      OwnPaths(env, log[j]);
    }
  }

  // ----- one entry, after any run

  /** The events of one entry, in any number of fragments. */
  function Entry(head: Event, frags: seq<seq<byte>>, last: seq<byte>, o: Outside): seq<Event> {
    [head] + (Unfinished(frags, o) + [Data(0, last, true, o)])
  }

  /** An entry is looked at only on stream 0, with content type 60, on one of the six paths. */
  predicate Taken(head: Event) {
    head.Starts? && head.stream == 0 && head.contentType == 60 && (GatedPath(head.path) || OpenPath(head.path))
  }

  /** What becomes of an entry with the message `whole` on `path`. */
  predicate Outcome(env: Env, proved: bool, path: string, whole: seq<byte>, x: Action) {
    && !x.SessionReset? && x.ep.path == path && OwnEndpoint(x.ep)
    && if |whole| > 384 then x.Overflowed?
       else if GatedPath(path) && env.pop.Some? && !proved then x.Unauthorized? && x.msg == whole
       else x.Handled? && x.msg == whole
  }

  lemma {:induction false} UnfinishedAreData(frags: seq<seq<byte>>, o: Outside)
    ensures forall e :: e in Unfinished(frags, o) ==> e.Data?
  {
    if frags != [] {
      UnfinishedAreData(frags[..|frags| - 1], o);
    }
  }

  lemma {:induction false} NothingTaken(env: Env, w: World, es: seq<Event>)
    requires w.d.endpoint.None? && forall e :: e in es ==> e.Data?
    ensures Run(env, w, es) == w
  {
    if es != [] {
      assert es[|es| - 1] in es;
      NothingTaken(env, w, es[..|es| - 1]);
    }
  }

  /** A reset, and the last fragment of an entry, drop the entry in progress: until another one starts,
      no data is looked at. */
  lemma DroppedEntry(env: Env, es: seq<Event>, e: Event, data: seq<Event>)
    requires e.Resets? || (e.Data? && e.stream == 0 && e.last)
    requires forall x :: x in data ==> x.Data?
    ensures Run(env, START, (es + [e]) + data) == Run(env, START, es + [e])
  {
    RunAppend(env, START, es + [e], data);
    RunSnoc(env, START, es, e);
    NothingTaken(env, Run(env, START, es + [e]), data);
  }

  lemma RunEntry(env: Env, w: World, head: Event, frags: seq<seq<byte>>, last: seq<byte>, o: Outside)
    ensures Run(env, w, Entry(head, frags, last, o))
      == Run(env, Step(env, w, head), Unfinished(frags, o) + [Data(0, last, true, o)])
  {
    RunAppend(env, w, [head], Unfinished(frags, o) + [Data(0, last, true, o)]);
    RunSnoc(env, w, [], head);
    assert [] + [head] == [head];
  }

  lemma IgnoredEntry(env: Env, w: World, head: Event, frags: seq<seq<byte>>, last: seq<byte>, o: Outside)
    requires head.Starts? && !Taken(head)
    ensures Run(env, w, Entry(head, frags, last, o)).log == w.log
  {
    RunEntry(env, w, head, frags, last, o);
    EveryPathFound(head.path);
    UnfinishedAreData(frags, o);
    NothingTaken(env, Step(env, w, head), Unfinished(frags, o) + [Data(0, last, true, o)]);
  }

  lemma TakenEntry(env: Env, w: World, head: Event, frags: seq<seq<byte>>, last: seq<byte>, o: Outside)
    requires Inv(env, w) && Taken(head)
    ensures var log' := Run(env, w, Entry(head, frags, last, o)).log;
      && |log'| == |w.log| + 1 && log'[..|w.log|] == w.log
      && Outcome(env, Proved(env, w.log), head.path, Concat(frags) + last, log'[|w.log|])
  {
    RunEntry(env, w, head, frags, last, o);
    EveryPathFound(head.path);
    OwnEndpoints(EndpointOf(head.path).value);
    DispatchSeesConcatenation(env, w, head.path, frags, last, o);
  }

  /** After any run, an entry on a protected path is handled exactly when it fits in 384 bytes and,
      if a secret is configured, a right proof was given since the session began; otherwise it ends
      unauthorized or overflowed. `.prov/ver` and `.prov/auth` need no proof. Each goes to its own
      handler, whole. Any other path, stream or content type is ignored. */
  lemma {:induction false} EntryOutcome(env: Env, es: seq<Event>, head: Event, frags: seq<seq<byte>>,
                                         last: seq<byte>, o: Outside)
    requires head.Starts?
    ensures var w := Run(env, START, es); var log' := Run(env, w, Entry(head, frags, last, o)).log;
      if Taken(head) then
        && |log'| == |w.log| + 1 && log'[..|w.log|] == w.log
        && Outcome(env, Proved(env, w.log), head.path, Concat(frags) + last, log'[|w.log|])
      else log' == w.log
  {
    RunInv(env, es);
    if Taken(head) {
      TakenEntry(env, Run(env, START, es), head, frags, last, o);
    } else {
      IgnoredEntry(env, Run(env, START, es), head, frags, last, o);
    }
  }

  /** Data of another stream in the middle of an entry changes nothing. */
  lemma OtherStreamsIgnored(env: Env, w: World, stream: nat, data: seq<byte>, last: bool, o: Outside)
    requires stream != 0
    ensures Step(env, w, Data(stream, data, last, o)) == w
  {
  }

  // ----- what every request is answered

  /** The client's check of the device's proof: the "dev" HMAC over its own nonce, then the device's. */
  predicate ClientAccepts(hmac: (seq<byte>, string, Octets, Octets) -> Octets, pop: seq<byte>, cliNonce: Octets,
                          reply: Reply)
  {
    reply.ChallengeReply? && reply.devProof == hmac(pop, "dev", cliNonce, reply.devNonce)
  }

  /** What the reply to `x` on `.prov/auth` has to be, by the log before it. */
  predicate AuthReplyFits(env: Env, before: seq<Action>, x: Action)
    requires x.Handled?
  {
    var works := x.o.crypto && env.pop.Some?;
    match env.decode(x.msg)
    case Undecodable => x.reply == ErrorReply(x.msg, 2)
    case Challenge(nonce) =>
      if |nonce| != 16 then x.reply == ErrorReply(x.msg, 2)
      else if !works then x.reply == ErrorReply(x.msg, 3)
      else
        && ClientAccepts(env.hmac, env.pop.value, nonce, x.reply)
        && ChallengeInForce(env, before + [x]) == Some((nonce, x.reply.devNonce))
    case Proof(proof) =>
      if ChallengeInForce(env, before).None? || |proof| != 32 then x.reply == ProofReply(5)
      else if (Attempts(env, before) + 1) % 256 > 3 then x.reply == ProofReply(4)
      else if !works then x.reply == ErrorReply(x.msg, 3)
      else
        var (cli, dev) := ChallengeInForce(env, before).value;
        x.reply == ProofReply(if proof == env.hmac(env.pop.value, "cli", dev, cli) then 0 else 4)
  }

  /** The reply to any completed entry. */
  predicate ReplyFits(env: Env, before: seq<Action>, x: Action) {
    match x
    case Overflowed(_, reply) => reply == StatusReply(0, 2)
    case Unauthorized(_, msg, reply) => reply == ErrorReply(msg, 4)
    case Handled(ep, msg, o, reply) =>
      if ep.path == ".prov/auth" then AuthReplyFits(env, before, x)
      else OtherReplyFits(msg, o.result, reply)
    case SessionReset => true
  }

  predicate OtherReplyFits(msg: seq<byte>, r: Result, reply: Reply) {
    match r
    case Answers(answer) => reply == answer
    case BadMessage => reply == ErrorReply(msg, 2)
    case Fails => reply == ErrorReply(msg, 3)
  }

  predicate RepliesFit(env: Env, log: seq<Action>) {
    forall i :: 0 <= i < |log| ==> ReplyFits(env, log[..i], log[i])
  }

  lemma RepliesSnoc(env: Env, log: seq<Action>, x: Action)
    requires RepliesFit(env, log) && ReplyFits(env, log, x)
    ensures RepliesFit(env, log + [x])
  {
    assert forall i :: 0 <= i <= |log| ==> (log + [x])[..i] == log[..i];
    assert log[..|log|] == log;
  }

  lemma AuthReply(env: Env, w: World, x: Action)
    requires Inv(env, w) && x.Handled? && x.ep.handler == Auth
    requires x.reply == ReplyTo(x.msg, HandleAuth(env, w.d.auth, x.msg, x.o).2)
    ensures AuthReplyFits(env, w.log, x)
  {
    ModSucc(Attempts(env, w.log));
    LogSnoc(env, w.log, x);
  }

  lemma CompleteReply(env: Env, w: World, ep: Endpoint, o: Outside)
    requires Inv(env, w) && OwnEndpoint(ep)
    ensures ReplyFits(env, w.log, Complete(env, w.d, ep, o).1)
  {
    var x := Complete(env, w.d, ep, o).1;
    if x.Handled? && ep.handler == Auth {
      AuthReply(env, w, x);
    }
  }

  lemma StepReplies(env: Env, w: World, e: Event)
    requires Inv(env, w) && Known(w) && RepliesFit(env, w.log)
    ensures RepliesFit(env, Step(env, w, e).log)
  {
    match e {
      case Starts(_, _, _) =>
      case Data(stream, data, last, o) =>
        if w.d.endpoint.Some? && stream == 0 && last {
          var w' := w.(d := Accumulate(w.d, data));
          CompleteReply(env, w', w.d.endpoint.value, o);
          RepliesSnoc(env, w.log, Complete(env, w'.d, w.d.endpoint.value, o).1);
        }
      case Resets => RepliesSnoc(env, w.log, SessionReset);
    }
  }

  /** In every run every completed entry is answered as its message, and the log before it, call
      for: in particular each answer to a well-formed challenge passes the client's check, with the
      device nonce that is then in force. */
  lemma {:induction false} EveryReplyFits(env: Env, es: seq<Event>)
    ensures RepliesFit(env, Run(env, START, es).log)
  {
    if es != [] {
      var before := es[..|es| - 1];
      EveryReplyFits(env, before);
      RunInv(env, before);
      RunKnown(env, before);
      StepReplies(env, Run(env, START, before), es[|es| - 1]);
    }
  }

  /** The two tags never give the same HMAC under the configured secret. */
  ghost predicate TagsSeparate(env: Env) {
    env.pop.Some? ==>
      forall a, b, c, d :: env.hmac(env.pop.value, "dev", a, b) != env.hmac(env.pop.value, "cli", c, d)
  }

  /** No device proof that a run hands out is a client proof: sent back, at any time, it does not
      authorize. */
  lemma {:induction false} NoReplyIsAProof(env: Env, es: seq<Event>, i: nat, before: seq<Action>, x: Action)
    requires TagsSeparate(env) && i < |Run(env, START, es).log|
    requires var y := Run(env, START, es).log[i];
      y.Handled? && y.ep.path == ".prov/auth" && y.reply.ChallengeReply? && x.Handled?
      && env.decode(x.msg) == Proof(y.reply.devProof)
    ensures !IsGoodProof(env, before, x)
  {
    var log := Run(env, START, es).log;
    EveryReplyFits(env, es);
    assert ReplyFits(env, log[..i], log[i]);
    HandedOut(env, log[..i], log[i]);
    DeviceProofFails(env, before, x, env.decode(log[i].msg).nonce, log[i].reply.devNonce);
  }

  lemma DeviceProofFails(env: Env, before: seq<Action>, x: Action, a: Octets, b: Octets)
    requires TagsSeparate(env) && env.pop.Some? && x.Handled?
    requires env.decode(x.msg) == Proof(env.hmac(env.pop.value, "dev", a, b))
    ensures !IsGoodProof(env, before, x)
  {
    if ChallengeInForce(env, before).Some? {
      var (cli, dev) := ChallengeInForce(env, before).value;
      assert env.hmac(env.pop.value, "dev", a, b) != env.hmac(env.pop.value, "cli", dev, cli);
    }
  }

  lemma HandedOut(env: Env, before: seq<Action>, y: Action)
    requires y.Handled? && y.reply.ChallengeReply? && AuthReplyFits(env, before, y)
    ensures env.pop.Some? && env.decode(y.msg).Challenge?
    ensures y.reply.devProof == env.hmac(env.pop.value, "dev", env.decode(y.msg).nonce, y.reply.devNonce)
  {
  }

  // ----- the handshake

  /** A client with its secret and nonce, and how its two requests are encoded. */
  datatype Client = Client(pop: seq<byte>, nonce: Octets, challenge: seq<byte>, proof: Octets -> seq<byte>)

  ghost predicate Encodes(env: Env, q: Client) {
    && |q.nonce| == 16 && |q.challenge| <= 384 && env.decode(q.challenge) == Challenge(q.nonce)
    && forall p :: |p| == 32 ==> |q.proof(p)| <= 384 && env.decode(q.proof(p)) == Proof(p)
  }

  function LastReply(w: World): Reply {
    if w.log == [] || w.log[|w.log| - 1].SessionReset? then NoReply else w.log[|w.log| - 1].reply
  }

  /** Attempt number `n + 1` is let through. */
  predicate Passes(n: nat) { (n + 1) % 256 <= 3 }

  /** The client's challenge, after any run, with the crypto service working: its check of the answer
      passes exactly when both compute the same HMAC, in particular with the same secret, and the
      nonces of the answer are then in force. */
  lemma {:induction false} ClientChecksDevice(env: Env, es: seq<Event>, q: Client, o: Outside)
      returns (w: World, w1: World)
    requires Encodes(env, q) && env.pop.Some? && o.crypto
    ensures w == Run(env, START, es) && w1 == Run(env, w, AuthEntry(q.challenge, o))
    ensures ClientAccepts(env.hmac, q.pop, q.nonce, LastReply(w1)) <==>
      env.hmac(q.pop, "dev", q.nonce, o.random) == env.hmac(env.pop.value, "dev", q.nonce, o.random)
    ensures LastReply(w1).ChallengeReply? && ChallengeInForce(env, w1.log) == Some((q.nonce, LastReply(w1).devNonce))
    ensures Attempts(env, w1.log) == Attempts(env, w.log)
  {
    w := Run(env, START, es);
    w1 := ChallengeAnswered(env, w, q, o);
  }

  lemma ChallengeAnswered(env: Env, w: World, q: Client, o: Outside) returns (w1: World)
    requires Encodes(env, q) && env.pop.Some? && o.crypto
    ensures w1 == Run(env, w, AuthEntry(q.challenge, o))
    ensures LastReply(w1) == ChallengeReply(o.random, env.hmac(env.pop.value, "dev", q.nonce, o.random))
    ensures ChallengeInForce(env, w1.log) == Some((q.nonce, o.random))
    ensures Attempts(env, w1.log) == Attempts(env, w.log)
  {
    w1 := Run(env, w, AuthEntry(q.challenge, o));
    AuthEntryHandled(env, w, q.challenge, o);
    LogSnoc(env, w.log, AuthHandled(q.challenge, o, HandleAuth(env, w.d.auth, q.challenge, o).2));
  }

  /** The right proof, sent in state `w`, is accepted and authorizes, or is refused. */
  predicate Answered(w: World, w': World, passes: bool) {
    LastReply(w') == ProofReply(if passes then 0 else 4) && (w'.d.authorized <==> w.d.authorized || passes)
  }

  lemma RightProofAnswered(env: Env, w: World, msg: seq<byte>, o: Outside)
    requires EnvOk(env) && env.pop.Some? && o.crypto && |msg| <= 384 && w.d.auth.challenged
    requires env.decode(msg) == Proof(env.hmac(env.pop.value, "cli", w.d.auth.devNonce, w.d.auth.cliNonce))
    ensures Answered(w, Run(env, w, AuthEntry(msg, o)), Low8(w.d.auth.attempts + 1) <= 3)
  {
    AuthEntryHandled(env, w, msg, o);
  }

  /** After any run that leaves a challenge in force, the client's HMAC over its nonces is accepted,
      and authorizes the session, exactly when the counter lets it through. */
  lemma {:induction false} RightProofAuthorizes(env: Env, es: seq<Event>, msg: seq<byte>, o: Outside)
      returns (w: World, w2: World)
    requires EnvOk(env) && env.pop.Some? && o.crypto && |msg| <= 384
    requires var inForce := ChallengeInForce(env, Run(env, START, es).log);
      inForce.Some?
      && env.decode(msg) == Proof(env.hmac(env.pop.value, "cli", inForce.value.1, inForce.value.0))
    ensures w == Run(env, START, es) && w2 == Run(env, w, AuthEntry(msg, o))
    ensures Answered(w, w2, Passes(Attempts(env, w.log)))
  {
    w := Run(env, START, es);
    w2 := Run(env, w, AuthEntry(msg, o));
    RunInv(env, es);
    NextAttempt(env, es);
    RightProofAnswered(env, w, msg, o);
  }

  lemma {:induction false} NextAttempt(env: Env, es: seq<Event>)
    ensures var w := Run(env, START, es); Passes(Attempts(env, w.log)) == (Low8(w.d.auth.attempts + 1) <= 3)
  {
    RunInv(env, es);
    ModSucc(Attempts(env, Run(env, START, es).log));
  }

  // ----- the op of an error reply

  lemma FirstBytes(op: nat, args: seq<Cbor.CborValue>)
    requires |args| <= 22
    ensures var m := Cbor.Enc(Cbor.CArray([Cbor.CInt(op)] + args));
      |m| >= 2 && m[0] == 0x81 + |args| && m[1] == (if op < 24 then op else Cbor.Head(0, op)[0])
  {
    var items := [Cbor.CInt(op)] + args;
    assert Cbor.Head(4, |items|) == [0x80 + |items|];
    assert items[0] == Cbor.CInt(op);
    assert Cbor.EncItems(items) == Cbor.Enc(items[0]) + Cbor.EncItems(items[1..]);
  }

  /** The error reply to a request `[op, ..]` with at most three arguments carries its op, if that is
      one the encoder takes; an op from 3 to 23 gets no reply, and a larger one, or one with more
      arguments, is taken for 0. */
  lemma ErrorReplyCarriesOp(op: nat, args: seq<Cbor.CborValue>, status: nat)
    requires |args| <= 22
    ensures ErrorReply(Cbor.Enc(Cbor.CArray([Cbor.CInt(op)] + args)), status)
      == if |args| > 3 || op >= 24 then StatusReply(0, status)
         else if op <= 2 then StatusReply(op, status)
         else NoReply
  {
    FirstBytes(op, args);
  }
}
