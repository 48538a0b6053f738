/** Pushing credentials from the client to the device, message by message, and finalizing. */
module FlowsModel {
  import opened Bytes
  import opened Cbor
  import opened CredStoreModel

  /** The largest message the device's dispatcher takes. */
  const MSG_MAX: nat := 384

  const STATUS_OK := 0
  const STATUS_INVALID_ARGUMENT := 2
  const STATUS_INTERNAL_ERROR := 3

  // ----- the write request

  const TEXT_KIND: seq<byte> := [0x6B, 0x69, 0x6E, 0x64]
  const TEXT_OFF: seq<byte> := [0x6F, 0x66, 0x66]
  const TEXT_TOTAL: seq<byte> := [0x74, 0x6F, 0x74, 0x61, 0x6C]
  const TEXT_DATA: seq<byte> := [0x64, 0x61, 0x74, 0x61]

  datatype Chunk = Chunk(kind: nat, offset: nat, total: nat, data: seq<byte>)

  function ChunkPairs(c: Chunk): seq<CborPair> {
    [CborPair(CText(TEXT_KIND), CInt(c.kind)),
     CborPair(CText(TEXT_OFF), CInt(c.offset)),
     CborPair(CText(TEXT_TOTAL), CInt(c.total)),
     CborPair(CText(TEXT_DATA), CBytes(c.data))]
  }

  function WriteValueOf(c: Chunk): CborValue { CArray([CInt(0), CMap(ChunkPairs(c))]) }

  /** `encodeCredWrite`. */
  function EncodeCredWrite(c: Chunk): seq<byte> { Enc(WriteValueOf(c)) }

  predicate IntIn(v: CborValue, limit: nat) { v.CInt? && 0 <= v.i < limit }

  /** What the device's schema accepts as a write: the four keys in order, a known kind, 32-bit
      offset and total. */
  function ChunkOf(v: CborValue): Option<Chunk> {
    if v.CArray? && |v.items| == 2 && v.items[0] == CInt(0) && v.items[1].CMap? && |v.items[1].pairs| == 4 then
      var p := v.items[1].pairs;
      if && p[0].key == CText(TEXT_KIND) && IntIn(p[0].value, 3)
         && p[1].key == CText(TEXT_OFF) && IntIn(p[1].value, TWO32)
         && p[2].key == CText(TEXT_TOTAL) && IntIn(p[2].value, TWO32)
         && p[3].key == CText(TEXT_DATA) && p[3].value.CBytes?
      then Some(Chunk(p[0].value.i, p[1].value.i, p[2].value.i, p[3].value.bytes))
      else None
    else None
  }

  function DecodeCredWrite(msg: seq<byte>): Option<Chunk> {
    match Read(msg, 0)
    case Ok(v, _) => ChunkOf(v)
    case Err(_) => None
  }

  /** What the schema's field widths admit. */
  predicate ChunkInRange(c: Chunk) { c.kind < 3 && c.offset < TWO32 && c.total < TWO32 }

  /** What a client can hold. */
  predicate ChunkHeld(c: Chunk) {
    c.kind <= INT64_MAX && c.offset <= INT64_MAX && c.total <= INT64_MAX && |c.data| <= INT64_MAX
  }

  lemma {:induction false} AsciiIsUtf8(t: seq<byte>)
    requires forall i :: 0 <= i < |t| ==> t[i] < 0x80
    ensures ValidUtf8(t)
  {
    if t != [] {
      AsciiIsUtf8(t[1..]);
    }
  }

  lemma ChunkPairsValid(c: Chunk)
    requires ChunkHeld(c)
    ensures Valid(CMap(ChunkPairs(c)))
  {
    AsciiIsUtf8(TEXT_KIND);
    AsciiIsUtf8(TEXT_OFF);
    AsciiIsUtf8(TEXT_TOTAL);
    AsciiIsUtf8(TEXT_DATA);
    var ps := ChunkPairs(c);
    FourPairsValid(ps[0], ps[1], ps[2], ps[3]);
  }

  lemma FourPairsValid(a: CborPair, b: CborPair, c: CborPair, d: CborPair)
    requires forall p :: p in {a, b, c, d} ==> Valid(p.key) && Valid(p.value)
    ensures Valid(CMap([a, b, c, d]))
  {
    assert forall p :: p in [a, b, c, d] ==> p in {a, b, c, d};
  }

  lemma WriteReadsBack(c: Chunk)
    requires ChunkHeld(c)
    ensures Read(EncodeCredWrite(c), 0) == Ok(WriteValueOf(c), |EncodeCredWrite(c)|)
  {
    ChunkPairsValid(c);
    PairIsValid(CInt(0), CMap(ChunkPairs(c)));
    ReadEnc(EncodeCredWrite(c), 0, WriteValueOf(c));
  }

  lemma PairIsValid(v: CborValue, w: CborValue)
    requires Valid(v) && Valid(w)
    ensures Valid(CArray([v, w]))
  {
    assert forall x :: x in [v, w] ==> x == v || x == w;
  }

  lemma ChunkOfWrite(c: Chunk)
    ensures ChunkOf(WriteValueOf(c)) == if ChunkInRange(c) then Some(c) else None
  {
  }

  /** The device reads back the chunk the client encoded, or refuses one out of range. */
  lemma CredWriteRoundTrip(c: Chunk)
    requires ChunkHeld(c)
    ensures DecodeCredWrite(EncodeCredWrite(c)) == if ChunkInRange(c) then Some(c) else None
  {
    WriteReadsBack(c);
    ChunkOfWrite(c);
  }

  lemma PairsLength(c: Chunk)
    ensures var ps := ChunkPairs(c);
      |EncPairs(ps)| == |EncPair(ps[0])| + |EncPair(ps[1])| + |EncPair(ps[2])| + |EncPair(ps[3])|
  {
    var ps := ChunkPairs(c);
    EncPairsSnoc([], ps[0]);
    EncPairsSnoc([ps[0]], ps[1]);
    EncPairsSnoc([ps[0], ps[1]], ps[2]);
    EncPairsSnoc([ps[0], ps[1], ps[2]], ps[3]);
    assert [] + [ps[0]] == [ps[0]];
    assert [ps[0]] + [ps[1]] == [ps[0], ps[1]];
    assert [ps[0], ps[1]] + [ps[2]] == [ps[0], ps[1], ps[2]];
    assert [ps[0], ps[1], ps[2]] + [ps[3]] == ps;
  }

  lemma WriteLength(c: Chunk)
    ensures |EncodeCredWrite(c)| == 3 + |EncPairs(ChunkPairs(c))|
  {
    var m := CMap(ChunkPairs(c));
    EncItemsSnoc([], CInt(0));
    EncItemsSnoc([CInt(0)], m);
    assert [] + [CInt(0)] == [CInt(0)];
    assert [CInt(0)] + [m] == [CInt(0), m];
    assert |Enc(m)| == 1 + |EncPairs(ChunkPairs(c))|;
  }

  lemma IntPairSize(key: seq<byte>, n: nat)
    requires |key| < 24 && n <= 0xFFFF
    ensures |EncPair(CborPair(CText(key), CInt(n)))| <= 1 + |key| + (if n < 24 then 1 else 3)
  {
  }

  /** A write with at most 256 bytes of a credential of at most 2048 is at most 289 bytes. */
  lemma CredWriteSize(c: Chunk)
    requires c.kind < 3 && c.offset <= 0xFFFF && c.total <= 0xFFFF && |c.data| <= 256
    ensures |EncodeCredWrite(c)| <= 33 + |c.data| <= 289 < MSG_MAX
  {
    PairsLength(c);
    WriteLength(c);
    var ps := ChunkPairs(c);
    IntPairSize(TEXT_KIND, c.kind);
    IntPairSize(TEXT_OFF, c.offset);
    IntPairSize(TEXT_TOTAL, c.total);
    assert |EncPair(ps[3])| <= 8 + |c.data|;
  }

  // ----- the response

  function StatusOf(e: CredError): int {
    if e == IoError then STATUS_INTERNAL_ERROR else STATUS_INVALID_ARGUMENT
  }

  function WriteResponse(r: Outcome<nat, CredError>): CborValue {
    match r
    case Good(n) => CArray([CInt(0), CInt(STATUS_OK), CInt(n)])
    case Bad(e) => CArray([CInt(0), CInt(StatusOf(e)), CInt(0)])
  }

  datatype FlowError = Malformed | Refused(status: int) | Desync

  /** `decodeCredWriteRsp`. */
  function DecodeCredWriteRsp(rsp: seq<byte>): Outcome<int, FlowError> {
    match Read(rsp, 0)
    case Err(_) => Bad(Malformed)
    case Ok(v, _) =>
      if !v.CArray? || |v.items| < 2 || v.items[0] != CInt(0) || !IntIn(v.items[1], 7) then Bad(Malformed)
      else if v.items[1].i != STATUS_OK then Bad(Refused(v.items[1].i))
      else if |v.items| > 2 && v.items[2].CInt? then Good(v.items[2].i)
      else Bad(Malformed)
  }

  /** What the client makes of a stage result. */
  function Reported(r: Outcome<nat, CredError>): Outcome<int, FlowError> {
    match r
    case Good(n) => Good(n)
    case Bad(e) => Bad(Refused(StatusOf(e)))
  }

  lemma ResponseRoundTrip(r: Outcome<nat, CredError>)
    requires r.Good? ==> r.value <= INT64_MAX
    ensures DecodeCredWriteRsp(Enc(WriteResponse(r))) == Reported(r)
  {
    var v := WriteResponse(r);
    assert forall x :: x in v.items ==> Valid(x);
    ReadEnc(Enc(v), 0, v);
  }

  // ----- the finalize request and its response

  const FINALIZE_REQUEST: seq<byte> := Enc(CArray([CInt(1)]))

  predicate IsFinalizeRequest(msg: seq<byte>) {
    Read(msg, 0).Ok? && Read(msg, 0).value == CArray([CInt(1)])
  }

  function FinalizeResponse(r: Outcome<(), CredError>): CborValue {
    CArray([CInt(1), CInt(if r.Good? then STATUS_OK else StatusOf(r.error))])
  }

  /** `decodeCredFinalizeRsp`. */
  function DecodeFinalizeRsp(rsp: seq<byte>): Outcome<(), FlowError> {
    match Read(rsp, 0)
    case Err(_) => Bad(Malformed)
    case Ok(v, _) =>
      if !v.CArray? || |v.items| < 2 || v.items[0] != CInt(1) || !IntIn(v.items[1], 7) then Bad(Malformed)
      else if v.items[1].i != STATUS_OK then Bad(Refused(v.items[1].i))
      else Good(())
  }

  /** What the client makes of a finalize result. */
  function Finalized(r: Outcome<(), CredError>): Outcome<(), FlowError> {
    if r.Bad? then Bad(Refused(StatusOf(r.error))) else Good(())
  }

  lemma FinalizeRequestReads()
    ensures IsFinalizeRequest(FINALIZE_REQUEST) && |FINALIZE_REQUEST| <= MSG_MAX
  {
    var v := CArray([CInt(1)]);
    assert forall x :: x in v.items ==> Valid(x);
    ReadEnc(FINALIZE_REQUEST, 0, v);
    EncItemsSnoc([], CInt(1));
    assert [] + [CInt(1)] == [CInt(1)];
  }

  lemma FinalizeResponseRoundTrip(r: Outcome<(), CredError>)
    ensures DecodeFinalizeRsp(Enc(FinalizeResponse(r))) == Finalized(r)
  {
    var v := FinalizeResponse(r);
    assert forall x :: x in v.items ==> Valid(x);
    ReadEnc(Enc(v), 0, v);
  }

  /** A finalize request and its answer. */
  function FinalizeExchange(s: Store, msg: seq<byte>, saves: seq<bool>): (r: (Store, Outcome<(), FlowError>))
    requires StoreInv(s) && |saves| == 3
    ensures StoreInv(r.0)
  {
    if |msg| > MSG_MAX || !IsFinalizeRequest(msg) then (s, Bad(Refused(STATUS_INVALID_ARGUMENT))) else
    var (s', r) := Finalize(s, saves);
    (s', DecodeFinalizeRsp(Enc(FinalizeResponse(r))))
  }

  lemma FinalizeExchanged(s: Store, saves: seq<bool>)
    requires StoreInv(s) && |saves| == 3
    ensures var (s', r) := Finalize(s, saves);
      FinalizeExchange(s, FINALIZE_REQUEST, saves) == (s', Finalized(r))
  {
    FinalizeRequestReads();
    FinalizeResponseRoundTrip(Finalize(s, saves).1);
  }

  // ----- one exchange

  /** A write request and its answer: an oversized or undecodable message is answered
      "invalid argument" without reaching the store. */
  function Exchange(s: Store, msg: seq<byte>): (r: (Store, Outcome<int, FlowError>))
    requires StoreInv(s)
    ensures StoreInv(r.0)
  {
    if |msg| > MSG_MAX || DecodeCredWrite(msg).None? then (s, Bad(Refused(STATUS_INVALID_ARGUMENT))) else
    var c := DecodeCredWrite(msg).value;
    var (s', r) := Stage(s, c.kind, c.offset, c.total, c.data);
    (s', DecodeCredWriteRsp(Enc(WriteResponse(r))))
  }

  lemma StagedCountIsSmall(s: Store, c: Chunk)
    requires StoreInv(s) && c.kind < 3
    ensures var r := Stage(s, c.kind, c.offset, c.total, c.data).1; r.Good? ==> r.value <= 2048
  {
  }

  lemma ExchangeStages(s: Store, c: Chunk)
    requires StoreInv(s) && ChunkHeld(c) && ChunkInRange(c) && |EncodeCredWrite(c)| <= MSG_MAX
    ensures var (s', r) := Stage(s, c.kind, c.offset, c.total, c.data);
      Exchange(s, EncodeCredWrite(c)) == (s', Reported(r))
  {
    CredWriteRoundTrip(c);
    StagedCountIsSmall(s, c);
    ResponseRoundTrip(Stage(s, c.kind, c.offset, c.total, c.data).1);
  }

  // ----- pushing one credential

  function Piece(der: seq<byte>, off: nat, chunk: nat): (p: seq<byte>)
    requires off < |der| && chunk > 0
    ensures 0 < |p| <= chunk && off + |p| <= |der| && p == der[off..off + |p|]
  {
    der[off..if off + chunk < |der| then off + chunk else |der|]
  }

  /** The write request for the piece at `off`. */
  function MessageAt(kind: nat, der: seq<byte>, off: nat, chunk: nat): seq<byte>
    requires off < |der| && chunk > 0
  {
    EncodeCredWrite(Chunk(kind, off, |der|, Piece(der, off, chunk)))
  }

  /** The outcome of a push: the device's state, the client's result, and the requests sent. */
  datatype Pushed = Pushed(store: Store, result: Outcome<(), FlowError>, sent: seq<seq<byte>>)

  /** The loop of `pushCredential` from offset `off` on, after the requests in `sent`. */
  function PushFrom(s: Store, kind: nat, der: seq<byte>, off: nat, chunk: nat, sent: seq<seq<byte>>): (r: Pushed)
    requires StoreInv(s) && chunk > 0
    ensures StoreInv(r.store)
    decreases |der| - off, 0
  {
    if off >= |der| then Pushed(s, Good(()), sent) else
    var msg := MessageAt(kind, der, off, chunk);
    var (s', received) := Exchange(s, msg);
    Continue(s', received, kind, der, off + |Piece(der, off, chunk)|, chunk, sent + [msg])
  }

  /** The rest of the push once the device has answered; `next` is the count it should give. */
  function Continue(s: Store, received: Outcome<int, FlowError>, kind: nat, der: seq<byte>, next: nat, chunk: nat,
                    sent: seq<seq<byte>>): (r: Pushed)
    requires StoreInv(s) && chunk > 0
    ensures StoreInv(r.store)
    decreases |der| - next, 1
  {
    if received.Bad? then Pushed(s, Bad(received.error), sent)
    else if received.value != next then Pushed(s, Bad(Desync), sent)
    else PushFrom(s, kind, der, next, chunk, sent)
  }

  function Push(s: Store, kind: nat, der: seq<byte>, chunk: nat): (r: Pushed)
    requires StoreInv(s) && chunk > 0
    ensures StoreInv(r.store)
  {
    PushFrom(s, kind, der, 0, chunk, [])
  }

  /** The device holds the first `off` bytes of `der` and expects all of it. */
  predicate Holding(b: Blob, der: seq<byte>, off: nat) {
    BlobInv(b) && off <= |der| && b.staged == off && b.expected == |der| && b.buf[..off] == der[..off]
  }

  lemma NextChunk(b: Blob, der: seq<byte>, off: nat, chunk: nat)
    requires BlobInv(b) && |der| <= |b.buf| && off < |der| && chunk > 0 && (off == 0 || Holding(b, der, off))
    ensures var p := Piece(der, off, chunk); var (b', r) := StageBlob(b, off, |der|, p);
      r == Good(off + |p|) && Holding(b', der, off + |p|) && b'.len == b.len
  {
    var p := Piece(der, off, chunk);
    var b' := StageBlob(b, off, |der|, p).0;
    assert b'.buf[..off + |p|] == b.buf[..off] + p;
    assert der[..off + |p|] == der[..off] + p;
  }

  /** Only kind `kind` differs, and not in what is persisted for it. */
  predicate OnlyStaged(s: Store, s': Store, kind: nat) {
    && StoreInv(s) && StoreInv(s') && kind < 3
    && s'.settings == s.settings && s'.blobs[kind].len == s.blobs[kind].len
    && forall k :: 0 <= k < 3 && k != kind ==> s'.blobs[k] == s.blobs[k]
  }

  lemma NextExchange(s: Store, kind: nat, der: seq<byte>, off: nat, chunk: nat)
    requires StoreInv(s) && kind < 3 && |der| <= Cap(kind) && off < |der| && 1 <= chunk <= 256
    requires off == 0 || Holding(s.blobs[kind], der, off)
    ensures var next := off + |Piece(der, off, chunk)|; var msg := MessageAt(kind, der, off, chunk);
      var (s', r) := Exchange(s, msg);
      |msg| <= 289 && r == Good(next) && OnlyStaged(s, s', kind) && Holding(s'.blobs[kind], der, next)
  {
    var p := Piece(der, off, chunk);
    var c := Chunk(kind, off, |der|, p);
    CredWriteSize(c);
    ExchangeStages(s, c);
    NextChunk(s.blobs[kind], der, off, chunk);
  }

  lemma {:induction false} PushHolds(s: Store, kind: nat, der: seq<byte>, off: nat, chunk: nat, sent: seq<seq<byte>>)
    requires StoreInv(s) && kind < 3 && off <= |der| <= Cap(kind) && 1 <= chunk <= 256
    requires if off == 0 then der != [] else Holding(s.blobs[kind], der, off)
    ensures var p := PushFrom(s, kind, der, off, chunk, sent);
      p.result.Good? && OnlyStaged(s, p.store, kind) && Holding(p.store.blobs[kind], der, |der|)
    decreases |der| - off
  {
    if off < |der| {
      var s', next := PushStep(s, kind, der, off, chunk, sent);
      PushHolds(s', kind, der, next, chunk, sent + [MessageAt(kind, der, off, chunk)]);
    }
  }

  lemma PushStep(s: Store, kind: nat, der: seq<byte>, off: nat, chunk: nat, sent: seq<seq<byte>>)
      returns (s': Store, next: nat)
    requires StoreInv(s) && kind < 3 && |der| <= Cap(kind) && off < |der| && 1 <= chunk <= 256
    requires off == 0 || Holding(s.blobs[kind], der, off)
    ensures off < next <= |der| && OnlyStaged(s, s', kind) && Holding(s'.blobs[kind], der, next)
    ensures PushFrom(s, kind, der, off, chunk, sent)
      == PushFrom(s', kind, der, next, chunk, sent + [MessageAt(kind, der, off, chunk)])
  {
    NextExchange(s, kind, der, off, chunk);
    s', next := Exchange(s, MessageAt(kind, der, off, chunk)).0, off + |Piece(der, off, chunk)|;
  }

  lemma TooLargeIsRefused(s: Store, kind: nat, der: seq<byte>, chunk: nat)
    requires StoreInv(s) && kind < 3 && Cap(kind) < |der| <= INT64_MAX && 1 <= chunk <= 256
    ensures var p := Push(s, kind, der, chunk); p.store == s && p.result == Bad(Refused(2))
  {
    var c := Chunk(kind, 0, |der|, Piece(der, 0, chunk));
    var msg := EncodeCredWrite(c);
    CredWriteRoundTrip(c);
    if |msg| <= MSG_MAX && ChunkInRange(c) {
      ExchangeStages(s, c);
      assert s.blobs[kind := s.blobs[kind]] == s.blobs;
    }
    var (s', received) := Exchange(s, msg);
    assert Push(s, kind, der, chunk) == Continue(s', received, kind, der, |c.data|, chunk, [] + [msg]);
  }

  /** Whatever was staged before: a credential is pushed without error exactly when it fits its
      kind; then, unless it is empty, the device has staged all of it and nothing else changed.
      One that does not fit changes nothing. */
  lemma PushDelivers(s: Store, kind: nat, der: seq<byte>, chunk: nat)
    requires StoreInv(s) && kind < 3 && |der| <= INT64_MAX && 1 <= chunk <= 256
    ensures var p := Push(s, kind, der, chunk);
      && (p.result.Good? <==> |der| <= Cap(kind))
      && (der == [] || p.result.Bad? ==> p.store == s)
      && (p.result.Bad? ==> p.result.error == Refused(2))
      && (der != [] && p.result.Good? ==>
            && OnlyStaged(s, p.store, kind)
            && Complete(p.store.blobs[kind]) && Staged(p.store.blobs[kind]) == der)
  {
    if der != [] {
      if |der| <= Cap(kind) {
        PushHolds(s, kind, der, 0, chunk, []);
        assert der[..|der|] == der;
      } else {
        TooLargeIsRefused(s, kind, der, chunk);
      }
    }
  }

  // ----- the messages of a push

  /** One write request for each piece from `off` on. */
  function Messages(kind: nat, der: seq<byte>, off: nat, chunk: nat): seq<seq<byte>>
    requires chunk > 0
    decreases |der| - off
  {
    if off >= |der| then []
    else [MessageAt(kind, der, off, chunk)] + Messages(kind, der, off + |Piece(der, off, chunk)|, chunk)
  }

  /** `all` is `sent` and then the first few of `rest`, or all of them when `done`. */
  predicate SendsOn(sent: seq<seq<byte>>, all: seq<seq<byte>>, rest: seq<seq<byte>>, done: bool) {
    all <= sent + rest && sent <= all && (done ==> all == sent + rest)
  }

  lemma SendsOneMore(sent: seq<seq<byte>>, all: seq<seq<byte>>, msg: seq<byte>, rest: seq<seq<byte>>, done: bool)
    requires SendsOn(sent + [msg], all, rest, done)
    ensures SendsOn(sent, all, [msg] + rest, done)
  {
    assert (sent + [msg]) + rest == sent + ([msg] + rest);
  }

  /** What a push sends is an initial run of the write requests for its pieces, and all of them
      when it succeeds. */
  lemma {:induction false} SentArePieces(s: Store, kind: nat, der: seq<byte>, off: nat, chunk: nat,
                                         sent: seq<seq<byte>>)
    requires StoreInv(s) && chunk > 0
    ensures var p := PushFrom(s, kind, der, off, chunk, sent);
      SendsOn(sent, p.sent, Messages(kind, der, off, chunk), p.result.Good?)
    decreases |der| - off, 0
  {
    if off < |der| {
      var msg, next := MessageAt(kind, der, off, chunk), off + |Piece(der, off, chunk)|;
      var (s', received) := Exchange(s, msg);
      ContinuesInPieces(s', received, kind, der, next, chunk, sent + [msg]);
      var p := Continue(s', received, kind, der, next, chunk, sent + [msg]);
      SendsOneMore(sent, p.sent, msg, Messages(kind, der, next, chunk), p.result.Good?);
    }
  }

  lemma {:induction false} ContinuesInPieces(s: Store, received: Outcome<int, FlowError>, kind: nat, der: seq<byte>,
                                             next: nat, chunk: nat, sent: seq<seq<byte>>)
    requires StoreInv(s) && chunk > 0
    ensures var p := Continue(s, received, kind, der, next, chunk, sent);
      SendsOn(sent, p.sent, Messages(kind, der, next, chunk), p.result.Good?)
    decreases |der| - next, 1
  {
    if received == Good(next) {
      SentArePieces(s, kind, der, next, chunk, sent);
    }
  }

  /** Every write request for a credential that fits its kind is at most 289 bytes. */
  lemma {:induction false} MessagesAreSmall(kind: nat, der: seq<byte>, off: nat, chunk: nat)
    requires kind < 3 && |der| <= Cap(kind) && 1 <= chunk <= 256
    ensures forall m :: m in Messages(kind, der, off, chunk) ==> |m| <= 289
    decreases |der| - off
  {
    if off < |der| {
      CredWriteSize(Chunk(kind, off, |der|, Piece(der, off, chunk)));
      MessagesAreSmall(kind, der, off + |Piece(der, off, chunk)|, chunk);
    }
  }

  /** Whatever the device held: a push of a credential that fits sends exactly one request for
      each piece, in order, and none larger than 289 bytes. */
  lemma PushSends(s: Store, kind: nat, der: seq<byte>, chunk: nat)
    requires StoreInv(s) && kind < 3 && |der| <= Cap(kind) && 1 <= chunk <= 256
    ensures var sent := Push(s, kind, der, chunk).sent;
      sent == Messages(kind, der, 0, chunk) && forall m :: m in sent ==> |m| <= 289
  {
    PushDelivers(s, kind, der, chunk);
    SentArePieces(s, kind, der, 0, chunk, []);
    MessagesAreSmall(kind, der, 0, chunk);
  }

  // ----- the methods

  /** The device side of an exchange. */
  method Answer(store: CredStore, msg: seq<byte>) returns (r: Outcome<int, FlowError>)
    requires store.Valid()
    modifies store.cert, store.cert.buf, store.key, store.key.buf, store.ca, store.ca.buf
    ensures store.Valid() && (store.View(), r) == Exchange(old(store.View()), msg)
  {
    if |msg| > MSG_MAX {
      return Bad(Refused(STATUS_INVALID_ARGUMENT));
    }
    var c := DecodeCredWrite(msg);
    if c.None? {
      return Bad(Refused(STATUS_INVALID_ARGUMENT));
    }
    var staged := store.StageChunk(c.value.kind, c.value.offset, c.value.total, c.value.data);
    r := DecodeCredWriteRsp(Enc(WriteResponse(staged)));
  }

  method AnswerFinalize(store: CredStore, msg: seq<byte>, saves: seq<bool>) returns (r: Outcome<(), FlowError>)
    requires store.Valid() && |saves| == 3
    modifies store, store.cert, store.key, store.ca
    ensures store.Valid() && (store.View(), r) == FinalizeExchange(old(store.View()), msg, saves)
  {
    if |msg| > MSG_MAX || !IsFinalizeRequest(msg) {
      return Bad(Refused(STATUS_INVALID_ARGUMENT));
    }
    var done := store.FinalizeAll(saves);
    r := DecodeFinalizeRsp(Enc(FinalizeResponse(done)));
  }

  /** One turn of the loop of `pushCredential`; `sent` are the requests so far. */
  method PushChunk(store: CredStore, kind: nat, der: seq<byte>, off: nat, chunk: nat, sent: seq<seq<byte>>)
      returns (received: Outcome<int, FlowError>, next: nat, all: seq<seq<byte>>)
    requires store.Valid() && off < |der| && chunk > 0
    modifies store.cert, store.cert.buf, store.key, store.key.buf, store.ca, store.ca.buf
    ensures store.Valid() && off < next <= |der|
    ensures PushFrom(old(store.View()), kind, der, off, chunk, sent)
      == Continue(store.View(), received, kind, der, next, chunk, all)
  {
    var piece := Piece(der, off, chunk);
    var msg := EncodeCredWrite(Chunk(kind, off, |der|, piece));
    received := Answer(store, msg);
    next, all := off + |piece|, sent + [msg];
  }

  /** `pushCredential` against the device; `sent` are the requests it makes. */
  method PushCredential(store: CredStore, kind: nat, der: seq<byte>, chunk: nat)
      returns (r: Outcome<(), FlowError>, sent: seq<seq<byte>>)
    requires store.Valid() && chunk > 0
    modifies store.cert, store.cert.buf, store.key, store.key.buf, store.ca, store.ca.buf
    ensures store.Valid() && Pushed(store.View(), r, sent) == Push(old(store.View()), kind, der, chunk)
  {
    var off := 0;
    sent := [];
    while off < |der|
      invariant 0 <= off <= |der| && store.Valid()
      invariant PushFrom(store.View(), kind, der, off, chunk, sent) == Push(old(store.View()), kind, der, chunk)
    {
      var received;
      received, off, sent := PushChunk(store, kind, der, off, chunk, sent);
      if received.Bad? {
        return Bad(received.error), sent;
      }
      if received.value != off {
        return Bad(Desync), sent;
      }
    }
    r := Good(());
  }

  // ----- the whole bootstrap

  /** The pushes of `bootstrapCredentials`, up to the first that fails. */
  function Pushes(s: Store, cert: seq<byte>, key: seq<byte>, ca: Option<seq<byte>>)
      : (r: (Store, Outcome<(), FlowError>))
    requires StoreInv(s)
    ensures StoreInv(r.0)
  {
    var p := Push(s, CERT, cert, 256);
    if p.result.Bad? then (p.store, p.result) else
    var p := Push(p.store, KEY, key, 256);
    if p.result.Bad? || ca.None? then (p.store, p.result) else
    var p := Push(p.store, CA, ca.value, 256);
    (p.store, p.result)
  }

  function Bootstrap(s: Store, cert: seq<byte>, key: seq<byte>, ca: Option<seq<byte>>, saves: seq<bool>)
      : (Store, Outcome<(), FlowError>)
    requires StoreInv(s) && |saves| == 3
  {
    var (s1, r1) := Pushes(s, cert, key, ca);
    if r1.Bad? then (s1, r1) else FinalizeExchange(s1, FINALIZE_REQUEST, saves)
  }

  /** What the client can hold. */
  predicate Held(cert: seq<byte>, key: seq<byte>, ca: Option<seq<byte>>) {
    |cert| <= INT64_MAX && |key| <= INT64_MAX && (ca.Some? ==> |ca.value| <= INT64_MAX)
  }

  predicate AllFitKinds(cert: seq<byte>, key: seq<byte>, ca: Option<seq<byte>>) {
    |cert| <= 2048 && |key| <= 512 && (ca.Some? ==> |ca.value| <= 2048)
  }

  /** What a kind has complete after a push of `der`: `der` itself, or, for an empty one, which
      sends nothing, what was complete before. */
  function Offered(b: Blob, der: seq<byte>): Option<seq<byte>>
    requires BlobInv(b)
  {
    if der != [] then Some(der) else if Complete(b) then Some(Staged(b)) else None
  }

  function OrEmpty(ca: Option<seq<byte>>): seq<byte> { if ca.Some? then ca.value else [] }

  predicate Has(s: Store, kind: nat, p: Option<seq<byte>>)
    requires StoreInv(s) && kind < 3
  {
    if p.Some? then Complete(s.blobs[kind]) && Staged(s.blobs[kind]) == p.value else !Complete(s.blobs[kind])
  }

  lemma PushOffers(s: Store, kind: nat, der: seq<byte>)
    requires StoreInv(s) && kind < 3 && |der| <= INT64_MAX
    ensures var p := Push(s, kind, der, 256);
      && (p.result.Good? <==> |der| <= Cap(kind))
      && p.store.settings == s.settings && (p.result.Bad? ==> p.result.error == Refused(2))
      && (p.result.Good? ==> Has(p.store, kind, Offered(s.blobs[kind], der)))
      && (p.result.Good? ==> forall k :: 0 <= k < 3 && k != kind ==> p.store.blobs[k] == s.blobs[k])
  {
    PushDelivers(s, kind, der, 256);
  }

  lemma PushesOffer(s: Store, cert: seq<byte>, key: seq<byte>, ca: Option<seq<byte>>)
    requires StoreInv(s) && Held(cert, key, ca)
    ensures var (s', r) := Pushes(s, cert, key, ca);
      && s'.settings == s.settings && (r.Bad? ==> r.error == Refused(2))
      && (r.Good? <==> AllFitKinds(cert, key, ca))
      && (r.Good? ==>
            && Has(s', CERT, Offered(s.blobs[CERT], cert)) && Has(s', KEY, Offered(s.blobs[KEY], key))
            && Has(s', CA, Offered(s.blobs[CA], OrEmpty(ca))))
  {
    PushOffers(s, CERT, cert);
    var s1 := Push(s, CERT, cert, 256).store;
    PushOffers(s1, KEY, key);
    if ca.Some? {
      PushOffers(Push(s1, KEY, key, 256).store, CA, ca.value);
    }
  }

  /** `offer` of all three kinds can be finalized. */
  predicate Persistable(cert: Option<seq<byte>>, key: Option<seq<byte>>, ca: Option<seq<byte>>, saves: seq<bool>)
    requires |saves| == 3
  {
    Wellformed(cert, key) && saves[CERT] && saves[KEY] && (ca.Some? ==> saves[CA])
  }

  predicate Wellformed(cert: Option<seq<byte>>, key: Option<seq<byte>>) {
    cert.Some? && DerSpans(cert.value) && key.Some?
  }

  /** Whatever the device held before, the bootstrap succeeds exactly when each credential fits and
      what is then complete has a certificate whose outer length spans it, a key, and a backend
      that takes every complete kind; then exactly that is persisted. Otherwise the device answers
      "internal error" if only a save failed, and "invalid argument", with nothing persisted, if not. */
  lemma {:induction false} BootstrapPersists(s: Store, cert: seq<byte>, key: seq<byte>, ca: Option<seq<byte>>,
                                             saves: seq<bool>)
    requires StoreInv(s) && |saves| == 3 && Held(cert, key, ca)
    ensures var (s', r) := Bootstrap(s, cert, key, ca, saves);
      var pc, pk, pa :=
        Offered(s.blobs[CERT], cert), Offered(s.blobs[KEY], key), Offered(s.blobs[CA], OrEmpty(ca));
      && (r.Good? <==> AllFitKinds(cert, key, ca) && Persistable(pc, pk, pa, saves))
      && (r.Bad? ==> r.error == Refused(if AllFitKinds(cert, key, ca) && Wellformed(pc, pk) then 3 else 2))
      && (r == Bad(Refused(2)) ==> s'.settings == s.settings)
      && (r.Good? ==>
            && Lookup(s'.settings, CERT) == pc && Lookup(s'.settings, KEY) == pk
            && Lookup(s'.settings, CA) == if pa.Some? then pa else Lookup(s.settings, CA))
  {
    PushesOffer(s, cert, key, ca);
    if AllFitKinds(cert, key, ca) {
      FinalizeOffered(Pushes(s, cert, key, ca).0, saves, Offered(s.blobs[CERT], cert), Offered(s.blobs[KEY], key),
                      Offered(s.blobs[CA], OrEmpty(ca)));
    }
  }

  lemma FinalizeOffered(s: Store, saves: seq<bool>, pc: Option<seq<byte>>, pk: Option<seq<byte>>, pa: Option<seq<byte>>)
    requires StoreInv(s) && |saves| == 3 && Has(s, CERT, pc) && Has(s, KEY, pk) && Has(s, CA, pa)
    ensures var (s', r) := FinalizeExchange(s, FINALIZE_REQUEST, saves);
      && (r.Good? <==> Persistable(pc, pk, pa, saves))
      && (r.Bad? ==> r.error == Refused(if Wellformed(pc, pk) then 3 else 2))
      && (r == Bad(Refused(2)) ==> s'.settings == s.settings)
      && (r.Good? ==>
            && Lookup(s'.settings, CERT) == pc && Lookup(s'.settings, KEY) == pk
            && Lookup(s'.settings, CA) == if pa.Some? then pa else Lookup(s.settings, CA))
  {
    FinalizeExactly(s, saves);
    FinalizeExchanged(s, saves);
  }

  method PushAll(store: CredStore, cert: seq<byte>, key: seq<byte>, ca: Option<seq<byte>>)
      returns (r: Outcome<(), FlowError>)
    requires store.Valid()
    modifies store.cert, store.cert.buf, store.key, store.key.buf, store.ca, store.ca.buf
    ensures store.Valid() && (store.View(), r) == Pushes(old(store.View()), cert, key, ca)
  {
    var sent;
    r, sent := PushCredential(store, CERT, cert, 256);
    if r.Bad? {
      return;
    }
    r, sent := PushCredential(store, KEY, key, 256);
    if r.Bad? || ca.None? {
      return;
    }
    r, sent := PushCredential(store, CA, ca.value, 256);
  }

  /** `bootstrapCredentials`. */
  method BootstrapCredentials(store: CredStore, cert: seq<byte>, key: seq<byte>, ca: Option<seq<byte>>,
                              saves: seq<bool>) returns (r: Outcome<(), FlowError>)
    requires store.Valid() && |saves| == 3
    modifies store, store.cert, store.cert.buf, store.key, store.key.buf, store.ca, store.ca.buf
    ensures store.Valid() && (store.View(), r) == Bootstrap(old(store.View()), cert, key, ca, saves)
  {
    r := PushAll(store, cert, key, ca);
    if r.Good? {
      r := AnswerFinalize(store, FINALIZE_REQUEST, saves);
    }
  }
}
