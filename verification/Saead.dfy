/** The saead session: block sealing chained by authentication tags, the header's session
    parameters, and a peer that undoes it. Key agreement, key derivation and the AEAD are
    parameters with the laws such primitives have. */
module Saead {
  import opened Bytes
  import opened Cbor
  import opened Pouch
  import opened SaeadText

  const ROLE_DEVICE := 0
  const ROLE_SERVER := 1
  const TAG_LEN: nat := 16
  const SESSION_ID_LEN: nat := 16

  // ----- cryptography

  type SealFn = (int, seq<byte>, seq<byte>, seq<byte>, seq<byte>) -> seq<byte>
  type OpenFn = (int, seq<byte>, seq<byte>, seq<byte>, seq<byte>) -> Option<seq<byte>>

  /** `seal` and `open` take algorithm, key, nonce, text and additional data; `agree` takes our
      private and the peer's public key; `derive` takes the shared secret, INFO and a length. */
  datatype Crypto = Crypto(
    seal: SealFn,
    open: OpenFn,
    public: seq<byte> -> seq<byte>,
    agree: (seq<byte>, seq<byte>) -> seq<byte>,
    derive: (seq<byte>, string, nat) -> seq<byte>)

  ghost predicate Lawful(c: Crypto) {
    && (forall alg, key, nonce, text, aad ::
          && |c.seal(alg, key, nonce, text, aad)| == |text| + TAG_LEN
          && c.open(alg, key, nonce, c.seal(alg, key, nonce, text, aad), aad) == Some(text))
    && (forall a, b :: c.agree(a, c.public(b)) == c.agree(b, c.public(a)))
  }

  function KeySize(algorithm: int): nat { if algorithm == 1 then 32 else 16 }

  function SessionKey(c: Crypto, ours: seq<byte>, peer: seq<byte>, info: SessionInfo): seq<byte> {
    c.derive(c.agree(ours, peer), Info(info.initiator, info.sessionId, info.algorithm, info.blockLog),
             KeySize(info.algorithm))
  }

  /** Both ends derive the same key for the same session parameters. */
  lemma KeysAgree(c: Crypto, a: seq<byte>, b: seq<byte>, info: SessionInfo)
    requires Lawful(c)
    ensures SessionKey(c, a, c.public(b), info) == SessionKey(c, b, c.public(a), info)
  {
  }

  // ----- session parameters

  datatype SessionInfo = SessionInfo(sessionId: seq<byte>, initiator: int, algorithm: int, blockLog: int,
                                     certRef: seq<byte>, sequence: Option<int>)

  function ToCbor(info: SessionInfo): seq<CborValue> {
    var sid := if info.sequence.Some? then [CBytes(info.sessionId), CInt(info.sequence.value)]
               else [CBytes(info.sessionId)];
    [CArray(sid), CInt(info.initiator), CInt(info.algorithm), CInt(info.blockLog), CBytes(info.certRef)]
  }

  function FromCbor(obj: seq<CborValue>): Outcome<SessionInfo, SaeadError> {
    if && |obj| >= 5 && obj[0].CArray? && obj[0].items != [] && obj[0].items[0].CBytes?
       && obj[1].CInt? && obj[2].CInt? && obj[3].CInt? && obj[4].CBytes?
    then
      var sid := obj[0].items;
      Good(SessionInfo(sid[0].bytes, obj[1].i, obj[2].i, obj[3].i, obj[4].bytes,
                       if |sid| == 2 && sid[1].CInt? then Some(sid[1].i) else None))
    else Bad(BadSessionInfo)
  }

  predicate InfoValid(info: SessionInfo) {
    && |info.sessionId| <= INT64_MAX && |info.certRef| <= INT64_MAX
    && Valid(CInt(info.initiator)) && Valid(CInt(info.algorithm)) && Valid(CInt(info.blockLog))
    && (info.sequence.Some? ==> Valid(CInt(info.sequence.value)))
  }

  function Header(info: SessionInfo, pouchId: int): PouchHeader { SaeadHeader(ToCbor(info), pouchId) }

  /** The header of an encrypted pouch gives back the session parameters and the pouch id. */
  lemma HeaderCarriesInfo(info: SessionInfo, pouchId: int, rest: seq<byte>)
    requires InfoValid(info) && Valid(CInt(pouchId))
    ensures FromCbor(ToCbor(info)) == Good(info)
    ensures DecodeHeader(EncHeader(Header(info, pouchId)) + rest)
      == Good((Header(info, pouchId), |EncHeader(Header(info, pouchId))|))
  {
    InfoIsValidCbor(info);
    HeaderValueValid(ToCbor(info), pouchId);
    HeaderRoundTrip(Header(info, pouchId), rest);
  }

  lemma InfoIsValidCbor(info: SessionInfo)
    requires InfoValid(info)
    ensures Valid(CArray(ToCbor(info)))
  {
    var obj := ToCbor(info);
    var sid := obj[0].items;
    assert forall x :: x in sid ==> Valid(x);
    assert forall x :: x in obj ==> Valid(x);
  }

  lemma HeaderValueValid(obj: seq<CborValue>, pouchId: int)
    requires Valid(CArray(obj)) && Valid(CInt(pouchId))
    ensures Valid(HeaderValue(SaeadHeader(obj, pouchId)))
  {
    var info := [CInt(1), CArray(obj), CInt(pouchId)];
    assert forall x :: x in info ==> Valid(x);
    assert forall x :: x in [CInt(1), CArray(info)] ==> Valid(x);
  }

  // ----- the chain of sealed blocks

  datatype SaeadError =
    | Framing(error: PouchError)
    | NotSaead | BadSessionInfo | WrongInitiator | BadSessionIdLength | NoSession
    | TruncatedSealed | SealedTooShort | OpenFailed

  /** Sealing and opening the block with a given index, with its additional data, and how the size
      of a sealed block is written. */
  datatype Cipher = Cipher(seal: (nat, seq<byte>, seq<byte>) -> seq<byte>,
                           open: (nat, seq<byte>, seq<byte>) -> Option<seq<byte>>,
                           size: nat -> seq<byte>)

  /** Sizes are two bytes that read back, as far as sixteen bits reach. */
  ghost predicate Sized(ch: Cipher) {
    && (forall n: nat :: |ch.size(n)| == 2)
    && (forall n: nat :: n < 0x1_0000 ==> FromBe16(ch.size(n)[0], ch.size(n)[1]) == n)
  }

  ghost predicate Opens(ch: Cipher) {
    Sized(ch) &&
    forall index, text, aad ::
      && |ch.seal(index, text, aad)| == |text| + TAG_LEN
      && ch.open(index, ch.seal(index, text, aad), aad) == Some(text)
  }

  /** One direction of one session: who seals, under which key, in which pouch. */
  function Channel(c: Crypto, key: seq<byte>, algorithm: int, role: int, pouchId: int): Cipher {
    Cipher((index, text, aad) => c.seal(algorithm, key, Nonce(pouchId, index, role), text, aad),
           (index, sealed, aad) => c.open(algorithm, key, Nonce(pouchId, index, role), sealed, aad),
           n => Be16(n))
  }

  lemma ChannelSized(c: Crypto, key: seq<byte>, algorithm: int, role: int, pouchId: int)
    ensures Sized(Channel(c, key, algorithm, role, pouchId))
  {
    var ch := Channel(c, key, algorithm, role, pouchId);
    forall n: nat | n < 0x1_0000 ensures FromBe16(ch.size(n)[0], ch.size(n)[1]) == n {
      Be16Reads(n);
    }
  }

  lemma ChannelOpens(c: Crypto, key: seq<byte>, algorithm: int, role: int, pouchId: int)
    requires Lawful(c)
    ensures Opens(Channel(c, key, algorithm, role, pouchId))
  {
    var ch := Channel(c, key, algorithm, role, pouchId);
    forall index: nat, text, aad
      ensures |ch.seal(index, text, aad)| == |text| + TAG_LEN
      ensures ch.open(index, ch.seal(index, text, aad), aad) == Some(text)
    {
      assert ch.seal(index, text, aad) == c.seal(algorithm, key, Nonce(pouchId, index, role), text, aad);
    }
    ChannelSized(c, key, algorithm, role, pouchId);
  }

  function Tag(sealed: seq<byte>): seq<byte> {
    if |sealed| < TAG_LEN then sealed else sealed[|sealed| - TAG_LEN..]
  }

  function Aad(index: nat, prevTag: seq<byte>): seq<byte> { if index > 0 then prevTag else [] }

  function SealBlock(ch: Cipher, index: nat, prevTag: seq<byte>, text: seq<byte>): seq<byte> {
    ch.seal(index, text, Aad(index, prevTag))
  }

  function OpenBlock(ch: Cipher, index: nat, prevTag: seq<byte>, sealed: seq<byte>): Outcome<seq<byte>, SaeadError> {
    if |sealed| < TAG_LEN then Bad(SealedTooShort) else
    match ch.open(index, sealed, Aad(index, prevTag))
    case Some(text) => Good(text)
    case None => Bad(OpenFailed)
  }

  lemma OpenSeal(ch: Cipher, index: nat, prevTag: seq<byte>, text: seq<byte>)
    requires Opens(ch)
    ensures |SealBlock(ch, index, prevTag, text)| == |text| + TAG_LEN
    ensures OpenBlock(ch, index, prevTag, SealBlock(ch, index, prevTag, text)) == Good(text)
  {
  }

  /** Blocks `texts` sealed one after the other from block `index` on, each with its size. */
  function Chain(ch: Cipher, index: nat, prevTag: seq<byte>, texts: seq<seq<byte>>): seq<byte>
    decreases |texts|
  {
    if texts == [] then [] else
    var sealed := SealBlock(ch, index, prevTag, texts[0]);
    ch.size(|sealed|) + sealed + Chain(ch, index + 1, Tag(sealed), texts[1..])
  }

  /** The sealed block at `pos`, and where it ends. */
  function SealedAt(data: seq<byte>, pos: nat): (r: Outcome<(seq<byte>, nat), SaeadError>)
    requires pos <= |data|
    ensures r.Good? ==> pos < r.value.1 <= |data|
  {
    if |data| - pos < 2 then Bad(TruncatedSealed) else
    var end := pos + 2 + FromBe16(data[pos], data[pos + 1]);
    if end > |data| then Bad(TruncatedSealed) else Good((data[pos + 2..end], end))
  }

  datatype Opened = Opened(text: seq<byte>, tag: seq<byte>, end: nat)

  /** Reading and opening the block at `pos`. */
  function OpenAt(ch: Cipher, data: seq<byte>, pos: nat, index: nat, prevTag: seq<byte>)
      : (r: Outcome<Opened, SaeadError>)
    requires pos <= |data|
    ensures r.Good? ==> pos < r.value.end <= |data|
  {
    match SealedAt(data, pos)
    case Bad(e) => Bad(e)
    case Good((sealed, end)) =>
      match OpenBlock(ch, index, prevTag, sealed)
      case Bad(e) => Bad(e)
      case Good(text) => Good(Opened(text, Tag(sealed), end))
  }

  /** Opening the blocks from `pos` to the end of the data, after those in `acc`. */
  function Unchain(ch: Cipher, data: seq<byte>, pos: nat, index: nat, prevTag: seq<byte>, acc: seq<seq<byte>>)
      : Outcome<seq<seq<byte>>, SaeadError>
    requires pos <= |data|
    decreases |data| - pos
  {
    if pos == |data| then Good(acc) else
    match OpenAt(ch, data, pos, index, prevTag)
    case Bad(e) => Bad(e)
    case Good(o) => Unchain(ch, data, o.end, index + 1, o.tag, acc + [o.text])
  }

  predicate AllSealable(texts: seq<seq<byte>>) { forall t :: t in texts ==> |t| + TAG_LEN < 0x1_0000 }

  lemma SealedAtFramed(data: seq<byte>, pos: nat, size: seq<byte>, sealed: seq<byte>)
    requires |size| == 2 && FromBe16(size[0], size[1]) == |sealed| && At(data, pos, size + sealed)
    ensures SealedAt(data, pos) == Good((sealed, pos + 2 + |sealed|))
  {
    AtSplit(data, pos, size, sealed);
    PairAt(data, pos, size);
  }

  /** The chain `texts` is all there is from `pos` on. */
  predicate ChainEnds(ch: Cipher, data: seq<byte>, pos: nat, index: nat, prevTag: seq<byte>, texts: seq<seq<byte>>) {
    var chain := Chain(ch, index, prevTag, texts);
    AllSealable(texts) && At(data, pos, chain) && pos + |chain| == |data|
  }

  lemma OpenFirst(ch: Cipher, data: seq<byte>, pos: nat, index: nat, prevTag: seq<byte>, texts: seq<seq<byte>>)
      returns (end: nat, tag: seq<byte>)
    requires Opens(ch) && texts != [] && ChainEnds(ch, data, pos, index, prevTag, texts)
    ensures pos < end <= |data| && ChainEnds(ch, data, end, index + 1, tag, texts[1..])
    ensures OpenAt(ch, data, pos, index, prevTag) == Good(Opened(texts[0], tag, end))
  {
    end, tag := ChainFirst(ch, data, pos, index, prevTag, texts);
    OpenFramed(ch, data, pos, index, prevTag, texts[0]);
  }

  lemma ChainFirst(ch: Cipher, data: seq<byte>, pos: nat, index: nat, prevTag: seq<byte>, texts: seq<seq<byte>>)
      returns (end: nat, tag: seq<byte>)
    requires Sized(ch) && texts != [] && ChainEnds(ch, data, pos, index, prevTag, texts)
    ensures |texts[0]| + TAG_LEN < 0x1_0000 && pos < end <= |data|
    ensures ChainEnds(ch, data, end, index + 1, tag, texts[1..])
    ensures var sealed := SealBlock(ch, index, prevTag, texts[0]);
      At(data, pos, ch.size(|sealed|) + sealed) && end == pos + 2 + |sealed| && tag == Tag(sealed)
  {
    var sealed := SealBlock(ch, index, prevTag, texts[0]);
    end, tag := pos + 2 + |sealed|, Tag(sealed);
    assert texts[0] in texts;
    AtSplit(data, pos, ch.size(|sealed|) + sealed, Chain(ch, index + 1, tag, texts[1..]));
  }

  lemma OpenFramed(ch: Cipher, data: seq<byte>, pos: nat, index: nat, prevTag: seq<byte>, text: seq<byte>)
    requires Opens(ch) && |text| + TAG_LEN < 0x1_0000
    requires var sealed := SealBlock(ch, index, prevTag, text); At(data, pos, ch.size(|sealed|) + sealed)
    ensures var sealed := SealBlock(ch, index, prevTag, text);
      |sealed| == |text| + TAG_LEN
      && OpenAt(ch, data, pos, index, prevTag) == Good(Opened(text, Tag(sealed), pos + 2 + |sealed|))
  {
    OpenSeal(ch, index, prevTag, text);
    var sealed := SealBlock(ch, index, prevTag, text);
    SealedAtFramed(data, pos, ch.size(|sealed|), sealed);
  }

  lemma UnchainStep(ch: Cipher, data: seq<byte>, pos: nat, index: nat, prevTag: seq<byte>, acc: seq<seq<byte>>)
    requires pos < |data| && OpenAt(ch, data, pos, index, prevTag).Good?
    ensures var o := OpenAt(ch, data, pos, index, prevTag).value;
      Unchain(ch, data, pos, index, prevTag, acc) == Unchain(ch, data, o.end, index + 1, o.tag, acc + [o.text])
  {
  }

  lemma UnchainFirst(ch: Cipher, data: seq<byte>, pos: nat, index: nat, prevTag: seq<byte>, texts: seq<seq<byte>>,
                     acc: seq<seq<byte>>) returns (end: nat, tag: seq<byte>)
    requires Opens(ch) && texts != [] && ChainEnds(ch, data, pos, index, prevTag, texts)
    ensures end <= |data| && ChainEnds(ch, data, end, index + 1, tag, texts[1..])
    ensures Unchain(ch, data, pos, index, prevTag, acc) == Unchain(ch, data, end, index + 1, tag, acc + [texts[0]])
  {
    end, tag := OpenFirst(ch, data, pos, index, prevTag, texts);
    UnchainStep(ch, data, pos, index, prevTag, acc);
  }

  /** A peer with the same key, role and pouch id opens a chain of any length, block for block. */
  lemma {:induction false} UnchainChain(ch: Cipher, data: seq<byte>, pos: nat, index: nat, prevTag: seq<byte>,
                                        texts: seq<seq<byte>>, acc: seq<seq<byte>>)
    requires Opens(ch) && ChainEnds(ch, data, pos, index, prevTag, texts)
    ensures Unchain(ch, data, pos, index, prevTag, acc) == Good(acc + texts)
    decreases |texts|
  {
    if texts == [] {
      assert acc + texts == acc;
    } else {
      var end, tag := UnchainFirst(ch, data, pos, index, prevTag, texts, acc);
      UnchainChain(ch, data, end, index + 1, tag, texts[1..], acc + [texts[0]]);
      MoveFirst(acc, texts);
    }
  }

  // ----- whole pouches

  /** The plaintext of a block: its id byte and its payload. */
  function Texts(bs: seq<Block>): (ts: seq<seq<byte>>)
    ensures |ts| == |bs| && forall i :: 0 <= i < |bs| ==> ts[i] == [bs[i].id] + bs[i].payload
  {
    seq(|bs|, i requires 0 <= i < |bs| => [bs[i].id] + bs[i].payload)
  }

  /** The payloads of the entry blocks among `texts`. */
  function EntryTexts(texts: seq<seq<byte>>): seq<seq<byte>> {
    if texts == [] then []
    else (if texts[0] != [] && StreamOf(texts[0][0]) == 0 then [texts[0][1..]] else []) + EntryTexts(texts[1..])
  }

  lemma {:induction false} EntryTextsOf(bs: seq<Block>)
    ensures EntryTexts(Texts(bs)) == EntryPayloads(bs)
  {
    if bs != [] {
      assert Texts(bs)[1..] == Texts(bs[1..]);
      EntryTextsOf(bs[1..]);
      assert Texts(bs)[0][1..] == bs[0].payload;
    }
  }

  function SealedPouch(c: Crypto, ours: seq<byte>, peer: seq<byte>, info: SessionInfo, role: int, pouchId: int,
                       bs: seq<Block>): seq<byte>
  {
    var ch := Channel(c, SessionKey(c, ours, peer, info), info.algorithm, role, pouchId);
    EncHeader(Header(info, pouchId)) + Chain(ch, 0, [], Texts(bs))
  }

  /** What a party with private key `ours` reads from a pouch its peer with public key `peer`
      sealed as `role`: `parseUplinkPouch` for the device's pouches, and the same steps in a
      device for the server's. */
  function OpenedPouch(c: Crypto, ours: seq<byte>, peer: seq<byte>, role: int, data: seq<byte>)
      : Outcome<seq<Entry>, SaeadError>
  {
    match DecodeHeader(data)
    case Bad(e) => Bad(Framing(e))
    case Good((h, consumed)) =>
      match ReceivedInfo(h, role)
      case Bad(e) => Bad(e)
      case Good(info) =>
        var ch := Channel(c, SessionKey(c, ours, peer, info), info.algorithm, role, h.pouchId);
        match Unchain(ch, data, consumed, 0, [], [])
        case Bad(e) => Bad(e)
        case Good(texts) => ParseTexts(texts)
  }

  function ReceivedInfo(h: PouchHeader, role: int): Outcome<SessionInfo, SaeadError> {
    if h.encryption != 1 || h.sessionInfo.None? then Bad(NotSaead) else
    match FromCbor(h.sessionInfo.value)
    case Bad(e) => Bad(e)
    case Good(info) => if info.initiator != role then Bad(WrongInitiator) else Good(info)
  }

  function ParseTexts(texts: seq<seq<byte>>): Outcome<seq<Entry>, SaeadError> {
    match ParseEntries(Concat(EntryTexts(texts)), 0, [])
    case Bad(e) => Bad(Framing(e))
    case Good(es) => Good(es)
  }

  lemma UnchainAfterHeader(ch: Cipher, header: seq<byte>, texts: seq<seq<byte>>)
    requires Opens(ch) && AllSealable(texts)
    ensures Unchain(ch, header + Chain(ch, 0, [], texts), |header|, 0, [], []) == Good(texts)
  {
    var chain := Chain(ch, 0, [], texts);
    var data := header + chain;
    assert data[|header|..|header| + |chain|] == chain;
    UnchainChain(ch, data, |header|, 0, [], texts, []);
    assert [] + texts == texts;
  }

  lemma {:induction false} OpenedSealed(c: Crypto, a: seq<byte>, b: seq<byte>, info: SessionInfo, pouchId: int,
                                        bs: seq<Block>)
    requires Lawful(c) && InfoValid(info) && Valid(CInt(pouchId)) && AllSealable(Texts(bs))
    ensures OpenedPouch(c, b, c.public(a), info.initiator,
                        SealedPouch(c, a, c.public(b), info, info.initiator, pouchId, bs))
            == ParseTexts(Texts(bs))
  {
    KeysAgree(c, a, b, info);
    var ch := Channel(c, SessionKey(c, a, c.public(b), info), info.algorithm, info.initiator, pouchId);
    var header := EncHeader(Header(info, pouchId));
    HeaderCarriesInfo(info, pouchId, Chain(ch, 0, [], Texts(bs)));
    assert ReceivedInfo(Header(info, pouchId), info.initiator) == Good(info);
    ChannelOpens(c, SessionKey(c, a, c.public(b), info), info.algorithm, info.initiator, pouchId);
    UnchainAfterHeader(ch, header, Texts(bs));
  }

  lemma ChainedEntries(gs: seq<seq<Entry>>, bs: seq<Block>)
    requires GroupsEncodable(gs) && Framed(gs, bs)
    ensures ParseTexts(Texts(bs)) == Good(Flatten(gs)) <==> AllFit(Flatten(gs))
  {
    EntryTextsOf(bs);
    PayloadsOf(gs, bs);
    EntriesRoundTripIffFit(Flatten(gs));
  }

  /** Sealed blocks fit their size field whenever neither the block size nor an entry exceeds it. */
  lemma PackedTextsSealable(es: seq<Entry>, blockSize: int)
    requires AllEncodable(es) && blockSize <= 65518 && !TooBig(es, 65518)
    ensures AllSealable(Texts(BlockSection(es, blockSize)))
  {
    PackPacks(es, blockSize, 65518);
    var gs := Pack(es, blockSize, [], []);
    var ts := Texts(BlocksOf(gs));
    forall t | t in ts ensures |t| + TAG_LEN < 0x1_0000 {
      var i :| 0 <= i < |ts| && ts[i] == t;
      assert |t| == 1 + Size(gs[i]);
    }
  }

  /** The downlink pouch, as `buildDownlinkPouch` makes it. */
  function DownlinkPouch(c: Crypto, ours: seq<byte>, peer: seq<byte>, info: SessionInfo, es: seq<Entry>,
                               pouchId: int, blockSize: int): seq<byte>
    requires AllEncodable(es)
  {
    SealedPouch(c, ours, peer, info, ROLE_SERVER, pouchId, BlockSection(es, blockSize))
  }

  /** A device with the mirrored keys recovers exactly the entries, over any number of blocks whose
      sealed sizes fit, provided the entries' fields fit sixteen bits and only then. */
  lemma {:induction false} DownlinkRoundTrip(c: Crypto, server: seq<byte>, device: seq<byte>, info: SessionInfo,
                                             es: seq<Entry>, pouchId: int, blockSize: int)
    requires Lawful(c) && InfoValid(info) && info.initiator == ROLE_SERVER && Valid(CInt(pouchId))
    requires AllEncodable(es) && AllSealable(Texts(BlockSection(es, blockSize)))
    ensures var pouch := DownlinkPouch(c, server, c.public(device), info, es, pouchId, blockSize);
      OpenedPouch(c, device, c.public(server), ROLE_SERVER, pouch) == Good(es) <==> AllFit(es)
  {
    var gs, bs := Pack(es, blockSize, [], []), BlockSection(es, blockSize);
    OpenedSealed(c, server, device, info, pouchId, bs);
    PackFlattens(es, blockSize, [], []);
    assert Flatten([]) + [] + es == es;
    PackEncodable(es, blockSize, [], []);
    BlocksOfFramed(gs);
    ChainedEntries(gs, bs);
  }

  /** What the device sends back: all entries in one block, first and last. */
  function UplinkPouch(c: Crypto, ours: seq<byte>, peer: seq<byte>, info: SessionInfo, es: seq<Entry>,
                       pouchId: int): seq<byte>
    requires AllEncodable(es)
  {
    SealedPouch(c, ours, peer, info, ROLE_DEVICE, pouchId, BlocksOf([es]))
  }

  /** The server reads exactly the entries the device sealed. */
  lemma UplinkRoundTrip(c: Crypto, server: seq<byte>, device: seq<byte>, info: SessionInfo, es: seq<Entry>,
                        pouchId: int)
    requires Lawful(c) && InfoValid(info) && info.initiator == ROLE_DEVICE && Valid(CInt(pouchId))
    requires AllEncodable(es) && Size(es) <= 65518
    ensures var pouch := UplinkPouch(c, device, c.public(server), info, es, pouchId);
      OpenedPouch(c, server, c.public(device), ROLE_DEVICE, pouch) == Good(es) <==> AllFit(es)
  {
    var bs := BlocksOf([es]);
    assert Texts(bs) == [[bs[0].id] + EncEntries(es)];
    OpenedSealed(c, device, server, info, pouchId, bs);
    BlocksOfFramed([es]);
    assert Flatten([es]) == es + Flatten([]) == es;
    ChainedEntries([es], bs);
  }

  // ----- the session object

  datatype State = State(key: seq<byte>, algorithm: int)

  class SaeadSession {
    const c: Crypto
    const serverPrivate: seq<byte>
    const devicePublic: seq<byte>
    const certRef: seq<byte>
    const algorithm: int
    const blockLog: int
    var down: Option<State>
    var up: Option<State>

    constructor (c: Crypto, serverPrivate: seq<byte>, devicePublic: seq<byte>, serverCertRef: seq<byte>,
                 algorithm: int, blockLog: int)
      ensures this.c == c && this.serverPrivate == serverPrivate && this.devicePublic == devicePublic
      ensures this.algorithm == algorithm && this.blockLog == blockLog && down == None && up == None
      ensures |certRef| == 6
      ensures forall i :: 0 <= i < 6 ==> certRef[i] == if i < |serverCertRef| then serverCertRef[i] else 0
    {
      this.c, this.serverPrivate, this.devicePublic := c, serverPrivate, devicePublic;
      this.algorithm, this.blockLog := algorithm, blockLog;
      var kept := if |serverCertRef| > 6 then serverCertRef[..6] else serverCertRef;
      var padding := seq(6 - |kept|, _ => 0);
      this.certRef := kept + padding;
      this.down, this.up := None, None;
    }

    function DownInfo(sessionId: seq<byte>): SessionInfo {
      SessionInfo(sessionId, ROLE_SERVER, algorithm, blockLog, certRef, None)
    }

    function KeyFor(info: SessionInfo): seq<byte> { SessionKey(c, serverPrivate, devicePublic, info) }

    method NewDownlink(sessionId: seq<byte>) returns (r: Outcome<SessionInfo, SaeadError>)
      modifies this`down
      ensures |sessionId| != SESSION_ID_LEN ==> r == Bad(BadSessionIdLength) && down == old(down)
      ensures |sessionId| == SESSION_ID_LEN ==>
        r == Good(DownInfo(sessionId)) && down == Some(State(KeyFor(DownInfo(sessionId)), algorithm))
      ensures r.Good? ==>
        && r.value == SessionInfo(sessionId, 1, algorithm, blockLog, certRef, None)
        && down == Some(State(SessionKey(c, serverPrivate, devicePublic, r.value), algorithm))
    {
      if |sessionId| != SESSION_ID_LEN {
        return Bad(BadSessionIdLength);
      }
      var info := DownInfo(sessionId);
      down := Some(State(KeyFor(info), algorithm));
      r := Good(info);
    }

    method EncryptDownlinkBlock(text: seq<byte>, index: nat, pouchId: int, prevTag: seq<byte>)
        returns (r: Outcome<(seq<byte>, seq<byte>), SaeadError>)
      ensures down.None? ==> r == Bad(NoSession)
      ensures down.Some? ==>
        var ch := Channel(c, down.value.key, down.value.algorithm, ROLE_SERVER, pouchId);
        var sealed := SealBlock(ch, index, prevTag, text);
        r == Good((sealed, Tag(sealed)))
      ensures down.Some? ==>
        var sealed := c.seal(down.value.algorithm, down.value.key, TwelveBytes(pouchId, index, 1), text,
                             if index == 0 then [] else prevTag);
        r == Good((sealed, if |sealed| < 16 then sealed else sealed[|sealed| - 16..]))
    {
      if down.None? {
        return Bad(NoSession);
      }
      NonceBytes(pouchId, index, 1);
      var aad := if index > 0 then prevTag else [];
      var sealed := c.seal(down.value.algorithm, down.value.key, Nonce(pouchId, index, ROLE_SERVER), text, aad);
      r := Good((sealed, Tag(sealed)));
    }

    method AdoptUplink(info: SessionInfo) returns (ok: bool)
      modifies this`up
      ensures ok <==> info.initiator == 0
      ensures up == if ok then Some(State(KeyFor(info), info.algorithm)) else old(up)
    {
      if info.initiator != ROLE_DEVICE {
        return false;
      }
      up := Some(State(KeyFor(info), info.algorithm));
      ok := true;
    }

    method DecryptUplinkBlock(sealed: seq<byte>, index: nat, pouchId: int, prevTag: seq<byte>)
        returns (r: Outcome<(seq<byte>, seq<byte>), SaeadError>)
      ensures up.None? ==> r == Bad(NoSession)
      ensures up.Some? ==>
        r == match OpenBlock(Channel(c, up.value.key, up.value.algorithm, ROLE_DEVICE, pouchId), index, prevTag, sealed)
             case Good(text) => Good((text, Tag(sealed)))
             case Bad(e) => Bad(e)
      ensures up.Some? && |sealed| < 16 ==> r == Bad(SealedTooShort)
      ensures up.Some? && |sealed| >= 16 ==>
        r == match c.open(up.value.algorithm, up.value.key, TwelveBytes(pouchId, index, 0), sealed,
                          if index == 0 then [] else prevTag)
             case Some(text) => Good((text, sealed[|sealed| - 16..]))
             case None => Bad(OpenFailed)
    {
      if up.None? {
        return Bad(NoSession);
      }
      NonceBytes(pouchId, index, 0);
      if |sealed| < TAG_LEN {
        return Bad(SealedTooShort);
      }
      var aad := if index > 0 then prevTag else [];
      var text := c.open(up.value.algorithm, up.value.key, Nonce(pouchId, index, ROLE_DEVICE), sealed, aad);
      if text.None? {
        return Bad(OpenFailed);
      }
      r := Good((text.value, Tag(sealed)));
    }
  }

  /** The packing loop, which here has no check for oversized entries. */
  method PackPayloads(entries: seq<Entry>, blockSize: int) returns (ps: seq<seq<byte>>)
    requires AllEncodable(entries)
    ensures var gs := Pack(entries, blockSize, [], []);
      |ps| == |gs| && GroupsEncodable(gs) && forall i :: 0 <= i < |ps| ==> ps[i] == EncEntries(gs[i])
  {
    ps := [];
    var current: seq<byte> := [];
    ghost var done: seq<seq<Entry>>, cur: seq<Entry> := [], [];
    assert entries[0..] == entries;
    var i := 0;
    while i < |entries|
      invariant 0 <= i <= |entries|
      invariant AllEncodable(cur) && GroupsEncodable(done)
      invariant current == EncEntries(cur) && (current == [] <==> cur == [])
      invariant |ps| == |done| && forall j :: 0 <= j < |ps| ==> ps[j] == EncEntries(done[j])
      invariant Pack(entries[i..], blockSize, done, cur) == Pack(entries, blockSize, [], [])
    {
      var entry := entries[i];
      assert entries[i..][0] == entry && entries[i..][1..] == entries[i + 1..];
      var encoded := EncEntry(entry);
      if current != [] && |current| + |encoded| > blockSize {
        ps := ps + [current];
        current := [];
        done, cur := done + [cur], [];
      }
      EncEntriesSnoc(cur, entry);
      assert [] + [entry] == [entry];
      current := current + encoded;
      cur := cur + [entry];
      i := i + 1;
    }
    assert entries[i..] == [];
    ps := ps + [current];
  }

  /** The payloads behind their id bytes. */
  function WithIds(payloads: seq<seq<byte>>): (ts: seq<seq<byte>>)
    ensures |ts| == |payloads|
  {
    seq(|payloads|, i requires 0 <= i < |payloads| => [IdByte(0, i == 0, i == |payloads| - 1)] + payloads[i])
  }

  lemma ChainStep(ch: Cipher, index: nat, prevTag: seq<byte>, texts: seq<seq<byte>>, out: seq<byte>)
    requires index < |texts|
    ensures var sealed := SealBlock(ch, index, prevTag, texts[index]);
      out + Chain(ch, index, prevTag, texts[index..])
      == (out + ch.size(|sealed|) + sealed) + Chain(ch, index + 1, Tag(sealed), texts[index + 1..])
  {
    assert texts[index..][0] == texts[index] && texts[index..][1..] == texts[index + 1..];
  }

  /** One turn of the sealing loop. */
  method SealNext(session: SaeadSession, text: seq<byte>, index: nat, pouchId: int, prevTag: seq<byte>)
      returns (sealed: seq<byte>, tag: seq<byte>)
    requires session.down.Some?
    ensures var ch := Channel(session.c, session.down.value.key, session.down.value.algorithm, ROLE_SERVER, pouchId);
      sealed == SealBlock(ch, index, prevTag, text)
    ensures tag == Tag(sealed)
  {
    var block := session.EncryptDownlinkBlock(text, index, pouchId, prevTag);
    sealed, tag := block.value.0, block.value.1;
  }

  /** The sealing loop. */
  method SealPayloads(session: SaeadSession, payloads: seq<seq<byte>>, pouchId: int, header: seq<byte>)
      returns (out: seq<byte>)
    requires session.down.Some?
    ensures var ch := Channel(session.c, session.down.value.key, session.down.value.algorithm, ROLE_SERVER, pouchId);
      out == header + Chain(ch, 0, [], WithIds(payloads))
  {
    ghost var texts := WithIds(payloads);
    ghost var ch := Channel(session.c, session.down.value.key, session.down.value.algorithm, ROLE_SERVER, pouchId);
    out := header;
    var prevTag: seq<byte> := [];
    assert texts[0..] == texts;
    var i := 0;
    while i < |payloads|
      invariant 0 <= i <= |payloads|
      invariant out + Chain(ch, i, prevTag, texts[i..]) == header + Chain(ch, 0, [], texts)
    {
      var id := IdByte(0, i == 0, i == |payloads| - 1);
      var sealed, tag := SealNext(session, [id] + payloads[i], i, pouchId, prevTag);
      ChainStep(ch, i, prevTag, texts, out);
      prevTag := tag;
      out := out + Be16(|sealed|) + sealed;
      i := i + 1;
    }
    assert texts[i..] == [];
  }

  method BuildDownlinkPouch(session: SaeadSession, sessionId: seq<byte>, entries: seq<Entry>, pouchId: int,
                            blockSize: int)
      returns (r: Outcome<seq<byte>, SaeadError>)
    requires AllEncodable(entries)
    modifies session`down
    ensures r == if |sessionId| != SESSION_ID_LEN then Bad(BadSessionIdLength)
                 else Good(DownlinkPouch(session.c, session.serverPrivate, session.devicePublic,
                                         session.DownInfo(sessionId), entries, pouchId, blockSize))
  {
    var info := session.NewDownlink(sessionId);
    if info.Bad? {
      return Bad(info.error);
    }
    var payloads := PackPayloads(entries, blockSize);
    assert WithIds(payloads) == Texts(BlockSection(entries, blockSize));
    var out := SealPayloads(session, payloads, pouchId, EncHeader(Header(info.value, pouchId)));
    r := Good(out);
  }

  lemma {:induction false} EntryTextsSnoc(texts: seq<seq<byte>>, t: seq<byte>)
    ensures EntryTexts(texts + [t])
      == EntryTexts(texts) + if t != [] && StreamOf(t[0]) == 0 then [t[1..]] else []
  {
    if texts == [] {
      assert texts + [t] == [t];
      assert EntryTexts([t][1..]) == [];
    } else {
      assert (texts + [t])[1..] == texts[1..] + [t];
      EntryTextsSnoc(texts[1..], t);
    }
  }

  method ReadSealed(data: seq<byte>, pos: nat) returns (r: Outcome<(seq<byte>, nat), SaeadError>)
    requires pos <= |data|
    ensures r == SealedAt(data, pos)
  {
    if |data| - pos < 2 {
      return Bad(TruncatedSealed);
    }
    var size := FromBe16(data[pos], data[pos + 1]);
    if |data| - pos - 2 < size {
      return Bad(TruncatedSealed);
    }
    r := Good((data[pos + 2..pos + 2 + size], pos + 2 + size));
  }

  /** The decryption loop of `parseUplinkPouch`: the payloads of the entry blocks. */
  /** One turn of the decryption loop: the next block, read and opened. */
  method OpenNext(session: SaeadSession, data: seq<byte>, pos: nat, index: nat, pouchId: int, prevTag: seq<byte>)
      returns (r: Outcome<Opened, SaeadError>)
    requires pos <= |data| && session.up.Some?
    ensures var ch := Channel(session.c, session.up.value.key, session.up.value.algorithm, ROLE_DEVICE, pouchId);
      r == OpenAt(ch, data, pos, index, prevTag)
  {
    var next := ReadSealed(data, pos);
    if next.Bad? {
      return Bad(next.error);
    }
    var (sealed, end) := next.value;
    var plain := session.DecryptUplinkBlock(sealed, index, pouchId, prevTag);
    if plain.Bad? {
      return Bad(plain.error);
    }
    r := Good(Opened(plain.value.0, plain.value.1, end));
  }

  method OpenUplink(session: SaeadSession, data: seq<byte>, start: nat, pouchId: int)
      returns (r: Outcome<seq<seq<byte>>, SaeadError>)
    requires start <= |data| && session.up.Some?
    ensures var ch := Channel(session.c, session.up.value.key, session.up.value.algorithm, ROLE_DEVICE, pouchId);
      r == match Unchain(ch, data, start, 0, [], [])
           case Bad(e) => Bad(e)
           case Good(texts) => Good(EntryTexts(texts))
  {
    ghost var ch := Channel(session.c, session.up.value.key, session.up.value.algorithm, ROLE_DEVICE, pouchId);
    ghost var texts: seq<seq<byte>> := [];
    var payloads: seq<seq<byte>> := [];
    var prevTag: seq<byte> := [];
    var pos, index := start, 0;
    while pos < |data|
      invariant start <= pos <= |data|
      invariant payloads == EntryTexts(texts)
      invariant Unchain(ch, data, pos, index, prevTag, texts) == Unchain(ch, data, start, 0, [], [])
    {
      var next := OpenNext(session, data, pos, index, pouchId, prevTag);
      if next.Bad? {
        return Bad(next.error);
      }
      var text := next.value.text;
      UnchainStep(ch, data, pos, index, prevTag, texts);
      EntryTextsSnoc(texts, text);
      texts := texts + [text];
      pos, prevTag, index := next.value.end, next.value.tag, index + 1;
      if text != [] && StreamOf(text[0]) == 0 {
        payloads := payloads + [text[1..]];
      }
    }
    r := Good(payloads);
  }

  method ParseUplinkPouch(session: SaeadSession, data: seq<byte>) returns (r: Outcome<seq<Entry>, SaeadError>)
    modifies session`up
    ensures r == OpenedPouch(session.c, session.serverPrivate, session.devicePublic, ROLE_DEVICE, data)
  {
    var header := DecodeHeader(data);
    if header.Bad? {
      return Bad(Framing(header.error));
    }
    var (h, consumed) := header.value;
    if h.encryption != 1 || h.sessionInfo.None? {
      return Bad(NotSaead);
    }
    var info := FromCbor(h.sessionInfo.value);
    if info.Bad? {
      return Bad(info.error);
    }
    var adopted := session.AdoptUplink(info.value);
    if !adopted {
      return Bad(WrongInitiator);
    }
    var payloads := OpenUplink(session, data, consumed, h.pouchId);
    if payloads.Bad? {
      return Bad(payloads.error);
    }
    var entries := ParseEntryBlocks(payloads.value);
    r := if entries.Bad? then Bad(Framing(entries.error)) else Good(entries.value);
  }
}
