/** The wire formats, byte by byte: what the round trips leave open. */
module Layout {
  import opened Bytes
  import opened Cbor
  import opened Pouch
  import opened SaeadText
  import Flows = FlowsModel
  import Cred = CredStoreModel
  import Saead

  // ----- CBOR (section 3 of RFC 8949)

  function MajorOf(v: CborValue): nat {
    match v
    case CInt(i) => if i >= 0 then 0 else 1
    case CBytes(_) => 2
    case CText(_) => 3
    case CArray(_) => 4
    case CMap(_) => 5
    case CBool(_) => 7
    case CNull => 7
  }

  /** The number an item starts with: its value, or how many bytes, items or pairs follow. */
  function Count(v: CborValue): nat {
    match v
    case CInt(i) => if i >= 0 then i else -1 - i
    case CBytes(b) => |b|
    case CText(t) => |t|
    case CArray(items) => |items|
    case CMap(pairs) => |pairs|
    case CBool(b) => if b then 21 else 20
    case CNull => 22
  }

  lemma HeadFirst(major: nat, arg: nat)
    requires major < 8 && arg <= 0xFFFF_FFFF_FFFF_FFFF
    ensures var h := Head(major, arg); h[0] / 32 == major && Argument(h, 1, h[0] % 32) == Ok(arg, |h|)
  {
    var h := Head(major, arg);
    assert h[0..0 + |h|] == h;
    HeadReads(h, 0, major, arg);
  }

  lemma ArgumentInFront(h: seq<byte>, rest: seq<byte>, ai: nat)
    requires h != [] && Argument(h, 1, ai).Ok? && ai <= 27
    ensures Argument(h + rest, 1, ai) == Argument(h, 1, ai)
  {
    if ai >= 24 {
      var k := Width(ai);
      assert (h + rest)[1..1 + k] == h[1..1 + k];
    }
  }

  lemma FirstOfHead(major: nat, arg: nat, rest: seq<byte>)
    requires major < 8 && arg <= 0xFFFF_FFFF_FFFF_FFFF
    ensures var e := Head(major, arg) + rest;
      e[0] / 32 == major && Argument(e, 1, e[0] % 32).Ok? && Argument(e, 1, e[0] % 32).value == arg
  {
    HeadFirst(major, arg);
    ArgumentInFront(Head(major, arg), rest, Head(major, arg)[0] % 32);
  }

  /** Every encoding starts with its own major type and count. */
  lemma InitialBytes(v: CborValue)
    requires Valid(v)
    ensures var e := Enc(v);
      e[0] / 32 == MajorOf(v) && Argument(e, 1, e[0] % 32).Ok? && Argument(e, 1, e[0] % 32).value == Count(v)
  {
    match v
    case CInt(i) =>
      FirstOfHead(MajorOf(v), Count(v), []);
      assert Head(MajorOf(v), Count(v)) + [] == Enc(v);
    case CBytes(b) => FirstOfHead(2, |b|, b);
    case CText(t) => FirstOfHead(3, |t|, t);
    case CArray(items) => FirstOfHead(4, |items|, EncItems(items));
    case CMap(pairs) => FirstOfHead(5, |pairs|, EncPairs(pairs));
    case CBool(_) =>
    case CNull =>
  }

  /** An argument is read big-endian at any of the four widths, shortest or not. */
  lemma AnyWidthReads(data: seq<byte>, pos: nat, k: nat, arg: nat)
    requires k == 1 || k == 2 || k == 4 || k == 8
    requires arg < Pow256(k) && At(data, pos, ToBE(k, arg))
    ensures Argument(data, pos, if k == 1 then 24 else if k == 2 then 25 else if k == 4 then 26 else 27)
      == Ok(arg, pos + k)
  {
    FromToBEExact(k, arg);
  }

  // ----- pouches

  /** Data length, content type and path length, then path and data. */
  lemma EntryBytes(e: Entry)
    requires Encodable(e)
    ensures EncEntry(e)
      == [|e.data| / 256 % 256, |e.data| % 256, e.contentType / 256 % 256, e.contentType % 256, |e.path|]
         + e.path + e.data
  {
    assert Be16(|e.data|) + Be16(e.contentType) + [|e.path|]
      == [|e.data| / 256 % 256, |e.data| % 256, e.contentType / 256 % 256, e.contentType % 256, |e.path|];
  }

  /** The size counts the id byte; the id byte is 0x40 on the first block, 0x80 on the last. */
  lemma BlockBytes(gs: seq<seq<Entry>>, i: nat)
    requires GroupsEncodable(gs) && i < |gs|
    ensures var n := |EncEntries(gs[i])| + 1;
      EncBlock(BlocksOf(gs)[i])
      == [n / 256 % 256, n % 256, (if i == 0 then 0x40 else 0) + (if i == |gs| - 1 then 0x80 else 0)]
         + EncEntries(gs[i])
  {
    var b := BlocksOf(gs)[i];
    assert Be16(|b.payload| + 1) + [b.id] == [(|b.payload| + 1) / 256 % 256, (|b.payload| + 1) % 256, b.id];
  }

  lemma ArrayBytes(items: seq<CborValue>, head: seq<byte>)
    requires |items| < 24 && head == [0x80 + |items|]
    ensures Enc(CArray(items)) == head + EncItems(items)
  {
  }

  lemma TwoItems(a: CborValue, b: CborValue)
    ensures Enc(CArray([a, b])) == [0x82] + Enc(a) + Enc(b)
  {
    EncItemsSnoc([], a);
    EncItemsSnoc([a], b);
    assert [] + [a] == [a] && [a] + [b] == [a, b];
    ArrayBytes([a, b], [0x82]);
    assert ([0x82] + Enc(a)) + Enc(b) == [0x82] + (Enc(a) + Enc(b));
  }

  lemma ThreeItems(a: CborValue, b: CborValue, c: CborValue)
    ensures Enc(CArray([a, b, c])) == [0x83] + Enc(a) + Enc(b) + Enc(c)
  {
    EncItemsSnoc([], a);
    EncItemsSnoc([a], b);
    EncItemsSnoc([a, b], c);
    assert [] + [a] == [a] && [a] + [b] == [a, b] && [a, b] + [c] == [a, b, c];
    ArrayBytes([a, b, c], [0x83]);
    assert (([0x83] + Enc(a)) + Enc(b)) + Enc(c) == [0x83] + ((Enc(a) + Enc(b)) + Enc(c));
  }

  /** A plaintext header: version 1, no encryption, the device id. */
  lemma PlaintextBytes(deviceId: seq<byte>)
    ensures EncHeader(Plaintext(deviceId)) == [0x82, 0x01, 0x82, 0x00] + Enc(CText(deviceId))
  {
    TwoItems(CInt(0), CText(deviceId));
    TwoItems(CInt(1), CArray([CInt(0), CText(deviceId)]));
  }

  /** A saead header: version 1, encryption 1, the session parameters, the pouch id. */
  lemma SaeadBytes(info: Saead.SessionInfo, pouchId: int)
    ensures EncHeader(Saead.Header(info, pouchId))
      == [0x82] + [0x01] + ([0x83] + [0x01] + Enc(CArray(Saead.ToCbor(info))) + Enc(CInt(pouchId)))
  {
    var obj := CArray(Saead.ToCbor(info));
    ThreeItems(CInt(1), obj, CInt(pouchId));
    TwoItems(CInt(1), CArray([CInt(1), obj, CInt(pouchId)]));
  }

  lemma ItemsOfThree(a: CborValue, b: CborValue, c: CborValue) returns (three: seq<CborValue>)
    ensures three == [a, b, c] && EncItems(three) == Enc(a) + Enc(b) + Enc(c)
  {
    three := [a, b, c];
    var two := [a, b];
    EncItemsSnoc([], a);
    EncItemsSnoc([a], b);
    EncItemsSnoc(two, c);
    assert [] + [a] == [a] && [a] + [b] == two && two + [c] == three;
  }

  lemma FiveItems(a: CborValue, b: CborValue, c: CborValue, d: CborValue, e: CborValue)
    ensures Enc(CArray([a, b, c, d, e])) == [0x85] + (Enc(a) + Enc(b) + Enc(c) + Enc(d) + Enc(e))
  {
    var three := ItemsOfThree(a, b, c);
    var four := [a, b, c, d];
    EncItemsSnoc(three, d);
    assert four == three + [d];
    EncItemsSnoc(four, e);
    assert [a, b, c, d, e] == four + [e];
    ArrayBytes([a, b, c, d, e], [0x85]);
  }

  /** Session parameters: the id in an array of its own, initiator, algorithm, block log, certificate
      reference. */
  lemma SessionInfoBytes(info: Saead.SessionInfo)
    requires info.sequence == None
    ensures Enc(CArray(Saead.ToCbor(info)))
      == [0x85] + (([0x81] + Enc(CBytes(info.sessionId))) + Enc(CInt(info.initiator)) + Enc(CInt(info.algorithm))
                   + Enc(CInt(info.blockLog)) + Enc(CBytes(info.certRef)))
  {
    var sid := CBytes(info.sessionId);
    EncItemsSnoc([], sid);
    assert [] + [sid] == [sid];
    FiveItems(CArray([sid]), CInt(info.initiator), CInt(info.algorithm), CInt(info.blockLog), CBytes(info.certRef));
  }

  lemma EntryBlockInFront(b: Block, rest: seq<Block>)
    ensures EntryPayloads([b] + rest) == (if b.id % 32 == 0 then [b.payload] else []) + EntryPayloads(rest)
  {
    assert ([b] + rest)[1..] == rest;
  }

  /** Blocks of another stream carry no entries. */
  lemma {:induction false} OnlyEntryBlocks(a: seq<Block>, b: Block)
    ensures EntryPayloads(a + [b]) == EntryPayloads(a) + (if b.id % 32 == 0 then [b.payload] else [])
  {
    if a == [] {
      EntryBlockInFront(b, []);
      assert a + [b] == [b] + [];
    } else {
      var rest := a[1..];
      OnlyEntryBlocks(rest, b);
      EntryBlockInFront(a[0], rest);
      EntryBlockInFront(a[0], rest + [b]);
      assert a == [a[0]] + rest && a + [b] == [a[0]] + (rest + [b]);
    }
  }

  /** Nor do opened texts of another stream, or empty ones. */
  lemma OnlyEntryTexts(texts: seq<seq<byte>>, t: seq<byte>)
    ensures Saead.EntryTexts(texts + [t])
      == Saead.EntryTexts(texts) + (if t != [] && t[0] % 32 == 0 then [t[1..]] else [])
  {
    Saead.EntryTextsSnoc(texts, t);
  }

  /** Exactly these headers are read, whatever else the arrays hold behind. */
  lemma HeadersRead(v: CborValue)
    ensures HeaderOf(v).Good? <==>
      && v.CArray? && |v.items| == 2 && v.items[0] == CInt(1) && v.items[1].CArray?
      && var info := v.items[1].items;
         || (|info| >= 2 && info[0] == CInt(0))
         || (|info| >= 3 && info[0] == CInt(1) && info[1].CArray?)
    ensures HeaderOf(v).Good? ==>
      var h, info := HeaderOf(v).value, v.items[1].items;
      if info[0] == CInt(0)
      then h.encryption == 0 && h.deviceId == (if info[1].CText? then Some(info[1].utf8) else None)
      else h.encryption == 1 && h.sessionInfo == Some(info[1].items)
           && h.pouchId == (if info[2].CInt? then info[2].i else 0)
  {
  }

  /** A pouch that parses has a plaintext header; behind an encrypted one nothing is parsed. */
  lemma OnlyPlaintextParses(h: PouchHeader, bs: seq<Block>)
    requires Complete(h) && Valid(HeaderValue(h)) && AllBlocksFit(bs)
    requires h == if h.encryption == 0 then Plaintext(h.deviceId.value) else SaeadHeader(h.sessionInfo.value, h.pouchId)
    ensures var data := EncHeader(h) + EncBlocks(bs);
      ParsePouch(data) ==
        if h.encryption == 1 then Bad(EncryptedPouch)
        else match ParseEntries(Concat(EntryPayloads(bs)), 0, [])
             case Bad(e) => Bad(e)
             case Good(es) => Good((h, es))
  {
    var head, blocks := EncHeader(h), EncBlocks(bs);
    HeaderRoundTrip(h, blocks);
    assert (head + blocks)[|head|..] == blocks;
    SplitEncoded(blocks, 0, bs, []);
    assert [] + bs == bs;
  }

  // ----- key derivation text

  /** The value of a base64 character (table 1 of RFC 4648). */
  function Value64(c: char): nat {
    if 'A' <= c <= 'Z' then c as int - 'A' as int
    else if 'a' <= c <= 'z' then c as int - 'a' as int + 26
    else if '0' <= c <= '9' then c as int - '0' as int + 52
    else if c == '+' then 62
    else if c == '/' then 63
    else 0
  }

  lemma Value64Of(v: nat)
    requires v < 64
    ensures Value64(Char64(v)) == v
  {
  }

  /** The bytes of one group of four characters; `=` marks what is missing. */
  function Decode4(a: char, b: char, c: char, d: char): seq<byte> {
    var n := Value64(a) * 0x4_0000 + Value64(b) * 0x1000 + Value64(c) * 64 + Value64(d);
    var bytes: seq<byte> := [n / 0x1_0000 % 256, n / 256 % 256, n % 256];
    if c == '=' then bytes[..1] else if d == '=' then bytes[..2] else bytes
  }

  function Decode64(t: string): seq<byte> {
    if |t| < 4 then [] else Decode4(t[0], t[1], t[2], t[3]) + Decode64(t[4..])
  }

  lemma SixBits(x: byte, y: byte, z: byte)
    ensures (x / 4) * 0x4_0000 + (x % 4 * 16 + y / 16) * 0x1000 + (y % 16 * 4 + z / 64) * 64 + z % 64
      == x * 0x1_0000 + y * 256 + z
  {
  }

  lemma ThreeBytes(x: byte, y: byte, z: byte)
    ensures var n := x * 0x1_0000 + y * 256 + z;
      n / 0x1_0000 % 256 == x && n / 256 % 256 == y && n % 256 == z
  {
    var m := 256 * x + y;
    assert (256 * m + z) / 256 == m && (256 * x + y) / 256 == x;
    assert x * 0x1_0000 + y * 256 + z == 256 * m + z;
  }

  lemma Decode4Of(x: byte, y: byte, z: byte)
    ensures var t := Group64(x, y, z); Decode4(t[0], t[1], t[2], t[3]) == [x, y, z]
  {
    var t := Group64(x, y, z);
    Value64Of(x / 4);
    Value64Of(x % 4 * 16 + y / 16);
    Value64Of(y % 16 * 4 + z / 64);
    Value64Of(z % 64);
    SixBits(x, y, z);
    ThreeBytes(x, y, z);
    assert t[2] == Char64(y % 16 * 4 + z / 64) && t[3] == Char64(z % 64);
  }

  lemma Decode4One(x: byte)
    ensures Decode4(Char64(x / 4), Char64(x % 4 * 16), '=', '=') == [x]
  {
    Value64Of(x / 4);
    Value64Of(x % 4 * 16);
    SixBits(x, 0, 0);
    ThreeBytes(x, 0, 0);
  }

  lemma Decode4Two(x: byte, y: byte)
    ensures Decode4(Char64(x / 4), Char64(x % 4 * 16 + y / 16), Char64(y % 16 * 4), '=') == [x, y]
  {
    Value64Of(x / 4);
    Value64Of(x % 4 * 16 + y / 16);
    Value64Of(y % 16 * 4);
    SixBits(x, y, 0);
    ThreeBytes(x, y, 0);
  }

  lemma DecodeFour(a: char, b: char, c: char, d: char)
    ensures Decode64([a, b, c, d]) == Decode4(a, b, c, d)
  {
    assert [a, b, c, d][4..] == [];
  }

  lemma GroupInFront(x: byte, y: byte, z: byte, rest: string)
    ensures Decode64(Group64(x, y, z) + rest) == [x, y, z] + Decode64(rest)
  {
    Decode4Of(x, y, z);
    assert (Group64(x, y, z) + rest)[4..] == rest;
  }

  lemma LastGroup(b: seq<byte>)
    requires 1 <= |b| <= 2
    ensures Decode64(Base64(b)) == b
  {
    var x := b[0];
    if |b| == 1 {
      Decode4One(x);
      DecodeFour(Char64(x / 4), Char64(x % 4 * 16), '=', '=');
    } else {
      var y := b[1];
      Decode4Two(x, y);
      DecodeFour(Char64(x / 4), Char64(x % 4 * 16 + y / 16), Char64(y % 16 * 4), '=');
    }
  }

  /** The text is the base64 of section 4 of RFC 4648: a decoder by its table gives the bytes back. */
  lemma {:induction false} Base64Decodes(b: seq<byte>)
    ensures Decode64(Base64(b)) == b
    decreases |b|
  {
    if |b| >= 3 {
      GroupInFront(b[0], b[1], b[2], Base64(b[3..]));
      Base64Decodes(b[3..]);
      assert b == [b[0], b[1], b[2]] + b[3..];
    } else if b != [] {
      LastGroup(b);
    }
  }

  function Value16(c: char): nat {
    if '0' <= c <= '9' then c as int - '0' as int
    else if 'A' <= c <= 'F' then c as int - 'A' as int + 10
    else 0
  }

  function HexValue(t: string): nat {
    if t == "" then 0 else 16 * HexValue(t[..|t| - 1]) + Value16(t[|t| - 1])
  }

  /** The digits are those of the number, upper case. */
  lemma {:induction false} HexReads(v: nat)
    ensures HexValue(Hex(v)) == v
  {
    var t := Hex(v);
    if v >= 16 {
      HexReads(v / 16);
      assert t[..|t| - 1] == Hex(v / 16);
    } else {
      assert t[..0] == "";
    }
  }

  lemma InfoEnds()
    ensures InfoHead(1) == "E0:S:" && InfoHead(0) == "E0:D:"
    ensures InfoTail(1, 9) == ":CCR:09" && InfoTail(2, 9) == ":CAR:09"
  {
    var t := Hex(9);
    assert t == "9" && Hex2(9) == "0" + t;
  }

  /** The INFO string and the key length of each algorithm, for every session id, with block log 9. */
  lemma InfoLayout(c: Saead.Crypto, ours: seq<byte>, peer: seq<byte>, sid: seq<byte>, certRef: seq<byte>)
    ensures Saead.SessionKey(c, ours, peer, Saead.SessionInfo(sid, 1, 1, 9, certRef, None))
      == c.derive(c.agree(ours, peer), "E0:S:" + Base64(sid) + ":CCR:09", 32)
    ensures Saead.SessionKey(c, ours, peer, Saead.SessionInfo(sid, 1, 2, 9, certRef, None))
      == c.derive(c.agree(ours, peer), "E0:S:" + Base64(sid) + ":CAR:09", 16)
    ensures Saead.SessionKey(c, ours, peer, Saead.SessionInfo(sid, 0, 1, 9, certRef, None))
      == c.derive(c.agree(ours, peer), "E0:D:" + Base64(sid) + ":CCR:09", 32)
  {
    InfoEnds();
  }

  // ----- credential messages

  lemma KeyTexts()
    ensures Enc(CText(Flows.TEXT_KIND)) == [0x64, 0x6B, 0x69, 0x6E, 0x64]
    ensures Enc(CText(Flows.TEXT_OFF)) == [0x63, 0x6F, 0x66, 0x66]
    ensures Enc(CText(Flows.TEXT_TOTAL)) == [0x65, 0x74, 0x6F, 0x74, 0x61, 0x6C]
    ensures Enc(CText(Flows.TEXT_DATA)) == [0x64, 0x64, 0x61, 0x74, 0x61]
  {
  }

  lemma PairsOfTwo(p: CborPair, q: CborPair) returns (two: seq<CborPair>)
    ensures two == [p, q] && EncPairs(two) == EncPair(p) + EncPair(q)
  {
    two := [p, q];
    EncPairsSnoc([], p);
    EncPairsSnoc([p], q);
    assert [] + [p] == [p] && [p] + [q] == two;
  }

  lemma FourPairs(p: CborPair, q: CborPair, r: CborPair, s: CborPair)
    ensures Enc(CMap([p, q, r, s])) == [0xA4] + (EncPair(p) + EncPair(q) + EncPair(r) + EncPair(s))
  {
    var two := PairsOfTwo(p, q);
    var three := [p, q, r];
    EncPairsSnoc(two, r);
    assert three == two + [r];
    EncPairsSnoc(three, s);
    assert [p, q, r, s] == three + [s];
  }

  /** A credential write: op 0 and a map with "kind", "off", "total", "data" in this order. */
  lemma CredWriteBytes(c: Flows.Chunk)
    ensures Flows.EncodeCredWrite(c)
      == [0x82] + [0x00] +
         ([0xA4]
          + (([0x64, 0x6B, 0x69, 0x6E, 0x64] + Enc(CInt(c.kind)))
             + ([0x63, 0x6F, 0x66, 0x66] + Enc(CInt(c.offset)))
             + ([0x65, 0x74, 0x6F, 0x74, 0x61, 0x6C] + Enc(CInt(c.total)))
             + ([0x64, 0x64, 0x61, 0x74, 0x61] + Enc(CBytes(c.data)))))
  {
    var ps := Flows.ChunkPairs(c);
    KeyTexts();
    FourPairs(ps[0], ps[1], ps[2], ps[3]);
    TwoItems(CInt(0), CMap(ps));
  }

  /** The finalize request and the credential responses: op, status, and the count of a write. */
  lemma CredResponseBytes(n: nat)
    ensures Flows.FINALIZE_REQUEST == [0x81, 0x01]
    ensures Enc(Flows.WriteResponse(Good(n))) == [0x83] + [0x00] + [0x00] + Enc(CInt(n))
    ensures Enc(Flows.WriteResponse(Bad(Cred.InvalidArg))) == [0x83, 0x00, 0x02, 0x00]
    ensures Enc(Flows.WriteResponse(Bad(Cred.MessageSize))) == [0x83, 0x00, 0x02, 0x00]
    ensures Enc(Flows.FinalizeResponse(Good(()))) == [0x82, 0x01, 0x00]
    ensures Enc(Flows.FinalizeResponse(Bad(Cred.InvalidArg))) == [0x82, 0x01, 0x02]
    ensures Enc(Flows.FinalizeResponse(Bad(Cred.BadMessage))) == [0x82, 0x01, 0x02]
    ensures Enc(Flows.FinalizeResponse(Bad(Cred.IoError))) == [0x82, 0x01, 0x03]
  {
    EncItemsSnoc([], CInt(1));
    assert [] + [CInt(1)] == [CInt(1)];
    ThreeItems(CInt(0), CInt(0), CInt(n));
    ThreeItems(CInt(0), CInt(2), CInt(0));
    TwoItems(CInt(1), CInt(0));
    TwoItems(CInt(1), CInt(2));
    TwoItems(CInt(1), CInt(3));
  }

  predicate Answer(v: CborValue, op: int, status: int) {
    v.CArray? && |v.items| >= 2 && v.items[0] == CInt(op) && v.items[1] == CInt(status)
  }

  /** What the client reads: a count only from an ok answer to a write, a refusal only from an answer
      with one of the six error statuses, anything else is malformed. */
  lemma CredResponsesRead(rsp: seq<byte>)
    ensures var r := Flows.DecodeCredWriteRsp(rsp); var v := Read(rsp, 0);
      && (r.Good? <==> v.Ok? && Answer(v.value, 0, 0) && |v.value.items| > 2 && v.value.items[2].CInt?)
      && (r.Good? ==> v.value.items[2] == CInt(r.value))
      && (forall s :: r == Bad(Flows.Refused(s)) <==> v.Ok? && 1 <= s <= 6 && Answer(v.value, 0, s))
    ensures var r := Flows.DecodeFinalizeRsp(rsp); var v := Read(rsp, 0);
      && (r.Good? <==> v.Ok? && Answer(v.value, 1, 0))
      && (forall s :: r == Bad(Flows.Refused(s)) <==> v.Ok? && 1 <= s <= 6 && Answer(v.value, 1, s))
  {
  }
}
