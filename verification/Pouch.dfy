/** Pouch framing: entries, blocks and the header, the greedy packer and the parsers. */
module Pouch {
  import opened Bytes
  import opened Cbor

  datatype PouchError =
    | EntryTooBig
    | TruncatedEntryHeader | TruncatedEntry | BadEntryPath
    | TruncatedBlockHeader | TruncatedBlockPayload
    | BadCbor | NotAPair | BadVersion | BadEncryptionInfo | UnknownEncryption
    | EncryptedPouch

  // ----- entries

  /** `path` is the UTF-8 form of a string. */
  datatype Entry = Entry(path: seq<byte>, contentType: int, data: seq<byte>)

  /** What `encode` demands of its caller; a path is a string, hence valid UTF-8. */
  predicate Encodable(e: Entry) { |e.path| <= 255 && ValidUtf8(e.path) }

  /** The fields hold what they are given. */
  predicate Fits(e: Entry) { |e.data| < 0x1_0000 && 0 <= e.contentType < 0x1_0000 }

  function EncEntry(e: Entry): (b: seq<byte>)
    requires Encodable(e)
    ensures |b| == 5 + |e.path| + |e.data|
  {
    Be16(|e.data|) + Be16(e.contentType) + [|e.path|] + e.path + e.data
  }

  predicate AllEncodable(es: seq<Entry>) { forall e :: e in es ==> Encodable(e) }

  predicate AllFit(es: seq<Entry>) { forall e :: e in es ==> Fits(e) }

  function EncEntries(es: seq<Entry>): seq<byte>
    requires AllEncodable(es)
  {
    if es == [] then [] else EncEntry(es[0]) + EncEntries(es[1..])
  }

  lemma {:induction false} EncEntriesAppend(a: seq<Entry>, b: seq<Entry>)
    requires AllEncodable(a) && AllEncodable(b)
    ensures AllEncodable(a + b) && EncEntries(a + b) == EncEntries(a) + EncEntries(b)
  {
    if a == [] {
      assert a + b == b;
    } else {
      assert (a + b)[1..] == a[1..] + b;
      EncEntriesAppend(a[1..], b);
    }
  }

  lemma EncEntriesSnoc(a: seq<Entry>, e: Entry)
    requires AllEncodable(a) && Encodable(e)
    ensures AllEncodable(a + [e]) && EncEntries(a + [e]) == EncEntries(a) + EncEntry(e)
  {
    EncEntriesAppend(a, [e]);
    assert EncEntries([e]) == EncEntry(e) + EncEntries([]);
  }

  /** The entry at `pos`, and where it ends. */
  function EntryAt(bytes: seq<byte>, pos: nat): (r: Outcome<(Entry, nat), PouchError>)
    requires pos <= |bytes|
    ensures r.Good? ==> pos < r.value.1 <= |bytes|
  {
    if |bytes| - pos < 5 then Bad(TruncatedEntryHeader) else
    var dataLen := FromBe16(bytes[pos], bytes[pos + 1]);
    var contentType := FromBe16(bytes[pos + 2], bytes[pos + 3]);
    var pathEnd := pos + 5 + bytes[pos + 4];
    if pathEnd + dataLen > |bytes| then Bad(TruncatedEntry)
    else if !ValidUtf8(bytes[pos + 5..pathEnd]) then Bad(BadEntryPath)
    else Good((Entry(bytes[pos + 5..pathEnd], contentType, bytes[pathEnd..pathEnd + dataLen]), pathEnd + dataLen))
  }

  /** The entries from `pos` to the end, after those in `acc`. */
  function ParseEntries(bytes: seq<byte>, pos: nat, acc: seq<Entry>): Outcome<seq<Entry>, PouchError>
    requires pos <= |bytes|
    decreases |bytes| - pos
  {
    if pos == |bytes| then Good(acc) else
    match EntryAt(bytes, pos)
    case Bad(e) => Bad(e)
    case Good((e, q)) => ParseEntries(bytes, q, acc + [e])
  }

  /** One turn of the entry loop. */
  method ReadEntry(bytes: seq<byte>, pos: nat) returns (r: Outcome<(Entry, nat), PouchError>)
    requires pos <= |bytes|
    ensures r == EntryAt(bytes, pos)
  {
    if |bytes| - pos < 5 {
      return Bad(TruncatedEntryHeader);
    }
    var dataLen := FromBe16(bytes[pos], bytes[pos + 1]);
    var contentType := FromBe16(bytes[pos + 2], bytes[pos + 3]);
    var pathEnd := pos + 5 + bytes[pos + 4];
    if |bytes| - pathEnd < dataLen {
      return Bad(TruncatedEntry);
    }
    var path := bytes[pos + 5..pathEnd];
    if !ValidUtf8(path) {
      return Bad(BadEntryPath);
    }
    r := Good((Entry(path, contentType, bytes[pathEnd..pathEnd + dataLen]), pathEnd + dataLen));
  }

  method ParseEntryBlocks(payloads: seq<seq<byte>>) returns (r: Outcome<seq<Entry>, PouchError>)
    ensures r == ParseEntries(Concat(payloads), 0, [])
  {
    var bytes: seq<byte> := [];
    for i := 0 to |payloads|
      invariant bytes == Concat(payloads[..i])
    {
      ConcatSnoc(payloads[..i], payloads[i]);
      assert payloads[..i + 1] == payloads[..i] + [payloads[i]];
      bytes := bytes + payloads[i];
    }
    assert payloads[..|payloads|] == payloads;
    var entries: seq<Entry> := [];
    var pos := 0;
    while pos < |bytes|
      invariant 0 <= pos <= |bytes|
      invariant ParseEntries(bytes, pos, entries) == ParseEntries(bytes, 0, [])
    {
      var next := ReadEntry(bytes, pos);
      if next.Bad? {
        return Bad(next.error);
      }
      entries := entries + [next.value.0];
      pos := next.value.1;
    }
    r := Good(entries);
  }

  function EntryHead(e: Entry): (h: seq<byte>)
    requires Encodable(e)
    ensures |h| == 5
  {
    Be16(|e.data|) + Be16(e.contentType) + [|e.path|]
  }

  lemma EntryHeadAt(bytes: seq<byte>, pos: nat, e: Entry)
    requires Encodable(e) && Fits(e) && At(bytes, pos, EntryHead(e))
    ensures FromBe16(bytes[pos], bytes[pos + 1]) == |e.data|
    ensures FromBe16(bytes[pos + 2], bytes[pos + 3]) == e.contentType
    ensures bytes[pos + 4] == |e.path|
  {
    HeadParts(bytes, pos, Be16(|e.data|), Be16(e.contentType), |e.path|);
    Be16Reads(|e.data|);
    Be16Reads(e.contentType);
  }

  lemma HeadParts(bytes: seq<byte>, pos: nat, a: seq<byte>, b: seq<byte>, n: byte)
    requires |a| == 2 && |b| == 2 && At(bytes, pos, a + b + [n])
    ensures bytes[pos] == a[0] && bytes[pos + 1] == a[1] && bytes[pos + 2] == b[0] && bytes[pos + 3] == b[1]
    ensures bytes[pos + 4] == n
  {
    AtSplit(bytes, pos, a + b, [n]);
    AtSplit(bytes, pos, a, b);
    PairAt(bytes, pos, a);
    PairAt(bytes, pos + 2, b);
    assert bytes[pos + 4] == bytes[pos + 4..pos + 5][0] == n;
  }

  lemma EntryAtEncoded(bytes: seq<byte>, pos: nat, e: Entry)
    requires Encodable(e) && Fits(e) && At(bytes, pos, EncEntry(e))
    ensures EntryAt(bytes, pos) == Good((e, pos + |EncEntry(e)|))
  {
    assert EncEntry(e) == EntryHead(e) + e.path + e.data;
    AtSplit(bytes, pos, EntryHead(e) + e.path, e.data);
    AtSplit(bytes, pos, EntryHead(e), e.path);
    EntryHeadAt(bytes, pos, e);
  }

  /** The entries `es` are all there is from `pos` on. */
  predicate EntriesEnd(bytes: seq<byte>, pos: nat, es: seq<Entry>) {
    && AllEncodable(es) && AllFit(es)
    && At(bytes, pos, EncEntries(es)) && pos + |EncEntries(es)| == |bytes|
  }

  lemma ParseFirst(bytes: seq<byte>, pos: nat, es: seq<Entry>, acc: seq<Entry>) returns (q: nat)
    requires es != [] && EntriesEnd(bytes, pos, es)
    ensures EntriesEnd(bytes, q, es[1..])
    ensures ParseEntries(bytes, pos, acc) == ParseEntries(bytes, q, acc + [es[0]])
  {
    q := pos + |EncEntry(es[0])|;
    AtSplit(bytes, pos, EncEntry(es[0]), EncEntries(es[1..]));
    EntryAtEncoded(bytes, pos, es[0]);
    ParseStep(bytes, pos, acc, es[0], q);
  }

  lemma ParseStep(bytes: seq<byte>, pos: nat, acc: seq<Entry>, e: Entry, q: nat)
    requires pos < |bytes| && EntryAt(bytes, pos) == Good((e, q))
    ensures ParseEntries(bytes, pos, acc) == ParseEntries(bytes, q, acc + [e])
  {
  }

  lemma {:induction false} ParseEncoded(bytes: seq<byte>, pos: nat, es: seq<Entry>, acc: seq<Entry>)
    requires EntriesEnd(bytes, pos, es)
    ensures ParseEntries(bytes, pos, acc) == Good(acc + es)
    decreases es
  {
    if es == [] {
      assert acc + es == acc;
    } else {
      var q := ParseFirst(bytes, pos, es, acc);
      ParseEncoded(bytes, q, es[1..], acc + [es[0]]);
      MoveFirst(acc, es);
    }
  }

  lemma EntryAtReencodes(bytes: seq<byte>, pos: nat)
    requires pos <= |bytes|
    ensures var r := EntryAt(bytes, pos);
      r.Good? ==> var (e, q) := r.value; Encodable(e) && Fits(e) && bytes[pos..q] == EncEntry(e)
  {
    var r := EntryAt(bytes, pos);
    if r.Good? {
      var (e, q) := r.value;
      var pathEnd := pos + 5 + |e.path|;
      FromBe16RoundTrip(bytes[pos], bytes[pos + 1]);
      FromBe16RoundTrip(bytes[pos + 2], bytes[pos + 3]);
      assert bytes[pos..q] == bytes[pos..pos + 5] + bytes[pos + 5..pathEnd] + bytes[pathEnd..q];
      assert bytes[pos..pos + 5] == [bytes[pos], bytes[pos + 1]] + [bytes[pos + 2], bytes[pos + 3]] + [bytes[pos + 4]];
    }
  }

  /** Whatever bytes the parser accepts, re-encoding the entries it returns gives those bytes. */
  lemma {:induction false} ParsedReencodes(bytes: seq<byte>, pos: nat, acc: seq<Entry>)
    requires pos <= |bytes|
    ensures var r := ParseEntries(bytes, pos, acc);
      r.Good? ==>
        && |acc| <= |r.value| && r.value[..|acc|] == acc
        && AllEncodable(r.value[|acc|..]) && AllFit(r.value[|acc|..])
        && EncEntries(r.value[|acc|..]) == bytes[pos..]
    decreases |bytes| - pos
  {
    var r := ParseEntries(bytes, pos, acc);
    if r.Good? && pos < |bytes| {
      EntryAtReencodes(bytes, pos);
      var (e, q) := EntryAt(bytes, pos).value;
      ParsedReencodes(bytes, q, acc + [e]);
      var parsed := r.value[|acc|..];
      assert parsed[0] == r.value[..|acc| + 1][|acc|] == e;
      assert parsed[1..] == r.value[|acc| + 1..];
      assert parsed == [e] + parsed[1..];
      assert bytes[pos..] == bytes[pos..q] + bytes[q..];
    }
  }

  /** Entries come back from their encoding exactly when every field holds its value. */
  lemma EntriesRoundTripIffFit(es: seq<Entry>)
    requires AllEncodable(es)
    ensures ParseEntries(EncEntries(es), 0, []) == Good(es) <==> AllFit(es)
  {
    var bytes := EncEntries(es);
    if AllFit(es) {
      ParseEncoded(bytes, 0, es, []);
      assert [] + es == es;
    } else if ParseEntries(bytes, 0, []) == Good(es) {
      ParsedReencodes(bytes, 0, []);
    }
  }

  // ----- blocks

  /** A block with its id byte; the stream number and the two flags are read off that byte. */
  datatype Block = Block(id: byte, payload: seq<byte>)

  function IdByte(streamId: nat, first: bool, last: bool): byte {
    streamId % 32 + (if first then 0x40 else 0) + (if last then 0x80 else 0)
  }

  function StreamOf(id: byte): nat { id % 32 }
  predicate FirstOf(id: byte) { id / 0x40 % 2 == 1 }
  predicate LastOf(id: byte) { id / 0x80 % 2 == 1 }

  lemma IdByteFields(streamId: nat, first: bool, last: bool)
    ensures var id := IdByte(streamId, first, last);
      StreamOf(id) == streamId % 32 && FirstOf(id) == first && LastOf(id) == last
  {
  }

  function EncBlock(b: Block): (e: seq<byte>)
    ensures |e| == |b.payload| + 3
  {
    Be16(|b.payload| + 1) + [b.id] + b.payload
  }

  function EncBlocks(bs: seq<Block>): seq<byte> {
    if bs == [] then [] else EncBlock(bs[0]) + EncBlocks(bs[1..])
  }

  lemma {:induction false} EncBlocksSnoc(bs: seq<Block>, b: Block)
    ensures EncBlocks(bs + [b]) == EncBlocks(bs) + EncBlock(b)
  {
    if bs != [] {
      assert (bs + [b])[1..] == bs[1..] + [b];
      EncBlocksSnoc(bs[1..], b);
    }
  }

  /** The size field counts the id byte and the payload in sixteen bits. */
  predicate BlockFits(b: Block) { |b.payload| <= 65534 }

  predicate AllBlocksFit(bs: seq<Block>) { forall b :: b in bs ==> BlockFits(b) }

  function BlockAt(bytes: seq<byte>, pos: nat): (r: Outcome<(Block, nat), PouchError>)
    requires pos <= |bytes|
    ensures r.Good? ==> pos < r.value.1 <= |bytes|
  {
    if |bytes| - pos < 3 then Bad(TruncatedBlockHeader) else
    var size := FromBe16(bytes[pos], bytes[pos + 1]);
    if size == 0 || pos + 2 + size > |bytes| then Bad(TruncatedBlockPayload)
    else Good((Block(bytes[pos + 2], bytes[pos + 3..pos + 2 + size]), pos + 2 + size))
  }

  function Split(bytes: seq<byte>, pos: nat, acc: seq<Block>): Outcome<seq<Block>, PouchError>
    requires pos <= |bytes|
    decreases |bytes| - pos
  {
    if pos == |bytes| then Good(acc) else
    match BlockAt(bytes, pos)
    case Bad(e) => Bad(e)
    case Good((b, q)) => Split(bytes, q, acc + [b])
  }

  /** One turn of the block loop. */
  method ReadBlock(bytes: seq<byte>, start: nat) returns (r: Outcome<(Block, nat), PouchError>)
    requires start <= |bytes|
    ensures r == BlockAt(bytes, start)
  {
    var pos := start;
    if |bytes| - pos < 3 {
      return Bad(TruncatedBlockHeader);
    }
    var size := FromBe16(bytes[pos], bytes[pos + 1]);
    var id := bytes[pos + 2];
    var payloadLen := (size as int) - 1;
    pos := pos + 3;
    if payloadLen < 0 || |bytes| - pos < payloadLen {
      return Bad(TruncatedBlockPayload);
    }
    r := Good((Block(id, bytes[pos..pos + payloadLen]), pos + payloadLen));
  }

  method SplitBlocks(bytes: seq<byte>) returns (r: Outcome<seq<Block>, PouchError>)
    ensures r == Split(bytes, 0, [])
  {
    var blocks: seq<Block> := [];
    var pos := 0;
    while pos < |bytes|
      invariant 0 <= pos <= |bytes|
      invariant Split(bytes, pos, blocks) == Split(bytes, 0, [])
    {
      var next := ReadBlock(bytes, pos);
      if next.Bad? {
        return Bad(next.error);
      }
      blocks := blocks + [next.value.0];
      pos := next.value.1;
    }
    r := Good(blocks);
  }

  lemma BlockAtEncoded(bytes: seq<byte>, pos: nat, b: Block)
    requires BlockFits(b) && At(bytes, pos, EncBlock(b))
    ensures BlockAt(bytes, pos) == Good((b, pos + |EncBlock(b)|))
  {
    var size := Be16(|b.payload| + 1);
    AtSplit(bytes, pos, size + [b.id], b.payload);
    BlockParts(bytes, pos, size, b.id);
    Be16Reads(|b.payload| + 1);
  }

  lemma BlockParts(bytes: seq<byte>, pos: nat, size: seq<byte>, id: byte)
    requires |size| == 2 && At(bytes, pos, size + [id])
    ensures bytes[pos] == size[0] && bytes[pos + 1] == size[1] && bytes[pos + 2] == id
  {
    AtSplit(bytes, pos, size, [id]);
    PairAt(bytes, pos, size);
    assert bytes[pos + 2] == bytes[pos + 2..pos + 3][0] == id;
  }

  /** The blocks `bs` are all there is from `pos` on. */
  predicate BlocksEnd(bytes: seq<byte>, pos: nat, bs: seq<Block>) {
    AllBlocksFit(bs) && At(bytes, pos, EncBlocks(bs)) && pos + |EncBlocks(bs)| == |bytes|
  }

  lemma SplitFirst(bytes: seq<byte>, pos: nat, bs: seq<Block>, acc: seq<Block>) returns (q: nat)
    requires bs != [] && BlocksEnd(bytes, pos, bs)
    ensures BlocksEnd(bytes, q, bs[1..]) && Split(bytes, pos, acc) == Split(bytes, q, acc + [bs[0]])
  {
    q := pos + |EncBlock(bs[0])|;
    AtSplit(bytes, pos, EncBlock(bs[0]), EncBlocks(bs[1..]));
    BlockAtEncoded(bytes, pos, bs[0]);
  }

  /** Blocks come back from their encoding, with their flags, stream and payload. */
  lemma {:induction false} SplitEncoded(bytes: seq<byte>, pos: nat, bs: seq<Block>, acc: seq<Block>)
    requires BlocksEnd(bytes, pos, bs)
    ensures Split(bytes, pos, acc) == Good(acc + bs)
    decreases bs
  {
    if bs == [] {
      assert acc + bs == acc;
    } else {
      var q := SplitFirst(bytes, pos, bs, acc);
      SplitEncoded(bytes, q, bs[1..], acc + [bs[0]]);
      MoveFirst(acc, bs);
    }
  }

  // ----- packing

  function Size(es: seq<Entry>): nat
    requires AllEncodable(es)
  {
    |EncEntries(es)|
  }

  function Flatten(gs: seq<seq<Entry>>): seq<Entry> {
    if gs == [] then [] else gs[0] + Flatten(gs[1..])
  }

  predicate GroupsEncodable(gs: seq<seq<Entry>>) {
    forall i :: 0 <= i < |gs| ==> AllEncodable(gs[i])
  }

  /** One way of distributing `es` over blocks, in order and without splitting an entry. */
  predicate IsPacking(es: seq<Entry>, blockSize: int, gs: seq<seq<Entry>>) {
    && |gs| >= 1
    && Flatten(gs) == es
    && GroupsEncodable(gs)
    && forall i :: 0 <= i < |gs| ==> Size(gs[i]) <= blockSize
  }

  /** The greedy packer: `done` are the closed groups, `cur` the open one. */
  function Pack(es: seq<Entry>, blockSize: int, done: seq<seq<Entry>>, cur: seq<Entry>): (gs: seq<seq<Entry>>)
    requires AllEncodable(es) && AllEncodable(cur)
    ensures |gs| >= 1
    decreases |es|
  {
    if es == [] then done + [cur]
    else if cur != [] && Size(cur) + |EncEntry(es[0])| > blockSize then
      Pack(es[1..], blockSize, done + [cur], [es[0]])
    else
      Pack(es[1..], blockSize, done, cur + [es[0]])
  }

  lemma {:induction false} FlattenSnoc(gs: seq<seq<Entry>>, g: seq<Entry>)
    ensures Flatten(gs + [g]) == Flatten(gs) + g
  {
    if gs == [] {
      assert Flatten([g]) == g + Flatten([]);
    } else {
      assert (gs + [g])[1..] == gs[1..] + [g];
      FlattenSnoc(gs[1..], g);
    }
  }

  predicate TooBig(es: seq<Entry>, blockSize: int)
    requires AllEncodable(es)
  {
    exists e :: e in es && |EncEntry(e)| > blockSize
  }

  /** The groups hold the entries in order, whatever their sizes. */
  lemma {:induction false} PackFlattens(es: seq<Entry>, blockSize: int, done: seq<seq<Entry>>, cur: seq<Entry>)
    requires AllEncodable(es) && AllEncodable(cur)
    ensures Flatten(Pack(es, blockSize, done, cur)) == Flatten(done) + cur + es
    decreases |es|
  {
    FlattenSnoc(done, cur);
    if es == [] {
      assert Flatten(done) + cur + es == Flatten(done) + cur;
    } else {
      Regroup(Flatten(done), cur, es);
      if cur != [] && Size(cur) + |EncEntry(es[0])| > blockSize {
        PackFlattens(es[1..], blockSize, done + [cur], [es[0]]);
      } else {
        PackFlattens(es[1..], blockSize, done, cur + [es[0]]);
      }
    }
  }

  lemma Regroup(a: seq<Entry>, cur: seq<Entry>, es: seq<Entry>)
    requires es != []
    ensures (a + cur) + [es[0]] + es[1..] == a + cur + es
    ensures a + (cur + [es[0]]) + es[1..] == a + cur + es
  {
  }

  predicate GroupsWithin(gs: seq<seq<Entry>>, limit: int) {
    GroupsEncodable(gs) && forall i :: 0 <= i < |gs| ==> Size(gs[i]) <= limit
  }

  lemma WithinSnoc(gs: seq<seq<Entry>>, g: seq<Entry>, limit: int)
    requires GroupsWithin(gs, limit) && AllEncodable(g) && Size(g) <= limit
    ensures GroupsWithin(gs + [g], limit)
  {
  }

  lemma SizeOne(e: Entry)
    requires Encodable(e)
    ensures AllEncodable([e]) && Size([e]) == |EncEntry(e)|
  {
    EncEntriesSnoc([], e);
    assert [] + [e] == [e];
  }

  /** No group exceeds `limit` if no entry and no full block does. */
  lemma {:induction false} PackWithin(es: seq<Entry>, blockSize: int, limit: int, done: seq<seq<Entry>>,
                                      cur: seq<Entry>)
    requires AllEncodable(es) && AllEncodable(cur) && blockSize <= limit && GroupsWithin(done, limit)
    requires es == [] || cur != [] ==> Size(cur) <= limit
    requires !TooBig(es, limit)
    ensures GroupsWithin(Pack(es, blockSize, done, cur), limit)
    decreases |es|
  {
    if es == [] {
      WithinSnoc(done, cur, limit);
    } else {
      var e, rest := es[0], es[1..];
      assert |EncEntry(e)| <= limit && !TooBig(rest, limit);
      if cur != [] && Size(cur) + |EncEntry(e)| > blockSize {
        WithinSnoc(done, cur, limit);
        SizeOne(e);
        PackWithin(rest, blockSize, limit, done + [cur], [e]);
      } else {
        EncEntriesSnoc(cur, e);
        PackWithin(rest, blockSize, limit, done, cur + [e]);
      }
    }
  }

  /** The groups hold the entries in order, and none exceeds `limit` if no entry does. */
  lemma PackPacks(es: seq<Entry>, blockSize: int, limit: int)
    requires AllEncodable(es) && 0 <= limit && blockSize <= limit && !TooBig(es, limit)
    ensures IsPacking(es, limit, Pack(es, blockSize, [], []))
  {
    PackFlattens(es, blockSize, [], []);
    assert Flatten([]) + [] + es == es;
    PackWithin(es, blockSize, limit, [], []);
  }

  /** Blocks the greedy packer still uses, the open one included, when that holds `fill` bytes. */
  function Used(es: seq<Entry>, blockSize: int, fill: nat): nat
    requires AllEncodable(es)
  {
    if es == [] then 1
    else
      var n := |EncEntry(es[0])|;
      if fill > 0 && fill + n > blockSize then 1 + Used(es[1..], blockSize, n)
      else Used(es[1..], blockSize, fill + n)
  }

  lemma {:induction false} PackUses(es: seq<Entry>, blockSize: int, done: seq<seq<Entry>>, cur: seq<Entry>)
    requires AllEncodable(es) && AllEncodable(cur)
    ensures |Pack(es, blockSize, done, cur)| == |done| + Used(es, blockSize, Size(cur))
    decreases |es|
  {
    if es != [] {
      EncEntriesSnoc(cur, es[0]);
      EncEntriesSnoc([], es[0]);
      assert [] + [es[0]] == [es[0]];
      if cur != [] && Size(cur) + |EncEntry(es[0])| > blockSize {
        PackUses(es[1..], blockSize, done + [cur], [es[0]]);
      } else {
        PackUses(es[1..], blockSize, done, cur + [es[0]]);
      }
    }
  }

  /** A fuller open block never helps, and emptying it saves at most one block. */
  lemma {:induction false} UsedMonotone(es: seq<Entry>, blockSize: int, a: nat, b: nat)
    requires AllEncodable(es) && a <= b
    ensures Used(es, blockSize, a) <= Used(es, blockSize, b) <= 1 + Used(es, blockSize, 0)
  {
    if es != [] {
      var n := |EncEntry(es[0])|;
      UsedMonotone(es[1..], blockSize, a + n, b + n);
      UsedMonotone(es[1..], blockSize, 0, n);
      UsedMonotone(es[1..], blockSize, n, a + n);
    }
  }

  lemma {:induction false} GreedyUsesFewest(es: seq<Entry>, blockSize: int, fill: nat, gs: seq<seq<Entry>>)
    requires AllEncodable(es) && IsPacking(es, blockSize, gs) && fill + Size(gs[0]) <= blockSize
    ensures Used(es, blockSize, fill) <= |gs|
    decreases |es|, |gs|
  {
    if gs[0] == [] {
      if |gs| > 1 {
        GreedyUsesFewest(es, blockSize, 0, gs[1..]);
        UsedMonotone(es, blockSize, 0, fill);
      } else {
        assert Flatten(gs) == gs[0] + Flatten(gs[1..]);
      }
    } else {
      var rest := [gs[0][1..]] + gs[1..];
      assert rest[1..] == gs[1..];
      assert es[1..] == Flatten(rest);
      GreedyUsesFewest(es[1..], blockSize, fill + |EncEntry(es[0])|, rest);
    }
  }

  /** Among all packings into blocks of at most `blockSize` bytes the packer uses the fewest,
      and what it makes is one. */
  lemma PackIsOptimal(es: seq<Entry>, blockSize: int, gs: seq<seq<Entry>>)
    requires AllEncodable(es) && IsPacking(es, blockSize, gs)
    ensures IsPacking(es, blockSize, Pack(es, blockSize, [], []))
    ensures |Pack(es, blockSize, [], [])| <= |gs|
  {
    PackedEntriesFit(es, blockSize, gs);
    PackPacks(es, blockSize, blockSize);
    PackUses(es, blockSize, [], []);
    GreedyUsesFewest(es, blockSize, 0, gs);
  }

  lemma {:induction false} PackedEntriesFit(es: seq<Entry>, blockSize: int, gs: seq<seq<Entry>>)
    requires AllEncodable(es) && IsPacking(es, blockSize, gs)
    ensures blockSize >= 0 && forall e :: e in es ==> |EncEntry(e)| <= blockSize
    decreases |gs|
  {
    GroupEntriesFit(gs[0]);
    if |gs| > 1 {
      PackedEntriesFit(Flatten(gs[1..]), blockSize, gs[1..]);
    } else {
      assert es == gs[0] + Flatten(gs[1..]);
    }
  }

  lemma {:induction false} GroupEntriesFit(g: seq<Entry>)
    requires AllEncodable(g)
    ensures forall e :: e in g ==> |EncEntry(e)| <= Size(g)
  {
    if g != [] {
      GroupEntriesFit(g[1..]);
    }
  }

  // ----- building

  /** FIRST on the first group's block, LAST on the last group's. */
  function BlocksOf(gs: seq<seq<Entry>>): (bs: seq<Block>)
    requires GroupsEncodable(gs)
    ensures |bs| == |gs|
  {
    seq(|gs|, i requires 0 <= i < |gs| => Block(IdByte(0, i == 0, i == |gs| - 1), EncEntries(gs[i])))
  }

  lemma {:induction false} PackEncodable(es: seq<Entry>, blockSize: int, done: seq<seq<Entry>>, cur: seq<Entry>)
    requires AllEncodable(es) && AllEncodable(cur)
    requires GroupsEncodable(done)
    ensures GroupsEncodable(Pack(es, blockSize, done, cur))
    decreases |es|
  {
    if es == [] {
    } else if cur != [] && Size(cur) + |EncEntry(es[0])| > blockSize {
      PackEncodable(es[1..], blockSize, done + [cur], [es[0]]);
    } else {
      PackEncodable(es[1..], blockSize, done, cur + [es[0]]);
    }
  }

  function BlockSection(es: seq<Entry>, blockSize: int): seq<Block>
    requires AllEncodable(es)
  {
    PackEncodable(es, blockSize, [], []);
    BlocksOf(Pack(es, blockSize, [], []))
  }

  function Build(deviceId: seq<byte>, es: seq<Entry>, blockSize: int): Outcome<seq<byte>, PouchError>
    requires AllEncodable(es)
  {
    if TooBig(es, blockSize) then Bad(EntryTooBig)
    else Good(EncHeader(Plaintext(deviceId)) + EncBlocks(BlockSection(es, blockSize)))
  }

  /** Closed groups as blocks, none of them the last. */
  function OpenBlocks(gs: seq<seq<Entry>>): (bs: seq<Block>)
    requires GroupsEncodable(gs)
    ensures |bs| == |gs|
  {
    seq(|gs|, i requires 0 <= i < |gs| => Block(IdByte(0, i == 0, false), EncEntries(gs[i])))
  }

  method PackBlocks(entries: seq<Entry>, blockSize: int) returns (r: Outcome<seq<Block>, PouchError>)
    requires AllEncodable(entries)
    ensures r == if TooBig(entries, blockSize) then Bad(EntryTooBig) else Good(BlockSection(entries, blockSize))
  {
    var blocks: seq<Block> := [];
    var current: seq<byte> := [];
    ghost var done: seq<seq<Entry>>, cur: seq<Entry> := [], [];
    var i := 0;
    assert entries[0..] == entries;
    while i < |entries|
      invariant 0 <= i <= |entries|
      invariant AllEncodable(cur) && GroupsEncodable(done)
      invariant current == EncEntries(cur) && (current == [] <==> cur == [])
      invariant blocks == OpenBlocks(done)
      invariant Pack(entries[i..], blockSize, done, cur) == Pack(entries, blockSize, [], [])
      invariant forall j :: 0 <= j < i ==> |EncEntry(entries[j])| <= blockSize
    {
      var entry := entries[i];
      assert entries[i..][0] == entry && entries[i..][1..] == entries[i + 1..];
      var encoded := EncEntry(entry);
      if |encoded| > blockSize {
        assert entry in entries;
        return Bad(EntryTooBig);
      }
      if current != [] && |current| + |encoded| > blockSize {
        blocks := blocks + [Block(IdByte(0, blocks == [], false), current)];
        current := [];
        done, cur := done + [cur], [];
      }
      EncEntriesSnoc(cur, entry);
      assert [] + [entry] == [entry];
      current := current + encoded;
      cur := cur + [entry];
      i := i + 1;
    }
    assert entries[i..] == [];
    blocks := blocks + [Block(IdByte(0, blocks == [], true), current)];
    assert blocks == BlocksOf(done + [cur]);
    r := Good(blocks);
  }

  method BuildEntryPouch(deviceId: seq<byte>, entries: seq<Entry>, blockSize: int)
      returns (r: Outcome<seq<byte>, PouchError>)
    requires AllEncodable(entries)
    ensures r == Build(deviceId, entries, blockSize)
  {
    var packed := PackBlocks(entries, blockSize);
    if packed.Bad? {
      return Bad(packed.error);
    }
    var out := AppendBlocks(EncHeader(Plaintext(deviceId)), packed.value);
    r := Good(out);
  }

  /** The loop that writes the blocks behind the header. */
  method AppendBlocks(header: seq<byte>, blocks: seq<Block>) returns (out: seq<byte>)
    ensures out == header + EncBlocks(blocks)
  {
    out := header;
    for i := 0 to |blocks|
      invariant out == header + EncBlocks(blocks[..i])
    {
      EncBlocksSnoc(blocks[..i], blocks[i]);
      assert blocks[..i + 1] == blocks[..i] + [blocks[i]];
      out := out + EncBlock(blocks[i]);
    }
    assert blocks[..|blocks|] == blocks;
  }

  // ----- header

  datatype PouchHeader = PouchHeader(encryption: int, deviceId: Option<seq<byte>>,
                                     sessionInfo: Option<seq<CborValue>>, pouchId: int)

  function Plaintext(deviceId: seq<byte>): PouchHeader { PouchHeader(0, Some(deviceId), None, 0) }

  function SaeadHeader(info: seq<CborValue>, pouchId: int): PouchHeader { PouchHeader(1, None, Some(info), pouchId) }

  /** What `encode` demands of its caller. */
  predicate Complete(h: PouchHeader) {
    if h.encryption == 0 then h.deviceId.Some? else h.sessionInfo.Some?
  }

  function HeaderValue(h: PouchHeader): CborValue
    requires Complete(h)
  {
    var info := if h.encryption == 0 then [CInt(0), CText(h.deviceId.value)]
                else [CInt(1), CArray(h.sessionInfo.value), CInt(h.pouchId)];
    CArray([CInt(1), CArray(info)])
  }

  function EncHeader(h: PouchHeader): seq<byte>
    requires Complete(h)
  {
    Enc(HeaderValue(h))
  }

  function HeaderOf(v: CborValue): Outcome<PouchHeader, PouchError> {
    if !v.CArray? || |v.items| != 2 then Bad(NotAPair)
    else if v.items[0] != CInt(1) then Bad(BadVersion)
    else if !v.items[1].CArray? || v.items[1].items == [] then Bad(BadEncryptionInfo)
    else
      var info := v.items[1].items;
      if info[0] == CInt(0) then
        if |info| <= 1 then Bad(BadEncryptionInfo)
        else Good(PouchHeader(0, if info[1].CText? then Some(info[1].utf8) else None, None, 0))
      else if info[0] == CInt(1) then
        if |info| <= 2 || !info[1].CArray? then Bad(BadEncryptionInfo)
        else Good(SaeadHeader(info[1].items, if info[2].CInt? then info[2].i else 0))
      else Bad(UnknownEncryption)
  }

  function DecodeHeader(data: seq<byte>): (r: Outcome<(PouchHeader, nat), PouchError>)
    ensures r.Good? ==> r.value.1 <= |data|
  {
    match Read(data, 0)
    case Err(_) => Bad(BadCbor)
    case Ok(v, consumed) =>
      match HeaderOf(v)
      case Bad(e) => Bad(e)
      case Good(h) => Good((h, consumed))
  }

  /** A header is found at the front of any longer data, with its exact length. */
  lemma HeaderRoundTrip(h: PouchHeader, rest: seq<byte>)
    requires Complete(h) && Valid(HeaderValue(h))
    requires h == if h.encryption == 0 then Plaintext(h.deviceId.value) else SaeadHeader(h.sessionInfo.value, h.pouchId)
    ensures DecodeHeader(EncHeader(h) + rest) == Good((h, |EncHeader(h)|))
  {
    ReadEnc(EncHeader(h) + rest, 0, HeaderValue(h));
  }

  lemma PlaintextValid(deviceId: seq<byte>)
    requires ValidUtf8(deviceId) && |deviceId| <= INT64_MAX
    ensures Valid(HeaderValue(Plaintext(deviceId)))
  {
    var info := [CInt(0), CText(deviceId)];
    assert forall x :: x in info ==> Valid(x);
    assert forall x :: x in [CInt(1), CArray(info)] ==> Valid(x);
  }

  // ----- the whole pouch

  function EntryPayloads(bs: seq<Block>): seq<seq<byte>> {
    if bs == [] then []
    else (if StreamOf(bs[0].id) == 0 then [bs[0].payload] else []) + EntryPayloads(bs[1..])
  }

  function ParsePouch(data: seq<byte>): Outcome<(PouchHeader, seq<Entry>), PouchError> {
    match DecodeHeader(data)
    case Bad(e) => Bad(e)
    case Good((h, consumed)) =>
      match Split(data[consumed..], 0, [])
      case Bad(e) => Bad(e)
      case Good(blocks) =>
        if h.encryption != 0 then Bad(EncryptedPouch) else
        match ParseEntries(Concat(EntryPayloads(blocks)), 0, [])
        case Bad(e) => Bad(e)
        case Good(es) => Good((h, es))
  }

  lemma {:induction false} PayloadsOf(gs: seq<seq<Entry>>, bs: seq<Block>)
    requires |bs| == |gs|
    requires forall i :: 0 <= i < |gs| ==>
      AllEncodable(gs[i]) && StreamOf(bs[i].id) == 0 && bs[i].payload == EncEntries(gs[i])
    ensures AllEncodable(Flatten(gs)) && Concat(EntryPayloads(bs)) == EncEntries(Flatten(gs))
  {
    if gs != [] {
      PayloadsOf(gs[1..], bs[1..]);
      EncEntriesAppend(gs[0], Flatten(gs[1..]));
      assert EntryPayloads(bs) == [bs[0].payload] + EntryPayloads(bs[1..]);
    }
  }

  /** FIRST is on the first block only, LAST on the last only, and each carries one group. */
  predicate Framed(gs: seq<seq<Entry>>, bs: seq<Block>)
    requires GroupsEncodable(gs)
  {
    && |bs| == |gs|
    && forall i :: 0 <= i < |gs| ==>
         && bs[i].payload == EncEntries(gs[i])
         && StreamOf(bs[i].id) == 0
         && (FirstOf(bs[i].id) <==> i == 0)
         && (LastOf(bs[i].id) <==> i == |gs| - 1)
  }

  lemma {:induction false} BlocksOfFramed(gs: seq<seq<Entry>>)
    requires GroupsEncodable(gs)
    ensures Framed(gs, BlocksOf(gs))
  {
    forall i | 0 <= i < |gs| ensures var id := BlocksOf(gs)[i].id;
      StreamOf(id) == 0 && (FirstOf(id) <==> i == 0) && (LastOf(id) <==> i == |gs| - 1)
    {
      IdByteFields(0, i == 0, i == |gs| - 1);
    }
  }

  /** What the block section of any entries splits into: the greedy groups, whole, in order, FIRST
      and LAST on the end blocks and nowhere else, provided each block's size fits its field. */
  lemma BuiltBlocks(es: seq<Entry>, blockSize: int)
    requires AllEncodable(es) && AllBlocksFit(BlockSection(es, blockSize))
    ensures var gs, bs := Pack(es, blockSize, [], []), BlockSection(es, blockSize);
      && Flatten(gs) == es && GroupsEncodable(gs) && Framed(gs, bs)
      && Split(EncBlocks(bs), 0, []) == Good(bs)
      && Concat(EntryPayloads(bs)) == EncEntries(es)
  {
    PackFlattens(es, blockSize, [], []);
    assert Flatten([]) + [] + es == es;
    PackEncodable(es, blockSize, [], []);
    var gs, bs := Pack(es, blockSize, [], []), BlockSection(es, blockSize);
    BlocksOfFramed(gs);
    PayloadsOf(gs, bs);
    SplitEncoded(EncBlocks(bs), 0, bs, []);
    assert [] + bs == bs;
  }

  /** Blocks fit whenever the block size does. */
  lemma BlocksFit(es: seq<Entry>, blockSize: int)
    requires AllEncodable(es) && blockSize <= 65534 && !TooBig(es, 65534)
    ensures AllBlocksFit(BlockSection(es, blockSize))
  {
    PackPacks(es, blockSize, 65534);
  }

  /** Parsing a built pouch is parsing the concatenated entries, under the header built. */
  lemma {:induction false} BuiltParses(deviceId: seq<byte>, es: seq<Entry>, blockSize: int)
    requires ValidUtf8(deviceId) && |deviceId| <= INT64_MAX
    requires AllEncodable(es) && !TooBig(es, blockSize) && AllBlocksFit(BlockSection(es, blockSize))
    ensures ParsePouch(Build(deviceId, es, blockSize).value)
      == match ParseEntries(EncEntries(es), 0, [])
         case Bad(e) => Bad(e)
         case Good(parsed) => Good((Plaintext(deviceId), parsed))
  {
    BuiltBlocks(es, blockSize);
    PlaintextValid(deviceId);
    var body := EncBlocks(BlockSection(es, blockSize));
    var header := EncHeader(Plaintext(deviceId));
    HeaderRoundTrip(Plaintext(deviceId), body);
    assert (header + body)[|header|..] == body;
  }

  predicate TypesFit(es: seq<Entry>) { forall e :: e in es ==> 0 <= e.contentType < 0x1_0000 }

  /** Building fails exactly on an oversized entry. Otherwise, if the blocks made fit their size
      field, parsing gives back the device id and the entries, in order, exactly when every content
      type fits its sixteen bits. */
  lemma {:induction false} PouchRoundTrip(deviceId: seq<byte>, es: seq<Entry>, blockSize: int)
    requires ValidUtf8(deviceId) && |deviceId| <= INT64_MAX && AllEncodable(es)
    ensures Build(deviceId, es, blockSize).Bad? <==> TooBig(es, blockSize)
    ensures var r := Build(deviceId, es, blockSize);
      r.Good? && AllBlocksFit(BlockSection(es, blockSize)) ==>
        (ParsePouch(r.value) == Good((Plaintext(deviceId), es)) <==> TypesFit(es))
  {
    if !TooBig(es, blockSize) && AllBlocksFit(BlockSection(es, blockSize)) {
      BuiltParses(deviceId, es, blockSize);
      EntriesRoundTripIffFit(es);
      DataFits(es, blockSize);
    }
  }

  lemma DataFits(es: seq<Entry>, blockSize: int)
    requires AllEncodable(es) && AllBlocksFit(BlockSection(es, blockSize))
    ensures AllFit(es) <==> TypesFit(es)
  {
    BuiltBlocks(es, blockSize);
    var gs, bs := Pack(es, blockSize, [], []), BlockSection(es, blockSize);
    forall i | 0 <= i < |gs| ensures Size(gs[i]) <= 65534 {
      assert BlockFits(bs[i]);
    }
    PackedEntriesFit(es, 65534, gs);
    forall e | e in es ensures |e.data| < 0x1_0000 {
      assert |EncEntry(e)| <= 65534;
    }
  }
}
