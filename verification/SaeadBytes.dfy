/** The encrypted pouch byte by byte, and what chaining the blocks by their tags buys. Sizes,
    nonces and tags are spelled out here, and nothing is said through the functions that make or
    open the chain. */
module SaeadBytes {
  import opened Bytes
  import opened Pouch
  import opened SaeadText
  import opened Saead

  // ----- one direction, whatever its nonces

  /** Blocks the size field can announce and that hold a tag. */
  predicate Tagged(s: seq<seq<byte>>) { forall i :: 0 <= i < |s| ==> |s[i]| >= 16 }

  predicate Frameable(s: seq<seq<byte>>) { forall i :: 0 <= i < |s| ==> 16 <= |s[i]| < 0x1_0000 }

  function Last16(s: seq<byte>): seq<byte>
    requires |s| >= 16
  {
    s[|s| - 16..]
  }

  /** The additional data of block `i`: nothing for index 0, then the last 16 bytes of the block
      before. `first` stands before block 0 of `s`, which has index `from`. */
  function Additional(s: seq<seq<byte>>, i: nat, from: nat, first: seq<byte>): seq<byte>
    requires i < |s| && Tagged(s)
  {
    if from + i == 0 then [] else if i == 0 then first else Last16(s[i - 1])
  }

  /** `s` are the blocks of `texts`, sealed one after the other from index `from` on. */
  ghost predicate SealedFrom(ch: Cipher, from: nat, first: seq<byte>, texts: seq<seq<byte>>, s: seq<seq<byte>>) {
    |s| == |texts| && Tagged(s) && forall i :: 0 <= i < |s| ==> BlockIs(ch, from, first, texts, s, i)
  }

  predicate BlockIs(ch: Cipher, from: nat, first: seq<byte>, texts: seq<seq<byte>>, s: seq<seq<byte>>, i: nat)
    requires i < |s| == |texts| && Tagged(s)
  {
    s[i] == ch.seal(from + i, texts[i], Additional(s, i, from, first))
  }

  function Framed(ch: Cipher, s: seq<seq<byte>>): seq<byte> {
    if s == [] then [] else ch.size(|s[0]|) + s[0] + Framed(ch, s[1..])
  }

  lemma AdditionalCons(x: seq<byte>, rest: seq<seq<byte>>, from: nat, first: seq<byte>, i: nat)
    requires |x| >= 16 && Tagged(rest) && i < |rest|
    ensures Tagged([x] + rest)
    ensures Additional([x] + rest, i + 1, from, first) == Additional(rest, i, from + 1, Last16(x))
  {
  }

  lemma SealedCons(ch: Cipher, from: nat, first: seq<byte>, texts: seq<seq<byte>>, x: seq<byte>, rest: seq<seq<byte>>)
    requires texts != [] && |x| >= 16 && x == ch.seal(from, texts[0], if from == 0 then [] else first)
    requires SealedFrom(ch, from + 1, Last16(x), texts[1..], rest)
    ensures SealedFrom(ch, from, first, texts, [x] + rest)
  {
    var s := [x] + rest;
    forall i | 0 <= i < |s| ensures BlockIs(ch, from, first, texts, s, i) {
      if i > 0 {
        SealedNext(ch, from, first, texts, x, rest, i - 1);
      }
    }
  }

  lemma SealedNext(ch: Cipher, from: nat, first: seq<byte>, texts: seq<seq<byte>>, x: seq<byte>, rest: seq<seq<byte>>,
                   i: nat)
    requires |x| >= 16 && i < |rest| == |texts| - 1 && Tagged(rest)
    requires BlockIs(ch, from + 1, Last16(x), texts[1..], rest, i)
    ensures BlockIs(ch, from, first, texts, [x] + rest, i + 1)
  {
    AdditionalCons(x, rest, from, first, i);
    assert texts[1..][i] == texts[i + 1];
    assert (from + 1) + i == from + (i + 1);
  }

  lemma {:induction false} ChainIsFramed(ch: Cipher, from: nat, first: seq<byte>, texts: seq<seq<byte>>)
      returns (s: seq<seq<byte>>)
    requires Opens(ch)
    ensures SealedFrom(ch, from, first, texts, s) && Chain(ch, from, first, texts) == Framed(ch, s)
    decreases |texts|
  {
    if texts == [] {
      s := [];
    } else {
      var x := SealBlock(ch, from, first, texts[0]);
      var rest := ChainIsFramed(ch, from + 1, Last16(x), texts[1..]);
      SealedCons(ch, from, first, texts, x, rest);
      s := [x] + rest;
      assert s[1..] == rest && Tag(x) == Last16(x);
    }
  }

  // ----- what opening accepts

  function OpenedAt(ch: Cipher, s: seq<seq<byte>>, i: nat, from: nat, first: seq<byte>): Option<seq<byte>>
    requires i < |s| && Tagged(s)
  {
    ch.open(from + i, s[i], Additional(s, i, from, first))
  }

  predicate AllOpen(ch: Cipher, s: seq<seq<byte>>, from: nat, first: seq<byte>)
    requires Tagged(s)
  {
    forall i :: 0 <= i < |s| ==> OpenedAt(ch, s, i, from, first).Some?
  }

  /** Opening the blocks one after the other. */
  function OpenAll(ch: Cipher, s: seq<seq<byte>>, from: nat, first: seq<byte>): (r: Option<seq<seq<byte>>>)
    requires Tagged(s)
    ensures r.Some? ==> |r.value| == |s|
    decreases |s|
  {
    if s == [] then Some([]) else
    match ch.open(from, s[0], if from == 0 then [] else first)
    case None => None
    case Some(text) =>
      match OpenAll(ch, s[1..], from + 1, Last16(s[0]))
      case None => None
      case Some(texts) => Some([text] + texts)
  }

  lemma OpenedNext(ch: Cipher, s: seq<seq<byte>>, from: nat, first: seq<byte>, i: nat)
    requires Tagged(s) && 1 <= i < |s|
    ensures OpenedAt(ch, s[1..], i - 1, from + 1, Last16(s[0])) == OpenedAt(ch, s, i, from, first)
  {
    assert s == [s[0]] + s[1..];
    AdditionalCons(s[0], s[1..], from, first, i - 1);
    assert s[1..][i - 1] == s[i];
  }

  lemma {:induction false} OpenAllIndex(ch: Cipher, s: seq<seq<byte>>, from: nat, first: seq<byte>)
    requires Tagged(s)
    ensures var r := OpenAll(ch, s, from, first);
      && (r.Some? <==> AllOpen(ch, s, from, first))
      && (r.Some? ==> forall i :: 0 <= i < |s| ==> OpenedAt(ch, s, i, from, first) == Some(r.value[i]))
    decreases |s|
  {
    if s != [] {
      var tail, next, tag := s[1..], from + 1, Last16(s[0]);
      OpenAllIndex(ch, tail, next, tag);
      forall i | 1 <= i < |s| ensures OpenedAt(ch, s, i, from, first) == OpenedAt(ch, tail, i - 1, next, tag) {
        OpenedNext(ch, s, from, first, i);
      }
      if AllOpen(ch, s, from, first) {
        assert OpenedAt(ch, s, 0, from, first).Some?;
        forall i | 0 <= i < |tail| ensures OpenedAt(ch, tail, i, next, tag).Some? {
          assert OpenedAt(ch, s, i + 1, from, first).Some?;
        }
      }
    }
  }

  /** The data from `pos` on are the frames of `s`. */
  predicate FramesEnd(ch: Cipher, data: seq<byte>, pos: nat, s: seq<seq<byte>>) {
    Frameable(s) && pos <= |data| && data[pos..] == Framed(ch, s)
  }

  lemma FrameFirst(ch: Cipher, data: seq<byte>, pos: nat, s: seq<seq<byte>>)
    requires Sized(ch) && s != [] && FramesEnd(ch, data, pos, s)
    ensures var end := pos + 2 + |s[0]|;
      SealedAt(data, pos) == Good((s[0], end)) && FramesEnd(ch, data, end, s[1..])
  {
    var frame, rest := ch.size(|s[0]|) + s[0], Framed(ch, s[1..]);
    var d, end := data[pos..], pos + 2 + |s[0]|;
    assert d[..|frame|] == frame && d[|frame|..] == rest;
    assert data[pos..end] == frame && data[end..] == rest;
    SealedAtFramed(data, pos, ch.size(|s[0]|), s[0]);
  }

  /** `r` is the failure, or `acc` and then the texts. */
  predicate Agrees(r: Outcome<seq<seq<byte>>, SaeadError>, acc: seq<seq<byte>>, texts: Option<seq<seq<byte>>>) {
    if texts.None? then r.Bad? else r == Good(acc + texts.value)
  }

  lemma AgreesCons(r: Outcome<seq<seq<byte>>, SaeadError>, acc: seq<seq<byte>>, text: seq<byte>,
                   rest: Option<seq<seq<byte>>>)
    requires Agrees(r, acc + [text], rest)
    ensures Agrees(r, acc, if rest.None? then None else Some([text] + rest.value))
  {
    if rest.Some? {
      assert (acc + [text]) + rest.value == acc + ([text] + rest.value);
    }
  }

  lemma {:induction false} UnchainIsOpenAll(ch: Cipher, data: seq<byte>, pos: nat, s: seq<seq<byte>>, from: nat,
                                            first: seq<byte>, acc: seq<seq<byte>>)
    requires Sized(ch) && FramesEnd(ch, data, pos, s)
    ensures Agrees(Unchain(ch, data, pos, from, first, acc), acc, OpenAll(ch, s, from, first))
    decreases |s|
  {
    if s == [] {
      assert acc + [] == acc;
    } else {
      var end, tag, text := UnchainOne(ch, data, pos, s, from, first, acc);
      if text.Some? {
        UnchainIsOpenAll(ch, data, end, s[1..], from + 1, tag, acc + [text.value]);
        AgreesCons(Unchain(ch, data, end, from + 1, tag, acc + [text.value]), acc, text.value,
                   OpenAll(ch, s[1..], from + 1, tag));
      }
    }
  }

  /** One turn of the loop, and of opening all. */
  lemma UnchainOne(ch: Cipher, data: seq<byte>, pos: nat, s: seq<seq<byte>>, from: nat, first: seq<byte>,
                   acc: seq<seq<byte>>) returns (end: nat, tag: seq<byte>, text: Option<seq<byte>>)
    requires Sized(ch) && s != [] && FramesEnd(ch, data, pos, s)
    ensures FramesEnd(ch, data, end, s[1..])
    ensures text.None? ==> Unchain(ch, data, pos, from, first, acc).Bad? && OpenAll(ch, s, from, first).None?
    ensures text.Some? ==>
      Unchain(ch, data, pos, from, first, acc) == Unchain(ch, data, end, from + 1, tag, acc + [text.value])
    ensures text.Some? ==>
      var rest := OpenAll(ch, s[1..], from + 1, tag);
      OpenAll(ch, s, from, first) == if rest.None? then None else Some([text.value] + rest.value)
  {
    FrameFirst(ch, data, pos, s);
    end, tag := pos + 2 + |s[0]|, Last16(s[0]);
    text := ch.open(from, s[0], if from == 0 then [] else first);
    UnchainAt(ch, data, pos, s[0], end, from, first, acc);
  }

  lemma UnchainAt(ch: Cipher, data: seq<byte>, pos: nat, sealed: seq<byte>, end: nat, from: nat, first: seq<byte>,
                  acc: seq<seq<byte>>)
    requires pos < |data| && |sealed| >= 16 && SealedAt(data, pos) == Good((sealed, end))
    ensures var text := ch.open(from, sealed, if from == 0 then [] else first);
      var r := Unchain(ch, data, pos, from, first, acc);
      if text.None? then r.Bad? else r == Unchain(ch, data, end, from + 1, Last16(sealed), acc + [text.value])
  {
    OpensAt(ch, data, pos, sealed, end, from, first);
    if OpenAt(ch, data, pos, from, first).Good? {
      UnchainStep(ch, data, pos, from, first, acc);
    }
  }

  lemma OpensAt(ch: Cipher, data: seq<byte>, pos: nat, sealed: seq<byte>, end: nat, from: nat, first: seq<byte>)
    requires pos < |data| && |sealed| >= 16 && SealedAt(data, pos) == Good((sealed, end))
    ensures var text := ch.open(from, sealed, if from == 0 then [] else first);
      var o := OpenAt(ch, data, pos, from, first);
      if text.None? then o.Bad? else o == Good(Opened(text.value, Last16(sealed), end))
  {
  }

  // ----- the bytes

  /** Each block behind its size in two bytes. */
  function Frames(s: seq<seq<byte>>): seq<byte> {
    if s == [] then [] else [|s[0]| / 256 % 256, |s[0]| % 256] + s[0] + Frames(s[1..])
  }

  /** One direction of a session, as both ends know it. */
  datatype Link = Link(c: Crypto, alg: int, key: seq<byte>, pouchId: int, role: byte)

  function CipherOf(k: Link): Cipher { Channel(k.c, k.key, k.alg, k.role, k.pouchId) }

  lemma SealIs(k: Link, index: nat, text: seq<byte>, aad: seq<byte>)
    ensures CipherOf(k).seal(index, text, aad)
      == k.c.seal(k.alg, k.key, TwelveBytes(k.pouchId, index, k.role), text, aad)
  {
    NonceBytes(k.pouchId, index, k.role);
  }

  lemma OpenIs(k: Link, index: nat, sealed: seq<byte>, aad: seq<byte>)
    ensures CipherOf(k).open(index, sealed, aad)
      == k.c.open(k.alg, k.key, TwelveBytes(k.pouchId, index, k.role), sealed, aad)
  {
    NonceBytes(k.pouchId, index, k.role);
  }

  lemma {:induction false} FramesAre(k: Link, s: seq<seq<byte>>)
    ensures Framed(CipherOf(k), s) == Frames(s)
  {
    if s != [] {
      FramesAre(k, s[1..]);
    }
  }

  /** `s` are the blocks of `texts`: each sealed with the twelve-byte nonce of its index and the last
      16 bytes of the block before. */
  ghost predicate SealedBlocks(k: Link, texts: seq<seq<byte>>, s: seq<seq<byte>>) {
    && |s| == |texts| && Tagged(s)
    && forall i :: 0 <= i < |s| ==>
         s[i] == k.c.seal(k.alg, k.key, TwelveBytes(k.pouchId, i, k.role), texts[i],
                          if i == 0 then [] else s[i - 1][|s[i - 1]| - 16..])
  }

  lemma SealedBlocksIff(k: Link, texts: seq<seq<byte>>, s: seq<seq<byte>>)
    ensures SealedBlocks(k, texts, s) <==> SealedFrom(CipherOf(k), 0, [], texts, s)
  {
    if |s| == |texts| && Tagged(s) {
      forall i | 0 <= i < |s|
        ensures BlockIs(CipherOf(k), 0, [], texts, s, i) <==>
          s[i] == k.c.seal(k.alg, k.key, TwelveBytes(k.pouchId, i, k.role), texts[i],
                           if i == 0 then [] else s[i - 1][|s[i - 1]| - 16..])
      {
        SealIs(k, i, texts[i], Additional(s, i, 0, []));
      }
    }
  }

  /** What the builder returns: the header, then each packed block's size and bytes. */
  lemma DownlinkBytes(c: Crypto, ours: seq<byte>, peer: seq<byte>, info: SessionInfo, es: seq<Entry>, pouchId: int,
                      blockSize: int) returns (s: seq<seq<byte>>)
    requires Lawful(c) && AllEncodable(es)
    ensures SealedBlocks(Link(c, info.algorithm, SessionKey(c, ours, peer, info), pouchId, 1),
                         Texts(BlockSection(es, blockSize)), s)
    ensures DownlinkPouch(c, ours, peer, info, es, pouchId, blockSize) == EncHeader(Header(info, pouchId)) + Frames(s)
  {
    var k := Link(c, info.algorithm, SessionKey(c, ours, peer, info), pouchId, 1);
    var texts := Texts(BlockSection(es, blockSize));
    ChannelOpens(c, k.key, k.alg, 1, pouchId);
    s := ChainIsFramed(CipherOf(k), 0, [], texts);
    SealedBlocksIff(k, texts, s);
    FramesAre(k, s);
  }

  /** The same of what the device sends back, with its own role. */
  lemma UplinkBytes(c: Crypto, ours: seq<byte>, peer: seq<byte>, info: SessionInfo, es: seq<Entry>, pouchId: int)
      returns (s: seq<seq<byte>>)
    requires Lawful(c) && AllEncodable(es)
    ensures SealedBlocks(Link(c, info.algorithm, SessionKey(c, ours, peer, info), pouchId, 0),
                         [[0xC0] + EncEntries(es)], s)
    ensures UplinkPouch(c, ours, peer, info, es, pouchId) == EncHeader(Header(info, pouchId)) + Frames(s)
  {
    var k := Link(c, info.algorithm, SessionKey(c, ours, peer, info), pouchId, 0);
    var texts := Texts(BlocksOf([es]));
    assert texts == [[0xC0] + EncEntries(es)];
    ChannelOpens(c, k.key, k.alg, 0, pouchId);
    s := ChainIsFramed(CipherOf(k), 0, [], texts);
    SealedBlocksIff(k, texts, s);
    FramesAre(k, s);
  }

  /** Block `i` opens under the nonce of its index and the last 16 bytes of the block before. */
  function BlockOpens(k: Link, s: seq<seq<byte>>, i: nat): Option<seq<byte>>
    requires i < |s| && Tagged(s)
  {
    k.c.open(k.alg, k.key, TwelveBytes(k.pouchId, i, k.role), s[i],
             if i == 0 then [] else s[i - 1][|s[i - 1]| - 16..])
  }

  lemma BlockOpensIs(k: Link, s: seq<seq<byte>>, i: nat)
    requires i < |s| && Tagged(s)
    ensures OpenedAt(CipherOf(k), s, i, 0, []) == BlockOpens(k, s, i)
  {
    OpenIs(k, i, s[i], Additional(s, i, 0, []));
  }

  /** The decryption loop accepts frames exactly when every block opens so, and returns the texts. */
  lemma AcceptsIff(k: Link, data: seq<byte>, pos: nat, s: seq<seq<byte>>)
    requires Frameable(s) && pos <= |data| && data[pos..] == Frames(s)
    ensures var r := Unchain(CipherOf(k), data, pos, 0, [], []);
      && (r.Good? <==> forall i :: 0 <= i < |s| ==> BlockOpens(k, s, i).Some?)
      && (r.Good? ==> |r.value| == |s| && forall i :: 0 <= i < |s| ==> BlockOpens(k, s, i) == Some(r.value[i]))
  {
    var ch := CipherOf(k);
    FramesAre(k, s);
    ChannelSized(k.c, k.key, k.alg, k.role, k.pouchId);
    UnchainIsOpenAll(ch, data, pos, s, 0, [], []);
    OpenAllIndex(ch, s, 0, []);
    forall i | 0 <= i < |s| ensures OpenedAt(ch, s, i, 0, []) == BlockOpens(k, s, i) {
      BlockOpensIs(k, s, i);
    }
    var texts := OpenAll(ch, s, 0, []);
    if texts.Some? {
      assert [] + texts.value == texts.value;
    }
  }

  // ----- what the chain buys

  /** A sealed block opens under one nonce and one additional data only. */
  ghost predicate OneContext(c: Crypto) {
    forall alg, key, sealed, nonce, nonce', aad, aad' ::
      c.open(alg, key, nonce, sealed, aad).Some? && c.open(alg, key, nonce', sealed, aad').Some? ==>
        nonce == nonce' && aad == aad'
  }

  ghost predicate Accepted(k: Link, s: seq<seq<byte>>) { Unchain(CipherOf(k), Frames(s), 0, 0, [], []).Good? }

  lemma AcceptedIff(k: Link, s: seq<seq<byte>>)
    requires Frameable(s)
    ensures Accepted(k, s) <==> forall i :: 0 <= i < |s| ==> BlockOpens(k, s, i).Some?
  {
    assert Frames(s)[0..] == Frames(s);
    AcceptsIff(k, Frames(s), 0, s);
  }

  lemma NotElsewhere(c: Crypto, alg: int, key: seq<byte>, sealed: seq<byte>, nonce: seq<byte>, aad: seq<byte>,
                     nonce': seq<byte>, aad': seq<byte>)
    requires OneContext(c) && c.open(alg, key, nonce, sealed, aad).Some? && (nonce != nonce' || aad != aad')
    ensures c.open(alg, key, nonce', sealed, aad').None?
  {
  }

  lemma SealedOpens(k: Link, texts: seq<seq<byte>>, s: seq<seq<byte>>, i: nat)
    requires Lawful(k.c) && SealedBlocks(k, texts, s) && i < |s|
    ensures BlockOpens(k, s, i) == Some(texts[i])
  {
  }

  /** Block `i` replaced by one sealed for this place, but behind another predecessor: refused. */
  lemma ForeignBlockIsRefused(k: Link, s: seq<seq<byte>>, i: nat, x: seq<byte>, text: seq<byte>, aad: seq<byte>)
    requires Lawful(k.c) && OneContext(k.c) && Frameable(s) && i < |s| && 16 <= |x| < 0x1_0000
    requires x == k.c.seal(k.alg, k.key, TwelveBytes(k.pouchId, i, k.role), text, aad)
    requires aad != if i == 0 then [] else s[i - 1][|s[i - 1]| - 16..]
    ensures !Accepted(k, s[i := x])
  {
    var nonce := TwelveBytes(k.pouchId, i, k.role);
    NotElsewhere(k.c, k.alg, k.key, x, nonce, aad, nonce, if i == 0 then [] else s[i - 1][|s[i - 1]| - 16..]);
    assert BlockOpens(k, s[i := x], i).None?;
    AcceptedIff(k, s[i := x]);
  }

  /** Block `i` of a sealed sequence replaced by any block with another tag, and a block follows: the
      next one no longer opens. */
  lemma NextBlockIsRefused(k: Link, texts: seq<seq<byte>>, s: seq<seq<byte>>, i: nat, x: seq<byte>)
    requires Lawful(k.c) && OneContext(k.c) && Frameable(s) && SealedBlocks(k, texts, s)
    requires i + 1 < |s| && 16 <= |x| < 0x1_0000 && Last16(x) != Last16(s[i])
    ensures !Accepted(k, s[i := x])
  {
    var nonce := TwelveBytes(k.pouchId, i + 1, k.role);
    SealedOpens(k, texts, s, i + 1);
    NotElsewhere(k.c, k.alg, k.key, s[i + 1], nonce, Last16(s[i]), nonce, Last16(x));
    assert BlockOpens(k, s[i := x], i + 1).None?;
    AcceptedIff(k, s[i := x]);
  }

  lemma IndexOfNonce(pouchId: int, role: byte, i: nat, j: nat)
    requires i < 0x1_0000 && j < 0x1_0000
    ensures TwelveBytes(pouchId, i, role) == TwelveBytes(pouchId, j, role) ==> i == j
  {
    NonceBytes(pouchId, i, role);
    NonceBytes(pouchId, j, role);
    NonceInjective(pouchId, i, role, pouchId, j, role);
    SmallMod(i, 0x1_0000);
    SmallMod(j, 0x1_0000);
  }

  lemma MisplacedIsRefused(k: Link, texts: seq<seq<byte>>, s: seq<seq<byte>>, s': seq<seq<byte>>, i: nat, j: nat)
    requires Lawful(k.c) && OneContext(k.c) && SealedBlocks(k, texts, s) && Tagged(s')
    requires i < |s| && j < |s'| && s'[j] == s[i] && i < 0x1_0000 && j < 0x1_0000 && i != j
    ensures BlockOpens(k, s', j).None?
  {
    SealedOpens(k, texts, s, i);
    IndexOfNonce(k.pouchId, k.role, i, j);
    NotElsewhere(k.c, k.alg, k.key, s[i],
                 TwelveBytes(k.pouchId, i, k.role), if i == 0 then [] else s[i - 1][|s[i - 1]| - 16..],
                 TwelveBytes(k.pouchId, j, k.role), if j == 0 then [] else s'[j - 1][|s'[j - 1]| - 16..]);
  }

  function Picked(s: seq<seq<byte>>, p: seq<nat>): (s': seq<seq<byte>>)
    requires forall j :: 0 <= j < |p| ==> p[j] < |s|
    ensures |s'| == |p| && forall j :: 0 <= j < |p| ==> s'[j] == s[p[j]]
  {
    seq(|p|, j requires 0 <= j < |p| => s[p[j]])
  }

  /** Of all sequences of the blocks of a pouch of at most 65536, dropped, repeated or reordered at
      will, exactly the fronts are accepted: `p[j]` is the block that stands at place `j`. */
  lemma OnlyFrontsAccepted(k: Link, texts: seq<seq<byte>>, s: seq<seq<byte>>, p: seq<nat>)
    requires Lawful(k.c) && OneContext(k.c) && Frameable(s) && SealedBlocks(k, texts, s)
    requires |s| <= 0x1_0000 && |p| <= 0x1_0000 && forall j :: 0 <= j < |p| ==> p[j] < |s|
    ensures Accepted(k, Picked(s, p)) <==> forall j :: 0 <= j < |p| ==> p[j] == j
  {
    var s' := Picked(s, p);
    AcceptedIff(k, s');
    if forall j :: 0 <= j < |p| ==> p[j] == j {
      forall j | 0 <= j < |s'| ensures BlockOpens(k, s', j).Some? {
        assert p[j] == j;
        SealedOpens(k, texts, s, j);
        assert j > 0 ==> p[j - 1] == j - 1;
      }
    } else {
      var j :| 0 <= j < |p| && p[j] != j;
      MisplacedIsRefused(k, texts, s, s', p[j], j);
    }
  }
}
