/** What the decryption loop accepts: exactly re-sealed chains, cut only between blocks. */
module SaeadAccepts {
  import opened Bytes
  import opened Cbor
  import opened Pouch
  import opened Saead
  import opened SaeadText

  /** Nothing opens but what sealing makes, as for both algorithms the source uses. */
  ghost predicate TidyCrypto(c: Crypto) {
    forall alg, key, nonce, sealed, aad ::
      c.open(alg, key, nonce, sealed, aad).Some? ==>
        sealed == c.seal(alg, key, nonce, c.open(alg, key, nonce, sealed, aad).value, aad)
  }

  /** The size of a block is written in the one way that reads as it. */
  ghost predicate SizesTidy(ch: Cipher) {
    forall hi: byte, lo: byte :: ch.size(FromBe16(hi, lo)) == [hi, lo]
  }

  ghost predicate Tidy(ch: Cipher) {
    SizesTidy(ch) &&
    forall index, sealed, aad ::
      ch.open(index, sealed, aad).Some? ==> sealed == ch.seal(index, ch.open(index, sealed, aad).value, aad)
  }

  lemma ChannelTidy(c: Crypto, key: seq<byte>, algorithm: int, role: int, pouchId: int)
    requires TidyCrypto(c)
    ensures Tidy(Channel(c, key, algorithm, role, pouchId))
  {
    var ch := Channel(c, key, algorithm, role, pouchId);
    forall index: nat, sealed, aad | ch.open(index, sealed, aad).Some?
      ensures sealed == ch.seal(index, ch.open(index, sealed, aad).value, aad)
    {
      assert ch.open(index, sealed, aad) == c.open(algorithm, key, Nonce(pouchId, index, role), sealed, aad);
    }
    forall hi: byte, lo: byte ensures ch.size(FromBe16(hi, lo)) == [hi, lo] {
      FromBe16RoundTrip(hi, lo);
    }
  }

  lemma OpenedReseals(ch: Cipher, index: nat, prevTag: seq<byte>, sealed: seq<byte>)
    requires Tidy(ch) && OpenBlock(ch, index, prevTag, sealed).Good?
    ensures SealBlock(ch, index, prevTag, OpenBlock(ch, index, prevTag, sealed).value) == sealed
  {
  }

  lemma SealedAtReads(ch: Cipher, data: seq<byte>, pos: nat)
    requires SizesTidy(ch) && pos <= |data| && SealedAt(data, pos).Good?
    ensures var (sealed, end) := SealedAt(data, pos).value; data[pos..end] == ch.size(|sealed|) + sealed
  {
    var (sealed, end) := SealedAt(data, pos).value;
    assert ch.size(FromBe16(data[pos], data[pos + 1])) == [data[pos], data[pos + 1]];
    assert data[pos..end] == [data[pos], data[pos + 1]] + data[pos + 2..end];
  }

  lemma OpenAtReseals(ch: Cipher, data: seq<byte>, pos: nat, index: nat, prevTag: seq<byte>)
    requires Tidy(ch) && pos <= |data| && OpenAt(ch, data, pos, index, prevTag).Good?
    ensures var o := OpenAt(ch, data, pos, index, prevTag).value;
      var sealed := SealBlock(ch, index, prevTag, o.text);
      o.tag == Tag(sealed) && data[pos..o.end] == ch.size(|sealed|) + sealed
  {
    SealedAtReads(ch, data, pos);
    OpenedReseals(ch, index, prevTag, SealedAt(data, pos).value.0);
  }

  /** The converse of opening a chain: whatever bytes the loop accepts, the texts it returns seal,
      each under its own index and its predecessor's tag, to exactly those bytes. */
  lemma {:induction false} UnchainReseals(ch: Cipher, data: seq<byte>, pos: nat, index: nat, prevTag: seq<byte>,
                                          acc: seq<seq<byte>>)
    requires Tidy(ch) && pos <= |data|
    ensures var r := Unchain(ch, data, pos, index, prevTag, acc);
      r.Good? ==>
        && |acc| <= |r.value| && r.value[..|acc|] == acc
        && Chain(ch, index, prevTag, r.value[|acc|..]) == data[pos..]
    decreases |data| - pos
  {
    var r := Unchain(ch, data, pos, index, prevTag, acc);
    if r.Good? && pos < |data| {
      var o := OpenAt(ch, data, pos, index, prevTag).value;
      UnchainStep(ch, data, pos, index, prevTag, acc);
      UnchainReseals(ch, data, o.end, index + 1, o.tag, acc + [o.text]);
      FirstOfRest(r.value, acc, o.text);
      ResealsOne(ch, data, pos, index, prevTag, r.value[|acc| + 1..]);
    }
  }

  lemma ResealsOne(ch: Cipher, data: seq<byte>, pos: nat, index: nat, prevTag: seq<byte>, rest: seq<seq<byte>>)
    requires Tidy(ch) && pos <= |data| && OpenAt(ch, data, pos, index, prevTag).Good?
    requires var o := OpenAt(ch, data, pos, index, prevTag).value; Chain(ch, index + 1, o.tag, rest) == data[o.end..]
    ensures Chain(ch, index, prevTag, [OpenAt(ch, data, pos, index, prevTag).value.text] + rest) == data[pos..]
  {
    var o := OpenAt(ch, data, pos, index, prevTag).value;
    OpenAtReseals(ch, data, pos, index, prevTag);
    ChainCons(ch, index, prevTag, o.text, rest);
    assert data[pos..] == data[pos..o.end] + data[o.end..];
  }

  lemma ChainCons(ch: Cipher, index: nat, prevTag: seq<byte>, text: seq<byte>, rest: seq<seq<byte>>)
    ensures var sealed := SealBlock(ch, index, prevTag, text);
      Chain(ch, index, prevTag, [text] + rest)
      == (ch.size(|sealed|) + sealed) + Chain(ch, index + 1, Tag(sealed), rest)
  {
    assert ([text] + rest)[1..] == rest;
  }

  lemma FirstOfRest(all: seq<seq<byte>>, acc: seq<seq<byte>>, x: seq<byte>)
    requires |acc| < |all| && all[..|acc| + 1] == acc + [x]
    ensures all[..|acc|] == acc && all[|acc|..] == [x] + all[|acc| + 1..]
  {
    assert all[..|acc|] == all[..|acc| + 1][..|acc|];
    assert all[|acc|] == all[..|acc| + 1][|acc|];
  }

  /** Two byte strings the loop opens to the same texts are the same. */
  lemma OpensOnce(ch: Cipher, data: seq<byte>, data': seq<byte>)
    requires Tidy(ch)
    requires Unchain(ch, data, 0, 0, [], []).Good?
    requires Unchain(ch, data, 0, 0, [], []) == Unchain(ch, data', 0, 0, [], [])
    ensures data == data'
  {
    UnchainReseals(ch, data, 0, 0, [], []);
    UnchainReseals(ch, data', 0, 0, [], []);
    assert data[0..] == data && data'[0..] == data';
  }

  /** For a whole uplink pouch: whatever the server accepts is the header it read and then the chain
      of the texts it read, sealed under the key and pouch id the header names. */
  lemma AcceptedPouchReseals(c: Crypto, ours: seq<byte>, peer: seq<byte>, role: int, data: seq<byte>)
      returns (consumed: nat, ch: Cipher, texts: seq<seq<byte>>)
    requires TidyCrypto(c) && OpenedPouch(c, ours, peer, role, data).Good?
    ensures consumed <= |data| && DecodeHeader(data).Good? && consumed == DecodeHeader(data).value.1
    ensures var h := DecodeHeader(data).value.0;
      && ReceivedInfo(h, role).Good?
      && var info := ReceivedInfo(h, role).value;
         ch == Channel(c, SessionKey(c, ours, peer, info), info.algorithm, role, h.pouchId)
    ensures data[consumed..] == Chain(ch, 0, [], texts) && OpenedPouch(c, ours, peer, role, data) == ParseTexts(texts)
  {
    var (h, n) := DecodeHeader(data).value;
    var info := ReceivedInfo(h, role).value;
    consumed := n;
    ch := Channel(c, SessionKey(c, ours, peer, info), info.algorithm, role, h.pouchId);
    texts := Unchain(ch, data, n, 0, [], []).value;
    ChannelTidy(c, SessionKey(c, ours, peer, info), info.algorithm, role, h.pouchId);
    UnchainReseals(ch, data, n, 0, [], []);
    assert texts[0..] == texts;
  }

  // ----- truncation

  /** The first `n` bytes of the chain end between two blocks, or are none or all. */
  predicate Boundary(ch: Cipher, index: nat, prevTag: seq<byte>, texts: seq<seq<byte>>, n: int)
    decreases |texts|
  {
    n == 0 ||
    (texts != [] &&
     var sealed := SealBlock(ch, index, prevTag, texts[0]);
     n >= 2 + |sealed| && Boundary(ch, index + 1, Tag(sealed), texts[1..], n - 2 - |sealed|))
  }

  /** The end of the block at `pos`, and its tag. */
  function BlockEnd(ch: Cipher, pos: nat, index: nat, prevTag: seq<byte>, text: seq<byte>): (nat, seq<byte>) {
    var sealed := SealBlock(ch, index, prevTag, text);
    (pos + 2 + |sealed|, Tag(sealed))
  }

  lemma BoundaryStep(ch: Cipher, pos: nat, index: nat, prevTag: seq<byte>, texts: seq<seq<byte>>, stop: nat)
    requires texts != [] && pos < stop
    ensures var (end, tag) := BlockEnd(ch, pos, index, prevTag, texts[0]);
      Boundary(ch, index, prevTag, texts, stop - pos) <==>
      end <= stop && Boundary(ch, index + 1, tag, texts[1..], stop - end)
  {
  }

  /** A block cut off before its end is refused. */
  lemma CutInside(data: seq<byte>, pos: nat, size: seq<byte>, sealed: seq<byte>, n: nat)
    requires |size| == 2 && FromBe16(size[0], size[1]) == |sealed| && At(data, pos, size + sealed)
    requires pos <= n < pos + 2 + |sealed|
    ensures SealedAt(data[..n], pos).Bad?
  {
    if n - pos >= 2 {
      AtSplit(data, pos, size, sealed);
      PairAt(data, pos, size);
    }
  }

  lemma AtInFront(data: seq<byte>, pos: nat, part: seq<byte>, n: nat)
    requires At(data, pos, part) && pos + |part| <= n <= |data|
    ensures At(data[..n], pos, part)
  {
    assert data[..n][pos..pos + |part|] == data[pos..pos + |part|];
  }

  /** One turn of the loop on the first `n` bytes of the data. */
  lemma CutFirst(ch: Cipher, data: seq<byte>, n: nat, pos: nat, index: nat, prevTag: seq<byte>,
                 texts: seq<seq<byte>>, acc: seq<seq<byte>>)
    requires Opens(ch) && texts != [] && pos < n <= |data| && ChainEnds(ch, data, pos, index, prevTag, texts)
    ensures var (end, tag) := BlockEnd(ch, pos, index, prevTag, texts[0]);
      && ChainEnds(ch, data, end, index + 1, tag, texts[1..])
      && if n < end then Unchain(ch, data[..n], pos, index, prevTag, acc).Bad?
         else Unchain(ch, data[..n], pos, index, prevTag, acc)
              == Unchain(ch, data[..n], end, index + 1, tag, acc + [texts[0]])
  {
    var end, tag := ChainFirst(ch, data, pos, index, prevTag, texts);
    var sealed := SealBlock(ch, index, prevTag, texts[0]);
    OpenSeal(ch, index, prevTag, texts[0]);
    if n < end {
      CutInside(data, pos, ch.size(|sealed|), sealed, n);
    } else {
      AtInFront(data, pos, ch.size(|sealed|) + sealed, n);
      OpenFramed(ch, data[..n], pos, index, prevTag, texts[0]);
      UnchainStep(ch, data[..n], pos, index, prevTag, acc);
    }
  }

  /** The first `n` bytes of data that ends in a chain are accepted exactly when they end between
      two blocks: a cut inside a block is refused, and a cut of whole trailing blocks is not,
      because LAST is not looked at. */
  lemma {:induction false} CutAcceptedIff(ch: Cipher, data: seq<byte>, n: nat, pos: nat, index: nat,
                                          prevTag: seq<byte>, texts: seq<seq<byte>>, acc: seq<seq<byte>>)
    requires Opens(ch) && pos <= n <= |data| && ChainEnds(ch, data, pos, index, prevTag, texts)
    ensures Unchain(ch, data[..n], pos, index, prevTag, acc).Good? <==> Boundary(ch, index, prevTag, texts, n - pos)
    decreases |texts|
  {
    if pos < n {
      CutFirst(ch, data, n, pos, index, prevTag, texts, acc);
      BoundaryStep(ch, pos, index, prevTag, texts, n);
      var (end, tag) := BlockEnd(ch, pos, index, prevTag, texts[0]);
      if end <= n {
        CutAcceptedIff(ch, data, n, end, index + 1, tag, texts[1..], acc + [texts[0]]);
      }
    }
  }

  lemma {:induction false} ChainFront(ch: Cipher, index: nat, prevTag: seq<byte>, texts: seq<seq<byte>>, k: nat)
    requires k <= |texts|
    ensures Chain(ch, index, prevTag, texts[..k]) <= Chain(ch, index, prevTag, texts)
    decreases k
  {
    if k > 0 {
      var sealed := SealBlock(ch, index, prevTag, texts[0]);
      assert texts[..k][1..] == texts[1..][..k - 1];
      ChainFront(ch, index + 1, Tag(sealed), texts[1..], k - 1);
    }
  }

  /** A sealed pouch without its last blocks is the front of the whole one, and the peer reads the
      entries of the blocks that are left. */
  lemma CutPouchOpens(c: Crypto, a: seq<byte>, b: seq<byte>, info: SessionInfo, pouchId: int, bs: seq<Block>, k: nat)
    requires Lawful(c) && InfoValid(info) && Valid(CInt(pouchId)) && AllSealable(Texts(bs)) && k <= |bs|
    ensures var whole := SealedPouch(c, a, c.public(b), info, info.initiator, pouchId, bs);
      var cut := SealedPouch(c, a, c.public(b), info, info.initiator, pouchId, bs[..k]);
      cut <= whole && OpenedPouch(c, b, c.public(a), info.initiator, cut) == ParseTexts(Texts(bs[..k]))
  {
    assert Texts(bs[..k]) == Texts(bs)[..k];
    var ch := Channel(c, SessionKey(c, a, c.public(b), info), info.algorithm, info.initiator, pouchId);
    ChainFront(ch, 0, [], Texts(bs), k);
    OpenedSealed(c, a, b, info, pouchId, bs[..k]);
  }
}
