/** The layers put together: entries packed into a pouch, cut into fragments, carried over the
    packet link and parsed on the other side. */
module Transfer {
  import opened Bytes
  import opened Cbor
  import opened Pouch
  import Saead
  import Sar
  import SarFifo
  import SarNet

  /** The builder's input makes a pouch that can be read back. */
  predicate Carried(deviceId: seq<byte>, es: seq<Entry>, blockSize: int) {
    && ValidUtf8(deviceId) && |deviceId| <= INT64_MAX
    && AllEncodable(es) && !TooBig(es, blockSize) && TypesFit(es)
    && AllBlocksFit(BlockSection(es, blockSize))
  }

  /** Whatever packets are lost, duplicated or reordered, a blob `receive` returns for the bytes of
      a built pouch parses to the device id and the entries given to the builder. */
  lemma PouchArrives(deviceId: seq<byte>, es: seq<Entry>, blockSize: int, maxlen: nat, window: byte,
                     events: seq<SarNet.Event>)
    requires Carried(deviceId, es, blockSize) && maxlen > 2
    ensures var pouch := Build(deviceId, es, blockSize).value;
      var r := SarNet.Run(Sar.Fragments(pouch, maxlen - 2), window, SarNet.Start(window), events).r;
      r.phase.Returned? ==> ParsePouch(r.phase.blob) == Good((Plaintext(deviceId), es))
  {
    SarNet.ReturnedBlobIsTheData(Build(deviceId, es, blockSize).value, maxlen, window, events);
    PouchRoundTrip(deviceId, es, blockSize);
  }

  /** Over lossless in-order channels a pouch of at most 256 fragments does arrive: from the start
      there is a run after which the receiver has returned bytes that parse to the entries. */
  lemma PouchDelivered(deviceId: seq<byte>, es: seq<Entry>, blockSize: int, maxlen: nat, window: byte)
      returns (events: seq<SarFifo.Event>)
    requires Carried(deviceId, es, blockSize) && maxlen > 2 && 1 <= window <= 127
    requires |Build(deviceId, es, blockSize).value| <= 256 * (maxlen - 2)
    ensures var pouch := Build(deviceId, es, blockSize).value;
      var c := SarFifo.Run(Sar.Fragments(pouch, maxlen - 2), window, events);
      && c.s.phase.Sent? && c.r.phase.Returned?
      && ParsePouch(c.r.phase.blob) == Good((Plaintext(deviceId), es))
  {
    var pouch := Build(deviceId, es, blockSize).value;
    var frags := Sar.Fragments(pouch, maxlen - 2);
    Sar.FragmentCount(pouch, maxlen - 2, 256);
    events := SarFifo.Completes(frags, window, []);
    assert [] + events == events;
    PouchRoundTrip(deviceId, es, blockSize);
  }

  /** The same for an encrypted downlink pouch and a device with the mirrored keys. */
  lemma SealedPouchArrives(c: Saead.Crypto, server: seq<byte>, device: seq<byte>, info: Saead.SessionInfo,
                           es: seq<Entry>, pouchId: int, blockSize: int, maxlen: nat, window: byte,
                           events: seq<SarNet.Event>)
    requires Saead.Lawful(c) && Saead.InfoValid(info) && info.initiator == Saead.ROLE_SERVER && Valid(CInt(pouchId))
    requires AllEncodable(es) && AllFit(es) && Saead.AllSealable(Saead.Texts(BlockSection(es, blockSize)))
    requires maxlen > 2
    ensures var pouch := Saead.DownlinkPouch(c, server, c.public(device), info, es, pouchId, blockSize);
      var r := SarNet.Run(Sar.Fragments(pouch, maxlen - 2), window, SarNet.Start(window), events).r;
      r.phase.Returned? ==>
        Saead.OpenedPouch(c, device, c.public(server), Saead.ROLE_SERVER, r.phase.blob) == Good(es)
  {
    var pouch := Saead.DownlinkPouch(c, server, c.public(device), info, es, pouchId, blockSize);
    SarNet.ReturnedBlobIsTheData(pouch, maxlen, window, events);
    Saead.DownlinkRoundTrip(c, server, device, info, es, pouchId, blockSize);
  }
}
