/** What the credential store promises over whole runs: when `finalize` is all or nothing, what
    is persisted, and when the credential the application reads is the persisted one. */
module CredRuns {
  import opened Bytes
  import opened CredStoreModel

  // ----- finalize, all or nothing

  /** It succeeds, or it leaves the store as it was. */
  predicate Atomic(s: Store, saves: seq<bool>)
    requires StoreInv(s) && |saves| == 3
  {
    var (s', r) := Finalize(s, saves);
    r.Good? || s' == s
  }

  /** Saving kind `k` again would change nothing. */
  predicate AlreadySaved(s: Store, k: nat)
    requires StoreInv(s) && k < 3
  {
    var b := s.blobs[k];
    b.len == b.staged && Lookup(s.settings, k) == Some(Staged(b))
  }

  predicate AllSavesWork(s: Store, saves: seq<bool>)
    requires StoreInv(s) && |saves| == 3
  {
    forall k :: 0 <= k < 3 && Complete(s.blobs[k]) ==> saves[k]
  }

  /** `f` is the first complete kind whose save fails, and the complete kinds before it are
      persisted as staged already. */
  predicate FailsBeforeNews(s: Store, saves: seq<bool>, f: nat)
    requires StoreInv(s) && |saves| == 3 && f < 3
  {
    && Complete(s.blobs[f]) && !saves[f]
    && forall j :: 0 <= j < f && Complete(s.blobs[j]) ==> saves[j] && AlreadySaved(s, j)
  }

  lemma SameLookups(m: map<nat, seq<byte>>, m': map<nat, seq<byte>>)
    requires forall k: nat :: Lookup(m, k) == Lookup(m', k)
    ensures m == m'
  {
    assert forall k: nat :: k in m <==> Lookup(m, k).Some?;
    assert forall k: nat :: k in m' <==> Lookup(m', k).Some?;
    assert forall k: nat | k in m :: m[k] == Lookup(m, k).value == Lookup(m', k).value == m'[k];
  }

  lemma SavedNothingNew(s: Store, s': Store, stop: nat)
    requires StoreInv(s) && StoreInv(s') && stop < 3 && SavedRange(s, s', 0, stop)
    ensures s' == s <==> forall j :: 0 <= j < stop && Complete(s.blobs[j]) ==> AlreadySaved(s, j)
  {
    if forall j :: 0 <= j < stop && Complete(s.blobs[j]) ==> AlreadySaved(s, j) {
      forall k: nat ensures Lookup(s'.settings, k) == Lookup(s.settings, k) {
        assert Saved(s, 0, stop, k) ==> AlreadySaved(s, k);
      }
      SameLookups(s'.settings, s.settings);
      forall k | 0 <= k < 3 ensures s'.blobs[k] == s.blobs[k] {
        assert Saved(s, 0, stop, k) ==> AlreadySaved(s, k);
      }
      assert s'.blobs == s.blobs;
    } else {
      var j :| 0 <= j < stop && Complete(s.blobs[j]) && !AlreadySaved(s, j);
      assert Saved(s, 0, stop, j);
    }
  }

  /** `finalize` is all or nothing exactly when it refuses before saving, or every complete kind
      is saved, or nothing before the first failing save is new. */
  lemma FinalizeAtomicIff(s: Store, saves: seq<bool>)
    requires StoreInv(s) && |saves| == 3
    ensures Atomic(s, saves) <==>
      !Acceptable(s) || AllSavesWork(s, saves) || exists f :: 0 <= f < 3 && FailsBeforeNews(s, saves, f)
  {
    FinalizeExactly(s, saves);
    if Acceptable(s) {
      var stop := SaveFromSaves(s, 0, saves);
      var (s', r) := Finalize(s, saves);
      if r.Bad? {
        SavedNothingNew(s, s', stop);
        assert Atomic(s, saves) ==> FailsBeforeNews(s, saves, stop);
        assert forall f :: 0 <= f < 3 && FailsBeforeNews(s, saves, f) ==> f == stop;
      }
    }
  }

  /** A certificate and a key, each in one chunk. */
  function StageBoth(cert: seq<byte>, key: seq<byte>): seq<Event> {
    [Stages(CERT, 0, |cert|, cert), Stages(KEY, 0, |key|, key)]
  }

  predicate Bootable(cert: seq<byte>, key: seq<byte>) {
    DerSpans(cert) && |cert| <= Cap(CERT) && 0 < |key| <= Cap(KEY)
  }

  lemma RunSnoc(s: Store, es: seq<Event>, e: Event)
    requires StoreInv(s)
    ensures Run(s, es + [e]) == Step(Run(s, es), e)
  {
    assert (es + [e])[..|es|] == es;
  }

  lemma StageWhole(s: Store, kind: nat, data: seq<byte>)
    requires StoreInv(s) && kind < 3 && 0 < |data| <= Cap(kind)
    ensures var s' := Step(s, Stages(kind, 0, |data|, data));
      && Complete(s'.blobs[kind]) && Staged(s'.blobs[kind]) == data && s'.settings == s.settings
      && s'.blobs[kind].len == s.blobs[kind].len
      && forall k :: 0 <= k < 3 && k != kind ==> s'.blobs[k] == s.blobs[k]
  {
  }

  lemma StagedBoth(s: Store, cert: seq<byte>, key: seq<byte>)
    requires StoreInv(s) && Bootable(cert, key)
    ensures var s' := Run(s, StageBoth(cert, key));
      && Acceptable(s') && Staged(s'.blobs[CERT]) == cert && Staged(s'.blobs[KEY]) == key
      && s'.settings == s.settings && s'.blobs[CA] == s.blobs[CA]
  {
    var e1, e2 := Stages(CERT, 0, |cert|, cert), Stages(KEY, 0, |key|, key);
    RunSnoc(s, [], e1);
    RunSnoc(s, [e1], e2);
    assert [] + [e1] == [e1] && [e1] + [e2] == StageBoth(cert, key);
    StageWhole(s, CERT, cert);
    StageWhole(Run(s, [e1]), KEY, key);
  }

  const KEY_FAILS: seq<bool> := [true, false, true]
  const ALL_WORK: seq<bool> := [true, true, true]

  /** From any store with no certificate persisted: stage both, and let the key's save fail; the
      certificate is then persisted and the key is not. */
  lemma FinalizeSavesHalf(s: Store, cert: seq<byte>, key: seq<byte>)
    requires StoreInv(s) && Fresh(s) && CERT !in s.settings && KEY !in s.settings && Bootable(cert, key)
    ensures !Atomic(Run(s, StageBoth(cert, key)), KEY_FAILS)
    ensures var s' := Run(s, StageBoth(cert, key) + [Finalizes(KEY_FAILS)]);
      Lookup(s'.settings, CERT) == Some(cert) && Lookup(s'.settings, KEY) == None
  {
    StagedBoth(s, cert, key);
    RunSnoc(s, StageBoth(cert, key), Finalizes(KEY_FAILS));
    var w := Run(s, StageBoth(cert, key));
    var stop := SaveFromSaves(w, 0, KEY_FAILS);
    var w' := Finalize(w, KEY_FAILS).0;
    assert Saved(w, 0, stop, CERT) && !Saved(w, 0, stop, KEY);
  }

  function EmptyBlob(cap: nat): Blob { Blob(seq(cap, _ => 0), 0, 0, 0) }

  const EMPTY := Store([EmptyBlob(2048), EmptyBlob(512), EmptyBlob(2048)], map[])

  /** The run exists. */
  lemma FinalizeIsNotAtomic()
    ensures exists s, es :: StoreInv(s) && Fresh(s) && !Atomic(Run(s, es), KEY_FAILS)
  {
    var cert: seq<byte> := [0x30, 2, 0, 0];
    FinalizeSavesHalf(EMPTY, cert, [1]);
    assert !Atomic(Run(EMPTY, StageBoth(cert, [1])), KEY_FAILS);
  }

  // ----- what is persisted

  /** `e`, met in state `s`, persists kind `kind`. */
  predicate SavesKind(s: Store, e: Event, kind: nat)
    requires StoreInv(s) && kind < 3
  {
    && e.Finalizes? && |e.saves| == 3 && Acceptable(s) && Complete(s.blobs[kind])
    && forall j :: 0 <= j <= kind && Complete(s.blobs[j]) ==> e.saves[j]
  }

  /** What is persisted for a kind, and its length, change only by a finalize that saves the kind
      and by a delete. */
  lemma PersistedStep(s: Store, e: Event, kind: nat)
    requires StoreInv(s) && kind < 3
    ensures var s' := Step(s, e); var b, b' := s.blobs[kind], s'.blobs[kind];
      if SavesKind(s, e, kind) then Lookup(s'.settings, kind) == Some(Staged(b)) && b'.len == b.staged
      else if e.Deletes? then Lookup(s'.settings, kind) == None && b'.len == 0
      else Lookup(s'.settings, kind) == Lookup(s.settings, kind) && b'.len == b.len
  {
    if e.Finalizes? && |e.saves| == 3 && Acceptable(s) {
      var stop := SaveFromSaves(s, 0, e.saves);
      assert Saved(s, 0, stop, kind) <==> SavesKind(s, e, kind);
    }
  }

  /** The bytes the last saving finalize found staged, by the chunks accepted before it; `None`
      after a delete; what was there at the start before either. */
  function LastSaved(s: Store, es: seq<Event>, kind: nat): Option<seq<byte>>
    requires StoreInv(s) && kind < 3
  {
    if es == [] then Lookup(s.settings, kind) else
    var before, e := es[..|es| - 1], es[|es| - 1];
    if SavesKind(Run(s, before), e, kind) then Some(IntakeOf(kind, before).bytes)
    else if e.Deletes? then None
    else LastSaved(s, before, kind)
  }

  function Length(p: Option<seq<byte>>): nat { if p.Some? then |p.value| else 0 }

  /** A booted store: what is persisted for the kind is in its buffer. */
  predicate Loaded(s: Store, kind: nat)
    requires StoreInv(s) && kind < 3
  {
    var p, b := Lookup(s.settings, kind), s.blobs[kind];
    b.len == Length(p) && (p.Some? ==> b.buf[..b.len] == p.value)
  }

  /** After any run from boot, what is persisted for a kind is what the last saving finalize found,
      whatever was staged since. */
  lemma {:induction false} PersistedIsLastSaved(s: Store, es: seq<Event>, kind: nat)
    requires StoreInv(s) && Fresh(s) && kind < 3 && Loaded(s, kind)
    ensures var s' := Run(s, es); var p := LastSaved(s, es, kind);
      Lookup(s'.settings, kind) == p && s'.blobs[kind].len == Length(p)
  {
    if es != [] {
      var m := |es| - 1;
      PersistedIsLastSaved(s, es[..m], kind);
      StagedIsWhatWasAccepted(s, es[..m], kind);
      PersistedStep(Run(s, es[..m]), es[m], kind);
    }
  }

  // ----- what the application reads

  predicate Accepts(b: Blob, e: Event)
    requires BlobInv(b)
  {
    e.Stages? && StageBlob(b, e.offset, e.total, e.data).1.Good?
  }

  /** The byte the last accepted chunk wrote at `i` since the kind was last saved or deleted. */
  function LastWrite(s: Store, es: seq<Event>, kind: nat, i: nat): Option<byte>
    requires StoreInv(s) && kind < 3
  {
    if es == [] then None else
    var before, e := es[..|es| - 1], es[|es| - 1];
    if e.Deletes? || SavesKind(Run(s, before), e, kind) then None
    else if e.Stages? && e.kind == kind && Accepts(Run(s, before).blobs[kind], e)
            && e.offset <= i < e.offset + |e.data| then Some(e.data[i - e.offset])
    else LastWrite(s, before, kind, i)
  }

  lemma RefusedKeepsBuffer(b: Blob, e: Event)
    requires BlobInv(b) && e.Stages? && !Accepts(b, e)
    ensures StageBlob(b, e.offset, e.total, e.data).0.buf == b.buf
  {
  }

  lemma StepKeepsBuffer(s: Store, e: Event, kind: nat)
    requires StoreInv(s) && kind < 3 && !(e.Stages? && e.kind == kind)
    ensures Step(s, e).blobs[kind].buf == s.blobs[kind].buf
  {
    if e.Finalizes? && |e.saves| == 3 && Acceptable(s) {
      SaveKeepsStaging(s, 0, e.saves, kind);
    }
  }

  /** The byte at `i` after one more event. */
  lemma ByteStep(s: Store, e: Event, kind: nat, i: nat)
    requires StoreInv(s) && kind < 3 && i < Cap(kind)
    ensures Step(s, e).blobs[kind].buf[i]
      == if e.Stages? && e.kind == kind && Accepts(s.blobs[kind], e) && e.offset <= i < e.offset + |e.data|
         then e.data[i - e.offset] else s.blobs[kind].buf[i]
  {
    if e.Stages? && e.kind == kind {
      if Accepts(s.blobs[kind], e) {
        StagedByte(s.blobs[kind], e.offset, e.total, e.data, i);
      } else {
        RefusedKeepsBuffer(s.blobs[kind], e);
      }
    } else {
      StepKeepsBuffer(s, e, kind);
    }
  }

  /** Within the persisted length a buffer holds the persisted bytes, overwritten by the chunks
      accepted since. */
  lemma {:induction false} BufferIs(s: Store, es: seq<Event>, kind: nat, i: nat)
    requires StoreInv(s) && Fresh(s) && kind < 3 && Loaded(s, kind) && i < Length(LastSaved(s, es, kind))
    ensures i < Cap(kind)
    ensures Run(s, es).blobs[kind].buf[i]
      == if LastWrite(s, es, kind, i).Some? then LastWrite(s, es, kind, i).value else LastSaved(s, es, kind).value[i]
  {
    PersistedIsLastSaved(s, es, kind);
    if es == [] {
      assert s.blobs[kind].buf[i] == s.blobs[kind].buf[..s.blobs[kind].len][i];
    } else {
      var before, e := es[..|es| - 1], es[|es| - 1];
      ByteStep(Run(s, before), e, kind, i);
      if SavesKind(Run(s, before), e, kind) {
        SavedByte(s, before, kind, i);
      } else {
        BufferIs(s, before, kind, i);
      }
    }
  }

  lemma SavedByte(s: Store, es: seq<Event>, kind: nat, i: nat)
    requires StoreInv(s) && Fresh(s) && kind < 3 && i < |IntakeOf(kind, es).bytes|
    ensures var b := Run(s, es).blobs[kind]; i < |b.buf| && b.buf[i] == IntakeOf(kind, es).bytes[i]
  {
    StagedIsWhatWasAccepted(s, es, kind);
    var b := Run(s, es).blobs[kind];
    assert b.buf[..b.staged][i] == b.buf[i];
  }

  /** After any run from boot the application reads the persisted credential exactly when every
      chunk accepted since the last save wrote, within its length, the bytes persisted. */
  lemma InSyncIff(s: Store, es: seq<Event>, kind: nat)
    requires StoreInv(s) && Fresh(s) && kind < 3 && Loaded(s, kind)
    ensures var p := LastSaved(s, es, kind);
      InSync(Run(s, es), kind) <==>
      forall i :: 0 <= i < Length(p) && LastWrite(s, es, kind, i).Some? ==>
        LastWrite(s, es, kind, i).value == p.value[i]
  {
    var p, b := LastSaved(s, es, kind), Run(s, es).blobs[kind];
    PersistedIsLastSaved(s, es, kind);
    forall i | 0 <= i < Length(p)
      ensures b.buf[i] == if LastWrite(s, es, kind, i).Some? then LastWrite(s, es, kind, i).value else p.value[i]
    {
      BufferIs(s, es, kind, i);
    }
    assert forall i :: 0 <= i < b.len ==> b.buf[..b.len][i] == b.buf[i];
    if p.Some? && forall i :: 0 <= i < Length(p) ==> b.buf[i] == p.value[i] {
      assert b.buf[..b.len] == p.value;
    }
  }

  function Replaced(cert: seq<byte>, key: seq<byte>, x: byte): seq<Event> {
    StageBoth(cert, key) + [Finalizes(ALL_WORK)] + [Stages(KEY, 0, 1, [x])]
  }

  lemma Finalized(s: Store, cert: seq<byte>, key: seq<byte>)
    requires StoreInv(s) && Bootable(cert, key)
    ensures var s' := Run(s, StageBoth(cert, key) + [Finalizes(ALL_WORK)]);
      Lookup(s'.settings, KEY) == Some(key) && s'.blobs[KEY].len == |key| && s'.blobs[KEY].buf[..|key|] == key
  {
    StagedBoth(s, cert, key);
    RunSnoc(s, StageBoth(cert, key), Finalizes(ALL_WORK));
    var w := Run(s, StageBoth(cert, key));
    PersistedStep(w, Finalizes(ALL_WORK), KEY);
    StepKeepsBuffer(w, Finalizes(ALL_WORK), KEY);
  }

  /** Stage and finalize a certificate and a key, then stage one byte that differs from the key's
      first: the application reads a key that is not the persisted one. */
  lemma StagingBreaksSync(s: Store, cert: seq<byte>, key: seq<byte>, x: byte)
    requires StoreInv(s) && Fresh(s) && Bootable(cert, key) && x != key[0]
    ensures var s' := Run(s, Replaced(cert, key, x));
      Lookup(s'.settings, KEY) == Some(key) && s'.blobs[KEY].len == |key| && !InSync(s', KEY)
  {
    var es, e := StageBoth(cert, key) + [Finalizes(ALL_WORK)], Stages(KEY, 0, 1, [x]);
    Finalized(s, cert, key);
    RunSnoc(s, es, e);
    PersistedStep(Run(s, es), e, KEY);
    ByteStep(Run(s, es), e, KEY, 0);
    var b := Run(s, Replaced(cert, key, x)).blobs[KEY];
    assert b.buf[..b.len][0] == x;
  }

  // ----- what each chunk is answered

  /** A chunk is taken if it starts the transfer or continues where it stands, and stays within the total
      then in force; the answer is the number of bytes then held. Only a total over the kind's capacity, 512
      bytes for a key and 2048 otherwise, is too large. */
  lemma StageAnswers(s: Store, kind: int, offset: nat, total: nat, data: seq<byte>)
    requires StoreInv(s)
    ensures var r := Stage(s, kind, offset, total, data).1;
      if kind != 0 && kind != 1 && kind != 2 then r == Bad(InvalidArg)
      else if total > (if kind == 1 then 512 else 2048) then r == Bad(MessageSize)
      else if offset == 0 then r == if |data| <= total then Good(|data|) else Bad(InvalidArg)
      else
        var b := s.blobs[kind];
        r == if offset == b.staged && offset + |data| <= b.expected then Good(offset + |data|) else Bad(InvalidArg)
  {
  }

  // ----- what finalize needs, in terms of the chunks accepted

  /** All announced bytes have come, and there were some. */
  predicate Arrived(i: Intake) { i.bytes != [] && |i.bytes| == i.expected }

  lemma {:induction false} CompleteIsArrived(s: Store, es: seq<Event>, kind: nat)
    requires StoreInv(s) && Fresh(s) && kind < 3
    ensures var b := Run(s, es).blobs[kind]; var i := IntakeOf(kind, es);
      Staged(b) == i.bytes && (Complete(b) <==> Arrived(i))
  {
    StagedIsWhatWasAccepted(s, es, kind);
  }

  /** After any run, with a backend that takes everything, `finalize` succeeds exactly when certificate and
      key have arrived whole and the certificate's outer length spans it; then every kind that has arrived is
      persisted as it came, and any other stays as it was. */
  lemma {:induction false} FinalizePersistsWhatArrived(s: Store, es: seq<Event>)
    requires StoreInv(s) && Fresh(s)
    ensures var w := Run(s, es); var (w', r) := Finalize(w, ALL_WORK);
      var cert, key := IntakeOf(0, es), IntakeOf(1, es);
      && (r.Good? <==> Arrived(cert) && Arrived(key) && DerSpans(cert.bytes))
      && (r.Good? ==>
            forall k: nat :: Lookup(w'.settings, k)
              == if k < 3 && Arrived(IntakeOf(k, es)) then Some(IntakeOf(k, es).bytes) else Lookup(w.settings, k))
      && (r.Bad? ==> w' == w)
  {
    var w := Run(s, es);
    FinalizeExactly(w, ALL_WORK);
    CompleteIsArrived(s, es, 0);
    CompleteIsArrived(s, es, 1);
    CompleteIsArrived(s, es, 2);
    var (w', r) := Finalize(w, ALL_WORK);
    if r.Good? {
      forall k: nat
        ensures Lookup(w'.settings, k)
          == if k < 3 && Arrived(IntakeOf(k, es)) then Some(IntakeOf(k, es).bytes) else Lookup(w.settings, k)
      {
        assert k < 3 ==> k == 0 || k == 1 || k == 2;
        assert Saved(w, 0, 3, k) <==> k < 3 && Arrived(IntakeOf(k, es));
      }
    }
  }
}
