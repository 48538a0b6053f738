/** The device's credential store: chunks staged into one RAM buffer per kind, checked and
    persisted by `finalize`. */
module CredStoreModel {
  import opened Bytes

  const CERT := 0
  const KEY := 1
  const CA := 2

  function Cap(kind: nat): nat
    requires kind < 3
  {
    if kind == KEY then 512 else 2048
  }

  datatype CredError = InvalidArg | MessageSize | BadMessage | IoError

  // ----- the outer DER length of a certificate

  /** A SEQUENCE whose definite length, of at most four length octets, spans the bytes exactly
      (section 8.1.3 of X.690); at least four bytes. */
  predicate DerSpans(b: seq<byte>) {
    && |b| >= 4 && b[0] == 0x30
    && if b[1] < 0x80 then b[1] as int + 2 == |b|
       else
         var n := b[1] as int - 0x80;
         1 <= n <= 4 && 2 + n <= |b| && FromBE(b[2..2 + n]) + 2 + n == |b|
  }

  const TWO32: nat := 0x1_0000_0000

  /** `der_sequence_len_ok`, with `size_t` arithmetic modulo 2^32. */
  method DerSequenceLenOk(buf: array<byte>, len: nat) returns (ok: bool)
    requires len <= buf.Length && len < TWO32
    ensures ok == DerSpans(buf[..len])
  {
    if len < 4 || buf[0] != 0x30 {
      return false;
    }
    var lb := buf[1];
    if lb < 0x80 {
      return (lb as int + 2) % TWO32 == len;
    }
    var nbytes := lb as int - 0x80;
    if nbytes == 0 || nbytes > 4 || len < 2 + nbytes {
      return false;
    }
    var content := 0;
    var i := 0;
    while i < nbytes
      invariant 0 <= i <= nbytes
      invariant content == FromBE(buf[2..2 + i]) < Pow256(i)
    {
      Pow256Values();
      PowBelow(i);
      assert buf[2..2 + i + 1][..i] == buf[2..2 + i];
      content := (content * 256 + buf[2 + i] as int) % TWO32;
      i := i + 1;
    }
    Pow256Values();
    PowBelow(nbytes - 1);
    NoWrap(content, nbytes, len);
    assert buf[..len][2..2 + nbytes] == buf[2..2 + nbytes];
    ok := (content + 2 + nbytes) % TWO32 == len;
  }

  lemma PowBelow(i: nat)
    requires i < 4
    ensures 256 * Pow256(i) == Pow256(i + 1) <= TWO32
  {
    Pow256Values();
    assert Pow256(3) == 0x100_0000;
  }

  /** Wrap-around cannot make a wrong length match: the sum would have to exceed 32 bits with
      the excess still covering the header. */
  lemma NoWrap(content: nat, nbytes: nat, len: nat)
    requires content < TWO32 && nbytes <= 4 && 2 + nbytes <= len < TWO32
    ensures (content + 2 + nbytes) % TWO32 == len <==> content + 2 + nbytes == len
  {
  }

  /** A truncated or extended certificate is rejected: of all prefixes only the whole passes. */
  lemma DerSpansOnlyWhole(b: seq<byte>, p: seq<byte>)
    requires DerSpans(b) && DerSpans(p) && (p <= b || b <= p)
    ensures p == b
  {
    var s, l := if p <= b then p else b, if p <= b then b else p;
    assert s[0] == l[0] && s[1] == l[1];
    if b[1] >= 0x80 {
      var n := b[1] as int - 0x80;
      SliceOfPrefix(s, l, 2, 2 + n);
    }
  }

  lemma SliceOfPrefix(s: seq<byte>, l: seq<byte>, i: nat, j: nat)
    requires s <= l && i <= j <= |s|
    ensures s[i..j] == l[i..j]
  {
    assert s == l[..|s|];
  }

  function LengthOctets(n: nat): seq<byte>
    requires n < TWO32
  {
    if n < 0x80 then [n]
    else if n < 0x100 then [0x81] + ToBE(1, n)
    else if n < 0x1_0000 then [0x82] + ToBE(2, n)
    else if n < 0x100_0000 then [0x83] + ToBE(3, n)
    else [0x84] + ToBE(4, n)
  }

  lemma LongLength(n: nat)
    requires 0x80 <= n < TWO32
    ensures var lo := LengthOctets(n); var k := |lo| - 1;
      1 <= k <= 4 && lo[0] == 0x80 + k && FromBE(lo[1..]) == n
  {
    Pow256Values();
    PowBelow(2);
    if n < 0x100 {
      LongForm(1, n);
    } else if n < 0x1_0000 {
      LongForm(2, n);
    } else if n < 0x100_0000 {
      LongForm(3, n);
    } else {
      LongForm(4, n);
    }
  }

  lemma LongForm(k: nat, n: nat)
    requires 1 <= k <= 4 && n < Pow256(k)
    ensures var lo := [0x80 + k] + ToBE(k, n); |lo| == k + 1 && lo[0] == 0x80 + k && FromBE(lo[1..]) == n
  {
    var lo := [0x80 + k] + ToBE(k, n);
    assert lo[1..] == ToBE(k, n);
    FromToBEExact(k, n);
  }

  lemma LongFormSpans(lo: seq<byte>, content: seq<byte>)
    requires 2 <= |lo| <= 5 && lo[0] == 0x80 + |lo| - 1 && FromBE(lo[1..]) == |content| >= 0x80
    ensures DerSpans([0x30] + lo + content)
  {
    var b := [0x30] + lo + content;
    assert b[1] == lo[0] && b[2..1 + |lo|] == lo[1..];
  }

  /** Every SEQUENCE in distinguished encoding with at least two content bytes is accepted. */
  lemma DerEncodingSpans(content: seq<byte>)
    requires |content| < TWO32
    ensures DerSpans([0x30] + LengthOctets(|content|) + content) <==> |content| >= 2
  {
    if |content| >= 0x80 {
      LongLength(|content|);
      LongFormSpans(LengthOctets(|content|), content);
    } else {
      assert ([0x30] + [|content|] + content)[1] == |content|;
    }
  }

  // ----- values

  /** `buf` is the whole buffer; `len` the persisted length. */
  datatype Blob = Blob(buf: seq<byte>, len: nat, staged: nat, expected: nat)

  predicate BlobInv(b: Blob) { b.staged <= b.expected <= |b.buf| && b.len <= |b.buf| }

  predicate Complete(b: Blob) { b.staged != 0 && b.staged == b.expected }

  function Staged(b: Blob): seq<byte>
    requires BlobInv(b)
  {
    b.buf[..b.staged]
  }

  /** A first chunk restarts the transfer even if it is then refused. */
  function Restart(b: Blob, offset: nat, total: nat): Blob {
    if offset == 0 then b.(staged := 0, expected := total) else b
  }

  function StageBlob(b: Blob, offset: nat, total: nat, data: seq<byte>): (Blob, Outcome<nat, CredError>)
    requires BlobInv(b)
  {
    if total > |b.buf| then (b, Bad(MessageSize)) else
    var b := Restart(b, offset, total);
    if offset != b.staged || b.staged + |data| > b.expected then (b, Bad(InvalidArg))
    else
      var end := b.staged + |data|;
      (b.(buf := b.buf[..b.staged] + data + b.buf[end..], staged := end), Good(end))
  }

  datatype Store = Store(blobs: seq<Blob>, settings: map<nat, seq<byte>>)

  predicate StoreInv(s: Store) {
    |s.blobs| == 3 && forall k :: 0 <= k < 3 ==> BlobInv(s.blobs[k]) && |s.blobs[k].buf| == Cap(k)
  }

  function Stage(s: Store, kind: int, offset: nat, total: nat, data: seq<byte>): (r: (Store, Outcome<nat, CredError>))
    requires StoreInv(s)
    ensures StoreInv(r.0) && r.0.settings == s.settings
  {
    if !(0 <= kind < 3) then (s, Bad(InvalidArg)) else
    var (b, r) := StageBlob(s.blobs[kind], offset, total, data);
    (s.(blobs := s.blobs[kind := b]), r)
  }

  function SaveOne(s: Store, k: nat): Store
    requires StoreInv(s) && k < 3
  {
    var b := s.blobs[k];
    Store(s.blobs[k := b.(len := b.staged)], s.settings[k := Staged(b)])
  }

  /** The saving loop from kind `k` on; `saves[k]`: the settings backend accepts kind `k`. */
  function SaveFrom(s: Store, k: nat, saves: seq<bool>): (r: (Store, Outcome<(), CredError>))
    requires StoreInv(s) && k <= 3 && |saves| == 3
    ensures StoreInv(r.0)
    decreases 3 - k
  {
    if k == 3 then (s, Good(()))
    else if !Complete(s.blobs[k]) then SaveFrom(s, k + 1, saves)
    else if !saves[k] then (s, Bad(IoError))
    else SaveFrom(SaveOne(s, k), k + 1, saves)
  }

  function Finalize(s: Store, saves: seq<bool>): (r: (Store, Outcome<(), CredError>))
    requires StoreInv(s) && |saves| == 3
    ensures StoreInv(r.0)
  {
    if !Complete(s.blobs[CERT]) || !Complete(s.blobs[KEY]) then (s, Bad(InvalidArg))
    else if !DerSpans(Staged(s.blobs[CERT])) then (s, Bad(BadMessage))
    else SaveFrom(s, 0, saves)
  }

  function DeleteAll(s: Store): (r: Store)
    requires StoreInv(s)
    ensures StoreInv(r)
  {
    Store(seq(3, k requires 0 <= k < 3 => s.blobs[k].(len := 0, staged := 0, expected := 0)),
          s.settings - {CERT, KEY, CA})
  }

  // ----- what finalize does

  function Lookup(m: map<nat, seq<byte>>, k: nat): Option<seq<byte>> {
    if k in m then Some(m[k]) else None
  }

  predicate Saved(s: Store, lo: nat, hi: nat, k: nat)
    requires StoreInv(s) && hi <= 3
  {
    lo <= k < hi && Complete(s.blobs[k])
  }

  /** Kinds in `lo..hi` that are complete are saved, everything else is as before. */
  ghost predicate SavedRange(s: Store, s': Store, lo: nat, hi: nat)
    requires StoreInv(s) && StoreInv(s') && lo <= hi <= 3
  {
    && (forall k :: 0 <= k < 3 ==>
          s'.blobs[k] == if Saved(s, lo, hi, k) then s.blobs[k].(len := s.blobs[k].staged) else s.blobs[k])
    && (forall k: nat ::
          Lookup(s'.settings, k) == if Saved(s, lo, hi, k) then Some(Staged(s.blobs[k])) else Lookup(s.settings, k))
  }

  lemma SavedOneMore(s: Store, s': Store, lo: nat, hi: nat)
    requires StoreInv(s) && StoreInv(s') && lo < hi <= 3 && Complete(s.blobs[lo])
    requires SavedRange(SaveOne(s, lo), s', lo + 1, hi)
    ensures SavedRange(s, s', lo, hi)
  {
    var s1 := SaveOne(s, lo);
    assert forall k: nat :: Saved(s1, lo + 1, hi, k) <==> Saved(s, lo, hi, k) && k != lo;
    assert forall k: nat ::
      Lookup(s1.settings, k) == if k == lo then Some(Staged(s.blobs[lo])) else Lookup(s.settings, k);
  }

  lemma {:induction false} SaveFromSaves(s: Store, k: nat, saves: seq<bool>) returns (stop: nat)
    requires StoreInv(s) && k <= 3 && |saves| == 3
    ensures k <= stop <= 3
    ensures var (s', r) := SaveFrom(s, k, saves);
      && SavedRange(s, s', k, stop)
      && (r.Good? <==> stop == 3)
      && (r.Bad? ==> r.error == IoError && Complete(s.blobs[stop]) && !saves[stop])
      && (forall j :: k <= j < stop && Complete(s.blobs[j]) ==> saves[j])
    decreases 3 - k
  {
    if k == 3 {
      stop := 3;
    } else if !Complete(s.blobs[k]) {
      stop := SaveFromSaves(s, k + 1, saves);
      var s' := SaveFrom(s, k + 1, saves).0;
      assert forall j: nat :: Saved(s, k + 1, stop, j) <==> Saved(s, k, stop, j);
    } else if !saves[k] {
      stop := k;
    } else {
      var s1 := SaveOne(s, k);
      stop := SaveFromSaves(s1, k + 1, saves);
      SavedOneMore(s, SaveFrom(s1, k + 1, saves).0, k, stop);
    }
  }

  predicate Acceptable(s: Store)
    requires StoreInv(s)
  {
    Complete(s.blobs[CERT]) && Complete(s.blobs[KEY]) && DerSpans(Staged(s.blobs[CERT]))
  }

  /** `finalize` succeeds exactly with a complete key, a complete certificate whose outer length
      spans it, and a backend that takes every complete kind; then all complete kinds are
      persisted as staged and no other changes. A refusal before saving changes nothing; a
      failing save keeps the kinds before it and no more. */
  lemma FinalizeExactly(s: Store, saves: seq<bool>)
    requires StoreInv(s) && |saves| == 3
    ensures var (s', r) := Finalize(s, saves);
      && (r.Good? <==> Acceptable(s) && forall k :: 0 <= k < 3 && Complete(s.blobs[k]) ==> saves[k])
      && (r.Good? ==> SavedRange(s, s', 0, 3))
      && (!Acceptable(s) ==>
            s' == s && r == Bad(if Complete(s.blobs[0]) && Complete(s.blobs[1]) then BadMessage else InvalidArg))
      && (Acceptable(s) && r.Bad? ==>
            r.error == IoError && exists stop :: 0 <= stop < 3 && FirstFailure(s, s', saves, stop))
  {
    if Acceptable(s) {
      var stop := SaveFromSaves(s, 0, saves);
      var (s', r) := SaveFrom(s, 0, saves);
      if r.Bad? {
        assert FirstFailure(s, s', saves, stop);
      }
    }
  }

  ghost predicate FirstFailure(s: Store, s': Store, saves: seq<bool>, stop: nat)
    requires StoreInv(s) && StoreInv(s') && stop < 3 && |saves| == 3
  {
    Complete(s.blobs[stop]) && !saves[stop] && SavedRange(s, s', 0, stop)
  }

  // ----- runs

  datatype Event =
    | Stages(kind: int, offset: nat, total: nat, data: seq<byte>)
    | Finalizes(saves: seq<bool>)
    | Deletes

  function Step(s: Store, e: Event): (r: Store)
    requires StoreInv(s)
    ensures StoreInv(r)
  {
    match e
    case Stages(kind, offset, total, data) => Stage(s, kind, offset, total, data).0
    case Finalizes(saves) => if |saves| == 3 then Finalize(s, saves).0 else s
    case Deletes => DeleteAll(s)
  }

  function Run(s: Store, es: seq<Event>): (r: Store)
    requires StoreInv(s)
    ensures StoreInv(r)
  {
    if es == [] then s else Step(Run(s, es[..|es| - 1]), es[|es| - 1])
  }

  /** What one kind has taken in, without buffers: the chunks accepted since the last chunk at
      offset 0, and the announced total. */
  datatype Intake = Intake(bytes: seq<byte>, expected: nat)

  function TakeChunk(i: Intake, cap: nat, offset: nat, total: nat, data: seq<byte>): Intake {
    if total > cap then i else
    var i := if offset == 0 then Intake([], total) else i;
    if offset == |i.bytes| && |i.bytes| + |data| <= i.expected then i.(bytes := i.bytes + data) else i
  }

  function IntakeOf(kind: nat, es: seq<Event>): Intake
    requires kind < 3
  {
    if es == [] then Intake([], 0) else
    var i := IntakeOf(kind, es[..|es| - 1]);
    match es[|es| - 1]
    case Stages(k, offset, total, data) => if k == kind then TakeChunk(i, Cap(kind), offset, total, data) else i
    case Finalizes(_) => i
    case Deletes => Intake([], 0)
  }

  predicate Refines(b: Blob, i: Intake) {
    BlobInv(b) && b.buf[..b.staged] == i.bytes && b.expected == i.expected
  }

  lemma StageRefines(b: Blob, i: Intake, offset: nat, total: nat, data: seq<byte>)
    requires Refines(b, i)
    ensures Refines(StageBlob(b, offset, total, data).0, TakeChunk(i, |b.buf|, offset, total, data))
  {
    if total <= |b.buf| {
      var r := Restart(b, offset, total);
      if offset == r.staged && r.staged + |data| <= r.expected {
        var b' := StageBlob(b, offset, total, data).0;
        assert b'.buf[..b'.staged] == r.buf[..r.staged] + data;
      }
    }
  }

  lemma {:induction false} SaveKeepsStaging(s: Store, k: nat, saves: seq<bool>, kind: nat)
    requires StoreInv(s) && k <= 3 && |saves| == 3 && kind < 3
    ensures var b, b' := s.blobs[kind], SaveFrom(s, k, saves).0.blobs[kind];
      b'.buf == b.buf && b'.staged == b.staged && b'.expected == b.expected
    decreases 3 - k
  {
    if k < 3 && Complete(s.blobs[k]) && saves[k] {
      SaveKeepsStaging(SaveOne(s, k), k + 1, saves, kind);
    } else if k < 3 && !Complete(s.blobs[k]) {
      SaveKeepsStaging(s, k + 1, saves, kind);
    }
  }

  /** A freshly booted store: nothing staged, whatever was loaded. */
  predicate Fresh(s: Store)
    requires StoreInv(s)
  {
    forall k :: 0 <= k < 3 ==> s.blobs[k].staged == 0 && s.blobs[k].expected == 0
  }

  /** After any run the first `staged` bytes of a buffer are the chunks accepted since the last
      chunk at offset 0, and staged <= expected <= capacity. */
  lemma {:induction false} StagedIsWhatWasAccepted(s: Store, es: seq<Event>, kind: nat)
    requires StoreInv(s) && Fresh(s) && kind < 3
    ensures var b := Run(s, es).blobs[kind]; var i := IntakeOf(kind, es);
      && b.buf[..b.staged] == i.bytes && b.expected == i.expected
      && b.staged <= b.expected <= Cap(kind)
  {
    if es != [] {
      var m := |es| - 1;
      StagedIsWhatWasAccepted(s, es[..m], kind);
      var before := Run(s, es[..m]);
      match es[m] {
        case Stages(k, offset, total, data) =>
          if k == kind {
            StageRefines(before.blobs[kind], IntakeOf(kind, es[..m]), offset, total, data);
          }
        case Finalizes(saves) =>
          if |saves| == 3 && Acceptable(before) {
            SaveKeepsStaging(before, 0, saves, kind);
          }
        case Deletes =>
      }
    }
  }

  // ----- the credential handed to the application shares the buffer

  /** What the application is given for a kind is what is persisted for it. */
  predicate InSync(s: Store, kind: nat)
    requires StoreInv(s) && kind < 3
  {
    var b := s.blobs[kind];
    b.len > 0 ==> kind in s.settings && s.settings[kind] == b.buf[..b.len]
  }

  lemma StagedByte(b: Blob, offset: nat, total: nat, data: seq<byte>, i: nat)
    requires BlobInv(b) && StageBlob(b, offset, total, data).1.Good? && i < |b.buf|
    ensures var b' := StageBlob(b, offset, total, data).0;
      && b'.len == b.len && |b'.buf| == |b.buf|
      && b'.buf[i] == if offset <= i < offset + |data| then data[i - offset] else b.buf[i]
  {
  }

  /** An accepted chunk leaves the loaded credential equal to the persisted one exactly when it
      writes the bytes that were there already, as far as the persisted length reaches. */
  lemma StagingKeepsSyncIff(s: Store, kind: nat, offset: nat, total: nat, data: seq<byte>)
    requires StoreInv(s) && kind < 3 && InSync(s, kind) && Stage(s, kind, offset, total, data).1.Good?
    ensures InSync(Stage(s, kind, offset, total, data).0, kind)
      <==> forall i :: offset <= i < offset + |data| && i < s.blobs[kind].len ==>
             s.blobs[kind].buf[i] == data[i - offset]
  {
    var b, b' := s.blobs[kind], Stage(s, kind, offset, total, data).0.blobs[kind];
    forall i | 0 <= i < |b.buf|
      ensures b'.len == b.len && |b'.buf| == |b.buf|
      ensures b'.buf[i] == if offset <= i < offset + |data| then data[i - offset] else b.buf[i]
    {
      StagedByte(b, offset, total, data, i);
    }
    if forall i :: offset <= i < offset + |data| && i < b.len ==> b.buf[i] == data[i - offset] {
      assert b'.buf[..b.len] == b.buf[..b.len];
    } else {
      var i :| offset <= i < offset + |data| && i < b.len && b.buf[i] != data[i - offset];
      assert b'.buf[..b.len][i] != b.buf[..b.len][i];
    }
  }

  // ----- the object

  class Cell {
    const buf: array<byte>
    var len: nat
    var staged: nat
    var expected: nat

    ghost function View(): Blob reads this, buf { Blob(buf[..], len, staged, expected) }

    constructor (capacity: nat)
      ensures fresh(buf) && buf.Length == capacity && len == 0 && staged == 0 && expected == 0
    {
      buf := new byte[capacity](_ => 0);
      len, staged, expected := 0, 0, 0;
    }

    method Write(offset: nat, total: nat, data: seq<byte>) returns (r: Outcome<nat, CredError>)
      requires BlobInv(View())
      modifies this, buf
      ensures BlobInv(View()) && (View(), r) == StageBlob(old(View()), offset, total, data)
    {
      if total > buf.Length {
        return Bad(MessageSize);
      }
      if offset == 0 {
        staged, expected := 0, total;
      }
      if offset != staged || staged + |data| > expected {
        return Bad(InvalidArg);
      }
      Copy(data);
      staged := staged + |data|;
      r := Good(staged);
    }

    /** `memcpy` of a chunk behind the bytes staged so far. */
    method Copy(data: seq<byte>)
      requires staged + |data| <= buf.Length
      modifies buf
      ensures buf[..] == old(buf[..])[..staged] + data + old(buf[..])[staged + |data|..]
    {
      var i := 0;
      while i < |data|
        invariant 0 <= i <= |data|
        invariant forall j :: 0 <= j < i ==> buf[staged + j] == data[j]
        invariant forall j :: 0 <= j < buf.Length && !(staged <= j < staged + i) ==> buf[j] == old(buf[j])
      {
        buf[staged + i] := data[i];
        i := i + 1;
      }
    }
  }

  class CredStore {
    const cert: Cell
    const key: Cell
    const ca: Cell
    var settings: map<nat, seq<byte>>

    function CellOf(kind: nat): Cell
      requires kind < 3
    {
      if kind == CERT then cert else if kind == KEY then key else ca
    }

    ghost predicate Separate() {
      && cert != key && key != ca && cert != ca
      && cert.buf != key.buf && key.buf != ca.buf && cert.buf != ca.buf
    }

    ghost function View(): Store
      reads this, cert, cert.buf, key, key.buf, ca, ca.buf
    {
      Store([cert.View(), key.View(), ca.View()], settings)
    }

    ghost predicate Valid()
      reads this, cert, cert.buf, key, key.buf, ca, ca.buf
    {
      Separate() && StoreInv(View())
    }

    constructor ()
      ensures Valid() && fresh({cert, key, ca}) && fresh({cert.buf, key.buf, ca.buf})
      ensures Fresh(View()) && settings == map[]
    {
      cert := new Cell(2048);
      key := new Cell(512);
      ca := new Cell(2048);
      settings := map[];
    }

    method StageChunk(kind: int, offset: nat, total: nat, data: seq<byte>) returns (r: Outcome<nat, CredError>)
      requires Valid()
      modifies cert, cert.buf, key, key.buf, ca, ca.buf
      ensures Valid() && (View(), r) == Stage(old(View()), kind, offset, total, data)
    {
      if !(0 <= kind < 3) {
        return Bad(InvalidArg);
      }
      assert View().blobs[CERT] == cert.View() && View().blobs[KEY] == key.View() && View().blobs[CA] == ca.View();
      if kind == CERT {
        r := cert.Write(offset, total, data);
      } else if kind == KEY {
        r := key.Write(offset, total, data);
      } else {
        r := ca.Write(offset, total, data);
      }
      assert View() == Stage(old(View()), kind, offset, total, data).0;
    }

    /** Persist one complete kind. */
    method SaveKind(k: nat)
      requires Valid() && k < 3
      modifies this`settings, CellOf(k)`len
      ensures View() == SaveOne(old(View()), k)
    {
      var b := CellOf(k);
      assert View().blobs[k] == b.View();
      settings := settings[k := b.buf[..b.staged]];
      b.len := b.staged;
      assert View().blobs == SaveOne(old(View()), k).blobs;
    }

    method FinalizeAll(saves: seq<bool>) returns (r: Outcome<(), CredError>)
      requires Valid() && |saves| == 3
      modifies this`settings, cert`len, key`len, ca`len
      ensures Valid() && (View(), r) == Finalize(old(View()), saves)
    {
      assert View().blobs[CERT] == cert.View() && View().blobs[KEY] == key.View();
      if cert.staged == 0 || cert.staged != cert.expected || key.staged == 0 || key.staged != key.expected {
        return Bad(InvalidArg);
      }
      var der := DerSequenceLenOk(cert.buf, cert.staged);
      if !der {
        return Bad(BadMessage);
      }
      var k := 0;
      while k < 3
        invariant 0 <= k <= 3 && Valid()
        invariant SaveFrom(View(), k, saves) == SaveFrom(old(View()), 0, saves)
      {
        var b := CellOf(k);
        assert View().blobs[k] == b.View();
        if b.staged != 0 && b.staged == b.expected {
          if !saves[k] {
            return Bad(IoError);
          }
          SaveKind(k);
        }
        k := k + 1;
      }
      r := Good(());
    }

    method Clear()
      requires Valid()
      modifies this, cert, key, ca
      ensures Valid() && View() == DeleteAll(old(View()))
    {
      settings := settings - {CERT, KEY, CA};
      cert.len, cert.staged, cert.expected := 0, 0, 0;
      key.len, key.staged, key.expected := 0, 0, 0;
      ca.len, ca.staged, ca.expected := 0, 0, 0;
    }
  }
}
