/** The key-derivation string and the nonces of saead, and what makes them unambiguous. */
module SaeadText {
  import opened Bytes

  // ----- base64 (section 4 of RFC 4648)

  function Char64(v: nat): (c: char)
    requires v < 64
    ensures c != ':' && c != '='
  {
    if v < 26 then ('A' as int + v) as char
    else if v < 52 then ('a' as int + (v - 26)) as char
    else if v < 62 then ('0' as int + (v - 52)) as char
    else if v == 62 then '+' else '/'
  }

  lemma Char64Injective(v: nat, w: nat)
    requires v < 64 && w < 64
    ensures Char64(v) == Char64(w) <==> v == w
  {
  }

  function Base64(b: seq<byte>): (t: string)
    ensures ':' !in t
  {
    if |b| == 0 then ""
    else if |b| == 1 then [Char64(b[0] / 4), Char64(b[0] % 4 * 16), '=', '=']
    else if |b| == 2 then
      [Char64(b[0] / 4), Char64(b[0] % 4 * 16 + b[1] / 16), Char64(b[1] % 16 * 4), '=']
    else Group64(b[0], b[1], b[2]) + Base64(b[3..])
  }

  function Group64(x: byte, y: byte, z: byte): (t: string)
    ensures |t| == 4 && ':' !in t && t[3] != '='
  {
    [Char64(x / 4), Char64(x % 4 * 16 + y / 16), Char64(y % 16 * 4 + z / 64), Char64(z % 64)]
  }

  lemma Group64Injective(x: byte, y: byte, z: byte, x': byte, y': byte, z': byte)
    requires Group64(x, y, z) == Group64(x', y', z')
    ensures x == x' && y == y' && z == z'
  {
    var a, b := Group64(x, y, z), Group64(x', y', z');
    assert a[0] == b[0] && a[1] == b[1] && a[2] == b[2] && a[3] == b[3];
    Char64Injective(x / 4, x' / 4);
    Char64Injective(x % 4 * 16 + y / 16, x' % 4 * 16 + y' / 16);
    Char64Injective(y % 16 * 4 + z / 64, y' % 16 * 4 + z' / 64);
    Char64Injective(z % 64, z' % 64);
  }

  lemma ShortTailInjective(a: seq<byte>, b: seq<byte>)
    requires 1 <= |a| <= 2 && Base64(a) == Base64(b) && 1 <= |b| <= 2
    ensures a == b
  {
    var s, t := Base64(a), Base64(b);
    assert s[0] == t[0] && s[1] == t[1] && s[2] == t[2];
    Char64Injective(a[0] / 4, b[0] / 4);
    if |a| == 1 && |b| == 1 {
      Char64Injective(a[0] % 4 * 16, b[0] % 4 * 16);
    } else if |a| == 2 && |b| == 2 {
      Char64Injective(a[0] % 4 * 16 + a[1] / 16, b[0] % 4 * 16 + b[1] / 16);
      Char64Injective(a[1] % 16 * 4, b[1] % 16 * 4);
    }
  }

  lemma {:induction false} Base64Injective(a: seq<byte>, b: seq<byte>)
    requires Base64(a) == Base64(b)
    ensures a == b
    decreases |a|
  {
    if |a| >= 3 && |b| >= 3 {
      var s, t := Group64(a[0], a[1], a[2]), Group64(b[0], b[1], b[2]);
      assert s == Base64(a)[..4] && t == Base64(b)[..4];
      assert Base64(a[3..]) == Base64(a)[4..] && Base64(b[3..]) == Base64(b)[4..];
      Group64Injective(a[0], a[1], a[2], b[0], b[1], b[2]);
      Base64Injective(a[3..], b[3..]);
      assert a == a[..3] + a[3..] && b == b[..3] + b[3..];
    } else if 1 <= |a| <= 2 && 1 <= |b| <= 2 {
      ShortTailInjective(a, b);
    } else {
      LengthTellsTail(a);
      LengthTellsTail(b);
    }
  }

  /** The fourth character tells a short tail from a whole group. */
  lemma LengthTellsTail(a: seq<byte>)
    ensures a == [] <==> Base64(a) == ""
    ensures a != [] ==> |Base64(a)| >= 4 && (Base64(a)[3] == '=' <==> |a| <= 2)
  {
    if |a| >= 3 {
      assert Base64(a)[3] == Group64(a[0], a[1], a[2])[3];
    }
  }

  // ----- %02X

  function HexDigit(v: nat): char
    requires v < 16
  {
    if v < 10 then ('0' as int + v) as char else ('A' as int + (v - 10)) as char
  }

  function Hex(v: nat): (t: string)
    ensures |t| >= 1 && (t[0] == '0' <==> v == 0)
  {
    if v < 16 then [HexDigit(v)] else Hex(v / 16) + [HexDigit(v % 16)]
  }

  lemma {:induction false} HexInjective(v: nat, w: nat)
    requires Hex(v) == Hex(w)
    ensures v == w
  {
    var s, t := Hex(v), Hex(w);
    assert s[|s| - 1] == HexDigit(v % 16) && t[|t| - 1] == HexDigit(w % 16);
    if v >= 16 && w >= 16 {
      assert Hex(v / 16) == s[..|s| - 1] && Hex(w / 16) == t[..|t| - 1];
      HexInjective(v / 16, w / 16);
    }
  }

  /** `%02X`: the low 32 bits, at least two digits. */
  function Hex2(v: int): string {
    var n: nat := v % 0x1_0000_0000;
    if n < 16 then "0" + Hex(n) else Hex(n)
  }

  lemma Hex2Injective(v: int, w: int)
    ensures Hex2(v) == Hex2(w) <==> v % 0x1_0000_0000 == w % 0x1_0000_0000
  {
    var m: nat, n: nat := v % 0x1_0000_0000, w % 0x1_0000_0000;
    if Hex2(v) == Hex2(w) {
      assert m < 16 <==> Hex2(v)[0] == '0';
      assert n < 16 <==> Hex2(w)[0] == '0';
      if m < 16 {
        assert Hex2(v)[1..] == Hex(m) && Hex2(w)[1..] == Hex(n);
      }
      HexInjective(m, n);
    }
  }

  // ----- INFO

  function InitiatorLetter(initiator: int): char { if initiator == 0 then 'D' else 'S' }
  function AlgorithmLetter(algorithm: int): char { if algorithm == 1 then 'C' else 'A' }

  function InfoHead(initiator: int): string { "E0:" + [InitiatorLetter(initiator)] + ":" }

  function InfoTail(algorithm: int, blockLog: int): string {
    ":C" + [AlgorithmLetter(algorithm)] + "R:" + Hex2(blockLog)
  }

  function Info(initiator: int, sessionId: seq<byte>, algorithm: int, blockLog: int): string {
    InfoHead(initiator) + Base64(sessionId) + InfoTail(algorithm, blockLog)
  }

  lemma InfoTailInjective(a: int, l: int, a': int, l': int)
    ensures InfoTail(a, l) == InfoTail(a', l') <==> (a == 1 <==> a' == 1) && l % 0x1_0000_0000 == l' % 0x1_0000_0000
  {
    Hex2Injective(l, l');
    var x, x' := InfoTail(a, l), InfoTail(a', l');
    assert x[2] == AlgorithmLetter(a) && x'[2] == AlgorithmLetter(a');
    assert x[5..] == Hex2(l) && x'[5..] == Hex2(l');
  }

  /** The head has a fixed length, so it can be told from what follows. */
  lemma InfoHeadSplits(i: int, x: string, i': int, x': string)
    requires InfoHead(i) + x == InfoHead(i') + x'
    ensures (i == 0 <==> i' == 0) && x == x'
  {
    var t, t' := InfoHead(i) + x, InfoHead(i') + x';
    assert t[3] == InitiatorLetter(i) && t'[3] == InitiatorLetter(i');
    assert t[5..] == x && t'[5..] == x';
  }

  lemma {:induction false} SplitAtColon(a: string, x: string, b: string, y: string)
    requires ':' !in a && ':' !in b && x != "" && y != "" && x[0] == ':' && y[0] == ':'
    requires a + x == b + y
    ensures a == b && x == y
  {
    if a == "" || b == "" {
      assert (a + x)[0] == (b + y)[0];
      assert a + x == x && b + y == y;
    } else {
      assert (a + x)[0] == a[0] && (b + y)[0] == b[0];
      assert (a + x)[1..] == a[1..] + x && (b + y)[1..] == b[1..] + y;
      SplitAtColon(a[1..], x, b[1..], y);
      assert a == [a[0]] + a[1..] && b == [b[0]] + b[1..];
    }
  }

  predicate SameSession(i: int, s: seq<byte>, a: int, l: int, i': int, s': seq<byte>, a': int, l': int) {
    (i == 0 <==> i' == 0) && s == s' && (a == 1 <==> a' == 1) && l % 0x1_0000_0000 == l' % 0x1_0000_0000
  }

  /** Two sessions get the same INFO string exactly when they agree on the initiator's letter,
      the session id of whatever length, the algorithm's letter and the block size. */
  lemma InfoInjective(i: int, s: seq<byte>, a: int, l: int, i': int, s': seq<byte>, a': int, l': int)
    ensures Info(i, s, a, l) == Info(i', s', a', l') <==> SameSession(i, s, a, l, i', s', a', l')
  {
    InfoTailInjective(a, l, a', l');
    if Info(i, s, a, l) == Info(i', s', a', l') {
      InfoSplits(i, Base64(s), InfoTail(a, l), i', Base64(s'), InfoTail(a', l'));
      Base64Injective(s, s');
    }
  }

  lemma InfoSplits(i: int, b: string, x: string, i': int, b': string, x': string)
    requires ':' !in b && ':' !in b' && x != "" && x' != "" && x[0] == ':' && x'[0] == ':'
    requires InfoHead(i) + b + x == InfoHead(i') + b' + x'
    ensures (i == 0 <==> i' == 0) && b == b' && x == x'
  {
    assert InfoHead(i) + b + x == InfoHead(i) + (b + x);
    assert InfoHead(i') + b' + x' == InfoHead(i') + (b' + x');
    InfoHeadSplits(i, b + x, i', b' + x');
    SplitAtColon(b, x, b', x');
  }

  // ----- nonces

  function Nonce(pouchId: int, blockIndex: int, senderRole: int): (n: seq<byte>)
    ensures |n| == 12
  {
    Be16(pouchId) + Be16(blockIndex) + [Low8(senderRole)] + [0, 0, 0, 0, 0, 0, 0]
  }

  /** Two bytes of pouch id, two of block index, one of role, seven zeros. */
  function TwelveBytes(pouchId: int, index: nat, role: byte): seq<byte> {
    [pouchId / 256 % 256, pouchId % 256, index / 256 % 256, index % 256, role, 0, 0, 0, 0, 0, 0, 0]
  }

  lemma NonceBytes(pouchId: int, index: nat, role: byte)
    ensures Nonce(pouchId, index, role) == TwelveBytes(pouchId, index, role)
  {
    assert Be16(pouchId) + Be16(index) + [Low8(role)] + [0, 0, 0, 0, 0, 0, 0] == TwelveBytes(pouchId, index, role);
  }

  /** Nonces are equal exactly when pouch id and block index agree in sixteen bits and the role
      in eight. */
  lemma NonceInjective(p: int, b: int, r: int, p': int, b': int, r': int)
    ensures Nonce(p, b, r) == Nonce(p', b', r')
      <==> p % 0x1_0000 == p' % 0x1_0000 && b % 0x1_0000 == b' % 0x1_0000 && r % 256 == r' % 256
  {
    Be16RoundTrip(p);
    Be16RoundTrip(b);
    Be16RoundTrip(p');
    Be16RoundTrip(b');
    var n, n' := Nonce(p, b, r), Nonce(p', b', r');
    assert n[0..2] == Be16(p) && n[2..4] == Be16(b) && n[4] == Low8(r);
    assert n'[0..2] == Be16(p') && n'[2..4] == Be16(b') && n'[4] == Low8(r');
    Be16Low(p);
    Be16Low(p');
    Be16Low(b);
    Be16Low(b');
  }

  /** The blocks of one pouch get pairwise distinct nonces exactly when there are at most 65536. */
  lemma NoncesDistinctIff(pouchId: int, role: int, blocks: nat)
    ensures blocks <= 0x1_0000 <==>
      forall i, j :: 0 <= i < j < blocks ==> Nonce(pouchId, i, role) != Nonce(pouchId, j, role)
  {
    if blocks <= 0x1_0000 {
      forall i, j | 0 <= i < j < blocks ensures Nonce(pouchId, i, role) != Nonce(pouchId, j, role) {
        NonceInjective(pouchId, i, role, pouchId, j, role);
        SmallMod(i, 0x1_0000);
        SmallMod(j, 0x1_0000);
      }
    } else {
      NonceInjective(pouchId, 0, role, pouchId, 0x1_0000, role);
      assert Nonce(pouchId, 0, role) == Nonce(pouchId, 0x1_0000, role);
    }
  }
}
