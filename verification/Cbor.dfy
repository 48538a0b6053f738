/** The definite-length CBOR codec (section 3 of RFC 8949): the encoding as a function, the
    reader as a function of the data and a position, and the imperative writer and reader
    proved to compute them. */
module Cbor {
  import opened Bytes

  // ----- values

  datatype CborValue =
    | CInt(i: int)
    | CBytes(bytes: seq<byte>)
    | CText(utf8: seq<byte>)
    | CArray(items: seq<CborValue>)
    | CMap(pairs: seq<CborPair>)
    | CBool(b: bool)
    | CNull

  datatype CborPair = CborPair(key: CborValue, value: CborValue)

  const INT64_MAX: nat := 0x7FFF_FFFF_FFFF_FFFF

  predicate Continuation(b: byte) { 0x80 <= b <= 0xBF }

  /** Well-formed UTF-8 (section 4 of RFC 3629). */
  predicate ValidUtf8(s: seq<byte>) {
    if s == [] then true
    else if s[0] <= 0x7F then ValidUtf8(s[1..])
    else if 0xC2 <= s[0] <= 0xDF then |s| >= 2 && Continuation(s[1]) && ValidUtf8(s[2..])
    else if 0xE0 <= s[0] <= 0xEF then
      && |s| >= 3 && Continuation(s[1]) && Continuation(s[2])
      && (s[0] == 0xE0 ==> s[1] >= 0xA0) && (s[0] == 0xED ==> s[1] <= 0x9F)
      && ValidUtf8(s[3..])
    else if 0xF0 <= s[0] <= 0xF4 then
      && |s| >= 4 && Continuation(s[1]) && Continuation(s[2]) && Continuation(s[3])
      && (s[0] == 0xF0 ==> s[1] >= 0x90) && (s[0] == 0xF4 ==> s[1] <= 0x8F)
      && ValidUtf8(s[4..])
    else false
  }

  /** The values a program can hold: 64-bit integers, strings of text, countable collections. */
  predicate Valid(v: CborValue) {
    match v
    case CInt(i) => -1 - (INT64_MAX as int) <= i <= INT64_MAX
    case CBytes(b) => |b| <= INT64_MAX
    case CText(t) => |t| <= INT64_MAX && ValidUtf8(t)
    case CArray(items) => |items| <= INT64_MAX && forall x :: x in items ==> Valid(x)
    case CMap(pairs) => |pairs| <= INT64_MAX && forall p :: p in pairs ==> Valid(p.key) && Valid(p.value)
    case CBool(_) => true
    case CNull => true
  }

  // ----- encoding

  /** A major type and its argument, in the shortest form. */
  function Head(major: nat, arg: nat): (h: seq<byte>)
    requires major < 8
    ensures 1 <= |h| <= 9
  {
    if arg < 24 then [major * 32 + arg]
    else if arg <= 0xFF then [major * 32 + 24, arg]
    else if arg <= 0xFFFF then [major * 32 + 25] + ToBE(2, arg)
    else if arg <= 0xFFFF_FFFF then [major * 32 + 26] + ToBE(4, arg)
    else [major * 32 + 27] + ToBE(8, arg)
  }

  function Enc(v: CborValue): (e: seq<byte>)
    ensures |e| >= 1
    decreases v
  {
    match v
    case CNull => [0xF6]
    case CBool(b) => [if b then 0xF5 else 0xF4]
    case CInt(i) => if i >= 0 then Head(0, i) else Head(1, -1 - i)
    case CBytes(b) => Head(2, |b|) + b
    case CText(t) => Head(3, |t|) + t
    case CArray(items) => Head(4, |items|) + EncItems(items)
    case CMap(pairs) => Head(5, |pairs|) + EncPairs(pairs)
  }

  function EncItems(items: seq<CborValue>): seq<byte>
    decreases items
  {
    if items == [] then [] else Enc(items[0]) + EncItems(items[1..])
  }

  function EncPairs(pairs: seq<CborPair>): seq<byte>
    decreases pairs
  {
    if pairs == [] then [] else EncPair(pairs[0]) + EncPairs(pairs[1..])
  }

  function EncPair(p: CborPair): seq<byte>
    decreases p
  {
    Enc(p.key) + Enc(p.value)
  }

  // ----- decoding

  datatype DecodeError =
    Truncated | IntegerOverflow | LengthOverflow | InvalidUtf8 | UnsupportedSimple | UnsupportedMajor | BadInfo

  datatype Parsed<+T> = Ok(value: T, pos: nat) | Err(error: DecodeError)

  /** The bytes of the argument after an initial byte with additional info 24 to 27. */
  function Width(ai: nat): nat {
    if ai == 24 then 1 else if ai == 25 then 2 else if ai == 26 then 4 else 8
  }

  function Argument(data: seq<byte>, pos: nat, ai: nat): (r: Parsed<nat>)
    ensures r.Ok? && pos <= |data| ==> pos <= r.pos <= |data|
  {
    if ai < 24 then Ok(ai, pos)
    else if ai > 27 then Err(BadInfo)
    else
      var k := Width(ai);
      if pos + k <= |data| then Ok(FromBE(data[pos..pos + k]), pos + k) else Err(Truncated)
  }

  function Read(data: seq<byte>, pos: nat): (r: Parsed<CborValue>)
    requires pos <= |data|
    ensures r.Ok? ==> pos < r.pos <= |data|
    decreases |data| - pos, 0
  {
    if pos >= |data| then Err(Truncated) else
    var major, ai := data[pos] / 32, data[pos] % 32;
    if major == 7 then
      if ai == 20 then Ok(CBool(false), pos + 1)
      else if ai == 21 then Ok(CBool(true), pos + 1)
      else if ai == 22 then Ok(CNull, pos + 1)
      else Err(UnsupportedSimple)
    else if major == 6 then Err(UnsupportedMajor)
    else
      match Argument(data, pos + 1, ai)
      case Err(e) => Err(e)
      case Ok(arg, p) => ReadBody(data, p, major, arg)
  }

  /** The rest of an item, after its initial byte and argument. */
  function ReadBody(data: seq<byte>, p: nat, major: nat, arg: nat): (r: Parsed<CborValue>)
    requires p <= |data| && major < 6
    ensures r.Ok? ==> p <= r.pos <= |data|
    decreases |data| - p, 2
  {
    if arg > INT64_MAX then Err(if major < 2 then IntegerOverflow else LengthOverflow)
    else if major == 0 then Ok(CInt(arg), p)
    else if major == 1 then Ok(CInt(-1 - arg), p)
    else if major <= 3 then
      if p + arg > |data| then Err(Truncated)
      else if major == 2 then Ok(CBytes(data[p..p + arg]), p + arg)
      else if ValidUtf8(data[p..p + arg]) then Ok(CText(data[p..p + arg]), p + arg)
      else Err(InvalidUtf8)
    else if major == 4 then
      match ReadItems(data, p, arg, [])
      case Ok(items, q) => Ok(CArray(items), q)
      case Err(e) => Err(e)
    else
      match ReadPairs(data, p, arg, [])
      case Ok(pairs, q) => Ok(CMap(pairs), q)
      case Err(e) => Err(e)
  }

  /** Read `n` more items after the ones in `acc`. */
  function ReadItems(data: seq<byte>, pos: nat, n: nat, acc: seq<CborValue>): (r: Parsed<seq<CborValue>>)
    requires pos <= |data|
    ensures r.Ok? ==> pos <= r.pos <= |data|
    decreases |data| - pos, 1
  {
    if n == 0 then Ok(acc, pos) else
    match Read(data, pos)
    case Err(e) => Err(e)
    case Ok(v, p) => ReadItems(data, p, n - 1, acc + [v])
  }

  function ReadPairs(data: seq<byte>, pos: nat, n: nat, acc: seq<CborPair>): (r: Parsed<seq<CborPair>>)
    requires pos <= |data|
    ensures r.Ok? ==> pos <= r.pos <= |data|
    decreases |data| - pos, 1
  {
    if n == 0 then Ok(acc, pos) else
    match Read(data, pos)
    case Err(e) => Err(e)
    case Ok(k, p) =>
      match Read(data, p)
      case Err(e) => Err(e)
      case Ok(v, q) => ReadPairs(data, q, n - 1, acc + [CborPair(k, v)])
  }

  // ----- decoding an encoding

  /** The additional info that announces `k` argument bytes. */
  function InfoFor(k: nat): nat {
    if k == 1 then 24 else if k == 2 then 25 else if k == 4 then 26 else 27
  }

  predicate IsWidth(k: int) { k == 1 || k == 2 || k == 4 || k == 8 }

  lemma LongHead(major: nat, arg: nat)
    requires major < 8 && 24 <= arg <= 0xFFFF_FFFF_FFFF_FFFF
    ensures var h := Head(major, arg); var k: nat := |h| - 1;
      IsWidth(k) && arg < Pow256(k) && h[0] == major * 32 + InfoFor(k) && h[1..] == ToBE(k, arg)
  {
    Pow256Values();
    if arg <= 0xFF {
      assert ToBE(1, arg) == ToBE(0, arg / 256) + [arg] == [arg];
    }
  }

  lemma InitialByte(major: nat, ai: nat)
    requires major < 8 && ai < 32
    ensures (major * 32 + ai) / 32 == major && (major * 32 + ai) % 32 == ai
  {
  }

  lemma HeadReads(data: seq<byte>, pos: nat, major: nat, arg: nat)
    requires major < 8 && arg <= 0xFFFF_FFFF_FFFF_FFFF && At(data, pos, Head(major, arg))
    ensures data[pos] / 32 == major
    ensures Argument(data, pos + 1, data[pos] % 32) == Ok(arg, pos + |Head(major, arg)|)
  {
    assert data[pos] == Head(major, arg)[0];
    if arg < 24 {
      InitialByte(major, arg);
    } else {
      LongHeadReads(data, pos, major, arg);
    }
  }

  lemma LongHeadReads(data: seq<byte>, pos: nat, major: nat, arg: nat)
    requires major < 8 && 24 <= arg <= 0xFFFF_FFFF_FFFF_FFFF && At(data, pos, Head(major, arg))
    ensures var k: nat := |Head(major, arg)| - 1;
      && IsWidth(k) && data[pos] / 32 == major && data[pos] % 32 == InfoFor(k)
      && FromBE(data[pos + 1..pos + 1 + k]) == arg
  {
    var h := Head(major, arg);
    var k := |h| - 1;
    LongHead(major, arg);
    ConsAt(data, pos, h);
    InitialByte(major, InfoFor(k));
    FromToBEExact(k, arg);
  }

  lemma HeadThenBody(data: seq<byte>, pos: nat, major: nat, arg: nat, body: seq<byte>)
    requires major < 6 && arg <= INT64_MAX && At(data, pos, Head(major, arg) + body)
    ensures var p := pos + |Head(major, arg)|;
      At(data, p, body) && Read(data, pos) == ReadBody(data, p, major, arg)
  {
    AtSplit(data, pos, Head(major, arg), body);
    HeadReads(data, pos, major, arg);
  }

  /** Wherever an encoding stands, whatever follows it, reading there gives back the value and
      stops right after it. */
  lemma {:induction false} ReadEnc(data: seq<byte>, pos: nat, v: CborValue)
    requires Valid(v) && At(data, pos, Enc(v))
    ensures Read(data, pos) == Ok(v, pos + |Enc(v)|)
    decreases v, 1
  {
    match v
    case CNull => assert data[pos] == Enc(v)[0];
    case CBool(_) => assert data[pos] == Enc(v)[0];
    case CInt(i) => ReadEncInt(data, pos, i);
    case CBytes(b) => HeadThenBody(data, pos, 2, |b|, b);
    case CText(t) => HeadThenBody(data, pos, 3, |t|, t);
    case CArray(items) => ReadEncArray(data, pos, items);
    case CMap(pairs) => ReadEncMap(data, pos, pairs);
  }

  lemma {:induction false} ReadEncArray(data: seq<byte>, pos: nat, items: seq<CborValue>)
    requires Valid(CArray(items)) && At(data, pos, Enc(CArray(items)))
    ensures Read(data, pos) == Ok(CArray(items), pos + |Enc(CArray(items))|)
    decreases items, 1
  {
    HeadThenBody(data, pos, 4, |items|, EncItems(items));
    ReadEncItems(data, pos + |Head(4, |items|)|, items, []);
    assert [] + items == items;
  }

  lemma {:induction false} ReadEncMap(data: seq<byte>, pos: nat, pairs: seq<CborPair>)
    requires Valid(CMap(pairs)) && At(data, pos, Enc(CMap(pairs)))
    ensures Read(data, pos) == Ok(CMap(pairs), pos + |Enc(CMap(pairs))|)
    decreases pairs, 3
  {
    HeadThenBody(data, pos, 5, |pairs|, EncPairs(pairs));
    ReadMapBody(data, pos + |Head(5, |pairs|)|, pairs);
  }

  lemma {:induction false} ReadMapBody(data: seq<byte>, p: nat, pairs: seq<CborPair>)
    requires |pairs| <= INT64_MAX && forall x :: x in pairs ==> Valid(x.key) && Valid(x.value)
    requires At(data, p, EncPairs(pairs))
    ensures ReadBody(data, p, 5, |pairs|) == Ok(CMap(pairs), p + |EncPairs(pairs)|)
    decreases pairs, 2
  {
    ReadEncPairs(data, p, pairs, []);
    assert [] + pairs == pairs;
  }

  lemma ReadEncInt(data: seq<byte>, pos: nat, i: int)
    requires Valid(CInt(i)) && At(data, pos, Enc(CInt(i)))
    ensures Read(data, pos) == Ok(CInt(i), pos + |Enc(CInt(i))|)
  {
    var e := Enc(CInt(i));
    assert e + [] == e;
    if i >= 0 {
      HeadThenBody(data, pos, 0, i, []);
    } else {
      HeadThenBody(data, pos, 1, -1 - i, []);
    }
  }

  lemma {:induction false} ReadEncItems(data: seq<byte>, pos: nat, items: seq<CborValue>, acc: seq<CborValue>)
    requires (forall x :: x in items ==> Valid(x)) && At(data, pos, EncItems(items))
    ensures ReadItems(data, pos, |items|, acc) == Ok(acc + items, pos + |EncItems(items)|)
    decreases items, 0
  {
    if items != [] {
      var e := Enc(items[0]);
      AtSplit(data, pos, e, EncItems(items[1..]));
      ReadEnc(data, pos, items[0]);
      ReadEncItems(data, pos + |e|, items[1..], acc + [items[0]]);
      MoveFirst(acc, items);
    } else {
      assert acc + items == acc;
    }
  }

  lemma {:induction false} ReadEncPairs(data: seq<byte>, pos: nat, pairs: seq<CborPair>, acc: seq<CborPair>)
    requires (forall p :: p in pairs ==> Valid(p.key) && Valid(p.value)) && At(data, pos, EncPairs(pairs))
    ensures ReadPairs(data, pos, |pairs|, acc) == Ok(acc + pairs, pos + |EncPairs(pairs)|)
    decreases pairs, 1
  {
    if pairs != [] {
      var q := ReadFirstPair(data, pos, pairs, acc);
      ReadEncPairs(data, q, pairs[1..], acc + [pairs[0]]);
      MoveFirst(acc, pairs);
    } else {
      assert acc + pairs == acc;
    }
  }

  lemma {:induction false} ReadFirstPair(data: seq<byte>, pos: nat, pairs: seq<CborPair>, acc: seq<CborPair>)
      returns (q: nat)
    requires pairs != [] && Valid(pairs[0].key) && Valid(pairs[0].value) && At(data, pos, EncPairs(pairs))
    ensures At(data, q, EncPairs(pairs[1..])) && q + |EncPairs(pairs[1..])| == pos + |EncPairs(pairs)|
    ensures ReadPairs(data, pos, |pairs|, acc) == ReadPairs(data, q, |pairs| - 1, acc + [pairs[0]])
    decreases pairs, 0
  {
    q := FirstPairEnds(data, pos, pairs);
    ReadEncPair(data, pos, pairs[0], q, |pairs|, acc);
  }

  lemma FirstPairEnds(data: seq<byte>, pos: nat, pairs: seq<CborPair>) returns (q: nat)
    requires pairs != [] && At(data, pos, EncPairs(pairs))
    ensures q == pos + |EncPair(pairs[0])| && At(data, pos, EncPair(pairs[0]))
    ensures At(data, q, EncPairs(pairs[1..])) && q + |EncPairs(pairs[1..])| == pos + |EncPairs(pairs)|
  {
    q := pos + |EncPair(pairs[0])|;
    AtSplit(data, pos, EncPair(pairs[0]), EncPairs(pairs[1..]));
  }

  lemma PairsStep(data: seq<byte>, pos: nat, n: nat, acc: seq<CborPair>, pair: CborPair, p: nat, q: nat)
    requires n > 0 && pos <= |data| && p <= |data| && q <= |data|
    requires Read(data, pos) == Ok(pair.key, p) && Read(data, p) == Ok(pair.value, q)
    ensures ReadPairs(data, pos, n, acc) == ReadPairs(data, q, n - 1, acc + [pair])
  {
  }

  lemma {:induction false} ReadEncPair(data: seq<byte>, pos: nat, pair: CborPair, q: nat, n: nat, acc: seq<CborPair>)
    requires Valid(pair.key) && Valid(pair.value) && At(data, pos, EncPair(pair)) && q == pos + |EncPair(pair)| && n > 0
    ensures ReadPairs(data, pos, n, acc) == ReadPairs(data, q, n - 1, acc + [pair])
    decreases pair, 0
  {
    var mid := pos + |Enc(pair.key)|;
    AtSplit(data, pos, Enc(pair.key), Enc(pair.value));
    ReadEnc(data, pos, pair.key);
    ReadEnc(data, mid, pair.value);
    PairsStep(data, pos, n, acc, pair, mid, q);
  }

  /** Encodings are prefix-free, hence injective. */
  lemma PrefixFree(v: CborValue, w: CborValue)
    requires Valid(v) && Valid(w)
    ensures Enc(v) <= Enc(w) ==> v == w
  {
    if Enc(v) <= Enc(w) {
      ReadEnc(Enc(w), 0, v);
      ReadEnc(Enc(w), 0, w);
    }
  }

  // ----- encoding what was decoded

  /** Nothing the reader accepts at `pos..q` for `v` is shorter than the encoding of `v`, and
      only the encoding itself is as short (section 4.1 of RFC 8949). */
  predicate Shortest(data: seq<byte>, pos: nat, q: nat, enc: seq<byte>) {
    && pos <= q <= |data|
    && |enc| <= q - pos
    && (|enc| == q - pos ==> data[pos..q] == enc)
  }

  lemma ShortestJoin(data: seq<byte>, pos: nat, mid: nat, q: nat, a: seq<byte>, b: seq<byte>)
    requires Shortest(data, pos, mid, a) && Shortest(data, mid, q, b)
    ensures Shortest(data, pos, q, a + b)
  {
    assert data[pos..q] == data[pos..mid] + data[mid..q];
  }

  lemma HeadAtMost(major: nat, v: nat, k: nat)
    requires major < 8 && IsWidth(k) && v < Pow256(k)
    ensures v <= 0xFFFF_FFFF_FFFF_FFFF && |Head(major, v)| <= 1 + k
    ensures |Head(major, v)| == 1 + k ==> Head(major, v) == [major * 32 + InfoFor(k)] + ToBE(k, v)
  {
    Pow256Values();
    if v >= 24 {
      LongHead(major, v);
      assert Head(major, v) == [Head(major, v)[0]] + Head(major, v)[1..];
    }
  }

  lemma HeadShortest(data: seq<byte>, pos: nat)
    requires pos < |data| && data[pos] / 32 < 7
    ensures var r := Argument(data, pos + 1, data[pos] % 32);
      r.Ok? ==> r.value <= 0xFFFF_FFFF_FFFF_FFFF && Shortest(data, pos, r.pos, Head(data[pos] / 32, r.value))
  {
    var ai := data[pos] % 32;
    var r := Argument(data, pos + 1, ai);
    if r.Ok? {
      if ai < 24 {
        assert data[pos..pos + 1] == [data[pos]];
      } else {
        LongShortest(data, pos, data[pos] / 32, Width(ai));
      }
    }
  }

  lemma LongShortest(data: seq<byte>, pos: nat, major: nat, k: nat)
    requires major < 8 && IsWidth(k) && pos + 1 + k <= |data| && data[pos] == major * 32 + InfoFor(k)
    ensures var v := FromBE(data[pos + 1..pos + 1 + k]);
      v <= 0xFFFF_FFFF_FFFF_FFFF && Shortest(data, pos, pos + 1 + k, Head(major, v))
  {
    var b := data[pos + 1..pos + 1 + k];
    ToFromBE(b);
    HeadAtMost(major, FromBE(b), k);
    assert data[pos..pos + 1 + k] == [data[pos]] + b;
  }

  lemma {:induction false} ReadShortest(data: seq<byte>, pos: nat)
    requires pos <= |data|
    ensures var r := Read(data, pos);
      r.Ok? ==> Valid(r.value) && Shortest(data, pos, r.pos, Enc(r.value))
    decreases |data| - pos, 0
  {
    if pos < |data| && data[pos] / 32 < 6 {
      HeadShortest(data, pos);
      var major := data[pos] / 32;
      var a := Argument(data, pos + 1, data[pos] % 32);
      if a.Ok? {
        var r := ReadBody(data, a.pos, major, a.value);
        if r.Ok? {
          var body := BodyShortest(data, a.pos, major, a.value);
          ShortestJoin(data, pos, a.pos, r.pos, Head(major, a.value), body);
        }
      }
    }
  }

  /** `body` is what follows the head in the encoding of what was read at `p`, and no longer. */
  predicate BodyIs(data: seq<byte>, p: nat, major: nat, arg: nat, body: seq<byte>)
    requires p <= |data| && major < 6 && ReadBody(data, p, major, arg).Ok?
  {
    var r := ReadBody(data, p, major, arg);
    Valid(r.value) && Enc(r.value) == Head(major, arg) + body && Shortest(data, p, r.pos, body)
  }

  lemma {:induction false} BodyShortest(data: seq<byte>, p: nat, major: nat, arg: nat) returns (body: seq<byte>)
    requires p <= |data| && major < 6 && ReadBody(data, p, major, arg).Ok?
    ensures BodyIs(data, p, major, arg, body)
    decreases |data| - p, 4
  {
    if major < 4 {
      body := LeafShortest(data, p, major, arg);
    } else if major == 4 {
      body := ArrayShortest(data, p, arg);
    } else {
      body := MapShortest(data, p, arg);
    }
  }

  lemma LeafShortest(data: seq<byte>, p: nat, major: nat, arg: nat) returns (body: seq<byte>)
    requires p <= |data| && major < 4 && ReadBody(data, p, major, arg).Ok?
    ensures BodyIs(data, p, major, arg, body)
  {
    body := if major < 2 then [] else data[p..p + arg];
  }

  lemma {:induction false} ArrayShortest(data: seq<byte>, p: nat, arg: nat) returns (body: seq<byte>)
    requires p <= |data| && ReadBody(data, p, 4, arg).Ok?
    ensures BodyIs(data, p, 4, arg, body)
    decreases |data| - p, 3
  {
    ItemsShortest(data, p, arg);
    body := EncItems(ReadItems(data, p, arg, []).value);
  }

  lemma {:induction false} MapShortest(data: seq<byte>, p: nat, arg: nat) returns (body: seq<byte>)
    requires p <= |data| && ReadBody(data, p, 5, arg).Ok?
    ensures BodyIs(data, p, 5, arg, body)
    decreases |data| - p, 3
  {
    PairsShortest(data, p, arg);
    body := EncPairs(ReadPairs(data, p, arg, []).value);
  }

  lemma {:induction false} ItemsShortest(data: seq<byte>, p: nat, n: nat)
    requires p <= |data|
    ensures var r := ReadItems(data, p, n, []);
      r.Ok? ==>
        |r.value| == n && (forall x :: x in r.value ==> Valid(x)) && Shortest(data, p, r.pos, EncItems(r.value))
    decreases |data| - p, 2
  {
    var r := ReadItems(data, p, n, []);
    ReadItemsShortest(data, p, n, []);
    if r.Ok? {
      assert r.value[0..] == r.value;
    }
  }

  lemma {:induction false} PairsShortest(data: seq<byte>, p: nat, n: nat)
    requires p <= |data|
    ensures var r := ReadPairs(data, p, n, []);
      r.Ok? ==>
        && |r.value| == n && (forall x :: x in r.value ==> Valid(x.key) && Valid(x.value))
        && Shortest(data, p, r.pos, EncPairs(r.value))
    decreases |data| - p, 2
  {
    var r := ReadPairs(data, p, n, []);
    ReadPairsShortest(data, p, n, []);
    if r.Ok? {
      assert r.value[0..] == r.value;
    }
  }

  lemma {:induction false} ReadItemsShortest(data: seq<byte>, pos: nat, n: nat, acc: seq<CborValue>)
    requires pos <= |data|
    ensures var r := ReadItems(data, pos, n, acc);
      r.Ok? ==>
        && |r.value| == |acc| + n && r.value[..|acc|] == acc
        && (forall x :: x in r.value[|acc|..] ==> Valid(x))
        && Shortest(data, pos, r.pos, EncItems(r.value[|acc|..]))
    decreases |data| - pos, 1
  {
    var r := ReadItems(data, pos, n, acc);
    if n > 0 && r.Ok? {
      ReadShortest(data, pos);
      var Ok(v, p) := Read(data, pos);
      ReadItemsShortest(data, p, n - 1, acc + [v]);
      var items := r.value[|acc|..];
      assert items[0] == r.value[..|acc| + 1][|acc|] == v;
      assert items[1..] == r.value[|acc| + 1..];
      ShortestJoin(data, pos, p, r.pos, Enc(v), EncItems(items[1..]));
      assert items == [v] + items[1..];
    }
  }

  lemma {:induction false} ReadPairsShortest(data: seq<byte>, pos: nat, n: nat, acc: seq<CborPair>)
    requires pos <= |data|
    ensures var r := ReadPairs(data, pos, n, acc);
      r.Ok? ==>
        && |r.value| == |acc| + n && r.value[..|acc|] == acc
        && (forall x :: x in r.value[|acc|..] ==> Valid(x.key) && Valid(x.value))
        && Shortest(data, pos, r.pos, EncPairs(r.value[|acc|..]))
    decreases |data| - pos, 1
  {
    var r := ReadPairs(data, pos, n, acc);
    if n > 0 && r.Ok? {
      ReadShortest(data, pos);
      var Ok(k, p) := Read(data, pos);
      ReadShortest(data, p);
      var Ok(v, q) := Read(data, p);
      ReadPairsShortest(data, q, n - 1, acc + [CborPair(k, v)]);
      var pairs := r.value[|acc|..];
      assert pairs[0] == r.value[..|acc| + 1][|acc|] == CborPair(k, v);
      assert pairs[1..] == r.value[|acc| + 1..];
      ShortestJoin(data, pos, p, q, Enc(k), Enc(v));
      ShortestJoin(data, pos, q, r.pos, EncPair(pairs[0]), EncPairs(pairs[1..]));
      assert pairs == [pairs[0]] + pairs[1..];
    }
  }

  /** What was read re-encodes to no more bytes than were consumed, reads back the same from
      there, and the consumed bytes were the encoding exactly when their length was the same. */
  lemma ReencodingIsCanonical(data: seq<byte>)
    ensures var r := Read(data, 0);
      r.Ok? ==>
        && |Enc(r.value)| <= r.pos
        && Read(Enc(r.value), 0) == Ok(r.value, |Enc(r.value)|)
        && (|Enc(r.value)| == r.pos <==> data[..r.pos] == Enc(r.value))
  {
    ReadShortest(data, 0);
    var r := Read(data, 0);
    if r.Ok? {
      ReadEnc(Enc(r.value), 0, r.value);
      assert data[0..r.pos] == data[..r.pos];
    }
  }

  // ----- the writer

  method WriteHead(out: seq<byte>, major: nat, arg: nat) returns (r: seq<byte>)
    requires major < 8 && arg <= 0xFFFF_FFFF_FFFF_FFFF
    ensures r == out + Head(major, arg)
  {
    var m := major * 32;
    if arg < 24 {
      r := out + [m + arg];
    } else if arg <= 0xFF {
      r := out + [m + 24] + [arg];
    } else if arg <= 0xFFFF {
      r := out + [m + 25] + [(arg / 256) % 256] + [arg % 256];
      assert ToBE(2, arg) == ToBE(1, arg / 256) + [arg % 256];
      assert ToBE(1, arg / 256) == ToBE(0, arg / 256 / 256) + [(arg / 256) % 256];
    } else if arg <= 0xFFFF_FFFF {
      r := WriteBytes(out + [m + 26], 4, arg);
    } else {
      r := WriteBytes(out + [m + 27], 8, arg);
    }
  }

  /** The shift loops: the byte `shift` places up, from the highest down. */
  method WriteBytes(out: seq<byte>, k: nat, arg: nat) returns (r: seq<byte>)
    ensures r == out + ToBE(k, arg)
  {
    r := out;
    var shift := k;
    ghost var v := arg / Pow256(k);
    while shift > 0
      invariant 0 <= shift <= k
      invariant v == arg / Pow256(shift)
      invariant r == out + ToBE(k - shift, v)
    {
      shift := shift - 1;
      var b: byte := ByteAt(arg, shift);
      NextByte(arg, shift);
      ghost var v' := arg / Pow256(shift);
      ToBESnoc(k - shift - 1, v');
      r, v := r + [b], v';
    }
  }

  /** `(arg >> 8 * shift) & 0xFF` */
  function ByteAt(arg: nat, shift: nat): byte { (arg / Pow256(shift)) % 256 }

  lemma NextByte(arg: nat, shift: nat)
    ensures (arg / Pow256(shift)) / 256 == arg / Pow256(shift + 1)
  {
    DivDiv(arg, Pow256(shift));
  }

  lemma ToBESnoc(j: nat, v: nat)
    ensures ToBE(j + 1, v) == ToBE(j, v / 256) + [v % 256]
  {
  }

  lemma {:induction false} EncItemsSnoc(items: seq<CborValue>, v: CborValue)
    ensures EncItems(items + [v]) == EncItems(items) + Enc(v)
  {
    if items != [] {
      assert (items + [v])[1..] == items[1..] + [v];
      EncItemsSnoc(items[1..], v);
    }
  }

  lemma {:induction false} EncPairsSnoc(pairs: seq<CborPair>, p: CborPair)
    ensures EncPairs(pairs + [p]) == EncPairs(pairs) + EncPair(p)
  {
    if pairs != [] {
      assert (pairs + [p])[1..] == pairs[1..] + [p];
      EncPairsSnoc(pairs[1..], p);
    }
  }

  method WriteValue(out: seq<byte>, v: CborValue) returns (r: seq<byte>)
    requires Valid(v)
    ensures r == out + Enc(v)
    decreases v
  {
    match v
    case CNull => r := out + [0xF6];
    case CBool(b) => r := out + [if b then 0xF5 else 0xF4];
    case CInt(i) =>
      if i >= 0 {
        r := WriteHead(out, 0, i);
      } else {
        r := WriteHead(out, 1, -1 - i);
      }
    case CBytes(b) =>
      r := WriteHead(out, 2, |b|);
      r := r + b;
    case CText(t) =>
      r := WriteHead(out, 3, |t|);
      r := r + t;
    case CArray(items) =>
      r := WriteHead(out, 4, |items|);
      r := WriteItems(r, items);
    case CMap(pairs) =>
      r := WriteHead(out, 5, |pairs|);
      r := WritePairs(r, pairs);
  }

  method WriteItems(out: seq<byte>, items: seq<CborValue>) returns (r: seq<byte>)
    requires forall x :: x in items ==> Valid(x)
    ensures r == out + EncItems(items)
    decreases items
  {
    r := out;
    for i := 0 to |items|
      invariant r == out + EncItems(items[..i])
    {
      EncItemsSnoc(items[..i], items[i]);
      assert items[..i + 1] == items[..i] + [items[i]];
      r := WriteValue(r, items[i]);
    }
    assert items[..|items|] == items;
  }

  lemma PairsUpTo(pairs: seq<CborPair>, i: nat, out: seq<byte>)
    requires i < |pairs|
    ensures (out + EncPairs(pairs[..i])) + EncPair(pairs[i]) == out + EncPairs(pairs[..i + 1])
  {
    EncPairsSnoc(pairs[..i], pairs[i]);
    assert pairs[..i + 1] == pairs[..i] + [pairs[i]];
  }

  method WritePairs(out: seq<byte>, pairs: seq<CborPair>) returns (r: seq<byte>)
    requires forall p :: p in pairs ==> Valid(p.key) && Valid(p.value)
    ensures r == out + EncPairs(pairs)
    decreases pairs
  {
    r := out;
    for i := 0 to |pairs|
      invariant r == out + EncPairs(pairs[..i])
    {
      PairsUpTo(pairs, i, out);
      r := WritePair(r, pairs[i]);
    }
    assert pairs[..|pairs|] == pairs;
  }

  method WritePair(out: seq<byte>, p: CborPair) returns (r: seq<byte>)
    requires Valid(p.key) && Valid(p.value)
    ensures r == out + EncPair(p)
    decreases p
  {
    r := WriteValue(out, p.key);
    r := WriteValue(r, p.value);
  }

  method Encode(v: CborValue) returns (r: seq<byte>)
    requires Valid(v)
    ensures r == Enc(v)
  {
    r := WriteValue([], v);
  }

  // ----- the reader

  datatype Result<+T> = Success(value: T) | Failure(error: DecodeError)

  /** A method's outcome and the reader's new position are what the reading function says. */
  predicate Agrees<T(==)>(r: Result<T>, pos: nat, spec: Parsed<T>) {
    match spec
    case Ok(v, q) => r == Success(v) && pos == q
    case Err(e) => r == Failure(e)
  }

  class Reader {
    const data: seq<byte>
    var pos: nat

    constructor (data: seq<byte>)
      ensures this.data == data && pos == 0
    {
      this.data := data;
      pos := 0;
    }

    method U8() returns (r: Result<byte>)
      modifies this
      ensures old(pos) < |data| ==> r == Success(data[old(pos)]) && pos == old(pos) + 1
      ensures old(pos) >= |data| ==> r == Failure(Truncated) && pos == old(pos)
    {
      if pos >= |data| {
        return Failure(Truncated);
      }
      r := Success(data[pos]);
      pos := pos + 1;
    }

    method ReadBE(n: nat) returns (r: Result<nat>)
      requires pos <= |data|
      modifies this
      ensures pos <= |data|
      ensures Agrees(r, pos, if old(pos) + n <= |data| then Ok(FromBE(data[old(pos)..old(pos) + n]), old(pos) + n)
                             else Err(Truncated))
    {
      var v := 0;
      var i := 0;
      while i < n
        invariant 0 <= i <= n && pos == old(pos) + i <= |data|
        invariant v == FromBE(data[old(pos)..pos])
      {
        var b := U8();
        if b.Failure? {
          return Failure(b.error);
        }
        assert data[old(pos)..pos][..i] == data[old(pos)..pos - 1];
        v := 256 * v + (b.value as int);
        i := i + 1;
      }
      r := Success(v);
    }

    method ReadArgument(ai: nat) returns (r: Result<nat>)
      requires pos <= |data|
      modifies this
      ensures pos <= |data|
      ensures Agrees(r, pos, Argument(data, old(pos), ai))
    {
      if ai < 24 {
        r := Success(ai);
      } else if ai == 24 {
        r := ReadBE(1);
      } else if ai == 25 {
        r := ReadBE(2);
      } else if ai == 26 {
        r := ReadBE(4);
      } else if ai == 27 {
        r := ReadBE(8);
      } else {
        r := Failure(BadInfo);
      }
    }

    method TakeBytes(n: nat) returns (r: Result<seq<byte>>)
      requires pos <= |data|
      modifies this
      ensures pos <= |data|
      ensures Agrees(r, pos, if old(pos) + n <= |data| then Ok(data[old(pos)..old(pos) + n], old(pos) + n)
                             else Err(Truncated))
    {
      if |data| - pos < n {
        return Failure(Truncated);
      }
      r := Success(data[pos..pos + n]);
      pos := pos + n;
    }

    method ReadArray(n: nat) returns (r: Result<seq<CborValue>>)
      requires pos <= |data|
      modifies this
      ensures pos <= |data|
      ensures Agrees(r, pos, ReadItems(data, old(pos), n, []))
      decreases |data| - pos, 1
    {
      var list: seq<CborValue> := [];
      var i := 0;
      while i < n
        invariant 0 <= i <= n && old(pos) <= pos <= |data|
        invariant ReadItems(data, pos, n - i, list) == ReadItems(data, old(pos), n, [])
      {
        var v := ReadValue();
        if v.Failure? {
          return Failure(v.error);
        }
        list := list + [v.value];
        i := i + 1;
      }
      r := Success(list);
    }

    method ReadMap(n: nat) returns (r: Result<seq<CborPair>>)
      requires pos <= |data|
      modifies this
      ensures pos <= |data|
      ensures Agrees(r, pos, ReadPairs(data, old(pos), n, []))
      decreases |data| - pos, 1
    {
      var pairs: seq<CborPair> := [];
      var i := 0;
      while i < n
        invariant 0 <= i <= n && old(pos) <= pos <= |data|
        invariant ReadPairs(data, pos, n - i, pairs) == ReadPairs(data, old(pos), n, [])
      {
        var k := ReadValue();
        if k.Failure? {
          return Failure(k.error);
        }
        var v := ReadValue();
        if v.Failure? {
          return Failure(v.error);
        }
        pairs := pairs + [CborPair(k.value, v.value)];
        i := i + 1;
      }
      r := Success(pairs);
    }

    /** `read`: the position never passes the end of the data, whatever the data. */
    method ReadValue() returns (r: Result<CborValue>)
      requires pos <= |data|
      modifies this
      ensures pos <= |data|
      ensures Agrees(r, pos, Read(data, old(pos)))
      decreases |data| - pos, 0
    {
      var initial := U8();
      if initial.Failure? {
        return Failure(initial.error);
      }
      var major, ai := initial.value / 32, initial.value % 32;
      if major == 7 {
        return if ai == 20 then Success(CBool(false))
               else if ai == 21 then Success(CBool(true))
               else if ai == 22 then Success(CNull)
               else Failure(UnsupportedSimple);
      }
      if major == 6 {
        return Failure(UnsupportedMajor);
      }
      var arg := ReadArgument(ai);
      if arg.Failure? {
        return Failure(arg.error);
      }
      var n := arg.value;
      if n > INT64_MAX {
        return Failure(if major < 2 then IntegerOverflow else LengthOverflow);
      }
      if major == 0 {
        r := Success(CInt(n));
      } else if major == 1 {
        r := Success(CInt(-1 - n));
      } else if major == 2 {
        var b := TakeBytes(n);
        r := if b.Failure? then Failure(b.error) else Success(CBytes(b.value));
      } else if major == 3 {
        var b := TakeBytes(n);
        r := if b.Failure? then Failure(b.error)
             else if ValidUtf8(b.value) then Success(CText(b.value)) else Failure(InvalidUtf8);
      } else if major == 4 {
        var list := ReadArray(n);
        r := if list.Failure? then Failure(list.error) else Success(CArray(list.value));
      } else {
        var pairs := ReadMap(n);
        r := if pairs.Failure? then Failure(pairs.error) else Success(CMap(pairs.value));
      }
    }
  }

  /** `decodeWithLength`. */
  method DecodeWithLength(data: seq<byte>) returns (r: Parsed<CborValue>)
    ensures r == Read(data, 0)
  {
    var reader := new Reader(data);
    var v := reader.ReadValue();
    r := if v.Success? then Ok(v.value, reader.pos) else Err(v.error);
  }
}
