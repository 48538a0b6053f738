/** Bytes, and the big-endian integers every wire format of the project uses. */
module Bytes {

  type byte = x: int | 0 <= x < 256

  datatype Option<+T> = None | Some(value: T)

  datatype Outcome<+T, +E> = Good(value: T) | Bad(error: E)

  /** The low eight bits. */
  function Low8(x: int): byte { x % 256 }

  /** The bytes of `parts`, one after the other. */
  function Concat(parts: seq<seq<byte>>): seq<byte> {
    if parts == [] then [] else parts[0] + Concat(parts[1..])
  }

  lemma {:induction false} ConcatAppend(a: seq<seq<byte>>, b: seq<seq<byte>>)
    ensures Concat(a + b) == Concat(a) + Concat(b)
  {
    if a == [] {
      assert a + b == b;
    } else {
      assert (a + b)[1..] == a[1..] + b;
      ConcatAppend(a[1..], b);
    }
  }

  lemma ConcatSnoc(a: seq<seq<byte>>, x: seq<byte>)
    ensures Concat(a + [x]) == Concat(a) + x
  {
    ConcatAppend(a, [x]);
    assert Concat([x]) == x + Concat([]);
  }

  /** `part` stands in `data` at position `pos`. */
  predicate At(data: seq<byte>, pos: nat, part: seq<byte>) {
    pos + |part| <= |data| && data[pos..pos + |part|] == part
  }

  lemma AtSplit(data: seq<byte>, pos: nat, a: seq<byte>, b: seq<byte>)
    requires At(data, pos, a + b)
    ensures At(data, pos, a) && At(data, pos + |a|, b)
  {
    var w := data[pos..pos + |a + b|];
    assert w[..|a|] == a && w[|a|..] == b;
    assert data[pos..pos + |a|] == w[..|a|];
    assert data[pos + |a|..pos + |a| + |b|] == w[|a|..];
  }

  lemma PairAt(data: seq<byte>, pos: nat, pair: seq<byte>)
    requires |pair| == 2 && At(data, pos, pair)
    ensures data[pos] == pair[0] && data[pos + 1] == pair[1]
  {
    assert data[pos] == data[pos..pos + 2][0] && data[pos + 1] == data[pos..pos + 2][1];
  }

  // ----- big-endian integers

  function Pow256(k: nat): (p: nat)
    ensures p > 0
  {
    if k == 0 then 1 else 256 * Pow256(k - 1)
  }

  lemma Pow256Values()
    ensures Pow256(1) == 0x100 && Pow256(2) == 0x1_0000 && Pow256(4) == 0x1_0000_0000
    ensures Pow256(8) == 0x1_0000_0000_0000_0000
  {
    assert Pow256(3) == 0x100_0000;
    assert Pow256(4) == 256 * Pow256(3);
    assert Pow256(5) == 256 * Pow256(4);
    assert Pow256(6) == 256 * Pow256(5);
    assert Pow256(7) == 256 * Pow256(6);
    assert Pow256(8) == 256 * Pow256(7);
  }

  /** The low `k` bytes of `v`, most significant first. */
  function ToBE(k: nat, v: nat): (b: seq<byte>)
    ensures |b| == k
  {
    if k == 0 then [] else ToBE(k - 1, v / 256) + [v % 256]
  }

  function FromBE(b: seq<byte>): (v: nat) {
    if b == [] then 0 else 256 * FromBE(b[..|b| - 1]) + b[|b| - 1]
  }

  lemma {:induction false} FromToBE(k: nat, v: nat)
    ensures FromBE(ToBE(k, v)) == v % Pow256(k)
  {
    if k > 0 {
      FromToBE(k - 1, v / 256);
      var b := ToBE(k, v);
      assert b[..|b| - 1] == ToBE(k - 1, v / 256);
      ModStep(v, Pow256(k - 1));
    }
  }

  lemma ModStep(v: nat, p: nat)
    requires p > 0
    ensures 256 * ((v / 256) % p) + v % 256 == v % (256 * p)
  {
    var q := (v / 256) / p;
    var r := (v / 256) % p;
    assert v / 256 == q * p + r;
    assert v == q * (256 * p) + (256 * r + v % 256);
    DivModUnique(v, 256 * p, q, 256 * r + v % 256);
  }

  lemma DivModUnique(v: nat, d: nat, q: nat, r: nat)
    requires d > 0 && r < d && v == q * d + r
    ensures v / d == q && v % d == r
  {
    QuotientUnique(d, q, r, v / d, v % d);
  }

  lemma QuotientUnique(d: nat, q: nat, r: nat, q': nat, r': nat)
    requires r < d && r' < d && q * d + r == q' * d + r'
    ensures q == q' && r == r'
  {
    if q < q' {
      ScaleGap(d, q, q');
    } else if q' < q {
      ScaleGap(d, q', q);
    }
  }

  lemma ScaleGap(d: nat, a: nat, b: nat)
    requires a < b
    ensures a * d + d <= b * d
  {
    var k := b - a - 1;
    calc {
      b * d;
      (a + 1 + k) * d;
      a * d + d + k * d;
    }
  }

  lemma {:induction false} ToFromBE(b: seq<byte>)
    ensures ToBE(|b|, FromBE(b)) == b
    ensures FromBE(b) < Pow256(|b|)
  {
    if b != [] {
      ToFromBE(b[..|b| - 1]);
      assert FromBE(b) / 256 == FromBE(b[..|b| - 1]);
      assert FromBE(b) % 256 == b[|b| - 1];
      assert b == b[..|b| - 1] + [b[|b| - 1]];
    }
  }

  lemma SmallMod(v: nat, p: nat)
    requires v < p
    ensures v % p == v
  {
  }

  /** A value that fits `k` bytes comes back from them. */
  lemma FromToBEExact(k: nat, v: nat)
    requires v < Pow256(k)
    ensures FromBE(ToBE(k, v)) == v
  {
    FromToBE(k, v);
    SmallMod(v, Pow256(k));
  }

  /** The first element and the rest of a part, where it stands. */
  lemma ConsAt(data: seq<byte>, pos: nat, part: seq<byte>)
    requires part != [] && At(data, pos, part)
    ensures data[pos] == part[0] && data[pos + 1..pos + |part|] == part[1..]
  {
    var w := data[pos..pos + |part|];
    assert data[pos] == w[0] && data[pos + 1..pos + |part|] == w[1..];
  }

  lemma DivDiv(v: nat, p: nat)
    requires p > 0
    ensures (v / p) / 256 == v / (256 * p)
  {
    var q, r := v / p, v % p;
    var a, b := q / 256, q % 256;
    ScaleParts(a, b, p);
    DivModUnique(v, 256 * p, a, b * p + r);
  }

  lemma ScaleParts(a: nat, b: nat, p: nat)
    requires b < 256
    ensures (256 * a + b) * p == a * (256 * p) + b * p
    ensures b * p + p <= 256 * p
  {
    ScaleGap(p, b, 256);
  }

  /** Moving the first of `xs` over to `acc`. */
  lemma MoveFirst<T>(acc: seq<T>, xs: seq<T>)
    requires xs != []
    ensures (acc + [xs[0]]) + xs[1..] == acc + xs
  {
  }

  /** Two big-endian bytes: the low sixteen bits, as the framing code writes and reads them. */
  function Be16(v: int): (b: seq<byte>)
    ensures |b| == 2
  {
    [(v / 256) % 256, v % 256]
  }

  function FromBe16(hi: byte, lo: byte): (v: nat)
    ensures v < 0x1_0000
  {
    256 * hi + lo
  }

  lemma FromBe16RoundTrip(hi: byte, lo: byte)
    ensures Be16(FromBe16(hi, lo)) == [hi, lo]
  {
  }

  lemma Be16RoundTrip(v: int)
    ensures FromBe16(Be16(v)[0], Be16(v)[1]) == v % 0x1_0000
  {
  }

  lemma Be16Reads(v: int)
    requires 0 <= v < 0x1_0000
    ensures FromBe16(Be16(v)[0], Be16(v)[1]) == v
  {
    Be16RoundTrip(v);
  }

  lemma Be16Low(v: int)
    ensures Be16(v) == Be16(v % 0x1_0000)
  {
    Be16RoundTrip(v);
    FromBe16RoundTrip(Be16(v)[0], Be16(v)[1]);
  }
}
