/** graph6: the order in one or four bytes, then the upper triangle column by column, six bits a byte. One
    encoder and two parsers. */
module Graph6 {
  import opened Outcomes
  import opened Collections
  import opened Graphs

  type Bytes = seq<int>

  const LARGEST := 258047

  // ---------- the bits of a graph ----------

  function Triangle(v: nat): nat {
    if v == 0 then 0 else Triangle(v - 1) + (v - 1)
  }

  lemma {:induction false} TriangleClosedForm(v: nat)
    ensures Triangle(v) == v * (v - 1) / 2
  {
    if v > 0 {
      TriangleClosedForm(v - 1);
      assert v * (v - 1) == (v - 1) * (v - 2) + 2 * (v - 1);
    }
  }

  /** The bits of the columns before v. */
  ghost function Columns(g: Graph, v: nat): (bits: seq<bool>)
    requires v <= g.n
    ensures |bits| == Triangle(v)
  {
    if v == 0 then [] else Columns(g, v - 1) + seq(v - 1, u requires 0 <= u < v - 1 => Edge(g, u, v - 1))
  }

  lemma {:induction false} ColumnsAt(g: Graph, w: nat, u: nat, v: nat)
    requires u < v < w <= g.n
    ensures Triangle(v) + u < Triangle(w)
    ensures Columns(g, w)[Triangle(v) + u] == Edge(g, u, v)
    decreases w
  {
    if v < w - 1 {
      ColumnsAt(g, w - 1, u, v);
    }
  }

  /** A graph is its order and its upper triangle. */
  lemma SameTriangleSameGraph(g: Graph, h: Graph)
    requires g.n == h.n
    requires forall u, v :: 0 <= u < v < g.n ==> (Edge(g, u, v) <==> Edge(h, u, v))
    ensures g == h
  {
    forall u | 0 <= u < g.n
      ensures g.rows[u] == h.rows[u]
    {
      forall v: nat
        ensures v in g.rows[u] <==> v in h.rows[u]
      {
        EdgeSymmetric(g, u, v);
        EdgeSymmetric(h, u, v);
        if v < u {
          assert Edge(g, v, u) <==> Edge(h, v, u);
        } else if v > u {
          if v < g.n {
            assert Edge(g, u, v) <==> Edge(h, u, v);
          }
        }
      }
    }
  }

  // ---------- six bits a byte ----------

  function Bit(bits: seq<bool>, k: nat): (b: nat)
    ensures b <= 1
  {
    if k < |bits| && bits[k] then 1 else 0
  }

  /** The i-th group of six bits as a number, missing bits read as zero. */
  function GroupValue(bits: seq<bool>, i: nat): (x: nat)
    ensures x < 64
  {
    32 * Bit(bits, 6 * i) + 16 * Bit(bits, 6 * i + 1) + 8 * Bit(bits, 6 * i + 2)
    + 4 * Bit(bits, 6 * i + 3) + 2 * Bit(bits, 6 * i + 4) + Bit(bits, 6 * i + 5)
  }

  function Pack(bits: seq<bool>): (data: Bytes)
    ensures |data| == (|bits| + 5) / 6
    ensures forall i :: 0 <= i < |data| ==> data[i] == GroupValue(bits, i) + 63
  {
    seq((|bits| + 5) / 6, i requires 0 <= i => GroupValue(bits, i) + 63)
  }

  /** A byte's value moved down until the bit of a position is the lowest. */
  function Shifted(x: int, k: nat): int {
    match k % 6
    case 0 => x / 32
    case 1 => x / 16
    case 2 => x / 8
    case 3 => x / 4
    case 4 => x / 2
    case _ => x
  }

  /** The test a parser makes for the bit at a position. */
  predicate BitSet(data: Bytes, k: nat)
    requires k / 6 < |data|
  {
    Shifted(data[k / 6] - 63, k) % 2 == 1
  }

  lemma Halves(x: nat, y: nat)
    requires y == x / 2
    ensures x == 2 * y + x % 2
    ensures x / 4 == y / 2 && x / 8 == y / 4 && x / 16 == y / 8 && x / 32 == y / 16
  {
  }

  lemma Half(x: nat, y: nat, b: nat)
    requires x == 2 * y + b && b <= 1
    ensures x / 2 == y && x % 2 == b
  {
  }

  lemma UnpackGroup(b0: nat, b1: nat, b2: nat, b3: nat, b4: nat, b5: nat)
    requires b0 <= 1 && b1 <= 1 && b2 <= 1 && b3 <= 1 && b4 <= 1 && b5 <= 1
    ensures var x := 32 * b0 + 16 * b1 + 8 * b2 + 4 * b3 + 2 * b4 + b5;
      && x / 32 % 2 == b0 && x / 16 % 2 == b1 && x / 8 % 2 == b2
      && x / 4 % 2 == b3 && x / 2 % 2 == b4 && x % 2 == b5
  {
    var c := 2 * b0 + b1;
    var d := 2 * c + b2;
    var e := 2 * d + b3;
    var f := 2 * e + b4;
    var x := 2 * f + b5;
    assert x / 2 == f && x / 4 == f / 2 && x / 8 == f / 4 && x / 16 == f / 8 && x / 32 == f / 16 && x % 2 == b5 by {
      Half(x, f, b5);
      Halves(x, f);
    }
    assert f / 2 == e && f / 4 == e / 2 && f / 8 == e / 4 && f / 16 == e / 8 && f % 2 == b4 by {
      Half(f, e, b4);
      Halves(f, e);
    }
    assert e / 2 == d && e / 4 == d / 2 && e / 8 == d / 4 && e % 2 == b3 by {
      Half(e, d, b3);
      Halves(e, d);
    }
    assert d / 2 == c && d / 4 == c / 2 && d % 2 == b2 by {
      Half(d, c, b2);
      Halves(d, c);
    }
    Half(c, b0, b1);
  }

  lemma GroupBit(bits: seq<bool>, i: nat, t: nat)
    requires t < 6
    ensures Shifted(GroupValue(bits, i), t) % 2 == Bit(bits, 6 * i + t)
  {
    GroupBits(bits, i);
    hide GroupValue, Bit;
    assert t == 0 || t == 1 || t == 2 || t == 3 || t == 4 || t == 5;
  }

  lemma GroupBits(bits: seq<bool>, i: nat)
    ensures var x := GroupValue(bits, i);
      && x / 32 % 2 == Bit(bits, 6 * i) && x / 16 % 2 == Bit(bits, 6 * i + 1) && x / 8 % 2 == Bit(bits, 6 * i + 2)
      && x / 4 % 2 == Bit(bits, 6 * i + 3) && x / 2 % 2 == Bit(bits, 6 * i + 4) && x % 2 == Bit(bits, 6 * i + 5)
  {
    hide Bit;
    UnpackGroup(Bit(bits, 6 * i), Bit(bits, 6 * i + 1), Bit(bits, 6 * i + 2),
                Bit(bits, 6 * i + 3), Bit(bits, 6 * i + 4), Bit(bits, 6 * i + 5));
  }

  lemma PositionInGroup(i: nat, t: nat, x: int)
    requires t < 6
    ensures (6 * i + t) / 6 == i && (6 * i + t) % 6 == t && Shifted(x, 6 * i + t) == Shifted(x, t)
  {
    Position(i, t);
  }

  lemma Position(i: nat, t: nat)
    requires t < 6
    ensures (6 * i + t) / 6 == i && (6 * i + t) % 6 == t
  {
  }

  lemma PackedBit(bits: seq<bool>, k: nat)
    requires k < |bits|
    ensures k / 6 < |Pack(bits)|
    ensures BitSet(Pack(bits), k) <==> bits[k]
  {
    hide Shifted, GroupValue;
    var i, t := k / 6, k % 6;
    PositionInGroup(i, t, GroupValue(bits, i));
    GroupBit(bits, i, t);
    assert Pack(bits)[i] - 63 == GroupValue(bits, i);
  }

  /** What the padding mask of m bits leaves of the last byte's value. */
  function Masked(x: int, m: nat): int {
    match m % 6
    case 1 => x % 32
    case 2 => x % 16
    case 3 => x % 8
    case 4 => x % 4
    case 5 => x % 2
    case _ => 0
  }

  predicate PaddingClear(data: Bytes, m: nat) {
    m % 6 != 0 && data != [] ==> Masked(data[|data| - 1] - 63, m) == 0
  }

  lemma Multiple(y: nat)
    ensures 32 * y % 32 == 0 && 16 * y % 16 == 0 && 8 * y % 8 == 0 && 4 * y % 4 == 0 && 2 * y % 2 == 0
  {
  }

  lemma ClearTail(x: nat, b: seq<nat>, r: nat)
    requires |b| == 6 && 1 <= r <= 5 && forall t :: r <= t < 6 ==> b[t] == 0
    requires x == 32 * b[0] + 16 * b[1] + 8 * b[2] + 4 * b[3] + 2 * b[4] + b[5]
    ensures Masked(x, r) == 0
  {
    assert b[5] == 0;
    if r == 1 {
      assert b[1] == b[2] == b[3] == b[4] == 0;
      Multiple(b[0]);
    } else if r == 2 {
      assert b[2] == b[3] == b[4] == 0;
      Multiple(2 * b[0] + b[1]);
    } else if r == 3 {
      assert b[3] == b[4] == 0;
      Multiple(4 * b[0] + 2 * b[1] + b[2]);
    } else if r == 4 {
      assert b[4] == 0;
      Multiple(8 * b[0] + 4 * b[1] + 2 * b[2] + b[3]);
    } else {
      Multiple(16 * b[0] + 8 * b[1] + 4 * b[2] + 2 * b[3] + b[4]);
    }
  }

  lemma SameMask(x: int, i: nat, r: nat)
    requires r < 6
    ensures Masked(x, 6 * i + r) == Masked(x, r)
  {
    Position(i, r);
  }

  /** The last group, when it is not full, ends in zeros. */
  lemma TailGroup(bits: seq<bool>, i: nat, r: nat)
    requires |bits| == 6 * i + r && 1 <= r <= 5
    ensures Masked(GroupValue(bits, i), r) == 0
  {
    hide Masked;
    var digits := [Bit(bits, 6 * i), Bit(bits, 6 * i + 1), Bit(bits, 6 * i + 2),
                   Bit(bits, 6 * i + 3), Bit(bits, 6 * i + 4), Bit(bits, 6 * i + 5)];
    assert forall t :: r <= t < 6 ==> digits[t] == 0;
    ClearTail(GroupValue(bits, i), digits, r);
  }

  lemma PackedPadding(bits: seq<bool>)
    ensures PaddingClear(Pack(bits), |bits|)
  {
    var i, r := |bits| / 6, |bits| % 6;
    if r != 0 {
      hide Masked, Pack, GroupValue;
      assert |bits| == 6 * i + r && |Pack(bits)| == i + 1;
      TailGroup(bits, i, r);
      SameMask(GroupValue(bits, i), i, r);
      assert Pack(bits)[i] == GroupValue(bits, i) + 63;
    }
  }

  function Unpack(data: Bytes, m: nat): (bits: seq<bool>)
    requires |data| == (m + 5) / 6
    ensures |bits| == m && forall k :: 0 <= k < m ==> bits[k] == BitSet(data, k)
  {
    seq(m, k requires 0 <= k < m => BitSet(data, k))
  }

  lemma SixBits(x: nat)
    requires x < 64
    ensures x == 32 * (x / 32 % 2) + 16 * (x / 16 % 2) + 8 * (x / 8 % 2) + 4 * (x / 4 % 2) + 2 * (x / 2 % 2) + x % 2
  {
    var a, b, c, d, e := x / 2, x / 4, x / 8, x / 16, x / 32;
    assert b == a / 2 && c == a / 4 && d == a / 8 && e == a / 16 && x == 2 * a + x % 2 by { Halves(x, a); }
    assert c == b / 2 && d == b / 4 && e == b / 8 && a == 2 * b + a % 2 by { Halves(a, b); }
    assert d == c / 2 && e == c / 4 && b == 2 * c + b % 2 by { Halves(b, c); }
    assert e == d / 2 && c == 2 * d + c % 2 by { Halves(c, d); }
    assert d == 2 * e + d % 2;
    assert e == e % 2;
  }

  lemma Divisible32(x: nat)
    requires x % 32 == 0
    ensures x / 16 % 2 == 0 && x % 16 == 0
  {
    assert x / 16 == 2 * (x / 32);
  }

  lemma Divisible16(x: nat)
    requires x % 16 == 0
    ensures x / 8 % 2 == 0 && x % 8 == 0
  {
    assert x / 8 == 2 * (x / 16);
  }

  lemma Divisible8(x: nat)
    requires x % 8 == 0
    ensures x / 4 % 2 == 0 && x % 4 == 0
  {
    assert x / 4 == 2 * (x / 8);
  }

  lemma Divisible4(x: nat)
    requires x % 4 == 0
    ensures x / 2 % 2 == 0 && x % 2 == 0
  {
    assert x / 2 == 2 * (x / 4);
  }

  /** A number with a clear mask has a zero in the bit below the mask, and a clear shorter mask. */
  lemma EvenQuotient(x: nat, r: nat)
    requires 1 <= r <= 5 && Masked(x, r) == 0
    ensures Shifted(x, r) % 2 == 0
    ensures r < 5 ==> Masked(x, r + 1) == 0
  {
    if r == 1 {
      Divisible32(x);
    } else if r == 2 {
      Divisible16(x);
    } else if r == 3 {
      Divisible8(x);
    } else if r == 4 {
      Divisible4(x);
    }
  }

  /** The bits under the padding mask of a clear byte are zero. */
  lemma {:induction false} PaddingBit(x: nat, r: nat, t: nat)
    requires x < 64 && 1 <= r <= t < 6 && Masked(x, r) == 0
    ensures Shifted(x, t) % 2 == 0
    decreases t - r
  {
    EvenQuotient(x, r);
    hide Masked, Shifted;
    if r < t {
      PaddingBit(x, r + 1, t);
    }
  }

  lemma UnpackedBit(data: Bytes, m: nat, i: nat, t: nat)
    requires |data| == (m + 5) / 6 && i < |data| && t < 6 && 63 <= data[i] <= 126
    requires PaddingClear(data, m)
    ensures Bit(Unpack(data, m), 6 * i + t) == Shifted(data[i] - 63, t) % 2
  {
    hide Shifted, Masked;
    PositionInGroup(i, t, data[i] - 63);
    if 6 * i + t >= m {
      var r := m - 6 * i;
      Position(i, r);
      assert m == 6 * i + r && i == |data| - 1;
      SameMask(data[i] - 63, i, r);
      PaddingBit(data[i] - 63, r, t);
    } else {
      assert Unpack(data, m)[6 * i + t] == BitSet(data, 6 * i + t);
    }
  }

  /** Unpacking and packing again gives the bytes back, when they are in range and the padding is clear. */
  lemma RepackedByte(data: Bytes, m: nat, i: nat)
    requires |data| == (m + 5) / 6 && i < |data| && 63 <= data[i] <= 126
    requires PaddingClear(data, m)
    ensures GroupValue(Unpack(data, m), i) == data[i] - 63
  {
    hide Unpack, Bit, BitSet, PaddingClear;
    UnpackedBit(data, m, i, 0);
    UnpackedBit(data, m, i, 1);
    UnpackedBit(data, m, i, 2);
    UnpackedBit(data, m, i, 3);
    UnpackedBit(data, m, i, 4);
    UnpackedBit(data, m, i, 5);
    SixBits(data[i] - 63);
  }

  lemma Repack(data: Bytes, m: nat)
    requires |data| == (m + 5) / 6 && PaddingClear(data, m)
    requires forall i :: 0 <= i < |data| ==> 63 <= data[i] <= 126
    ensures Pack(Unpack(data, m)) == data
  {
    forall i | 0 <= i < |data|
      ensures Pack(Unpack(data, m))[i] == data[i]
    {
      RepackedByte(data, m, i);
    }
  }

  // ---------- the order bytes ----------

  function OrderBytes(n: nat): Bytes {
    if n <= 62 then [n + 63] else [126, n / 4096 % 64 + 63, n / 64 % 64 + 63, n % 64 + 63]
  }

  /** Bitwise or of two Python integers. */
  function BitOr(a: int, b: int): int
    decreases (if a < 0 then -a else a) + (if b < 0 then -b else b)
  {
    if a == 0 then b
    else if b == 0 then a
    else if a == -1 || b == -1 then -1
    else 2 * BitOr(a / 2, b / 2) + (if a % 2 == 1 || b % 2 == 1 then 1 else 0)
  }

  lemma DoubleProduct(a: nat, b: nat)
    ensures (2 * a) * b == 2 * (a * b)
  {
  }

  lemma OrStep(x: nat, c: nat)
    ensures BitOr(2 * x, c) == 2 * BitOr(x, c / 2) + c % 2
  {
  }

  /** Disjoint bit ranges or together like a sum. */
  lemma {:induction false} OrIsSum(k: nat, a: nat, c: nat)
    requires c < Pow2(k)
    ensures BitOr(Pow2(k) * a, c) == Pow2(k) * a + c
  {
    if k > 0 {
      hide BitOr;
      var x := Pow2(k - 1) * a;
      OrIsSum(k - 1, a, c / 2);
      OrStep(x, c);
      DoubleProduct(Pow2(k - 1), a);
    } else {
      assert Pow2(k) * a == a;
    }
  }

  /** The order in the four-byte form, with whatever the bytes are. */
  function FourByteOrder(b1: int, b2: int, b3: int): int {
    BitOr(BitOr((b1 - 63) * 4096, (b2 - 63) * 64), b3 - 63)
  }

  lemma FourByteOrderOfDigits(a: nat, b: nat, c: nat)
    requires a < 64 && b < 64 && c < 64
    ensures FourByteOrder(a + 63, b + 63, c + 63) == a * 4096 + b * 64 + c
  {
    assert Pow2(6) == 64 by {
      assert Pow2(3) == 8;
    }
    assert Pow2(12) == 4096 by {
      assert Pow2(9) == 8 * Pow2(6);
      assert Pow2(12) == 8 * Pow2(9);
    }
    OrIsSum(12, a, b * 64);
    OrIsSum(6, a * 64 + b, c);
    assert Pow2(6) * (a * 64 + b) == a * 4096 + b * 64;
  }

  // ---------- the encoder ----------

  ghost function EncodeBytes(g: Graph): Bytes {
    OrderBytes(g.n) + Pack(Columns(g, g.n))
  }

  datatype EncodeError = TooManyVertices

  /** The value of the first w bits of group q. */
  ghost function Partial(bits: seq<bool>, q: nat, w: nat): nat {
    if w == 0 then 0 else 2 * Partial(bits, q, w - 1) + Bit(bits, 6 * q + w - 1)
  }

  lemma PartialIsGroup(bits: seq<bool>, q: nat)
    ensures Partial(bits, q, 6) == GroupValue(bits, q)
  {
    assert Partial(bits, q, 3) == 4 * Bit(bits, 6 * q) + 2 * Bit(bits, 6 * q + 1) + Bit(bits, 6 * q + 2) by {
      assert Partial(bits, q, 1) == Bit(bits, 6 * q);
    }
    assert Partial(bits, q, 5) == 4 * Partial(bits, q, 3) + 2 * Bit(bits, 6 * q + 3) + Bit(bits, 6 * q + 4);
  }

  lemma {:induction false} PartialShifted(bits: seq<bool>, q: nat, w: nat)
    requires w <= 6 && |bits| <= 6 * q + w
    ensures Partial(bits, q, w) * Pow2(6 - w) == GroupValue(bits, q)
    decreases 6 - w
  {
    if w == 6 {
      PartialIsGroup(bits, q);
    } else {
      PartialShifted(bits, q, w + 1);
      assert Partial(bits, q, w + 1) == 2 * Partial(bits, q, w);
      assert Pow2(6 - w) == 2 * Pow2(6 - (w + 1));
      Reassociate(Partial(bits, q, w), Pow2(6 - (w + 1)));
    }
  }

  lemma Reassociate(a: nat, b: nat)
    ensures (2 * a) * b == a * (2 * b)
  {
  }

  lemma {:induction false} PartialStable(a: seq<bool>, b: seq<bool>, q: nat, w: nat)
    requires a <= b && 6 * q + w <= |a|
    ensures Partial(a, q, w) == Partial(b, q, w)
  {
    if w > 0 {
      PartialStable(a, b, q, w - 1);
    }
  }

  /** What the encoder has written and holds after the bits so far: the full groups, and the open one. */
  ghost predicate Encoding(bits: seq<bool>, start: Bytes, output: Bytes, value: nat, width: nat) {
    && width == |bits| % 6
    && |output| == |start| + |bits| / 6 && output[..|start|] == start
    && (forall i :: 0 <= i < |bits| / 6 ==> output[|start| + i] == Partial(bits, i, 6) + 63)
    && value == Partial(bits, |bits| / 6, width)
  }

  lemma EncodingNext(bits: seq<bool>, start: Bytes, output: Bytes, value: nat, width: nat, b: bool)
    requires Encoding(bits, start, output, value, width)
    ensures var bits' := bits + [b]; var value' := 2 * value + if b then 1 else 0;
      if width + 1 == 6 then Encoding(bits', start, output + [value' + 63], 0, 0)
      else Encoding(bits', start, output, value', width + 1)
  {
    var bits' := bits + [b];
    var q := |bits| / 6;
    var value' := 2 * value + if b then 1 else 0;
    assert |bits| == 6 * q + width;
    PartialStable(bits, bits', q, width);
    assert Bit(bits', 6 * q + width) == if b then 1 else 0;
    assert Partial(bits', q, width + 1) == value';
    forall i | 0 <= i < q
      ensures Partial(bits', i, 6) == Partial(bits, i, 6)
    {
      PartialStable(bits, bits', i, 6);
    }
    if width + 1 == 6 {
      assert |bits'| / 6 == q + 1 && |bits'| % 6 == 0;
    } else {
      assert |bits'| / 6 == q && |bits'| % 6 == width + 1;
    }
  }

  lemma EncodingEnds(bits: seq<bool>, start: Bytes, output: Bytes, value: nat, width: nat)
    requires Encoding(bits, start, output, value, width)
    ensures width == 0 ==> output == start + Pack(bits)
    ensures width > 0 ==> output + [value * Pow2(6 - width) + 63] == start + Pack(bits)
  {
    var final := if width == 0 then output else output + [value * Pow2(6 - width) + 63];
    var q := |bits| / 6;
    if width > 0 {
      PartialShifted(bits, q, width);
    }
    forall i | 0 <= i < |Pack(bits)|
      ensures final[|start| + i] == Pack(bits)[i]
    {
      if i < q {
        PartialIsGroup(bits, i);
      }
    }
    assert final == start + Pack(bits);
  }

  lemma EncodingBegins(start: Bytes)
    ensures Encoding([], start, start, 0, 0)
  {
  }

  lemma ColumnsNext(g: Graph, v: nat, column: seq<bool>)
    requires v < g.n && |column| == v && forall x :: 0 <= x < v ==> column[x] == (v in g.rows[x])
    ensures Columns(g, v + 1) == Columns(g, v) + column
  {
  }

  lemma NoColumns(g: Graph)
    ensures Columns(g, 0) == [] && (g.n >= 1 ==> Columns(g, 1) == [])
  {
  }

  lemma WidthBelowSix(bits: seq<bool>, start: Bytes, output: Bytes, value: nat, width: nat)
    requires Encoding(bits, start, output, value, width)
    ensures width < 6
  {
  }

  /** The order bytes, or the refusal of an order that does not fit the four-byte form. */
  method EncodeOrder(n: nat) returns (r: Result<Bytes, EncodeError>)
    ensures r.Err? <==> n > LARGEST
    ensures r.Ok? ==> r.value == OrderBytes(n)
  {
    if n <= 62 {
      r := Ok([n + 63]);
    } else if n <= LARGEST {
      r := Ok([126, n / 4096 % 64 + 63, n / 64 % 64 + 63, n % 64 + 63]);
    } else {
      r := Err(TooManyVertices);
    }
  }

  /** The inner loop: the bits of one column. */
  method EncodeColumn(g: Graph, v: nat, ghost start: Bytes, written: Bytes, partial: nat, held: nat)
    returns (output: Bytes, value: nat, width: nat)
    requires v < g.n && Encoding(Columns(g, v), start, written, partial, held)
    ensures Encoding(Columns(g, v + 1), start, output, value, width)
  {
    hide Encoding, Columns;
    ghost var before, column: seq<bool> := Columns(g, v), [];
    output, value, width := written, partial, held;
    assert before + column == before;
    var u := 0;
    while u < v
      invariant u <= v && |column| == u
      invariant forall x :: 0 <= x < u ==> column[x] == (v in g.rows[x])
      invariant Encoding(before + column, start, output, value, width)
    {
      var b := v in g.rows[u];
      EncodingNext(before + column, start, output, value, width, b);
      assert before + (column + [b]) == (before + column) + [b];
      column := column + [b];
      value := 2 * value + if b then 1 else 0;
      width := width + 1;
      if width == 6 {
        output := output + [value + 63];
        value, width := 0, 0;
      }
      u := u + 1;
    }
    ColumnsNext(g, v, column);
  }

  method EncodeGraph6(g: Graph) returns (r: Result<Bytes, EncodeError>)
    ensures r.Err? <==> g.n > LARGEST
    ensures r.Ok? ==> r.value == EncodeBytes(g)
  {
    var order := EncodeOrder(g.n);
    if order.Err? {
      return order;
    }
    var output := order.value;
    ghost var start := output;
    var value: nat, width: nat := 0, 0;
    EncodingBegins(start);
    NoColumns(g);
    hide Encoding, Columns, OrderBytes, Pack, Pow2, Triangle;
    var v := 1;
    while v < g.n
      invariant v == 1 || v <= g.n
      invariant Encoding(Columns(g, if v <= g.n then v else 0), start, output, value, width)
    {
      output, value, width := EncodeColumn(g, v, start, output, value, width);
      v := v + 1;
    }
    EncodingEnds(Columns(g, g.n), start, output, value, width);
    WidthBelowSix(Columns(g, g.n), start, output, value, width);
    if width != 0 {
      output := output + [value * Pow2(6 - width) + 63];
    }
    r := Ok(output);
  }
}
