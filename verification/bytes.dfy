/** Bytes, bit fields and the little-endian integer encodings used by the packet layouts.

    A byte is an integer in 0..255.  The source reads every packed field as
    `(x & mask) >> lo` where `mask` covers `width` contiguous bits starting at bit
    `lo`; for a non-negative `x` that is exactly `(x / 2^lo) % 2^width`, which is
    how `Bits` states it.
 */
module Bytes {

  type byte = x: int | 0 <= x < 256

  /** struct code `b`. */
  type i8 = x: int | -128 <= x < 128

  /** struct code `H`. */
  type u16 = x: int | 0 <= x < 65536

  /** struct code `h`. */
  type i16 = x: int | -32768 <= x < 32768

  /** struct code `f`: the four stored bytes of an IEEE-754 single, uninterpreted. */
  type F32 = w: seq<byte> | |w| == 4 witness [0, 0, 0, 0]

  function Pow2(n: nat): (r: nat)
    ensures r >= 1
  {
    if n == 0 then 1 else 2 * Pow2(n - 1)
  }

  /** The `width`-bit field of `x` starting at bit `lo`: `(x & mask) >> lo`. */
  function Bits(x: nat, lo: nat, width: nat): (r: nat)
    ensures r < Pow2(width)
  {
    (x / Pow2(lo)) % Pow2(width)
  }

  /** Bit `i` of `x`, read as `bool((x & (1 << i)) >> i)`. */
  predicate Bit(x: nat, i: nat) {
    Bits(x, i, 1) == 1
  }

  /** Bit `i` read by shifting agrees with the mask test `x & (1 << i) != 0`:
      the remainder below bit `i + 1` reaches `2^i`. */
  lemma BitIsMask(x: nat, i: nat)
    ensures Bit(x, i) <==> x % Pow2(i + 1) >= Pow2(i)
  {
    var p := Pow2(i);
    assert Pow2(1) == 2 && Pow2(i + 1) == p * 2;
    ModDiv(x, p, 2);
    var r := x % (p * 2);
    if r >= p {
      DivModUnique(r, p, 1, r - p);
    } else {
      DivModUnique(r, p, 0, r);
    }
  }

  /** 0/1 as the source's `int` view of a flag. */
  function BitValue(x: nat, i: nat): (r: nat)
    ensures r == 1 <==> Bit(x, i)
    ensures r == 0 <==> !Bit(x, i)
  {
    Bits(x, i, 1)
  }

  function Zeros(n: nat): (r: seq<byte>)
    ensures |r| == n
    ensures forall i | 0 <= i < n :: r[i] == 0
  {
    seq(n, _ => 0)
  }

  // ---------------------------------------------------------------------------
  // Little-endian fixed-width integers (struct codes B, b, H, h)
  // ---------------------------------------------------------------------------

  /** struct code `H`: unsigned 16-bit, low byte first. */
  function U16(lo: byte, hi: byte): (r: nat)
    ensures r < 65536
  {
    lo + 256 * hi
  }

  /** struct code `h`: two's-complement 16-bit, low byte first. */
  function S16(lo: byte, hi: byte): (r: int)
    ensures -32768 <= r < 32768
    ensures r >= 0 <==> hi < 128
  {
    var u := U16(lo, hi);
    if u >= 32768 then u - 65536 else u
  }

  /** struct code `b`: two's-complement 8-bit. */
  function S8(b: byte): (r: int)
    ensures -128 <= r < 128
    ensures r >= 0 <==> b < 128
  {
    if b >= 128 then b - 256 else b
  }

  function U16Bytes(n: nat): (r: seq<byte>)
    requires n < 65536
    ensures |r| == 2 && U16(r[0], r[1]) == n
  {
    [n % 256, n / 256]
  }

  function S16Bytes(n: int): (r: seq<byte>)
    requires -32768 <= n < 32768
    ensures |r| == 2 && S16(r[0], r[1]) == n
  {
    U16Bytes(if n < 0 then n + 65536 else n)
  }

  function S8Byte(n: int): (r: byte)
    requires -128 <= n < 128
    ensures S8(r) == n
  {
    if n < 0 then n + 256 else n
  }

  lemma U16BytesOfDecoded(lo: byte, hi: byte)
    ensures U16Bytes(U16(lo, hi)) == [lo, hi]
  {
  }

  lemma S16BytesOfDecoded(lo: byte, hi: byte)
    ensures S16Bytes(S16(lo, hi)) == [lo, hi]
  {
  }

  lemma S8ByteOfDecoded(b: byte)
    ensures S8Byte(S8(b)) == b
  {
  }

  // ---------------------------------------------------------------------------
  // Division facts for the bit-field lemmas
  // ---------------------------------------------------------------------------

  lemma SmallMultipleIsZero(d: int, k: int)
    requires d > 0 && -d < d * k < d
    ensures k == 0
  {
  }

  lemma DivModUnique(x: int, d: int, q: int, r: int)
    requires d > 0 && x == d * q + r && 0 <= r < d
    ensures x / d == q && x % d == r
  {
    var k := q - x / d;
    assert d * k == d * q - d * (x / d);
    assert d * k == x % d - r;
    SmallMultipleIsZero(d, k);
  }

  lemma Pow2Add(m: nat, n: nat)
    ensures Pow2(m + n) == Pow2(m) * Pow2(n)
    decreases m
  {
    if m > 0 {
      Pow2Add(m - 1, n);
    }
  }

  lemma DivDiv(x: nat, a: nat, b: nat)
    requires a > 0 && b > 0
    ensures x / a / b == x / (a * b)
  {
    NestedDivMod(x, a, b, x / a, x % a, x / a / b, x / a % b);
  }

  lemma ModDiv(x: nat, a: nat, b: nat)
    requires a > 0 && b > 0
    ensures (x % (a * b)) / a == (x / a) % b
  {
    var r2 := x / a % b;
    NestedDivMod(x, a, b, x / a, x % a, x / a / b, r2);
    DivModUnique(a * r2 + x % a, a, r2, x % a);
  }

  /** Dividing by `a` and then by `b` is dividing by `a * b`, and the
      remainder is the two remainders combined. */
  lemma NestedDivMod(x: int, a: int, b: int, q1: int, r1: int, q2: int, r2: int)
    requires a > 0 && b > 0
    requires x == a * q1 + r1 && 0 <= r1 < a
    requires q1 == b * q2 + r2 && 0 <= r2 < b
    ensures x / (a * b) == q2 && x % (a * b) == a * r2 + r1
  {
    var ab := a * b;
    MulSplit(a, b, q1, q2, r2);
    RemainderBelow(a, b, r2);
    DivModUnique(x, ab, q2, a * r2 + r1);
  }

  lemma MulSplit(a: int, b: int, q1: int, q2: int, r2: int)
    requires q1 == b * q2 + r2
    ensures a * q1 == (a * b) * q2 + a * r2
  {
    assert a * (b * q2 + r2) == a * (b * q2) + a * r2;
    assert a * (b * q2) == (a * b) * q2;
  }

  lemma RemainderBelow(a: int, b: int, r2: int)
    requires a > 0 && 0 <= r2 < b
    ensures a * r2 + a <= a * b
  {
    assert a * (b - r2 - 1) >= 0;
    assert a * (b - r2 - 1) == a * b - a * r2 - a;
  }

  /** The field at `lo` of a value laid out as `below`, then `field` in `w`
      bits, then `above`; `p` and `q` are `2^lo` and `2^w`, passed as literals
      so that the layout stays linear. */
  lemma FieldOfSum(x: nat, lo: nat, w: nat, p: nat, q: nat, below: nat, field: nat, above: nat)
    requires p == Pow2(lo) && q == Pow2(w)
    requires below < p && field < q && x == below + p * (field + q * above)
    ensures Bits(x, lo, w) == field
  {
    DivModUnique(x, p, field + q * above, below);
    DivModUnique(field + q * above, q, above, field);
  }

  /** Bit `j` of a field is bit `lo + j` of the whole value. */
  lemma BitOfField(x: nat, lo: nat, width: nat, j: nat)
    requires j < width
    ensures Bits(Bits(x, lo, width), j, 1) == Bits(x, lo + j, 1)
  {
    var q := x / Pow2(lo);
    Pow2Add(j, width - j);
    assert Pow2(width) == Pow2(j) * Pow2(width - j);
    ModDiv(q, Pow2(j), Pow2(width - j));
    assert Bits(x, lo, width) / Pow2(j) == (q / Pow2(j)) % Pow2(width - j);
    var p := q / Pow2(j);
    Pow2Add(1, width - j - 1);
    assert Pow2(width - j) == 2 * Pow2(width - j - 1);
    ModModSmall(p, 2, Pow2(width - j - 1));
    DivDiv(x, Pow2(lo), Pow2(j));
    Pow2Add(lo, j);
  }

  /** `(hi << lo) + v` with `v` below `2^lo`: the low `lo` bits are `v`. */
  lemma LowOfPacked(hi: nat, lo: nat, v: nat)
    requires v < Pow2(lo)
    ensures Bits(hi * Pow2(lo) + v, 0, lo) == v
  {
    DivModUnique(hi * Pow2(lo) + v, Pow2(lo), hi, v);
  }

  /** `(hi << lo) + v` with `v` below `2^lo`: the bits from `lo` on are those of `hi`. */
  lemma HighOfPacked(hi: nat, lo: nat, v: nat, j: nat, w: nat)
    requires v < Pow2(lo)
    ensures Bits(hi * Pow2(lo) + v, lo + j, w) == Bits(hi, j, w)
  {
    var p := Pow2(lo);
    MulMonotone(hi, 0, p);
    var x: nat := hi * p + v;
    DivDiv(x, p, Pow2(j));
    Pow2Add(lo, j);
    assert x / p == hi by {
      DivModUnique(x, p, hi, v);
    }
  }

  lemma DivIsNat(x: int, d: int)
    requires x >= 0 && d > 0
    ensures x / d >= 0
  {
  }

  lemma MulMonotone(a: nat, b: nat, c: nat)
    requires a >= b
    ensures a * c >= b * c
  {
  }

  /** A value below `p * m` has a quotient by `p` below `m`. */
  lemma DivBelow(x: nat, p: nat, m: nat)
    requires p > 0 && x < p * m
    ensures 0 <= x / p < m
  {
    var q := x / p;
    assert x == q * p + x % p;
    if q >= m {
      MulMonotone(q, m, p);
    }
  }

  /** The quotient and remainder by `p` recombine to the dividend. */
  lemma Recombine(x: nat, p: nat, q: nat, r: nat)
    requires p > 0 && q == x / p && r == x % p
    ensures q * p + r == x
  {
  }

  /** A value below `2^(lo + w)` is its field at `lo` shifted back, plus its low bits. */
  lemma RebuildFields(x: nat, lo: nat, w: nat)
    requires x < Pow2(lo + w)
    ensures Bits(x, lo, w) * Pow2(lo) + Bits(x, 0, lo) == x
  {
    var p := Pow2(lo);
    var m := Pow2(w);
    assert Bits(x, lo, w) == x / p by {
      Pow2Add(lo, w);
      DivBelow(x, p, m);
      ModOfSmall(x / p, m);
    }
    LowBits(x, lo);
    Recombine(x, p, Bits(x, lo, w), Bits(x, 0, lo));
  }

  /** `(hi << lo) + v` with both parts in range: the two fields read back `v` and `hi`. */
  lemma FieldsOfPacked(hi: nat, lo: nat, v: nat, w: nat)
    requires v < Pow2(lo) && hi < Pow2(w)
    ensures Bits(hi * Pow2(lo) + v, 0, lo) == v
    ensures Bits(hi * Pow2(lo) + v, lo, w) == hi
  {
    LowOfPacked(hi, lo, v);
    HighOfPacked(hi, lo, v, 0, w);
    LowBits(hi, w);
    ModOfSmall(hi, Pow2(w));
  }

  /** The remainder by `pa * pb` splits into the remainder by `pa` and the next digit. */
  lemma ModSplit(q: nat, pa: nat, pb: nat)
    requires pa > 0 && pb > 0
    ensures q % (pa * pb) == q % pa + pa * ((q / pa) % pb)
  {
    ModDiv(q, pa, pb);
    ModModSmall(q, pa, pb);
    Recombine(q % (pa * pb), pa, q % (pa * pb) / pa, q % (pa * pb) % pa);
  }

  /** A field of width `a + b` is its low `a` bits plus its upper `b` bits shifted up. */
  lemma FieldSplit(x: nat, lo: nat, a: nat, b: nat)
    ensures Bits(x, lo, a + b) == Bits(x, lo, a) + Pow2(a) * Bits(x, lo + a, b)
  {
    DivIsNat(x, Pow2(lo));
    var q: nat := x / Pow2(lo);
    Pow2Add(a, b);
    ModSplit(q, Pow2(a), Pow2(b));
    DivDiv(x, Pow2(lo), Pow2(a));
    Pow2Add(lo, a);
  }

  /** Peeling the low field of `v + 2^w * h`: its low `w` bits are `v`, and a field
      `j` bits above them is the field `j` bits into `h`. */
  lemma PeelField(v: nat, w: nat, h: nat, j: nat, k: nat)
    requires v < Pow2(w)
    ensures Bits(v + Pow2(w) * h, 0, w) == v
    ensures Bits(v + Pow2(w) * h, w + j, k) == Bits(h, j, k)
  {
    assert v + Pow2(w) * h == h * Pow2(w) + v;
    LowOfPacked(h, w, v);
    HighOfPacked(h, w, v, j, k);
  }

  /** The three low bits of `b0 + 2 * (b1 + 2 * (b2 + 2 * rest))` are `b0`, `b1`, `b2`. */
  lemma ThreeLowBits(h: nat, b0: nat, b1: nat, b2: nat, rest: nat)
    requires b0 < 2 && b1 < 2 && b2 < 2
    requires h == b0 + 2 * (b1 + 2 * (b2 + 2 * rest))
    ensures Bits(h, 0, 1) == b0 && Bits(h, 1, 1) == b1 && Bits(h, 2, 1) == b2
  {
    assert Pow2(0) == 1 && Pow2(1) == 2 && Pow2(2) == 4;
    FieldOfSum(h, 0, 1, 1, 2, 0, b0, b1 + 2 * b2 + 4 * rest);
    FieldOfSum(h, 1, 1, 2, 2, b0, b1, b2 + 2 * rest);
    FieldOfSum(h, 2, 1, 4, 2, b0 + 2 * b1, b2, rest);
  }

  /** A field whose width reaches past every set bit of `x` is `x` itself. */
  lemma WholeField(x: nat, w: nat)
    requires x < Pow2(w)
    ensures Bits(x, 0, w) == x
  {
    LowBits(x, w);
    ModOfSmall(x, Pow2(w));
  }

  /** The field at bit 0 is the remainder. */
  lemma LowBits(x: nat, w: nat)
    ensures Bits(x, 0, w) == x % Pow2(w)
  {
    assert Pow2(0) == 1;
    DivModUnique(x, 1, x, 0);
  }

  lemma ModOfSmall(a: nat, m: nat)
    requires a < m
    ensures a % m == a
  {
    DivModUnique(a, m, 0, a);
  }

  lemma ModModSmall(x: nat, a: nat, b: nat)
    requires a > 0 && b > 0
    ensures (x % (a * b)) % a == x % a
  {
    var q := x / (a * b);
    var r := x % (a * b);
    assert x == a * b * q + r;
    assert a * b * q == a * (b * q);
    DivModUnique(x, a, b * q + r / a, r % a);
  }

  /** Shifting in one bit below `y`: bit 0 is the new bit, bit `i + 1` is bit `i` of `y`. */
  lemma BitsOfShiftedIn(b: nat, y: nat, i: nat)
    requires b < 2
    ensures BitValue(b + 2 * y, 0) == b
    ensures BitValue(b + 2 * y, i + 1) == BitValue(y, i)
  {
    DivModUnique(b + 2 * y, 2, y, b);
    DivDiv(b + 2 * y, 2, Pow2(i));
  }

  /** `int(flag)`: 1 for true, 0 for false. */
  function FlagValue(flag: bool): (r: nat)
    ensures r < 2
    ensures r == 1 <==> flag
  {
    if flag then 1 else 0
  }

  predicate IsBitList(bs: seq<nat>) {
    forall i | 0 <= i < |bs| :: bs[i] < 2
  }

  /** `sum(x << ix for ix, x in enumerate(bs))` for a list of 0/1 entries. */
  function PackBits(bs: seq<nat>): (r: nat)
    requires IsBitList(bs)
    ensures r < Pow2(|bs|)
  {
    if |bs| == 0 then 0 else bs[0] + 2 * PackBits(bs[1..])
  }

  /** The first `n` bits of `x`, least significant first. */
  function BitList(x: nat, n: nat): (r: seq<nat>)
    ensures |r| == n && IsBitList(r)
  {
    seq(n, (i: nat) => BitValue(x, i))
  }

  lemma {:induction false} BitOfPackBits(bs: seq<nat>, i: nat)
    requires IsBitList(bs)
    ensures BitValue(PackBits(bs), i) == if i < |bs| then bs[i] else 0
    decreases |bs|
  {
    if |bs| == 0 {
      assert BitValue(0, i) == 0;
    } else {
      var y := PackBits(bs[1..]);
      assert PackBits(bs) == bs[0] + 2 * y;
      if i == 0 {
        BitsOfShiftedIn(bs[0], y, 0);
      } else {
        BitsOfShiftedIn(bs[0], y, i - 1);
        BitOfPackBits(bs[1..], i - 1);
        assert i < |bs| ==> bs[1..][i - 1] == bs[i];
      }
    }
  }

  /** Packing the low `n` bits of a value below `2^n` gives the value back. */
  lemma {:induction false} PackBitList(x: nat, n: nat)
    requires x < Pow2(n)
    ensures PackBits(BitList(x, n)) == x
    decreases n
  {
    if n > 0 {
      var y := x / 2;
      DivModUnique(x, 2, y, x % 2);
      assert x == x % 2 + 2 * y;
      assert BitList(x, n)[1..] == BitList(y, n - 1) by {
        forall i | 0 <= i < n - 1 ensures BitList(x, n)[1..][i] == BitList(y, n - 1)[i] {
          BitsOfShiftedIn(x % 2, y, i);
        }
      }
      BitsOfShiftedIn(x % 2, y, 0);
      PackBitList(y, n - 1);
    }
  }

  /** Unpacking the bits of a packed list gives the list back. */
  lemma BitListOfPackBits(bs: seq<nat>)
    requires IsBitList(bs)
    ensures BitList(PackBits(bs), |bs|) == bs
  {
    forall i | 0 <= i < |bs| ensures BitList(PackBits(bs), |bs|)[i] == bs[i] {
      BitOfPackBits(bs, i);
    }
  }

  // ---------------------------------------------------------------------------
  // Python's `bin()` digit lists
  // ---------------------------------------------------------------------------

  /** `[int(i) for i in bin(x)[:1:-1]]`: the binary digits of `x`, least significant
      first, without leading zeros; `bin(0)` is `"0b0"`, so 0 gives `[0]`. */
  function BinDigits(x: nat): (r: seq<nat>)
    ensures |r| >= 1 && IsBitList(r)
    decreases x
  {
    if x < 2 then [x] else [x % 2] + BinDigits(x / 2)
  }

  /** `ds + [0] * (n - len(ds))`: a negative repeat count adds nothing. */
  function PadZeros(ds: seq<nat>, n: nat): (r: seq<nat>)
    ensures |r| == if |ds| < n then n else |ds|
  {
    ds + seq(if |ds| < n then n - |ds| else 0, _ => 0)
  }

  lemma Pow2Monotone(a: nat, b: nat)
    requires a <= b
    ensures Pow2(a) <= Pow2(b)
  {
    Pow2Add(a, b - a);
    MulMonotone(Pow2(b - a), 1, Pow2(a));
  }

  /** The digits of `x` are its bits, and there are just enough of them to hold `x`. */
  lemma {:induction false} BinDigitsAreBits(x: nat)
    ensures x < Pow2(|BinDigits(x)|)
    ensures |BinDigits(x)| == 1 || Pow2(|BinDigits(x)| - 1) <= x
    ensures forall i | 0 <= i < |BinDigits(x)| :: BinDigits(x)[i] == BitValue(x, i)
    decreases x
  {
    var ds := BinDigits(x);
    if x < 2 {
      assert Pow2(1) == 2;
      LowBits(x, 1);
      ModOfSmall(x, 2);
    } else {
      var y := x / 2;
      var b := x % 2;
      DivModUnique(x, 2, y, b);
      BinDigitsAreBits(y);
      var dy := BinDigits(y);
      assert ds == [b] + dy;
      assert Pow2(|ds|) == 2 * Pow2(|dy|);
      if |dy| > 1 {
        assert Pow2(|ds| - 1) == 2 * Pow2(|dy| - 1);
      }
      forall i | 0 <= i < |ds| ensures ds[i] == BitValue(x, i) {
        if i == 0 {
          BitsOfShiftedIn(b, y, 0);
        } else {
          BitsOfShiftedIn(b, y, i - 1);
        }
      }
    }
  }

  /** Powers of two are ordered as their exponents. */
  lemma Pow2Order(a: nat, b: nat)
    requires Pow2(a) < Pow2(b)
    ensures a < b
  {
    if b <= a {
      Pow2Monotone(b, a);
    }
  }

  /** Bits at or above the width that holds `x` are clear. */
  lemma BitAboveIsZero(x: nat, width: nat, i: nat)
    requires x < Pow2(width) && width <= i
    ensures BitValue(x, i) == 0
  {
    Pow2Monotone(width, i);
    DivModUnique(x, Pow2(i), 0, x);
    ModOfSmall(0, Pow2(1));
  }

  /** The digits of a value below `2^n`, padded to `n`, are its first `n` bits. */
  lemma PaddedDigitsAreBits(x: nat, n: nat)
    requires 1 <= n && x < Pow2(n)
    ensures PadZeros(BinDigits(x), n) == BitList(x, n)
  {
    var ds := BinDigits(x);
    BinDigitsAreBits(x);
    if |ds| > 1 {
      Pow2Order(|ds| - 1, n);
    }
    var r := PadZeros(ds, n);
    forall i | 0 <= i < n ensures r[i] == BitList(x, n)[i] {
      if i >= |ds| {
        BitAboveIsZero(x, |ds|, i);
      }
    }
  }
}
