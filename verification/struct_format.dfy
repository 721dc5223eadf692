/** A model of Python's `struct` module for the standard-size, unaligned formats
    (prefix `=`) that the packet classes use, with little-endian byte order.

    A format is the expanded list of its item codes: `"21f"` is `Rep(Float, 21)`
    and `"hhhHBBBBf" * 56` is `Repeat(..., 56)`.  `Unpack` fails with
    `struct.error` exactly when the buffer length differs from `CalcSize`, and
    otherwise yields one value per code, in order; the source then pops those
    values off a deque one at a time.
 */
module StructFormat {
  import opened Bytes
  import opened Results

  /** The struct codes B, b, H, h, f and 64s. */
  datatype Kind = UByte | SByte | UShort | SShort | Float | Chars64

  function Width(k: Kind): (r: nat)
    ensures 1 <= r <= 64
  {
    match k
    case UByte => 1
    case SByte => 1
    case UShort => 2
    case SShort => 2
    case Float => 4
    case Chars64 => 64
  }

  /** A repeat count in front of a code, as in `"16f"`. */
  function Rep(k: Kind, n: nat): (r: seq<Kind>)
    ensures |r| == n
    ensures forall i | 0 <= i < n :: r[i] == k
  {
    seq(n, _ => k)
  }

  /** A format string repeated with `*`, as in `"hhhHBBBBf" * 56`. */
  function Repeat(fmt: seq<Kind>, n: nat): (r: seq<Kind>)
    ensures |r| == n * |fmt|
  {
    if n == 0 then [] else fmt + Repeat(fmt, n - 1)
  }

  /** `struct.calcsize`: the byte length of a format. */
  function CalcSize(fmt: seq<Kind>): nat {
    if |fmt| == 0 then 0 else Width(fmt[0]) + CalcSize(fmt[1..])
  }

  /** The byte length of a format computed from how often each code occurs. */
  function SizeOfCounts(m: multiset<Kind>): nat {
    m[UByte] + m[SByte] + 2 * (m[UShort] + m[SShort]) + 4 * m[Float] + 64 * m[Chars64]
  }

  lemma {:induction false} CalcSizeByCount(fmt: seq<Kind>)
    ensures CalcSize(fmt) == SizeOfCounts(multiset(fmt))
    decreases |fmt|
  {
    if |fmt| > 0 {
      CalcSizeByCount(fmt[1..]);
      assert fmt == [fmt[0]] + fmt[1..];
      assert multiset(fmt) == multiset{fmt[0]} + multiset(fmt[1..]);
      SizeOfCountsAdd(fmt[0], multiset(fmt[1..]));
    }
  }

  lemma SizeOfCountsAdd(k: Kind, m: multiset<Kind>)
    ensures SizeOfCounts(multiset{k} + m) == Width(k) + SizeOfCounts(m)
  {
  }

  lemma CalcSizeAppend(a: seq<Kind>, b: seq<Kind>)
    ensures CalcSize(a + b) == CalcSize(a) + CalcSize(b)
  {
    CalcSizeByCount(a);
    CalcSizeByCount(b);
    CalcSizeByCount(a + b);
  }

  /** `CalcSize` peeling the last code off: how a literal format's size is computed. */
  lemma CalcSizeSnoc(fmt: seq<Kind>)
    requires |fmt| > 0
    ensures CalcSize(fmt) == CalcSize(fmt[..|fmt| - 1]) + Width(fmt[|fmt| - 1])
  {
    assert fmt == fmt[..|fmt| - 1] + [fmt[|fmt| - 1]];
    CalcSizeAppend(fmt[..|fmt| - 1], [fmt[|fmt| - 1]]);
  }

  /** `CalcSize` summed from the last code back, the order in which a literal
      format's size unfolds cheaply. */
  function SizeBack(fmt: seq<Kind>): nat
    decreases |fmt|
  {
    if |fmt| == 0 then 0 else SizeBack(fmt[..|fmt| - 1]) + Width(fmt[|fmt| - 1])
  }

  lemma {:induction false} SizeBackIsCalcSize(fmt: seq<Kind>)
    ensures SizeBack(fmt) == CalcSize(fmt)
    decreases |fmt|
  {
    if |fmt| > 0 {
      SizeBackIsCalcSize(fmt[..|fmt| - 1]);
      CalcSizeSnoc(fmt);
    }
  }

  lemma {:induction false} RepCounts(k: Kind, n: nat)
    ensures multiset(Rep(k, n))[k] == n
    ensures forall j | j != k :: multiset(Rep(k, n))[j] == 0
  {
    if n > 0 {
      RepCounts(k, n - 1);
      assert Rep(k, n) == Rep(k, n - 1) + [k];
    } else {
      assert Rep(k, n) == [];
    }
  }

  lemma CalcSizeRep(k: Kind, n: nat)
    ensures CalcSize(Rep(k, n)) == n * Width(k)
  {
    RepCounts(k, n);
    CalcSizeByCount(Rep(k, n));
  }

  /** A run of one code in front of the rest of a format. */
  lemma CalcSizeRepAppend(k: Kind, n: nat, rest: seq<Kind>)
    ensures CalcSize(Rep(k, n) + rest) == n * Width(k) + CalcSize(rest)
  {
    CalcSizeRep(k, n);
    CalcSizeAppend(Rep(k, n), rest);
  }

  lemma {:induction false} CalcSizeRepeat(fmt: seq<Kind>, n: nat)
    ensures CalcSize(Repeat(fmt, n)) == n * CalcSize(fmt)
  {
    if n > 0 {
      CalcSizeRepeat(fmt, n - 1);
      CalcSizeAppend(fmt, Repeat(fmt, n - 1));
      assert n * CalcSize(fmt) == CalcSize(fmt) + (n - 1) * CalcSize(fmt);
    }
  }

  // ---------------------------------------------------------------------------
  // Values
  // ---------------------------------------------------------------------------

  /** An unpacked item: an `int` for the integer codes, the raw 4 bytes of an
      IEEE-754 single for `f` (floats are not interpreted), the raw bytes of `s`. */
  datatype Value = Int(n: int) | Word(word: seq<byte>) | Chars(chars: seq<byte>)

  /** What `struct.unpack` can produce for a code (and what `struct.pack` accepts back). */
  predicate Fits(k: Kind, v: Value) {
    match k
    case UByte => v.Int? && 0 <= v.n < 256
    case SByte => v.Int? && -128 <= v.n < 128
    case UShort => v.Int? && 0 <= v.n < 65536
    case SShort => v.Int? && -32768 <= v.n < 32768
    case Float => v.Word? && |v.word| == 4
    case Chars64 => v.Chars? && |v.chars| == 64
  }

  predicate Conforms(fmt: seq<Kind>, vs: seq<Value>) {
    |vs| == |fmt| && forall i | 0 <= i < |fmt| :: Fits(fmt[i], vs[i])
  }

  function DecodeOne(k: Kind, d: seq<byte>): (v: Value)
    requires |d| == Width(k)
    ensures Fits(k, v)
  {
    match k
    case UByte => Int(d[0])
    case SByte => Int(S8(d[0]))
    case UShort => Int(U16(d[0], d[1]))
    case SShort => Int(S16(d[0], d[1]))
    case Float => Word(d)
    case Chars64 => Chars(d)
  }

  function EncodeOne(k: Kind, v: Value): (d: seq<byte>)
    requires Fits(k, v)
    ensures |d| == Width(k)
  {
    match k
    case UByte => [v.n]
    case SByte => [S8Byte(v.n)]
    case UShort => U16Bytes(v.n)
    case SShort => S16Bytes(v.n)
    case Float => v.word
    case Chars64 => v.chars
  }

  lemma DecodeEncodeOne(k: Kind, v: Value)
    requires Fits(k, v)
    ensures DecodeOne(k, EncodeOne(k, v)) == v
  {
  }

  lemma EncodeDecodeOne(k: Kind, d: seq<byte>)
    requires |d| == Width(k)
    ensures EncodeOne(k, DecodeOne(k, d)) == d
  {
    match k
    case UShort => U16BytesOfDecoded(d[0], d[1]);
    case SShort => S16BytesOfDecoded(d[0], d[1]);
    case SByte => S8ByteOfDecoded(d[0]);
    case _ =>
  }

  /** How `struct.pack` stores bytes for `64s`: cut to 64, or padded with NULs. */
  function PackChars(b: seq<byte>): (r: seq<byte>)
    ensures |r| == 64
    ensures |b| <= 64 ==> r == b + Zeros(64 - |b|)
    ensures |b| >= 64 ==> r == b[..64]
  {
    if |b| >= 64 then b[..64] else b + Zeros(64 - |b|)
  }

  // ---------------------------------------------------------------------------
  // Whole formats
  // ---------------------------------------------------------------------------

  /** The values of a buffer whose length already matches the format. */
  function UnpackAll(fmt: seq<Kind>, d: seq<byte>): (vs: seq<Value>)
    requires |d| == CalcSize(fmt)
    ensures |vs| == |fmt|
    decreases |fmt|
  {
    if |fmt| == 0 then []
    else
      var w := Width(fmt[0]);
      [DecodeOne(fmt[0], d[..w])] + UnpackAll(fmt[1..], d[w..])
  }

  /** `struct.unpack(fmt, d)`. */
  function Unpack(fmt: seq<Kind>, d: seq<byte>): (r: Result<seq<Value>>)
    ensures r.Err? <==> |d| != CalcSize(fmt)
    ensures r.Err? ==> r.error == StructError
    ensures r.Ok? ==> Conforms(fmt, r.value)
  {
    if |d| != CalcSize(fmt) then Err(StructError) else UnpackAllConforms(fmt, d); Ok(UnpackAll(fmt, d))
  }

  /** Every unpacked value fits its code. */
  lemma {:induction false} UnpackAllConforms(fmt: seq<Kind>, d: seq<byte>)
    requires |d| == CalcSize(fmt)
    ensures Conforms(fmt, UnpackAll(fmt, d))
    decreases |fmt|
  {
    if |fmt| > 0 {
      var w := Width(fmt[0]);
      UnpackAllConforms(fmt[1..], d[w..]);
      var vs := UnpackAll(fmt, d);
      forall i | 1 <= i < |fmt| ensures Fits(fmt[i], vs[i]) {
        assert fmt[i] == fmt[1..][i - 1];
      }
    }
  }

  /** `struct.pack(fmt, *vs)` for values that fit their codes. */
  function PackAll(fmt: seq<Kind>, vs: seq<Value>): (d: seq<byte>)
    requires Conforms(fmt, vs)
    ensures |d| == CalcSize(fmt)
    decreases |fmt|
  {
    if |fmt| == 0 then []
    else
      assert Conforms(fmt[1..], vs[1..]) by {
        forall i | 0 <= i < |fmt| - 1 ensures Fits(fmt[1..][i], vs[1..][i]) {
          assert fmt[1..][i] == fmt[i + 1] && vs[1..][i] == vs[i + 1];
        }
      }
      EncodeOne(fmt[0], vs[0]) + PackAll(fmt[1..], vs[1..])
  }

  /** Unpacking what was packed gives back the values. */
  lemma {:induction false} UnpackPack(fmt: seq<Kind>, vs: seq<Value>)
    requires Conforms(fmt, vs)
    ensures UnpackAll(fmt, PackAll(fmt, vs)) == vs
    decreases |fmt|
  {
    if |fmt| > 0 {
      var d := PackAll(fmt, vs);
      var w := Width(fmt[0]);
      assert d[..w] == EncodeOne(fmt[0], vs[0]);
      assert d[w..] == PackAll(fmt[1..], vs[1..]);
      DecodeEncodeOne(fmt[0], vs[0]);
      UnpackPack(fmt[1..], vs[1..]);
      assert vs == [vs[0]] + vs[1..];
    }
  }

  /** Packing what was unpacked gives back the buffer. */
  lemma {:induction false} PackUnpack(fmt: seq<Kind>, d: seq<byte>)
    requires |d| == CalcSize(fmt)
    ensures Conforms(fmt, UnpackAll(fmt, d))
    ensures PackAll(fmt, UnpackAll(fmt, d)) == d
    decreases |fmt|
  {
    UnpackAllConforms(fmt, d);
    if |fmt| > 0 {
      var vs := UnpackAll(fmt, d);
      var w := Width(fmt[0]);
      assert vs[0] == DecodeOne(fmt[0], d[..w]);
      assert vs[1..] == UnpackAll(fmt[1..], d[w..]);
      EncodeDecodeOne(fmt[0], d[..w]);
      PackUnpack(fmt[1..], d[w..]);
      assert d == d[..w] + d[w..];
    }
  }

  /** Unpacking a concatenated format is unpacking the two parts of the buffer. */
  lemma UnpackAppend(a: seq<Kind>, b: seq<Kind>, d: seq<byte>)
    requires |d| == CalcSize(a + b)
    ensures CalcSize(a + b) == CalcSize(a) + CalcSize(b)
    ensures UnpackAll(a + b, d) == UnpackAll(a, d[..CalcSize(a)]) + UnpackAll(b, d[CalcSize(a)..])
  {
    CalcSizeAppend(a, b);
    assert d == d[..CalcSize(a)] + d[CalcSize(a)..];
    UnpackJoin(a, b, d[..CalcSize(a)], d[CalcSize(a)..]);
  }

  /** Unpacking two buffers laid end to end, with the two formats laid end to end. */
  lemma {:induction false} UnpackJoin(a: seq<Kind>, b: seq<Kind>, da: seq<byte>, db: seq<byte>)
    requires |da| == CalcSize(a) && |db| == CalcSize(b)
    ensures CalcSize(a + b) == |da + db|
    ensures UnpackAll(a + b, da + db) == UnpackAll(a, da) + UnpackAll(b, db)
    decreases |a|
  {
    CalcSizeAppend(a, b);
    if |a| > 0 {
      var w := Width(a[0]);
      assert (a + b)[0] == a[0];
      assert (a + b)[1..] == a[1..] + b;
      assert (da + db)[..w] == da[..w];
      assert (da + db)[w..] == da[w..] + db;
      UnpackJoin(a[1..], b, da[w..], db);
    } else {
      assert a + b == b && da + db == db;
    }
  }

  /** Value `i` of an unpacked buffer is the code `fmt[i]` read at offset
      `CalcSize(fmt[..i])`. */
  lemma {:induction false} UnpackAllAt(fmt: seq<Kind>, d: seq<byte>, i: nat)
    requires |d| == CalcSize(fmt)
    requires i < |fmt|
    ensures CalcSize(fmt[..i]) + Width(fmt[i]) <= |d|
    ensures UnpackAll(fmt, d)[i]
         == DecodeOne(fmt[i], d[CalcSize(fmt[..i]) .. CalcSize(fmt[..i]) + Width(fmt[i])])
    decreases i
  {
    var w := Width(fmt[0]);
    if i == 0 {
      UnpackHead(fmt, d);
      assert fmt[..0] == [];
      assert d[0 .. w] == d[..w];
    } else {
      var t, e := fmt[1..], d[w..];
      assert CalcSize(fmt) == w + CalcSize(t);
      UnpackAllAt(t, e, i - 1);
      var o, k := CalcSize(t[..i - 1]), Width(t[i - 1]);
      PrefixSizeTail(fmt, i);
      assert t[i - 1] == fmt[i];
      UnpackTailAt(fmt, d, i);
      DropSlice(d, w, o, k);
      assert UnpackAll(fmt, d)[i] == DecodeOne(fmt[i], d[w + o .. w + o + k]);
      assert d[CalcSize(fmt[..i]) .. CalcSize(fmt[..i]) + Width(fmt[i])] == d[w + o .. w + o + k];
    }
  }

  /** Value `i > 0` of an unpacked buffer is value `i - 1` of the rest. */
  lemma UnpackTailAt(fmt: seq<Kind>, d: seq<byte>, i: nat)
    requires |d| == CalcSize(fmt) && 0 < i < |fmt|
    ensures Width(fmt[0]) <= |d|
    ensures UnpackAll(fmt, d)[i] == UnpackAll(fmt[1..], d[Width(fmt[0])..])[i - 1]
  {
  }

  /** The size of a non-empty prefix is the first code's width and the size of
      the rest of the prefix. */
  lemma PrefixSizeTail(fmt: seq<Kind>, i: nat)
    requires 0 < i <= |fmt|
    ensures CalcSize(fmt[..i]) == Width(fmt[0]) + CalcSize(fmt[1..][..i - 1])
  {
    assert fmt[..i][0] == fmt[0] && fmt[..i][1..] == fmt[1..][..i - 1];
  }

  lemma DropSlice(d: seq<byte>, w: nat, o: nat, k: nat)
    requires w + o + k <= |d|
    ensures d[w..][o .. o + k] == d[w + o .. w + o + k]
  {
  }

  lemma ValueAfter(x: seq<Value>, y: seq<Value>)
    requires |y| > 0
    ensures (x + y)[|x|] == y[0]
  {
  }

  lemma SliceOfSuffix(d: seq<byte>, o: nat, w: nat)
    requires o + w <= |d|
    ensures d[o..][..w] == d[o .. o + w]
  {
  }

  /** The first value unpacked is decoded from the first field's bytes. */
  lemma UnpackHead(fmt: seq<Kind>, d: seq<byte>)
    requires |d| == CalcSize(fmt) && |fmt| > 0
    ensures Width(fmt[0]) <= |d|
    ensures UnpackAll(fmt, d)[0] == DecodeOne(fmt[0], d[..Width(fmt[0])])
  {
  }

  /** A run of `i` codes of width `w` takes `w * i` bytes; with `w` a literal
      the product stays linear. */
  lemma RunSize(k: Kind, i: nat, w: nat)
    requires w == Width(k)
    ensures CalcSize(Rep(k, i)) == w * i
  {
    CalcSizeRep(k, i);
  }

  /** Slot `i` of a run of one code that follows the prefix `pre` in a format,
      read at byte offset `o`. */
  lemma UnpackRunAt(pre: seq<Kind>, k: Kind, n: nat, post: seq<Kind>, d: seq<byte>, i: nat, o: nat)
    requires |d| == CalcSize(pre + Rep(k, n) + post) && i < n
    requires o == CalcSize(pre) + CalcSize(Rep(k, i))
    ensures o + Width(k) <= |d|
    ensures UnpackAll(pre + Rep(k, n) + post, d)[|pre| + i] == DecodeOne(k, d[o .. o + Width(k)])
  {
    var fmt := pre + Rep(k, n) + post;
    var j := |pre| + i;
    RunPrefix(pre, k, n, post, i);
    CalcSizeAppend(pre, Rep(k, i));
    UnpackSlot(fmt, d, j, k, o);
  }

  /** The codes in front of slot `i` of a run are the prefix and `i` codes of the run. */
  lemma RunPrefix(pre: seq<Kind>, k: Kind, n: nat, post: seq<Kind>, i: nat)
    requires i < n
    ensures (pre + Rep(k, n) + post)[..|pre| + i] == pre + Rep(k, i)
    ensures (pre + Rep(k, n) + post)[|pre| + i] == k
  {
  }

  /** Slot `j` of a format whose code is `k` and whose codes in front take `o` bytes. */
  lemma UnpackSlot(fmt: seq<Kind>, d: seq<byte>, j: nat, k: Kind, o: nat)
    requires |d| == CalcSize(fmt) && j < |fmt|
    requires fmt[j] == k && CalcSize(fmt[..j]) == o
    ensures o + Width(k) <= |d|
    ensures UnpackAll(fmt, d)[j] == DecodeOne(k, d[o .. o + Width(k)])
  {
    UnpackAllAt(fmt, d, j);
  }

  /** `UnpackRunAt` for a run that ends the format. */
  lemma UnpackLastRunAt(pre: seq<Kind>, k: Kind, n: nat, d: seq<byte>, i: nat, o: nat)
    requires |d| == CalcSize(pre + Rep(k, n)) && i < n
    requires o == CalcSize(pre) + CalcSize(Rep(k, i))
    ensures o + Width(k) <= |d|
    ensures UnpackAll(pre + Rep(k, n), d)[|pre| + i] == DecodeOne(k, d[o .. o + Width(k)])
  {
    assert pre + Rep(k, n) + [] == pre + Rep(k, n);
    UnpackRunAt(pre, k, n, [], d, i, o);
  }

  /** The values of a format's prefix are read from the prefix's bytes. */
  lemma UnpackPrefix(a: seq<Kind>, b: seq<Kind>, d: seq<byte>)
    requires |d| == CalcSize(a + b)
    ensures CalcSize(a) <= |d|
    ensures UnpackAll(a + b, d)[..|a|] == UnpackAll(a, d[..CalcSize(a)])
  {
    UnpackAppend(a, b, d);
  }

  /** Splitting a conforming value list along a concatenated format. */
  lemma ConformsAppend(a: seq<Kind>, b: seq<Kind>, vs: seq<Value>)
    requires Conforms(a + b, vs)
    ensures Conforms(a, vs[..|a|]) && Conforms(b, vs[|a|..])
    ensures vs == vs[..|a|] + vs[|a|..]
  {
    forall i | 0 <= i < |a| ensures Fits(a[i], vs[..|a|][i]) {
      assert (a + b)[i] == a[i];
    }
    forall i | 0 <= i < |b| ensures Fits(b[i], vs[|a|..][i]) {
      assert (a + b)[|a| + i] == b[i];
    }
  }

  /** Two adjacent slices join into one. */
  lemma JoinAt(vs: seq<Value>, i: nat, j: nat)
    requires i <= j <= |vs|
    ensures vs[i..j] + vs[j..] == vs[i..]
  {
  }

  /** `ConformsAppend` for a concatenated format that starts at value `i`. */
  lemma ConformsAt(a: seq<Kind>, b: seq<Kind>, vs: seq<Value>, i: nat)
    requires i <= |vs| && Conforms(a + b, vs[i..])
    ensures i + |a| <= |vs|
    ensures Conforms(a, vs[i..i + |a|]) && Conforms(b, vs[i + |a|..])
  {
    ConformsAppend(a, b, vs[i..]);
    assert vs[i..][..|a|] == vs[i..i + |a|];
    assert vs[i..][|a|..] == vs[i + |a|..];
  }

  lemma ConformsRepeat(fmt: seq<Kind>, n: nat, vs: seq<Value>)
    requires n > 0
    requires Conforms(Repeat(fmt, n), vs)
    ensures Conforms(fmt, vs[..|fmt|]) && Conforms(Repeat(fmt, n - 1), vs[|fmt|..])
    ensures vs == vs[..|fmt|] + vs[|fmt|..]
  {
    ConformsAppend(fmt, Repeat(fmt, n - 1), vs);
  }

  /** Joining conforming value lists along a concatenated format. */
  lemma ConformsConcat(a: seq<Kind>, b: seq<Kind>, va: seq<Value>, vb: seq<Value>)
    requires Conforms(a, va) && Conforms(b, vb)
    ensures Conforms(a + b, va + vb)
  {
    forall i | 0 <= i < |a + b| ensures Fits((a + b)[i], (va + vb)[i]) {
      if i < |a| {
        assert (a + b)[i] == a[i] && (va + vb)[i] == va[i];
      } else {
        assert (a + b)[i] == b[i - |a|] && (va + vb)[i] == vb[i - |a|];
      }
    }
  }

  /** A run of one code splits into two runs at any point. */
  lemma ConformsRepSplit(k: Kind, n: nat, m: nat, vs: seq<Value>)
    requires m <= n && Conforms(Rep(k, n), vs)
    ensures Conforms(Rep(k, m), vs[..m]) && Conforms(Rep(k, n - m), vs[m..])
    ensures vs == vs[..m] + vs[m..]
  {
  }

  /** Two runs of one code join into one run. */
  lemma ConformsRepJoin(k: Kind, va: seq<Value>, vb: seq<Value>)
    requires Conforms(Rep(k, |va|), va) && Conforms(Rep(k, |vb|), vb)
    ensures Conforms(Rep(k, |va| + |vb|), va + vb)
  {
    forall i | 0 <= i < |va| + |vb| ensures Fits(k, (va + vb)[i]) {
      if i < |va| {
        assert Fits(Rep(k, |va|)[i], va[i]);
      } else {
        assert Fits(Rep(k, |vb|)[i - |va|], vb[i - |va|]);
      }
    }
  }

  // ---------------------------------------------------------------------------
  // Repeated blocks
  // ---------------------------------------------------------------------------

  /** Value lists joined end to end. */
  function Concat(bs: seq<seq<Value>>): (vs: seq<Value>)
    decreases |bs|
  {
    if |bs| == 0 then [] else bs[0] + Concat(bs[1..])
  }

  /** The values of a repeated format cut into one list per repetition. */
  function Blocks(fmt: seq<Kind>, n: nat, vs: seq<Value>): (bs: seq<seq<Value>>)
    requires Conforms(Repeat(fmt, n), vs)
    ensures |bs| == n
    ensures forall k | 0 <= k < n :: Conforms(fmt, bs[k])
    decreases n
  {
    if n == 0 then []
    else
      ConformsRepeat(fmt, n, vs);
      var rest := Blocks(fmt, n - 1, vs[|fmt|..]);
      var bs := [vs[..|fmt|]] + rest;
      assert forall k | 0 < k < n :: bs[k] == rest[k - 1];
      bs
  }

  /** Joining the blocks gives back the values. */
  lemma {:induction false} ConcatBlocks(fmt: seq<Kind>, n: nat, vs: seq<Value>)
    requires Conforms(Repeat(fmt, n), vs)
    ensures Concat(Blocks(fmt, n, vs)) == vs
    decreases n
  {
    if n > 0 {
      ConformsRepeat(fmt, n, vs);
      var bs := Blocks(fmt, n, vs);
      assert bs[1..] == Blocks(fmt, n - 1, vs[|fmt|..]);
      ConcatBlocks(fmt, n - 1, vs[|fmt|..]);
    }
  }

  /** A format of one-byte codes takes one byte per code. */
  lemma {:induction false} ByteWideSize(fmt: seq<Kind>)
    requires forall k | k in fmt :: Width(k) == 1
    ensures CalcSize(fmt) == |fmt|
    decreases |fmt|
  {
    if |fmt| > 0 {
      assert fmt[0] in fmt;
      assert forall k | k in fmt[1..] :: k in fmt;
      ByteWideSize(fmt[1..]);
    }
  }

  /** Blocks that each conform join into values of the repeated format. */
  lemma {:induction false} ConcatConforms(fmt: seq<Kind>, bs: seq<seq<Value>>)
    requires forall k | 0 <= k < |bs| :: Conforms(fmt, bs[k])
    ensures Conforms(Repeat(fmt, |bs|), Concat(bs))
    decreases |bs|
  {
    if |bs| > 0 {
      assert forall k | 0 <= k < |bs| - 1 :: bs[1..][k] == bs[k + 1];
      ConcatConforms(fmt, bs[1..]);
      ConformsConcat(fmt, Repeat(fmt, |bs| - 1), bs[0], Concat(bs[1..]));
    }
  }

  /** Cutting joined conforming blocks gives back the blocks. */
  lemma {:induction false} BlocksOfConcat(fmt: seq<Kind>, bs: seq<seq<Value>>)
    requires forall k | 0 <= k < |bs| :: Conforms(fmt, bs[k])
    ensures Conforms(Repeat(fmt, |bs|), Concat(bs))
    ensures Blocks(fmt, |bs|, Concat(bs)) == bs
    decreases |bs|
  {
    ConcatConforms(fmt, bs);
    if |bs| > 0 {
      assert forall k | 0 <= k < |bs| - 1 :: bs[1..][k] == bs[k + 1];
      var vs := Concat(bs);
      assert vs[..|fmt|] == bs[0];
      assert vs[|fmt|..] == Concat(bs[1..]);
      BlocksOfConcat(fmt, bs[1..]);
      assert bs == [bs[0]] + bs[1..];
    }
  }

  // ---------------------------------------------------------------------------
  // Typed views of unpacked values
  // ---------------------------------------------------------------------------

  /** Integer values as `struct.pack` takes them. */
  function Ints(xs: seq<int>): (vs: seq<Value>)
    ensures |vs| == |xs| && forall i | 0 <= i < |xs| :: vs[i] == Int(xs[i])
  {
    seq(|xs|, i requires 0 <= i < |xs| => Int(xs[i]))
  }

  /** Float words as `struct.pack` takes them. */
  function Words(ws: seq<F32>): (vs: seq<Value>)
    ensures |vs| == |ws| && forall i | 0 <= i < |ws| :: vs[i] == Word(ws[i])
  {
    seq(|ws|, i requires 0 <= i < |ws| => Word(ws[i]))
  }

  /** A run of `B` values as a list of bytes. */
  function ByteList(vs: seq<Value>): (r: seq<byte>)
    requires Conforms(Rep(UByte, |vs|), vs)
    ensures Ints(r) == vs
  {
    seq(|vs|, i requires 0 <= i < |vs| => (assert Fits(Rep(UByte, |vs|)[i], vs[i]); vs[i].n as byte))
  }

  /** A run of `h` values. */
  function I16List(vs: seq<Value>): (r: seq<i16>)
    requires Conforms(Rep(SShort, |vs|), vs)
    ensures Ints(r) == vs
  {
    seq(|vs|, i requires 0 <= i < |vs| => (assert Fits(Rep(SShort, |vs|)[i], vs[i]); vs[i].n as i16))
  }

  /** A run of `H` values. */
  function U16List(vs: seq<Value>): (r: seq<u16>)
    requires Conforms(Rep(UShort, |vs|), vs)
    ensures Ints(r) == vs
  {
    seq(|vs|, i requires 0 <= i < |vs| => (assert Fits(Rep(UShort, |vs|)[i], vs[i]); vs[i].n as u16))
  }

  function AsF32(w: seq<byte>): F32
    requires |w| == 4
  {
    w
  }

  /** A run of `f` values. */
  function F32List(vs: seq<Value>): (r: seq<F32>)
    requires Conforms(Rep(Float, |vs|), vs)
    ensures Words(r) == vs
  {
    seq(|vs|, i requires 0 <= i < |vs| => (assert Fits(Rep(Float, |vs|)[i], vs[i]); AsF32(vs[i].word)))
  }

  /** The list views give back the lists they were packed from. */
  lemma ByteListRoundTrip(bs: seq<byte>)
    ensures Conforms(Rep(UByte, |bs|), Ints(bs)) && ByteList(Ints(bs)) == bs
  {
  }

  lemma I16ListRoundTrip(hs: seq<i16>)
    ensures Conforms(Rep(SShort, |hs|), Ints(hs)) && I16List(Ints(hs)) == hs
  {
  }

  lemma U16ListRoundTrip(us: seq<u16>)
    ensures Conforms(Rep(UShort, |us|), Ints(us)) && U16List(Ints(us)) == us
  {
  }

  lemma F32ListRoundTrip(ws: seq<F32>)
    ensures Conforms(Rep(Float, |ws|), Words(ws)) && F32List(Words(ws)) == ws
  {
  }

  /** A run of `64s` values as their byte strings. */
  function CharsList(vs: seq<Value>): (r: seq<seq<byte>>)
    requires Conforms(Rep(Chars64, |vs|), vs)
    ensures |r| == |vs|
    ensures forall i | 0 <= i < |vs| :: vs[i] == Chars(r[i]) && |r[i]| == 64
  {
    seq(|vs|, i requires 0 <= i < |vs| => (assert Fits(Rep(Chars64, |vs|)[i], vs[i]); vs[i].chars))
  }

  /** Byte strings as `struct.pack` takes them for a run of `64s`. */
  function CharsValues(fs: seq<seq<byte>>): (vs: seq<Value>)
    ensures |vs| == |fs| && forall i | 0 <= i < |fs| :: vs[i] == Chars(fs[i])
  {
    seq(|fs|, i requires 0 <= i < |fs| => Chars(fs[i]))
  }

  lemma CharsListRoundTrip(fs: seq<seq<byte>>)
    requires forall i | 0 <= i < |fs| :: |fs[i]| == 64
    ensures Conforms(Rep(Chars64, |fs|), CharsValues(fs)) && CharsList(CharsValues(fs)) == fs
  {
  }
}
