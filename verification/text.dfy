/** The fixed 64-byte string fields: `str(field, encoding='utf-8', errors='strict')`
    followed by `.split('\x00', 1)[0]`.

    `DecodeUtf8` is Python's strict UTF-8 decoder: it accepts exactly the
    well-formed byte sequences of the Unicode standard (no overlong forms, no
    surrogates, nothing above U+10FFFF, no truncated sequence) and fails on
    anything else, wherever in the field it occurs.
 */
module Text {
  import opened Bytes
  import opened Results
  import StructFormat

  const NUL: char := 0 as char

  predicate IsContinuation(b: byte) {
    0x80 <= b < 0xC0
  }

  /** The second byte allowed after a three-byte lead (excludes overlongs and surrogates). */
  predicate SecondOfThree(b0: byte, b1: byte) {
    if b0 == 0xE0 then 0xA0 <= b1 < 0xC0
    else if b0 == 0xED then 0x80 <= b1 < 0xA0
    else IsContinuation(b1)
  }

  /** The second byte allowed after a four-byte lead (excludes overlongs and values above U+10FFFF). */
  predicate SecondOfFour(b0: byte, b1: byte) {
    if b0 == 0xF0 then 0x90 <= b1 < 0xC0
    else if b0 == 0xF4 then 0x80 <= b1 < 0x90
    else IsContinuation(b1)
  }

  /** The length of the well-formed sequence that starts `x`, or 0 when it is ill-formed. */
  function SequenceLength(x: seq<byte>): (n: nat)
    requires |x| > 0
    ensures n <= 4 && n <= |x|
  {
    var b0 := x[0];
    if b0 < 0x80 then 1
    else if 0xC2 <= b0 < 0xE0 then
      (if |x| >= 2 && IsContinuation(x[1]) then 2 else 0)
    else if 0xE0 <= b0 < 0xF0 then
      (if |x| >= 3 && SecondOfThree(b0, x[1]) && IsContinuation(x[2]) then 3 else 0)
    else if 0xF0 <= b0 < 0xF5 then
      (if |x| >= 4 && SecondOfFour(b0, x[1]) && IsContinuation(x[2]) && IsContinuation(x[3]) then 4 else 0)
    else 0
  }

  predicate IsScalarValue(cp: int) {
    0 <= cp < 0xD800 || 0xE000 <= cp < 0x110000
  }

  /** The code point of the well-formed sequence that starts `x`. */
  function CodePoint(x: seq<byte>): (cp: int)
    requires |x| > 0 && SequenceLength(x) > 0
    ensures IsScalarValue(cp)
    ensures cp == 0 <==> x[0] == 0
  {
    var n := SequenceLength(x);
    var b0: int := x[0];
    if n == 1 then b0
    else if n == 2 then (b0 - 0xC0) * 64 + (x[1] as int - 0x80)
    else if n == 3 then (b0 - 0xE0) * 4096 + (x[1] as int - 0x80) * 64 + (x[2] as int - 0x80)
    else (b0 - 0xF0) * 262144 + (x[1] as int - 0x80) * 4096 + (x[2] as int - 0x80) * 64 + (x[3] as int - 0x80)
  }

  /** `bytes.decode('utf-8', 'strict')`: `None` stands for `UnicodeDecodeError`. */
  function DecodeUtf8(b: seq<byte>): Option<string>
    decreases |b|
  {
    if |b| == 0 then Some([])
    else
      var n := SequenceLength(b);
      if n == 0 then None
      else
        match DecodeUtf8(b[n..])
        case None => None
        case Some(rest) => Some([CodePoint(b) as char] + rest)
  }

  /** One step of the decoder, for a buffer that starts with a well-formed sequence. */
  lemma DecodeStep(b: seq<byte>)
    requires |b| > 0 && SequenceLength(b) > 0
    ensures DecodeUtf8(b).Some? <==> DecodeUtf8(b[SequenceLength(b)..]).Some?
    ensures DecodeUtf8(b).Some? ==>
      DecodeUtf8(b).value == [CodePoint(b) as char] + DecodeUtf8(b[SequenceLength(b)..]).value
  {
  }

  /** `str.encode('utf-8')` of one character. */
  function EncodeChar(c: char): (r: seq<byte>)
    ensures 1 <= |r| <= 4
  {
    var cp := c as int;
    assert 0 <= cp < 0x110000;
    if cp < 0x80 then [cp]
    else if cp < 0x800 then [0xC0 + cp / 64, 0x80 + cp % 64]
    else if cp < 0x10000 then [0xE0 + cp / 4096, 0x80 + (cp / 64) % 64, 0x80 + cp % 64]
    else [0xF0 + cp / 262144, 0x80 + (cp / 4096) % 64, 0x80 + (cp / 64) % 64, 0x80 + cp % 64]
  }

  /** `str.encode('utf-8')`. */
  function EncodeUtf8(s: string): seq<byte> {
    if |s| == 0 then [] else EncodeChar(s[0]) + EncodeUtf8(s[1..])
  }

  /** `s.split('\x00', 1)[0]`: the text before the first NUL, or all of it. */
  function BeforeNul(s: string): (r: string)
    ensures r <= s
    ensures NUL !in r
    ensures |r| < |s| ==> s[|r|] == NUL
  {
    if |s| == 0 || s[0] == NUL then [] else [s[0]] + BeforeNul(s[1..])
  }

  /** A 64-byte string field as the packet classes decode it. */
  function DecodeField(field: seq<byte>): (r: Result<string>)
    ensures r.Err? <==> DecodeUtf8(field).None?
    ensures r.Err? ==> r.error == UnicodeDecodeError
    ensures r.Ok? ==> r.value <= DecodeUtf8(field).value && NUL !in r.value
    ensures r.Ok? && |r.value| < |DecodeUtf8(field).value| ==> DecodeUtf8(field).value[|r.value|] == NUL
  {
    match DecodeUtf8(field)
    case None => Err(UnicodeDecodeError)
    case Some(s) => Ok(BeforeNul(s))
  }

  // ---------------------------------------------------------------------------
  // Lemmas
  // ---------------------------------------------------------------------------

  /** A well-formed sequence is recognised from its own bytes alone. */
  lemma SequenceLengthPrefix(x: seq<byte>, y: seq<byte>)
    requires |x| > 0 && SequenceLength(x) > 0
    requires |y| >= SequenceLength(x) && x[..SequenceLength(x)] == y[..SequenceLength(x)]
    ensures SequenceLength(y) == SequenceLength(x)
    ensures CodePoint(y) == CodePoint(x)
  {
    var n := SequenceLength(x);
    assert forall i | 0 <= i < n :: x[i] == y[i] by {
      forall i | 0 <= i < n ensures x[i] == y[i] {
        assert x[..n][i] == y[..n][i];
      }
    }
  }

  lemma EncodeCharDecodes(c: char, rest: seq<byte>)
    ensures SequenceLength(EncodeChar(c) + rest) == |EncodeChar(c)|
    ensures CodePoint(EncodeChar(c) + rest) == c as int
  {
    var cp := c as int;
    if cp < 0x80 {
    } else if cp < 0x800 {
      EncodeTwoDecodes(c, rest);
    } else if cp < 0x10000 {
      EncodeThreeDecodes(c, rest);
    } else {
      EncodeFourDecodes(c, rest);
    }
  }

  lemma EncodeTwoDecodes(c: char, rest: seq<byte>)
    requires 0x80 <= c as int < 0x800
    ensures SequenceLength(EncodeChar(c) + rest) == 2
    ensures CodePoint(EncodeChar(c) + rest) == c as int
  {
    var cp := c as int;
    var x := EncodeChar(c) + rest;
    assert x[0] == 0xC0 + cp / 64 && x[1] == 0x80 + cp % 64;
  }

  lemma EncodeThreeDecodes(c: char, rest: seq<byte>)
    requires 0x800 <= c as int < 0x10000
    ensures SequenceLength(EncodeChar(c) + rest) == 3
    ensures CodePoint(EncodeChar(c) + rest) == c as int
  {
    var cp := c as int;
    var x := EncodeChar(c) + rest;
    var q := cp / 64;
    assert cp == q * 64 + cp % 64;
    assert q == (q / 64) * 64 + q % 64;
    assert cp / 4096 == q / 64;
    assert x[0] == 0xE0 + q / 64 && x[1] == 0x80 + q % 64 && x[2] == 0x80 + cp % 64;
  }

  lemma EncodeFourDecodes(c: char, rest: seq<byte>)
    requires 0x10000 <= c as int
    ensures SequenceLength(EncodeChar(c) + rest) == 4
    ensures CodePoint(EncodeChar(c) + rest) == c as int
  {
    var cp := c as int;
    var x := EncodeChar(c) + rest;
    var q := cp / 64;
    var q2 := q / 64;
    assert cp == q * 64 + cp % 64;
    assert q == q2 * 64 + q % 64;
    assert q2 == (q2 / 64) * 64 + q2 % 64;
    assert cp / 4096 == q2;
    assert cp / 262144 == q2 / 64;
    assert x[0] == 0xF0 + q2 / 64 && x[1] == 0x80 + q2 % 64;
    assert x[2] == 0x80 + q % 64 && x[3] == 0x80 + cp % 64;
  }

  lemma {:induction false} DecodeEncode(s: string)
    ensures DecodeUtf8(EncodeUtf8(s)) == Some(s)
  {
    if |s| > 0 {
      var e := EncodeChar(s[0]);
      var tail := EncodeUtf8(s[1..]);
      EncodeCharDecodes(s[0], tail);
      assert (e + tail)[|e|..] == tail;
      DecodeEncode(s[1..]);
      assert s == [s[0]] + s[1..];
    }
  }

  lemma {:induction false} DecodeAppend(a: seq<byte>, b: seq<byte>)
    requires DecodeUtf8(a).Some? && DecodeUtf8(b).Some?
    ensures DecodeUtf8(a + b) == Some(DecodeUtf8(a).value + DecodeUtf8(b).value)
    decreases |a|
  {
    if |a| == 0 {
      assert a + b == b;
      assert DecodeUtf8(a).value == [];
      assert [] + DecodeUtf8(b).value == DecodeUtf8(b).value;
    } else {
      var n := SequenceLength(a);
      assert SequenceLength(a + b) == n && CodePoint(a + b) == CodePoint(a) by {
        assert a[..n] == (a + b)[..n];
        SequenceLengthPrefix(a, a + b);
      }
      assert (a + b)[n..] == a[n..] + b;
      DecodeAppend(a[n..], b);
      var c := [CodePoint(a) as char];
      var u := DecodeUtf8(a[n..]).value;
      var w := DecodeUtf8(b).value;
      assert DecodeUtf8(a).value == c + u by {
        DecodeStep(a);
      }
      assert DecodeUtf8(a + b) == Some(c + (u + w)) by {
        DecodeStep(a + b);
      }
      assert c + (u + w) == (c + u) + w;
    }
  }

  function NulString(n: nat): (r: string)
    ensures |r| == n
    ensures forall i | 0 <= i < n :: r[i] == NUL
  {
    seq(n, _ => NUL)
  }

  lemma {:induction false} DecodeZeros(n: nat)
    ensures DecodeUtf8(Zeros(n)) == Some(NulString(n))
  {
    if n > 0 {
      assert SequenceLength(Zeros(n)) == 1 && CodePoint(Zeros(n)) == 0;
      assert Zeros(n)[1..] == Zeros(n - 1);
      DecodeZeros(n - 1);
      assert NulString(n) == [NUL] + NulString(n - 1);
    }
  }

  /** Only a zero byte decodes to NUL. */
  lemma {:induction false} NoZeroByteNoNul(b: seq<byte>)
    requires DecodeUtf8(b).Some?
    requires 0 !in b
    ensures NUL !in DecodeUtf8(b).value
    decreases |b|
  {
    if |b| > 0 {
      var n := SequenceLength(b);
      assert 0 !in b[n..] by {
        forall i | 0 <= i < |b| - n ensures b[n..][i] != 0 {
          assert b[n..][i] == b[n + i];
        }
      }
      NoZeroByteNoNul(b[n..]);
      assert b[0] in b;
    }
  }

  /** Encoding never produces a zero byte for a text without NUL. */
  lemma {:induction false} EncodeHasNoZero(s: string)
    requires NUL !in s
    ensures 0 !in EncodeUtf8(s)
  {
    if |s| > 0 {
      assert s[0] in s;
      assert NUL !in s[1..] by {
        forall i | 0 <= i < |s| - 1 ensures s[1..][i] != NUL {
          assert s[1..][i] == s[i + 1];
          assert s[i + 1] in s;
        }
      }
      EncodeHasNoZero(s[1..]);
    }
  }

  /** A field `a + [0] + g` decodes, when it decodes at all, to the decoding of
      `a`, a NUL, and the decoding of `g`. */
  lemma {:induction false} DecodeAroundZero(a: seq<byte>, g: seq<byte>)
    requires 0 !in a
    requires DecodeUtf8(a + [0] + g).Some?
    ensures DecodeUtf8(a).Some? && DecodeUtf8(g).Some?
    ensures DecodeUtf8(a + [0] + g).value == DecodeUtf8(a).value + [NUL] + DecodeUtf8(g).value
    decreases |a|
  {
    var x := a + [0] + g;
    if |a| == 0 {
      DecodeAfterLeadingZero(g);
      assert x == [0] + g;
      assert DecodeUtf8(a).value == [];
      assert [] + [NUL] + DecodeUtf8(g).value == [NUL] + DecodeUtf8(g).value;
    } else {
      var n := SequenceLength(x);
      FirstSequenceBeforeZero(a, g);
      DecodeAroundZero(a[n..], g);
      var c := [CodePoint(a) as char];
      var u := DecodeUtf8(a[n..]).value;
      var w := DecodeUtf8(g).value;
      assert DecodeUtf8(x).value == c + (u + [NUL] + w) by {
        DecodeStep(x);
      }
      assert DecodeUtf8(a) == Some(c + u) by {
        DecodeStep(a);
      }
      assert c + (u + [NUL] + w) == (c + u) + [NUL] + w;
    }
  }

  /** A leading zero byte decodes to NUL and the rest decodes on its own. */
  lemma DecodeAfterLeadingZero(g: seq<byte>)
    requires DecodeUtf8([0] + g).Some?
    ensures DecodeUtf8(g).Some? && DecodeUtf8([0] + g).value == [NUL] + DecodeUtf8(g).value
  {
    var x := [0] + g;
    assert x[1..] == g;
    assert SequenceLength(x) == 1 && CodePoint(x) == 0;
    DecodeStep(x);
  }

  /** In `a + [0] + g` with no zero byte in a non-empty `a`, the first sequence
      lies inside `a`: `a` starts with the same sequence, and what follows it is
      the rest of `a`, the zero byte and `g`. */
  lemma FirstSequenceBeforeZero(a: seq<byte>, g: seq<byte>)
    requires 0 !in a && |a| > 0
    requires SequenceLength(a + [0] + g) > 0
    ensures var n := SequenceLength(a + [0] + g);
      && n <= |a| && SequenceLength(a) == n && CodePoint(a) == CodePoint(a + [0] + g)
      && (a + [0] + g)[n..] == a[n..] + [0] + g
      && 0 !in a[n..]
  {
    var x := a + [0] + g;
    var n := SequenceLength(x);
    assert n <= |a| by {
      assert x[0] == a[0] && a[0] in a;
      // every byte of a multi-byte sequence is at least 0x80, so the zero byte lies beyond it
      assert forall i | 1 <= i < n :: x[i] >= 0x80;
      assert x[|a|] == 0;
    }
    assert SequenceLength(a) == n && CodePoint(a) == CodePoint(x) by {
      assert x[..n] == a[..n];
      SequenceLengthPrefix(x, a);
    }
    assert x[n..] == a[n..] + [0] + g by {
      assert a == a[..n] + a[n..];
      assert x == a[..n] + (a[n..] + [0] + g);
    }
    assert 0 !in a[n..] by {
      forall i | 0 <= i < |a| - n ensures a[n..][i] != 0 {
        assert a[n..][i] == a[n + i];
        assert a[n + i] in a;
      }
    }
  }

  lemma {:induction false} BeforeNulOfJoin(u: string, v: string)
    requires NUL !in u
    requires |v| == 0 || v[0] == NUL
    ensures BeforeNul(u + v) == u
    decreases |u|
  {
    if |u| == 0 {
      assert u + v == v;
    } else {
      assert u[0] in u;
      assert (u + v)[1..] == u[1..] + v;
      assert NUL !in u[1..] by {
        forall i | 0 <= i < |u| - 1 ensures u[1..][i] != NUL {
          assert u[1..][i] == u[i + 1];
          assert u[i + 1] in u;
        }
      }
      BeforeNulOfJoin(u[1..], v);
      assert u == [u[0]] + u[1..];
    }
  }

  // ---------------------------------------------------------------------------
  // Properties of the string fields
  // ---------------------------------------------------------------------------

  /** Whatever follows the first zero byte does not change the decoded text; it can
      only make the whole field fail strict decoding. */
  lemma GarbageAfterNulIgnored(a: seq<byte>, g: seq<byte>)
    requires 0 !in a
    requires DecodeField(a + [0] + g).Ok?
    ensures DecodeUtf8(a).Some? && DecodeField(a + [0] + g).value == DecodeUtf8(a).value
  {
    DecodeAroundZero(a, g);
    NoZeroByteNoNul(a);
    FieldOfDecoded(a + [0] + g, DecodeUtf8(a).value, DecodeUtf8(g).value);
  }

  /** A field that decodes to `u`, a NUL and `w`, with no NUL in `u`, yields `u`. */
  lemma FieldOfDecoded(f: seq<byte>, u: string, w: string)
    requires DecodeUtf8(f).Some? && DecodeUtf8(f).value == u + [NUL] + w
    requires NUL !in u
    ensures DecodeField(f) == Ok(u)
  {
    assert u + [NUL] + w == u + ([NUL] + w);
    BeforeNulOfJoin(u, [NUL] + w);
  }

  /** The field decodes exactly when the bytes before and after the first zero byte both do. */
  lemma FieldAroundNulDecodes(a: seq<byte>, g: seq<byte>)
    requires 0 !in a
    ensures DecodeField(a + [0] + g).Ok? <==> DecodeUtf8(a).Some? && DecodeUtf8(g).Some?
  {
    if DecodeUtf8(a + [0] + g).Some? {
      DecodeAroundZero(a, g);
    }
    if DecodeUtf8(a).Some? && DecodeUtf8(g).Some? {
      DecodeJoinAtZero(a, g);
    }
  }

  lemma DecodeJoinAtZero(a: seq<byte>, g: seq<byte>)
    requires DecodeUtf8(a).Some? && DecodeUtf8(g).Some?
    ensures DecodeUtf8(a + [0] + g).Some?
  {
    DecodeZeros(1);
    assert Zeros(1) == [0];
    DecodeAppend(a, [0]);
    DecodeAppend(a + [0], g);
  }

  /** An all-zero field decodes to the empty text. */
  lemma ZeroFieldIsEmpty(n: nat)
    ensures DecodeField(Zeros(n)) == Ok([])
  {
    DecodeZeros(n);
  }

  /** A well-formed field with no zero byte decodes to all of its text. */
  lemma FieldWithoutNulIsWhole(field: seq<byte>)
    requires 0 !in field
    requires DecodeUtf8(field).Some?
    ensures DecodeField(field) == Ok(DecodeUtf8(field).value)
  {
    NoZeroByteNoNul(field);
  }

  /** A text without NUL whose encoding fits in 64 bytes, packed as `64s` and
      decoded, comes back unchanged. */
  lemma NameRoundTrip(name: string)
    requires NUL !in name
    requires |EncodeUtf8(name)| <= 64
    ensures DecodeField(StructFormat.PackChars(EncodeUtf8(name))) == Ok(name)
  {
    var e := EncodeUtf8(name);
    var pad := 64 - |e|;
    DecodeEncode(name);
    DecodeZeros(pad);
    DecodeAppend(e, Zeros(pad));
    BeforeNulOfJoin(name, NulString(pad));
  }

  // ---------------------------------------------------------------------------
  // Runs of string fields
  // ---------------------------------------------------------------------------

  /** The string fields decoded in order, as the packet classes pop them; the
      first that fails strict decoding raises. */
  function DecodeFields(fields: seq<seq<byte>>): (r: Result<seq<string>>)
    ensures r.Ok? <==> forall i | 0 <= i < |fields| :: DecodeField(fields[i]).Ok?
    ensures r.Err? ==> r.error == UnicodeDecodeError
    ensures r.Ok? ==> |r.value| == |fields|
    ensures r.Ok? ==> forall i | 0 <= i < |fields| :: DecodeField(fields[i]) == Ok(r.value[i])
  {
    if |fields| == 0 then Ok([])
    else
      assert forall i | 1 <= i < |fields| :: fields[i] == fields[1..][i - 1];
      var s :- DecodeField(fields[0]);
      var rest :- DecodeFields(fields[1..]);
      Ok([s] + rest)
  }

  /** A text fits a `64s` field when it has no NUL and its encoding is at most 64 bytes. */
  predicate FitsField(s: string) {
    NUL !in s && |EncodeUtf8(s)| <= 64
  }

  /** The texts as `struct.pack` stores them in `64s` fields. */
  function EncodeFields(texts: seq<string>): (fs: seq<seq<byte>>)
    ensures |fs| == |texts| && forall i | 0 <= i < |texts| :: |fs[i]| == 64
  {
    seq(|texts|, i requires 0 <= i < |texts| => StructFormat.PackChars(EncodeUtf8(texts[i])))
  }

  /** Texts that fit their fields are decoded back unchanged. */
  lemma DecodeEncodeFields(texts: seq<string>)
    requires forall i | 0 <= i < |texts| :: FitsField(texts[i])
    ensures DecodeFields(EncodeFields(texts)) == Ok(texts)
  {
    var fs := EncodeFields(texts);
    forall i | 0 <= i < |texts| ensures DecodeField(fs[i]) == Ok(texts[i]) {
      NameRoundTrip(texts[i]);
    }
    assert DecodeFields(fs).value == texts;
  }
}
