/**
 The text layer of the toy machine. Registers and memory cells hold hexadecimal
 text; this module gives that text a meaning. `Hex` is the interpreter's own
 `hex(i, digits)` helper (Python's `format(int(i), '0<digits>X')`), `ParseHex`
 is Python's `int(text, 16)`, `ZFill` is `str.zfill` and `LastTwo` is the
 slice `text[-2:]`. The lemmas show that a stored word is determined by its
 integer value, which is what lets the rest of the model hold integers.
 */
module HexText {

  datatype Option<T> = None | Some(value: T)

  /** A digit that `int(text, 16)` accepts. */
  predicate IsHexDigit(c: char) {
    '0' <= c <= '9' || 'A' <= c <= 'F' || 'a' <= c <= 'f'
  }

  /** A digit that `format(..., 'X')` produces, and that the loader's pattern `[0-9A-F]` accepts. */
  predicate IsUpperHexDigit(c: char) {
    '0' <= c <= '9' || 'A' <= c <= 'F'
  }

  predicate AllHex(s: string) {
    forall i :: 0 <= i < |s| ==> IsHexDigit(s[i])
  }

  predicate AllUpperHex(s: string) {
    forall i :: 0 <= i < |s| ==> IsUpperHexDigit(s[i])
  }

  function DigitValue(c: char): (n: int)
    requires IsHexDigit(c)
    ensures 0 <= n < 16
    ensures n == 0 <==> c == '0'
  {
    if '0' <= c <= '9' then c as int - '0' as int
    else if 'A' <= c <= 'F' then c as int - 'A' as int + 10
    else c as int - 'a' as int + 10
  }

  function Digit(n: int): (c: char)
    requires 0 <= n < 16
    ensures IsUpperHexDigit(c) && DigitValue(c) == n
  {
    if n < 10 then ('0' as int + n) as char else ('A' as int + n - 10) as char
  }

  lemma DigitOfValue(c: char)
    requires IsUpperHexDigit(c)
    ensures Digit(DigitValue(c)) == c
  {
  }

  /** The value of a string of hex digits, most significant first. */
  function ValueOf(s: string): nat
    requires AllHex(s)
  {
    if s == [] then 0 else ValueOf(s[..|s| - 1]) * 16 + DigitValue(s[|s| - 1])
  }

  function Pow16(k: nat): (r: nat)
    ensures r >= 1
  {
    if k == 0 then 1 else 16 * Pow16(k - 1)
  }

  function Zeros(k: nat): (z: string)
    ensures |z| == k && AllUpperHex(z)
  {
    if k == 0 then [] else Zeros(k - 1) + ['0']
  }

  /** Left-pads with zeros to width `w`; a longer string is kept whole, as `format` does. */
  function PadLeft(s: string, w: nat): (r: string)
    ensures |r| == if |s| >= w then |s| else w
  {
    if |s| >= w then s else Zeros(w - |s|) + s
  }

  /** `format(n, 'X')` for a non-negative `n`: the shortest upper-case digit string. */
  function Magnitude(n: nat): string
  {
    if n < 16 then [Digit(n)] else Magnitude(n / 16) + [Digit(n % 16)]
  }

  /** The interpreter's `hex(i, digits)`: zero padding is sign-aware, so a negative
      value becomes `-` followed by its magnitude padded to `digits - 1`. */
  function Hex(v: int, digits: nat): string
  {
    if v >= 0 then PadLeft(Magnitude(v), digits)
    else "-" + PadLeft(Magnitude(-v), if digits > 0 then digits - 1 else 0)
  }

  /** `int(s, 16)` for an optional sign followed by hex digits; `None` where Python raises. */
  function ParseHex(s: string): Option<int>
  {
    if |s| >= 2 && s[0] == '-' && AllHex(s[1..]) then Some(0 - ValueOf(s[1..]))
    else if |s| >= 2 && s[0] == '+' && AllHex(s[1..]) then Some(ValueOf(s[1..]))
    else if |s| >= 1 && AllHex(s) then Some(ValueOf(s))
    else None
  }

  /** Python's `str.zfill(w)`: zeros go after a leading sign. */
  function ZFill(s: string, w: nat): (r: string)
    ensures |r| == if |s| >= w then |s| else w
  {
    if |s| >= w then s
    else if |s| > 0 && (s[0] == '+' || s[0] == '-') then [s[0]] + Zeros(w - |s|) + s[1..]
    else Zeros(w - |s|) + s
  }

  /** Python's `s[-2:]`. */
  function LastTwo(s: string): (r: string)
    ensures |r| == if |s| >= 2 then 2 else |s|
  {
    if |s| >= 2 then s[|s| - 2..] else s
  }

  // ----- Digit strings -----

  lemma {:induction false} MagnitudeDigits(n: nat)
    ensures |Magnitude(n)| >= 1 && AllUpperHex(Magnitude(n))
    ensures ValueOf(Magnitude(n)) == n
    decreases n
  {
    if n >= 16 {
      MagnitudeDigits(n / 16);
      var m := Magnitude(n);
      assert m[..|m| - 1] == Magnitude(n / 16);
    }
  }

  lemma {:induction false} MagnitudeLength(n: nat, k: nat)
    requires n < Pow16(k)
    ensures |Magnitude(n)| <= if k == 0 then 1 else k
    decreases k
  {
    if n >= 16 && k > 1 {
      MagnitudeLength(n / 16, k - 1);
    }
  }

  lemma {:induction false} ValueBound(s: string)
    requires AllHex(s)
    ensures ValueOf(s) < Pow16(|s|)
    decreases |s|
  {
    if s != [] {
      ValueBound(s[..|s| - 1]);
    }
  }

  lemma {:induction false} ZerosValue(k: nat, s: string)
    requires AllHex(s)
    ensures AllHex(Zeros(k) + s) && ValueOf(Zeros(k) + s) == ValueOf(s)
    decreases |s|, k
  {
    if s == [] {
      assert Zeros(k) + s == Zeros(k);
      if k > 0 {
        ZerosValue(k - 1, s);
        assert Zeros(k)[..k - 1] == Zeros(k - 1) + s;
      }
    } else {
      var p := s[..|s| - 1];
      ZerosValue(k, p);
      assert (Zeros(k) + s)[..|Zeros(k) + s| - 1] == Zeros(k) + p;
    }
  }

  lemma PadLeftDigits(s: string, w: nat)
    requires AllUpperHex(s)
    ensures AllUpperHex(PadLeft(s, w))
  {
  }

  lemma PadLeftValue(s: string, w: nat)
    requires AllHex(s)
    ensures AllHex(PadLeft(s, w)) && ValueOf(PadLeft(s, w)) == ValueOf(s)
  {
    if |s| < w {
      ZerosValue(w - |s|, s);
    }
  }

  // ----- Round trips -----

  /** The padded digits of a magnitude are non-empty hex digits worth that magnitude. */
  lemma PaddedMagnitude(n: nat, w: nat)
    ensures var p := PadLeft(Magnitude(n), w);
      |p| >= 1 && AllHex(p) && ValueOf(p) == n
  {
    MagnitudeDigits(n);
    PadLeftValue(Magnitude(n), w);
  }

  /** `int(hex(v, digits), 16) == v` for every integer and every width. */
  lemma HexRoundTrip(v: int, digits: nat)
    ensures ParseHex(Hex(v, digits)) == Some(v)
  {
    if v >= 0 {
      PaddedMagnitude(v, digits);
    } else {
      var w := if digits > 0 then digits - 1 else 0;
      PaddedMagnitude(-v, w);
      var t := Hex(v, digits);
      assert t[1..] == PadLeft(Magnitude(-v), w);
    }
  }

  /** A base-16 number has one last digit and one prefix. */
  lemma LastDigitUnique(a: int, x: int, b: int, y: int)
    requires 0 <= x < 16 && 0 <= y < 16 && a * 16 + x == b * 16 + y
    ensures a == b && x == y
  {
    assert (a - b) * 16 == y - x;
  }

  /** Two upper-case digit strings of one length and one value are the same string. */
  lemma {:induction false} DigitsInjective(a: string, b: string)
    requires |a| == |b| && AllUpperHex(a) && AllUpperHex(b) && ValueOf(a) == ValueOf(b)
    ensures a == b
    decreases |a|
  {
    if a != [] {
      var pa, pb := a[..|a| - 1], b[..|b| - 1];
      var ca, cb := a[|a| - 1], b[|b| - 1];
      LastDigitUnique(ValueOf(pa), DigitValue(ca), ValueOf(pb), DigitValue(cb));
      DigitsInjective(pa, pb);
      DigitOfValue(ca);
      DigitOfValue(cb);
      assert a == pa + [ca] && b == pb + [cb];
    }
  }

  /** The other direction: a string of `k >= 1` upper-case digits is exactly what
      `hex` prints for its value at width `k`. */
  lemma WordRoundTrip(s: string)
    requires |s| >= 1 && AllUpperHex(s)
    ensures Hex(ValueOf(s), |s|) == s
  {
    var n := ValueOf(s);
    var h := Hex(n, |s|);
    ValueBound(s);
    MagnitudeLength(n, |s|);
    MagnitudeDigits(n);
    PadLeftDigits(Magnitude(n), |s|);
    PadLeftValue(Magnitude(n), |s|);
    assert |h| == |s| && AllUpperHex(h) && ValueOf(h) == n;
    DigitsInjective(h, s);
  }

  lemma ValueOfTwo(s: string)
    requires |s| == 2 && AllHex(s)
    ensures ValueOf(s) == DigitValue(s[0]) * 16 + DigitValue(s[1])
  {
    assert ValueOf(s) == ValueOf(s[..1]) * 16 + DigitValue(s[1]);
    assert s[..1][..0] == [];
    assert ValueOf(s[..1]) == ValueOf(s[..1][..0]) * 16 + DigitValue(s[0]);
  }

  /** Two base-16 steps make one base-256 step. */
  lemma ByteSplit(v: int, vr: int, vq: nat, hi: int, lo: int)
    requires 0 <= hi < 16 && 0 <= lo < 16
    requires v == vr * 16 + lo && vr == vq * 16 + hi
    ensures v % 256 == hi * 16 + lo
  {
    assert v == vq * 256 + (hi * 16 + lo);
  }

  /** The last two digits of a digit string carry its value modulo 256. */
  lemma LastTwoValue(s: string)
    requires |s| >= 2 && AllHex(s)
    ensures AllHex(LastTwo(s)) && ValueOf(LastTwo(s)) == ValueOf(s) % 256
  {
    var n := |s|;
    var q, r, k := s[..n - 2], s[..n - 1], s[n - 2..];
    assert r[..n - 2] == q;
    ValueOfTwo(k);
    ByteSplit(ValueOf(s), ValueOf(r), ValueOf(q), DigitValue(s[n - 2]), DigitValue(s[n - 1]));
  }

  /** The text of a value: at least `digits` characters, a leading `-` exactly for a
      negative value, upper-case hex digits everywhere else. */
  lemma HexShape(v: int, digits: nat)
    ensures |Hex(v, digits)| >= digits
    ensures (Hex(v, digits)[0] == '-') == (v < 0)
    ensures v >= 0 ==> AllUpperHex(Hex(v, digits))
    ensures AllUpperHex(Hex(v, digits)[1..])
  {
    if v >= 0 {
      MagnitudeDigits(v);
      PadLeftDigits(Magnitude(v), digits);
    } else {
      MagnitudeDigits(-v);
      PadLeftDigits(Magnitude(-v), if digits > 0 then digits - 1 else 0);
      assert Hex(v, digits)[1..] == PadLeft(Magnitude(-v), if digits > 0 then digits - 1 else 0);
    }
  }

  /** The low byte of a padded digit string, as text and as value. */
  lemma LowByteOfDigits(x: string)
    requires |x| >= 2 && AllUpperHex(x)
    ensures ParseHex(LastTwo(x)) == Some(ValueOf(x) % 256)
    ensures LastTwo(x) == Hex(ValueOf(x) % 256, 2)
  {
    var k := LastTwo(x);
    LastTwoValue(x);
    assert AllUpperHex(k);
    WordRoundTrip(k);
    assert |k| == 2 && IsUpperHexDigit(k[0]);
    assert ParseHex(k) == Some(ValueOf(k));
  }

  /** `hex(v, 4)[-2:]`, the key a register value names, is the two-digit text of the
      magnitude's low byte: `-005` names `05`, `-8000` names `00`. */
  lemma LowByteKey(v: int)
    ensures ParseHex(LastTwo(Hex(v, 4))) == Some((if v < 0 then -v else v) % 256)
    ensures LastTwo(Hex(v, 4)) == Hex((if v < 0 then -v else v) % 256, 2)
  {
    var m := if v < 0 then -v else v;
    var x := PadLeft(Magnitude(m), if v < 0 then 3 else 4);
    MagnitudeDigits(m);
    PadLeftValue(Magnitude(m), if v < 0 then 3 else 4);
    PadLeftDigits(Magnitude(m), if v < 0 then 3 else 4);
    assert LastTwo(Hex(v, 4)) == LastTwo(x);
    LowByteOfDigits(x);
  }

  /** `hex(n).zfill(4)`, which is what the machine stores for a byte-sized value, is
      `hex(n, 4)`: the two paths produce the same text. */
  lemma ZFillByte(n: int)
    requires 0 <= n < 256
    ensures ZFill(Hex(n, 2), 4) == Hex(n, 4)
    ensures ParseHex(ZFill(Hex(n, 2), 4)) == Some(n)
  {
    MagnitudeLength(n, 2);
    MagnitudeDigits(n);
    HexShape(n, 2);
    var t := Hex(n, 2);
    assert |t| == 2;
    var z := ZFill(t, 4);
    assert z == Zeros(2) + t;
    PadLeftValue(Magnitude(n), 2);
    ZerosValue(2, t);
    assert AllUpperHex(z);
    WordRoundTrip(z);
    HexRoundTrip(n, 4);
  }

  lemma ValueOfFour(t: string)
    requires |t| == 4 && AllHex(t)
    ensures ValueOf(t) == DigitValue(t[0]) * 4096 + DigitValue(t[1]) * 256 + DigitValue(t[2]) * 16 + DigitValue(t[3])
  {
    var t3, t2 := t[..3], t[..2];
    assert t3[..2] == t2;
    ValueOfTwo(t2);
    assert ValueOf(t) == ValueOf(t3) * 16 + DigitValue(t[3]);
    assert ValueOf(t3) == ValueOf(t2) * 16 + DigitValue(t[2]);
  }

  /** The digits of a base-16 number below 16^4. */
  lemma FourDigits(w: int, d0: int, d1: int, d2: int, d3: int)
    requires 0 <= d0 < 16 && 0 <= d1 < 16 && 0 <= d2 < 16 && 0 <= d3 < 16
    requires w == d0 * 4096 + d1 * 256 + d2 * 16 + d3
    ensures w / 4096 == d0 && w / 256 % 16 == d1 && w / 16 % 16 == d2 && w % 16 == d3
    ensures w % 256 == d2 * 16 + d3
  {
    assert w / 4096 == d0;
    assert w / 256 == d0 * 16 + d1;
    assert w / 16 == d0 * 256 + d1 * 16 + d2;
  }

  /** A word below 0x10000 prints as exactly four digits, most significant first. */
  lemma WordDigits(w: int)
    requires 0 <= w < 0x1_0000
    ensures Hex(w, 4) == [Digit(w / 4096), Digit(w / 256 % 16), Digit(w / 16 % 16), Digit(w % 16)]
  {
    var t := Hex(w, 4);
    assert Pow16(4) == 0x1_0000;
    MagnitudeLength(w, 4);
    MagnitudeDigits(w);
    PadLeftValue(Magnitude(w), 4);
    PadLeftDigits(Magnitude(w), 4);
    assert |t| == 4 && AllUpperHex(t) && ValueOf(t) == w;
    ValueOfFour(t);
    FourDigits(w, DigitValue(t[0]), DigitValue(t[1]), DigitValue(t[2]), DigitValue(t[3]));
    DigitOfValue(t[0]);
    DigitOfValue(t[1]);
    DigitOfValue(t[2]);
    DigitOfValue(t[3]);
  }
}
