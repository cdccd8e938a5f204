/**
 * The short-link codec: a UUID (32 hex digits, usually hyphenated 8-4-4-4-12) read as one
 * unsigned integer and written in base 62 over the alphabet 0-9A-Za-z, most significant
 * digit first, and back.
 */
module Base62 {
  import opened Wrappers
  import opened Text

  /** The digit alphabet; a character's digit value is its position. */
  const Charset: string := "0123456789" + "ABCDEFGHIJKLMNOPQRSTUVWXYZ" + "abcdefghijklmnopqrstuvwxyz"

  /** `CHARSET.length`. */
  const Base: nat := 62

  function Pow(b: nat, e: nat): nat {
    if e == 0 then 1 else b * Pow(b, e - 1)
  }

  lemma {:induction false} PowAdd(b: nat, i: nat, j: nat)
    ensures Pow(b, i + j) == Pow(b, i) * Pow(b, j)
  {
    if j > 0 {
      PowAdd(b, i, j - 1);
      assert Pow(b, i + j) == b * Pow(b, i + j - 1);
    }
  }

  lemma {:induction false} PowMonotone(b: nat, i: nat, j: nat)
    requires 1 <= b && i <= j
    ensures Pow(b, i) <= Pow(b, j)
  {
    if i < j {
      PowMonotone(b, i, j - 1);
    }
  }

  /** 32 hex digits hold exactly the values below 2^128, and 22 base-62 digits hold all of them. */
  lemma UuidRange()
    ensures Pow(16, 32) == 0x1_0000_0000_0000_0000_0000_0000_0000_0000
    ensures Pow(16, 32) <= Pow(62, 22)
  {
    assert Pow(16, 2) == 256;
    PowAdd(16, 2, 2); PowAdd(16, 4, 4); PowAdd(16, 8, 8); PowAdd(16, 16, 16);
    assert Pow(62, 2) == 3844;
    PowAdd(62, 2, 2); PowAdd(62, 4, 4); PowAdd(62, 8, 8); PowAdd(62, 16, 4); PowAdd(62, 20, 2);
  }

  // ---------------------------------------------------------------------------
  // The alphabet

  /** `CHARSET.indexOf(c)`: the digit value of `c`, or -1 when `c` is not in the alphabet. */
  function DigitIndex(c: char): (r: int)
    ensures -1 <= r < Base
  {
    if '0' <= c <= '9' then c as int - '0' as int
    else if 'A' <= c <= 'Z' then c as int - 'A' as int + 10
    else if 'a' <= c <= 'z' then c as int - 'a' as int + 36
    else -1
  }

  lemma CharsetAt(i: int)
    requires 0 <= i < Base
    ensures |Charset| == Base
    ensures Charset[i] == if i < 10 then ('0' as int + i) as char
                          else if i < 36 then ('A' as int + i - 10) as char
                          else ('a' as int + i - 36) as char
  {
  }

  /** A character with a digit value is the alphabet's symbol at that position. */
  lemma DigitSymbol(c: char)
    requires DigitIndex(c) >= 0
    ensures DigitIndex(c) < Base && Charset[DigitIndex(c)] == c
  {
    CharsetAt(DigitIndex(c));
  }

  /** A symbol of the alphabet has a digit value. */
  lemma InCharset(c: char)
    requires c in Charset
    ensures DigitIndex(c) >= 0
  {
    var i :| 0 <= i < |Charset| && Charset[i] == c;
    CharsetAt(i);
  }

  /** `DigitIndex` is `indexOf` on the alphabet: the position of `c` in it, -1 exactly when absent. */
  lemma DigitIndexIsPosition(c: char)
    ensures c in Charset <==> DigitIndex(c) >= 0
    ensures c in Charset ==> DigitIndex(c) < Base && Charset[DigitIndex(c)] == c
  {
    if DigitIndex(c) >= 0 {
      DigitSymbol(c);
      assert Charset[DigitIndex(c)] == c;
    } else if c in Charset {
      InCharset(c);
    }
  }

  /** Every symbol of the alphabet has a digit value below `Base`, and that value names it. */
  lemma CharsetDigit(d: nat)
    requires d < Base
    ensures |Charset| == Base && DigitIndex(Charset[d]) == d
  {
    CharsetAt(d);
  }

  /** Every character of `t` has a digit value, that is, lies in `Charset` (`TokenOverCharset`). */
  predicate IsToken(t: string) {
    forall i :: 0 <= i < |t| ==> DigitIndex(t[i]) >= 0
  }

  lemma TokenOverCharset(t: string)
    ensures IsToken(t) <==> forall i :: 0 <= i < |t| ==> t[i] in Charset
  {
    forall i | 0 <= i < |t| {
      DigitIndexIsPosition(t[i]);
    }
  }

  /** The tokens the encoder produces: over the alphabet and without a leading '0'. */
  predicate IsCanonicalToken(t: string) {
    IsToken(t) && (t == [] || t[0] != '0')
  }

  // ---------------------------------------------------------------------------
  // Base-62 numerals

  /** The Horner value of a token: the sum of index(t[i]) * 62^(|t|-1-i). */
  function Value62(t: string): nat
    requires IsToken(t)
  {
    if t == [] then 0
    else
      var c := t[|t| - 1];
      DigitSymbol(c);
      Value62(t[..|t| - 1]) * Base + DigitIndex(c)
  }

  /** One Horner step: a prefix one character longer. */
  lemma ValueStep(t: string, i: nat)
    requires IsToken(t) && i < |t|
    ensures IsToken(t[..i]) && IsToken(t[..i + 1])
    ensures DigitIndex(t[i]) >= 0 && Value62(t[..i + 1]) == Value62(t[..i]) * Base + DigitIndex(t[i])
  {
    DigitSymbol(t[i]);
    assert t[..i + 1][..i] == t[..i];
  }

  /** The shortest base-62 numeral of `n`, most significant digit first; empty for zero. */
  function Digits62(n: nat): (r: string)
    ensures r == [] <==> n == 0
  {
    if n == 0 then [] else Digits62(n / Base) + [Charset[n % Base]]
  }

  /** The numeral is canonical and denotes `n`. */
  lemma {:induction false} DigitsValue(n: nat)
    ensures IsCanonicalToken(Digits62(n))
    ensures Value62(Digits62(n)) == n
  {
    if n > 0 {
      var p, r := Digits62(n / Base), Digits62(n);
      DigitsValue(n / Base);
      CharsetDigit(n % Base);
      assert r == p + [Charset[n % Base]];
      assert r[..|r| - 1] == p;
    }
  }

  lemma {:induction false} CanonicalTokenPositive(t: string)
    requires IsCanonicalToken(t) && t != []
    ensures Value62(t) > 0
  {
    var c := t[|t| - 1];
    DigitSymbol(c);
    if |t| > 1 {
      CanonicalTokenPositive(t[..|t| - 1]);
    } else {
      assert c == t[0] && c != '0';
      assert DigitIndex(c) != 0;
    }
  }

  /** A canonical token is the shortest numeral of its own value. */
  lemma {:induction false} DigitsOfValue(t: string)
    requires IsCanonicalToken(t)
    ensures Digits62(Value62(t)) == t
  {
    if t != [] {
      var p, c := t[..|t| - 1], t[|t| - 1];
      DigitSymbol(c);
      CanonicalTokenPositive(t);
      var q, d := Value62(p), DigitIndex(c);
      assert Value62(t) == q * Base + d;
      DivStep(q, d);
      DigitsOfValue(p);
      assert Digits62(Value62(t)) == Digits62(q) + [Charset[d]];
      SplitLast(t);
    }
  }

  /** Dividing `q * 62 + d` by 62 gives back `q` and the digit `d`. */
  lemma DivStep(q: nat, d: int)
    requires 0 <= d < Base
    ensures (q * Base + d) / Base == q && (q * Base + d) % Base == d
  {
  }

  /** Numerals of at most `k` digits are exactly the values below 62^k. */
  lemma {:induction false} DigitsLength(n: nat, k: nat)
    requires n < Pow(Base, k)
    ensures |Digits62(n)| <= k
  {
    if n > 0 {
      DigitsLength(n / Base, k - 1);
    }
  }

  // ---------------------------------------------------------------------------
  // Hexadecimal

  predicate IsHexDigit(c: char) {
    '0' <= c <= '9' || 'a' <= c <= 'f' || 'A' <= c <= 'F'
  }

  predicate IsLowerHexDigit(c: char) {
    '0' <= c <= '9' || 'a' <= c <= 'f'
  }

  predicate IsHex(s: string) {
    forall i :: 0 <= i < |s| ==> IsHexDigit(s[i])
  }

  predicate IsLowerHex(s: string) {
    forall i :: 0 <= i < |s| ==> IsLowerHexDigit(s[i])
  }

  /** What `BigInt("0x" + s)` accepts: at least one hex digit, of either case. */
  predicate IsHexNumeral(s: string) {
    |s| > 0 && IsHex(s)
  }

  function HexDigitValue(c: char): (d: nat)
    requires IsHexDigit(c)
    ensures d < 16
  {
    if '0' <= c <= '9' then c as int - '0' as int
    else if 'a' <= c <= 'f' then c as int - 'a' as int + 10
    else c as int - 'A' as int + 10
  }

  /** The lower-case digit `toString(16)` writes for `d`. */
  function HexChar(d: nat): (c: char)
    requires d < 16
    ensures IsLowerHexDigit(c) && HexDigitValue(c) == d
  {
    if d < 10 then ('0' as int + d) as char else ('a' as int + d - 10) as char
  }

  /** The value of a hex numeral, big-endian. */
  function HexValue(s: string): nat
    requires IsHex(s)
  {
    if s == [] then 0 else HexValue(s[..|s| - 1]) * 16 + HexDigitValue(s[|s| - 1])
  }

  /** A numeral of `k` hex digits is below 16^k. */
  lemma {:induction false} HexValueBound(s: string)
    requires IsHex(s)
    ensures HexValue(s) < Pow(16, |s|)
  {
    if s != [] {
      HexValueBound(s[..|s| - 1]);
    }
  }

  /** `n.toString(16)`: the shortest lower-case hex numeral, "0" for zero. */
  function ToHex(n: nat): (r: string)
    ensures 1 <= |r| && IsLowerHex(r)
    ensures n > 0 ==> r[0] != '0'
  {
    if n < 16 then [HexChar(n)] else ToHex(n / 16) + [HexChar(n % 16)]
  }

  /** The `k` low-order hex digits of `n`, zero-filled. */
  function HexFixed(n: nat, k: nat): (r: string)
    ensures |r| == k && IsLowerHex(r)
  {
    if k == 0 then [] else HexFixed(n / 16, k - 1) + [HexChar(n % 16)]
  }

  /** The fixed-width numeral denotes `n` when `n` fits in `k` digits. */
  lemma {:induction false} HexFixedValue(n: nat, k: nat)
    requires n < Pow(16, k)
    ensures HexValue(HexFixed(n, k)) == n
  {
    if k > 0 {
      var p, r := HexFixed(n / 16, k - 1), HexFixed(n, k);
      assert Pow(16, k) == 16 * Pow(16, k - 1);
      HexFixedValue(n / 16, k - 1);
      assert r[..|r| - 1] == p;
    }
  }

  lemma {:induction false} HexFixedOfValue(h: string)
    requires IsLowerHex(h)
    ensures HexFixed(HexValue(h), |h|) == h
  {
    if h != [] {
      var p, c := h[..|h| - 1], h[|h| - 1];
      HexFixedOfValue(p);
      var n := HexValue(h);
      assert n / 16 == HexValue(p) && n % 16 == HexDigitValue(c);
      assert HexChar(HexDigitValue(c)) == c;
      assert h == p + [c];
    }
  }

  lemma {:induction false} HexFixedZero(k: nat)
    ensures HexFixed(0, k) == seq(k, _ => '0')
  {
    if k > 0 {
      HexFixedZero(k - 1);
    }
  }

  /** `n.toString(16).padStart(k, '0')` is the fixed-width numeral when `n` fits in `k` digits. */
  lemma {:induction false} PaddedHex(n: nat, k: nat)
    requires 1 <= k && n < Pow(16, k)
    ensures PadStart(ToHex(n), k, '0') == HexFixed(n, k)
  {
    var c := HexChar(n % 16);
    assert HexFixed(n, k) == HexFixed(n / 16, k - 1) + [c];
    if n < 16 {
      HexFixedZero(k - 1);
      assert n / 16 == 0 && ToHex(n) == [] + [c];
      PadStartAppend([], c, k, '0');
    } else {
      assert Pow(16, k) == 16 * Pow(16, k - 1);
      assert k >= 2 && n / 16 < Pow(16, k - 1);
      PaddedHex(n / 16, k - 1);
      PadStartAppend(ToHex(n / 16), c, k, '0');
    }
  }

  /** Beyond 128 bits the numeral is longer than 32 digits and `padStart` leaves it whole. */
  lemma {:induction false} LongHex(n: nat, k: nat)
    requires Pow(16, k) <= n
    ensures |ToHex(n)| > k
  {
    if k > 0 {
      LongHex(n / 16, k - 1);
    }
  }

  // ---------------------------------------------------------------------------
  // UUID text

  /** `s.replace(/-/g, '')`. */
  function StripHyphens(s: string): (r: string)
    ensures |r| <= |s|
  {
    if s == [] then [] else (if s[0] == '-' then [] else [s[0]]) + StripHyphens(s[1..])
  }

  lemma {:induction false} StripHyphensAppend(a: string, b: string)
    ensures StripHyphens(a + b) == StripHyphens(a) + StripHyphens(b)
  {
    if a == [] {
      assert a + b == b;
    } else {
      var head := if a[0] == '-' then [] else [a[0]];
      assert (a + b)[0] == a[0] && (a + b)[1..] == a[1..] + b;
      StripHyphensAppend(a[1..], b);
      calc {
        StripHyphens(a + b);
        head + StripHyphens(a[1..] + b);
        head + (StripHyphens(a[1..]) + StripHyphens(b));
        (head + StripHyphens(a[1..])) + StripHyphens(b);
        StripHyphens(a) + StripHyphens(b);
      }
    }
  }

  lemma {:induction false} StripHyphensHasNone(s: string)
    ensures '-' !in StripHyphens(s)
  {
    if s != [] {
      StripHyphensHasNone(s[1..]);
    }
  }

  lemma {:induction false} StripHyphensNone(s: string)
    requires '-' !in s
    ensures StripHyphens(s) == s
  {
    if s != [] {
      StripHyphensNone(s[1..]);
    }
  }

  predicate IsHyphenPosition(i: int) {
    i == 8 || i == 13 || i == 18 || i == 23
  }

  /** The form the decoder writes: 36 characters, 8-4-4-4-12 lower-case hex groups. */
  predicate IsCanonicalUuid(u: string) {
    |u| == 36 &&
    forall i :: 0 <= i < 36 ==> if IsHyphenPosition(i) then u[i] == '-' else IsLowerHexDigit(u[i])
  }

  /** The template literal that re-inserts hyphens after the 8th, 12th, 16th and 20th digit. */
  function Hyphenate(h: string): (r: string)
    requires |h| >= 32
    ensures |r| == |h| + 4
  {
    h[..8] + "-" + h[8..12] + "-" + h[12..16] + "-" + h[16..20] + "-" + h[20..]
  }

  /** Stripping hyphens from "group-rest" keeps the hyphen-free group and strips the rest. */
  lemma StripGroup(g: string, rest: string)
    requires '-' !in g
    ensures StripHyphens(g + "-" + rest) == g + StripHyphens(rest)
  {
    assert g + "-" + rest == g + ("-" + rest);
    StripHyphensAppend(g, "-" + rest);
    assert StripHyphens("-" + rest) == StripHyphens(rest) by {
      assert ("-" + rest)[0] == '-' && ("-" + rest)[1..] == rest;
    }
    StripHyphensNone(g);
  }

  lemma HyphenateLowerHex(h: string)
    requires |h| == 32 && IsLowerHex(h)
    ensures IsCanonicalUuid(Hyphenate(h))
    ensures StripHyphens(Hyphenate(h)) == h
  {
    var u := Hyphenate(h);
    forall i | 0 <= i < 36
      ensures if IsHyphenPosition(i) then u[i] == '-' else IsLowerHexDigit(u[i])
    {
      if i < 8 { assert u[i] == h[i]; }
      else if 8 < i < 13 { assert u[i] == h[i - 1]; }
      else if 13 < i < 18 { assert u[i] == h[i - 2]; }
      else if 18 < i < 23 { assert u[i] == h[i - 3]; }
      else if 23 < i { assert u[i] == h[i - 4]; }
    }
    var g1, g2, g3, g4, g5 := h[..8], h[8..12], h[12..16], h[16..20], h[20..];
    assert '-' !in h by {
      forall k | 0 <= k < 32 ensures h[k] != '-' { assert IsLowerHexDigit(h[k]); }
    }
    assert u == g1 + "-" + (g2 + "-" + (g3 + "-" + (g4 + "-" + g5)));
    StripGroup(g1, g2 + "-" + (g3 + "-" + (g4 + "-" + g5)));
    StripGroup(g2, g3 + "-" + (g4 + "-" + g5));
    StripGroup(g3, g4 + "-" + g5);
    StripGroup(g4, g5);
    StripHyphensNone(g5);
    assert h == g1 + (g2 + (g3 + (g4 + g5)));
  }

  lemma CanonicalUuidDigits(u: string)
    requires IsCanonicalUuid(u)
    ensures |StripHyphens(u)| == 32 && IsLowerHex(StripHyphens(u))
    ensures Hyphenate(StripHyphens(u)) == u
  {
    var h := u[..8] + u[9..13] + u[14..18] + u[19..23] + u[24..];
    forall k | 0 <= k < 32 ensures IsLowerHexDigit(h[k]) {
      if k < 8 { assert h[k] == u[k]; }
      else if k < 12 { assert h[k] == u[k + 1]; }
      else if k < 16 { assert h[k] == u[k + 2]; }
      else if k < 20 { assert h[k] == u[k + 3]; }
      else { assert h[k] == u[k + 4]; }
    }
    HyphenateLowerHex(h);
    assert Hyphenate(h) == u by {
      var v := Hyphenate(h);
      forall i | 0 <= i < 36 ensures v[i] == u[i] {
        if i < 8 { assert v[i] == h[i]; }
        else if 8 < i < 13 { assert v[i] == h[i - 1]; }
        else if 13 < i < 18 { assert v[i] == h[i - 2]; }
        else if 18 < i < 23 { assert v[i] == h[i - 3]; }
        else if 23 < i { assert v[i] == h[i - 4]; }
      }
    }
  }

  // ---------------------------------------------------------------------------
  // The codec

  /**
   * What `uuidToBase62` returns: the base-62 numeral of the hyphen-free hex digits, or None
   * where `BigInt` would throw (no hex digits at all, or a character that is not one).
   */
  function Encode(uuid: string): (r: Option<string>)
    ensures r.Some? <==> IsHexNumeral(StripHyphens(uuid))
    ensures r.Some? ==> IsCanonicalToken(r.value) && Value62(r.value) == HexValue(StripHyphens(uuid))
  {
    var hex := StripHyphens(uuid);
    if IsHexNumeral(hex) then
      DigitsValue(HexValue(hex));
      Some(Digits62(HexValue(hex)))
    else None
  }

  /** What `base62ToUuid` returns for a token of value `n`. */
  function UuidText(n: nat): string {
    Hyphenate(PadStart(ToHex(n), 32, '0'))
  }

  method UuidToBase62(uuid: string) returns (r: Option<string>)
    ensures r == Encode(uuid)
    ensures r.None? <==> !IsHexNumeral(StripHyphens(uuid))
    ensures r.Some? <==> IsHexNumeral(StripHyphens(uuid))
    ensures r.Some? ==> IsCanonicalToken(r.value) && Value62(r.value) == HexValue(StripHyphens(uuid))
  {
    var hex := StripHyphens(uuid);
    if !IsHexNumeral(hex) {
      // BigInt(`0x${hex}`) throws a SyntaxError
      return None;
    }
    var decimal: nat := HexValue(hex);
    ghost var n := decimal;
    var result := "";
    while decimal > 0
      invariant Digits62(decimal) + result == Digits62(n)
      decreases decimal
    {
      result := [Charset[decimal % Base]] + result;
      decimal := decimal / Base;
    }
    assert Digits62(decimal) == [] && result == Digits62(n);
    DigitsValue(n);
    return Some(result);
  }

  method Base62ToUuid(token: string) returns (uuid: string)
    requires IsToken(token)
    ensures uuid == UuidText(Value62(token))
    ensures Value62(token) < Pow(16, 32) ==>
              IsCanonicalUuid(uuid) && IsHex(StripHyphens(uuid)) &&
              HexValue(StripHyphens(uuid)) == Value62(token)
  {
    var decimal := 0;
    for i := 0 to |token|
      invariant decimal == Value62(token[..i])
    {
      ValueStep(token, i);
      decimal := decimal * Base + DigitIndex(token[i]);
    }
    assert token[..|token|] == token;
    var hex := PadStart(ToHex(decimal), 32, '0');
    uuid := hex[..8] + "-" + hex[8..12] + "-" + hex[12..16] + "-" + hex[16..20] + "-" + hex[20..];
    if decimal < Pow(16, 32) {
      UuidTextFormat(decimal);
    }
  }

  // ---------------------------------------------------------------------------
  // Properties

  /** Below 2^128 the decoder's output is a canonical UUID carrying exactly the value. */
  lemma UuidTextFormat(n: nat)
    requires n < Pow(16, 32)
    ensures IsCanonicalUuid(UuidText(n))
    ensures StripHyphens(UuidText(n)) == HexFixed(n, 32)
    ensures HexValue(StripHyphens(UuidText(n))) == n
  {
    PaddedHex(n, 32);
    HexFixedValue(n, 32);
    HyphenateLowerHex(HexFixed(n, 32));
  }

  /** At or above 2^128 `padStart` does not truncate: the output is longer than a UUID. */
  lemma UuidTextOverlong(n: nat)
    requires Pow(16, 32) <= n
    ensures |UuidText(n)| > 36
  {
    LongHex(n, 32);
  }

  /** Hyphens carry no information: a UUID and its bare digits encode alike. */
  lemma EncodeIgnoresHyphens(uuid: string)
    ensures Encode(uuid) == Encode(StripHyphens(uuid))
  {
    StripHyphensHasNone(uuid);
    StripHyphensNone(StripHyphens(uuid));
  }

  lemma {:induction false} ZeroHexValue(h: string)
    requires forall i :: 0 <= i < |h| ==> h[i] == '0'
    ensures IsHex(h) && HexValue(h) == 0
  {
    if h != [] {
      ZeroHexValue(h[..|h| - 1]);
    }
  }

  /** The nil UUID (all digits zero) encodes to the empty token. */
  lemma EncodeNilUuid(uuid: string)
    requires |StripHyphens(uuid)| > 0
    requires forall i :: 0 <= i < |StripHyphens(uuid)| ==> StripHyphens(uuid)[i] == '0'
    ensures Encode(uuid) == Some("")
  {
    ZeroHexValue(StripHyphens(uuid));
  }

  /** The empty token decodes to the nil UUID. */
  lemma DecodeEmptyToken()
    ensures UuidText(Value62("")) == "00000000-0000-0000-0000-000000000000"
  {
    var h := PadStart(ToHex(0), 32, '0');
    assert h == seq(32, _ => '0');
    assert h[..8] == "00000000";
    assert h[8..12] == h[12..16] == h[16..20] == "0000";
    assert h[20..] == "000000000000";
  }

  /** A UUID of at most 32 hex digits (hyphens aside) encodes to at most 22 characters. */
  lemma EncodedLength(uuid: string)
    requires Encode(uuid).Some? && |StripHyphens(uuid)| <= 32
    ensures |Encode(uuid).value| <= 22
  {
    var hex := StripHyphens(uuid);
    UuidRange();
    PowMonotone(16, |hex|, 32);
    HexValueBound(hex);
    DigitsLength(HexValue(hex), 22);
  }

  /** Round trip from the UUID side: decoding the encoding of a canonical UUID restores it. */
  lemma DecodeEncode(u: string)
    requires IsCanonicalUuid(u)
    ensures Encode(u).Some? && IsToken(Encode(u).value)
    ensures UuidText(Value62(Encode(u).value)) == u
  {
    CanonicalUuidDigits(u);
    var h := StripHyphens(u);
    var n := HexValue(h);
    DigitsValue(n);
    HexValueBound(h);
    PaddedHex(n, 32);
    HexFixedOfValue(h);
  }

  /** Round trip from the token side: every canonical token below 2^128 survives decode-encode. */
  lemma EncodeDecode(t: string)
    requires IsCanonicalToken(t) && Value62(t) < Pow(16, 32)
    ensures Encode(UuidText(Value62(t))) == Some(t)
  {
    UuidTextFormat(Value62(t));
    DigitsOfValue(t);
  }
}
