/** The JavaScript string and number primitives the gradient setup leans on:
    String.prototype.trim, the decimal text of a counter, the hexadecimal form
    of Number("0x..."), and the ToInt32 coercion behind the bitwise operators
    `>>` and `&` (ECMAScript sections 7.1.4, 7.1.6, 13.9 and 22.1.3.32). */
module JsText {

  datatype Option<T> = None | Some(value: T)

  // ---------------------------------------------------------------------------
  // String.prototype.trim
  // ---------------------------------------------------------------------------

  /** The WhiteSpace and LineTerminator code points that trim removes. */
  predicate IsWhitespace(c: char) {
    c == '\t' || c == '\U{000B}' || c == '\U{000C}' || c == ' ' || c == '\U{00A0}' || c == '\U{FEFF}'
    || c == '\n' || c == '\r' || c == '\U{2028}' || c == '\U{2029}'
    || c == '\U{1680}' || ('\U{2000}' <= c <= '\U{200A}') || c == '\U{202F}' || c == '\U{205F}' || c == '\U{3000}'
  }

  predicate AllWhitespace(s: string) {
    forall i :: 0 <= i < |s| ==> IsWhitespace(s[i])
  }

  /** Drops the leading whitespace: what is left is a suffix that starts with a
      non-whitespace character, and everything dropped is whitespace. */
  function TrimStart(s: string): (r: string)
    ensures |r| <= |s| && r == s[|s| - |r|..]
    ensures AllWhitespace(s[..|s| - |r|])
    ensures r == [] || !IsWhitespace(r[0])
  {
    if s != [] && IsWhitespace(s[0]) then
      var r := TrimStart(s[1..]);
      assert s[1..][..|s| - 1 - |r|] == s[1..|s| - |r|];
      WhitespaceCons(s, |s| - |r|);
      r
    else s
  }

  /** Drops the trailing whitespace: what is left is a prefix that ends with a
      non-whitespace character, and everything dropped is whitespace. */
  function TrimEnd(s: string): (r: string)
    ensures |r| <= |s| && r == s[..|r|]
    ensures AllWhitespace(s[|r|..])
    ensures r == [] || !IsWhitespace(r[|r| - 1])
  {
    if s != [] && IsWhitespace(s[|s| - 1]) then
      var r := TrimEnd(s[..|s| - 1]);
      assert s[..|s| - 1][|r|..] == s[|r|..|s| - 1];
      WhitespaceSnoc(s, |r|);
      r
    else s
  }

  /** A white-space character followed by white space is white space. */
  lemma WhitespaceCons(s: string, k: nat)
    requires 1 <= k <= |s| && IsWhitespace(s[0]) && AllWhitespace(s[1..k])
    ensures AllWhitespace(s[..k])
  {
    forall i | 0 <= i < k ensures IsWhitespace(s[..k][i]) {
      if i > 0 {
        assert s[..k][i] == s[1..k][i - 1];
      }
    }
  }

  /** White space followed by a white-space character is white space. */
  lemma WhitespaceSnoc(s: string, k: nat)
    requires k < |s| && IsWhitespace(s[|s| - 1]) && AllWhitespace(s[k..|s| - 1])
    ensures AllWhitespace(s[k..])
  {
    forall i | 0 <= i < |s| - k ensures IsWhitespace(s[k..][i]) {
      if i < |s| - 1 - k {
        assert s[k..][i] == s[k..|s| - 1][i];
      }
    }
  }

  /** String.prototype.trim: empty exactly for an all-whitespace string,
      otherwise starting and ending with a non-whitespace character. */
  function Trim(s: string): (r: string)
    ensures r == [] <==> AllWhitespace(s)
    ensures r != [] ==> !IsWhitespace(r[0]) && !IsWhitespace(r[|r| - 1])
  {
    var front := TrimStart(s);
    var r := TrimEnd(front);
    TrimEndOfSuffix(s, front, r, |s| - |front|);
    r
  }

  /** What trim keeps is a slice of its input, starting at the k returned
      here, and what it drops on either side is whitespace. */
  lemma TrimIsSlice(s: string) returns (k: nat)
    ensures k + |Trim(s)| <= |s| && Trim(s) == s[k..k + |Trim(s)|]
    ensures AllWhitespace(s[..k]) && AllWhitespace(s[k + |Trim(s)|..])
  {
    var front := TrimStart(s);
    var r := TrimEnd(front);
    k := |s| - |front|;
    TrimEndOfSuffix(s, front, r, k);
    assert Trim(s) == r;
  }

  /** Trimming the end of the front-trimmed suffix leaves a slice of s that
      is followed by whitespace only, that is empty exactly when s is all
      whitespace, and whose ends are not whitespace. */
  lemma TrimEndOfSuffix(s: string, front: string, r: string, cut: nat)
    requires cut <= |s| && front == s[cut..] && AllWhitespace(s[..cut])
    requires front == [] || !IsWhitespace(front[0])
    requires |r| <= |front| && r == front[..|r|] && AllWhitespace(front[|r|..])
    requires r == [] || !IsWhitespace(r[|r| - 1])
    ensures r == [] <==> AllWhitespace(s)
    ensures r != [] ==> !IsWhitespace(r[0]) && !IsWhitespace(r[|r| - 1])
    ensures cut + |r| <= |s| && r == s[cut..cut + |r|] && AllWhitespace(s[cut + |r|..])
  {
    SliceOfSuffix(s, front, r, cut);
    if r == [] {
      WhitespaceJoin(s, cut);
    } else {
      assert s[cut + |r| - 1] == r[|r| - 1];
    }
  }

  /** A prefix r of the suffix s[k..] is the slice s[k..k+|r|], and what
      follows it in the suffix is what follows it in s. */
  lemma SliceOfSuffix(s: string, front: string, r: string, k: nat)
    requires k <= |s| && front == s[k..] && |r| <= |front| && r == front[..|r|]
    ensures r == s[k..k + |r|] && s[k + |r|..] == front[|r|..]
  {
  }

  /** Whitespace before and after position k is whitespace throughout. */
  lemma WhitespaceJoin(s: string, k: nat)
    requires k <= |s| && AllWhitespace(s[..k]) && AllWhitespace(s[k..])
    ensures AllWhitespace(s)
  {
    forall i | 0 <= i < |s| ensures IsWhitespace(s[i]) {
      if i >= k {
        assert s[i] == s[k..][i - k];
      } else {
        assert s[i] == s[..k][i];
      }
    }
  }

  /** A string whose ends are not whitespace is left alone by trim. */
  lemma TrimKeepsTrimmed(s: string)
    requires s != [] && !IsWhitespace(s[0]) && !IsWhitespace(s[|s| - 1])
    ensures Trim(s) == s
  {
    var k := TrimIsSlice(s);
  }

  // ---------------------------------------------------------------------------
  // Decimal text of a non-negative integer ("" + n)
  // ---------------------------------------------------------------------------

  predicate IsDecimalDigit(c: char) {
    '0' <= c <= '9'
  }

  function DigitChar(d: nat): (c: char)
    requires d < 10
    ensures IsDecimalDigit(c) && c as int - '0' as int == d
  {
    ('0' as int + d) as char
  }

  /** The shortest decimal numeral of n, as JavaScript converts a number to text. */
  function DecimalString(n: nat): (s: string)
    ensures s != [] && forall i :: 0 <= i < |s| ==> IsDecimalDigit(s[i])
    ensures s[0] == '0' ==> n == 0
  {
    if n < 10 then [DigitChar(n)] else DecimalString(n / 10) + [DigitChar(n % 10)]
  }

  /** Reads a string of decimal digits back as a number. */
  function DecimalValue(s: string): nat
    requires forall i :: 0 <= i < |s| ==> IsDecimalDigit(s[i])
  {
    if s == [] then 0
    else
      assert IsDecimalDigit(s[|s| - 1]);
      DecimalValue(s[..|s| - 1]) * 10 + (s[|s| - 1] as int - '0' as int)
  }

  lemma {:induction false} DecimalRoundTrip(n: nat)
    ensures DecimalValue(DecimalString(n)) == n
  {
    if n >= 10 {
      var p := DecimalString(n / 10);
      var s := p + [DigitChar(n % 10)];
      assert s[..|s| - 1] == p;
      DecimalRoundTrip(n / 10);
    }
  }

  /** Distinct numbers have distinct numerals. */
  lemma DecimalStringInjective(a: nat, b: nat)
    requires DecimalString(a) == DecimalString(b)
    ensures a == b
  {
    DecimalRoundTrip(a);
    DecimalRoundTrip(b);
  }

  // ---------------------------------------------------------------------------
  // Hexadecimal digit strings (the digits of a "0x..." numeric literal)
  // ---------------------------------------------------------------------------

  predicate IsHexDigit(c: char) {
    '0' <= c <= '9' || 'a' <= c <= 'f' || 'A' <= c <= 'F'
  }

  predicate AllHexDigits(s: string) {
    forall i :: 0 <= i < |s| ==> IsHexDigit(s[i])
  }

  function HexDigitValue(c: char): (d: nat)
    requires IsHexDigit(c)
    ensures d < 16
  {
    if '0' <= c <= '9' then c as int - '0' as int
    else if 'a' <= c <= 'f' then c as int - 'a' as int + 10
    else c as int - 'A' as int + 10
  }

  /** The lower-case digit for d, as a stylesheet author would write it. */
  function HexDigitChar(d: nat): (c: char)
    requires d < 16
    ensures IsHexDigit(c) && HexDigitValue(c) == d
  {
    if d < 10 then ('0' as int + d) as char else ('a' as int + d - 10) as char
  }

  function Pow16(n: nat): (p: nat)
    ensures p >= 1
  {
    if n == 0 then 1 else 16 * Pow16(n - 1)
  }

  /** The value of a big-endian string of hex digits. */
  function HexValue(s: string): (v: nat)
    requires AllHexDigits(s)
    ensures v < Pow16(|s|)
  {
    if s == [] then 0
    else
      var p := HexValue(s[..|s| - 1]);
      var d := HexDigitValue(s[|s| - 1]);
      assert p * 16 + d <= (Pow16(|s| - 1) - 1) * 16 + 15;
      p * 16 + d
  }

  lemma {:induction false} HexValueAppend(a: string, b: string)
    requires AllHexDigits(a) && AllHexDigits(b)
    ensures AllHexDigits(a + b)
    ensures HexValue(a + b) == HexValue(a) * Pow16(|b|) + HexValue(b)
  {
    if b == [] {
      assert a + b == a;
    } else {
      var b' := b[..|b| - 1];
      assert (a + b)[..|a + b| - 1] == a + b';
      HexValueAppend(a, b');
      var d := HexDigitValue(b[|b| - 1]);
      assert b[..|b| - 1] == b';
      assert HexValue(b) == HexValue(b') * 16 + d;
      assert HexValue(a + b) == HexValue(a + b') * 16 + d;
      assert Pow16(|b|) == 16 * Pow16(|b'|);
      ShiftDigit(HexValue(a), Pow16(|b'|), HexValue(b'), d);
    }
  }

  lemma ShiftDigit(x: int, p: int, y: int, d: int)
    ensures (x * p + y) * 16 + d == x * (16 * p) + (y * 16 + d)
  {
  }

  /** Number("0x" + s) for the digit part s: its value when s is a non-empty
      run of hex digits, nothing (NaN) otherwise. */
  function ParseHex(s: string): (r: Option<nat>)
    ensures r.Some? <==> s != [] && AllHexDigits(s)
    ensures r.Some? ==> r.value < Pow16(|s|)
  {
    if s != [] && AllHexDigits(s) then Some(HexValue(s)) else None
  }

  /** The width-digit lower-case hex numeral of v (leading zeros kept). */
  function HexString(v: nat, width: nat): (s: string)
    ensures |s| == width && AllHexDigits(s)
  {
    if width == 0 then [] else HexString(v / 16, width - 1) + [HexDigitChar(v % 16)]
  }

  lemma {:induction false} HexRoundTrip(v: nat, width: nat)
    requires v < Pow16(width)
    ensures HexValue(HexString(v, width)) == v
  {
    if width > 0 {
      var s := HexString(v, width);
      assert s[..|s| - 1] == HexString(v / 16, width - 1);
      assert v / 16 < Pow16(width - 1);
      HexRoundTrip(v / 16, width - 1);
    }
  }

  // ---------------------------------------------------------------------------
  // Numbers and the bitwise operators
  // ---------------------------------------------------------------------------

  /** A JavaScript number as it arises here: an integer, or NaN when a string
      does not parse. */
  datatype Number = Finite(value: int) | NaN

  const TwoTo31: int := 0x8000_0000
  const TwoTo32: int := 0x1_0000_0000

  predicate IsInt32(x: int) {
    -TwoTo31 <= x < TwoTo31
  }

  /** ToInt32: NaN becomes 0, an integer is taken modulo 2^32 into the signed range. */
  function ToInt32(n: Number): (r: int)
    ensures IsInt32(r)
    ensures n.NaN? ==> r == 0
    ensures n.Finite? ==> (n.value - r) % TwoTo32 == 0
  {
    match n
    case NaN => 0
    case Finite(v) =>
      var m := v % TwoTo32;
      if m >= TwoTo31 then m - TwoTo32 else m
  }

  function Pow2(k: nat): (p: nat)
    ensures p >= 1
  {
    if k == 0 then 1 else 2 * Pow2(k - 1)
  }

  /** `x >> k` on a 32-bit operand: the sign-propagating shift, which is
      division by 2^k rounded towards minus infinity. */
  function ShiftRight(x: int, k: nat): (r: int)
    requires IsInt32(x) && k < 32
    ensures r * Pow2(k) <= x < r * Pow2(k) + Pow2(k)
    ensures 0 <= x ==> 0 <= r <= x
  {
    QuotientBounds(x, Pow2(k));
    x / Pow2(k)
  }

  /** Euclidean division by a positive divisor rounds down, and does not
      enlarge a non-negative dividend. */
  lemma QuotientBounds(x: int, p: int)
    requires p >= 1
    ensures (x / p) * p <= x < (x / p) * p + p
    ensures 0 <= x ==> 0 <= x / p <= x
  {
    var q := x / p;
    assert x == q * p + x % p;
    if q >= 1 {
      MulAtLeast(p, q);
    }
  }

  /** `x & 255`: the low byte of the two's-complement form of x. */
  function And255(x: int): (r: int)
    ensures 0 <= r < 256 && (x - r) % 256 == 0
  {
    x % 256
  }

  lemma MulAtLeast(k: int, d: int)
    requires k >= 1 && d >= 1
    ensures k * d >= d
  {
    assert k * d == (k - 1) * d + d;
  }

  /** Euclidean division is determined by its quotient-remainder equation. */
  lemma DivModUnique(a: int, d: int, q: int, r: int)
    requires d > 0 && a == q * d + r && 0 <= r < d
    ensures a / d == q && a % d == r
  {
    var q0, r0 := a / d, a % d;
    assert a == q0 * d + r0;
    assert (q - q0) * d == r0 - r;
    if q > q0 {
      MulAtLeast(q - q0, d);
    } else if q < q0 {
      MulAtLeast(q0 - q, d);
    }
  }
}
