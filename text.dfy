/** The string operations the pages rely on: stripping non-digits and reading
    decimal numbers (`replace(/[^\d]/g, '')` and `parseInt`), `toLowerCase`,
    `trim` and `includes`. Case folding and white space are the ASCII ones. */
module Text {

  predicate IsDigit(c: char) {
    '0' <= c <= '9'
  }

  predicate AllDigits(s: string) {
    forall i :: 0 <= i < |s| ==> IsDigit(s[i])
  }

  function DigitValue(c: char): (d: nat)
    requires IsDigit(c)
    ensures d < 10
  {
    c as int - '0' as int
  }

  function DigitChar(d: nat): (c: char)
    requires d < 10
    ensures IsDigit(c) && DigitValue(c) == d
  {
    ('0' as int + d) as char
  }

  /** `s.replace(/[^\d]/g, '')`: the digits of `s`, in order. */
  function Digits(s: string): (r: string)
    ensures AllDigits(r) && |r| <= |s|
  {
    if s == [] then []
    else (if IsDigit(s[0]) then [s[0]] else []) + Digits(s[1..])
  }

  /** The base-10 value of a digit string; the empty string reads as 0,
      as `parseInt('') || 0` does. */
  function DecimalValue(ds: string): nat
    requires AllDigits(ds)
  {
    if ds == [] then 0
    else DecimalValue(ds[..|ds| - 1]) * 10 + DigitValue(ds[|ds| - 1])
  }

  function Pow10(n: nat): (r: nat)
    ensures r >= 1
  {
    if n == 0 then 1 else 10 * Pow10(n - 1)
  }

  /** The decimal rendering of `n`, without leading zeros. */
  function Decimal(n: nat): (s: string)
    ensures |s| >= 1 && AllDigits(s)
  {
    if n < 10 then [DigitChar(n)] else Decimal(n / 10) + [DigitChar(n % 10)]
  }

  /** The two-digit, zero-padded rendering of `n` ("05"). */
  function TwoDigits(n: nat): (s: string)
    requires n < 100
    ensures |s| == 2 && AllDigits(s)
  {
    [DigitChar(n / 10), DigitChar(n % 10)]
  }

  /** ASCII `toLowerCase` of one character. */
  function LowerChar(c: char): char
  {
    if 'A' <= c <= 'Z' then (c as int + 32) as char else c
  }

  function Lower(s: string): (r: string)
    ensures |r| == |s| && forall i :: 0 <= i < |s| ==> r[i] == LowerChar(s[i])
  {
    seq(|s|, i requires 0 <= i < |s| => LowerChar(s[i]))
  }

  /** The white space `trim` removes (ASCII part). */
  predicate IsSpace(c: char) {
    c == ' ' || c == '\t' || c == '\n' || c == '\r' || c == 11 as char || c == 12 as char
  }

  /** `trimStart`: drops the leading white space and nothing else. */
  function TrimStart(s: string): (r: string)
    ensures |r| <= |s| && r == s[|s| - |r|..]
    ensures forall k :: 0 <= k < |s| - |r| ==> IsSpace(s[k])
    ensures r == [] || !IsSpace(r[0])
  {
    if s != [] && IsSpace(s[0]) then TrimStart(s[1..]) else s
  }

  /** `trimEnd`: drops the trailing white space and nothing else. */
  function TrimEnd(s: string): (r: string)
    ensures |r| <= |s| && r == s[..|r|]
    ensures forall k :: |r| <= k < |s| ==> IsSpace(s[k])
    ensures r == [] || !IsSpace(r[|r| - 1])
  {
    if s != [] && IsSpace(s[|s| - 1]) then TrimEnd(s[..|s| - 1]) else s
  }

  function Trim(s: string): string
  {
    TrimEnd(TrimStart(s))
  }

  /** `h.startsWith(n)`. */
  predicate StartsWith(h: string, n: string) {
    |n| <= |h| && h[..|n|] == n
  }

  /** `h.includes(n)`, by scanning the start positions left to right. */
  predicate Contains(h: string, n: string)
    decreases |h|
  {
    if StartsWith(h, n) then true
    else if h == [] then false
    else Contains(h[1..], n)
  }

  /** `n` occurs in `h` starting at position `i`. */
  predicate OccursAt(h: string, n: string, i: int) {
    0 <= i <= |h| - |n| && h[i..i + |n|] == n
  }

  /** `includes` holds exactly when `n` occurs at some position of `h`. */
  lemma {:induction false} ContainsIff(h: string, n: string)
    ensures Contains(h, n) <==> exists i :: OccursAt(h, n, i)
    decreases |h|
  {
    if StartsWith(h, n) {
      assert OccursAt(h, n, 0);
    } else if h != [] {
      ContainsIff(h[1..], n);
      if exists i :: OccursAt(h, n, i) {
        var i :| OccursAt(h, n, i);
        assert i != 0;
        assert OccursAt(h[1..], n, i - 1);
      }
      if Contains(h[1..], n) {
        var i :| OccursAt(h[1..], n, i);
        assert OccursAt(h, n, i + 1);
      }
    }
  }

  lemma {:induction false} DigitsAppend(a: string, b: string)
    ensures Digits(a + b) == Digits(a) + Digits(b)
    decreases |a|
  {
    if a != [] {
      assert (a + b)[1..] == a[1..] + b;
      DigitsAppend(a[1..], b);
    } else {
      assert a + b == b;
    }
  }

  /** A string without digits strips to nothing. */
  lemma {:induction false} DigitsOfNonDigits(s: string)
    requires forall i :: 0 <= i < |s| ==> !IsDigit(s[i])
    ensures Digits(s) == []
    decreases |s|
  {
    if s != [] {
      DigitsOfNonDigits(s[1..]);
    }
  }

  /** Stripping non-digits from a digit string changes nothing. */
  lemma {:induction false} DigitsOfDigits(s: string)
    ensures AllDigits(s) ==> Digits(s) == s
    decreases |s|
  {
    if AllDigits(s) && s != [] {
      DigitsOfDigits(s[1..]);
      assert s == [s[0]] + s[1..];
    }
  }

  /** Reading the digit string `a + b` shifts `a`'s value left by `|b|` places. */
  lemma {:induction false} DecimalValueAppend(a: string, b: string)
    requires AllDigits(a) && AllDigits(b)
    ensures DecimalValue(a + b) == DecimalValue(a) * Pow10(|b|) + DecimalValue(b)
    decreases |b|
  {
    if b == [] {
      assert a + b == a;
    } else {
      var b' := b[..|b| - 1];
      var d := DigitValue(b[|b| - 1]);
      assert (a + b)[..|a + b| - 1] == a + b';
      assert (a + b)[|a + b| - 1] == b[|b| - 1];
      DecimalValueAppend(a, b');
      var x, y, p := DecimalValue(a), DecimalValue(b'), Pow10(|b'|);
      assert DecimalValue(a + b) == (x * p + y) * 10 + d;
      assert DecimalValue(b) == y * 10 + d;
      assert Pow10(|b|) == p * 10;
      ShiftDistributes(x, p, y, d);
    }
  }

  lemma ShiftDistributes(x: int, p: int, y: int, d: int)
    ensures (x * p + y) * 10 + d == x * (p * 10) + (y * 10 + d)
  {
  }

  /** Reading back the decimal rendering of `n` gives `n`. */
  lemma {:induction false} DecimalRoundTrip(n: nat)
    ensures DecimalValue(Decimal(n)) == n
  {
    if n >= 10 {
      DecimalRoundTrip(n / 10);
      var s := Decimal(n / 10) + [DigitChar(n % 10)];
      assert s[..|s| - 1] == Decimal(n / 10);
    }
  }

  lemma TwoDigitsRoundTrip(n: nat)
    requires n < 100
    ensures DecimalValue(TwoDigits(n)) == n
  {
    var s := TwoDigits(n);
    assert s[..1][..0] == [];
    assert s[..1] == [DigitChar(n / 10)];
    assert DecimalValue(s[..1]) == n / 10;
    assert DecimalValue(s) == (n / 10) * 10 + n % 10;
  }

  /** A string trims to the empty string exactly when it is all white space. */
  lemma TrimEmptyIff(s: string)
    ensures Trim(s) == [] <==> forall k :: 0 <= k < |s| ==> IsSpace(s[k])
  {
  }

  /** ASCII lower-casing leaves spaces alone. */
  lemma LowerKeepsSpaces(s: string)
    ensures forall k :: 0 <= k < |s| ==> (IsSpace(Lower(s)[k]) <==> IsSpace(s[k]))
  {
  }
}
