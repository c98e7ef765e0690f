// Printing of 64-bit integers (dscmd/util.cpp, litow).

module Litow {
  const MIN_INT64: int := -0x8000_0000_0000_0000
  const MAX_INT64: int := 0x7fff_ffff_ffff_ffff
  const BUFFER_SIZE := 256

  predicate IsInt64(n: int) {
    MIN_INT64 <= n <= MAX_INT64
  }

  /** Negation in 64 bits: the least value is its own negation. */
  function Negated(n: int): int
    requires IsInt64(n)
  {
    if n == MIN_INT64 then n else -n
  }

  predicate IsDigit(c: char) {
    '0' <= c <= '9'
  }

  predicate AllDigits(s: string) {
    forall i :: 0 <= i < |s| ==> IsDigit(s[i])
  }

  function DigitChar(d: int): char
    requires 0 <= d < 10
  {
    '0' + d as char
  }

  /** The value of a digit string, most significant digit first. */
  function Digits(s: string): int
    requires AllDigits(s)
  {
    if s == "" then 0 else 10 * Digits(s[..|s| - 1]) + (s[|s| - 1] as int - '0' as int)
  }

  /** What a printed integer stands for. */
  function Value(s: string): int
    requires IsDecimal(s)
  {
    if s[0] == '-' then -Digits(s[1..]) else Digits(s)
  }

  /** An integer in plain decimal notation: no superfluous zeros, and a minus sign only where it belongs. */
  predicate IsDecimal(s: string) {
    || s == "0"
    || (s != "" && AllDigits(s) && s[0] != '0')
    || (|s| > 1 && s[0] == '-' && AllDigits(s[1..]) && s[1] != '0')
  }

  function Reversed(s: string): (r: string)
    ensures |r| == |s|
    ensures forall i :: 0 <= i < |s| ==> r[i] == s[|s| - 1 - i]
  {
    seq(|s|, i requires 0 <= i < |s| => s[|s| - 1 - i])
  }

  function Power10(n: nat): (p: int)
    ensures 0 < p
  {
    if n == 0 then 1 else 10 * Power10(n - 1)
  }

  /** The value of a digit string, least significant digit first. */
  function LowFirst(s: string): int
    requires AllDigits(s)
  {
    if s == "" then 0 else (s[0] as int - '0' as int) + 10 * LowFirst(s[1..])
  }

  lemma {:induction false} LowFirstReversed(s: string)
    requires AllDigits(s)
    ensures AllDigits(Reversed(s)) && Digits(Reversed(s)) == LowFirst(s)
  {
    if s != "" {
      LowFirstReversed(s[1..]);
      assert Reversed(s)[..|s| - 1] == Reversed(s[1..]);
    }
  }

  lemma {:induction false} LowFirstPush(s: string, c: char)
    requires AllDigits(s) && IsDigit(c)
    ensures LowFirst(s + [c]) == LowFirst(s) + (c as int - '0' as int) * Power10(|s|)
  {
    if s == "" {
      assert ([c])[1..] == "";
    } else {
      LowFirstPush(s[1..], c);
      assert (s + [c])[1..] == s[1..] + [c];
      var d := c as int - '0' as int;
      assert 10 * (d * Power10(|s| - 1)) == d * Power10(|s|);
    }
  }

  lemma {:induction false} Power10Monotone(m: nat, n: nat)
    requires m <= n
    ensures Power10(m) <= Power10(n)
  {
    if m < n {
      Power10Monotone(m, n - 1);
    }
  }

  /** Splitting off a digit. */
  lemma SplitDigit(rest: int, p: int)
    ensures rest * p == (rest / 10) * (10 * p) + (rest % 10) * p
  {
    var q, d := rest / 10, rest % 10;
    assert rest == 10 * q + d;
    assert (10 * q + d) * p == q * (10 * p) + d * p;
  }

  lemma AtLeastOnce(rest: int, p: int)
    requires 1 <= rest && 0 <= p
    ensures p <= rest * p
  {
  }

  lemma NineteenDigits(n: int, k: nat)
    requires 0 < k && Power10(k - 1) <= n <= MAX_INT64
    ensures k <= 19
  {
    TenToThe19();
    if k > 19 {
      Power10Monotone(19, k - 1);
    }
  }

  lemma TenToThe19()
    ensures Power10(19) == 10_000_000_000_000_000_000
  {
    assert Power10(5) == 100_000;
    assert Power10(10) == 10_000_000_000;
    assert Power10(15) == 1_000_000_000_000_000;
  }

  /** The part of n that has been pushed, and the part that is left. */
  ghost predicate Pushed(n: int, s: string, rest: int) {
    && 0 <= rest && AllDigits(s) && n == LowFirst(s) + rest * Power10(|s|)
    && (s == "" ==> rest == n)
    && (s != "" ==> Power10(|s| - 1) <= n && (rest == 0 ==> s[|s| - 1] != '0'))
  }

  lemma PushStep(n: int, s: string, rest: int, longer: string)
    requires Pushed(n, s, rest) && 0 < rest && longer == s + [DigitChar(rest % 10)]
    ensures Pushed(n, longer, rest / 10)
  {
    LowFirstPush(s, DigitChar(rest % 10));
    SplitDigit(rest, Power10(|s|));
    LowFirstNotNegative(s);
    AtLeastOnce(rest, Power10(|s|));
    assert |longer| - 1 == |s|;
    assert longer[|s|] == DigitChar(rest % 10);
  }

  lemma PushDone(n: int, s: string)
    requires 0 < n <= MAX_INT64 && Pushed(n, s, 0)
    ensures s != "" && |s| <= 19 && AllDigits(s) && LowFirst(s) == n && s[|s| - 1] != '0'
  {
    NineteenDigits(n, |s|);
  }

  /** The digits of n, least significant first. */
  method PushDigits(n: int) returns (s: string)
    requires 0 < n <= MAX_INT64
    ensures s != "" && |s| <= 19
    ensures AllDigits(s) && LowFirst(s) == n && s[|s| - 1] != '0'
  {
    s := "";
    var rest := n;
    while rest > 0
      invariant Pushed(n, s, rest)
    {
      var c := DigitChar(rest % 10);
      PushStep(n, s, rest, s + [c]);
      s := s + [c];
      rest := rest / 10;
    }
    PushDone(n, s);
  }

  lemma {:induction false} LowFirstNotNegative(s: string)
    requires AllDigits(s)
    ensures 0 <= LowFirst(s)
  {
    if s != "" {
      LowFirstNotNegative(s[1..]);
    }
  }

  /** Reverses the first len characters of a buffer with two pointers that move towards each other. */
  method ReverseInPlace(buffer: array<char>, len: nat)
    requires 0 < len <= buffer.Length
    modifies buffer
    ensures buffer[..len] == Reversed(old(buffer[..len]))
  {
    var start, end := 0, len - 1;
    while start < end
      invariant 0 <= start <= end + 1 && start + end == len - 1
      invariant forall k :: 0 <= k < start ==>
        buffer[k] == old(buffer[len - 1 - k]) && buffer[len - 1 - k] == old(buffer[k])
      invariant forall k :: start <= k <= end ==> buffer[k] == old(buffer[k])
    {
      var c := buffer[start];
      buffer[start] := buffer[end];
      start := start + 1;
      buffer[end] := c;
      end := end - 1;
    }
    forall k | 0 <= k < len
      ensures buffer[k] == old(buffer[len - 1 - k])
    {
      if end < k {
        assert buffer[len - 1 - (len - 1 - k)] == old(buffer[len - 1 - k]);
      }
    }
  }

  /** The text of n before it is reversed: its digits from the least significant one, then its sign. */
  method PushNumber(n: int) returns (s: string)
    requires IsInt64(n)
    ensures 1 <= |s| <= 20
    ensures n != MIN_INT64 ==> IsDecimal(Reversed(s)) && Value(Reversed(s)) == n
    ensures n == MIN_INT64 ==> s == "-"
  {
    if n == 0 {
      s := "0";
      ZeroText();
    } else {
      var sign := "";
      var rest := n;
      if rest < 0 {
        sign := "-";
        rest := Negated(rest);
      }
      s := "";
      if rest > 0 {
        s := PushDigits(rest);
        SignedIsDecimal(s, sign, n);
      }
      s := s + sign;
    }
  }

  lemma ZeroText()
    ensures Reversed("0") == "0" && Value("0") == 0
  {
    assert Digits("0"[..0]) == 0;
  }

  lemma SignedIsDecimal(digits: string, sign: string, n: int)
    requires AllDigits(digits) && digits != "" && digits[|digits| - 1] != '0'
    requires LowFirst(digits) == (if n < 0 then -n else n) && sign == (if n < 0 then "-" else "")
    ensures IsDecimal(Reversed(digits + sign)) && Value(Reversed(digits + sign)) == n
  {
    LowFirstReversed(digits);
    var r := Reversed(digits);
    assert Reversed(digits + sign) == sign + r;
    assert r[0] == digits[|digits| - 1];
    assert ("-" + r)[1..] == r;
    assert "" + r == r;
  }

  /** Prints n in decimal; only the least 64-bit integer, whose negation overflows, comes out wrong. */
  method Litow(n: int) returns (result: string)
    requires IsInt64(n)
    ensures n != MIN_INT64 ==> IsDecimal(result) && Value(result) == n && |result| <= 20
    ensures n == MIN_INT64 ==> result == "-"
  {
    result := PushNumber(n);
    if |result| < BUFFER_SIZE {
      var temp := new char[BUFFER_SIZE];
      for i := 0 to |result|
        invariant temp[..i] == result[..i]
      {
        temp[i] := result[i];
      }
      assert temp[..|result|] == result;
      ReverseInPlace(temp, |result|);
      result := temp[..|result|];
    }
  }

  lemma {:induction false} LeadingDigit(s: string)
    requires AllDigits(s) && s != "" && s[0] != '0'
    ensures 0 < Digits(s)
  {
    if |s| == 1 {
      assert s[..0] == "";
    } else {
      LeadingDigit(s[..|s| - 1]);
    }
  }

  lemma {:induction false} SameDigits(s: string, t: string)
    requires AllDigits(s) && AllDigits(t) && (s != "" ==> s[0] != '0') && (t != "" ==> t[0] != '0')
    requires Digits(s) == Digits(t)
    ensures s == t
  {
    if s == "" || t == "" {
      if s != "" {
        LeadingDigit(s);
      }
      if t != "" {
        LeadingDigit(t);
      }
    } else {
      SameDigits(s[..|s| - 1], t[..|t| - 1]);
      assert s == s[..|s| - 1] + [s[|s| - 1]] && t == t[..|t| - 1] + [t[|t| - 1]];
    }
  }

  /** Decimal notation is unique, so that the printed text is determined by its value. */
  lemma DecimalIsUnique(s: string, t: string)
    requires IsDecimal(s) && IsDecimal(t) && Value(s) == Value(t)
    ensures s == t
  {
    PositivePart(s);
    PositivePart(t);
    if s[0] == '-' && t[0] == '-' {
      SameDigits(s[1..], t[1..]);
      assert s == "-" + s[1..] && t == "-" + t[1..];
    } else if s != "0" && t != "0" && s[0] != '-' && t[0] != '-' {
      SameDigits(s, t);
    }
  }

  lemma PositivePart(s: string)
    requires IsDecimal(s)
    ensures s == "0" ==> Value(s) == 0
    ensures s != "0" && s[0] != '-' ==> 0 < Value(s)
    ensures s[0] == '-' ==> Value(s) < 0
  {
    if s == "0" {
      assert Digits(s[..0]) == 0 && Digits(s) == 0;
    } else if s[0] == '-' {
      LeadingDigit(s[1..]);
    } else {
      LeadingDigit(s);
    }
  }
}
