/** The few pieces of java.lang that the country service relies on:
    String.trim, String.replace("null", "nulo"), decimal formatting of
    integers (String.format("%d") and string concatenation), and the
    truncating 32-bit integer division of `offset / limit`. */
module JavaLang {

  /** Java's 32-bit `int`. */
  type Int32 = x: int | -0x8000_0000 <= x < 0x8000_0000

  const INT32_MIN: int := -0x8000_0000
  const INT32_MAX: int := 0x7fff_ffff

  // ---------------------------------------------------------------------
  // String.trim

  /** String.trim removes every leading and trailing character whose code
      is at most U+0020 (space and all control characters). */
  predicate IsTrimmable(c: char) {
    c <= ' '
  }

  /** The index of the first character at or after `i` that is not
      trimmable, or `|s|` when there is none. */
  function SkipLeading(s: string, i: nat): (k: nat)
    requires i <= |s|
    ensures i <= k <= |s|
    ensures forall j :: i <= j < k ==> IsTrimmable(s[j])
    ensures k < |s| ==> !IsTrimmable(s[k])
    decreases |s| - i
  {
    if i < |s| && IsTrimmable(s[i]) then SkipLeading(s, i + 1) else i
  }

  /** Moves the end `j` down past trimmable characters, never below `lo`. */
  function SkipTrailing(s: string, lo: nat, j: nat): (k: nat)
    requires lo <= j <= |s|
    ensures lo <= k <= j
    ensures forall m :: k <= m < j ==> IsTrimmable(s[m])
    ensures k > lo ==> !IsTrimmable(s[k - 1])
    decreases j
  {
    if j > lo && IsTrimmable(s[j - 1]) then SkipTrailing(s, lo, j - 1) else j
  }

  /** `s.trim()`: the longest middle part of `s` that neither starts nor
      ends with a trimmable character. */
  function Trim(s: string): (r: string)
    ensures |r| <= |s|
    ensures r == [] || (!IsTrimmable(r[0]) && !IsTrimmable(r[|r| - 1]))
  {
    var lo := SkipLeading(s, 0);
    s[lo..SkipTrailing(s, lo, |s|)]
  }

  /** `s.trim().isEmpty()`: it holds exactly when every character of `s`
      is trimmable. */
  predicate IsBlank(s: string)
    ensures IsBlank(s) <==> forall i :: 0 <= i < |s| ==> IsTrimmable(s[i])
  {
    Trim(s) == []
  }

  /** Trim keeps a string that neither starts nor ends with a trimmable
      character as it is. */
  lemma TrimKeepsTrimmed(s: string)
    requires s == [] || (!IsTrimmable(s[0]) && !IsTrimmable(s[|s| - 1]))
    ensures Trim(s) == s
  {
  }

  /** Trimming twice is trimming once. */
  lemma TrimIdempotent(s: string)
    ensures Trim(Trim(s)) == Trim(s)
  {
    TrimKeepsTrimmed(Trim(s));
  }

  /** The trimmed string is a contiguous part of the original: `s` is some
      trimmable prefix, then `Trim(s)`, then some trimmable suffix. */
  lemma TrimIsMiddle(s: string) returns (lo: nat)
    ensures lo + |Trim(s)| <= |s| && s[lo..lo + |Trim(s)|] == Trim(s)
    ensures forall i :: 0 <= i < lo ==> IsTrimmable(s[i])
    ensures forall i :: lo + |Trim(s)| <= i < |s| ==> IsTrimmable(s[i])
  {
    lo := SkipLeading(s, 0);
  }

  // ---------------------------------------------------------------------
  // String.replace("null", "nulo")

  /** "null" occurs in `s` at position `i`. */
  predicate NullAt(s: string, i: nat) {
    i + 4 <= |s| && s[i] == 'n' && s[i + 1] == 'u' && s[i + 2] == 'l' && s[i + 3] == 'l'
  }

  ghost predicate ContainsNull(s: string) {
    exists i: nat :: i < |s| && NullAt(s, i)
  }

  /** `s.replace("null", "nulo")`: every occurrence of "null", scanned from
      the left and without overlaps, becomes "nulo". */
  function ReplaceNull(s: string): (r: string)
    ensures |r| == |s|
    decreases |s|
  {
    if |s| < 4 then s
    else if NullAt(s, 0) then "nulo" + ReplaceNull(s[4..])
    else [s[0]] + ReplaceNull(s[1..])
  }

  /** The replacement only ever turns the final 'l' of an occurrence into
      'o'; every other character stays. */
  lemma {:induction false} ReplaceNullPointwise(s: string, i: nat)
    requires i < |s|
    ensures ReplaceNull(s)[i] == s[i] || (i >= 3 && NullAt(s, i - 3) && ReplaceNull(s)[i] == 'o')
    decreases |s|
  {
    if |s| >= 4 {
      var r := ReplaceNull(s);
      if NullAt(s, 0) {
        var t := s[4..];
        assert r == "nulo" + ReplaceNull(t);
        if i >= 4 {
          ReplaceNullPointwise(t, i - 4);
          assert r[i] == ReplaceNull(t)[i - 4];
        }
      } else if i > 0 {
        var t := s[1..];
        assert r == [s[0]] + ReplaceNull(t);
        ReplaceNullPointwise(t, i - 1);
        assert r[i] == ReplaceNull(t)[i - 1];
      }
    }
  }

  /** When `s` does not start with "null", neither does its replacement. */
  lemma NoNullAtHead(s: string)
    requires |s| >= 4 && !NullAt(s, 0)
    ensures !NullAt(ReplaceNull(s), 0)
  {
    ReplaceNullPointwise(s, 0);
    ReplaceNullPointwise(s, 1);
    ReplaceNullPointwise(s, 2);
    ReplaceNullPointwise(s, 3);
  }

  /** After the replacement no "null" is left, so a message that said
      "must not be null" now reads "nulo". */
  lemma {:induction false} ReplaceNullRemovesAll(s: string)
    ensures !ContainsNull(ReplaceNull(s))
    decreases |s|
  {
    var r := ReplaceNull(s);
    if |s| >= 4 && NullAt(s, 0) {
      var rest := ReplaceNull(s[4..]);
      ReplaceNullRemovesAll(s[4..]);
      assert r == "nulo" + rest;
      forall i: nat | i < |r| ensures !NullAt(r, i) {
        if i >= 4 {
          assert !NullAt(rest, i - 4);
        }
      }
    } else if |s| >= 4 {
      var rest := ReplaceNull(s[1..]);
      ReplaceNullRemovesAll(s[1..]);
      assert r == [s[0]] + rest;
      NoNullAtHead(s);
      forall i: nat | 1 <= i < |r| ensures !NullAt(r, i) {
        assert !NullAt(rest, i - 1);
      }
    }
  }

  /** A string without "null" is left as it is. */
  lemma {:induction false} ReplaceNullKeepsClean(s: string)
    requires !ContainsNull(s)
    ensures ReplaceNull(s) == s
    decreases |s|
  {
    if |s| >= 4 {
      assert !NullAt(s, 0);
      assert !ContainsNull(s[1..]) by {
        forall i: nat | i < |s| - 1 ensures !NullAt(s[1..], i) {
          assert !NullAt(s, i + 1);
        }
      }
      ReplaceNullKeepsClean(s[1..]);
      assert s == [s[0]] + s[1..];
    }
  }

  // ---------------------------------------------------------------------
  // Decimal text of integers ("%d", and `"..." + id`)

  function DigitChar(d: nat): (c: char)
    requires d < 10
    ensures '0' <= c <= '9' && c as int - '0' as int == d
  {
    ('0' as int + d) as char
  }

  predicate IsDigits(s: string) {
    forall i :: 0 <= i < |s| ==> '0' <= s[i] <= '9'
  }

  function NatToString(n: nat): (r: string)
    ensures r != [] && IsDigits(r)
    decreases n
  {
    if n < 10 then [DigitChar(n)] else NatToString(n / 10) + [DigitChar(n % 10)]
  }

  /** The decimal text of `n`, with a leading '-' when it is negative. */
  function IntToString(n: int): (r: string)
    ensures r != []
    ensures (r[0] == '-') <==> n < 0
  {
    if n < 0 then "-" + NatToString(-n) else NatToString(n)
  }

  /** The number a string of decimal digits spells. */
  function DigitsValue(s: string): nat
    requires IsDigits(s)
    decreases |s|
  {
    if s == [] then 0 else 10 * DigitsValue(s[..|s| - 1]) + (s[|s| - 1] as int - '0' as int)
  }

  /** Reading the decimal text back gives the number. */
  lemma {:induction false} DigitsValueOfNatToString(n: nat)
    ensures DigitsValue(NatToString(n)) == n
    decreases n
  {
    if n >= 10 {
      DigitsValueOfNatToString(n / 10);
      var r := NatToString(n);
      assert r[..|r| - 1] == NatToString(n / 10);
    }
  }

  /** Different numbers have different decimal texts. */
  lemma IntToStringInjective(a: int, b: int)
    requires a != b
    ensures IntToString(a) != IntToString(b)
  {
    if (a < 0) == (b < 0) && IntToString(a) == IntToString(b) {
      var x: nat := if a < 0 then -a else a;
      var y: nat := if b < 0 then -b else b;
      assert NatToString(x) == NatToString(y) by {
        if a < 0 {
          assert NatToString(x) == IntToString(a)[1..];
          assert NatToString(y) == IntToString(b)[1..];
        }
      }
      DigitsValueOfNatToString(x);
      DigitsValueOfNatToString(y);
    }
  }

  // ---------------------------------------------------------------------
  // int division

  /** Java's `a / b` on `int`: it throws ArithmeticException when `b` is
      zero (None here), rounds toward zero, and wraps INT32_MIN / -1 back to
      INT32_MIN. */
  function JavaDiv(a: Int32, b: Int32): (q: Option<Int32>)
    ensures q.None? <==> b == 0
  {
    if b == 0 then None
    else if a == INT32_MIN && b == -1 then Some(INT32_MIN)
    else
      TruncDivBounded(a, b);
      Some(TruncDiv(a, b))
  }

  /** Division rounding toward zero, on unbounded integers. */
  function TruncDiv(a: int, b: int): int
    requires b != 0
  {
    var m := Abs(a) / Abs(b);
    if (a < 0) != (b < 0) then -m else m
  }

  function Abs(x: int): nat {
    if x < 0 then -x else x
  }

  /** Apart from INT32_MIN / -1, truncating division stays in range. */
  lemma TruncDivBounded(a: Int32, b: Int32)
    requires b != 0 && !(a == INT32_MIN && b == -1)
    ensures INT32_MIN <= TruncDiv(a, b) <= INT32_MAX
  {
    DivAtMost(Abs(a), Abs(b));
    if Abs(b) == 1 {
      assert Abs(a) / Abs(b) == Abs(a);
    } else {
      DivHalves(Abs(a), Abs(b));
    }
  }

  lemma DivHalves(n: nat, d: nat)
    requires 2 <= d
    ensures n / d <= n / 2
  {
    var q := n / d;
    assert n == q * d + n % d;
    MulAtLeast(q, d / 2);
    assert q * d >= q * 2 by {
      MulMonotone(q, 2, d);
    }
  }

  lemma {:induction false} MulMonotone(q: nat, c: nat, d: nat)
    requires c <= d
    ensures q * c <= q * d
    decreases d - c
  {
    if c < d {
      MulMonotone(q, c + 1, d);
      assert q * (c + 1) == q * c + q;
    }
  }

  lemma DivAtMost(n: nat, d: nat)
    requires 0 < d
    ensures n / d <= n
  {
    assert n == (n / d) * d + n % d;
    MulAtLeast(n / d, d);
  }

  lemma {:induction false} MulAtLeast(q: nat, d: nat)
    requires 1 <= d
    ensures q <= q * d
  {
    if d > 1 {
      MulAtLeast(q, d - 1);
      assert q * d == q * (d - 1) + q;
    }
  }

  /** Exact division undoes multiplication. */
  lemma DivOfMultiple(k: nat, b: nat)
    requires 0 < b
    ensures (k * b) / b == k
  {
    var a := k * b;
    var q := a / b;
    assert a == q * b + a % b;
    assert (k - q) * b == a % b;
    if k > q {
      MulAtLeast(k - q, b);
    }
  }

  /** For a non-negative dividend and a positive divisor the quotient is
      the floor: `a` lies in the `q`th block of `b` values. */
  lemma JavaDivNonNegative(a: Int32, b: Int32)
    requires 0 <= a && 0 < b
    ensures JavaDiv(a, b) == Some(a / b)
  {
  }

  /** An offset that is an exact multiple of the divisor gives that
      multiple back. */
  lemma JavaDivExact(k: Int32, b: Int32, a: Int32)
    requires 0 < b && 0 <= k && a == k * b
    ensures JavaDiv(a, b) == Some(k)
  {
    DivOfMultiple(k, b);
  }

  /** A negative dividend rounds toward zero, not down. */
  lemma JavaDivTowardZero(a: Int32, b: Int32)
    requires a < 0 < b
    ensures JavaDiv(a, b) == Some(-((-(a as int)) / b))
  {
  }

  /** The one overflow of int division. */
  lemma JavaDivOverflow()
    ensures JavaDiv(INT32_MIN, -1) == Some(INT32_MIN)
  {
  }

  datatype Option<+T> = None | Some(value: T)
}
