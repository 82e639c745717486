/** The pieces of Rust's string library the server relies on:
    `str::split` with a one-character pattern and `str::parse` for
    `u32` and `i32`, plus fixed-width decimal formatting to state their
    round trips. */
module RustStr {
  import opened Wrappers
  import opened MachineInt

  // ---------------------------------------------------------------------
  // Splitting

  /** `s.split(sep)`: the maximal separator-free pieces of `s`, in order.
      There is always at least one piece (`"".split('-')` is `[""]`). */
  function Split(s: string, sep: char): (pieces: seq<string>)
    ensures |pieces| >= 1
    ensures forall i :: 0 <= i < |pieces| ==> sep !in pieces[i]
    decreases |s|
  {
    if |s| == 0 then [""]
    else
      var rest := Split(s[1..], sep);
      if s[0] == sep then [""] + rest
      else [[s[0]] + rest[0]] + rest[1..]
  }

  /** `pieces.join(sep)`: the reference that `Split` inverts. */
  function Join(pieces: seq<string>, sep: char): string
    requires |pieces| >= 1
    decreases |pieces|
  {
    if |pieces| == 1 then pieces[0]
    else pieces[0] + [sep] + Join(pieces[1..], sep)
  }

  /** The number of occurrences of `c` in `s`. */
  function Count(s: string, c: char): nat
    decreases |s|
  {
    if |s| == 0 then 0
    else (if s[0] == c then 1 else 0) + Count(s[1..], c)
  }

  /** Joining the pieces back with the separator gives the original string. */
  lemma {:induction false} JoinSplit(s: string, sep: char)
    ensures Join(Split(s, sep), sep) == s
    decreases |s|
  {
    if |s| > 0 {
      var rest := Split(s[1..], sep);
      JoinSplit(s[1..], sep);
      if s[0] == sep {
        assert Split(s, sep) == [""] + rest;
        assert ([""] + rest)[1..] == rest;
      } else {
        var pieces := Split(s, sep);
        assert pieces == [[s[0]] + rest[0]] + rest[1..];
        if |rest| > 1 {
          assert pieces[1..] == rest[1..];
          assert Join(rest, sep) == rest[0] + [sep] + Join(rest[1..], sep);
        }
      }
      assert s == [s[0]] + s[1..];
    }
  }

  /** A string with `k` separators splits into exactly `k + 1` pieces. */
  lemma {:induction false} SplitLength(s: string, sep: char)
    ensures |Split(s, sep)| == Count(s, sep) + 1
    decreases |s|
  {
    if |s| > 0 {
      SplitLength(s[1..], sep);
    }
  }

  /** A separator-free string is a single piece. */
  lemma {:induction false} SplitWithoutSeparator(s: string, sep: char)
    requires sep !in s
    ensures Split(s, sep) == [s]
    decreases |s|
  {
    if |s| > 0 {
      assert sep !in s[1..] by {
        forall i | 0 <= i < |s[1..]| ensures s[1..][i] != sep {
          assert s[1..][i] == s[i + 1];
        }
      }
      SplitWithoutSeparator(s[1..], sep);
      assert [s[0]] + s[1..] == s;
    }
  }

  /** Splitting at one separator splits the two sides independently. */
  lemma {:induction false} SplitAtSeparator(a: string, sep: char, b: string)
    ensures Split(a + [sep] + b, sep) == Split(a, sep) + Split(b, sep)
    decreases |a|
  {
    var s := a + [sep] + b;
    if |a| == 0 {
      assert s == [sep] + b;
      assert s[1..] == b;
    } else {
      assert s[0] == a[0];
      assert s[1..] == a[1..] + [sep] + b;
      SplitAtSeparator(a[1..], sep, b);
    }
  }

  // ---------------------------------------------------------------------
  // Decimal digits

  predicate IsDigit(c: char) {
    '0' <= c <= '9'
  }

  predicate AllDigits(s: string) {
    forall i :: 0 <= i < |s| ==> IsDigit(s[i])
  }

  function DigitOf(c: char): nat
    requires IsDigit(c)
  {
    c as int - '0' as int
  }

  function DigitChar(d: nat): char
    requires d < 10
  {
    ('0' as int + d) as char
  }

  /** The value of a string of decimal digits, most significant first
      (leading zeros allowed, as Rust allows them). */
  function DigitsValue(s: string): nat
    requires AllDigits(s)
    decreases |s|
  {
    if |s| == 0 then 0
    else DigitsValue(s[..|s| - 1]) * 10 + DigitOf(s[|s| - 1])
  }

  function Pow10(k: nat): nat {
    if k == 0 then 1 else 10 * Pow10(k - 1)
  }

  /** The last `width` decimal digits of `n`, zero-padded on the left
      (the `%0Nd` layout of an ISO 8601 date component). */
  function PadDecimal(n: nat, width: nat): (s: string)
    ensures |s| == width
    ensures AllDigits(s)
    decreases width
  {
    if width == 0 then ""
    else PadDecimal(n / 10, width - 1) + [DigitChar(n % 10)]
  }

  /** A zero-padded rendering of a number that fits reads back as the number. */
  lemma {:induction false} PadDecimalValue(n: nat, width: nat)
    requires n < Pow10(width)
    ensures DigitsValue(PadDecimal(n, width)) == n
    decreases width
  {
    if width > 0 {
      var s := PadDecimal(n, width);
      var prefix := PadDecimal(n / 10, width - 1);
      assert s[..|s| - 1] == prefix;
      assert n / 10 < Pow10(width - 1);
      PadDecimalValue(n / 10, width - 1);
    }
  }

  // ---------------------------------------------------------------------
  // Integer parsing

  /** The digit part a parse has to read once an optional leading sign
      character `signChar` is stripped. */
  function StripSign(s: string, signChar: char): string {
    if |s| > 0 && s[0] == signChar then s[1..] else s
  }

  /** The value of a non-empty all-digit string, if it is at most `max`. */
  function DigitsUpTo(digits: string, max: nat): (r: Option<nat>)
    ensures r.Some? ==> r.value <= max
  {
    if |digits| == 0 || !AllDigits(digits) then None
    else if DigitsValue(digits) > max then None
    else Some(DigitsValue(digits))
  }

  /** `s.parse::<u32>()`: an optional `+`, then one or more ASCII digits
      whose value fits in 32 bits; anything else (empty, a sign alone, a
      `-`, any other character, overflow) is an error. */
  function ParseU32(s: string): (r: Option<U32>)
    ensures r.Some? <==> var t := StripSign(s, '+'); |t| > 0 && AllDigits(t) && DigitsValue(t) <= U32_MAX
    ensures r.Some? ==> r.value == DigitsValue(StripSign(s, '+'))
    ensures r.Some? ==> |s| > 0 && '-' !in s
  {
    var v :- DigitsUpTo(StripSign(s, '+'), U32_MAX);
    assert s[0] != '-';
    Some(v)
  }

  /** `s.parse::<i32>()`: like `u32` but a leading `-` is accepted too, and
      the value must lie in [-2^31, 2^31 - 1]. */
  function ParseI32(s: string): (r: Option<I32>)
    ensures |s| > 0 && s[0] == '-' ==>
              (r.Some? <==> var t := s[1..]; |t| > 0 && AllDigits(t) && DigitsValue(t) <= -I32_MIN)
    ensures |s| > 0 && s[0] == '-' && r.Some? ==> r.value == -(DigitsValue(s[1..]) as int)
    ensures !(|s| > 0 && s[0] == '-') ==>
              (r.Some? <==> var t := StripSign(s, '+'); |t| > 0 && AllDigits(t) && DigitsValue(t) <= I32_MAX)
    ensures !(|s| > 0 && s[0] == '-') && r.Some? ==> r.value == DigitsValue(StripSign(s, '+'))
    ensures r.Some? ==> |s| > 0 && '-' !in s[1..]
  {
    if |s| > 0 && s[0] == '-' then
      var v :- DigitsUpTo(s[1..], -I32_MIN);
      var negated: I32 := -(v as int);
      Some(negated)
    else
      var v :- DigitsUpTo(StripSign(s, '+'), I32_MAX);
      Some(v)
  }

  /** `parse::<u32>` reads back every zero-padded rendering of a `u32`,
      with or without a `+`. */
  lemma ParseU32RoundTrip(n: U32, width: nat)
    requires 1 <= width && n < Pow10(width)
    ensures ParseU32(PadDecimal(n, width)) == Some(n)
    ensures ParseU32("+" + PadDecimal(n, width)) == Some(n)
  {
    PadDecimalValue(n, width);
    var s := PadDecimal(n, width);
    assert IsDigit(s[0]);
    assert ("+" + s)[1..] == s;
  }

  /** `parse::<i32>` reads back every zero-padded rendering of a magnitude
      up to 2^31 with a `-`, and up to 2^31 - 1 bare or with a `+`. */
  lemma ParseI32RoundTrip(n: nat, width: nat)
    requires 1 <= width && n < Pow10(width)
    ensures n <= -I32_MIN ==> ParseI32("-" + PadDecimal(n, width)) == Some(-(n as int))
    ensures n <= I32_MAX ==> ParseI32(PadDecimal(n, width)) == Some(n)
    ensures n <= I32_MAX ==> ParseI32("+" + PadDecimal(n, width)) == Some(n)
  {
    PadDecimalValue(n, width);
    var s := PadDecimal(n, width);
    assert IsDigit(s[0]);
    assert ("+" + s)[1..] == s;
    assert ("-" + s)[1..] == s;
  }
}
