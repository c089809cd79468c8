/**
  The .NET string helpers the compiler relies on: `string.Trim` and
  `int.Parse` under the invariant culture (optional surrounding whitespace,
  an optional sign, decimal digits, a 32-bit range).
*/
module Strings {
  import opened Wrappers
  import opened HostTypes

  /** `string.Trim()`: the string without its leading and trailing whitespace. */
  function Trim(s: string): (r: string)
    ensures |r| <= |s|
    ensures r != [] ==> !IsWhiteSpace(r[0]) && !IsWhiteSpace(r[|r| - 1])
    ensures r == s <==> s == [] || (!IsWhiteSpace(s[0]) && !IsWhiteSpace(s[|s| - 1]))
    decreases |s|
  {
    if s == [] then s
    else if IsWhiteSpace(s[0]) then Trim(s[1..])
    else if IsWhiteSpace(s[|s| - 1]) then Trim(s[..|s| - 1])
    else s
  }

  /** `Trim(s)` is `s[i..j]` with nothing but whitespace cut away on either side. */
  ghost predicate TrimmedSlice(s: string, i: int, j: int) {
    && 0 <= i <= j <= |s| && Trim(s) == s[i..j]
    && (forall k | 0 <= k < i :: IsWhiteSpace(s[k]))
    && (forall k | j <= k < |s| :: IsWhiteSpace(s[k]))
  }

  /** A slice found after a leading blank is a slice of the whole string, one further on. */
  lemma {:induction false} TrimmedSliceAfterHead(s: string, i: int, j: int)
    requires s != [] && IsWhiteSpace(s[0]) && TrimmedSlice(s[1..], i, j)
    ensures TrimmedSlice(s, i + 1, j + 1)
  {
    assert s[1..][i..j] == s[i + 1..j + 1];
    forall k | 0 <= k < i + 1 ensures IsWhiteSpace(s[k]) {
      if k > 0 { assert s[k] == s[1..][k - 1]; }
    }
    forall k | j + 1 <= k < |s| ensures IsWhiteSpace(s[k]) {
      assert s[k] == s[1..][k - 1];
    }
  }

  /** A slice found before a trailing blank is a slice of the whole string. */
  lemma {:induction false} TrimmedSliceBeforeLast(s: string, i: int, j: int)
    requires s != [] && !IsWhiteSpace(s[0]) && IsWhiteSpace(s[|s| - 1]) && TrimmedSlice(s[..|s| - 1], i, j)
    ensures TrimmedSlice(s, i, j)
  {
    var init := s[..|s| - 1];
    assert init[i..j] == s[i..j];
    forall k | j <= k < |s| ensures IsWhiteSpace(s[k]) {
      if k < |init| { assert s[k] == init[k]; }
    }
  }

  /**
    The trimmed string is a slice of the original, and everything cut away
    before and after it is whitespace.
  */
  lemma {:induction false} TrimIsSlice(s: string)
    ensures exists i, j :: TrimmedSlice(s, i, j)
    decreases |s|
  {
    if s == [] {
      assert TrimmedSlice(s, 0, 0);
    } else if IsWhiteSpace(s[0]) {
      TrimIsSlice(s[1..]);
      var i, j :| TrimmedSlice(s[1..], i, j);
      TrimmedSliceAfterHead(s, i, j);
    } else if IsWhiteSpace(s[|s| - 1]) {
      TrimIsSlice(s[..|s| - 1]);
      var i, j :| TrimmedSlice(s[..|s| - 1], i, j);
      TrimmedSliceBeforeLast(s, i, j);
    } else {
      assert s[0..|s|] == s;
      assert TrimmedSlice(s, 0, |s|);
    }
  }

  /** Trimming keeps a string with no whitespace at its ends, and so is idempotent. */
  lemma {:induction false} TrimIdempotent(s: string)
    ensures Trim(Trim(s)) == Trim(s)
  {
  }

  predicate IsDigit(c: char) { '0' <= c <= '9' }

  predicate AllDigits(ds: string) { forall i | 0 <= i < |ds| :: IsDigit(ds[i]) }

  function DigitValue(c: char): int
    requires IsDigit(c)
  {
    c as int - '0' as int
  }

  /** The text without the number blanks at either end. */
  function TrimNumberBlanks(s: string): (r: string)
    ensures |r| <= |s|
    ensures r != [] ==> !IsNumberBlank(r[0]) && !IsNumberBlank(r[|r| - 1])
    ensures r == s <==> s == [] || (!IsNumberBlank(s[0]) && !IsNumberBlank(s[|s| - 1]))
    decreases |s|
  {
    if s == [] then s
    else if IsNumberBlank(s[0]) then TrimNumberBlanks(s[1..])
    else if IsNumberBlank(s[|s| - 1]) then TrimNumberBlanks(s[..|s| - 1])
    else s
  }

  /** The value of a string of decimal digits, most significant first. */
  function DigitsValue(ds: string): (v: nat)
    requires AllDigits(ds)
    decreases |ds|
  {
    if ds == [] then 0 else DigitsValue(ds[..|ds| - 1]) * 10 + DigitValue(ds[|ds| - 1])
  }

  const MinInt32: int := -0x8000_0000
  const MaxInt32: int := 0x7FFF_FFFF

  /**
    `int.Parse(s, NumberStyles.Integer, CultureInfo.InvariantCulture)`: the
    text without its number blanks must be an optional sign followed by at least one
    digit (`FormatException` otherwise), and its value must fit in 32 bits
    (`OverflowException` otherwise).
  */
  function ParseInt32(s: string): (r: Result<int>)
    ensures r.Ok? ==> MinInt32 <= r.value <= MaxInt32
    ensures r.Err? ==> r.error == Format || r.error == Overflow
  {
    var t := TrimNumberBlanks(s);
    var negative := t != [] && t[0] == '-';
    var digits := if t != [] && (t[0] == '-' || t[0] == '+') then t[1..] else t;
    if digits == [] || !AllDigits(digits) then Err(Format)
    else
      var magnitude: int := DigitsValue(digits);
      var v := if negative then -magnitude else magnitude;
      if v < MinInt32 || v > MaxInt32 then Err(Overflow) else Ok(v)
  }

  function DigitChar(d: int): (c: char)
    requires 0 <= d < 10
    ensures IsDigit(c) && DigitValue(c) == d
  {
    ('0' as int + d) as char
  }

  /** The decimal rendering of a natural number, without leading zeros. */
  function ShowNat(n: nat): (s: string)
    ensures s != [] && AllDigits(s)
    decreases n
  {
    if n < 10 then [DigitChar(n)] else ShowNat(n / 10) + [DigitChar(n % 10)]
  }

  /** `int.ToString()` under the invariant culture. */
  function ShowInt(n: int): (s: string) {
    if n < 0 then "-" + ShowNat(-n) else ShowNat(n)
  }

  lemma {:induction false} ShowNatValue(n: nat)
    ensures DigitsValue(ShowNat(n)) == n
    decreases n
  {
    if n >= 10 {
      var s := ShowNat(n);
      assert s[..|s| - 1] == ShowNat(n / 10);
      ShowNatValue(n / 10);
    }
  }

  /** Parsing is the inverse of rendering on every 32-bit integer. */
  lemma {:induction false} ParseShowRoundTrip(n: int)
    requires MinInt32 <= n <= MaxInt32
    ensures ParseInt32(ShowInt(n)) == Ok(n)
  {
    var s := ShowInt(n);
    var digits := if n < 0 then ShowNat(-n) else ShowNat(n);
    ShowNatValue(if n < 0 then -n else n);
    assert !IsNumberBlank(s[0]) && !IsNumberBlank(s[|s| - 1]);
    assert TrimNumberBlanks(s) == s;
    if n < 0 {
      assert s[1..] == digits;
    }
  }

  /** A sign or whitespace alone is not a number. */
  lemma {:induction false} SignAloneIsFormatError()
    ensures ParseInt32("") == Err(Format)
    ensures ParseInt32("-") == Err(Format)
    ensures ParseInt32("1.5") == Err(Format)
  {
    assert TrimNumberBlanks("-") == "-";
    var t := "1.5";
    assert TrimNumberBlanks(t) == t;
    assert t[0] != '-' && t[0] != '+';
    assert !IsDigit(t[1]);
    assert !AllDigits(t);
  }

  /** Every value past the 32-bit range, with or without a minus sign, overflows rather than wrapping around. */
  lemma {:induction false} PastRangeOverflows(n: nat)
    ensures n > MaxInt32 ==> ParseInt32(ShowNat(n)) == Err(Overflow)
    ensures n > -MinInt32 ==> ParseInt32("-" + ShowNat(n)) == Err(Overflow)
  {
    var digits := ShowNat(n);
    ShowNatTrimmed(n);
    ShowNatValue(n);
    assert ("-" + digits)[1..] == digits;
  }

  /** A rendered number, with or without a minus sign, has no surrounding white space. */
  lemma {:induction false} ShowNatTrimmed(n: nat)
    ensures Trim(ShowNat(n)) == ShowNat(n)
    ensures Trim("-" + ShowNat(n)) == "-" + ShowNat(n)
    ensures TrimNumberBlanks(ShowNat(n)) == ShowNat(n)
    ensures TrimNumberBlanks("-" + ShowNat(n)) == "-" + ShowNat(n)
  {
    var digits := ShowNat(n);
    ShowNatValue(n);
    assert !IsWhiteSpace(digits[0]) && !IsWhiteSpace(digits[|digits| - 1]);
    assert !IsNumberBlank(digits[0]) && !IsNumberBlank(digits[|digits| - 1]);
    var negative := "-" + digits;
    assert !IsWhiteSpace(negative[0]) && negative[|negative| - 1] == digits[|digits| - 1];
  }
}
