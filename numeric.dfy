/**
 * Rust's `u32` and the `str::parse::<u32>` call that reads the requested length
 * from a chat command.
 */
module Numeric {
  import opened Wrappers

  const U32_LIMIT: int := 0x1_0000_0000

  /** Rust's unsigned 32-bit integer. */
  newtype u32 = x: int | 0 <= x < 0x1_0000_0000

  predicate IsDigit(c: char) {
    '0' <= c <= '9'
  }

  predicate AllDigits(s: string) {
    forall i :: 0 <= i < |s| ==> IsDigit(s[i])
  }

  function DigitValue(c: char): (d: nat)
    requires IsDigit(c)
    ensures d < 10
  {
    c as int - '0' as int
  }

  function DigitChar(d: nat): (c: char)
    requires d < 10
    ensures IsDigit(c) && DigitValue(c) == d
  {
    ('0' as int + d) as char
  }

  /** The number a string of decimal digits denotes, read left to right as `from_str_radix` does. */
  function DecimalValue(s: string): nat
    requires AllDigits(s)
    decreases |s|
  {
    if s == [] then 0 else 10 * DecimalValue(s[..|s| - 1]) + DigitValue(s[|s| - 1])
  }

  /** The canonical decimal rendering of `n`: no sign, no leading zeros. */
  function Decimal(n: nat): (s: string)
    ensures s != [] && AllDigits(s)
    decreases n
  {
    if n < 10 then [DigitChar(n)] else Decimal(n / 10) + [DigitChar(n % 10)]
  }

  /**
   * `str::parse::<u32>`: an optional leading '+', then at least one decimal digit and
   * nothing else; a value that does not fit in 32 bits is an error, as are the empty
   * string, a lone '+' and any sign '-'.
   */
  function ParseU32(s: string): (r: Option<u32>)
  {
    var digits := if |s| > 0 && s[0] == '+' then s[1..] else s;
    if digits != [] && AllDigits(digits) && DecimalValue(digits) < U32_LIMIT
    then Some(DecimalValue(digits) as u32)
    else None
  }

  lemma {:induction false} DecimalValueOfDecimal(n: nat)
    ensures DecimalValue(Decimal(n)) == n
    decreases n
  {
    if n >= 10 {
      var s := Decimal(n);
      assert s[..|s| - 1] == Decimal(n / 10);
      DecimalValueOfDecimal(n / 10);
    }
  }

  /** Parsing the decimal rendering of a number gives the number back exactly when it fits in a `u32`. */
  lemma {:induction false} ParseDecimal(n: nat)
    ensures ParseU32(Decimal(n)) == if n < U32_LIMIT then Some(n as u32) else None
  {
    DecimalValueOfDecimal(n);
  }

  /** `k` zero digits. */
  function Zeros(k: nat): (z: string)
    ensures |z| == k && AllDigits(z)
    ensures forall i :: 0 <= i < k ==> z[i] == '0'
  {
    seq(k, _ => '0')
  }

  /** `s` writes `n` in decimal: an optional '+', any number of leading zeros, then `Decimal(n)`. */
  ghost predicate WritesDecimal(s: string, n: nat) {
    exists k: nat :: s == Zeros(k) + Decimal(n) || s == "+" + Zeros(k) + Decimal(n)
  }

  lemma {:induction false} LeadingZerosValue(k: nat, d: string)
    requires AllDigits(d)
    ensures AllDigits(Zeros(k) + d) && DecimalValue(Zeros(k) + d) == DecimalValue(d)
    decreases |d|, k
  {
    var e := Zeros(k) + d;
    if d == [] {
      assert e == Zeros(k);
      if k > 0 {
        assert e[..|e| - 1] == Zeros(k - 1) + d;
        LeadingZerosValue(k - 1, d);
      }
    } else {
      var d' := d[..|d| - 1];
      assert e[..|e| - 1] == Zeros(k) + d';
      LeadingZerosValue(k, d');
    }
  }

  lemma {:induction false} NonZeroLeadValue(t: string)
    requires t != [] && AllDigits(t) && t[0] != '0'
    ensures DecimalValue(t) >= 1
    decreases |t|
  {
    if |t| > 1 {
      NonZeroLeadValue(t[..|t| - 1]);
    }
  }

  /** A digit string without a leading zero is the canonical rendering of its value. */
  lemma {:induction false} CanonicalDigits(t: string)
    requires t != [] && AllDigits(t) && (t[0] != '0' || |t| == 1)
    ensures t == Decimal(DecimalValue(t))
    decreases |t|
  {
    if |t| > 1 {
      var t' := t[..|t| - 1];
      NonZeroLeadValue(t');
      CanonicalDigits(t');
      var n := DecimalValue(t);
      assert n / 10 == DecimalValue(t') && n % 10 == DigitValue(t[|t| - 1]);
      assert t == t' + [t[|t| - 1]];
    }
  }

  /** Every digit string is some leading zeros followed by the canonical rendering of its value. */
  lemma {:induction false} DigitsForm(t: string)
    requires t != [] && AllDigits(t)
    ensures exists k: nat :: t == Zeros(k) + Decimal(DecimalValue(t))
    decreases |t|
  {
    if t[0] != '0' || |t| == 1 {
      CanonicalDigits(t);
      assert t == Zeros(0) + Decimal(DecimalValue(t));
    } else {
      var t' := t[1..];
      DigitsForm(t');
      var k: nat :| t' == Zeros(k) + Decimal(DecimalValue(t'));
      LeadingZerosValue(1, t');
      assert t == Zeros(1) + t';
      assert t == Zeros(k + 1) + Decimal(DecimalValue(t));
    }
  }

  lemma {:induction false} WrittenDigits(s: string, digits: string, n: nat)
    requires digits != [] && AllDigits(digits) && DecimalValue(digits) == n
    requires s == digits || s == "+" + digits
    ensures WritesDecimal(s, n)
  {
    DigitsForm(digits);
    var k: nat :| digits == Zeros(k) + Decimal(n);
    if s == digits {
      assert s == Zeros(k) + Decimal(n);
    } else {
      assert s == "+" + Zeros(k) + Decimal(n);
    }
  }

  lemma {:induction false} ParsedIsWritten(s: string, v: u32)
    requires ParseU32(s) == Some(v)
    ensures WritesDecimal(s, v as nat)
  {
    if |s| > 0 && s[0] == '+' {
      assert s == "+" + s[1..];
      WrittenDigits(s, s[1..], v as nat);
    } else {
      WrittenDigits(s, s, v as nat);
    }
  }

  lemma SignedDigitsParse(s: string, digits: string)
    requires digits != [] && AllDigits(digits) && DecimalValue(digits) < U32_LIMIT
    requires s == digits || s == "+" + digits
    ensures ParseU32(s) == Some(DecimalValue(digits) as u32)
  {
    if s == digits {
      assert s[0] != '+' by { assert IsDigit(digits[0]); }
    } else {
      assert s[1..] == digits;
    }
  }

  lemma {:induction false} WrittenIsParsed(s: string, v: u32)
    requires WritesDecimal(s, v as nat)
    ensures ParseU32(s) == Some(v)
  {
    var k: nat :| s == Zeros(k) + Decimal(v as nat) || s == "+" + Zeros(k) + Decimal(v as nat);
    var digits := Zeros(k) + Decimal(v as nat);
    LeadingZerosValue(k, Decimal(v as nat));
    DecimalValueOfDecimal(v as nat);
    assert "+" + Zeros(k) + Decimal(v as nat) == "+" + digits;
    SignedDigitsParse(s, digits);
  }

  /**
   * The strings the parser accepts are exactly the decimal writings of the values
   * below 2^32: an optional '+', leading zeros allowed, nothing else.
   */
  lemma ParseU32Exactly(s: string, v: u32)
    ensures ParseU32(s) == Some(v) <==> WritesDecimal(s, v as nat)
  {
    if ParseU32(s) == Some(v) {
      ParsedIsWritten(s, v);
    }
    if WritesDecimal(s, v as nat) {
      WrittenIsParsed(s, v);
    }
  }
}
