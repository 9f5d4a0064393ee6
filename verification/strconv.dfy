/** Base-10 integer parsing as Go's strconv.ParseInt and strconv.ParseUint
    do it when called with base 10 and the bit size of a sized integer
    field: an optional sign (ParseInt only), then one or more ASCII digits,
    no underscores, and a value that fits the bit size. Also
    strconv.ParseBool. */
module Strconv {
  import opened Base

  /** The bit sizes reflect reports for Go's sized integer kinds. */
  type BitSize = b: nat | b == 8 || b == 16 || b == 32 || b == 64 witness 64

  function Pow2(n: nat): (r: nat)
    ensures r >= 1
  {
    if n == 0 then 1 else 2 * Pow2(n - 1)
  }

  lemma {:induction false} Pow2Monotone(a: nat, b: nat)
    requires a <= b
    ensures Pow2(a) <= Pow2(b)
  {
    if a < b {
      Pow2Monotone(a, b - 1);
    }
  }

  predicate IsDigit(c: char) {
    '0' <= c <= '9'
  }

  predicate AllDigits(s: string) {
    forall i :: 0 <= i < |s| ==> IsDigit(s[i])
  }

  function DigitValue(c: char): nat
    requires IsDigit(c)
  {
    c as nat - '0' as nat
  }

  function DigitChar(d: nat): (c: char)
    requires d < 10
    ensures IsDigit(c) && DigitValue(c) == d
  {
    ('0' as nat + d) as char
  }

  /** The number a string of digits denotes, most significant digit first. */
  function Value(s: string): nat
    requires AllDigits(s)
  {
    if s == [] then 0 else Value(s[..|s| - 1]) * 10 + DigitValue(s[|s| - 1])
  }

  /** The shortest decimal spelling of n (what strconv.FormatUint gives). */
  function Format(n: nat): (s: string)
    ensures s != [] && AllDigits(s)
  {
    if n < 10 then [DigitChar(n)] else Format(n / 10) + [DigitChar(n % 10)]
  }

  /** Signed decimal spelling of i (what strconv.FormatInt gives). */
  function FormatInt(i: int): (s: string)
    ensures s != []
  {
    if i < 0 then "-" + Format(-i) else Format(i)
  }

  /** strconv.ParseUint(s, 10, bits); None stands for a non-nil error. */
  function ParseUint(s: string, bits: BitSize): (r: Option<nat>)
    ensures r.Some? <==> s != [] && AllDigits(s) && Value(s) < Pow2(bits)
    ensures r.Some? ==> r.value == Value(s) && r.value < Pow2(bits)
  {
    if s == [] || !AllDigits(s) then None
    else if Value(s) < Pow2(bits) then Some(Value(s))
    else None
  }

  /** strconv.ParseInt(s, 10, bits): a leading '+' or '-' is stripped, the
      rest is read as ParseUint reads it, and the signed result must lie in
      [-2^(bits-1), 2^(bits-1) - 1]. */
  function ParseInt(s: string, bits: BitSize): (r: Option<int>)
    ensures r.Some? ==> -(Pow2(bits - 1) as int) <= r.value < Pow2(bits - 1)
    ensures r.Some? <==>
              s != [] && Unsigned(s) != [] && AllDigits(Unsigned(s)) &&
              (if s[0] == '-' then Value(Unsigned(s)) <= Pow2(bits - 1) else Value(Unsigned(s)) < Pow2(bits - 1))
    ensures r.Some? ==> r.value == if s[0] == '-' then -(Value(Unsigned(s)) as int) else Value(Unsigned(s))
  {
    if s == [] then None
    else
      var neg := s[0] == '-';
      var digits := if s[0] == '+' || s[0] == '-' then s[1..] else s;
      if digits == [] || !AllDigits(digits) then None
      else
        var un: int := Value(digits);
        if !neg && un >= Pow2(bits - 1) then None
        else if neg && un > Pow2(bits - 1) then None
        else Some(if neg then -un else un)
  }

  /** s without its leading sign, if it has one. */
  function Unsigned(s: string): (d: string)
    requires s != []
    ensures |d| == |s| || (|d| == |s| - 1 && (s[0] == '+' || s[0] == '-'))
    ensures d == s[|s| - |d|..]
  {
    if s[0] == '+' || s[0] == '-' then s[1..] else s
  }

  /** strconv.ParseBool: the six spellings of true and the six of false. */
  function ParseBool(s: string): (r: Option<bool>)
    ensures r.Some? ==> 1 <= |s| <= 5 && (r.value <==> s[0] in {'1', 't', 'T'})
    ensures s in {"1", "0", "t", "f", "T", "F"} ==> r.Some?
  {
    if s in {"1", "t", "T", "TRUE", "true", "True"} then Some(true)
    else if s in {"0", "f", "F", "FALSE", "false", "False"} then Some(false)
    else None
  }

  /** Reading back the decimal spelling of a number gives the number. */
  lemma {:induction false} ValueFormat(n: nat)
    ensures Value(Format(n)) == n
  {
    if n >= 10 {
      var s := Format(n);
      ValueFormat(n / 10);
      assert s[..|s| - 1] == Format(n / 10);
    }
  }

  /** ParseUint accepts the spelling of every number that fits the bit
      size and returns that number. */
  lemma {:induction false} ParseUintFormat(n: nat, bits: BitSize)
    requires n < Pow2(bits)
    ensures ParseUint(Format(n), bits) == Some(n)
  {
    ValueFormat(n);
  }

  /** ParseInt accepts the spelling of every number in range. */
  lemma {:induction false} ParseIntFormat(i: int, bits: BitSize)
    requires -(Pow2(bits - 1) as int) <= i < Pow2(bits - 1)
    ensures ParseInt(FormatInt(i), bits) == Some(i)
  {
    if i < 0 {
      ValueFormat(-i);
      ParseIntDigits(Format(-i), bits);
      assert FormatInt(i) == "-" + Format(-i);
    } else {
      ValueFormat(i);
      ParseIntDigits(Format(i), bits);
    }
  }

  /** ParseInt on a run of digits, with no sign or a '-' in front. */
  lemma {:induction false} ParseIntDigits(d: string, bits: BitSize)
    requires d != [] && AllDigits(d)
    ensures ParseInt(d, bits) == if Value(d) < Pow2(bits - 1) then Some(Value(d) as int) else None
    ensures ParseInt("-" + d, bits) == if Value(d) <= Pow2(bits - 1) then Some(-(Value(d) as int)) else None
  {
    assert !IsDigit('+') && !IsDigit('-');
    assert Unsigned(d) == d && Unsigned("-" + d) == d;
  }

  /** A string with a character that is neither a digit nor a leading sign
      is rejected by both parsers. */
  lemma {:induction false} RejectsNonDigit(s: string, k: nat, bits: BitSize)
    requires k < |s| && !IsDigit(s[k])
    requires k == 0 ==> s[0] != '+' && s[0] != '-'
    ensures ParseInt(s, bits) == None
    ensures ParseUint(s, bits) == None
  {
    if k > 0 && (s[0] == '+' || s[0] == '-') {
      assert !IsDigit(s[1..][k - 1]);
    }
  }

  /** A leading zero does not change the number a string of digits denotes. */
  lemma {:induction false} ValueLeadingZero(s: string)
    requires AllDigits(s)
    ensures AllDigits("0" + s) && Value("0" + s) == Value(s)
  {
    if s != [] {
      var t := "0" + s;
      assert t[..|t| - 1] == "0" + s[..|s| - 1];
      ValueLeadingZero(s[..|s| - 1]);
    }
  }

  /** A leading zero is accepted by ParseUint: "08080" parses as 8080 does. */
  lemma {:induction false} ParseUintLeadingZero(s: string, bits: BitSize)
    requires s != [] && AllDigits(s)
    ensures ParseUint("0" + s, bits) == ParseUint(s, bits)
  {
    ValueLeadingZero(s);
  }

  /** A leading zero is accepted by ParseInt as well. */
  lemma {:induction false} ParseIntLeadingZero(s: string, bits: BitSize)
    requires s != [] && AllDigits(s)
    ensures ParseInt("0" + s, bits) == ParseInt(s, bits)
  {
    ValueLeadingZero(s);
    assert !IsDigit('+') && !IsDigit('-');
    assert Unsigned(s) == s && Unsigned("0" + s) == "0" + s;
  }

  /** An explicit '+' is accepted by ParseInt: "+8080" parses as 8080 does. */
  lemma {:induction false} ParseIntPlus(s: string, bits: BitSize)
    requires s != [] && AllDigits(s)
    ensures ParseInt("+" + s, bits) == ParseInt(s, bits)
  {
    assert !IsDigit('+') && !IsDigit('-');
    assert Unsigned(s) == s && Unsigned("+" + s) == s;
  }

  /** ParseUint never accepts a sign. */
  lemma {:induction false} ParseUintRejectsSign(s: string, bits: BitSize)
    requires s != [] && (s[0] == '+' || s[0] == '-')
    ensures ParseUint(s, bits) == None
  {
    assert !IsDigit(s[0]);
  }

  /** The spelling of 2^(bits-1), one past the largest signed value,
      overflows ParseInt. */
  lemma {:induction false} ParseIntRejectsOverflow(bits: BitSize)
    ensures ParseInt(Format(Pow2(bits - 1)), bits) == None
  {
    ValueFormat(Pow2(bits - 1));
    assert Format(Pow2(bits - 1))[0] != '-' && Format(Pow2(bits - 1))[0] != '+';
  }

  /** The spelling of 2^bits, one past the largest unsigned value,
      overflows ParseUint. */
  lemma {:induction false} ParseUintRejectsOverflow(bits: BitSize)
    ensures ParseUint(Format(Pow2(bits)), bits) == None
  {
    ValueFormat(Pow2(bits));
  }
}
