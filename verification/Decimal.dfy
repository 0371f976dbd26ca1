/** Signed decimal text: `strconv.Itoa` and `strconv.Atoi` on 64-bit integers. */
module Decimal {
  import opened Results

  const MIN_INT64: int := -0x8000_0000_0000_0000
  const MAX_INT64: int := 0x7FFF_FFFF_FFFF_FFFF

  predicate IsInt64(n: int) {
    MIN_INT64 <= n <= MAX_INT64
  }

  type Int64 = n: int | IsInt64(n)

  predicate IsDigit(c: char) {
    '0' <= c <= '9'
  }

  predicate AllDigits(s: string) {
    forall i :: 0 <= i < |s| ==> IsDigit(s[i])
  }

  function Digits(n: nat): (s: string)
    ensures s != "" && AllDigits(s)
  {
    var last := [('0' as int + n % 10) as char];
    if n < 10 then last else Digits(n / 10) + last
  }

  function Itoa(n: int): (s: string)
    ensures s != ""
  {
    if n < 0 then "-" + Digits(-n) else Digits(n)
  }

  /** The number a run of digits stands for. */
  function Magnitude(s: string): nat
    requires AllDigits(s)
  {
    if s == "" then 0
    else Magnitude(s[..|s| - 1]) * 10 + (s[|s| - 1] as int - '0' as int)
  }

  /** An optional sign, at least one digit, and a value that fits 64 bits. */
  function Atoi(s: string): (r: Option<int>)
    ensures r.Some? ==> IsInt64(r.value)
  {
    var signed := s != "" && (s[0] == '-' || s[0] == '+');
    var digits := if signed then s[1..] else s;
    if digits == "" || !AllDigits(digits) then None
    else
      var size: int := Magnitude(digits);
      var n := if s[0] == '-' then -size else size;
      if IsInt64(n) then Some(n) else None
  }

  lemma {:induction false} MagnitudeOfDigits(n: nat)
    ensures Magnitude(Digits(n)) == n
  {
    var s := Digits(n);
    if n < 10 {
      assert s[..|s| - 1] == "";
    } else {
      MagnitudeOfDigits(n / 10);
      assert s[..|s| - 1] == Digits(n / 10);
    }
  }

  /** Printing then parsing gives every 64-bit integer back. */
  lemma AtoiOfItoa(n: int)
    requires IsInt64(n)
    ensures Atoi(Itoa(n)) == Some(n)
  {
    var magnitude: nat := if n < 0 then -n else n;
    MagnitudeOfDigits(magnitude);
    if n < 0 {
      assert Itoa(n)[1..] == Digits(magnitude);
    } else {
      assert IsDigit(Itoa(n)[0]);
    }
  }

  lemma ItoaInjective(m: int, n: int)
    requires IsInt64(m) && IsInt64(n) && Itoa(m) == Itoa(n)
    ensures m == n
  {
    AtoiOfItoa(m);
    AtoiOfItoa(n);
  }
}
