/** Go's strconv.Atoi as the handler uses it (handler/handler.go:61): an
    optional sign followed by one or more decimal digits, accepted only when
    the value fits the 64-bit `int` of the target platform. Any other text,
    and any value out of range, is an error. */
module Strconv {
  import opened Errors

  const MinInt: int := -0x8000_0000_0000_0000
  const MaxInt: int := 0x7fff_ffff_ffff_ffff

  predicate IsDigit(c: char) {
    '0' <= c <= '9'
  }

  predicate AllDigits(s: string) {
    forall i :: 0 <= i < |s| ==> IsDigit(s[i])
  }

  /** The value of a string of decimal digits, most significant first. */
  function Value(ds: string): (r: nat)
    requires AllDigits(ds)
    ensures |ds| == 0 ==> r == 0
  {
    if |ds| == 0 then 0
    else Value(ds[..|ds| - 1]) * 10 + (ds[|ds| - 1] as int - '0' as int)
  }

  /** Atoi: a leading '+' or '-', then at least one digit and nothing else;
      the signed value must lie in [MinInt, MaxInt]. */
  function Atoi(s: string): (r: Option<int>)
    ensures r.Some? ==> MinInt <= r.value <= MaxInt
    ensures r.Some? ==> |s| > 0
  {
    if |s| == 0 then None
    else
      var negative := s[0] == '-';
      var digits := if s[0] == '-' || s[0] == '+' then s[1..] else s;
      if |digits| == 0 || !AllDigits(digits) then None
      else
        var magnitude: int := Value(digits);
        var v := if negative then -magnitude else magnitude;
        if MinInt <= v <= MaxInt then Some(v) else None
  }

  /** Decimal digits of a natural number, without leading zeros. */
  function Digits(n: nat): (r: string)
    ensures |r| > 0 && AllDigits(r)
    ensures Value(r) == n
    decreases n
  {
    var last := ('0' as int + n % 10) as char;
    if n < 10 then [last]
    else
      var prefix := Digits(n / 10);
      var r := prefix + [last];
      assert r[..|r| - 1] == prefix;
      r
  }

  /** strconv.Itoa: the decimal form, with '-' before negative numbers. */
  function Itoa(n: int): (r: string)
    ensures |r| > 0
    ensures n >= 0 ==> AllDigits(r)
    ensures n < 0 ==> r[0] == '-' && AllDigits(r[1..])
  {
    if n < 0 then "-" + Digits(-n) else Digits(n)
  }

  /** Parsing the decimal form of any 64-bit integer gives that integer
      back. */
  lemma AtoiItoa(n: int)
    requires MinInt <= n <= MaxInt
    ensures Atoi(Itoa(n)) == Some(n)
  {
    var s := Itoa(n);
    if n < 0 {
      assert s[1..] == Digits(-n);
    } else {
      assert s == Digits(n);
      assert IsDigit(s[0]);
    }
  }

  /** A string holding a character that is neither a digit nor a leading
      sign never parses. */
  lemma AtoiRejectsOtherChars(s: string, i: int)
    requires 0 <= i < |s| && !IsDigit(s[i])
    requires i > 0 || (s[i] != '-' && s[i] != '+')
    ensures Atoi(s) == None
  {
    if s[0] == '-' || s[0] == '+' {
      assert s[1..][i - 1] == s[i];
    }
  }

  /** Values beyond 64 bits are refused even though every character is a
      digit. */
  lemma AtoiRejectsOutOfRange(n: int)
    requires n < MinInt || MaxInt < n
    ensures Atoi(Itoa(n)) == None
  {
    var s := Itoa(n);
    if n < 0 {
      assert s[1..] == Digits(-n);
    } else {
      assert s == Digits(n);
      assert IsDigit(s[0]);
    }
  }
}
