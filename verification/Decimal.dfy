// strconv.FormatInt and strconv.ParseInt in base 10 for 64-bit integers.
module Decimal {
  import opened Wrappers
  import opened Bytes

  predicate InInt64(n: int) {
    -0x8000_0000_0000_0000 <= n < 0x8000_0000_0000_0000
  }

  predicate IsDigit(c: byte) {
    '0' as int <= c <= '9' as int
  }

  predicate AllDigits(s: seq<byte>) {
    forall k :: 0 <= k < |s| ==> IsDigit(s[k])
  }

  function Digits(n: nat): (s: seq<byte>)
    ensures s != [] && AllDigits(s)
  {
    if n < 10 then ['0' as int + n] else Digits(n / 10) + ['0' as int + n % 10]
  }

  function Value(s: seq<byte>): nat
    requires AllDigits(s)
  {
    if s == [] then 0 else Value(s[..|s| - 1]) * 10 + (s[|s| - 1] - '0' as int)
  }

  function FormatInt(n: int): seq<byte> {
    if n < 0 then ['-' as int] + Digits(-n) else Digits(n)
  }

  // An optional sign, then at least one digit and nothing else, in the range of int64.
  function ParseInt(s: seq<byte>): Option<int> {
    if s == [] then None else
      var negative := s[0] == '-' as int;
      var digits := if negative || s[0] == '+' as int then s[1..] else s;
      if digits == [] || !AllDigits(digits) then None else
        var n: int := if negative then -(Value(digits) as int) else Value(digits);
        if InInt64(n) then Some(n) else None
  }

  lemma {:induction false} ValueOfDigits(n: nat)
    ensures Value(Digits(n)) == n
  {
    if n >= 10 {
      ValueOfDigits(n / 10);
      assert Digits(n)[..|Digits(n)| - 1] == Digits(n / 10);
    }
  }

  lemma RoundTrip(n: int)
    ensures ParseInt(FormatInt(n)) == if InInt64(n) then Some(n) else None
  {
    var d := if n < 0 then -n else n;
    ValueOfDigits(d);
    assert IsDigit(Digits(d)[0]);
    hide Digits, Value, AllDigits;
    if n < 0 {
      assert FormatInt(n)[0] == '-' as int && FormatInt(n)[1..] == Digits(d);
    }
  }

  // Most significant digit first, and no zeros in front.
  lemma {:induction false} DigitsAre(n: nat)
    ensures Digits(n)[|Digits(n)| - 1] as int == 48 + n % 10
    ensures n >= 10 ==> Digits(n)[..|Digits(n)| - 1] == Digits(n / 10)
    ensures n > 0 ==> Digits(n)[0] != 48
  {
    if n >= 10 {
      DigitsAre(n / 10);
      assert Digits(n)[0] == Digits(n / 10)[0];
    }
  }

  lemma {:induction false} ValueOfZero(s: seq<byte>)
    requires AllDigits(s)
    ensures AllDigits([48] + s) && Value([48] + s) == Value(s)
  {
    if s == [] {
      assert [48] + s == [48];
    } else {
      var n := |s| - 1;
      ValueOfZero(s[..n]);
      assert ([48] + s)[..n + 1] == [48] + s[..n];
    }
  }

  // Zeros in front make no difference, and neither does a plus sign.
  lemma ZeroInFront(s: seq<byte>)
    requires s != [] && AllDigits(s)
    ensures ParseInt([48] + s) == ParseInt(s)
  {
    ValueOfZero(s);
    assert IsDigit(s[0]);
    hide Value;
  }

  lemma PlusInFront(s: seq<byte>)
    requires s != [] && AllDigits(s)
    ensures ParseInt([43] + s) == ParseInt(s)
  {
    assert ([43] + s)[1..] == s && IsDigit(s[0]);
    hide Value;
  }

  // Nothing but digits can be parsed, behind a sign or not, and all of them can in the range.
  lemma ParsesIff(s: seq<byte>)
    requires s != []
    ensures var digits := if s[0] == 43 || s[0] == 45 then s[1..] else s;
            ParseInt(s).Some? <==> digits != [] && AllDigits(digits) && InInt64(if s[0] == 45 then -(Value(digits) as int) else Value(digits))
  {
    hide Value;
  }
}
