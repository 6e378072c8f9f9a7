// Percent-encoding of query components, section 2.1 of RFC 3986, as url.QueryEscape and
// url.QueryUnescape do it, and the two wrappers EscapeUrl and UnescapeUrl.
module Percent {
  import opened Wrappers
  import opened Bytes
  import opened Sequences

  const PERCENT: byte := '%' as int
  const PLUS: byte := '+' as int
  const SPACE: byte := ' ' as int

  predicate IsUnreserved(c: byte) {
    IsLetterOrDigit(c) || c == '-' as int || c == '_' as int || c == '.' as int || c == '~' as int
  }

  function UpperHex(d: int): (c: byte)
    requires 0 <= d < 16
    ensures IsHex(c) && HexValue(c) == d
  {
    if d < 10 then '0' as int + d else 'A' as int + (d - 10)
  }

  predicate IsHex(c: byte) {
    '0' as int <= c <= '9' as int || 'a' as int <= c <= 'f' as int || 'A' as int <= c <= 'F' as int
  }

  function HexValue(c: byte): (d: int)
    requires IsHex(c)
    ensures 0 <= d < 16
  {
    if c <= '9' as int then c - '0' as int
    else if c <= 'F' as int then c - 'A' as int + 10
    else c - 'a' as int + 10
  }

  function EscapeByte(c: byte): bytes {
    if IsUnreserved(c) then [c]
    else if c == SPACE then [PLUS]
    else [PERCENT, UpperHex(c / 16), UpperHex(c % 16)]
  }

  function QueryEscape(s: bytes): bytes {
    if s == [] then [] else EscapeByte(s[0]) + QueryEscape(s[1..])
  }

  function QueryUnescape(s: bytes): Option<bytes> {
    if s == [] then Some([])
    else if s[0] == PERCENT then
      if |s| < 3 || !IsHex(s[1]) || !IsHex(s[2]) then None
      else
        match QueryUnescape(s[3..])
        case None => None
        case Some(rest) => Some([HexValue(s[1]) * 16 + HexValue(s[2])] + rest)
    else
      match QueryUnescape(s[1..])
      case None => None
      case Some(rest) => Some([if s[0] == PLUS then SPACE else s[0]] + rest)
  }

  function EscapeUrl(input: bytes): bytes {
    if PERCENT in input then input else QueryEscape(input)
  }

  function UnescapeUrl(input: bytes): bytes {
    match QueryUnescape(input)
    case None => input
    case Some(out) => out
  }

  // ---------------------------------------------------------------- escaping and back

  lemma UnescapeOne(c: byte, rest: bytes)
    ensures QueryUnescape(EscapeByte(c) + rest)
         == match QueryUnescape(rest) case None => None case Some(r) => Some([c] + r)
  {
    var s := EscapeByte(c) + rest;
    if IsUnreserved(c) || c == SPACE {
      assert s[1..] == rest;
    } else {
      assert s[0] == PERCENT && s[1] == UpperHex(c / 16) && s[2] == UpperHex(c % 16) && s[3..] == rest;
    }
  }

  lemma {:induction false} RoundTrip(s: bytes)
    ensures QueryUnescape(QueryEscape(s)) == Some(s)
  {
    if s != [] {
      UnescapeOne(s[0], QueryEscape(s[1..]));
      RoundTrip(s[1..]);
      assert s == [s[0]] + s[1..];
    }
  }

  predicate IsEscaped(c: byte) {
    IsUnreserved(c) || c == PLUS || c == PERCENT
  }

  lemma {:induction false} EscapeYields(s: bytes)
    ensures forall c :: c in QueryEscape(s) ==> IsEscaped(c)
    ensures PERCENT in QueryEscape(s) <==> exists c :: c in s && !IsUnreserved(c) && c != SPACE
    ensures PLUS in QueryEscape(s) <==> SPACE in s
  {
    if s != [] {
      EscapeYields(s[1..]);
      assert s == [s[0]] + s[1..];
      var e := EscapeByte(s[0]);
      assert PERCENT in e <==> !IsUnreserved(s[0]) && s[0] != SPACE by {
        assert e[0] in e;
      }
      assert PLUS in e <==> s[0] == SPACE by {
        assert e[0] in e;
      }
    }
  }

  lemma {:induction false} EscapeUnreserved(s: bytes)
    ensures QueryEscape(s) == s <==> forall c :: c in s ==> IsUnreserved(c)
    ensures |QueryEscape(s)| >= |s|
  {
    if s != [] {
      EscapeUnreserved(s[1..]);
      var e, rest := EscapeByte(s[0]), QueryEscape(s[1..]);
      assert s == [s[0]] + s[1..];
      if QueryEscape(s) == s {
        assert |e| == 1 && s[0] == e[0];
        assert s[1..] == rest;
      }
    }
  }

  // Decoding never lengthens, and shortens as soon as there is an escape.
  lemma {:induction false} UnescapeShortens(s: bytes)
    requires QueryUnescape(s).Some?
    ensures |QueryUnescape(s).value| <= |s|
    ensures PERCENT in s ==> |QueryUnescape(s).value| < |s|
    ensures PERCENT !in s ==> |QueryUnescape(s).value| == |s|
    ensures PERCENT !in s ==> forall i :: 0 <= i < |s| ==> QueryUnescape(s).value[i] == if s[i] == PLUS then SPACE else s[i]
  {
    if s != [] {
      UnescapeShortens(if s[0] == PERCENT then s[3..] else s[1..]);
      assert s == [s[0]] + s[1..];
    }
  }

  lemma {:induction false} UnescapeWithoutPercent(s: bytes)
    requires PERCENT !in s
    ensures QueryUnescape(s).Some?
  {
    if s != [] {
      UnescapeWithoutPercent(s[1..]);
    }
  }

  // A component is read back as itself exactly when it holds neither "%" nor "+".
  lemma PlainIff(s: bytes)
    ensures QueryUnescape(s) == Some(s) <==> PERCENT !in s && PLUS !in s
  {
    if PERCENT !in s {
      UnescapeWithoutPercent(s);
    }
    if QueryUnescape(s).Some? {
      UnescapeShortens(s);
      if PERCENT !in s && PLUS in s {
        var i :| 0 <= i < |s| && s[i] == PLUS;
        assert QueryUnescape(s).value[i] == SPACE;
      } else if PERCENT !in s {
        assert QueryUnescape(s).value == s;
      }
    }
  }

  // ---------------------------------------------------------------- the two wrappers

  // Every percent sign is followed by two hexadecimal digits.
  predicate WellEscaped(s: bytes) {
    forall i :: 0 <= i < |s| && s[i] == PERCENT ==> i + 2 < |s| && IsHex(s[i + 1]) && IsHex(s[i + 2])
  }

  lemma HexIsNoPercent(c: byte)
    ensures IsHex(c) ==> c != PERCENT
  {
  }

  lemma WellEscapedStep(s: bytes)
    requires s != []
    ensures WellEscaped(s) <==>
            if s[0] == PERCENT then |s| >= 3 && IsHex(s[1]) && IsHex(s[2]) && WellEscaped(s[3..]) else WellEscaped(s[1..])
  {
    hide IsHex;
    var n := if s[0] == PERCENT then 3 else 1;
    if n <= |s| {
      assert forall i :: 0 <= i < |s| - n ==> s[n..][i] == s[i + n];
      assert forall i :: n <= i < |s| ==> s[i] == s[n..][i - n];
    }
    if |s| >= 3 {
      HexIsNoPercent(s[1]);
      HexIsNoPercent(s[2]);
    }
  }

  lemma {:induction false} DecodableIff(s: bytes)
    ensures QueryUnescape(s).Some? <==> WellEscaped(s)
  {
    if s != [] {
      WellEscapedStep(s);
      if s[0] != PERCENT {
        DecodableIff(s[1..]);
      } else if |s| >= 3 {
        DecodableIff(s[3..]);
      }
      hide WellEscaped, IsHex;
    }
  }

  lemma UnescapePlainHead(c: byte, s: bytes)
    requires c != PERCENT && c != PLUS
    ensures QueryUnescape([c] + s) == match QueryUnescape(s) case None => None case Some(r) => Some([c] + r)
  {
    assert ([c] + s)[1..] == s;
  }

  // A prefix without escapes is decoded as it is.
  lemma {:induction false} UnescapePlainPrefix(a: bytes, s: bytes)
    requires PERCENT !in a && PLUS !in a
    ensures QueryUnescape(a + s) == match QueryUnescape(s) case None => None case Some(r) => Some(a + r)
  {
    hide QueryUnescape;
    var rest := QueryUnescape(s);
    if a == [] {
      assert a + s == s && (rest.Some? ==> a + rest.value == rest.value);
    } else {
      UnescapePlainPrefix(a[1..], s);
      UnescapePlainHead(a[0], a[1..] + s);
      HeadInFront(a, s);
      if rest.Some? {
        HeadInFront(a, rest.value);
      }
    }
  }

  // The round trip fails exactly on inputs that hold escapes already, all of them well-formed.
  lemma UnescapeEscapeIff(x: bytes)
    ensures UnescapeUrl(EscapeUrl(x)) == x <==> PERCENT !in x || !WellEscaped(x)
  {
    RoundTrip(x);
    DecodableIff(x);
    if PERCENT in x && QueryUnescape(x).Some? {
      UnescapeShortens(x);
    }
    hide QueryUnescape, QueryEscape, WellEscaped;
  }

  // Escaping twice is escaping once exactly when there is no space or something needs a "%".
  lemma EscapeTwiceIff(x: bytes)
    ensures EscapeUrl(EscapeUrl(x)) == EscapeUrl(x) <==> SPACE !in x || exists c :: c in x && !IsUnreserved(c) && c != SPACE
  {
    EscapeYields(x);
    if PERCENT !in x && PERCENT !in QueryEscape(x) {
      EscapeUnreserved(QueryEscape(x));
      assert PLUS in QueryEscape(x) ==> !IsUnreserved(PLUS);
    }
  }

  // For example, "%41" is taken to be escaped already, and a space becomes a plus sign that is
  // escaped in turn.
  lemma EscapedInput()
    ensures EscapeUrl(Ascii("%41")) == Ascii("%41") && UnescapeUrl(EscapeUrl(Ascii("%41"))) == Ascii("A")
  {
  }

  lemma SpaceEscapedTwice()
    ensures EscapeUrl([SPACE]) == Ascii("+") && EscapeUrl(EscapeUrl([SPACE])) == Ascii("%2B")
  {
    assert QueryEscape([SPACE]) == EscapeByte(SPACE) + QueryEscape([SPACE][1..]) == [PLUS];
    assert EscapeByte(PLUS) == [PERCENT, UpperHex(2), UpperHex(11)] == Ascii("%2B");
    assert QueryEscape([PLUS]) == EscapeByte(PLUS) + QueryEscape([PLUS][1..]) == EscapeByte(PLUS);
  }

  // ---------------------------------------------------------------- byte by byte

  const UPPER_HEX := "0123456789ABCDEF"

  // The unreserved characters of section 2.3 of RFC 3986, by their codes.
  predicate UnreservedCode(c: int) {
    65 <= c <= 90 || 97 <= c <= 122 || 48 <= c <= 57 || c == 45 || c == 46 || c == 95 || c == 126
  }

  // They stay, a space becomes a plus sign, and every other byte its two digits, the high one first.
  lemma EscapedByte(c: byte)
    ensures var e := QueryEscape([c]);
            if UnreservedCode(c) then e == [c]
            else if c == 32 then e == [43]
            else |e| == 3 && e[0] == 37 && e[1] as char == UPPER_HEX[c / 16] && e[2] as char == UPPER_HEX[c % 16]
  {
    assert [c][1..] == [] && EscapeByte(c) + [] == EscapeByte(c);
    HexIs(c / 16);
    HexIs(c % 16);
    hide UpperHex;
  }

  lemma HexIs(d: int)
    requires 0 <= d < 16
    ensures UpperHex(d) as char == UPPER_HEX[d]
  {
  }

  lemma EscapeHead(c: byte, s: bytes)
    ensures QueryEscape([c] + s) == EscapeByte(c) + QueryEscape(s)
  {
    assert ([c] + s)[1..] == s;
  }

  lemma {:induction false} EscapeConcat(a: bytes, b: bytes)
    ensures QueryEscape(a + b) == QueryEscape(a) + QueryEscape(b)
  {
    if a == [] {
      assert a + b == b;
    } else {
      var rest := a[1..];
      assert a == [a[0]] + rest;
      EscapeConcat(rest, b);
      hide QueryEscape, EscapeByte;
      EscapeHead(a[0], rest);
      EscapeHead(a[0], rest + b);
      Regroup([a[0]], rest, b);
      Regroup(EscapeByte(a[0]), QueryEscape(rest), QueryEscape(b));
    }
  }

  // Decoding one byte, or the two digits behind a percent sign, of either case.
  lemma UnescapedByte(c: byte)
    requires c != 37
    ensures QueryUnescape([c]) == Some([if c == 43 then 32 else c])
  {
    var out: bytes := [if c == PLUS then SPACE else c];
    assert [c][1..] == [] && QueryUnescape([]) == Some([]) && out + [] == out;
  }

  function DigitOf(c: int): int {
    if 48 <= c <= 57 then c - 48 else if 65 <= c <= 70 then c - 55 else if 97 <= c <= 102 then c - 87 else -1
  }

  lemma UnescapedDigits(h: byte, l: byte)
    ensures QueryUnescape([37, h, l])
         == if DigitOf(h) < 0 || DigitOf(l) < 0 then None else Some([DigitOf(h) * 16 + DigitOf(l)])
  {
    var s: bytes := [37, h, l];
    assert s[3..] == [] && QueryUnescape([]) == Some([]);
    assert IsHex(h) <==> DigitOf(h) >= 0;
    assert IsHex(l) <==> DigitOf(l) >= 0;
    if IsHex(h) && IsHex(l) {
      var out: bytes := [HexValue(h) * 16 + HexValue(l)];
      assert QueryUnescape(s) == Some(out + []) && out + [] == out;
    }
  }
}
