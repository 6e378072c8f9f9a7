// Unpadded base64url: sections 3.2 and 5 of RFC 4648, with the decoder of Go's standard
// library, which skips line breaks and does not look at the unused trailing bits.
module Base64Url {
  import opened Wrappers
  import opened Bytes

  function Symbol(d: int): (c: byte)
    requires 0 <= d < 64
    ensures IsSymbol(c) && SymbolValue(c) == d
  {
    if d < 26 then 'A' as int + d
    else if d < 52 then 'a' as int + (d - 26)
    else if d < 62 then '0' as int + (d - 52)
    else if d == 62 then '-' as int
    else '_' as int
  }

  predicate IsSymbol(c: byte) {
    || 'A' as int <= c <= 'Z' as int
    || 'a' as int <= c <= 'z' as int
    || '0' as int <= c <= '9' as int
    || c == '-' as int
    || c == '_' as int
  }

  function SymbolValue(c: byte): (d: int)
    requires IsSymbol(c)
    ensures 0 <= d < 64
  {
    if 'A' as int <= c <= 'Z' as int then c - 'A' as int
    else if 'a' as int <= c <= 'z' as int then c - 'a' as int + 26
    else if '0' as int <= c <= '9' as int then c - '0' as int + 52
    else if c == '-' as int then 62
    else 63
  }

  // Three bytes in four symbols.
  function Block(a: byte, b: byte, c: byte): seq<byte> {
    [Symbol(a / 4), Symbol(a % 4 * 16 + b / 16), Symbol(b % 16 * 4 + c / 64), Symbol(c % 64)]
  }

  function Encode(data: seq<byte>): seq<byte> {
    if data == [] then []
    else if |data| == 1 then
      [Symbol(data[0] / 4), Symbol(data[0] % 4 * 16)]
    else if |data| == 2 then
      [Symbol(data[0] / 4), Symbol(data[0] % 4 * 16 + data[1] / 16), Symbol(data[1] % 16 * 4)]
    else
      Block(data[0], data[1], data[2]) + Encode(data[3..])
  }

  predicate IsLineBreak(c: byte) {
    c == '\n' as int || c == '\r' as int
  }

  function WithoutLineBreaks(s: seq<byte>): seq<byte> {
    if s == [] then []
    else if IsLineBreak(s[0]) then WithoutLineBreaks(s[1..])
    else [s[0]] + WithoutLineBreaks(s[1..])
  }

  function DecodeSymbols(s: seq<byte>): Option<seq<byte>> {
    if s == [] then Some([])
    else if |s| == 1 || !IsSymbol(s[0]) || !IsSymbol(s[1]) then None
    else
      var a := SymbolValue(s[0]) * 4 + SymbolValue(s[1]) / 16;
      if |s| == 2 then Some([a])
      else if !IsSymbol(s[2]) then None
      else
        var b := SymbolValue(s[1]) % 16 * 16 + SymbolValue(s[2]) / 4;
        if |s| == 3 then Some([a, b])
        else if !IsSymbol(s[3]) then None
        else
          match DecodeSymbols(s[4..])
          case None => None
          case Some(rest) => Some([a, b, SymbolValue(s[2]) % 4 * 64 + SymbolValue(s[3])] + rest)
  }

  function Decode(s: seq<byte>): Option<seq<byte>> {
    DecodeSymbols(WithoutLineBreaks(s))
  }

  predicate AllSymbols(s: seq<byte>) {
    forall k :: 0 <= k < |s| ==> IsSymbol(s[k])
  }

  lemma {:induction false} EncodeIsSymbols(data: seq<byte>)
    ensures AllSymbols(Encode(data))
  {
    if |data| >= 3 {
      EncodeIsSymbols(data[3..]);
    }
  }

  lemma {:induction false} NoLineBreaks(s: seq<byte>)
    requires AllSymbols(s)
    ensures WithoutLineBreaks(s) == s
  {
    if s != [] {
      NoLineBreaks(s[1..]);
    }
  }

  // The four symbols of a block give back its three bytes.
  lemma BlockRoundTrip(a: byte, b: byte, c: byte)
    ensures var d1, d2 := a % 4 * 16 + b / 16, b % 16 * 4 + c / 64;
            && a / 4 * 4 + d1 / 16 == a && d1 % 16 * 16 + d2 / 4 == b && d2 % 4 * 64 + c % 64 == c
            && 0 <= d1 < 64 && 0 <= d2 < 64
  {
  }

  // Four symbols in front of others.
  lemma DecodeFour(w: byte, x: byte, y: byte, z: byte, rest: seq<byte>)
    requires IsSymbol(w) && IsSymbol(x) && IsSymbol(y) && IsSymbol(z)
    ensures var a, b, c := SymbolValue(w) * 4 + SymbolValue(x) / 16, SymbolValue(x) % 16 * 16 + SymbolValue(y) / 4,
                           SymbolValue(y) % 4 * 64 + SymbolValue(z);
            DecodeSymbols([w, x, y, z] + rest) == match DecodeSymbols(rest) case None => None case Some(r) => Some([a, b, c] + r)
  {
    hide SymbolValue, IsSymbol;
    assert ([w, x, y, z] + rest)[4..] == rest;
  }

  lemma DecodeParts(d0: int, d1: int, d2: int, d3: int, a: byte, b: byte, c: byte, rest: seq<byte>)
    requires 0 <= d0 < 64 && 0 <= d1 < 64 && 0 <= d2 < 64 && 0 <= d3 < 64
    requires d0 * 4 + d1 / 16 == a && d1 % 16 * 16 + d2 / 4 == b && d2 % 4 * 64 + d3 == c
    ensures DecodeSymbols([Symbol(d0), Symbol(d1), Symbol(d2), Symbol(d3)] + rest)
         == match DecodeSymbols(rest) case None => None case Some(r) => Some([a, b, c] + r)
  {
    hide DecodeSymbols, Symbol, SymbolValue, IsSymbol;
    DecodeFour(Symbol(d0), Symbol(d1), Symbol(d2), Symbol(d3), rest);
  }

  // A whole block in front of other symbols.
  lemma BlockInFront(a: byte, b: byte, c: byte, rest: seq<byte>)
    ensures DecodeSymbols(Block(a, b, c) + rest)
         == match DecodeSymbols(rest) case None => None case Some(r) => Some([a, b, c] + r)
  {
    BlockRoundTrip(a, b, c);
    hide DecodeSymbols, Symbol, SymbolValue, IsSymbol;
    DecodeParts(a / 4, a % 4 * 16 + b / 16, b % 16 * 4 + c / 64, c % 64, a, b, c, rest);
  }

  lemma OneByte(a: byte)
    ensures DecodeSymbols([Symbol(a / 4), Symbol(a % 4 * 16)]) == Some([a])
  {
    BlockRoundTrip(a, 0, 0);
    hide Symbol, SymbolValue, IsSymbol;
  }

  lemma TwoBytes(a: byte, b: byte)
    ensures DecodeSymbols([Symbol(a / 4), Symbol(a % 4 * 16 + b / 16), Symbol(b % 16 * 4)]) == Some([a, b])
  {
    BlockRoundTrip(a, b, 0);
    hide Symbol, SymbolValue, IsSymbol;
  }

  lemma FewBytes(data: seq<byte>)
    ensures |data| == 1 ==> data == [data[0]]
    ensures |data| == 2 ==> data == [data[0], data[1]]
    ensures |data| >= 3 ==> data == [data[0], data[1], data[2]] + data[3..]
  {
  }

  lemma {:induction false} SymbolsRoundTrip(data: seq<byte>)
    ensures DecodeSymbols(Encode(data)) == Some(data)
  {
    FewBytes(data);
    hide Symbol, Block;
    if |data| == 1 {
      OneByte(data[0]);
    } else if |data| == 2 {
      TwoBytes(data[0], data[1]);
    } else if |data| >= 3 {
      var rest := data[3..];
      assert Encode(data) == Block(data[0], data[1], data[2]) + Encode(rest);
      hide *;
      BlockInFront(data[0], data[1], data[2], Encode(rest));
      SymbolsRoundTrip(rest);
    }
  }

  lemma RoundTrip(data: seq<byte>)
    ensures Decode(Encode(data)) == Some(data)
  {
    EncodeIsSymbols(data);
    NoLineBreaks(Encode(data));
    SymbolsRoundTrip(data);
  }

  lemma EncodeInjective(a: seq<byte>, b: seq<byte>)
    ensures Encode(a) == Encode(b) <==> a == b
  {
    RoundTrip(a);
    RoundTrip(b);
  }

  lemma {:induction false} EncodeLength(data: seq<byte>)
    ensures |Encode(data)| == (4 * |data| + 2) / 3
  {
    if |data| >= 3 {
      EncodeLength(data[3..]);
    }
  }

  // ---------------------------------------------------------------- what the encoding is

  // Table 2 of RFC 4648: three runs of consecutive characters, and two more.
  lemma SymbolsAre(d: int)
    requires 0 <= d < 64
    ensures Symbol(0) as char == 'A' && Symbol(25) as char == 'Z' && Symbol(26) as char == 'a' && Symbol(51) as char == 'z'
    ensures Symbol(52) as char == '0' && Symbol(61) as char == '9' && Symbol(62) as char == '-' && Symbol(63) as char == '_'
    ensures d < 61 && d != 25 && d != 51 ==> Symbol(d + 1) as int == Symbol(d) as int + 1
  {
  }

  // The bits of a block, most significant first, and those of what is left at the end.
  lemma BlockBits(a: byte, b: byte, c: byte)
    ensures var d := Block(a, b, c);
            SymbolValue(d[0]) * 262_144 + SymbolValue(d[1]) * 4_096 + SymbolValue(d[2]) * 64 + SymbolValue(d[3])
            == a * 65_536 + b * 256 + c
  {
    hide SymbolValue, IsSymbol;
  }

  lemma EncodeBlocks(data: seq<byte>)
    requires |data| >= 3
    ensures Encode(data) == Block(data[0], data[1], data[2]) + Encode(data[3..])
  {
    hide Block, Symbol, SymbolValue, IsSymbol;
  }

  lemma LastBits(data: seq<byte>)
    ensures |data| == 1 ==> var d := Encode(data);
              |d| == 2 && IsSymbol(d[0]) && IsSymbol(d[1]) && SymbolValue(d[0]) * 64 + SymbolValue(d[1]) == data[0] as int * 16
    ensures |data| == 2 ==> var d := Encode(data);
              && |d| == 3 && IsSymbol(d[0]) && IsSymbol(d[1]) && IsSymbol(d[2])
              && SymbolValue(d[0]) * 4_096 + SymbolValue(d[1]) * 64 + SymbolValue(d[2]) == (data[0] as int * 256 + data[1] as int) * 4
  {
    hide SymbolValue, IsSymbol, Symbol;
  }

  // Line breaks anywhere are skipped.
  lemma {:induction false} SkipsLineBreak(a: seq<byte>, c: byte, b: seq<byte>)
    requires c == 10 || c == 13
    ensures WithoutLineBreaks(a + [c] + b) == WithoutLineBreaks(a + b)
  {
    if a == [] {
      assert ([c] + b)[1..] == b && a + [c] + b == [c] + b && a + b == b;
    } else {
      SkipsLineBreak(a[1..], c, b);
      assert (a + [c] + b)[0] == a[0] && (a + [c] + b)[1..] == a[1..] + [c] + b;
      assert (a + b)[0] == a[0] && (a + b)[1..] == a[1..] + b;
    }
  }

  lemma {:induction false} KeepsOthers(s: seq<byte>)
    requires forall i :: 0 <= i < |s| ==> s[i] != 10 && s[i] != 13
    ensures WithoutLineBreaks(s) == s
  {
    if s != [] {
      KeepsOthers(s[1..]);
      assert s == [s[0]] + s[1..];
    }
  }

  predicate FourSymbols(s: seq<byte>)
    requires |s| >= 4
  {
    IsSymbol(s[0]) && IsSymbol(s[1]) && IsSymbol(s[2]) && IsSymbol(s[3])
  }

  lemma DecodableStep(s: seq<byte>)
    requires |s| >= 4
    ensures DecodeSymbols(s).Some? <==> FourSymbols(s) && DecodeSymbols(s[4..]).Some?
  {
    hide SymbolValue, IsSymbol;
  }

  lemma SymbolsStep(s: seq<byte>)
    requires |s| >= 4
    ensures AllSymbols(s) <==> FourSymbols(s) && AllSymbols(s[4..])
  {
    hide IsSymbol;
    assert forall k :: 4 <= k < |s| ==> s[k] == s[4..][k - 4];
    assert forall k :: 0 <= k < |s| - 4 ==> s[4..][k] == s[k + 4];
  }

  lemma ShortDecodable(s: seq<byte>)
    requires |s| < 4
    ensures DecodeSymbols(s).Some? <==> AllSymbols(s) && |s| != 1
  {
    hide SymbolValue, IsSymbol;
  }

  // Apart from line breaks a text can be decoded exactly if it holds symbols only and is not one
  // symbol too long.
  lemma {:induction false} DecodableIff(s: seq<byte>)
    ensures DecodeSymbols(s).Some? <==> AllSymbols(s) && |s| % 4 != 1
  {
    hide DecodeSymbols, AllSymbols, FourSymbols;
    if |s| < 4 {
      ShortDecodable(s);
    } else {
      DecodableStep(s);
      SymbolsStep(s);
      DecodableIff(s[4..]);
    }
  }

  // The last symbol may have any unused bits.
  predicate SameButSpareBits(s: seq<byte>, t: seq<byte>)
    requires AllSymbols(s) && AllSymbols(t)
  {
    && |s| == |t|
    && (forall i :: 0 <= i < |s| - 1 ==> s[i] == t[i])
    && (s != [] ==> var n := |s| - 1;
                    if |s| % 4 == 2 then SymbolValue(s[n]) / 16 == SymbolValue(t[n]) / 16
                    else if |s| % 4 == 3 then SymbolValue(s[n]) / 4 == SymbolValue(t[n]) / 4
                    else s[n] == t[n])
  }

  lemma ReadBits(p: int, q: int, r: int, t: int)
    requires 0 <= p < 64 && 0 <= q < 64 && 0 <= r < 64 && 0 <= t < 64
    ensures var a, b, c := p * 4 + q / 16, q % 16 * 16 + r / 4, r % 4 * 64 + t;
            && 0 <= a < 256 && 0 <= b < 256 && 0 <= c < 256
            && a / 4 == p && a % 4 * 16 + b / 16 == q && b % 16 * 4 + c / 64 == r && c % 64 == t
  {
  }

  lemma BlockOfBits(p: int, q: int, r: int, t: int, a: byte, b: byte, c: byte)
    requires 0 <= p < 64 && 0 <= q < 64 && 0 <= r < 64 && 0 <= t < 64
    requires a / 4 == p && a % 4 * 16 + b / 16 == q && b % 16 * 4 + c / 64 == r && c % 64 == t
    ensures Block(a, b, c) == [Symbol(p), Symbol(q), Symbol(r), Symbol(t)]
  {
    hide Symbol, SymbolValue, IsSymbol;
  }

  lemma BlockRead(w: byte, x: byte, y: byte, z: byte)
    requires IsSymbol(w) && IsSymbol(x) && IsSymbol(y) && IsSymbol(z)
    ensures var a, b, c := SymbolValue(w) * 4 + SymbolValue(x) / 16, SymbolValue(x) % 16 * 16 + SymbolValue(y) / 4,
                           SymbolValue(y) % 4 * 64 + SymbolValue(z);
            0 <= a < 256 && 0 <= b < 256 && 0 <= c < 256 && Block(a, b, c) == [w, x, y, z]
  {
    SymbolOfValue(w);
    SymbolOfValue(x);
    SymbolOfValue(y);
    SymbolOfValue(z);
    hide SymbolValue, IsSymbol, Symbol, Block;
    var p, q, r, t := SymbolValue(w), SymbolValue(x), SymbolValue(y), SymbolValue(z);
    ReadBits(p, q, r, t);
    BlockOfBits(p, q, r, t, p * 4 + q / 16, q % 16 * 16 + r / 4, r % 4 * 64 + t);
  }

  lemma SymbolOfValue(c: byte)
    requires IsSymbol(c)
    ensures Symbol(SymbolValue(c)) == c
  {
  }

  lemma BlocksConcat(a: byte, b: byte, c: byte, rest: seq<byte>)
    ensures Encode([a, b, c] + rest) == Block(a, b, c) + Encode(rest)
  {
    assert ([a, b, c] + rest)[3..] == rest;
  }

  lemma ReadTwo(w: byte, x: byte)
    requires IsSymbol(w) && IsSymbol(x)
    ensures var a := SymbolValue(w) * 4 + SymbolValue(x) / 16;
            0 <= a < 256 && DecodeSymbols([w, x]) == Some([a]) && Encode([a]) == [w, Symbol(SymbolValue(x) / 16 * 16)]
  {
    SymbolOfValue(w);
    hide SymbolValue, IsSymbol, Symbol;
    ReadBits(SymbolValue(w), SymbolValue(x), 0, 0);
  }

  lemma ReadThree(w: byte, x: byte, y: byte)
    requires IsSymbol(w) && IsSymbol(x) && IsSymbol(y)
    ensures var a, b := SymbolValue(w) * 4 + SymbolValue(x) / 16, SymbolValue(x) % 16 * 16 + SymbolValue(y) / 4;
            && 0 <= a < 256 && 0 <= b < 256 && DecodeSymbols([w, x, y]) == Some([a, b])
            && Encode([a, b]) == [w, x, Symbol(SymbolValue(y) / 4 * 4)]
  {
    var p, q, r := SymbolValue(w), SymbolValue(x), SymbolValue(y);
    SymbolOfValue(w);
    SymbolOfValue(x);
    ReadBits(p, q, r, 0);
    hide SymbolValue, IsSymbol, Symbol;
    var a: byte, b: byte := p * 4 + q / 16, q % 16 * 16 + r / 4;
    assert b % 16 * 4 == r / 4 * 4;
  }

  lemma SpareTwo(w: byte, x: byte, y: byte)
    requires IsSymbol(w) && IsSymbol(x) && IsSymbol(y) && SymbolValue(x) / 16 == SymbolValue(y) / 16
    ensures AllSymbols([w, x]) && AllSymbols([w, y]) && SameButSpareBits([w, x], [w, y])
  {
    hide SymbolValue, IsSymbol;
  }

  lemma SpareThree(w: byte, x: byte, y: byte, z: byte)
    requires IsSymbol(w) && IsSymbol(x) && IsSymbol(y) && IsSymbol(z) && SymbolValue(y) / 4 == SymbolValue(z) / 4
    ensures AllSymbols([w, x, y]) && AllSymbols([w, x, z]) && SameButSpareBits([w, x, y], [w, x, z])
  {
    hide SymbolValue, IsSymbol;
  }

  lemma ShortRead(s: seq<byte>)
    requires DecodeSymbols(s).Some? && AllSymbols(s) && |s| < 4
    ensures AllSymbols(Encode(DecodeSymbols(s).value)) && SameButSpareBits(s, Encode(DecodeSymbols(s).value))
  {
    hide SymbolValue, IsSymbol, Symbol, Encode, DecodeSymbols, SameButSpareBits;
    DecodableIff(s);
    if |s| == 2 {
      var w, x := s[0], s[1];
      assert s == [w, x];
      ReadTwo(w, x);
      SpareTwo(w, x, Symbol(SymbolValue(x) / 16 * 16));
    } else if |s| == 3 {
      var w, x, y := s[0], s[1], s[2];
      assert s == [w, x, y];
      ReadThree(w, x, y);
      SpareThree(w, x, y, Symbol(SymbolValue(y) / 4 * 4));
    } else {
      assert s == [];
      NothingRead();
    }
  }

  lemma NothingRead()
    ensures DecodeSymbols([]) == Some([]) && Encode([]) == [] && SameButSpareBits([], [])
  {
  }

  lemma TakeFour(s: seq<byte>)
    requires |s| >= 4 && AllSymbols(s)
    ensures s == [s[0], s[1], s[2], s[3]] + s[4..] && AllSymbols(s[4..]) && AllSymbols([s[0], s[1], s[2], s[3]])
  {
    hide IsSymbol;
    assert forall k :: 0 <= k < |s| - 4 ==> s[4..][k] == s[k + 4];
  }

  lemma SymbolsBehind(front: seq<byte>, s: seq<byte>)
    requires AllSymbols(front) && AllSymbols(s)
    ensures AllSymbols(front + s)
  {
    hide IsSymbol;
  }

  lemma SparesBehindBlock(front: seq<byte>, s: seq<byte>, t: seq<byte>)
    requires |front| == 4 && AllSymbols(front) && AllSymbols(s) && AllSymbols(t) && SameButSpareBits(s, t)
    ensures AllSymbols(front + s) && AllSymbols(front + t) && SameButSpareBits(front + s, front + t)
  {
    SymbolsBehind(front, s);
    SymbolsBehind(front, t);
    var n := |s| - 1;
    if s == [] {
      assert front + s == front && front + t == front;
    } else {
      assert (front + s)[4 + n] == s[n] && (front + t)[4 + n] == t[n];
    }
    hide SymbolValue, IsSymbol, AllSymbols;
    forall i | 0 <= i < 4 + n ensures (front + s)[i] == (front + t)[i] {
      assert i >= 4 ==> (front + s)[i] == s[i - 4] && (front + t)[i] == t[i - 4];
    }
  }

  // What a text decodes to is encoded as that text, up to the bits that are not looked at.
  lemma {:induction false} DecodeThenEncode(s: seq<byte>)
    requires DecodeSymbols(s).Some? && AllSymbols(s)
    ensures AllSymbols(Encode(DecodeSymbols(s).value)) && SameButSpareBits(s, Encode(DecodeSymbols(s).value))
  {
    hide DecodeSymbols, Encode, SymbolValue, IsSymbol, Symbol, Block, SameButSpareBits;
    if |s| < 4 {
      ShortRead(s);
    } else {
      var w, x, y, z, rest := s[0], s[1], s[2], s[3], s[4..];
      TakeFour(s);
      DecodeFour(w, x, y, z, rest);
      DecodeThenEncode(rest);
      BlockRead(w, x, y, z);
      BlocksConcat(SymbolValue(w) * 4 + SymbolValue(x) / 16, SymbolValue(x) % 16 * 16 + SymbolValue(y) / 4,
                   SymbolValue(y) % 4 * 64 + SymbolValue(z), DecodeSymbols(rest).value);
      SparesBehindBlock([w, x, y, z], rest, Encode(DecodeSymbols(rest).value));
    }
  }
}
