// GenerateOAuth2Credentials: how long the two random strings come out.
module Credentials {
  import opened Wrappers
  import opened Bytes
  import opened Base64Url
  import Percent

  const EQUALS: byte := '=' as int

  // Padded base64url, section 5 of RFC 4648.
  function EncodePadded(data: seq<byte>): seq<byte> {
    Encode(data) + (if |data| % 3 == 1 then [EQUALS, EQUALS] else if |data| % 3 == 2 then [EQUALS] else [])
  }

  function TrimRight(s: seq<byte>, c: byte): seq<byte> {
    if s != [] && s[|s| - 1] == c then TrimRight(s[..|s| - 1], c) else s
  }

  lemma {:induction false} TrimPadding(s: seq<byte>, padding: seq<byte>)
    requires AllSymbols(s)
    requires forall k :: 0 <= k < |padding| ==> padding[k] == EQUALS
    ensures TrimRight(s + padding, EQUALS) == s
  {
    if padding == [] {
      assert s + padding == s;
    } else {
      var n := |padding| - 1;
      assert (s + padding)[..|s| + n] == s + padding[..n];
      TrimPadding(s, padding[..n]);
    }
  }

  // Stripping the padding afterwards is the unpadded encoding.
  lemma TrimmedIsUnpadded(data: seq<byte>)
    ensures TrimRight(EncodePadded(data), EQUALS) == Encode(data)
  {
    EncodeIsSymbols(data);
    TrimPadding(Encode(data), EncodePadded(data)[|Encode(data)|..]);
  }

  function HexDigit(d: int): byte
    requires 0 <= d < 16
  {
    if d < 10 then '0' as int + d else 'a' as int + (d - 10)
  }

  predicate IsLowerHex(c: byte) {
    '0' as int <= c <= '9' as int || 'a' as int <= c <= 'f' as int
  }

  function EncodeHex(data: seq<byte>): (s: seq<byte>)
    ensures |s| == 2 * |data| && forall i :: 0 <= i < |s| ==> IsLowerHex(s[i])
  {
    if data == [] then [] else [HexDigit(data[0] / 16), HexDigit(data[0] % 16)] + EncodeHex(data[1..])
  }

  // The two digits of a byte, the high one first.
  lemma {:induction false} HexPairs(data: seq<byte>, i: nat)
    requires i < |data|
    ensures Percent.IsHex(EncodeHex(data)[2 * i]) && Percent.IsHex(EncodeHex(data)[2 * i + 1])
    ensures Percent.HexValue(EncodeHex(data)[2 * i]) * 16 + Percent.HexValue(EncodeHex(data)[2 * i + 1]) == data[i]
  {
    if i > 0 {
      HexPairs(data[1..], i - 1);
    }
  }

  // So different bytes give different identifiers and secrets.
  lemma CredentialsTell(a: seq<byte>, b: seq<byte>)
    ensures EncodeHex(a) == EncodeHex(b) <==> a == b
    ensures Encode(a) == Encode(b) <==> a == b
  {
    EncodeInjective(a, b);
    if EncodeHex(a) == EncodeHex(b) {
      forall i | 0 <= i < |a| ensures a[i] == b[i] {
        HexPairs(a, i);
        HexPairs(b, i);
      }
    }
    hide EncodeHex;
  }

  // Three quarters of the requested length, encoded again, lose one character when the
  // request is one more than a multiple of four.
  lemma SecretLength(n: nat)
    ensures (4 * (n * 3 / 4) + 2) / 3 == if n % 4 == 1 then n - 1 else n
  {
    var q, r := n / 4, n % 4;
    assert n == 4 * q + r && n * 3 == 4 * (3 * q) + 3 * r;
    assert n * 3 / 4 == 3 * q + 3 * r / 4;
  }

  // All the bytes read are in it.
  ghost predicate FromBytes(credentials: (seq<byte>, seq<byte>), m: int, n: int) {
    exists id, secret :: |id| == m && |secret| == n && credentials == (EncodeHex(id), Encode(secret))
  }

  // The bytes read may be anything; each of the two reads may fail.
  method GenerateOAuth2Credentials(clientIDLength: int, clientSecretLength: int, firstRead: bool, secondRead: bool)
    returns (r: Option<(seq<byte>, seq<byte>)>)
    ensures r.Some? <==> firstRead && secondRead
    ensures r.Some? ==>
      var idLength := if clientIDLength <= 0 then 32 else clientIDLength;
      var secretLength := if clientSecretLength <= 0 then 64 else clientSecretLength;
      && |r.value.0| == idLength - idLength % 2
      && |r.value.1| == (if secretLength % 4 == 1 then secretLength - 1 else secretLength)
      && FromBytes(r.value, idLength / 2, secretLength * 3 / 4)
      && AllSymbols(r.value.1)
      && (forall i :: 0 <= i < |r.value.0| ==> IsLowerHex(r.value.0[i]))
  {
    hide Encode, EncodePadded, TrimRight, EncodeHex;
    var idLength, secretLength := clientIDLength, clientSecretLength;
    if idLength <= 0 {
      idLength := 32;
    }
    if secretLength <= 0 {
      secretLength := 64;
    }
    var idBytes := new byte[idLength / 2];
    if !firstRead {
      return None;
    }
    var id := EncodeHex(idBytes[..]);

    var secretBytes := new byte[secretLength * 3 / 4];
    if !secondRead {
      return None;
    }
    var secret := TrimRight(EncodePadded(secretBytes[..]), EQUALS);
    TrimmedIsUnpadded(secretBytes[..]);
    EncodeIsSymbols(secretBytes[..]);
    EncodeLength(secretBytes[..]);
    SecretLength(secretLength);
    assert (id, secret) == (EncodeHex(idBytes[..]), Encode(secretBytes[..]));
    return Some((id, secret));
  }
}
