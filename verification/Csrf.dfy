// NewCsrf and VerifyCsrf. HMAC-SHA256 is any function of a key and a message; random bytes and
// clock readings are parameters.
module Csrf {
  import opened Wrappers
  import opened Splitting
  import opened Bytes
  import opened Base64Url
  import Decimal

  type Mac = (seq<byte>, seq<byte>) -> seq<byte>

  const DOT: byte := '.' as int
  const COLON: byte := ':' as int

  datatype CsrfError = InvalidFormat | InvalidSignature | InvalidPayload | InvalidExpiryEncoding | InvalidExpiryValue | Expired

  datatype Verdict = Accepted | Rejected(error: CsrfError)

  // Seconds of an instant given in nanoseconds, as an int64.
  function Unix(nanos: int): (s: int)
    ensures Decimal.InInt64(s)
  {
    (nanos / 1_000_000_000 + 0x8000_0000_0000_0000) % 0x1_0000_0000_0000_0000 - 0x8000_0000_0000_0000
  }

  function Signed(mac: Mac, secret: seq<byte>, payload: seq<byte>): seq<byte> {
    payload + [DOT] + Encode(mac(secret, payload))
  }

  function PayloadWithExpiry(random: seq<byte>, expiry: int): seq<byte> {
    Encode(random) + [COLON] + Encode(Decimal.FormatInt(expiry))
  }

  function NewCsrf(mac: Mac, secret: seq<byte>, random: seq<byte>, now: int, duration: int): seq<byte> {
    Signed(mac, secret, PayloadWithExpiry(random, Unix(now + duration)))
  }

  function VerifyCsrf(mac: Mac, secret: seq<byte>, token: seq<byte>, now: int): Verdict {
    var parts := Split(token, DOT);
    if |parts| != 2 then Rejected(InvalidFormat)
    else if parts[1] != Encode(mac(secret, parts[0])) then Rejected(InvalidSignature)
    else VerifyPayload(parts[0], now)
  }

  function VerifyPayload(payload: seq<byte>, now: int): Verdict {
    var parts := Split(payload, COLON);
    if |parts| != 2 then Rejected(InvalidPayload)
    else
      match Decode(parts[1])
      case None => Rejected(InvalidExpiryEncoding)
      case Some(bytes) =>
        match Decimal.ParseInt(bytes)
        case None => Rejected(InvalidExpiryValue)
        case Some(expiry) => if Unix(now) > expiry then Rejected(Expired) else Accepted
  }

  // ---------------------------------------------------------------- minting and verifying

  lemma SymbolsHoldNoSeparator(s: seq<byte>)
    requires AllSymbols(s)
    ensures DOT !in s && COLON !in s
  {
  }

  lemma EncodedHasNoSeparator(data: seq<byte>)
    ensures DOT !in Encode(data) && COLON !in Encode(data)
  {
    EncodeIsSymbols(data);
    SymbolsHoldNoSeparator(Encode(data));
  }

  // Exactly two parts, recovered as they were put together.
  lemma TwoParts(a: seq<byte>, b: seq<byte>, sep: byte)
    requires sep !in a && sep !in b
    ensures Split(a + [sep] + b, sep) == [a, b]
  {
    SplitHead(a, b, sep);
    SplitNone(b, sep);
  }

  lemma MintedPayload(random: seq<byte>, expiry: int, now: int)
    requires Decimal.InInt64(expiry)
    ensures VerifyPayload(PayloadWithExpiry(random, expiry), now) == if Unix(now) > expiry then Rejected(Expired) else Accepted
    ensures DOT !in PayloadWithExpiry(random, expiry)
  {
    var bytes := Decimal.FormatInt(expiry);
    EncodedHasNoSeparator(random);
    EncodedHasNoSeparator(bytes);
    TwoParts(Encode(random), Encode(bytes), COLON);
    RoundTrip(bytes);
    Decimal.RoundTrip(expiry);
  }

  // A minted token passes under the same secret exactly until its expiry second is over, and
  // under another secret exactly if both secrets sign its payload alike.
  lemma MintedThenVerified(mac: Mac, secret: seq<byte>, random: seq<byte>, minted: int, duration: int, verifier: seq<byte>, now: int)
    ensures var payload := PayloadWithExpiry(random, Unix(minted + duration));
            VerifyCsrf(mac, verifier, NewCsrf(mac, secret, random, minted, duration), now)
            == if mac(verifier, payload) != mac(secret, payload) then Rejected(InvalidSignature)
               else if Unix(now) > Unix(minted + duration) then Rejected(Expired)
               else Accepted
  {
    var payload := PayloadWithExpiry(random, Unix(minted + duration));
    MintedPayload(random, Unix(minted + duration), now);
    EncodedHasNoSeparator(mac(secret, payload));
    hide PayloadWithExpiry, VerifyPayload, Encode, Unix;
    TwoParts(payload, Encode(mac(secret, payload)), DOT);
    EncodeInjective(mac(verifier, payload), mac(secret, payload));
  }

  // ---------------------------------------------------------------- what an accepted token is

  // The token is payload ":" expiry "." signature, correctly signed, and not yet expired.
  ghost predicate WellSigned(mac: Mac, secret: seq<byte>, token: seq<byte>, now: int, head: seq<byte>, tail: seq<byte>) {
    && token == Signed(mac, secret, head + [COLON] + tail)
    && DOT !in head && COLON !in head && DOT !in tail && COLON !in tail
    && Decode(tail).Some? && Decimal.ParseInt(Decode(tail).value).Some?
    && Unix(now) <= Decimal.ParseInt(Decode(tail).value).value
  }

  lemma AcceptedIff(mac: Mac, secret: seq<byte>, token: seq<byte>, now: int)
    ensures VerifyCsrf(mac, secret, token, now) == Accepted <==> exists head, tail :: WellSigned(mac, secret, token, now, head, tail)
  {
    if VerifyCsrf(mac, secret, token, now) == Accepted {
      SplitInTwo(token, DOT);
      var payload := Split(token, DOT)[0];
      SplitInTwo(payload, COLON);
      var parts := Split(payload, COLON);
      hide Split, Encode, Unix, Decode, Decimal.ParseInt;
      assert WellSigned(mac, secret, token, now, parts[0], parts[1]);
    }
    if head, tail :| WellSigned(mac, secret, token, now, head, tail) {
      var payload := head + [COLON] + tail;
      EncodedHasNoSeparator(mac(secret, payload));
      hide Split, Encode, Unix, Decode, Decimal.ParseInt;
      TwoParts(payload, Encode(mac(secret, payload)), DOT);
      TwoParts(head, tail, COLON);
    }
  }

  // Two accepted tokens that agree up to the dot are the same token.
  lemma SignatureIsDetermined(mac: Mac, secret: seq<byte>, a: seq<byte>, b: seq<byte>, now: int)
    requires VerifyCsrf(mac, secret, a, now) == Accepted && VerifyCsrf(mac, secret, b, now) == Accepted
    requires Split(a, DOT)[0] == Split(b, DOT)[0]
    ensures a == b
  {
    SplitInTwo(a, DOT);
    SplitInTwo(b, DOT);
  }

  // ---------------------------------------------------------------- what a minted token is

  // s is a and b with one separator between them.
  predicate IsPair(s: seq<byte>, sep: char, a: seq<byte>, b: seq<byte>)
    requires sep < '\U{80}'
  {
    var c: byte := sep as int;
    s == a + [c] + b && c !in a && c !in b
  }

  // The second the instant is in.
  lemma UnixIs(nanos: int)
    requires Decimal.InInt64(nanos / 1_000_000_000)
    ensures Unix(nanos) * 1_000_000_000 <= nanos < (Unix(nanos) + 1) * 1_000_000_000
  {
  }

  // The parts of a token: encoded random bytes, the encoded second of expiry in decimal, and the
  // encoded signature of both.
  ghost predicate Minted(mac: Mac, secret: seq<byte>, random: seq<byte>, second: int, token: seq<byte>,
                         payload: seq<byte>, signature: seq<byte>, nonce: seq<byte>, expiry: seq<byte>) {
    && IsPair(token, '.', payload, signature) && IsPair(payload, ':', nonce, expiry)
    && Decode(nonce) == Some(random) && Decode(expiry) == Some(Decimal.FormatInt(second)) && Decode(signature) == Some(mac(secret, payload))
  }

  lemma MintedToken(mac: Mac, secret: seq<byte>, random: seq<byte>, now: int, duration: int)
    ensures var token, second := NewCsrf(mac, secret, random, now, duration), Unix(now + duration);
            exists payload, signature, nonce, expiry :: Minted(mac, secret, random, second, token, payload, signature, nonce, expiry)
  {
    var number := Decimal.FormatInt(Unix(now + duration));
    var nonce, expiry := Encode(random), Encode(number);
    var payload := nonce + [COLON] + expiry;
    var signature := Encode(mac(secret, payload));
    EncodedHasNoSeparator(random);
    EncodedHasNoSeparator(number);
    EncodedHasNoSeparator(mac(secret, payload));
    RoundTrip(random);
    RoundTrip(number);
    RoundTrip(mac(secret, payload));
    hide Encode, Decode, Unix, Decimal.FormatInt;
    assert NewCsrf(mac, secret, random, now, duration) == payload + [DOT] + signature;
    assert Minted(mac, secret, random, Unix(now + duration), payload + [DOT] + signature, payload, signature, nonce, expiry);
  }

  lemma PairIsUnique(s: seq<byte>, sep: char, a: seq<byte>, b: seq<byte>, c: seq<byte>, d: seq<byte>)
    requires sep < '\U{80}' && IsPair(s, sep, a, b) && IsPair(s, sep, c, d)
    ensures a == c && b == d
  {
    TwoParts(a, b, sep as int);
    TwoParts(c, d, sep as int);
  }

  // So the token tells the random bytes and the second of expiry.
  lemma MintedTokensDiffer(mac: Mac, secret: seq<byte>, random: seq<byte>, now: int, duration: int,
                           secret': seq<byte>, random': seq<byte>, now': int, duration': int)
    requires NewCsrf(mac, secret, random, now, duration) == NewCsrf(mac, secret', random', now', duration')
    ensures random == random' && Unix(now + duration) == Unix(now' + duration')
  {
    var token := NewCsrf(mac, secret, random, now, duration);
    MintedToken(mac, secret, random, now, duration);
    MintedToken(mac, secret', random', now', duration');
    var second, second' := Unix(now + duration), Unix(now' + duration');
    hide Encode, Decode, Unix, Decimal.FormatInt, NewCsrf, IsPair, Decimal.ParseInt;
    var p, s, n, e :| Minted(mac, secret, random, second, token, p, s, n, e);
    var p', s', n', e' :| Minted(mac, secret', random', second', token, p', s', n', e');
    PairIsUnique(token, '.', p, s, p', s');
    PairIsUnique(p, ':', n, e, n', e');
    Decimal.RoundTrip(second);
    Decimal.RoundTrip(second');
  }

  // ---------------------------------------------------------------- every verdict

  lemma NoPair(s: seq<byte>, sep: char)
    requires sep < '\U{80}'
    ensures var c: byte := sep as int; |Split(s, c)| == 2 <==> exists a, b :: IsPair(s, sep, a, b)
  {
    var c: byte := sep as int;
    SplitInTwo(s, c);
    var parts := Split(s, c);
    if |parts| == 2 {
      assert IsPair(s, sep, parts[0], parts[1]);
    }
    if a, b :| IsPair(s, sep, a, b) {
      TwoParts(a, b, c);
    }
  }

  lemma PairSplits(s: seq<byte>, sep: char, a: seq<byte>, b: seq<byte>)
    requires sep < '\U{80}' && IsPair(s, sep, a, b)
    ensures var c: byte := sep as int; Split(s, c) == [a, b]
  {
    var c: byte := sep as int;
    TwoParts(a, b, c);
  }

  // A token that is no pair, or whose signed part is none.
  lemma MalformedIff(mac: Mac, secret: seq<byte>, token: seq<byte>, now: int)
    ensures VerifyCsrf(mac, secret, token, now) == Rejected(InvalidFormat) <==> !exists a, b :: IsPair(token, '.', a, b)
    ensures VerifyCsrf(mac, secret, token, now) == Rejected(InvalidPayload) <==>
              exists a, b :: IsPair(token, '.', a, b) && b == Encode(mac(secret, a))
                             && !exists x, y :: IsPair(a, ':', x, y)
  {
    NoPair(token, '.');
    hide Encode, Decode, Unix, Split, IsPair;
    if a, b :| IsPair(token, '.', a, b) {
      PairSplits(token, '.', a, b);
      NoPair(a, ':');
      RoundTrip(mac(secret, a));
      forall c, d | IsPair(token, '.', c, d) ensures c == a && d == b {
        PairIsUnique(token, '.', a, b, c, d);
      }
    }
  }

  // The verdict on a token with all its parts.
  lemma VerdictIs(mac: Mac, secret: seq<byte>, token: seq<byte>, now: int, payload: seq<byte>, signature: seq<byte>, nonce: seq<byte>, expiry: seq<byte>)
    requires IsPair(token, '.', payload, signature) && IsPair(payload, ':', nonce, expiry)
    ensures VerifyCsrf(mac, secret, token, now) ==
              if signature != Encode(mac(secret, payload)) then Rejected(InvalidSignature)
              else if Decode(expiry).None? then Rejected(InvalidExpiryEncoding)
              else if Decimal.ParseInt(Decode(expiry).value).None? then Rejected(InvalidExpiryValue)
              else if Unix(now) > Decimal.ParseInt(Decode(expiry).value).value then Rejected(Expired)
              else Accepted
  {
    TwoParts(payload, signature, DOT);
    TwoParts(nonce, expiry, COLON);
    hide Encode, Decode, Unix, Decimal.ParseInt, Split;
  }
}
