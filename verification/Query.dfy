// Query components (section 3.4 of RFC 3986) as url.ParseQuery reads them and Values.Encode
// writes them. The multimap of the original is the list of its bindings: only the order of the
// values of one key is observable.
module Query {
  import opened Wrappers
  import opened Bytes
  import opened Sequences
  import opened Splitting
  import opened Percent

  const AMPERSAND: byte := '&' as int
  const EQUALS: byte := '=' as int
  const SEMICOLON: byte := ';' as int

  datatype Binding = Binding(key: bytes, value: bytes)

  // The text up to the first separator and the text behind it, which is empty if there is none.
  function Cut(s: bytes, sep: byte): (bytes, bytes) {
    if s == [] then ([], [])
    else if s[0] == sep then ([], s[1..])
    else
      var (before, after) := Cut(s[1..], sep);
      ([s[0]] + before, after)
  }

  // Empty pieces, pieces with a semicolon and malformed escapes are dropped.
  function ParsePiece(piece: bytes): Option<Binding> {
    if piece == [] || SEMICOLON in piece then None
    else
      var (k, v) := Cut(piece, EQUALS);
      match (QueryUnescape(k), QueryUnescape(v))
      case (Some(key), Some(value)) => Some(Binding(key, value))
      case _ => None
  }

  function ParsePieces(pieces: seq<bytes>): seq<Binding> {
    if pieces == [] then []
    else
      (match ParsePiece(pieces[0]) case None => [] case Some(b) => [b]) + ParsePieces(pieces[1..])
  }

  function ParseQuery(raw: bytes): seq<Binding> {
    ParsePieces(Split(raw, AMPERSAND))
  }

  function Values(bs: seq<Binding>, key: bytes): seq<bytes> {
    if bs == [] then [] else (if bs[0].key == key then [bs[0].value] else []) + Values(bs[1..], key)
  }

  // Get: the first value, or the empty string.
  function Get(bs: seq<Binding>, key: bytes): bytes {
    if Values(bs, key) == [] then [] else Values(bs, key)[0]
  }

  function Del(bs: seq<Binding>, key: bytes): seq<Binding> {
    if bs == [] then [] else (if bs[0].key == key then [] else [bs[0]]) + Del(bs[1..], key)
  }

  predicate Leq(a: bytes, b: bytes) {
    !Less(b, a)
  }

  // Encode writes the keys in order and the values of a key as they stand: a stable sort.
  function Insert(b: Binding, bs: seq<Binding>): seq<Binding> {
    if bs == [] || Leq(b.key, bs[0].key) then [b] + bs else [bs[0]] + Insert(b, bs[1..])
  }

  function Sort(bs: seq<Binding>): seq<Binding> {
    if bs == [] then [] else Insert(bs[0], Sort(bs[1..]))
  }

  function Piece(b: Binding): bytes {
    QueryEscape(b.key) + [EQUALS] + QueryEscape(b.value)
  }

  function Pieces(bs: seq<Binding>): (ps: seq<bytes>)
    ensures |ps| == |bs|
  {
    if bs == [] then [] else [Piece(bs[0])] + Pieces(bs[1..])
  }

  function Encode(bs: seq<Binding>): bytes {
    Join(Pieces(Sort(bs)), AMPERSAND)
  }

  // ---------------------------------------------------------------- order of keys

  lemma {:induction false} LeqTotal(a: bytes, b: bytes)
    ensures Leq(a, b) || Leq(b, a)
  {
    if a != [] && b != [] {
      LeqTotal(a[1..], b[1..]);
    }
  }

  predicate IsSorted(bs: seq<Binding>) {
    forall i :: 0 <= i < |bs| - 1 ==> Leq(bs[i].key, bs[i + 1].key)
  }

  lemma {:induction false} InsertSorts(b: Binding, bs: seq<Binding>)
    requires IsSorted(bs)
    ensures IsSorted(Insert(b, bs))
    ensures Insert(b, bs) != [] && (Insert(b, bs)[0] == b || (bs != [] && Insert(b, bs)[0] == bs[0]))
  {
    if bs != [] && !Leq(b.key, bs[0].key) {
      LeqTotal(b.key, bs[0].key);
      InsertSorts(b, bs[1..]);
      assert bs[1..] != [] ==> Leq(bs[0].key, bs[1].key);
    }
  }

  lemma {:induction false} SortSorts(bs: seq<Binding>)
    ensures IsSorted(Sort(bs))
  {
    if bs != [] {
      SortSorts(bs[1..]);
      InsertSorts(bs[0], Sort(bs[1..]));
    }
  }

  lemma {:induction false} SortOfSorted(bs: seq<Binding>)
    requires IsSorted(bs)
    ensures Sort(bs) == bs
  {
    if bs != [] {
      SortOfSorted(bs[1..]);
      assert |bs| > 1 ==> Leq(bs[0].key, bs[1].key);
      assert bs == [bs[0]] + bs[1..];
    }
  }

  // The keys ascend in the order of strings.
  lemma SortAscends(bs: seq<Binding>, i: nat)
    requires i + 1 < |bs|
    ensures |Sort(bs)| == |bs|
    ensures Sort(bs)[i].key == Sort(bs)[i + 1].key || Less(Sort(bs)[i].key, Sort(bs)[i + 1].key)
  {
    SortSorts(bs);
    SortLength(bs);
    hide Sort;
    assert Leq(Sort(bs)[i].key, Sort(bs)[i + 1].key);
    LessTotal(Sort(bs)[i].key, Sort(bs)[i + 1].key);
  }

  lemma {:induction false} SortLength(bs: seq<Binding>)
    ensures |Sort(bs)| == |bs|
  {
    if bs != [] {
      SortLength(bs[1..]);
      InsertLength(bs[0], Sort(bs[1..]));
    }
  }

  lemma {:induction false} InsertLength(b: Binding, bs: seq<Binding>)
    ensures |Insert(b, bs)| == |bs| + 1
  {
    if bs != [] && !Leq(b.key, bs[0].key) {
      InsertLength(b, bs[1..]);
    }
  }

  // ---------------------------------------------------------------- what the operations keep

  lemma {:induction false} ValuesConcat(a: seq<Binding>, b: seq<Binding>, key: bytes)
    ensures Values(a + b, key) == Values(a, key) + Values(b, key)
  {
    if a == [] {
      assert a + b == b;
    } else {
      var h := if a[0].key == key then [a[0].value] else [];
      ValuesConcat(a[1..], b, key);
      assert (a + b)[0] == a[0] && (a + b)[1..] == a[1..] + b;
      Regroup(h, Values(a[1..], key), Values(b, key));
    }
  }

  lemma ValuesCons(b: Binding, bs: seq<Binding>, key: bytes)
    ensures Values([b] + bs, key) == if b.key == key then [b.value] + Values(bs, key) else Values(bs, key)
  {
    assert ([b] + bs)[1..] == bs;
  }

  lemma {:induction false} InsertKeeps(b: Binding, bs: seq<Binding>, key: bytes)
    ensures Values(Insert(b, bs), key) == if b.key == key then [b.value] + Values(bs, key) else Values(bs, key)
  {
    if bs == [] || Leq(b.key, bs[0].key) {
      ValuesCons(b, bs, key);
    } else {
      LeqReflexive(b.key);
      InsertKeeps(b, bs[1..], key);
      assert Insert(b, bs) == [bs[0]] + Insert(b, bs[1..]) && b.key != bs[0].key;
      hide *;
      ValuesCons(bs[0], Insert(b, bs[1..]), key);
      ValuesCons(bs[0], bs[1..], key);
      HeadAndTail(bs);
    }
  }

  lemma LeqReflexive(a: bytes)
    ensures Leq(a, a)
  {
    LeqTotal(a, a);
  }

  // Sorting by key leaves the values of every key in their order.
  lemma {:induction false} SortKeeps(bs: seq<Binding>, key: bytes)
    ensures Values(Sort(bs), key) == Values(bs, key)
  {
    if bs != [] {
      SortKeeps(bs[1..], key);
      InsertKeeps(bs[0], Sort(bs[1..]), key);
    }
  }

  lemma {:induction false} DelKeeps(bs: seq<Binding>, gone: bytes, key: bytes)
    ensures Values(Del(bs, gone), key) == if key == gone then [] else Values(bs, key)
  {
    if bs != [] {
      DelKeeps(bs[1..], gone, key);
      if bs[0].key != gone {
        assert Del(bs, gone)[1..] == Del(bs[1..], gone);
      } else {
        assert Del(bs, gone) == Del(bs[1..], gone);
      }
    }
  }

  lemma {:induction false} DelConcat(a: seq<Binding>, b: seq<Binding>, key: bytes)
    ensures Del(a + b, key) == Del(a, key) + Del(b, key)
  {
    if a == [] {
      assert a + b == b;
    } else {
      var h := if a[0].key == key then [] else [a[0]];
      DelConcat(a[1..], b, key);
      assert (a + b)[0] == a[0] && (a + b)[1..] == a[1..] + b;
      Regroup(h, Del(a[1..], key), Del(b, key));
    }
  }

  lemma {:induction false} DelAbsent(bs: seq<Binding>, key: bytes)
    requires Values(bs, key) == []
    ensures Del(bs, key) == bs
  {
    if bs != [] {
      DelAbsent(bs[1..], key);
      assert bs == [bs[0]] + bs[1..];
    }
  }

  // ---------------------------------------------------------------- encoding and parsing

  lemma {:induction false} CutAt(before: bytes, after: bytes, sep: byte)
    requires sep !in before
    ensures Cut(before + [sep] + after, sep) == (before, after)
  {
    var s := before + [sep] + after;
    if before == [] {
      assert s[1..] == after;
    } else {
      CutAt(before[1..], after, sep);
      assert s[0] == before[0] && s[1..] == before[1..] + [sep] + after;
      assert before == [before[0]] + before[1..];
    }
  }

  lemma EscapedHasNo(s: bytes, c: byte)
    requires !IsEscaped(c)
    ensures c !in QueryEscape(s)
  {
    EscapeYields(s);
  }

  lemma PieceRoundTrip(b: Binding)
    ensures ParsePiece(Piece(b)) == Some(b)
    ensures AMPERSAND !in Piece(b)
  {
    var k, v := QueryEscape(b.key), QueryEscape(b.value);
    EscapedHasNo(b.key, EQUALS);
    EscapedHasNo(b.key, SEMICOLON);
    EscapedHasNo(b.value, SEMICOLON);
    EscapedHasNo(b.key, AMPERSAND);
    EscapedHasNo(b.value, AMPERSAND);
    CutAt(k, v, EQUALS);
    RoundTrip(b.key);
    RoundTrip(b.value);
    assert Piece(b)[|k|] == EQUALS;
  }

  lemma PieceInFront(b: Binding, rest: seq<bytes>)
    ensures ParsePieces([Piece(b)] + rest) == [b] + ParsePieces(rest)
  {
    PieceRoundTrip(b);
    hide Piece, ParsePiece;
    assert ([Piece(b)] + rest)[1..] == rest;
  }

  lemma {:induction false} PiecesRoundTrip(bs: seq<Binding>)
    ensures ParsePieces(Pieces(bs)) == bs
    ensures Separates(Pieces(bs), AMPERSAND)
  {
    if bs != [] {
      PiecesRoundTrip(bs[1..]);
      PieceRoundTrip(bs[0]);
      PieceInFront(bs[0], Pieces(bs[1..]));
      hide Piece, ParsePiece, ParsePieces;
      assert Pieces(bs) == [Piece(bs[0])] + Pieces(bs[1..]);
      assert bs == [bs[0]] + bs[1..];
    }
  }

  // Parsing what was encoded gives the bindings in key order.
  lemma EncodeRoundTrip(bs: seq<Binding>)
    ensures ParseQuery(Encode(bs)) == Sort(bs)
  {
    var sorted := Sort(bs);
    PiecesRoundTrip(sorted);
    if sorted == [] {
      EmptyQuery();
    } else {
      SplitOfJoin(Pieces(sorted), AMPERSAND);
    }
  }

  lemma EmptyQuery()
    ensures ParseQuery([]) == []
  {
    ParseSingle([]);
  }

  lemma {:induction false} ParsePiecesConcat(a: seq<bytes>, b: seq<bytes>)
    ensures ParsePieces(a + b) == ParsePieces(a) + ParsePieces(b)
  {
    if a == [] {
      assert a + b == b;
    } else {
      hide ParsePiece;
      var h := match ParsePiece(a[0]) case None => [] case Some(x) => [x];
      ParsePiecesConcat(a[1..], b);
      assert (a + b)[0] == a[0] && (a + b)[1..] == a[1..] + b;
      Regroup(h, ParsePieces(a[1..]), ParsePieces(b));
    }
  }

  // One query behind another.
  lemma ParseConcat(a: bytes, b: bytes)
    ensures ParseQuery(a + [AMPERSAND] + b) == ParseQuery(a) + ParseQuery(b)
  {
    SplitAt(a, b, AMPERSAND);
    ParsePiecesConcat(Split(a, AMPERSAND), Split(b, AMPERSAND));
  }

  lemma ParseSingle(piece: bytes)
    ensures ParsePieces([piece]) == (match ParsePiece(piece) case None => [] case Some(b) => [b])
  {
    assert [piece][1..] == [];
  }

  lemma ParseOnePiece(piece: bytes)
    requires AMPERSAND !in piece
    ensures ParseQuery(piece) == match ParsePiece(piece) case None => [] case Some(b) => [b]
  {
    SplitNone(piece, AMPERSAND);
    ParseSingle(piece);
  }

  // ---------------------------------------------------------------- lengths

  // The separator that ends the first part is the first one.
  lemma {:induction false} CutIs(s: bytes, sep: byte)
    ensures sep !in Cut(s, sep).0
    ensures if sep in s then s == Cut(s, sep).0 + [sep] + Cut(s, sep).1 else Cut(s, sep) == (s, [])
  {
    if s != [] {
      assert s == [s[0]] + s[1..];
      if s[0] != sep {
        CutIs(s[1..], sep);
        var (before, after) := Cut(s[1..], sep);
        assert sep in s ==> s == [s[0]] + before + [sep] + after;
      }
    }
  }

  // A prefix without the separator stays in front.
  lemma {:induction false} CutPrefix(a: bytes, s: bytes, sep: byte)
    requires sep !in a
    ensures Cut(a + s, sep) == (a + Cut(s, sep).0, Cut(s, sep).1)
  {
    if a == [] {
      assert a + s == s && a + Cut(s, sep).0 == Cut(s, sep).0;
    } else {
      CutPrefix(a[1..], s, sep);
      assert (a + s)[0] == a[0] && (a + s)[1..] == a[1..] + s;
      assert [a[0]] + (a[1..] + Cut(s, sep).0) == a + Cut(s, sep).0;
    }
  }

  // A separator in a prefix cuts there.
  lemma {:induction false} CutWithin(a: bytes, s: bytes, sep: byte)
    requires sep in a
    ensures Cut(a + s, sep).0 == Cut(a, sep).0 && |Cut(a, sep).0| < |a|
  {
    assert a == [a[0]] + a[1..];
    assert (a + s)[0] == a[0] && (a + s)[1..] == a[1..] + s;
    if a[0] != sep {
      CutWithin(a[1..], s, sep);
    }
  }

  predicate Fits(b: Binding, n: nat) {
    |b.key| <= n && |b.value| <= n
  }

  lemma PieceFits(piece: bytes)
    ensures ParsePiece(piece).Some? ==> Fits(ParsePiece(piece).value, |piece|)
  {
    CutIs(piece, EQUALS);
    var (k, v) := Cut(piece, EQUALS);
    if QueryUnescape(k).Some? && QueryUnescape(v).Some? {
      UnescapeShortens(k);
      UnescapeShortens(v);
    }
  }

  lemma {:induction false} PiecesFit(pieces: seq<bytes>, n: nat)
    requires forall piece :: piece in pieces ==> |piece| <= n
    ensures forall b :: b in ParsePieces(pieces) ==> Fits(b, n)
  {
    if pieces != [] {
      PieceFits(pieces[0]);
      PiecesFit(pieces[1..], n);
      hide ParsePiece;
    }
  }

  // No key and no value of a query is longer than its text.
  lemma BindingsFit(raw: bytes)
    ensures forall b :: b in ParseQuery(raw) ==> Fits(b, |raw|)
  {
    PartsFit(raw, AMPERSAND);
    PiecesFit(Split(raw, AMPERSAND), |raw|);
  }

  lemma {:induction false} ValuesAre(bs: seq<Binding>, key: bytes)
    ensures forall v :: v in Values(bs, key) <==> Binding(key, v) in bs
  {
    if bs != [] {
      ValuesAre(bs[1..], key);
      assert bs == [bs[0]] + bs[1..];
    }
  }

  lemma EmptyIff(values: seq<bytes>)
    ensures values == [] <==> forall v :: v !in values
  {
    if values != [] {
      assert values[0] in values;
    }
  }

  lemma LongKeyAbsent(raw: bytes, key: bytes)
    requires |raw| < |key|
    ensures Values(ParseQuery(raw), key) == []
  {
    BindingsFit(raw);
    ValuesAre(ParseQuery(raw), key);
    EmptyIff(Values(ParseQuery(raw), key));
    hide ParseQuery, Values;
  }

  // ---------------------------------------------------------------- unescaped keys

  predicate PlainKey(k: bytes) {
    AMPERSAND !in k && EQUALS !in k && SEMICOLON !in k && PERCENT !in k && PLUS !in k
  }

  // A plain key is read back, with whatever the text behind it decodes to.
  lemma PlainPiece(k: bytes, w: bytes)
    requires PlainKey(k)
    ensures ParsePiece(k + [EQUALS] + w)
         == if SEMICOLON in w then None else match QueryUnescape(w) case None => None case Some(v) => Some(Binding(k, v))
  {
    var piece := k + [EQUALS] + w;
    PlainIff(k);
    CutAt(k, w, EQUALS);
    hide QueryUnescape, Cut;
    assert piece[|k|] == EQUALS;
    assert SEMICOLON in piece <==> SEMICOLON in w;
  }

  // A key alone is bound to the empty value, and empty pieces are no bindings.
  lemma BareKey(k: bytes)
    requires PlainKey(k) && k != []
    ensures ParseQuery(k) == [Binding(k, [])]
  {
    PlainIff(k);
    CutIs(k, EQUALS);
    ParseOnePiece(k);
    hide ParseQuery, Cut;
    assert QueryUnescape([]) == Some([]);
  }

  lemma EmptyPiece(a: bytes, b: bytes)
    ensures ParseQuery(a + [AMPERSAND] + [AMPERSAND] + b) == ParseQuery(a + [AMPERSAND] + b)
  {
    ParseConcat(a + [AMPERSAND], b);
    ParseConcat(a, b);
    ParseConcat(a, []);
    EmptyQuery();
    hide ParseQuery;
    assert a + [AMPERSAND] + [] == a + [AMPERSAND];
  }

  // Otherwise the piece is dropped, or its key comes out shorter, or it is another key.
  lemma PieceKey(k: bytes, w: bytes)
    ensures var b := ParsePiece(k + [EQUALS] + w);
            b.Some? ==> |b.value.key| <= |k| && (b.value.key == k ==> EQUALS !in k && SEMICOLON !in k && PERCENT !in k && PLUS !in k)
  {
    var piece := k + [EQUALS] + w;
    var before := Cut(piece, EQUALS).0;
    if EQUALS in k {
      CutWithin(k, [EQUALS] + w, EQUALS);
      assert piece == k + ([EQUALS] + w);
    } else {
      CutAt(k, w, EQUALS);
    }
    if QueryUnescape(before).Some? {
      UnescapeShortens(before);
      PlainIff(k);
    }
    hide QueryUnescape, Cut;
    assert SEMICOLON in k ==> SEMICOLON in piece;
  }

  lemma {:induction false} LastSeparator(s: bytes, sep: byte) returns (a: bytes, b: bytes)
    requires sep in s
    ensures s == a + [sep] + b && sep !in b
  {
    if sep in s[1..] {
      a, b := LastSeparator(s[1..], sep);
      a := [s[0]] + a;
    } else {
      a, b := [], s[1..];
    }
  }

  lemma ValuesOfPiece(piece: bytes, key: bytes)
    requires AMPERSAND !in piece
    ensures var b := ParsePiece(piece); Values(ParseQuery(piece), key) == if b.Some? && b.value.key == key then [b.value.value] else []
  {
    ParseOnePiece(piece);
    hide ParseQuery, ParsePiece;
    assert forall b: Binding :: [b][1..] == [];
  }

  lemma RawTail(a: bytes, b: bytes, w: bytes, k: bytes)
    requires k == a + [AMPERSAND] + b && AMPERSAND !in b && AMPERSAND !in w
    ensures Values(ParseQuery(k + [EQUALS] + w), k) == []
  {
    var rest := b + [EQUALS] + w;
    LongKeyAbsent(a, k);
    PieceKey(b, w);
    ValuesOfPiece(rest, k);
    ParseConcat(a, rest);
    ValuesConcat(ParseQuery(a), ParseQuery(rest), k);
    hide *;
    Regroup(a + [AMPERSAND], b, [EQUALS]);
    Regroup(a + [AMPERSAND], b + [EQUALS], w);
  }

  // A key written without escaping, with an escaped value, is bound to that value exactly if it
  // is plain, and to nothing otherwise.
  lemma RawKeyValues(k: bytes, v: bytes)
    ensures Values(ParseQuery(k + [EQUALS] + QueryEscape(v)), k) == if PlainKey(k) then [v] else []
  {
    var w := QueryEscape(v);
    EscapedHasNo(v, AMPERSAND);
    EscapedHasNo(v, SEMICOLON);
    RoundTrip(v);
    hide ParseQuery, ParsePiece, QueryEscape, QueryUnescape, Values;
    if AMPERSAND in k {
      var a, b := LastSeparator(k, AMPERSAND);
      RawTail(a, b, w, k);
    } else {
      PieceKey(k, w);
      ValuesOfPiece(k + [EQUALS] + w, k);
      if PlainKey(k) {
        PlainPiece(k, w);
      }
    }
  }

  // The characters that change a value written without escaping.
  predicate PlainValue(w: bytes) {
    AMPERSAND !in w && SEMICOLON !in w && PERCENT !in w && PLUS !in w
  }

  lemma {:induction false} ShortValue(k: bytes, a: bytes)
    requires PlainKey(k) && AMPERSAND !in a
    ensures forall x :: x in ParseQuery(k + [EQUALS] + a) ==> |x.value| <= |a|
  {
    PlainPiece(k, a);
    ParseOnePiece(k + [EQUALS] + a);
    if QueryUnescape(a).Some? {
      UnescapeShortens(a);
    }
    hide ParseQuery, ParsePiece, QueryUnescape;
  }

  // An ampersand divides an unescaped value.
  lemma DividedValue(k: bytes, w: bytes)
    requires AMPERSAND in w
    ensures var (a, b) := Cut(w, AMPERSAND);
            && AMPERSAND !in a && |a| < |w| && |b| < |w|
            && ParseQuery(k + [EQUALS] + w) == ParseQuery(k + [EQUALS] + a) + ParseQuery(b)
  {
    CutIs(w, AMPERSAND);
    var (a, b) := Cut(w, AMPERSAND);
    hide Cut;
    Regroup(k + [EQUALS], a, [AMPERSAND]);
    Regroup(k + [EQUALS], a + [AMPERSAND], b);
    ParseConcat(k + [EQUALS] + a, b);
  }

  lemma RawValuesFit(k: bytes, w: bytes)
    requires PlainKey(k)
    ensures forall x :: x in ParseQuery(k + [EQUALS] + w) ==> |x.value| <= |w| && (AMPERSAND in w ==> |x.value| < |w|)
  {
    if AMPERSAND in w {
      DividedValue(k, w);
      ShortValue(k, Cut(w, AMPERSAND).0);
      BindingsFit(Cut(w, AMPERSAND).1);
      hide ParseQuery, Cut;
    } else {
      ShortValue(k, w);
    }
  }

  lemma LongValueAbsent(bs: seq<Binding>, k: bytes, w: bytes)
    requires w != [] && forall x :: x in bs ==> |x.value| < |w|
    ensures Get(bs, k) != w
  {
    ValuesAre(bs, k);
    hide Values;
    if Values(bs, k) != [] {
      assert Values(bs, k)[0] in Values(bs, k);
      assert Binding(k, Get(bs, k)) in bs;
    }
  }

  // A value written without escaping behind a plain key is read back exactly if it is plain.
  lemma RawValueIff(k: bytes, w: bytes)
    requires PlainKey(k)
    ensures Get(ParseQuery(k + [EQUALS] + w), k) == w <==> PlainValue(w)
  {
    hide ParseQuery, ParsePiece, QueryUnescape, Values;
    if AMPERSAND in w {
      RawValuesFit(k, w);
      LongValueAbsent(ParseQuery(k + [EQUALS] + w), k, w);
    } else {
      PlainPiece(k, w);
      PlainIff(w);
      ValuesOfPiece(k + [EQUALS] + w, k);
    }
  }

  // An ampersand ends the value.
  lemma AmpersandEnds(k: bytes, a: bytes, x: bytes)
    requires PlainKey(k) && PlainValue(a)
    ensures Get(ParseQuery(k + [EQUALS] + (a + [AMPERSAND] + x)), k) == a
  {
    Regroup(k + [EQUALS], a, [AMPERSAND]);
    Regroup(k + [EQUALS], a + [AMPERSAND], x);
    ParseConcat(k + [EQUALS] + a, x);
    PlainPiece(k, a);
    PlainIff(a);
    ValuesOfPiece(k + [EQUALS] + a, k);
    hide ParseQuery, ParsePiece, QueryUnescape;
    ValuesConcat(ParseQuery(k + [EQUALS] + a), ParseQuery(x), k);
  }
}
