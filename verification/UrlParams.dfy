// RemoveParamFromUrl, AppendParamToUrl and AppendParamsToUrl. A URL is a base, a query and a
// fragment; how the base and the fragment are parsed and printed is left to the URL library.
module UrlParams {
  import opened Wrappers
  import opened Bytes
  import opened Percent
  import opened Query
  import opened Sequences
  import opened Splitting

  const QUESTION: byte := '?' as int
  const HASH: byte := '#' as int

  // The base and the fragment as the library prints them again, or None if it rejects them.
  datatype Library = Library(base: bytes -> Option<bytes>, fragment: bytes -> Option<bytes>)

  // A printed base is free of delimiters and parses to itself; a fragment does not vanish.
  ghost predicate Laws(lib: Library) {
    && (forall b :: lib.base(b).Some? ==> var c := lib.base(b).value; QUESTION !in c && HASH !in c && lib.base(c) == Some(c))
    && (forall f :: f != [] && lib.fragment(f).Some? ==> lib.fragment(f).value != [])
  }

  // force: the URL ended in a bare question mark, which printing keeps.
  datatype Url = Url(base: bytes, force: bool, raw: bytes, fragment: bytes)

  predicate IsControl(c: byte) {
    c < 32 || c == 127
  }

  predicate NoControl(s: bytes) {
    forall i :: 0 <= i < |s| ==> !IsControl(s[i])
  }

  function Fragment(lib: Library, text: bytes): Option<bytes> {
    if text == [] then Some([]) else lib.fragment(text)
  }

  function Parse(lib: Library, input: bytes): Option<Url> {
    var (rest, fragment) := Cut(input, HASH);
    var (base, raw) := Cut(rest, QUESTION);
    if !NoControl(raw) then None else
      match (lib.base(base), Fragment(lib, fragment))
      case (Some(b), Some(f)) => Some(Url(b, QUESTION in rest && raw == [], raw, f))
      case _ => None
  }

  // The URL up to the fragment.
  function Body(u: Url): bytes {
    u.base + (if u.force || u.raw != [] then [QUESTION] + u.raw else [])
  }

  function Print(u: Url): bytes {
    Body(u) + (if u.fragment != [] then [HASH] + u.fragment else [])
  }

  function Without(u: Url, param: bytes): Url {
    u.(raw := Encode(Del(ParseQuery(u.raw), param)))
  }

  function RemoveParamFromUrl(lib: Library, input: bytes, param: bytes): Option<bytes> {
    match Parse(lib, input)
    case None => None
    case Some(u) => Some(Print(Without(u, param)))
  }

  function Separator(url: bytes): byte {
    if QUESTION in url then AMPERSAND else QUESTION
  }

  // The result of the removal is assigned to the parameter, so a URL that does not parse is
  // answered with the empty string.
  function AppendParamToUrl(lib: Library, input: bytes, param: bytes, value: bytes): bytes {
    match RemoveParamFromUrl(lib, input, param)
    case None => []
    case Some(url) => url + [Separator(url)] + param + [EQUALS] + value
  }

  // ---------------------------------------------------------------- printing and parsing again

  lemma {:induction false} JoinedIn(parts: seq<bytes>, sep: byte, c: byte)
    requires c != sep && forall k :: 0 <= k < |parts| ==> c !in parts[k]
    ensures c !in Join(parts, sep)
  {
    if |parts| > 1 {
      JoinedIn(parts[1..], sep, c);
    }
  }

  lemma {:induction false} PiecesHold(bs: seq<Binding>, c: byte)
    requires !IsEscaped(c) && c != EQUALS
    ensures forall k :: 0 <= k < |Pieces(bs)| ==> c !in Pieces(bs)[k]
  {
    if bs != [] {
      PiecesHold(bs[1..], c);
      EscapedHasNo(bs[0].key, c);
      EscapedHasNo(bs[0].value, c);
    }
  }

  // An encoded query holds no delimiter of the URL and no control character.
  lemma EncodeHolds(bs: seq<Binding>)
    ensures HASH !in Encode(bs) && QUESTION !in Encode(bs) && NoControl(Encode(bs))
  {
    forall c: byte | !IsEscaped(c) && c != EQUALS && c != AMPERSAND ensures c !in Encode(bs) {
      PiecesHold(Sort(bs), c);
      JoinedIn(Pieces(Sort(bs)), AMPERSAND, c);
    }
    hide Encode;
    var e := Encode(bs);
    forall i | 0 <= i < |e| ensures !IsControl(e[i]) {
      assert e[i] in e;
    }
  }

  lemma ParsedBase(lib: Library, input: bytes)
    requires Laws(lib) && Parse(lib, input).Some?
    ensures var u := Parse(lib, input).value;
            lib.base(u.base) == Some(u.base) && QUESTION !in u.base && HASH !in u.base && (u.force ==> u.raw == [])
  {
  }

  // ---------------------------------------------------------------- removing

  lemma PrintedParts(u: Url)
    requires QUESTION !in u.base && HASH !in u.base && HASH !in u.raw
    ensures Cut(Print(u), HASH) == (Body(u), u.fragment) && Cut(Body(u), QUESTION) == (u.base, u.raw)
  {
    if u.fragment != [] {
      Regroup(Body(u), [HASH], u.fragment);
      ParseBody(u, u.fragment);
    } else {
      ParseBody(u, []);
      CutIs(Body(u), HASH);
      assert Print(u) == Body(u);
    }
  }

  // Removing a parameter leaves base, fragment and the other parameters as they are.
  lemma RemoveKeepsRest(lib: Library, input: bytes, param: bytes, other: bytes)
    requires Laws(lib) && Parse(lib, input).Some?
    ensures var u := Parse(lib, input).value;
            var out := RemoveParamFromUrl(lib, input, param).value;
            var (rest, fragment) := Cut(out, HASH);
            var (base, raw) := Cut(rest, QUESTION);
            && base == u.base && fragment == u.fragment
            && Values(ParseQuery(raw), other) == if other == param then [] else Values(QueryOf(lib, input), other)
  {
    var u := Parse(lib, input).value;
    var rest := Del(ParseQuery(u.raw), param);
    ParsedBase(lib, input);
    EncodeHolds(rest);
    PrintedParts(Without(u, param));
    EncodeRoundTrip(rest);
    SortKeeps(rest, other);
    DelKeeps(ParseQuery(u.raw), param, other);
    hide Parse, ParseQuery, Encode, Sort, Del, Values, Cut, Print, Body, Laws;
  }

  // ---------------------------------------------------------------- appending

  // The new parameter as written, up to the first "#" in it, and what is behind that.
  function Visible(param: bytes, value: bytes): bytes {
    Cut(param + [EQUALS] + value, HASH).0
  }

  function Hidden(param: bytes, value: bytes): bytes {
    Cut(param + [EQUALS] + value, HASH).1
  }

  predicate PlainText(s: bytes) {
    HASH !in s && NoControl(s)
  }

  lemma PlainIsVisible(param: bytes, value: bytes)
    requires PlainText(param) && PlainText(value)
    ensures Visible(param, value) == param + [EQUALS] + value && NoControl(Visible(param, value)) && Hidden(param, value) == []
  {
    CutIs(param + [EQUALS] + value, HASH);
  }

  // What stands in the query before the new parameter: the remaining bindings in key order.
  function Front(u: Url, param: bytes): bytes {
    var e := Encode(Del(ParseQuery(u.raw), param));
    if u.force || e != [] then e + [AMPERSAND] else []
  }

  lemma FrontHolds(u: Url, param: bytes)
    ensures PlainText(Front(u, param))
  {
    EncodeHolds(Del(ParseQuery(u.raw), param));
    hide Encode, Del, ParseQuery;
  }

  lemma FrontQuery(u: Url, param: bytes, text: bytes)
    ensures ParseQuery(Front(u, param) + text) == Sort(Del(ParseQuery(u.raw), param)) + ParseQuery(text)
  {
    var rest := Del(ParseQuery(u.raw), param);
    EncodeRoundTrip(rest);
    EmptyQuery();
    ParseConcat(Encode(rest), text);
    hide Encode, Del, ParseQuery;
    if Front(u, param) == [] {
      assert Sort(rest) + ParseQuery(text) == ParseQuery(text);
      assert Front(u, param) + text == text;
    }
  }

  lemma BehindQuery(base: bytes, e: bytes, param: bytes, value: bytes)
    ensures base + [QUESTION] + e + [AMPERSAND] + param + [EQUALS] + value
         == base + [QUESTION] + (e + [AMPERSAND] + (param + [EQUALS] + value))
  {
  }

  lemma BehindBase(base: bytes, param: bytes, value: bytes)
    ensures base + [QUESTION] + param + [EQUALS] + value == base + [QUESTION] + ([] + (param + [EQUALS] + value))
  {
  }

  lemma HoldsQuestion(base: bytes, e: bytes)
    ensures base + ([QUESTION] + e) == base + [QUESTION] + e && QUESTION in base + [QUESTION] + e
  {
  }

  lemma AppendedText(lib: Library, input: bytes, param: bytes, value: bytes)
    requires Laws(lib) && Parse(lib, input).Some? && Parse(lib, input).value.fragment == []
    ensures var u := Parse(lib, input).value;
            AppendParamToUrl(lib, input, param, value) == u.base + [QUESTION] + (Front(u, param) + (param + [EQUALS] + value))
  {
    var u := Parse(lib, input).value;
    var e := Encode(Del(ParseQuery(u.raw), param));
    ParsedBase(lib, input);
    hide Parse, Encode, Del, ParseQuery, Laws;
    var url := Print(Without(u, param));
    if u.force || e != [] {
      HoldsQuestion(u.base, e);
      assert url == u.base + [QUESTION] + e;
      BehindQuery(u.base, e, param, value);
    } else {
      assert url == u.base;
      BehindBase(u.base, param, value);
    }
  }

  // A known base, and a query of which the front is known.
  lemma ParseBehind(lib: Library, base: bytes, front: bytes, text: bytes)
    requires lib.base(base) == Some(base) && QUESTION !in base && HASH !in base && PlainText(front)
    ensures var (visible, hidden) := Cut(text, HASH);
            var f := Fragment(lib, hidden);
            Parse(lib, base + [QUESTION] + (front + text))
            == if NoControl(visible) && f.Some? then Some(Url(base, front + visible == [], front + visible, f.value)) else None
  {
    var (visible, hidden) := Cut(text, HASH);
    var s := base + [QUESTION] + (front + text);
    Regroup(base + [QUESTION], front, text);
    CutPrefix(base + [QUESTION] + front, text, HASH);
    Regroup(base + [QUESTION], front, visible);
    CutAt(base, front + visible, QUESTION);
    hide Cut, Fragment;
    assert Cut(s, HASH) == (base + [QUESTION] + (front + visible), hidden);
    ControlConcat(front, visible);
    assert (base + [QUESTION] + (front + visible))[|base|] == QUESTION;
  }

  lemma ControlConcat(a: bytes, b: bytes)
    ensures NoControl(a + b) <==> NoControl(a) && NoControl(b)
  {
    if NoControl(a + b) {
      assert forall i :: 0 <= i < |a| ==> (a + b)[i] == a[i];
      assert forall i :: 0 <= i < |b| ==> (a + b)[|a| + i] == b[i];
    }
  }

  // How the result of appending parses again. A URL without a fragment may get one.
  function Reparsed(lib: Library, u: Url, param: bytes, value: bytes): Option<Url> {
    var raw := Front(u, param) + Visible(param, value);
    var f := Fragment(lib, Hidden(param, value));
    if NoControl(Visible(param, value)) && f.Some? then Some(Url(u.base, raw == [], raw, f.value)) else None
  }

  ghost predicate WholeQuery(lib: Library, url: bytes) {
    Parse(lib, url).Some? && Parse(lib, url).value.fragment == []
  }

  lemma AppendParses(lib: Library, input: bytes, param: bytes, value: bytes)
    requires Laws(lib) && WholeQuery(lib, input)
    ensures Parse(lib, AppendParamToUrl(lib, input, param, value)) == Reparsed(lib, Parse(lib, input).value, param, value)
  {
    var u := Parse(lib, input).value;
    AppendedText(lib, input, param, value);
    ParsedBase(lib, input);
    FrontHolds(u, param);
    hide Parse, Front, AppendParamToUrl, PlainText, Laws, WholeQuery;
    ParseBehind(lib, u.base, Front(u, param), param + [EQUALS] + value);
  }

  function QueryOf(lib: Library, url: bytes): seq<Binding> {
    match Parse(lib, url) case None => [] case Some(u) => ParseQuery(u.raw)
  }

  // The query of the result: the sorted rest of the old one, and the visible text behind it.
  lemma AppendedQuery(lib: Library, input: bytes, param: bytes, value: bytes)
    requires Laws(lib) && WholeQuery(lib, input)
    ensures var result := AppendParamToUrl(lib, input, param, value);
            QueryOf(lib, result) == if Parse(lib, result).None? then [] else
              Sort(Del(QueryOf(lib, input), param)) + ParseQuery(Visible(param, value))
  {
    AppendParses(lib, input, param, value);
    FrontQuery(Parse(lib, input).value, param, Visible(param, value));
    hide Parse, Front, Visible, Fragment, AppendParamToUrl, ParseQuery, Sort, Del, Laws;
  }

  lemma AppendBinds(lib: Library, input: bytes, param: bytes, value: bytes)
    requires Laws(lib) && WholeQuery(lib, input) && PlainText(param) && PlainText(value)
    ensures var result := AppendParamToUrl(lib, input, param, value);
            && WholeQuery(lib, result)
            && QueryOf(lib, result) == Sort(Del(QueryOf(lib, input), param)) + ParseQuery(param + [EQUALS] + value)
  {
    AppendParses(lib, input, param, value);
    AppendedQuery(lib, input, param, value);
    PlainIsVisible(param, value);
    hide Parse, Front, Visible, Hidden, AppendParamToUrl, ParseQuery, Sort, Del, Laws;
  }

  // ---------------------------------------------------------------- appending to a URL with a fragment

  // The fragment with the new parameter behind it.
  function LongerFragment(u: Url, param: bytes, value: bytes): bytes {
    u.fragment + [Separator(Print(Without(u, param)))] + param + [EQUALS] + value
  }

  lemma AppendedBehindFragment(lib: Library, input: bytes, param: bytes, value: bytes)
    requires Parse(lib, input).Some? && Parse(lib, input).value.fragment != []
    ensures var u := Parse(lib, input).value;
            AppendParamToUrl(lib, input, param, value) == Body(Without(u, param)) + [HASH] + LongerFragment(u, param, value)
  {
    var u := Parse(lib, input).value;
    var body := Body(Without(u, param));
    assert Print(Without(u, param)) == body + ([HASH] + u.fragment);
    hide Parse, Without, Body, Print;
    InFragment(body, u.fragment, Separator(Print(Without(u, param))), param, value);
  }

  lemma InFragment(body: bytes, fragment: bytes, sep: byte, param: bytes, value: bytes)
    ensures body + ([HASH] + fragment) + [sep] + param + [EQUALS] + value
         == body + [HASH] + (fragment + [sep] + param + [EQUALS] + value)
  {
  }

  lemma ParseBody(u: Url, tail: bytes)
    requires QUESTION !in u.base && HASH !in u.base && HASH !in u.raw
    ensures Cut(Body(u) + [HASH] + tail, HASH) == (Body(u), tail) && Cut(Body(u), QUESTION) == (u.base, u.raw)
  {
    CutAt(Body(u), tail, HASH);
    if u.force || u.raw != [] {
      HoldsQuestion(u.base, u.raw);
      CutAt(u.base, u.raw, QUESTION);
    } else {
      CutIs(u.base, QUESTION);
      assert Body(u) == u.base;
    }
  }

  // How the result parses again: only the fragment is another one.
  lemma ParsesOutside(lib: Library, input: bytes, param: bytes, value: bytes)
    requires Laws(lib) && Parse(lib, input).Some? && Parse(lib, input).value.fragment != []
    ensures var u := Parse(lib, input).value;
            Parse(lib, AppendParamToUrl(lib, input, param, value))
            == match lib.fragment(LongerFragment(u, param, value)) case None => None case Some(f) => Some(Without(u, param).(fragment := f))
    ensures Cut(Cut(AppendParamToUrl(lib, input, param, value), HASH).0, QUESTION).0 == Parse(lib, input).value.base
  {
    var u := Parse(lib, input).value;
    var rest := Del(ParseQuery(u.raw), param);
    ParsedBase(lib, input);
    AppendedBehindFragment(lib, input, param, value);
    EncodeHolds(rest);
    ParseBody(Without(u, param), LongerFragment(u, param, value));
    BodyMark(u, param);
    assert LongerFragment(u, param, value) != [];
    hide Encode, Del, ParseQuery, AppendParamToUrl, Cut, Laws, LongerFragment, Body;
  }

  lemma BodyMark(u: Url, param: bytes)
    requires QUESTION !in u.base && (u.force ==> u.raw == [])
    ensures var w := Without(u, param); (QUESTION in Body(w) && w.raw == []) <==> w.force
  {
    var w := Without(u, param);
    EmptyQuery();
    assert Encode(Del([], param)) == [];
    hide Encode, Del, ParseQuery;
    if w.force || w.raw != [] {
      HoldsQuestion(w.base, w.raw);
    } else {
      assert Body(w) == w.base;
    }
  }

  // So the query is left with the bindings of the other keys.
  lemma AppendedOutside(lib: Library, input: bytes, param: bytes, value: bytes)
    requires Laws(lib) && Parse(lib, input).Some? && Parse(lib, input).value.fragment != []
    ensures var result := AppendParamToUrl(lib, input, param, value);
            QueryOf(lib, result) == if Parse(lib, result).None? then [] else Sort(Del(QueryOf(lib, input), param))
  {
    ParsesOutside(lib, input, param, value);
    EncodeRoundTrip(Del(ParseQuery(Parse(lib, input).value.raw), param));
    hide Parse, Encode, Del, ParseQuery, AppendParamToUrl, LongerFragment, Laws;
  }

  predicate KeyOk(k: bytes) {
    PlainKey(k) && PlainText(k)
  }

  lemma EscapedIsPlainText(v: bytes)
    ensures PlainText(QueryEscape(v)) && AMPERSAND !in QueryEscape(v)
  {
    EscapeYields(v);
    var e := QueryEscape(v);
    forall i | 0 <= i < |e| ensures !IsControl(e[i]) {
      assert IsEscaped(e[i]);
    }
  }

  lemma EscapedPiece(k: bytes, v: bytes)
    requires PlainKey(k)
    ensures ParseQuery(k + [EQUALS] + QueryEscape(v)) == [Binding(k, v)]
  {
    EscapedHasNo(v, AMPERSAND);
    EscapedHasNo(v, SEMICOLON);
    RoundTrip(v);
    PlainPiece(k, QueryEscape(v));
    ParseOnePiece(k + [EQUALS] + QueryEscape(v));
    hide ParseQuery, ParsePiece, QueryEscape, QueryUnescape;
  }

  // One parameter with an escaped value: it is bound to the value alone, and no other changes.
  lemma AppendEscaped(lib: Library, input: bytes, k: bytes, v: bytes, other: bytes)
    requires Laws(lib) && WholeQuery(lib, input) && KeyOk(k)
    ensures var result := AppendParamToUrl(lib, input, k, QueryEscape(v));
            && WholeQuery(lib, result)
            && Values(QueryOf(lib, result), other) == if other == k then [v] else Values(QueryOf(lib, input), other)
  {
    EscapedIsPlainText(v);
    AppendBinds(lib, input, k, QueryEscape(v));
    EscapedPiece(k, v);
    BoundOnce(QueryOf(lib, input), k, v, other);
  }

  lemma BoundOnce(bs: seq<Binding>, k: bytes, v: bytes, other: bytes)
    ensures Values(Sort(Del(bs, k)) + [Binding(k, v)], other) == if other == k then [v] else Values(bs, other)
  {
    ValuesConcat(Sort(Del(bs, k)), [Binding(k, v)], other);
    SortKeeps(Del(bs, k), other);
    DelKeeps(bs, k, other);
    hide Sort, Del;
    assert Values([Binding(k, v)], other) == if other == k then [v] else [];
  }

  // ---------------------------------------------------------------- exactly when a parameter gets through

  lemma OnlyAppended(bs: seq<Binding>, k: bytes, raw: bytes)
    ensures Values(Sort(Del(bs, k)) + ParseQuery(raw), k) == Values(ParseQuery(raw), k)
  {
    ValuesConcat(Sort(Del(bs, k)), ParseQuery(raw), k);
    SortKeeps(Del(bs, k), k);
    DelKeeps(bs, k, k);
  }

  lemma VisibleKey(k: bytes, v: bytes)
    ensures HASH in k ==> |Visible(k, QueryEscape(v))| < |k|
    ensures HASH !in k ==> Visible(k, QueryEscape(v)) == k + [EQUALS] + QueryEscape(v) && (NoControl(Visible(k, QueryEscape(v))) ==> NoControl(k))
  {
    var e := QueryEscape(v);
    EscapedIsPlainText(v);
    hide QueryEscape;
    if HASH in k {
      CutWithin(k, [EQUALS] + e, HASH);
      assert k + [EQUALS] + e == k + ([EQUALS] + e);
    } else {
      CutIs(k + [EQUALS] + e, HASH);
      ControlConcat(k + [EQUALS], e);
      ControlConcat(k, [EQUALS]);
    }
  }

  // Neither keys nor the rest of the URL are looked at before the parameter is appended: it is
  // bound, and then to its value alone, exactly if its key is plain, the URL parses and has no
  // fragment.
  lemma AppendedKeyIff(lib: Library, input: bytes, k: bytes, v: bytes)
    requires Laws(lib)
    ensures Values(QueryOf(lib, AppendParamToUrl(lib, input, k, QueryEscape(v))), k)
         == if KeyOk(k) && WholeQuery(lib, input) then [v] else []
  {
    if Parse(lib, input).None? {
      NothingParsed(lib);
    } else if WholeQuery(lib, input) {
      AppendedToQuery(lib, input, k, v);
    } else {
      AppendedOutside(lib, input, k, QueryEscape(v));
      SortKeeps(Del(QueryOf(lib, input), k), k);
      DelKeeps(QueryOf(lib, input), k, k);
      hide Parse, QueryOf, AppendParamToUrl, Sort, Del, KeyOk;
    }
  }

  lemma NothingParsed(lib: Library)
    ensures QueryOf(lib, []) == []
  {
    EmptyQuery();
  }

  lemma AppendedToQuery(lib: Library, input: bytes, k: bytes, v: bytes)
    requires Laws(lib) && WholeQuery(lib, input)
    ensures Values(QueryOf(lib, AppendParamToUrl(lib, input, k, QueryEscape(v))), k) == if KeyOk(k) then [v] else []
  {
    var w := QueryEscape(v);
    VisibleKey(k, v);
    EscapedIsPlainText(v);
    AppendParses(lib, input, k, w);
    AppendedQuery(lib, input, k, w);
    OnlyAppended(QueryOf(lib, input), k, Visible(k, w));
    RawKeyValues(k, v);
    hide Laws, WholeQuery, QueryOf, AppendParamToUrl, Parse, Front, Visible, ParseQuery, Sort, Del, QueryEscape, NoControl, PlainKey;
    if HASH in k {
      LongKeyAbsent(Visible(k, w), k);
    } else if KeyOk(k) {
      PlainIsVisible(k, w);
    }
  }

  // A URL that does not parse is lost altogether; otherwise the base is kept, whatever is appended.
  lemma AppendKeepsBase(lib: Library, input: bytes, param: bytes, value: bytes)
    requires Laws(lib)
    ensures var result := AppendParamToUrl(lib, input, param, value);
            match Parse(lib, input)
            case None => result == []
            case Some(u) => result != [] && Cut(Cut(result, HASH).0, QUESTION).0 == u.base
  {
    if Parse(lib, input).Some? {
      var u := Parse(lib, input).value;
      if u.fragment == [] {
        var front, text := Front(u, param), param + [EQUALS] + value;
        AppendedText(lib, input, param, value);
        ParsedBase(lib, input);
        FrontHolds(u, param);
        hide Parse, Front, AppendParamToUrl, Laws;
        Regroup(u.base + [QUESTION], front, text);
        CutPrefix(u.base + [QUESTION] + front, text, HASH);
        Regroup(u.base + [QUESTION], front, Cut(text, HASH).0);
        CutAt(u.base, front + Cut(text, HASH).0, QUESTION);
      } else {
        ParsesOutside(lib, input, param, value);
      }
    }
  }

  // The characters that a plain key is without, by their codes: control characters, "#", "%",
  // "&", "+", ";" and "=".
  predicate PlainCode(c: int) {
    c >= 32 && c != 127 && c != 35 && c != 37 && c != 38 && c != 43 && c != 59 && c != 61
  }

  lemma PlainKeysAre(k: bytes)
    ensures KeyOk(k) <==> forall i :: 0 <= i < |k| ==> PlainCode(k[i])
  {
  }

  // ---------------------------------------------------------------- a map of parameters

  // The parameters of done are each bound to their value alone, and every other key as before.
  ghost predicate Bound(lib: Library, input: bytes, params: map<bytes, bytes>, done: set<bytes>, url: bytes)
    requires done <= params.Keys
  {
    && WholeQuery(lib, url)
    && forall k :: Values(QueryOf(lib, url), k) == if k in done then [params[k]] else Values(QueryOf(lib, input), k)
  }

  // What that takes: a URL that parses and has no fragment, and plain keys.
  ghost predicate Appendable(lib: Library, input: bytes, keys: set<bytes>) {
    WholeQuery(lib, input) && forall k :: k in keys ==> KeyOk(k)
  }

  // Some parameter has got no value.
  ghost predicate Lost(lib: Library, done: set<bytes>, url: bytes) {
    exists k :: k in done && Values(QueryOf(lib, url), k) == []
  }

  ghost predicate Progress(lib: Library, input: bytes, params: map<bytes, bytes>, done: set<bytes>, url: bytes)
    requires done <= params.Keys
  {
    if Appendable(lib, input, done) then Bound(lib, input, params, done, url)
    else if done == {} then url == input
    else Lost(lib, done, url)
  }

  lemma BindOne(lib: Library, input: bytes, params: map<bytes, bytes>, done: set<bytes>, url: bytes, key: bytes)
    requires done <= params.Keys && key in params && KeyOk(key)
    requires Laws(lib) && Bound(lib, input, params, done, url)
    ensures Bound(lib, input, params, done + {key}, AppendParamToUrl(lib, url, key, QueryEscape(params[key])))
  {
    hide QueryOf, Values, AppendParamToUrl, QueryEscape, WholeQuery, KeyOk, Laws;
    AppendEscaped(lib, url, key, params[key], key);
    forall other {
      AppendEscaped(lib, url, key, params[key], other);
    }
  }

  // A parameter without a value does not get one from later ones.
  lemma StaysLost(lib: Library, done: set<bytes>, url: bytes, key: bytes, value: bytes)
    requires Laws(lib) && Lost(lib, done, url) && key !in done
    ensures Lost(lib, done + {key}, AppendParamToUrl(lib, url, key, QueryEscape(value)))
  {
    var k :| k in done && Values(QueryOf(lib, url), k) == [];
    hide QueryOf, Values, AppendParamToUrl, QueryEscape, WholeQuery, KeyOk, Laws;
    AppendedKeyIff(lib, url, key, value);
    if KeyOk(key) && WholeQuery(lib, url) {
      AppendEscaped(lib, url, key, value, k);
      assert k in done + {key};
    } else {
      assert key in done + {key};
    }
  }

  lemma AppendProgress(lib: Library, input: bytes, params: map<bytes, bytes>, done: set<bytes>, url: bytes, key: bytes)
    requires Laws(lib) && done <= params.Keys && key in params && key !in done && Progress(lib, input, params, done, url)
    ensures Progress(lib, input, params, done + {key}, AppendParamToUrl(lib, url, key, QueryEscape(params[key])))
  {
    hide Bound, Lost, QueryOf, Values, AppendParamToUrl, QueryEscape, WholeQuery, KeyOk, Laws;
    if Appendable(lib, input, done + {key}) {
      assert forall k :: k in done ==> k in done + {key};
      BindOne(lib, input, params, done, url, key);
    } else if !Appendable(lib, input, done) && done != {} {
      StaysLost(lib, done, url, key, params[key]);
    } else {
      AppendedKeyIff(lib, url, key, params[key]);
      LostAt(lib, done + {key}, AppendParamToUrl(lib, url, key, QueryEscape(params[key])), key);
    }
  }

  lemma LostAt(lib: Library, done: set<bytes>, url: bytes, key: bytes)
    requires key in done && Values(QueryOf(lib, url), key) == []
    ensures Lost(lib, done, url)
  {
  }

  lemma LostIsNotBound(lib: Library, input: bytes, params: map<bytes, bytes>, done: set<bytes>, url: bytes)
    requires done <= params.Keys && Progress(lib, input, params, done, url)
    ensures Bound(lib, input, params, done, url) <==> Appendable(lib, input, done)
  {
    hide QueryOf, Values, WholeQuery, KeyOk;
  }

  // The map is ranged over in no particular order. All parameters are bound to their values, and
  // the other keys as before, exactly if all keys are plain and the URL parses and has no fragment.
  method AppendParamsToUrl(lib: Library, input: bytes, params: map<bytes, bytes>) returns (url: bytes)
    ensures Laws(lib) ==> (Bound(lib, input, params, params.Keys, url) <==> Appendable(lib, input, params.Keys))
  {
    hide Progress, Bound, Appendable, AppendParamToUrl, QueryEscape, Laws;
    url := input;
    var left := params.Keys;
    StartsInProgress(lib, input, params);
    assert params.Keys - left == {};
    while left != {}
      invariant left <= params.Keys
      invariant Laws(lib) ==> Progress(lib, input, params, params.Keys - left, url)
    {
      var key :| key in left;
      if Laws(lib) {
        AppendProgress(lib, input, params, params.Keys - left, url, key);
        assert params.Keys - left + {key} == params.Keys - (left - {key});
      }
      left := left - {key};
      url := AppendParamToUrl(lib, url, key, QueryEscape(params[key]));
    }
    assert params.Keys - left == params.Keys;
    if Laws(lib) {
      LostIsNotBound(lib, input, params, params.Keys, url);
    }
  }

  lemma StartsInProgress(lib: Library, input: bytes, params: map<bytes, bytes>)
    ensures Progress(lib, input, params, {}, input)
  {
    hide QueryOf, Values, WholeQuery, KeyOk;
  }

  // A key with an equals sign adds a value to the key in front of it.
  lemma KeyWithEquals(a: bytes, b: bytes, x: bytes)
    requires PlainKey(a) && PlainKey(b)
    ensures ParseQuery(a + [EQUALS] + b + [EQUALS] + QueryEscape(x)) == [Binding(a, b + [EQUALS] + x)]
  {
    var e := QueryEscape(x);
    var w := b + [EQUALS] + e;
    EscapedHasNo(x, AMPERSAND);
    EscapedHasNo(x, SEMICOLON);
    RoundTrip(x);
    UnescapePlainPrefix(b + [EQUALS], e);
    PlainPiece(a, w);
    ParseOnePiece(a + [EQUALS] + w);
    hide ParseQuery, ParsePiece, QueryEscape, QueryUnescape;
    Regroup(a + [EQUALS], b, [EQUALS]);
    Regroup(a + [EQUALS], b + [EQUALS], e);
  }

  lemma OneMoreValue(bs: seq<Binding>, gone: bytes, b: Binding)
    requires gone != b.key
    ensures Values(Sort(Del(bs, gone)) + [b], b.key) == Values(bs, b.key) + [b.value]
  {
    SortKeeps(Del(bs, gone), b.key);
    DelKeeps(bs, gone, b.key);
    hide Sort, Del;
    ValuesConcat(Sort(Del(bs, gone)), [b], b.key);
    ValuesCons(b, [], b.key);
    assert [b] + [] == [b];
  }

  lemma AppendWithEquals(lib: Library, url: bytes, a: bytes, b: bytes, x: bytes)
    requires Laws(lib) && WholeQuery(lib, url) && KeyOk(a) && KeyOk(b)
    ensures var result := AppendParamToUrl(lib, url, a + [EQUALS] + b, QueryEscape(x));
            WholeQuery(lib, result) && Values(QueryOf(lib, result), a) == Values(QueryOf(lib, url), a) + [b + [EQUALS] + x]
  {
    var ab := a + [EQUALS] + b;
    EscapedIsPlainText(x);
    ControlConcat(a + [EQUALS], b);
    ControlConcat(a, [EQUALS]);
    assert |ab| > |a| && PlainText(ab);
    hide WholeQuery, QueryOf, AppendParamToUrl, ParseQuery, Sort, Del, Values, QueryEscape, NoControl, PlainKey, Laws;
    AppendBinds(lib, url, ab, QueryEscape(x));
    KeyWithEquals(a, b, x);
    OneMoreValue(QueryOf(lib, url), ab, Binding(a, b + [EQUALS] + x));
  }

  function AppendTwo(lib: Library, input: bytes, k: bytes, v: bytes, l: bytes, w: bytes): bytes {
    AppendParamToUrl(lib, AppendParamToUrl(lib, input, k, QueryEscape(v)), l, QueryEscape(w))
  }

  // So the order of the map matters when a key is not plain: with the keys a=b and a, the key a
  // ends up with one value in one order and with two in the other.
  lemma OrderMatters(lib: Library, input: bytes, a: bytes, b: bytes, x: bytes, y: bytes)
    requires Laws(lib) && WholeQuery(lib, input) && KeyOk(a) && KeyOk(b)
    ensures Values(QueryOf(lib, AppendTwo(lib, input, a + [EQUALS] + b, x, a, y)), a) == [y]
    ensures Values(QueryOf(lib, AppendTwo(lib, input, a, y, a + [EQUALS] + b, x)), a) == [y, b + [EQUALS] + x]
  {
    hide WholeQuery, QueryOf, AppendParamToUrl, QueryEscape, KeyOk, Laws, Values;
    AppendWithEquals(lib, input, a, b, x);
    AppendEscaped(lib, AppendParamToUrl(lib, input, a + [EQUALS] + b, QueryEscape(x)), a, y, a);
    AppendEscaped(lib, input, a, y, a);
    AppendWithEquals(lib, AppendParamToUrl(lib, input, a, QueryEscape(y)), a, b, x);
  }

  const LETTER_A: bytes := ['a' as int]
  const LETTER_B: bytes := ['b' as int]

  lemma OrderMattersInput(lib: Library, input: bytes, x: bytes, y: bytes)
    requires Laws(lib) && WholeQuery(lib, input)
    ensures Values(QueryOf(lib, AppendTwo(lib, input, LETTER_A + [EQUALS] + LETTER_B, x, LETTER_A, y)), LETTER_A) == [y]
    ensures Values(QueryOf(lib, AppendTwo(lib, input, LETTER_A, y, LETTER_A + [EQUALS] + LETTER_B, x)), LETTER_A)
         == [y, LETTER_B + [EQUALS] + x]
  {
    assert KeyOk(LETTER_A) && KeyOk(LETTER_B);
    hide WholeQuery, QueryOf, AppendTwo, KeyOk, Laws, Values;
    OrderMatters(lib, input, LETTER_A, LETTER_B, x, y);
  }

  // ---------------------------------------------------------------- removing again

  ghost predicate OnlyKey(bs: seq<Binding>, key: bytes) {
    forall b :: b in bs ==> b.key == key
  }

  lemma {:induction false} DelEmptyIff(bs: seq<Binding>, key: bytes)
    ensures Del(bs, key) == [] <==> OnlyKey(bs, key)
  {
    if bs != [] {
      DelEmptyIff(bs[1..], key);
      HeadAndTail(bs);
    }
  }

  lemma RemovedAgain(bs: seq<Binding>, param: bytes, more: seq<Binding>)
    ensures Del(Sort(Del(bs, param)) + more, param) == Sort(Del(bs, param)) + Del(more, param)
  {
    var rest := Del(bs, param);
    DelConcat(Sort(rest), more, param);
    SortKeeps(rest, param);
    DelKeeps(bs, param, param);
    DelAbsent(Sort(rest), param);
  }

  // More bindings are encoded differently.
  lemma EncodeLonger(bs: seq<Binding>, more: seq<Binding>)
    ensures Encode(Sort(bs) + more) == Encode(bs) <==> more == []
  {
    if more == [] {
      SortSorts(bs);
      SortOfSorted(Sort(bs));
      assert Sort(bs) + [] == Sort(bs);
    } else {
      EncodeRoundTrip(Sort(bs) + more);
      EncodeRoundTrip(bs);
      SortLength(bs);
      SortLength(Sort(bs) + more);
    }
  }

  lemma EncodeEmptyIff(bs: seq<Binding>)
    ensures Encode(bs) == [] ==> bs == []
  {
    EncodeRoundTrip(bs);
    EmptyQuery();
    SortLength(bs);
  }

  // The URL after a parameter has been appended and removed again.
  lemma RemoveAfterAppend(lib: Library, input: bytes, param: bytes, value: bytes)
    requires Laws(lib) && WholeQuery(lib, input)
    ensures var u := Parse(lib, input).value;
            var again := Reparsed(lib, u, param, value);
            var more := Del(ParseQuery(Visible(param, value)), param);
            RemoveParamFromUrl(lib, AppendParamToUrl(lib, input, param, value), param)
            == if again.None? then None else
                 Some(Print(again.value.(raw := Encode(Sort(Del(ParseQuery(u.raw), param)) + more))))
  {
    var u := Parse(lib, input).value;
    AppendParses(lib, input, param, value);
    FrontQuery(u, param, Visible(param, value));
    RemovedAgain(ParseQuery(u.raw), param, ParseQuery(Visible(param, value)));
    hide Parse, Front, Visible, Hidden, AppendParamToUrl, ParseQuery, Sort, Del, Encode, Laws, WholeQuery;
  }

  lemma SameBodyIff(u: Url, v: Url)
    requires u.base == v.base
    ensures Body(u) == Body(v) <==> u.raw == v.raw && (u.raw == [] ==> u.force == v.force)
  {
    var a, b := |u.base|, |v.base|;
    if Body(u) == Body(v) {
      assert u.raw == (if |Body(u)| > a then Body(u)[a + 1..] else []);
      assert v.raw == (if |Body(v)| > a then Body(v)[a + 1..] else []);
      assert |Body(u)| > a <==> u.force || u.raw != [];
    }
  }

  lemma HashOnlyInFragment(u: Url)
    requires HASH !in u.base && HASH !in u.raw
    ensures HASH in Print(u) <==> u.fragment != []
    ensures u.fragment == [] ==> Print(u) == Body(u)
  {
    assert u.fragment != [] ==> Print(u)[|Body(u)|] == HASH;
  }

  lemma VisibleText(param: bytes, value: bytes)
    ensures Hidden(param, value) == [] ==> Visible(param, value) != []
  {
    var text := param + [EQUALS] + value;
    CutIs(text, HASH);
    assert text[|param|] == EQUALS;
  }

  // The condition on a URL without a fragment: no bare question mark to lose, nothing behind a "#",
  // no control character, and no binding to another key spelled by the text.
  ghost predicate RemovableText(u: Url, param: bytes, value: bytes) {
    !u.force && NoControl(Visible(param, value)) && Hidden(param, value) == [] && OnlyKey(ParseQuery(Visible(param, value)), param)
  }

  // The condition under which removing a parameter after appending it does what removing it at
  // once does. In the first two cases it is up to the library.
  ghost predicate Removable(lib: Library, input: bytes, param: bytes, value: bytes) {
    match Parse(lib, input)
    case None => lib.base([]).None?
    case Some(u) =>
      if u.fragment != [] then lib.fragment(LongerFragment(u, param, value)) == Some(u.fragment)
      else RemovableText(u, param, value)
  }

  lemma EncodedAgain(u: Url, param: bytes, more: seq<Binding>)
    requires u.force ==> u.raw == []
    ensures var rest := Del(ParseQuery(u.raw), param);
            && (Encode(Sort(rest) + more) == Encode(rest) <==> more == [])
            && (more != [] ==> Encode(Sort(rest) + more) != [])
            && (u.force ==> Encode(rest) == [])
  {
    var rest := Del(ParseQuery(u.raw), param);
    EncodeLonger(rest, more);
    EncodeEmptyIff(Sort(rest) + more);
    EmptyQuery();
    assert Encode(Del([], param)) == [];
    hide ParseQuery, Encode, Sort, Del;
  }

  lemma RemovableTextIff(lib: Library, input: bytes, param: bytes, value: bytes)
    requires Laws(lib) && WholeQuery(lib, input)
    ensures RemoveParamFromUrl(lib, AppendParamToUrl(lib, input, param, value), param) == RemoveParamFromUrl(lib, input, param)
       <==> RemovableText(Parse(lib, input).value, param, value)
  {
    var u := Parse(lib, input).value;
    var rest := Del(ParseQuery(u.raw), param);
    var more := Del(ParseQuery(Visible(param, value)), param);
    RemoveAfterAppend(lib, input, param, value);
    ParsedBase(lib, input);
    EncodedAgain(u, param, more);
    EncodeHolds(rest);
    EncodeHolds(Sort(rest) + more);
    DelEmptyIff(ParseQuery(Visible(param, value)), param);
    VisibleText(param, value);
    FragmentStays(lib, Hidden(param, value));
    HashOnlyInFragment(Without(u, param));
    var again := Reparsed(lib, u, param, value);
    hide Parse, AppendParamToUrl, ParseQuery, Sort, Del, Encode, Visible, Hidden, Fragment, Laws, OnlyKey, Body, Print;
    if again.Some? {
      var left := again.value.(raw := Encode(Sort(rest) + more));
      HashOnlyInFragment(left);
      SameBodyIff(left, Without(u, param));
    }
  }

  // Removing twice is removing once.
  lemma RemovedTwice(u: Url, param: bytes, fragment: bytes)
    ensures Without(Without(u, param).(fragment := fragment), param) == Without(u, param).(fragment := fragment)
  {
    var rest := Del(ParseQuery(u.raw), param);
    EncodeRoundTrip(rest);
    SortKeeps(rest, param);
    DelKeeps(ParseQuery(u.raw), param, param);
    DelAbsent(Sort(rest), param);
    EncodeLonger(rest, []);
    hide ParseQuery, Sort, Del, Encode, Values;
    assert Sort(rest) + [] == Sort(rest);
  }

  lemma SamePrintIff(u: Url, f: bytes)
    requires u.fragment != [] && f != []
    ensures Print(u.(fragment := f)) == Print(u) <==> f == u.fragment
  {
    var v := u.(fragment := f);
    assert Body(v) == Body(u);
    hide Body;
    assert Print(u) == Body(u) + ([HASH] + u.fragment) && Print(v) == Body(u) + ([HASH] + f);
    assert u.fragment == Print(u)[|Body(u)| + 1..] && f == Print(v)[|Body(u)| + 1..];
  }

  lemma RemovableFragmentIff(lib: Library, input: bytes, param: bytes, value: bytes)
    requires Laws(lib) && Parse(lib, input).Some? && Parse(lib, input).value.fragment != []
    ensures RemoveParamFromUrl(lib, AppendParamToUrl(lib, input, param, value), param) == RemoveParamFromUrl(lib, input, param)
       <==> lib.fragment(LongerFragment(Parse(lib, input).value, param, value)) == Some(Parse(lib, input).value.fragment)
  {
    var u := Parse(lib, input).value;
    ParsesOutside(lib, input, param, value);
    var longer := LongerFragment(u, param, value);
    assert longer != [] && Without(u, param).fragment == u.fragment;
    FragmentStays(lib, longer);
    hide Parse, AppendParamToUrl, Without, Print, LongerFragment, Laws;
    if lib.fragment(longer).Some? {
      var f := lib.fragment(longer).value;
      RemovedTwice(u, param, f);
      SamePrintIff(Without(u, param), f);
    }
  }

  lemma RemovableNothingIff(lib: Library, input: bytes, param: bytes, value: bytes)
    requires Parse(lib, input).None?
    ensures RemoveParamFromUrl(lib, AppendParamToUrl(lib, input, param, value), param) == RemoveParamFromUrl(lib, input, param)
       <==> lib.base([]).None?
  {
    hide Without, Print;
  }

  lemma RemoveAfterAppendIff(lib: Library, input: bytes, param: bytes, value: bytes)
    requires Laws(lib)
    ensures RemoveParamFromUrl(lib, AppendParamToUrl(lib, input, param, value), param) == RemoveParamFromUrl(lib, input, param)
       <==> Removable(lib, input, param, value)
  {
    hide Parse, AppendParamToUrl, RemoveParamFromUrl, RemovableText, LongerFragment, Laws;
    if Parse(lib, input).None? {
      RemovableNothingIff(lib, input, param, value);
    } else if Parse(lib, input).value.fragment != [] {
      RemovableFragmentIff(lib, input, param, value);
    } else {
      RemovableTextIff(lib, input, param, value);
    }
  }

  lemma FragmentStays(lib: Library, text: bytes)
    requires Laws(lib)
    ensures Fragment(lib, text).Some? ==> (Fragment(lib, text).value == [] <==> text == [])
    ensures text == [] ==> Fragment(lib, text).Some?
  {
  }

  // In particular, for text without such characters only a bare question mark is lost.
  lemma RemoveAfterPlainAppend(lib: Library, input: bytes, param: bytes, value: bytes)
    requires Laws(lib) && WholeQuery(lib, input) && PlainText(param) && PlainText(value)
    requires OnlyKey(ParseQuery(param + [EQUALS] + value), param)
    ensures RemoveParamFromUrl(lib, AppendParamToUrl(lib, input, param, value), param)
         == Some(Print(Without(Parse(lib, input).value, param).(force := false)))
  {
    var u := Parse(lib, input).value;
    var rest := Del(ParseQuery(u.raw), param);
    RemoveAfterAppend(lib, input, param, value);
    PlainIsVisible(param, value);
    DelEmptyIff(ParseQuery(param + [EQUALS] + value), param);
    EncodeLonger(rest, []);
    hide Parse, Encode, Sort, Del, Front, Visible, Hidden, ParseQuery, AppendParamToUrl, Laws, Print, OnlyKey;
    var visible := Visible(param, value);
    assert visible != [] && Front(u, param) + visible != [];
  }

  lemma ParseBareMark(lib: Library)
    requires lib.base(Ascii("b")) == Some(Ascii("b"))
    ensures Parse(lib, Ascii("b?")) == Some(Url(Ascii("b"), true, [], []))
  {
    assert Ascii("b?") == Ascii("b") + [QUESTION] + ([] + []);
    ParseBehind(lib, Ascii("b"), [], []);
    assert Cut([], HASH) == ([], []);
  }

  lemma PrintBareMark()
    ensures Print(Url(Ascii("b"), true, [], [])) == Ascii("b?") && Print(Url(Ascii("b"), false, [], [])) == Ascii("b")
  {
    assert Ascii("b") == ['b' as int] && Ascii("b?") == ['b' as int, QUESTION];
  }

  // For example, whatever plain parameter is appended to "b?" and removed again.
  lemma BareMarkIsLost(lib: Library, k: bytes, v: bytes)
    requires Laws(lib) && lib.base(Ascii("b")) == Some(Ascii("b")) && KeyOk(k)
    ensures RemoveParamFromUrl(lib, Ascii("b?"), k) == Some(Ascii("b?"))
    ensures RemoveParamFromUrl(lib, AppendParamToUrl(lib, Ascii("b?"), k, QueryEscape(v)), k) == Some(Ascii("b"))
  {
    ParseBareMark(lib);
    PrintBareMark();
    EscapedIsPlainText(v);
    EscapedPiece(k, v);
    RemoveAfterPlainAppend(lib, Ascii("b?"), k, QueryEscape(v));
    EmptyQuery();
    assert Encode(Del([], k)) == [];
    hide Parse, Encode, Del, QueryEscape, ParseQuery, AppendParamToUrl, Laws, PlainKey, Ascii, Print, KeyOk;
  }
}
