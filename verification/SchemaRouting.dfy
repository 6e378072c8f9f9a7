// The start of connectionImpl.configure: a schema travels as a URL parameter and is taken out again.
module SchemaRouting {
  import opened Wrappers
  import opened Bytes
  import opened Percent
  import opened Query
  import opened UrlParams

  const SCHEMA: bytes := Ascii("schema")
  const POSTGRES: bytes := Ascii("postgres://")
  const POSTGRESQL: bytes := Ascii("postgresql://")
  const SQLITE: bytes := Ascii("sqlite://")
  const FILE: bytes := Ascii("file:")

  datatype Target = Target(url: bytes, schema: bytes)

  predicate IsPostgres(url: bytes) {
    POSTGRES <= url || POSTGRESQL <= url
  }

  // None for a URL that is rejected before any database is opened.
  function Configured(lib: Library, url: bytes): Option<Target> {
    if IsPostgres(url) then
      match Parse(lib, url)
      case None => None
      case Some(u) =>
        var schema := Get(ParseQuery(u.raw), SCHEMA);
        Some(Target(if schema != [] then Print(Without(u, SCHEMA)) else url, schema))
    else if SQLITE <= url || FILE <= url then Some(Target(url, []))
    else None
  }

  class ConnectionImpl {
    var Id: bytes
    var Url: bytes
    var schema: bytes
    var dialect: string
    var initialized: bool

    constructor (id: bytes, url: bytes)
      ensures Id == id && Url == url && schema == [] && !initialized
    {
      Id, Url, schema, dialect, initialized := id, url, [], "", false;
    }

    // opens: whether the database is reached and the migrations and SET schema succeed.
    method Configure(lib: Library, opens: bool) returns (ok: bool)
      requires schema == []
      modifies this
      ensures ok <==> opens && Configured(lib, old(Url)).Some?
      ensures ok ==> initialized && Target(Url, schema) == Configured(lib, old(Url)).value
      ensures ok ==> dialect == if IsPostgres(old(Url)) then "postgres" else "sqlite3"
      ensures Id == old(Id)
    {
      if IsPostgres(Url) {
        var parsed := Parse(lib, Url);
        if parsed.None? {
          return false;
        }
        schema := Get(ParseQuery(parsed.value.raw), SCHEMA);
        if schema != [] {
          var removed := RemoveParamFromUrl(lib, Url, SCHEMA);
          Url := removed.value;
        }
        dialect := "postgres";
      } else if SQLITE <= Url || FILE <= Url {
        dialect := "sqlite3";
      } else {
        return false;
      }
      if !opens {
        return false;
      }
      initialized := true;
      return true;
    }
  }

  // ---------------------------------------------------------------- which URLs are accepted

  predicate BeginsWith(url: bytes, s: string) {
    |s| <= |url| && forall i :: 0 <= i < |s| ==> url[i] as char == s[i]
  }

  predicate NamesPostgres(url: bytes) {
    BeginsWith(url, "postgres://") || BeginsWith(url, "postgresql://")
  }

  predicate NamesLocal(url: bytes) {
    BeginsWith(url, "sqlite://") || BeginsWith(url, "file:")
  }

  lemma PrefixIs(url: bytes, s: string)
    requires IsAscii(s)
    ensures Ascii(s) <= url <==> BeginsWith(url, s)
  {
    var p := Ascii(s);
    if BeginsWith(url, s) {
      forall i | 0 <= i < |p| ensures p[i] == url[i] {
        assert url[i] as char == s[i];
      }
    }
  }

  lemma Schemes(url: bytes)
    ensures IsPostgres(url) <==> NamesPostgres(url)
    ensures SQLITE <= url || FILE <= url <==> NamesLocal(url)
    ensures !(NamesPostgres(url) && NamesLocal(url))
  {
    PrefixIs(url, "postgres://");
    PrefixIs(url, "postgresql://");
    PrefixIs(url, "sqlite://");
    PrefixIs(url, "file:");
    hide Ascii;
    if NamesPostgres(url) {
      assert url[0] as char == 'p';
    }
  }

  // A URL of neither kind is refused, and a local one is taken as it is.
  lemma LocalConfigured(lib: Library, url: bytes)
    requires !NamesPostgres(url)
    ensures Configured(lib, url) == if NamesLocal(url) then Some(Target(url, [])) else None
  {
    Schemes(url);
    hide IsPostgres, Parse, NamesPostgres, NamesLocal;
  }

  // A PostgreSQL URL is accepted exactly if it parses. Without a value of the parameter, or with
  // an empty first one, it is taken as it is; else the first value is the schema, and the URL is
  // left without the parameter.
  lemma PostgresConfigured(lib: Library, url: bytes, schemas: seq<bytes>)
    requires NamesPostgres(url) && schemas == Values(QueryOf(lib, url), SCHEMA)
    ensures Configured(lib, url).Some? <==> Parse(lib, url).Some?
    ensures Parse(lib, url).Some? && (schemas == [] || schemas[0] == []) ==> Configured(lib, url) == Some(Target(url, []))
    ensures Parse(lib, url).Some? && schemas != [] && schemas[0] != [] ==>
              && RemoveParamFromUrl(lib, url, SCHEMA).Some?
              && Configured(lib, url) == Some(Target(RemoveParamFromUrl(lib, url, SCHEMA).value, schemas[0]))
  {
    Schemes(url);
    hide IsPostgres, Parse, NamesPostgres, NamesLocal, Values, Without, Print;
  }

  lemma PostgresAccepted(lib: Library, url: bytes)
    requires NamesPostgres(url)
    ensures Configured(lib, url).Some? <==> Parse(lib, url).Some?
  {
    PostgresConfigured(lib, url, Values(QueryOf(lib, url), SCHEMA));
  }

  // The parameter is called schema.
  lemma SchemaIsSpelled()
    ensures |SCHEMA| == 6 && BeginsWith(SCHEMA, "schema")
  {
    PrefixIs(SCHEMA, "schema");
  }

  // For example, one that the library prints as it is, without query and fragment.
  lemma BarePostgresConfigured(lib: Library, url: bytes)
    requires NamesPostgres(url) && QUESTION !in url && HASH !in url && lib.base(url) == Some(url)
    ensures Configured(lib, url) == Some(Target(url, []))
  {
    CutIs(url, HASH);
    CutIs(url, QUESTION);
    assert Parse(lib, url) == Some(Url(url, false, [], []));
    EmptyQuery();
    assert Values([], SCHEMA) == [];
    hide Parse, ParseQuery, NamesPostgres, Ascii;
    PostgresConfigured(lib, url, []);
  }

  // ---------------------------------------------------------------- the round trip of a tenant

  // IDs without a character that means something in a URL or in its query, "=" and the space excepted.
  predicate RoutableId(id: bytes) {
    PlainText(id) && PlainValue(id)
  }

  // The same characters as in keys but for "=".
  lemma RoutableIdsAre(id: bytes)
    ensures RoutableId(id) <==> forall i :: 0 <= i < |id| ==> PlainCode(id[i]) || id[i] == 61
  {
  }

  lemma SchemaIsPlain()
    ensures KeyOk(SCHEMA)
  {
    forall i | 0 <= i < |SCHEMA| ensures IsLetterOrDigit(SCHEMA[i]) {
      assert SCHEMA[i] == "schema"[i] as int;
    }
  }

  lemma PrefixStays(base: bytes, rest: bytes)
    requires IsPostgres(base)
    ensures IsPostgres(base + rest)
  {
  }

  lemma AppendedIsPostgres(lib: Library, url: bytes, id: bytes)
    requires Laws(lib) && WholeQuery(lib, url) && IsPostgres(Parse(lib, url).value.base)
    ensures IsPostgres(AppendParamToUrl(lib, url, SCHEMA, id))
  {
    var u := Parse(lib, url).value;
    AppendedText(lib, url, SCHEMA, id);
    hide Parse, AppendParamToUrl, Front, IsPostgres, Laws, Ascii;
    var text := Front(u, SCHEMA) + (SCHEMA + [EQUALS] + id);
    BehindBoth(u.base, text);
    PrefixStays(u.base, [QUESTION] + text);
  }

  lemma BehindBoth(base: bytes, text: bytes)
    ensures base + [QUESTION] + text == base + ([QUESTION] + text)
  {
  }

  // What is read back as the schema, from a URL without a fragment.
  lemma AppendedSchema(lib: Library, url: bytes, id: bytes)
    requires Laws(lib) && WholeQuery(lib, url)
    ensures var result := AppendParamToUrl(lib, url, SCHEMA, id);
            && (RoutableId(id) ==> WholeQuery(lib, result))
            && (Parse(lib, result).Some? ==> (Get(QueryOf(lib, result), SCHEMA) == id <==> RoutableId(id)))
  {
    SchemaIsPlain();
    AppendParses(lib, url, SCHEMA, id);
    AppendedQuery(lib, url, SCHEMA, id);
    OnlyAppended(QueryOf(lib, url), SCHEMA, Visible(SCHEMA, id));
    VisibleId(id);
    RawValueIff(SCHEMA, id);
    hide Parse, Front, AppendParamToUrl, ParseQuery, Values, Sort, Del, Laws, Ascii, PlainValue, Visible, Hidden, NoControl, QueryOf;
    if HASH !in id && NoControl(id) {
      PlainIsVisible(SCHEMA, id);
    }
  }

  // A "#" in the ID cuts it short, and then it is not read back.
  lemma VisibleId(id: bytes)
    ensures var visible := Visible(SCHEMA, id);
            && (HASH in id ==> Get(ParseQuery(visible), SCHEMA) != id)
            && (HASH !in id ==> visible == SCHEMA + [EQUALS] + id && (NoControl(visible) ==> NoControl(id)))
  {
    SchemaIsPlain();
    CutIs(SCHEMA + [EQUALS] + id, HASH);
    if HASH in id {
      CutPrefix(SCHEMA + [EQUALS], id, HASH);
      CutIs(id, HASH);
      hide Cut, ParseQuery, Ascii;
      var short := Cut(id, HASH).0;
      RawValuesFit(SCHEMA, short);
      LongValueAbsent(ParseQuery(SCHEMA + [EQUALS] + short), SCHEMA, id);
    } else {
      ControlConcat(SCHEMA + [EQUALS], id);
    }
  }

  // Without a fragment the tenant comes out as the schema, and the URL as the base URL without
  // any schema parameter.
  lemma SchemaRoundTrip(lib: Library, url: bytes, id: bytes)
    requires Laws(lib) && WholeQuery(lib, url) && IsPostgres(Parse(lib, url).value.base)
    requires id != [] && RoutableId(id)
    ensures Configured(lib, AppendParamToUrl(lib, url, SCHEMA, id))
         == Some(Target(Print(Without(Parse(lib, url).value, SCHEMA).(force := false)), id))
  {
    SchemaIsPlain();
    AppendedIsPostgres(lib, url, id);
    AppendedSchema(lib, url, id);
    PlainPiece(SCHEMA, id);
    ParseOnePiece(SCHEMA + [EQUALS] + id);
    RemoveAfterPlainAppend(lib, url, SCHEMA, id);
    hide Parse, AppendParamToUrl, ParsePiece, ParseQuery, Encode, Values, Print, IsPostgres, Get, Without, Ascii, QueryUnescape;
  }

  // Any other ID is cut or altered, so the schema is another one.
  lemma SchemaIsIdIff(lib: Library, url: bytes, id: bytes)
    requires Laws(lib) && WholeQuery(lib, url) && IsPostgres(Parse(lib, url).value.base)
    ensures var target := Configured(lib, AppendParamToUrl(lib, url, SCHEMA, id));
            target.Some? ==> (target.value.schema == id <==> RoutableId(id))
  {
    AppendedIsPostgres(lib, url, id);
    AppendedSchema(lib, url, id);
    hide Parse, AppendParamToUrl, ParseQuery, IsPostgres, Get, RoutableId, Without, Laws;
  }

  // With a fragment the parameter lands behind it, and no schema is seen at all.
  lemma SchemaLostInFragment(lib: Library, url: bytes, id: bytes)
    requires Laws(lib) && Parse(lib, url).Some? && Parse(lib, url).value.fragment != []
    ensures var target := Configured(lib, AppendParamToUrl(lib, url, SCHEMA, id));
            target.Some? ==> target.value.schema == []
  {
    AppendedOutside(lib, url, SCHEMA, id);
    SortKeeps(Del(QueryOf(lib, url), SCHEMA), SCHEMA);
    DelKeeps(QueryOf(lib, url), SCHEMA, SCHEMA);
    var result := AppendParamToUrl(lib, url, SCHEMA, id);
    assert Parse(lib, result).Some? ==> QueryOf(lib, result) == ParseQuery(Parse(lib, result).value.raw);
    hide Parse, AppendParamToUrl, ParseQuery, QueryOf, Values, Sort, Del, Ascii, IsPostgres, Laws, Without;
  }

  // Exactly when a tenant is routed to the schema named by its ID. Neither the ID nor the
  // fragment of the URL is looked at before the parameter is appended.
  lemma SchemaRoutedIff(lib: Library, url: bytes, id: bytes)
    requires Laws(lib) && Parse(lib, url).Some? && IsPostgres(Parse(lib, url).value.base) && id != []
    ensures var target := Configured(lib, AppendParamToUrl(lib, url, SCHEMA, id));
            (target.Some? && target.value.schema == id) <==> Parse(lib, url).value.fragment == [] && RoutableId(id)
  {
    if Parse(lib, url).value.fragment != [] {
      SchemaLostInFragment(lib, url, id);
    } else if RoutableId(id) {
      SchemaRoundTrip(lib, url, id);
    } else {
      SchemaIsIdIff(lib, url, id);
    }
  }

  // For example, IDs that agree up to an ampersand share a schema.
  lemma SchemaEndsAtAmpersand(lib: Library, url: bytes, a: bytes, x: bytes)
    requires Laws(lib) && WholeQuery(lib, url) && IsPostgres(Parse(lib, url).value.base)
    requires a != [] && RoutableId(a) && PlainText(x)
    ensures var target := Configured(lib, AppendParamToUrl(lib, url, SCHEMA, a + [AMPERSAND] + x));
            target.Some? && target.value.schema == a
  {
    var id := a + [AMPERSAND] + x;
    SchemaIsPlain();
    ControlConcat(a + [AMPERSAND], x);
    ControlConcat(a, [AMPERSAND]);
    AppendedIsPostgres(lib, url, id);
    AppendBinds(lib, url, SCHEMA, id);
    OnlyAppended(QueryOf(lib, url), SCHEMA, SCHEMA + [EQUALS] + id);
    AmpersandEnds(SCHEMA, a, x);
    hide Parse, AppendParamToUrl, ParseQuery, Values, Sort, Del, IsPostgres, Ascii, Laws, PlainValue, Without;
  }
}
