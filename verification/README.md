# Verified models of foundation-go

foundation-go is a Go framework for multi-tenant web applications. This Dafny 4.11 project models the parts of it that
are algorithms or protocols of their own, and proves what callers rely on. `dafny verify dfyconfig.toml` checks it all.

| files | what they model |
|---|---|
| `Features`, `FeatureOrder`, `FeatureLoader` | loading the features of an application, ordering them by their dependencies, and running their hooks |
| `ShortId`, `ShortIdGenerator` | the short ID generator: clock, counter, bit packing, base 36 |
| `Container`, `ContainerProtocol` | the component container with its double-checked cache, for one caller and for any number of goroutines |
| `RequestTransaction` | the wrapper around HTTP handlers: middlewares, two transactions, panics, the deferred commit or rollback |
| `Base64Url`, `Decimal`, `Csrf`, `Credentials` | CSRF tokens and OAuth2 credentials |
| `Percent`, `Query`, `UrlParams` | query escaping and the functions that add and remove URL parameters |
| `SchemaRouting`, `TenantDataSource` | the registry of tenant connections, and the schema parameter in connection URLs |
| `TextToHtml`, `Pem` | text to markup, and the body of a PEM block |
| `Bytes`, `Sequences`, `Splitting`, `Wrappers` | byte strings, facts about sequences, split and join, option and result types |

Code that updates state is modelled by classes and methods with loops. Each such method is proved against a
specification function of the old state, and the theorems are lemmas about those functions, for all inputs and all
histories. What the framework does not decide (random bytes, clock readings, which connections succeed, what a handler
does, the order in which a map is ranged over) is a parameter or a nondeterministic choice, so every theorem holds for
all of it. HMAC is an arbitrary function, and the part of a URL before the query is parsed and printed by an arbitrary
function with the two laws stated in `UrlParams.Laws`.

## Where the code does less than its comments or names suggest

Each point is a lemma below; where a property fails, the exact condition under which it holds is proved.

* The comment at app/app.go:413 asks for all dependencies to be loaded. Only one level is: `FeatureLoader.ChainIsNotLoadable`,
  and exactly when loading succeeds is in `FeatureLoader.CheckFeatures`.
* A transaction survives a request that panics with a value that is not an error, because the deferred block asserts
  the value to be an error before it ends anything. `MultiTenantDataSource.Connection` panics with such a value (a
  string). Exactly which requests leave one open is in `RequestTransaction.AllEndedIff`; an example is
  `RequestTransaction.LookupPanicLeaksDefault`.
* An error returned by the handler, or by the second `Tx`, commits what has been begun: for exactly which requests is in
  `RequestTransaction.FailureCommitsIff`; examples are `RequestTransaction.HandlerErrorCommits` and
  `RequestTransaction.TenantErrorCommits`. Only a panic with an error rolls back: `RequestTransaction.RolledBackIff`.
* IDs repeat with period 3^16 milliseconds (about twelve hours) and after 4096 calls in one millisecond:
  `ShortIdGenerator.RunIdsCoincide`. The masked overflow guard at h/ids.go:63 can never fire.
* `AppendParamToUrl` answers the empty string for a URL that does not parse, does not escape keys, loses a bare trailing
  question mark, and appends behind the fragment if there is one; the last turns the schema strategy off.
  `UrlParams.AppendKeepsBase`, `UrlParams.AppendedKeyIff`, `UrlParams.RemoveAfterAppendIff` (for example
  `UrlParams.BareMarkIsLost`), `SchemaRouting.SchemaRoutedIff`.
* `AppendParamsToUrl` binds all its parameters exactly if all keys are plain and the URL parses and has no fragment; with
  other keys the result depends on the order in which the map is ranged over: `UrlParams.OrderMatters`,
  `UrlParams.OrderMattersInput`.
* The schema strategy does not escape tenant IDs either, so `a&x` and `a&y` share the schema `a`:
  `SchemaRouting.SchemaEndsAtAmpersand`; which IDs get through is in `SchemaRouting.SchemaRoutedIff`.
* `UnescapeUrl` does not always undo `EscapeUrl`, and `EscapeUrl` is not always idempotent: `Percent.UnescapeEscapeIff`,
  `Percent.EscapeTwiceIff`, and for example `Percent.EscapedInput`, `Percent.SpaceEscapedTwice`.
* The tenant registry confuses tenants whose IDs and slugs overlap: `TenantDataSource.IsolationIff`, and for example
  `TenantDataSource.SharedSlug`, `TenantDataSource.IdIsSlug`.

## Model

| member | source | states |
|---|---|---|
| FeatureOrder.OrderFeatures | app/app.go:425-483 | For every list of features and every order of the ready names: succeeds exactly if names are distinct, no dependency is missing and there is no cycle; the result is a permutation in which each dependency comes before its dependents; otherwise the error counts the names not blocked by a missing feature or a cycle. The unknown-feature error never comes out. |
| Features.ScheduleIsSettled | app/app.go:455-475 | A schedule that cannot be extended holds exactly the names from which no walk leads to a missing feature or a cycle, in whatever order ready names were taken. |
| Features.ReadyOrderIrrelevant | app/app.go:447-475 | Confluence: two such schedules hold the same names. |
| Features.LeftOutIsBlocked | app/app.go:477-480 | Each name left out has a witness: a walk to a missing feature, or a walk that visits a name twice (pigeonhole). |
| Features.RepeatIsCycle | app/app.go:477-480 | A walk that visits a name twice contains a cycle of the dependency graph. |
| Features.AllSettledIff | app/app.go:477-480 | Every name can be ordered exactly if no dependency is missing and the graph is acyclic. |
| Features.CountDecides | app/app.go:478-480 | Comparing the two lengths decides orderability, repeated names included. |
| FeatureOrder.SeedQueue | app/app.go:447-453 | The seed holds exactly the names with count zero, once each, in any order. |
| FeatureOrder.EdgeListSpells | app/app.go:439-445 | The edges recorded by the two nested loops are exactly the dependency relation, repeated entries kept. |
| FeatureOrder.OutstandingAfter | app/app.go:469-470 | Ordering a name takes from each count the number of times it is listed as a dependency there. |
| FeatureOrder.PopKeepsSorting | app/app.go:457-466 | Taking a name off the queue keeps the state: its dependencies are all ordered, no name is queued twice, counts match the unordered dependencies. |
| FeatureOrder.VisitKeepsSorting | app/app.go:469-474 | Decrementing one dependent, and queueing it at zero, keeps the same state. |
| FeatureLoader.ClosureIsOneLevel | app/app.go:413-421 | The loaded features are the requested ones and their direct dependencies, once per name, the requested instance preferred. |
| FeatureLoader.AddedAreFirstListed | app/app.go:413-421 | Of a name that was not requested, the instance at the first place is loaded, features first to last and the dependencies of each first to last; the ones added keep the order of their places. |
| FeatureLoader.LoadableIff | app/app.go:413-422 | Given proper names, the loaded list is orderable exactly if no dependency of a loaded dependency is missing and there is no cycle. |
| FeatureLoader.ChainIsNotLoadable | app/app.go:413-421 | In a chain of three of which the first is requested, the third is not loaded and loading fails. |
| FeatureLoader.CheckFeatures | app/app.go:400-423 | Succeeds exactly on loadable lists, with a topologically ordered permutation of the closure; each error is returned exactly in its own case, for the first offending feature. |
| FeatureLoader.EarlyHooksOnce | app/app.go:134-143 | Each loaded feature with an early hook has it called exactly once. |
| FeatureLoader.EarlyHooksInOrder | app/app.go:134-143 | When an early hook is called, those of the loaded dependencies of its feature have been. |
| FeatureLoader.EarlyHooksFollow | app/app.go:134-143 | Early hooks are called in the order of the features. |
| FeatureLoader.Preload | app/app.go:134-143 | The early hooks are called in the order of the features, up to the first feature without a create function, which is the one reported. |
| FeatureLoader.Init | app/app.go:123-280 | Succeeds exactly if loading does, every loaded feature has a create function and the infrastructure comes up. Each early hook is called exactly once, after those of the dependencies; every early hook precedes every OnInit, each OnInit follows those of all its dependencies, each loaded feature is initialised exactly once, and on failure none is. Each kind of failure comes in its own case, with its cause or the name of the feature, and what has been called by then is determined. |
| ShortId.EncodeValue | h/ids.go:79-82 | Reading the digits back gives the value they keep. |
| ShortId.EightDigits | h/ids.go:79-82 | Eight digits keep the value modulo 36^8. |
| ShortId.IdDecodes | h/ids.go:76-87 | An ID has eight digits that decode to the packed value modulo 36^8, for every timestamp. |
| ShortId.PackIsSum | h/ids.go:77 | The bitwise or of the three fields, the first shifted out of 64 bits where it is too large, is their sum: they do not overlap. |
| ShortId.OffsetIsNewYear | h/ids.go:29 | The offset is the beginning of 2025 in milliseconds, counted day by day from 1970. |
| ShortId.IdsCoincide | h/ids.go:70-87 | Two IDs are equal exactly if the counts are, 16 divides the difference of the machines, and 3^16 divides 64 times the time difference plus a sixteenth of it. |
| ShortId.AnyIdsCoincide | h/ids.go:70-87 | The same for timestamps outside the 42 bits, negative ones included. |
| ShortId.SameMachineIdsCoincide | h/ids.go:70-87 | On one machine: equal counts, and times congruent modulo 3^16. |
| ShortId.SafeWindow | h/ids.go:77-83 | Within 672604 ms only equal triples give equal IDs, on any machines. |
| ShortId.SafeWindowIsTight | h/ids.go:77-83 | At 672605 ms, machines 16 apart collide. |
| ShortId.OrderInBlock | h/ids.go:77-87 | In one block of 36^8 packed values, byte order of IDs is the order of time, machine and count. |
| ShortId.LessIsNumeric | h/ids.go:32 | The alphabet ascends: byte order of equally long digit strings is numeric order. |
| ShortIdGenerator.ShortIDGenerator.Generate | h/ids.go:42-88 | One call moves clock and counter as specified and returns eight digits worth the 42 bits of time, the ten of the machine and the twelve of the counter, modulo 36^8; neither retry is taken by a single caller. |
| ShortIdGenerator.ShortIDGenerator.constructor | h/ids.go:24-39 | Any machine number is cut to ten bits; the generator starts at clock and counter zero. |
| ShortIdGenerator.CounterIsRank | h/ids.go:50-61 | On a clock that does not go back, the counter is the number of earlier calls in the same millisecond. |
| ShortIdGenerator.CounterIsStreak | h/ids.go:50-61 | On any clock, also one that goes back, the counter is the number of calls in a row just before with the same reading, in 32 bits. |
| ShortIdGenerator.RunIdsCoincide | h/ids.go:42-88 | Two calls of a run give the same ID exactly if their times are congruent modulo 3^16 and their ranks modulo 4096. |
| ShortIdGenerator.RunIsUnique | h/ids.go:42-88 | Over less than 3^16 ms, a run has no duplicates exactly if no millisecond holds more than 4096 calls. |
| ShortIdGenerator.PeriodCollides | h/ids.go:42-88 | The bound on the span is tight. |
| ShortIdGenerator.MachinesShareNoId | h/ids.go:22-27 | Runs on machines with different numbers have no ID in common as long as their clock readings are within 672604 ms of one another. |
| ShortIdGenerator.ClusterIsUnique | h/ids.go:22-88 | Within that window, all IDs of any number of machines are different exactly if on none of them a millisecond holds more than 4096 calls. |
| Container.ComponentContainer.Lookup | core/di.go:31-57 | The two sections together answer and change the tables like one atomic lookup that caches what it finds. |
| Container.ComponentContainer.WriteSection | core/di.go:42-56 | The rechecking section does so from any tables, whatever was cached since the first section. |
| Container.ComponentContainer.Provide | core/di.go:18-24 | Registering replaces the provider and leaves the cache alone. |
| Container.ComponentContainer.Resolve | core/di.go:61-69 | The component found, or an error for the type, with the effect of a lookup. |
| Container.ComponentContainer.Clear | core/di.go:82-87 | Both tables are empty afterwards. |
| Container.StableUntilClear | core/di.go:31-57 | In every legal history, after a successful lookup and until the next Clear all lookups of the type give the same component, whatever is provided. |
| Container.FirstHitReadsRegistry | core/di.go:51-55 | The first lookups after a Clear give what was provided last since then, and fail exactly if nothing was. |
| ContainerProtocol.StepKeepsInv | core/di.go:18-87 | Every step of every thread keeps mutual exclusion, the facts each program point relies on, and the refinement. |
| ContainerProtocol.StepRefines | core/di.go:31-57 | A step either leaves the atomic tables alone or performs one atomic operation that the specification allows, with the answer the thread will return. |
| ContainerProtocol.EveryRunLinearizes | core/di.go:18-87 | For any number of threads and any interleaving, the log of effects is a legal sequential history; each finished call has its own entry between its invocation and its response, with the answer it returned, and every entry is the effect of a call. |
| ContainerProtocol.RealTimeOrder | core/di.go:18-87 | A call whose response is an earlier step of the schedule than the invocation of another takes effect before it; invocations and responses are the steps of the schedule that they should be. |
| ContainerProtocol.LookupsAgree | core/di.go:31-57 | Concurrent lookups of a type agree as long as no Clear takes effect between them. |
| ContainerProtocol.NoDeadlock | core/di.go:21-56 | While a call is in progress some thread can move. |
| RequestTransaction.WrapHandler | adapters/router_impl.go:333-417 | For every request the events, in order, are those of the stages up to the first that does not succeed, followed by the deferred block; the way the function is left is determined too. |
| RequestTransaction.TraceIsStory | adapters/router_impl.go:333-417 | The same trace and exit, written out from the parts of the request without stages: the middlewares that run, the transactions begun, the handler, the answers with their statuses 400 and 500 or the error's own, and what is ended, an incoming connection included. |
| RequestTransaction.ReturnedErrorIff | adapters/router_impl.go:379-399 | An error is returned to the router exactly if it is that of a Tx that was reached: on the default connection, or on the tenant's with the default one fine. |
| RequestTransaction.ReturnedNothingIff | adapters/router_impl.go:373-416 | Nothing is returned exactly if a middleware or the handler fails, or the handler succeeds. |
| RequestTransaction.RecoveredIff | adapters/router_impl.go:348-358 | A panic with an error is recovered with that very error, in each of the places where it can happen; a missing tenant key is one. |
| RequestTransaction.PropagatedOnRequestIff | adapters/router_impl.go:348-349 | A panic is let through exactly if one of those places panics with a value that is not an error. |
| RequestTransaction.TenantSetLast | adapters/router_impl.go:373-379 | The tenant key that a middleware sets counts if none after it sets another. |
| RequestTransaction.TenantNotSet | adapters/router_impl.go:373-379 | If no middleware sets it, that of the request counts. |
| RequestTransaction.Wrapper.RunMiddlewares | adapters/router_impl.go:373-377 | Middlewares stop at the first that fails or panics, and the tenant set last counts. |
| RequestTransaction.Wrapper.Defer | adapters/router_impl.go:343-369 | What the deferred block ends depends on the connections in the context, the flag, and what was recovered. |
| RequestTransaction.HandlerRunsIff | adapters/router_impl.go:373-409 | The handler runs exactly if all middlewares succeeded, the tenant key is present, possibly empty, and every connection there is was found and a transaction begun on it. |
| RequestTransaction.EndedExactlyOnce | adapters/router_impl.go:343-369 | Unless a panic propagates, each transaction begun is ended exactly once: rolled back if an error was recovered, committed otherwise. |
| RequestTransaction.PropagatedEndsNothing | adapters/router_impl.go:348-349 | If a panic propagates nothing is ended. |
| RequestTransaction.PropagatedIff | adapters/router_impl.go:348-358 | A panic propagates exactly if some stage that was reached panicked with a value that is not an error. |
| RequestTransaction.AllEndedIff | adapters/router_impl.go:333-417 | All transactions begun are ended, once each, unless all middlewares succeed, the tenant key is present, there is a data source, and either the default transaction is begun and then looking up the tenant's connection or beginning on it panics with a value that is not an error, or everything is begun, something at least, and the handler panics with such a value. |
| RequestTransaction.FailureStillCommits | adapters/router_impl.go:359-367 | After an error returned by the handler or by a Tx call, what was begun is committed. |
| RequestTransaction.FailureCommitsIff | adapters/router_impl.go:333-417 | A request that returns an error commits a transaction exactly if all middlewares succeed, the tenant key is present, there is a data source, and either the default transaction is begun and then beginning on the tenant's connection fails, or everything is begun, something at least, and the handler fails. |
| RequestTransaction.RolledBackIff | adapters/router_impl.go:350-358 | A transaction is rolled back exactly if, in the same two situations, there is a panic with an error value instead. |
| RequestTransaction.HandlerErrorCommits | adapters/router_impl.go:359-409 | The whole trace of a request whose handler returns an error: the default transaction is begun and committed. |
| RequestTransaction.TenantErrorCommits | adapters/router_impl.go:359-399 | The same for a request that cannot begin on the tenant's connection. |
| RequestTransaction.OnlyTheseEnd | adapters/router_impl.go:345-367 | Only transactions begun here, or connections already in the incoming context, are ended, and only if one was begun. |
| RequestTransaction.EndsComeLast | adapters/router_impl.go:343-409 | Every end comes after every middleware, every begin and the handler. |
| RequestTransaction.DefaultEndsFirst | adapters/router_impl.go:350-366 | Where both transactions were begun, the default one is ended before the tenant's. |
| RequestTransaction.AnsweredAtMostOnce | adapters/router_impl.go:333-417 | The wrapper answers at most once: exactly if a middleware or the handler returned an error, or an error was recovered. |
| RequestTransaction.LookupPanicLeaksDefault | adapters/router_impl.go:381-393 | A tenant lookup that panics with a string leaves the default transaction open. |
| Splitting.SplitOfJoin | adapters/token_impl.go:69-83 | Splitting undoes joining for parts without the separator. |
| Splitting.JoinOfSplit | adapters/token_impl.go:69-83 | Joining undoes splitting, and no part holds the separator. |
| Bytes.LessIs | h/urls.go:69-71 | One string is less than another exactly if, at the first difference, it ends or has the smaller byte. |
| Base64Url.RoundTrip | h/crypto.go:111-116 | Decoding undoes encoding for every byte string. |
| Base64Url.EncodeIsSymbols | h/crypto.go:111-121 | Encodings hold only letters, digits, hyphen and underscore. |
| Base64Url.SymbolsAre | h/crypto.go:111 | The alphabet is that of RFC 4648 for URLs. |
| Base64Url.BlockBits | h/crypto.go:111 | Four symbols hold the 24 bits of three bytes, most significant first. |
| Base64Url.EncodeBlocks | h/crypto.go:111 | The encoding goes block by block. |
| Base64Url.LastBits | h/crypto.go:111 | One or two bytes left at the end are filled up with zero bits. |
| Base64Url.DecodableIff | h/crypto.go:151 | Apart from line breaks, a text can be decoded exactly if it holds symbols only and is not one too long. |
| Base64Url.DecodeThenEncode | h/crypto.go:151 | What it decodes to is encoded as that text, up to the spare bits of the last symbol. |
| Base64Url.SkipsLineBreak | h/crypto.go:151 | Line breaks anywhere make no difference. |
| Base64Url.KeepsOthers | h/crypto.go:151 | Nothing else is skipped. |
| Decimal.RoundTrip | h/crypto.go:114-115 | Parsing undoes formatting exactly in the range of int64. |
| Decimal.DigitsAre | h/crypto.go:115 | Digits come most significant first and without zeros in front. |
| Decimal.ParsesIff | h/crypto.go:156 | Exactly digits behind an optional sign, in the range of int64, can be parsed. |
| Decimal.ZeroInFront | h/crypto.go:156 | Zeros in front make no difference. |
| Decimal.PlusInFront | h/crypto.go:156 | Neither does a plus sign. |
| Csrf.MintedThenVerified | h/crypto.go:105-166 | The verdict on a minted token, for every verifying secret and time: a signature error exactly if the two secrets sign its payload differently, else expired exactly if the current second is past the expiry second, else accepted. |
| Csrf.MintedToken | h/crypto.go:105-124 | A minted token has two parts around a dot, the first of them two around a colon; they decode to the random bytes, the second of expiry in decimal and the code of the first part. |
| Csrf.MintedTokensDiffer | h/crypto.go:105-124 | Tokens with different random bytes or seconds of expiry are different. |
| Csrf.UnixIs | h/crypto.go:114 | The second of an instant is the one it lies in. |
| Csrf.MalformedIff | h/crypto.go:128-147 | The two errors of form come exactly for a token that is no pair around a dot, and for a signed part that is none around a colon. |
| Csrf.VerdictIs | h/crypto.go:135-164 | For a token with all its parts, the verdict in the order of the tests. |
| Csrf.AcceptedIff | h/crypto.go:127-166 | An arbitrary token is accepted exactly if it is a payload, an encoded expiry that has not passed and the correct signature, put together with one colon and one dot. |
| Csrf.SignatureIsDetermined | h/crypto.go:135-143 | Two accepted tokens that agree up to the dot are equal. |
| Credentials.GenerateOAuth2Credentials | h/crypto.go:29-58 | For every pair of requested lengths: an ID of the even length below or at n, a secret of length n, or n-1 if n leaves 1 modulo 4, in lower-case hexadecimal and the URL-safe alphabet, encoding all the bytes read; nonpositive requests give 32 and 64. |
| Credentials.TrimmedIsUnpadded | h/crypto.go:54-55 | Trimming the padding gives the unpadded encoding. |
| Credentials.HexPairs | h/crypto.go:44 | Each byte is written as two hexadecimal digits, the high one first. |
| Credentials.CredentialsTell | h/crypto.go:44-55 | Different bytes give different identifiers and secrets. |
| Percent.RoundTrip | h/urls.go:110-123 | Unescaping undoes escaping. |
| Percent.EscapedByte | h/urls.go:114 | What becomes of each byte: the unreserved characters of RFC 3986 stay, a space becomes a plus sign, others a percent sign and two upper-case digits. |
| Percent.EscapeConcat | h/urls.go:114 | Escaping goes byte by byte. |
| Percent.UnescapedByte | h/urls.go:118 | A plus sign is decoded to a space and any other byte but the percent sign to itself. |
| Percent.UnescapedDigits | h/urls.go:118 | Two hexadecimal digits of either case behind a percent sign are the byte they write. |
| Percent.DecodableIff | h/urls.go:117-122 | A text can be unescaped exactly if two hexadecimal digits follow each percent sign. |
| Percent.UnescapeEscapeIff | h/urls.go:110-123 | UnescapeUrl undoes EscapeUrl exactly on inputs without a percent sign, or with one that two hexadecimal digits do not follow. |
| Percent.EscapeTwiceIff | h/urls.go:110-115 | EscapeUrl is idempotent exactly on inputs without a space or with a character that needs a percent sign. |
| Percent.EscapedInput | h/urls.go:110-123 | The input %41 comes back as A. |
| Percent.SpaceEscapedTwice | h/urls.go:110-115 | Escaping a space twice gives %2B. |
| Query.EncodeRoundTrip | h/urls.go:69-71 | Parsing an encoded query gives its bindings in key order. |
| Query.SortKeeps | h/urls.go:69-71 | Encoding in key order keeps the values of each key in their order. |
| Query.SortAscends | h/urls.go:69-71 | The keys ascend in the order of strings. |
| Query.BareKey | h/urls.go:69 | A key without an equals sign has the empty value. |
| Query.EmptyPiece | h/urls.go:69 | Empty pieces are no bindings. |
| Query.RawKeyValues | h/urls.go:75-84 | For every key, written unescaped with an escaped value: the key has that value alone if it holds none of the five characters with a meaning in a query, and no value otherwise. |
| Query.RawValueIff | h/urls.go:75-84 | For every value, written unescaped behind a plain key: it is read back exactly if it holds none of four characters. |
| UrlParams.RemoveKeepsRest | h/urls.go:64-73 | Removing a parameter takes all its values out and leaves the base, the fragment and the values of every other key. |
| UrlParams.PlainKeysAre | h/urls.go:75-84 | The characters that plain keys are without, by their codes. |
| UrlParams.AppendedQuery | h/urls.go:75-85 | For every URL without a fragment, key and value: the query of the result is the sorted rest of the old one, and behind it what the new text spells up to the first #. |
| UrlParams.AppendBinds | h/urls.go:75-85 | Without # and control characters in key and value, the result parses and all of the new text is spelled out. |
| UrlParams.AppendedOutside | h/urls.go:75-85 | For a URL with a fragment, the query of the result is the sorted rest alone. |
| UrlParams.AppendEscaped | h/urls.go:87-90 | Appending a plain key with an escaped value binds the key to that value alone and changes no other. |
| UrlParams.AppendParamsToUrl | h/urls.go:87-92 | For every URL, every map and every order of it: each parameter is bound to its value alone and all other keys keep their values, exactly if all keys of the map are plain and the URL parses and has no fragment. |
| UrlParams.OrderMatters | h/urls.go:87-92 | With the keys a=b and a, for plain a and b, appending a last leaves it one value, appending it first leaves it two. |
| UrlParams.OrderMattersInput | h/urls.go:87-92 | So it is with the letters a and b on every URL without a fragment. |
| UrlParams.AppendedKeyIff | h/urls.go:75-92 | For every URL and every key: with an escaped value appended, the key has that value alone if it is plain, the URL parses and has no fragment, and no value otherwise. |
| UrlParams.AppendKeepsBase | h/urls.go:75-79 | A URL that does not parse becomes the empty string; of any other the base is kept, whatever is appended. |
| UrlParams.RemoveAfterAppendIff | h/urls.go:64-85 | For every URL, key and value: removing an appended parameter gives what removing it at once gives, exactly under these conditions. Without a fragment: the URL did not end in a bare question mark, nothing of the new text is behind a #, what is before it holds no control character, and it spells no binding of another key. With a fragment: the library prints the longer fragment as it printed the old one. For a URL that does not parse: the library rejects the empty base too. |
| UrlParams.BareMarkIsLost | h/urls.go:64-85 | Appending any plain parameter to "b?" and removing it gives "b". |
| SchemaRouting.ConnectionImpl.Configure | adapters/connection_impl.go:94-165 | The schema parameter is taken out of a PostgreSQL URL and kept as the schema; other URLs are left alone or rejected. |
| SchemaRouting.PostgresConfigured | adapters/connection_impl.go:102-117 | A URL with one of the two PostgreSQL schemes is accepted exactly if it parses; without a value of schema, or with an empty first one, it stays as it is, else the first value is the schema and the URL loses the parameter. |
| SchemaRouting.BarePostgresConfigured | adapters/connection_impl.go:102-117 | For example, one without query and fragment is taken as it is. |
| SchemaRouting.LocalConfigured | adapters/connection_impl.go:119-133 | A sqlite:// or file: URL is taken as it is, and any other but PostgreSQL's refused. |
| SchemaRouting.SchemaIsSpelled | adapters/connection_impl.go:107 | The parameter is called schema. |
| SchemaRouting.RoutableIdsAre | adapters/ds_impl.go:107-108 | The characters that routable IDs are without, by their codes. |
| SchemaRouting.SchemaRoundTrip | adapters/connection_impl.go:102-113 | For IDs without &, ;, %, +, # and control characters, the URL built for a tenant is split into the tenant's ID as schema and the base URL without any schema parameter. |
| SchemaRouting.SchemaRoutedIff | adapters/ds_impl.go:107-108 | For every nonempty ID, the tenant comes out as the schema exactly if the base URL has no fragment and the ID none of those characters. |
| SchemaRouting.SchemaEndsAtAmpersand | adapters/ds_impl.go:107-108 | An ID with an ampersand is routed to the schema named by what is before it. |
| TenantDataSource.MultiTenantDataSource.Init | adapters/ds_impl.go:54-80 | Connects the default database if one is configured, then loads the tenants. |
| TenantDataSource.MultiTenantDataSource.InitTenant | adapters/ds_impl.go:100-123 | A tenant is connected only if its ID is not registered, and then registered under both keys. |
| TenantDataSource.MultiTenantDataSource.Connection | adapters/ds_impl.go:129-142 | A missing key reloads the tenants once, then answers what is there, nil, or panics if the reload failed. |
| TenantDataSource.EveryHistoryIsIsolated | adapters/ds_impl.go:54-142 | After one Init, in every history of lookups, reloads, events and failing connections: both keys of a tenant give one connection, different tenants never share one, none gets the default, no ID is connected twice, no entry is replaced. |
| TenantDataSource.KeysLeadHome | adapters/ds_impl.go:100-123 | In every history each key of a tenant leads to the connection that a tenant with its ID asks for. |
| TenantDataSource.TenantsHaveOwnDatabase | adapters/ds_impl.go:104-123 | Without the schema strategy that is the database of the tenant's own URL, the URL itself if it is a local one. |
| TenantDataSource.TenantUrlIs | adapters/ds_impl.go:106-109 | The strategy applies to the first PostgreSQL scheme only. |
| TenantDataSource.NamesAre | adapters/ds_impl.go:107 | How the strategy and the default key are spelled. |
| TenantDataSource.TenantAnswers | adapters/ds_impl.go:129-142 | After every history, a lookup of a tenant's key answers a connection of that tenant, nil only if the tenant is not on the list loaded, and panics only if loading fails. |
| TenantDataSource.AnswersLast | adapters/ds_impl.go:129-132 | Once answered with a connection, a key is answered with it ever after, whatever loading would do. |
| TenantDataSource.ReloadGoesThroughIff | adapters/ds_impl.go:82-98 | Loading goes through exactly if there is no provider, or it gives a list of which every tenant is registered afterwards. |
| TenantDataSource.InitSucceedsIff | adapters/ds_impl.go:54-80 | When every attempt reaches its database, Init succeeds exactly if the default URL and the URL of each tenant are accepted. |
| TenantDataSource.SchemaInitSucceeds | adapters/ds_impl.go:54-123 | Under the schema strategy it does for IDs without # and control characters, on a URL without a fragment. |
| TenantDataSource.NilIsForUnlisted | adapters/ds_impl.go:129-142 | After every history, nil is answered only for keys of nobody on the list just loaded. |
| TenantDataSource.NilIsForStrangers | adapters/ds_impl.go:129-142 | After every history, a key of nobody is answered with nil, or a panic if the load fails; the default key with the default connection if there is one. |
| TenantDataSource.DefaultIsStable | adapters/ds_impl.go:125-127 | In every history the default connection is the one opened at Init, or none if no database is configured, as long as no tenant takes its key. |
| TenantDataSource.IsolationIff | adapters/ds_impl.go:82-123 | If every connection of an Init succeeds, with or without a default database, its tenants are registered and isolated exactly if different IDs share no key, no key is the default key, and each slug is a key of the first tenant listed with its ID. |
| TenantDataSource.SharedSlug | adapters/ds_impl.go:100-123 | Of two tenants with a slug in common, the slug of the first leads to the connection of the second. |
| TenantDataSource.SharedSlugInput | adapters/ds_impl.go:54-123 | So it is after an Init with the tenants a and b, both with the slug s. |
| TenantDataSource.IdIsSlug | adapters/ds_impl.go:100-123 | A tenant whose ID is the slug of an earlier one is never connected, and its ID leads to the other. |
| TenantDataSource.TenantsHaveOwnSchema | adapters/ds_impl.go:100-123 | Under the schema strategy, in every history, each key of a tenant leads to a connection whose schema is the tenant's ID exactly if the database URL has no fragment and the ID no character that does not get through; its URL is then the common one without the parameter. |
| TextToHtml.ReadsBack | h/html.go:9-23 | The markup can be read back: it gives the text with runs of newlines collapsed. |
| TextToHtml.CodesAre | h/html.go:11-20 | What each special character and each line break is written as; all others stay. |
| TextToHtml.RenderConcat | h/html.go:11-20 | The collapsed text is written character by character. |
| TextToHtml.SameMarkupIff | h/html.go:9-23 | Two texts give the same markup exactly if they agree after collapsing runs of newlines. |
| TextToHtml.CollapseRun | h/html.go:13-16 | A run of newlines becomes one. |
| TextToHtml.CollapseAround | h/html.go:13-16 | Every other character stays, and what is on either side of it is collapsed on its own. |
| TextToHtml.CollapseIs | h/html.go:13-16 | Collapsing leaves no run and changes no text without one. |
| TextToHtml.OnlyBreaks | h/html.go:10-22 | The markup of a text is enclosed in the two tags; in between, each angle bracket belongs to a line break and there is no quotation mark. |
| Pem.StripPEMHeaders | adapters/token_impl.go:68-84 | Returns the body lines of the input, joined. |
| Pem.OutputIs | adapters/token_impl.go:68-84 | Position by position: the output joins what exactly those lines carry between white space that are not empty there and no header or footer, in their order. |
| Pem.OutputLines | adapters/token_impl.go:68-84 | The output splits back into those lines. |
| Pem.SpacesAre | adapters/token_impl.go:73 | The white space among the ASCII characters. |
| Pem.StripIsIdempotent | adapters/token_impl.go:68-84 | Stripping twice is stripping once. |
| Pem.TrimSpaceIs | adapters/token_impl.go:73 | Trimming cuts spaces, and only spaces, off both ends until none is left there. |

## Left out

- Redis, Asynq, Vault, Sentry, Resend, MCP, localisation, SQL, migrations, JWT, bcrypt and TOTP: thin layers over libraries.
- Routing, binding, rendering, starting and stopping the server, the builder's setters, permission checks, in-memory caches, idempotency keys: they would add only easy members.
- The file systems of features, and what the infrastructure between the two hook loops of Init does; it succeeds or fails.
- Concurrent callers of the ID generator: the compare-and-swap, the counter reset and the shared buffer are separate steps, and the original does not promise uniqueness there.
- ShortIdGenerator.RunIsUnique: does not cover clocks that go back, nor readings outside the 42 bits after 2025.
- The preference that Go's lock gives to waiting writers: the protocol allows every order in which the lock can be granted.
- Nil providers in the container: looking one up panics in the original.
- RequestTransaction.EndedExactlyOnce: counts the ends that the wrapper requests; a handler that ends its transactions itself, or a commit that fails, is not modelled.
- The authentication value that the wrapper reads and passes on.
- The text of error messages; errors are told apart by kind, with the data their messages carry where it matters.
- How the part of a URL before the query and the fragment are parsed and printed: arbitrary functions with two laws, `UrlParams.Laws`.
- SchemaRouting.SchemaRoutedIff: leaves out the empty ID, for which no schema is selected either way.
- Data races on the tenant map: the original takes no lock there, and the model has one caller at a time.
- Byte-level UTF-8: `TextToHtml` and `Pem` work on characters.
