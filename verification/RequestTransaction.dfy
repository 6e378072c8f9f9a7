// wrapHandler: middlewares, up to two transactions, the handler, and the deferred block that
// ends the transactions. What the middlewares, the data source and the handler do is arbitrary.
module RequestTransaction {
  import opened Sequences
  import opened Wrappers

  // Errors that carry an HTTP status of their own, and all the others.
  datatype Failure = Plain | WithStatus(code: int)

  // The deferred block converts a recovered value to an error, which itself panics if it is none.
  datatype Panic = ErrorValue(e: Failure) | OtherValue

  datatype Outcome = Succeeds | Fails(e: Failure) | Panics(p: Panic)

  // A middleware may set the tenant before it is done.
  datatype Middleware = Middleware(tenant: Option<string>, outcome: Outcome)

  datatype TenantLookup = Found(cnx: nat) | NoConnection | LookupPanics(p: Panic)

  // The default connection with the outcome of its Tx call, and the same for the tenant of the request.
  datatype DataSource = DataSource(default: Option<nat>, defaultTx: Outcome, lookup: TenantLookup, tenantTx: Outcome)

  datatype Connection = DefaultTx(of: nat) | TenantTx(of: nat) | Foreign(id: nat)

  // Everything the wrapper does not decide: the tenant key and the connections already in the
  // incoming context, and how the parts it calls behave.
  datatype Request = Request(
    tenant: Option<string>, incomingDefault: Option<nat>, incomingTenant: Option<nat>,
    middlewares: seq<Middleware>, dataSource: Option<DataSource>, handler: Outcome)

  datatype Event =
    | MiddlewareRan
    | Began(tx: Connection)
    | HandlerRan
    | Responded(status: int)
    | Ended(cnx: Connection, committed: bool)

  datatype Exit = Returned(err: Option<Failure>) | Recovered(e: Failure) | Propagated

  function Status(e: Failure, code: int): int {
    var status := if e.WithStatus? then e.code else code;
    if status == 0 then 500 else status
  }

  // ---------------------------------------------------------------- the stages of a request

  datatype Stage =
    | RunMiddleware(outcome: Outcome)
    | ReadTenant(outcome: Outcome)
    | BeginDefault(cnx: nat, outcome: Outcome)
    | FindTenant(outcome: Outcome)
    | BeginTenant(cnx: nat, outcome: Outcome)
    | Handle(outcome: Outcome)

  function TenantAfter(tenant: Option<string>, ms: seq<Middleware>): Option<string>
    decreases |ms|
  {
    if ms == [] then tenant else TenantAfter(if ms[0].tenant.Some? then ms[0].tenant else tenant, ms[1..])
  }

  function MiddlewareStages(ms: seq<Middleware>): (st: seq<Stage>)
    ensures |st| == |ms|
  {
    if ms == [] then [] else [RunMiddleware(ms[0].outcome)] + MiddlewareStages(ms[1..])
  }

  function DefaultStages(ds: DataSource): seq<Stage> {
    if ds.default.Some? then [BeginDefault(ds.default.value, ds.defaultTx)] else []
  }

  function TenantStages(ds: DataSource, tenant: string): seq<Stage> {
    if tenant == "" then [] else
      match ds.lookup
      case Found(c) => [FindTenant(Succeeds), BeginTenant(c, ds.tenantTx)]
      case NoConnection => [FindTenant(Succeeds)]
      case LookupPanics(p) => [FindTenant(Panics(p))]
  }

  // Reading the tenant asserts that the key holds a string: without one it panics.
  function TenantStage(tenant: Option<string>): Stage {
    ReadTenant(if tenant.Some? then Succeeds else Panics(ErrorValue(Plain)))
  }

  function DataStages(ds: Option<DataSource>, tenant: Option<string>): seq<Stage> {
    if ds.None? || tenant.None? then [] else DefaultStages(ds.value) + TenantStages(ds.value, tenant.value)
  }

  function Preparation(r: Request): seq<Stage> {
    var tenant := TenantAfter(r.tenant, r.middlewares);
    MiddlewareStages(r.middlewares) + [TenantStage(tenant)] + DataStages(r.dataSource, tenant)
  }

  function Stages(r: Request): seq<Stage> {
    Preparation(r) + [Handle(r.handler)]
  }

  // The stages carried out: all up to the first that does not succeed, and that one.
  function Executed(st: seq<Stage>): seq<Stage> {
    if st == [] then [] else if st[0].outcome.Succeeds? then [st[0]] + Executed(st[1..]) else [st[0]]
  }

  function Stop(st: seq<Stage>): Outcome {
    if st == [] then Succeeds else if st[0].outcome.Succeeds? then Stop(st[1..]) else st[0].outcome
  }

  function EventsOf(s: Stage): seq<Event> {
    match s
    case RunMiddleware(o) => [MiddlewareRan] + (if o.Fails? then [Responded(Status(o.e, 400))] else [])
    case BeginDefault(c, o) => if o.Succeeds? then [Began(DefaultTx(c))] else []
    case BeginTenant(c, o) => if o.Succeeds? then [Began(TenantTx(c))] else []
    case Handle(o) => [HandlerRan] + (if o.Fails? then [Responded(Status(o.e, 0))] else [])
    case _ => []
  }

  function Events(st: seq<Stage>): seq<Event> {
    if st == [] then [] else EventsOf(st[0]) + Events(st[1..])
  }

  // What the request has done when the deferred block starts.
  function Body(r: Request): seq<Event> {
    Events(Executed(Stages(r)))
  }

  // The connections that the context holds after some events, and whether inTx has been set.
  function DefaultIn(incoming: Option<nat>, es: seq<Event>): Option<Connection> {
    if es == [] then (if incoming.Some? then Some(Foreign(incoming.value)) else None)
    else
      var e := es[|es| - 1];
      if e.Began? && e.tx.DefaultTx? then Some(e.tx) else DefaultIn(incoming, es[..|es| - 1])
  }

  function TenantIn(incoming: Option<nat>, es: seq<Event>): Option<Connection> {
    if es == [] then (if incoming.Some? then Some(Foreign(incoming.value)) else None)
    else
      var e := es[|es| - 1];
      if e.Began? && e.tx.TenantTx? then Some(e.tx) else TenantIn(incoming, es[..|es| - 1])
  }

  predicate InTx(es: seq<Event>) {
    exists e :: e in es && e.Began?
  }

  function EndOf(cnx: Option<Connection>, committed: bool): seq<Event> {
    if cnx.Some? then [Ended(cnx.value, committed)] else []
  }

  function Ends(r: Request, es: seq<Event>, committed: bool): seq<Event> {
    if !InTx(es) then [] else
      EndOf(DefaultIn(r.incomingDefault, es), committed) + EndOf(TenantIn(r.incomingTenant, es), committed)
  }

  function Deferred(r: Request, es: seq<Event>, stop: Outcome): seq<Event> {
    match stop
    case Panics(OtherValue) => []
    case Panics(ErrorValue(e)) => Ends(r, es, false) + [Responded(Status(e, 500))]
    case _ => Ends(r, es, true)
  }

  function Trace(r: Request): seq<Event> {
    Body(r) + Deferred(r, Body(r), Stop(Stages(r)))
  }

  // A failing Tx is returned to the router; the other errors have been answered already.
  function ExitOf(r: Request): Exit {
    ExitAt(Last(Stages(r)))
  }

  function ExitAt(last: Stage): Exit {
    match last.outcome
    case Panics(OtherValue) => Propagated
    case Panics(ErrorValue(e)) => Recovered(e)
    case Fails(e) => Returned(if last.BeginDefault? || last.BeginTenant? then Some(e) else None)
    case Succeeds => Returned(None)
  }

  // The last stage carried out.
  function Last(st: seq<Stage>): Stage
    requires st != []
  {
    var done := Executed(st);
    done[|done| - 1]
  }

  // ---------------------------------------------------------------- the wrapper itself

  lemma {:induction false} ExecutedConcat(a: seq<Stage>, b: seq<Stage>)
    ensures Executed(a + b) == if Stop(a).Succeeds? then a + Executed(b) else Executed(a)
    ensures Stop(a + b) == if Stop(a).Succeeds? then Stop(b) else Stop(a)
  {
    if a == [] {
      assert a + b == b && a + Executed(b) == Executed(b);
    } else {
      ExecutedConcat(a[1..], b);
      HeadInFront(a, b);
      HeadInFront(a, Executed(b));
    }
  }

  lemma {:induction false} LastStops(a: seq<Stage>)
    requires a != []
    ensures |Executed(a)| > 0 && Last(a).outcome == Stop(a)
  {
    if |a| > 1 && a[0].outcome.Succeeds? {
      LastStops(a[1..]);
    }
  }

  lemma {:induction false} EventsConcat(a: seq<Stage>, b: seq<Stage>)
    ensures Events(a + b) == Events(a) + Events(b)
  {
    hide EventsOf;
    if a == [] {
      assert a + b == b;
    } else {
      EventsConcat(a[1..], b);
      assert (a + b)[0] == a[0] && (a + b)[1..] == a[1..] + b;
      Regroup(EventsOf(a[0]), Events(a[1..]), Events(b));
    }
  }

  // Carrying out one list of stages after another.
  lemma Compose(a: seq<Stage>, b: seq<Stage>)
    ensures Events(Executed(a + b)) == Events(Executed(a)) + (if Stop(a).Succeeds? then Events(Executed(b)) else [])
    ensures Stop(a + b) == if Stop(a).Succeeds? then Stop(b) else Stop(a)
    ensures Stop(a).Succeeds? && b != [] ==> Last(a + b) == Last(b)
    ensures !Stop(a).Succeeds? ==> a != [] && Last(a + b) == Last(a)
  {
    hide Events;
    ExecutedConcat(a, b);
    ExecutedConcat(a, []);
    assert a + [] == a && a + Executed([]) == a;
    EventsConcat(a, Executed(b));
    if a != [] {
      LastStops(a);
    }
    if b != [] {
      LastStops(b);
    }
  }

  lemma Single(s: Stage)
    ensures Events(Executed([s])) == EventsOf(s) && Stop([s]) == s.outcome && Last([s]) == s
  {
    assert Executed([s]) == [s];
    assert Events([s]) == EventsOf(s) + [];
  }

  lemma Append(es: seq<Event>, e: Event, incoming: Option<nat>)
    ensures DefaultIn(incoming, es + [e]) == if e.Began? && e.tx.DefaultTx? then Some(e.tx) else DefaultIn(incoming, es)
    ensures TenantIn(incoming, es + [e]) == if e.Began? && e.tx.TenantTx? then Some(e.tx) else TenantIn(incoming, es)
    ensures InTx(es + [e]) <==> InTx(es) || e.Began?
  {
    assert (es + [e])[..|es|] == es;
    assert e in es + [e];
  }

  // What remains of a request from its i-th middleware on.
  lemma MiddlewareStep(ms: seq<Middleware>, i: nat, tenant: Option<string>)
    requires i < |ms|
    ensures var m, all, rest := ms[i], MiddlewareStages(ms[i..]), MiddlewareStages(ms[i + 1..]);
            && all == [RunMiddleware(m.outcome)] + rest
            && Events(Executed(all)) == EventsOf(RunMiddleware(m.outcome)) + (if m.outcome.Succeeds? then Events(Executed(rest)) else [])
            && Stop(all) == (if m.outcome.Succeeds? then Stop(rest) else m.outcome)
            && Last(all) == (if m.outcome.Succeeds? && rest != [] then Last(rest) else RunMiddleware(m.outcome))
            && (rest == [] <==> i + 1 == |ms|)
    ensures TenantAfter(tenant, ms[i..]) == TenantAfter(if ms[i].tenant.Some? then ms[i].tenant else tenant, ms[i + 1..])
  {
    hide EventsOf;
    assert ms[i..][1..] == ms[i + 1..];
    var s := RunMiddleware(ms[i].outcome);
    var rest := MiddlewareStages(ms[i + 1..]);
    assert ([s] + rest)[1..] == rest;
    assert ([s] + Executed(rest))[1..] == Executed(rest);
    assert Events([s]) == EventsOf(s) + [];
  }

  lemma NoMiddlewares(tenant: Option<string>)
    ensures Events(Executed(MiddlewareStages([]))) == [] && Stop(MiddlewareStages([])).Succeeds?
    ensures TenantAfter(tenant, []) == tenant
  {
  }

  // The variables shared by the handler function and its deferred block.
  class Wrapper {
    const request: Request
    var tenantKey: Option<string>
    var defaultCnx: Option<Connection>
    var tenantCnx: Option<Connection>
    var inTx: bool
    var trace: seq<Event>

    ghost predicate Valid()
      reads this
    {
      && defaultCnx == DefaultIn(request.incomingDefault, trace)
      && tenantCnx == TenantIn(request.incomingTenant, trace)
      && (inTx <==> InTx(trace))
    }

    constructor (r: Request)
      ensures Valid() && request == r && trace == [] && tenantKey == r.tenant
    {
      request := r;
      tenantKey := r.tenant;
      defaultCnx := if r.incomingDefault.Some? then Some(Foreign(r.incomingDefault.value)) else None;
      tenantCnx := if r.incomingTenant.Some? then Some(Foreign(r.incomingTenant.value)) else None;
      inTx := false;
      trace := [];
    }

    method Record(e: Event)
      requires Valid() && !e.Began?
      modifies this`trace
      ensures Valid() && trace == old(trace) + [e]
    {
      Append(trace, e, request.incomingDefault);
      Append(trace, e, request.incomingTenant);
      trace := trace + [e];
    }

    // Each of the following gives the stage at which the function stopped, if it did.

    method RunMiddlewares(ms: seq<Middleware>) returns (halt: Option<Stage>)
      requires Valid()
      modifies this
      ensures Valid() && trace == old(trace) + Events(Executed(MiddlewareStages(ms)))
      ensures halt.None? <==> Stop(MiddlewareStages(ms)).Succeeds?
      ensures halt.None? ==> tenantKey == TenantAfter(old(tenantKey), ms)
      ensures halt.Some? ==> ms != [] && halt.value == Last(MiddlewareStages(ms))
    {
      hide Executed, Stop, Events, TenantAfter, Last, MiddlewareStages, Status;
      assert ms[0..] == ms;
      for i := 0 to |ms|
        invariant Valid()
        invariant trace + Events(Executed(MiddlewareStages(ms[i..]))) == old(trace) + Events(Executed(MiddlewareStages(ms)))
        invariant Stop(MiddlewareStages(ms[i..])) == Stop(MiddlewareStages(ms))
        invariant TenantAfter(tenantKey, ms[i..]) == TenantAfter(old(tenantKey), ms)
        invariant i < |ms| ==> Last(MiddlewareStages(ms[i..])) == Last(MiddlewareStages(ms))
      {
        var m := ms[i];
        MiddlewareStep(ms, i, tenantKey);
        if m.tenant.Some? {
          tenantKey := m.tenant;
        }
        Record(MiddlewareRan);
        if m.outcome.Fails? {
          Record(Responded(Status(m.outcome.e, 400)));
        }
        if !m.outcome.Succeeds? {
          return Some(RunMiddleware(m.outcome));
        }
      }
      NoMiddlewares(tenantKey);
      assert ms[|ms|..] == [];
      return None;
    }

    // TenantId asserts that the key holds a string.
    method ReadTenantId() returns (halt: Option<Stage>)
      ensures halt == if tenantKey.Some? then None else Some(TenantStage(None))
    {
      if tenantKey.None? {
        return Some(ReadTenant(Panics(ErrorValue(Plain))));
      }
      return None;
    }

    method BeginDefaultTx(ds: DataSource) returns (halt: Option<Stage>)
      requires Valid()
      modifies this
      ensures Valid() && tenantKey == old(tenantKey) && trace == old(trace) + Events(Executed(DefaultStages(ds)))
      ensures halt.None? <==> Stop(DefaultStages(ds)).Succeeds?
      ensures halt.Some? ==> DefaultStages(ds) != [] && halt.value == Last(DefaultStages(ds))
    {
      if ds.default.Some? {
        if !ds.defaultTx.Succeeds? {
          return Some(BeginDefault(ds.default.value, ds.defaultTx));
        }
        var tx := DefaultTx(ds.default.value);
        Append(trace, Began(tx), request.incomingDefault);
        Append(trace, Began(tx), request.incomingTenant);
        trace := trace + [Began(tx)];
        inTx := true;
        defaultCnx := Some(tx);
      }
      return None;
    }

    method BeginTenantTx(ds: DataSource) returns (halt: Option<Stage>)
      requires Valid() && tenantKey.Some?
      modifies this
      ensures var st := TenantStages(ds, old(tenantKey).value);
              && Valid() && trace == old(trace) + Events(Executed(st))
              && (halt.None? <==> Stop(st).Succeeds?)
              && (halt.Some? ==> st != [] && halt.value == Last(st))
    {
      TenantOutcome(ds, tenantKey.value);
      TenantLast(ds, tenantKey.value);
      hide Executed, Events, Stop, Last, TenantStages, DefaultIn, TenantIn, InTx;
      if tenantKey.value != "" {
        if ds.lookup.LookupPanics? {
          return Some(FindTenant(Panics(ds.lookup.p)));
        }
        if ds.lookup.Found? {
          if !ds.tenantTx.Succeeds? {
            return Some(BeginTenant(ds.lookup.cnx, ds.tenantTx));
          }
          var tx := TenantTx(ds.lookup.cnx);
          Append(trace, Began(tx), request.incomingDefault);
          Append(trace, Began(tx), request.incomingTenant);
          trace := trace + [Began(tx)];
          inTx := true;
          tenantCnx := Some(tx);
        }
      }
      return None;
    }

    method RunHandler(outcome: Outcome)
      requires Valid()
      modifies this`trace
      ensures Valid() && trace == old(trace) + EventsOf(Handle(outcome))
    {
      Record(HandlerRan);
      if outcome.Fails? {
        Record(Responded(Status(outcome.e, 0)));
      }
    }

    method EndTransactions(committed: bool)
      requires Valid()
      modifies this`trace
      ensures trace == old(trace) + Ends(request, old(trace), committed)
    {
      if inTx {
        if defaultCnx.Some? {
          trace := trace + [Ended(defaultCnx.value, committed)];
        }
        if tenantCnx.Some? {
          trace := trace + [Ended(tenantCnx.value, committed)];
        }
      }
    }

    method Defer(stop: Outcome)
      requires Valid()
      modifies this`trace
      ensures trace == old(trace) + Deferred(request, old(trace), stop)
    {
      match stop
      case Panics(OtherValue) =>
        // converting the recovered value to an error panics before anything is ended
      case Panics(ErrorValue(e)) =>
        EndTransactions(false);
        trace := trace + [Responded(Status(e, 500))];
      case _ =>
        EndTransactions(true);
    }
  }

  lemma Assemble(r: Request)
    ensures var t := TenantAfter(r.tenant, r.middlewares);
            var m, p, d := MiddlewareStages(r.middlewares), [TenantStage(t)], DataStages(r.dataSource, t);
            && Joined(m, p, m + p) && Joined(m + p, d, m + p + d) && Joined(Preparation(r), [Handle(r.handler)], Stages(r))
            && Events(Executed([Handle(r.handler)])) == EventsOf(Handle(r.handler)) && Last([Handle(r.handler)]) == Handle(r.handler)
            && Events(Executed(p)) == [] && Stop(p) == TenantStage(t).outcome && Last(p) == TenantStage(t)
            && Stop([Handle(r.handler)]) == r.handler && Last(Stages(r)).outcome == Stop(Stages(r))
            && (d == [] ==> Events(Executed(d)) == [] && Stop(d).Succeeds?)
  {
    var t := TenantAfter(r.tenant, r.middlewares);
    var m, p, d := MiddlewareStages(r.middlewares), [TenantStage(t)], DataStages(r.dataSource, t);
    Compose(m, p);
    Compose(m + p, d);
    Compose(m + p + d, [Handle(r.handler)]);
    Single(Handle(r.handler));
    Single(TenantStage(t));
    LastStops(Stages(r));
  }

  // all is a followed by b, seen through what is carried out of it.
  ghost predicate Joined(a: seq<Stage>, b: seq<Stage>, all: seq<Stage>) {
    && Events(Executed(all)) == Events(Executed(a)) + (if Stop(a).Succeeds? then Events(Executed(b)) else [])
    && Stop(all) == (if Stop(a).Succeeds? then Stop(b) else Stop(a))
    && (Stop(a).Succeeds? && b != [] ==> all != [] && Last(all) == Last(b))
    && (!Stop(a).Succeeds? ==> a != [] && all != [] && Last(all) == Last(a))
  }

  // Everything before the handler.
  method Prepare(w: Wrapper) returns (halt: Option<Stage>)
    requires w.Valid() && w.trace == [] && w.tenantKey == w.request.tenant
    modifies w
    ensures w.Valid() && w.trace == Events(Executed(Preparation(w.request)))
    ensures halt.None? <==> Stop(Preparation(w.request)).Succeeds?
    ensures halt.Some? ==> Preparation(w.request) != [] && halt.value == Last(Preparation(w.request))
  {
    hide Executed, Stop, Events, TenantAfter, Last, MiddlewareStages, DefaultStages, TenantStages;
    var r := w.request;
    Assemble(r);
    halt := w.RunMiddlewares(r.middlewares);
    if halt.None? {
      halt := w.ReadTenantId();
    }
    if halt.None? && r.dataSource.Some? {
      Compose(DefaultStages(r.dataSource.value), TenantStages(r.dataSource.value, w.tenantKey.value));
      halt := w.BeginDefaultTx(r.dataSource.value);
      if halt.None? {
        halt := w.BeginTenantTx(r.dataSource.value);
      }
    }
  }

  method WrapHandler(r: Request) returns (trace: seq<Event>, exit: Exit)
    ensures trace == Trace(r) && exit == ExitOf(r)
  {
    hide Executed, Stop, Events, EventsOf, Last, Deferred, ExitAt, Preparation;
    Compose(Preparation(r), [Handle(r.handler)]);
    Single(Handle(r.handler));
    LastStops(Stages(r));
    var w := new Wrapper(r);
    var halt := Prepare(w);
    if halt.None? {
      w.RunHandler(r.handler);
      halt := Some(Handle(r.handler));
    }
    assert halt.value == Last(Stages(r)) && halt.value.outcome == Stop(Stages(r));
    assert w.trace == Body(r);
    w.Defer(halt.value.outcome);
    return w.trace, ExitAt(halt.value);
  }

  // ---------------------------------------------------------------- what every trace satisfies

  ghost predicate NoneEnded(es: seq<Event>) {
    forall e :: e in es ==> !e.Ended?
  }

  lemma {:induction false} EventsEndNothing(st: seq<Stage>)
    ensures NoneEnded(Events(st))
  {
    if st != [] {
      EventsEndNothing(st[1..]);
    }
  }

  // Which stage an event comes from.
  lemma {:induction false} EventComesFrom(st: seq<Stage>, e: Event)
    ensures e in Events(st) <==> exists s :: s in st && e in EventsOf(s)
  {
    if st != [] {
      EventComesFrom(st[1..], e);
      assert st == [st[0]] + st[1..];
    }
  }

  // A stage is carried out exactly when everything before it succeeded.
  ghost predicate Reached(st: seq<Stage>, k: nat) {
    k < |st| && forall j :: 0 <= j < k ==> st[j].outcome.Succeeds?
  }

  lemma {:induction false} ExecutedAre(st: seq<Stage>)
    ensures |Executed(st)| <= |st| && Executed(st) == st[..|Executed(st)|]
    ensures forall k: nat :: k < |Executed(st)| <==> Reached(st, k)
  {
    if st != [] && st[0].outcome.Succeeds? {
      ExecutedAre(st[1..]);
      var n := |Executed(st[1..])|;
      assert st[..n + 1] == [st[0]] + st[1..][..n];
      forall k: nat ensures k < n + 1 <==> Reached(st, k) {
        if 0 < k {
          assert k - 1 < n <==> Reached(st[1..], k - 1);
          if Reached(st[1..], k - 1) {
            forall j | 0 <= j < k ensures st[j].outcome.Succeeds? {
              assert j > 0 ==> st[1..][j - 1] == st[j];
            }
          }
        }
      }
    }
  }

  lemma BodyEvent(r: Request, e: Event)
    ensures e in Body(r) <==> exists k: nat :: Reached(Stages(r), k) && e in EventsOf(Stages(r)[k])
  {
    var st := Stages(r);
    EventComesFrom(Executed(st), e);
    ExecutedAre(st);
    hide Executed, Stages, EventsOf;
    if s :| s in Executed(st) && e in EventsOf(s) {
      var k :| 0 <= k < |Executed(st)| && Executed(st)[k] == s;
      assert Reached(st, k);
    }
    if k: nat :| Reached(st, k) && e in EventsOf(st[k]) {
      assert Executed(st)[k] == st[k];
    }
  }

  lemma {:induction false} OnlyMiddlewares(ms: seq<Middleware>)
    ensures forall s :: s in MiddlewareStages(ms) ==> s.RunMiddleware?
    ensures (forall s :: s in MiddlewareStages(ms) ==> s.outcome.Succeeds?) <==> forall m :: m in ms ==> m.outcome.Succeeds?
  {
    if ms != [] {
      OnlyMiddlewares(ms[1..]);
      assert ms == [ms[0]] + ms[1..];
    }
  }

  lemma DeferredIsShort(r: Request, es: seq<Event>, stop: Outcome)
    ensures forall e :: e in Deferred(r, es, stop) ==> e.Ended? || e.Responded?
  {
  }

  lemma HandlerStage(s: Stage)
    ensures HandlerRan in EventsOf(s) <==> s.Handle?
  {
  }

  lemma DataStagesHandleNothing(ds: Option<DataSource>, tenant: Option<string>, s: Stage)
    requires s in DataStages(ds, tenant)
    ensures !s.Handle?
  {
    assert s in DefaultStages(ds.value) || s in TenantStages(ds.value, tenant.value);
  }

  lemma PreparationHandlesNothing(r: Request, s: Stage)
    requires s in Preparation(r)
    ensures !s.Handle?
  {
    var tenant := TenantAfter(r.tenant, r.middlewares);
    OnlyMiddlewares(r.middlewares);
    assert s in MiddlewareStages(r.middlewares) || s == TenantStage(tenant) || s in DataStages(r.dataSource, tenant);
    hide MiddlewareStages, DataStages, TenantAfter;
    if s in DataStages(r.dataSource, tenant) {
      DataStagesHandleNothing(r.dataSource, tenant, s);
    }
  }

  // The last of some stages is reached exactly if those before it succeed.
  lemma LastReached(before: seq<Stage>, last: Stage)
    ensures Reached(before + [last], |before|) <==> forall s :: s in before ==> s.outcome.Succeeds?
  {
    var st := before + [last];
    assert forall j :: 0 <= j < |before| ==> st[j] == before[j];
    if Reached(st, |before|) {
      forall s | s in before ensures s.outcome.Succeeds? {
        var j :| 0 <= j < |before| && before[j] == s;
        assert st[j] == s;
      }
    } else {
      assert exists j :: 0 <= j < |before| && !before[j].outcome.Succeeds?;
    }
  }

  lemma HandlerIsLast(before: seq<Stage>, last: Stage)
    requires last.Handle? && forall s :: s in before ==> !s.Handle?
    ensures var st := before + [last];
            (exists k: nat :: Reached(st, k) && HandlerRan in EventsOf(st[k])) <==> Reached(st, |before|)
  {
    var st := before + [last];
    HandlerStage(last);
    forall k | 0 <= k < |before| ensures !st[k].Handle? {
      assert st[k] == before[k] && before[k] in before;
    }
    forall k: nat | Reached(st, k) && HandlerRan in EventsOf(st[k]) ensures k == |before| {
      HandlerStage(st[k]);
    }
    hide EventsOf;
    assert st[|before|] == last;
  }

  lemma HandlerComesLast(r: Request)
    ensures HandlerRan in Trace(r) <==> forall s :: s in Preparation(r) ==> s.outcome.Succeeds?
  {
    BodyEvent(r, HandlerRan);
    DeferredIsShort(r, Body(r), Stop(Stages(r)));
    hide Body, Deferred, Stop, Preparation, EventsOf, Reached;
    forall s | s in Preparation(r) ensures !s.Handle? {
      PreparationHandlesNothing(r, s);
    }
    HandlerIsLast(Preparation(r), Handle(r.handler));
    LastReached(Preparation(r), Handle(r.handler));
  }

  // What it takes for everything before the handler to succeed.
  predicate Ready(r: Request) {
    var tenant := TenantAfter(r.tenant, r.middlewares);
    && (forall m :: m in r.middlewares ==> m.outcome.Succeeds?)
    && tenant.Some?
    && (r.dataSource.Some? ==>
          var ds := r.dataSource.value;
          && (ds.default.Some? ==> ds.defaultTx.Succeeds?)
          && (tenant.value != "" ==> !ds.lookup.LookupPanics? && (ds.lookup.Found? ==> ds.tenantTx.Succeeds?)))
  }

  lemma ReadyIff(r: Request)
    ensures Ready(r) <==> forall s :: s in Preparation(r) ==> s.outcome.Succeeds?
  {
    var tenant := TenantAfter(r.tenant, r.middlewares);
    var m, t, d := MiddlewareStages(r.middlewares), TenantStage(tenant), DataStages(r.dataSource, tenant);
    OnlyMiddlewares(r.middlewares);
    assert forall s :: s in Preparation(r) <==> s in m || s == t || s in d;
    hide Preparation, MiddlewareStages, TenantAfter;
    if r.dataSource.Some? && tenant.Some? {
      var ds := r.dataSource.value;
      assert forall s :: s in d <==> s in DefaultStages(ds) || s in TenantStages(ds, tenant.value);
      DataStagesSucceed(ds, tenant.value);
    }
  }

  lemma DataStagesSucceed(ds: DataSource, tenant: string)
    ensures (forall s :: s in DefaultStages(ds) ==> s.outcome.Succeeds?) <==> (ds.default.Some? ==> ds.defaultTx.Succeeds?)
    ensures (forall s :: s in TenantStages(ds, tenant) ==> s.outcome.Succeeds?)
       <==> (tenant != "" ==> !ds.lookup.LookupPanics? && (ds.lookup.Found? ==> ds.tenantTx.Succeeds?))
  {
    assert ds.default.Some? ==> DefaultStages(ds)[0] in DefaultStages(ds);
    var st := TenantStages(ds, tenant);
    assert st != [] ==> st[0] in st;
    assert |st| > 1 ==> st[1] in st;
  }

  // The handler runs exactly when every middleware succeeded, the tenant key is present, and every
  // connection that there is could be found and a transaction begun on it. The router's own first
  // middleware sets the key to the empty string, so it is absent only on a router never initialised.
  lemma HandlerRunsIff(r: Request)
    ensures HandlerRan in Trace(r) <==> Ready(r)
  {
    HandlerComesLast(r);
    ReadyIff(r);
  }

  // ---------------------------------------------------------------- how transactions end

  lemma BeginningStages(r: Request, s: Stage)
    requires s in Stages(r)
    ensures s.BeginDefault? ==> r.dataSource.Some? && r.dataSource.value.default == Some(s.cnx)
    ensures s.BeginTenant? ==> r.dataSource.Some? && r.dataSource.value.lookup == Found(s.cnx)
  {
    OnlyMiddlewares(r.middlewares);
    var tenant := TenantAfter(r.tenant, r.middlewares);
    assert || s in MiddlewareStages(r.middlewares) || s == TenantStage(tenant)
           || s in DataStages(r.dataSource, tenant) || s == Handle(r.handler);
    if r.dataSource.Some? && tenant.Some? {
      var ds := r.dataSource.value;
      assert s in DataStages(r.dataSource, tenant) ==> s in DefaultStages(ds) || s in TenantStages(ds, tenant.value);
    }
  }

  lemma BegunAre(r: Request, tx: Connection)
    requires Began(tx) in Body(r)
    ensures r.dataSource.Some?
    ensures tx.DefaultTx? || tx.TenantTx?
    ensures tx.DefaultTx? ==> r.dataSource.value.default == Some(tx.of)
    ensures tx.TenantTx? ==> r.dataSource.value.lookup == Found(tx.of)
  {
    BodyEvent(r, Began(tx));
    hide Body, Stages;
    var k: nat :| Reached(Stages(r), k) && Began(tx) in EventsOf(Stages(r)[k]);
    BeginningStages(r, Stages(r)[k]);
  }

  lemma {:induction false} ConnectionsIn(incoming: Option<nat>, es: seq<Event>)
    ensures var c := DefaultIn(incoming, es);
            if exists e :: e in es && e.Began? && e.tx.DefaultTx? then c.Some? && c.value.DefaultTx? && Began(c.value) in es
            else c == if incoming.Some? then Some(Foreign(incoming.value)) else None
    ensures var c := TenantIn(incoming, es);
            if exists e :: e in es && e.Began? && e.tx.TenantTx? then c.Some? && c.value.TenantTx? && Began(c.value) in es
            else c == if incoming.Some? then Some(Foreign(incoming.value)) else None
  {
    if es != [] {
      var before, last := es[..|es| - 1], es[|es| - 1];
      ConnectionsIn(incoming, before);
      assert es == before + [last];
      assert forall e :: e in es <==> e in before || e == last;
    }
  }

  // A begun transaction is the one that the context holds when the deferred block runs.
  lemma BegunIsHeld(r: Request, tx: Connection)
    requires Began(tx) in Body(r)
    ensures InTx(Body(r))
    ensures tx.DefaultTx? ==> DefaultIn(r.incomingDefault, Body(r)) == Some(tx)
    ensures tx.TenantTx? ==> TenantIn(r.incomingTenant, Body(r)) == Some(tx)
    ensures tx.DefaultTx? || tx.TenantTx?
  {
    var es := Body(r);
    BegunAre(r, tx);
    ConnectionsIn(r.incomingDefault, es);
    ConnectionsIn(r.incomingTenant, es);
    hide Body;
    if tx.DefaultTx? {
      BegunAre(r, DefaultIn(r.incomingDefault, es).value);
    } else {
      BegunAre(r, TenantIn(r.incomingTenant, es).value);
    }
  }

  // How often a connection is committed or rolled back.
  function Times(r: Request, cnx: Connection, committed: bool): nat {
    multiset(Trace(r))[Ended(cnx, committed)]
  }

  lemma TimesInDeferred(r: Request, cnx: Connection, committed: bool)
    ensures Times(r, cnx, committed) == multiset(Deferred(r, Body(r), Stop(Stages(r))))[Ended(cnx, committed)]
  {
    EventsEndNothing(Executed(Stages(r)));
    hide Deferred, Stages, Stop, Executed, Events;
    assert Ended(cnx, committed) !in Body(r);
  }

  lemma ExitIs(r: Request)
    ensures ExitOf(r) == match Stop(Stages(r))
                         case Panics(OtherValue) => Propagated
                         case Panics(ErrorValue(e)) => Recovered(e)
                         case Fails(e) => ExitOf(r)
                         case Succeeds => Returned(None)
    ensures Stop(Stages(r)).Fails? ==> ExitOf(r).Returned?
  {
    LastStops(Stages(r));
  }

  // Every transaction begun is ended exactly once: rolled back if an error value was recovered,
  // committed if the function returned, whether with an error or without.
  lemma EndedExactlyOnce(r: Request, tx: Connection)
    requires Began(tx) in Body(r) && !ExitOf(r).Propagated?
    ensures Times(r, tx, ExitOf(r).Returned?) == 1 && Times(r, tx, !ExitOf(r).Returned?) == 0
  {
    var es, stop := Body(r), Stop(Stages(r));
    BegunIsHeld(r, tx);
    ExitIs(r);
    TimesInDeferred(r, tx, true);
    TimesInDeferred(r, tx, false);
    ConnectionsIn(r.incomingDefault, es);
    ConnectionsIn(r.incomingTenant, es);
    hide Body, Stages, Stop, ExitOf, Times;
    DeferredEndsOnce(r, es, stop, tx);
  }

  // An error, from the handler or from the second Tx, does not roll anything back.
  lemma FailureStillCommits(r: Request, tx: Connection)
    requires Began(tx) in Body(r) && Stop(Stages(r)).Fails?
    ensures Times(r, tx, true) == 1 && Times(r, tx, false) == 0
  {
    ExitIs(r);
    EndedExactlyOnce(r, tx);
  }

  lemma EndCount(cnx: Option<Connection>, committed: bool, e: Event)
    ensures multiset(EndOf(cnx, committed))[e] == if cnx.Some? && e == Ended(cnx.value, committed) then 1 else 0
  {
  }

  lemma EndsOnce(r: Request, es: seq<Event>, committed: bool, tx: Connection)
    requires InTx(es)
    requires (DefaultIn(r.incomingDefault, es) == Some(tx)) != (TenantIn(r.incomingTenant, es) == Some(tx))
    ensures multiset(Ends(r, es, committed))[Ended(tx, committed)] == 1 && multiset(Ends(r, es, committed))[Ended(tx, !committed)] == 0
  {
    hide InTx, DefaultIn, TenantIn, EndOf;
    var d, t := DefaultIn(r.incomingDefault, es), TenantIn(r.incomingTenant, es);
    assert multiset(EndOf(d, committed) + EndOf(t, committed)) == multiset(EndOf(d, committed)) + multiset(EndOf(t, committed));
    EndCount(d, committed, Ended(tx, committed));
    EndCount(t, committed, Ended(tx, committed));
    EndCount(d, committed, Ended(tx, !committed));
    EndCount(t, committed, Ended(tx, !committed));
  }

  lemma DeferredEndsOnce(r: Request, es: seq<Event>, stop: Outcome, tx: Connection)
    requires InTx(es) && !(stop.Panics? && stop.p.OtherValue?)
    requires (DefaultIn(r.incomingDefault, es) == Some(tx)) != (TenantIn(r.incomingTenant, es) == Some(tx))
    ensures multiset(Deferred(r, es, stop))[Ended(tx, !stop.Panics?)] == 1
    ensures multiset(Deferred(r, es, stop))[Ended(tx, stop.Panics?)] == 0
  {
    EndsOnce(r, es, !stop.Panics?, tx);
    hide InTx, DefaultIn, TenantIn, Ends;
    if stop.Panics? {
      var last := [Responded(Status(stop.p.e, 500))];
      assert multiset(Ends(r, es, false) + last) == multiset(Ends(r, es, false)) + multiset(last);
    }
  }

  // A panic with any other value ends nothing at all, so the transactions begun stay open.
  lemma PropagatedEndsNothing(r: Request, cnx: Connection, committed: bool)
    requires ExitOf(r).Propagated?
    ensures Times(r, cnx, committed) == 0
  {
    ExitIs(r);
    TimesInDeferred(r, cnx, committed);
  }

  lemma PropagatedIff(r: Request)
    ensures ExitOf(r).Propagated? <==> exists k: nat :: Reached(Stages(r), k) && Stages(r)[k].outcome == Panics(OtherValue)
  {
    var st := Stages(r);
    ExecutedAre(st);
    LastStops(st);
    var n := |Executed(st)| - 1;
    assert st != [] && Reached(st, n) && Last(st) == st[n];
    forall k: nat | Reached(st, k) && !st[k].outcome.Succeeds? ensures k == n {
      assert !Reached(st, k + 1);
    }
  }

  ghost predicate AllEnded(r: Request) {
    forall tx :: Began(tx) in Body(r) ==> Times(r, tx, true) + Times(r, tx, false) == 1
  }

  lemma AllEndedOrNone(r: Request)
    ensures AllEnded(r) <==> !(InTx(Body(r)) && ExitOf(r).Propagated?)
  {
    forall tx | Began(tx) in Body(r)
      ensures Times(r, tx, true) + Times(r, tx, false) == if ExitOf(r).Propagated? then 0 else 1
    {
      if ExitOf(r).Propagated? {
        PropagatedEndsNothing(r, tx, true);
        PropagatedEndsNothing(r, tx, false);
      } else {
        EndedExactlyOnce(r, tx);
      }
    }
    hide Body, Times, ExitOf;
    if InTx(Body(r)) {
      var e :| e in Body(r) && e.Began?;
      assert Began(e.tx) in Body(r);
    }
  }

  // ---------------------------------------------------------------- what becomes of the transactions of a request

  // How looking up the tenant's connection and beginning on it goes.
  function TenantStop(ds: DataSource, tenant: string): Outcome {
    if tenant == "" then Succeeds else
      match ds.lookup
      case Found(_) => ds.tenantTx
      case NoConnection => Succeeds
      case LookupPanics(p) => Panics(p)
  }

  predicate HasConnection(ds: DataSource, tenant: string) {
    ds.default.Some? || (tenant != "" && ds.lookup.Found?)
  }

  // The request stops that way while a transaction is open: the default one when the tenant's part
  // stops it, or any when the handler does.
  predicate OpenWhen(r: Request, stops: Outcome -> bool) {
    var tenant := TenantAfter(r.tenant, r.middlewares);
    && (forall m :: m in r.middlewares ==> m.outcome.Succeeds?)
    && tenant.Some? && r.dataSource.Some?
    && var ds := r.dataSource.value;
       || (ds.default.Some? && ds.defaultTx.Succeeds? && stops(TenantStop(ds, tenant.value)))
       || (Ready(r) && HasConnection(ds, tenant.value) && stops(r.handler))
  }

  predicate IsStrayPanic(o: Outcome) {
    o == Panics(OtherValue)
  }

  predicate IsErrorPanic(o: Outcome) {
    o.Panics? && o.p.ErrorValue?
  }

  predicate IsFailure(o: Outcome) {
    o.Fails?
  }

  // Transactions are left open.
  predicate Leaks(r: Request) {
    OpenWhen(r, IsStrayPanic)
  }

  // Transactions are rolled back.
  predicate Reverts(r: Request) {
    OpenWhen(r, IsErrorPanic)
  }

  // Transactions are committed although the request failed.
  predicate Spoils(r: Request) {
    OpenWhen(r, IsFailure)
  }

  lemma {:induction false} MiddlewaresOutcome(ms: seq<Middleware>)
    ensures Stop(MiddlewareStages(ms)).Succeeds? <==> forall m :: m in ms ==> m.outcome.Succeeds?
    ensures !InTx(Events(Executed(MiddlewareStages(ms))))
  {
    if ms != [] {
      MiddlewaresOutcome(ms[1..]);
      MiddlewareStep(ms, 0, None);
      assert ms[0..] == ms && ms == [ms[0]] + ms[1..];
      hide Executed, Events, Stop, MiddlewareStages, Status;
    } else {
      NoMiddlewares(None);
    }
  }

  lemma DefaultOutcome(ds: DataSource)
    ensures Events(Executed(DefaultStages(ds))) == if ds.default.Some? && ds.defaultTx.Succeeds? then [Began(DefaultTx(ds.default.value))] else []
    ensures Stop(DefaultStages(ds)) == if ds.default.Some? then ds.defaultTx else Succeeds
  {
    if ds.default.Some? {
      Single(BeginDefault(ds.default.value, ds.defaultTx));
    }
  }

  lemma TenantOutcome(ds: DataSource, tenant: string)
    ensures Events(Executed(TenantStages(ds, tenant)))
         == if tenant != "" && ds.lookup.Found? && ds.tenantTx.Succeeds? then [Began(TenantTx(ds.lookup.cnx))] else []
    ensures Stop(TenantStages(ds, tenant)) == TenantStop(ds, tenant)
  {
    if tenant != "" {
      match ds.lookup
      case Found(c) =>
        Compose([FindTenant(Succeeds)], [BeginTenant(c, ds.tenantTx)]);
        Single(FindTenant(Succeeds));
        Single(BeginTenant(c, ds.tenantTx));
        hide Executed, Events, Stop;
        assert TenantStages(ds, tenant) == [FindTenant(Succeeds)] + [BeginTenant(c, ds.tenantTx)];
      case NoConnection => Single(FindTenant(Succeeds));
      case LookupPanics(p) => Single(FindTenant(Panics(p)));
    }
  }

  lemma TenantLast(ds: DataSource, tenant: string)
    ensures !TenantStop(ds, tenant).Succeeds? ==>
              && TenantStages(ds, tenant) != []
              && Last(TenantStages(ds, tenant))
                 == if ds.lookup.Found? then BeginTenant(ds.lookup.cnx, ds.tenantTx) else FindTenant(TenantStop(ds, tenant))
  {
    if tenant != "" {
      match ds.lookup
      case Found(c) =>
        Compose([FindTenant(Succeeds)], [BeginTenant(c, ds.tenantTx)]);
        Single(FindTenant(Succeeds));
        Single(BeginTenant(c, ds.tenantTx));
        hide Executed, Events, Stop, Last;
        assert TenantStages(ds, tenant) == [FindTenant(Succeeds)] + [BeginTenant(c, ds.tenantTx)];
      case NoConnection =>
      case LookupPanics(p) => Single(FindTenant(Panics(p)));
    }
  }

  lemma DataOutcome(ds: DataSource, tenant: string)
    ensures var d := DefaultStages(ds) + TenantStages(ds, tenant);
            && Stop(d) == (if ds.default.Some? && !ds.defaultTx.Succeeds? then ds.defaultTx else TenantStop(ds, tenant))
            && (InTx(Events(Executed(d))) <==>
                  || (ds.default.Some? && ds.defaultTx.Succeeds?)
                  || (ds.default.None? && tenant != "" && ds.lookup.Found? && ds.tenantTx.Succeeds?))
  {
    Compose(DefaultStages(ds), TenantStages(ds, tenant));
    DefaultOutcome(ds);
    TenantOutcome(ds, tenant);
    InTxIn(Events(Executed(DefaultStages(ds))), Events(Executed(TenantStages(ds, tenant))));
    assert !InTx([]) && Events(Executed(DefaultStages(ds))) + [] == Events(Executed(DefaultStages(ds)));
    hide Executed, Events, Stop, DefaultStages, TenantStages, InTx;
    if ds.default.Some? {
      BeginSetsInTx(DefaultTx(ds.default.value));
    }
    if ds.lookup.Found? {
      BeginSetsInTx(TenantTx(ds.lookup.cnx));
    }
  }

  lemma BeginSetsInTx(tx: Connection)
    ensures InTx([Began(tx)])
  {
    assert Began(tx) in [Began(tx)];
  }

  lemma InTxIn(a: seq<Event>, b: seq<Event>)
    ensures InTx(a + b) <==> InTx(a) || InTx(b)
  {
    forall e ensures e in a + b <==> e in a || e in b {
    }
  }

  lemma BodyOutcome(r: Request)
    ensures var t := TenantAfter(r.tenant, r.middlewares);
            var d := DataStages(r.dataSource, t);
            var started := (forall m :: m in r.middlewares ==> m.outcome.Succeeds?) && t.Some?;
            && (InTx(Body(r)) <==> started && InTx(Events(Executed(d))))
            && (started ==> Stop(Stages(r)) == if Stop(d).Succeeds? then r.handler else Stop(d))
  {
    var t := TenantAfter(r.tenant, r.middlewares);
    var m, d := MiddlewareStages(r.middlewares), DataStages(r.dataSource, t);
    Assemble(r);
    MiddlewaresOutcome(r.middlewares);
    hide Executed, Stop, Events, MiddlewareStages, DataStages, TenantAfter, Stages;
    assert !InTx(EventsOf(Handle(r.handler))) && !InTx([]);
    hide InTx, EventsOf;
    var h := EventsOf(Handle(r.handler));
    InTxIn(Events(Executed(m)), Events(Executed(d)));
    InTxIn(Events(Executed(m)), []);
    InTxIn(Events(Executed(m + [TenantStage(t)] + d)), h);
    InTxIn(Events(Executed(m + [TenantStage(t)] + d)), []);
    InTxIn(Events(Executed(m + [TenantStage(t)])), Events(Executed(d)));
    InTxIn(Events(Executed(m + [TenantStage(t)])), []);
  }

  lemma OpenWhenIff(r: Request, stops: Outcome -> bool)
    requires !stops(Succeeds)
    ensures OpenWhen(r, stops) <==> InTx(Body(r)) && stops(Stop(Stages(r)))
  {
    var t := TenantAfter(r.tenant, r.middlewares);
    BodyOutcome(r);
    if t.Some? && r.dataSource.Some? {
      DataOutcome(r.dataSource.value, t.value);
    } else {
      assert DataStages(r.dataSource, t) == [] && !InTx(Events(Executed([])));
    }
    hide Body, Stages, Executed, Events, Stop, DefaultStages, TenantStages, TenantAfter, InTx;
  }

  lemma PropagatedIs(r: Request)
    ensures ExitOf(r).Propagated? <==> IsStrayPanic(Stop(Stages(r)))
  {
    ExitIs(r);
    hide Stages, Stop, ExitOf;
  }

  // So the transactions of a request are all ended, each once, unless the request leaks.
  lemma AllEndedIff(r: Request)
    ensures AllEnded(r) <==> !Leaks(r)
  {
    hide Body, Stages, Stop, ExitOf, OpenWhen, InTx, AllEnded, IsStrayPanic;
    AllEndedOrNone(r);
    SuccessIsNone();
    OpenWhenIff(r, IsStrayPanic);
    PropagatedIs(r);
  }

  lemma SuccessIsNone()
    ensures !IsStrayPanic(Succeeds) && !IsErrorPanic(Succeeds) && !IsFailure(Succeeds)
  {
  }

  lemma BegunSetsInTx(es: seq<Event>)
    ensures InTx(es) <==> exists tx :: Began(tx) in es
  {
    if InTx(es) {
      var e :| e in es && e.Began?;
      assert Began(e.tx) in es;
    }
  }

  // A transaction is rolled back exactly if the request reverts.
  lemma RolledBackIff(r: Request)
    ensures (exists tx :: Began(tx) in Body(r) && Times(r, tx, false) == 1) <==> Reverts(r)
  {
    OpenWhenIff(r, IsErrorPanic);
    BegunSetsInTx(Body(r));
    ExitIs(r);
    forall tx | Began(tx) in Body(r) ensures Times(r, tx, false) == if IsErrorPanic(Stop(Stages(r))) then 1 else 0 {
      if ExitOf(r).Propagated? {
        PropagatedEndsNothing(r, tx, false);
      } else {
        EndedExactlyOnce(r, tx);
      }
    }
    hide Body, Stages, Stop, ExitOf, OpenWhen, InTx, Times;
  }

  // A request that returned an error has nonetheless committed a transaction exactly if it spoils.
  lemma FailureCommitsIff(r: Request)
    ensures (exists tx :: Began(tx) in Body(r) && Stop(Stages(r)).Fails? && Times(r, tx, true) == 1) <==> Spoils(r)
  {
    OpenWhenIff(r, IsFailure);
    BegunSetsInTx(Body(r));
    hide Body, Stages, Stop, OpenWhen, InTx, Times;
    if Stop(Stages(r)).Fails? {
      forall tx | Began(tx) in Body(r) ensures Times(r, tx, true) == 1 {
        FailureStillCommits(r, tx);
      }
    }
  }

  lemma DefaultBegun(cnx: nat)
    ensures var st := [ReadTenant(Succeeds), BeginDefault(cnx, Succeeds)];
            Events(Executed(st)) == [Began(DefaultTx(cnx))] && Stop(st).Succeeds?
  {
    Compose([ReadTenant(Succeeds)], [BeginDefault(cnx, Succeeds)]);
    Single(ReadTenant(Succeeds));
    Single(BeginDefault(cnx, Succeeds));
    hide Executed, Events, Stop;
    assert [ReadTenant(Succeeds)] + [BeginDefault(cnx, Succeeds)] == [ReadTenant(Succeeds), BeginDefault(cnx, Succeeds)];
  }

  lemma DefaultCommitted(r: Request, cnx: nat, more: seq<Event>, stop: Outcome)
    requires r.incomingDefault.None? && r.incomingTenant.None? && !stop.Panics?
    requires forall e :: e in more ==> !e.Began?
    ensures Deferred(r, [Began(DefaultTx(cnx))] + more, stop) == [Ended(DefaultTx(cnx), true)]
  {
    HeldByDefault(cnx, more);
    hide InTx, DefaultIn, TenantIn;
  }

  lemma TraceIs(r: Request, st: seq<Stage>, cnx: nat, more: seq<Event>, stop: Outcome)
    requires Stages(r) == st && Events(Executed(st)) == [Began(DefaultTx(cnx))] + more && Stop(st) == stop
    requires r.incomingDefault.None? && r.incomingTenant.None? && !stop.Panics?
    requires forall e :: e in more ==> !e.Began?
    ensures Trace(r) == [Began(DefaultTx(cnx))] + more + [Ended(DefaultTx(cnx), true)]
  {
    hide Stages, Executed, Events, Stop, Deferred;
    DefaultCommitted(r, cnx, more, stop);
  }

  lemma HandlerFails(cnx: nat, e: Failure)
    ensures var st := [ReadTenant(Succeeds), BeginDefault(cnx, Succeeds)] + [Handle(Fails(e))];
            && Events(Executed(st)) == [Began(DefaultTx(cnx))] + [HandlerRan, Responded(Status(e, 0))]
            && Stop(st) == Fails(e)
  {
    var begun := [ReadTenant(Succeeds), BeginDefault(cnx, Succeeds)];
    DefaultBegun(cnx);
    Compose(begun, [Handle(Fails(e))]);
    Single(Handle(Fails(e)));
    assert EventsOf(Handle(Fails(e))) == [HandlerRan, Responded(Status(e, 0))];
    hide Executed, Events, Stop, Status, EventsOf, Last;
  }

  // The default transaction of a request whose handler returns an error is committed.
  lemma HandlerErrorCommits(cnx: nat, e: Failure)
    ensures var ds := DataSource(Some(cnx), Succeeds, NoConnection, Succeeds);
            Trace(Request(Some(""), None, None, [], Some(ds), Fails(e)))
            == [Began(DefaultTx(cnx))] + [HandlerRan, Responded(Status(e, 0))] + [Ended(DefaultTx(cnx), true)]
  {
    var ds := DataSource(Some(cnx), Succeeds, NoConnection, Succeeds);
    var r := Request(Some(""), None, None, [], Some(ds), Fails(e));
    var st := [ReadTenant(Succeeds), BeginDefault(cnx, Succeeds)] + [Handle(Fails(e))];
    assert Stages(r) == st;
    HandlerFails(cnx, e);
    hide Executed, Events, Stop, Stages, Status, Trace;
    TraceIs(r, st, cnx, [HandlerRan, Responded(Status(e, 0))], Fails(e));
  }

  lemma TenantFails(cnx: nat, tenant: string, other: nat, e: Failure, handler: Outcome)
    requires tenant != ""
    ensures var ds := DataSource(Some(cnx), Succeeds, Found(other), Fails(e));
            var st := [ReadTenant(Succeeds), BeginDefault(cnx, Succeeds)] + TenantStages(ds, tenant) + [Handle(handler)];
            Events(Executed(st)) == [Began(DefaultTx(cnx))] + [] && Stop(st) == Fails(e)
  {
    var ds := DataSource(Some(cnx), Succeeds, Found(other), Fails(e));
    var begun := [ReadTenant(Succeeds), BeginDefault(cnx, Succeeds)];
    DefaultBegun(cnx);
    TenantOutcome(ds, tenant);
    Compose(begun, TenantStages(ds, tenant));
    Compose(begun + TenantStages(ds, tenant), [Handle(handler)]);
    hide Executed, Events, Stop, Last, TenantStages;
  }

  // And so is that of a request that cannot begin on the tenant's connection.
  lemma TenantErrorCommits(cnx: nat, tenant: string, other: nat, e: Failure, handler: Outcome)
    requires tenant != ""
    ensures var ds := DataSource(Some(cnx), Succeeds, Found(other), Fails(e));
            Trace(Request(Some(tenant), None, None, [], Some(ds), handler)) == [Began(DefaultTx(cnx)), Ended(DefaultTx(cnx), true)]
  {
    var ds := DataSource(Some(cnx), Succeeds, Found(other), Fails(e));
    var r := Request(Some(tenant), None, None, [], Some(ds), handler);
    var st := [ReadTenant(Succeeds), BeginDefault(cnx, Succeeds)] + TenantStages(ds, tenant) + [Handle(handler)];
    assert Stages(r) == st;
    TenantFails(cnx, tenant, other, e, handler);
    hide Executed, Events, Stop, Stages, Trace, TenantStages;
    TraceIs(r, st, cnx, [], Fails(e));
  }

  lemma HeldByDefault(cnx: nat, more: seq<Event>)
    requires forall e :: e in more ==> !e.Began?
    ensures var es := [Began(DefaultTx(cnx))] + more;
            InTx(es) && DefaultIn(None, es) == Some(DefaultTx(cnx)) && TenantIn(None, es) == None
  {
    var es := [Began(DefaultTx(cnx))] + more;
    assert es[0] == Began(DefaultTx(cnx));
    if more != [] {
      var n := |more| - 1;
      HeldByDefault(cnx, more[..n]);
      assert es[..|es| - 1] == [Began(DefaultTx(cnx))] + more[..n];
      assert es[|es| - 1] == more[n] && more[n] in more;
    } else {
      assert es == [Began(DefaultTx(cnx))] && es[..0] == [];
    }
  }

  lemma DeferredEnds(r: Request, es: seq<Event>, stop: Outcome, cnx: Connection, committed: bool)
    requires Ended(cnx, committed) in Deferred(r, es, stop)
    ensures InTx(es) && (DefaultIn(r.incomingDefault, es) == Some(cnx) || TenantIn(r.incomingTenant, es) == Some(cnx))
  {
    hide InTx, DefaultIn, TenantIn, Status;
  }

  // A connection in the context was begun, or was there before.
  lemma HeldIs(incoming: Option<nat>, es: seq<Event>, cnx: Connection)
    requires DefaultIn(incoming, es) == Some(cnx) || TenantIn(incoming, es) == Some(cnx)
    ensures Began(cnx) in es || (cnx.Foreign? && incoming == Some(cnx.id))
  {
    ConnectionsIn(incoming, es);
    hide DefaultIn, TenantIn;
  }

  // Nothing is ended but what was begun here or already in the incoming context.
  lemma OnlyTheseEnd(r: Request, cnx: Connection, committed: bool)
    requires Ended(cnx, committed) in Trace(r)
    ensures InTx(Body(r))
    ensures Began(cnx) in Body(r) || (cnx.Foreign? && (r.incomingDefault == Some(cnx.id) || r.incomingTenant == Some(cnx.id)))
  {
    EventsEndNothing(Executed(Stages(r)));
    assert NoneEnded(Body(r));
    hide Body, Stages, Stop, Deferred, DefaultIn, TenantIn, InTx;
    DeferredEnds(r, Body(r), Stop(Stages(r)), cnx, committed);
    if DefaultIn(r.incomingDefault, Body(r)) == Some(cnx) {
      HeldIs(r.incomingDefault, Body(r), cnx);
    } else {
      HeldIs(r.incomingTenant, Body(r), cnx);
    }
  }

  // Transactions end after everything else has stopped.
  lemma EndsComeLast(r: Request, i: nat, j: nat)
    requires i < |Trace(r)| && j < |Trace(r)|
    requires Trace(r)[i].Ended? && (Trace(r)[j].HandlerRan? || Trace(r)[j].MiddlewareRan? || Trace(r)[j].Began?)
    ensures j < i
  {
    EventsEndNothing(Executed(Stages(r)));
    DeferredIsShort(r, Body(r), Stop(Stages(r)));
    hide Deferred, Stages, Stop, Executed, Events;
    var es := Body(r);
    var d := Deferred(r, es, Stop(Stages(r)));
    forall k | 0 <= k < |Trace(r)| ensures k < |es| ==> !Trace(r)[k].Ended? {
      assert k < |es| ==> Trace(r)[k] == es[k] && es[k] in es;
    }
    forall k | |es| <= k < |Trace(r)| ensures Trace(r)[k].Ended? || Trace(r)[k].Responded? {
      assert d[k - |es|] in d;
    }
  }

  // The default transaction of a request whose tenant cannot be looked up is left open.
  lemma LookupPanicLeaksDefault(cnx: nat, tenant: string, tenantTx: Outcome, handler: Outcome)
    requires tenant != ""
    ensures var ds := DataSource(Some(cnx), Succeeds, LookupPanics(OtherValue), tenantTx);
            var r := Request(Some(tenant), None, None, [], Some(ds), handler);
            Trace(r) == [Began(DefaultTx(cnx))] && ExitOf(r) == Propagated
  {
    var ds := DataSource(Some(cnx), Succeeds, LookupPanics(OtherValue), tenantTx);
    var r := Request(Some(tenant), None, None, [], Some(ds), handler);
    var st := [ReadTenant(Succeeds), BeginDefault(cnx, Succeeds), FindTenant(Panics(OtherValue)), Handle(handler)];
    assert Stages(r) == st;
    assert Executed(st[2..]) == [st[2]];
    assert Executed(st[1..]) == [st[1], st[2]] by { assert st[1..][1..] == st[2..]; }
    assert Executed(st) == [st[0], st[1], st[2]];
    assert Events([st[2]]) == [];
    assert Events([st[1], st[2]]) == [Began(DefaultTx(cnx))] by { assert [st[1], st[2]][1..] == [st[2]]; }
    assert [st[0], st[1], st[2]][1..] == [st[1], st[2]];
    LastStops(st);
  }

  lemma EndIsDeferred(r: Request, k: nat)
    requires k < |Trace(r)| && Trace(r)[k].Ended?
    ensures |Body(r)| <= k < |Body(r)| + |Deferred(r, Body(r), Stop(Stages(r)))|
    ensures Trace(r)[k] == Deferred(r, Body(r), Stop(Stages(r)))[k - |Body(r)|]
  {
    EventsEndNothing(Executed(Stages(r)));
    assert NoneEnded(Body(r));
    hide Body, Stages, Stop, Deferred;
    forall i | 0 <= i < |Body(r)| ensures !Trace(r)[i].Ended? {
      assert Trace(r)[i] == Body(r)[i] && Body(r)[i] in Body(r);
    }
  }

  ghost predicate HoldsBoth(r: Request, es: seq<Event>) {
    var d, t := DefaultIn(r.incomingDefault, es), TenantIn(r.incomingTenant, es);
    d.Some? && d.value.DefaultTx? && t.Some? && t.value.TenantTx?
  }

  lemma DeferredInOrder(r: Request, es: seq<Event>, stop: Outcome, i: nat, j: nat)
    requires i < |Deferred(r, es, stop)| && Deferred(r, es, stop)[i].Ended? && Deferred(r, es, stop)[i].cnx.DefaultTx?
    requires j < |Deferred(r, es, stop)| && Deferred(r, es, stop)[j].Ended? && Deferred(r, es, stop)[j].cnx.TenantTx?
    requires HoldsBoth(r, es)
    ensures i < j
  {
    hide DefaultIn, TenantIn, InTx;
  }

  lemma EndsInOrder(r: Request, i: nat, j: nat)
    requires HoldsBoth(r, Body(r))
    requires i < |Trace(r)| && Trace(r)[i].Ended? && Trace(r)[i].cnx.DefaultTx?
    requires j < |Trace(r)| && Trace(r)[j].Ended? && Trace(r)[j].cnx.TenantTx?
    ensures i < j
  {
    EndIsDeferred(r, i);
    EndIsDeferred(r, j);
    hide Trace, Body, Stages, Stop, DefaultIn, TenantIn, Deferred;
    DeferredInOrder(r, Body(r), Stop(Stages(r)), i - |Body(r)|, j - |Body(r)|);
  }

  // Where both transactions were begun, the default one ends first.
  lemma DefaultEndsFirst(r: Request, a: nat, b: nat, i: nat, j: nat)
    requires Began(DefaultTx(a)) in Body(r) && Began(TenantTx(b)) in Body(r)
    requires i < |Trace(r)| && Trace(r)[i].Ended? && Trace(r)[i].cnx == DefaultTx(a)
    requires j < |Trace(r)| && Trace(r)[j].Ended? && Trace(r)[j].cnx == TenantTx(b)
    ensures i < j
  {
    hide Trace, Body, Stages, Stop, DefaultIn, TenantIn, InTx;
    BegunIsHeld(r, DefaultTx(a));
    BegunIsHeld(r, TenantTx(b));
    EndsInOrder(r, i, j);
  }

  // ---------------------------------------------------------------- the whole request, without stages

  function Repeat(n: nat): (es: seq<Event>)
    ensures |es| == n && forall e :: e in es ==> e == MiddlewareRan
  {
    if n == 0 then [] else [MiddlewareRan] + Repeat(n - 1)
  }

  // How many middlewares succeed before the first that does not.
  function Passed(ms: seq<Middleware>): (n: nat)
    ensures n <= |ms|
    ensures forall j :: 0 <= j < n ==> ms[j].outcome.Succeeds?
    ensures n < |ms| ==> !ms[n].outcome.Succeeds?
  {
    if ms == [] || !ms[0].outcome.Succeeds? then 0 else 1 + Passed(ms[1..])
  }

  // The answer to an error: its own status if it carries one other than zero.
  function AnswerTo(e: Failure, fallback: int): Event {
    match e
    case Plain => Responded(fallback)
    case WithStatus(code) => Responded(if code == 0 then 500 else code)
  }

  function AnswerToFailure(o: Outcome, fallback: int): seq<Event> {
    if o.Fails? then [AnswerTo(o.e, fallback)] else []
  }

  function AnswerToPanic(o: Outcome): seq<Event> {
    if o.Panics? && o.p.ErrorValue? then [AnswerTo(o.p.e, 500)] else []
  }

  function BegunDefault(r: Request): Option<Connection> {
    if r.dataSource.Some? && r.dataSource.value.default.Some? && r.dataSource.value.defaultTx.Succeeds?
    then Some(DefaultTx(r.dataSource.value.default.value)) else None
  }

  function BegunTenant(r: Request, tenant: string): Option<Connection> {
    if r.dataSource.Some? && (r.dataSource.value.default.Some? ==> r.dataSource.value.defaultTx.Succeeds?)
       && tenant != "" && r.dataSource.value.lookup.Found? && r.dataSource.value.tenantTx.Succeeds?
    then Some(TenantTx(r.dataSource.value.lookup.cnx)) else None
  }

  function BeginOf(cnx: Option<Connection>): seq<Event> {
    if cnx.Some? then [Began(cnx.value)] else []
  }

  // How the part between the middlewares and the handler goes.
  function DataStop(r: Request, tenant: string): Outcome {
    if r.dataSource.None? then Succeeds
    else if r.dataSource.value.default.Some? && !r.dataSource.value.defaultTx.Succeeds? then r.dataSource.value.defaultTx
    else TenantStop(r.dataSource.value, tenant)
  }

  // A connection begun here comes before one that was in the context.
  function Held(begun: Option<Connection>, incoming: Option<nat>): Option<Connection> {
    if begun.Some? then begun else if incoming.Some? then Some(Foreign(incoming.value)) else None
  }

  // With nothing begun, or after a panic with a value that is no error, nothing is ended.
  function Closing(r: Request, tenant: string, o: Outcome): seq<Event> {
    var d, t := BegunDefault(r), BegunTenant(r, tenant);
    if (d.None? && t.None?) || o == Panics(OtherValue) then [] else
      EndOf(Held(d, r.incomingDefault), !o.Panics?) + EndOf(Held(t, r.incomingTenant), !o.Panics?)
  }

  function Story(r: Request): seq<Event> {
    var n, t := Passed(r.middlewares), TenantAfter(r.tenant, r.middlewares);
    if n < |r.middlewares| then
      var o := r.middlewares[n].outcome;
      Repeat(n + 1) + AnswerToFailure(o, 400) + AnswerToPanic(o)
    else if t.None? then Repeat(n) + [Responded(500)]
    else
      var begun := BeginOf(BegunDefault(r)) + BeginOf(BegunTenant(r, t.value));
      var o := DataStop(r, t.value);
      if !o.Succeeds? then Repeat(n) + begun + Closing(r, t.value, o) + AnswerToPanic(o)
      else
        Repeat(n) + begun + ([HandlerRan] + AnswerToFailure(r.handler, 500))
          + Closing(r, t.value, r.handler) + AnswerToPanic(r.handler)
  }

  function ExitAfter(o: Outcome, failure: Option<Failure>): Exit {
    match o
    case Panics(OtherValue) => Propagated
    case Panics(ErrorValue(e)) => Recovered(e)
    case _ => Returned(failure)
  }

  // A Tx that fails is returned.
  function DataExit(r: Request, tenant: string): Exit {
    var o := DataStop(r, tenant);
    ExitAfter(o, if o.Fails? then Some(o.e) else None)
  }

  function StoryExit(r: Request): Exit {
    var n, t := Passed(r.middlewares), TenantAfter(r.tenant, r.middlewares);
    if n < |r.middlewares| then ExitAfter(r.middlewares[n].outcome, None)
    else if t.None? then Recovered(Plain)
    else if !DataStop(r, t.value).Succeeds? then DataExit(r, t.value)
    else ExitAfter(r.handler, None)
  }

  lemma {:induction false} MiddlewaresStory(ms: seq<Middleware>)
    ensures var n, m := Passed(ms), MiddlewareStages(ms);
            if n == |ms| then Events(Executed(m)) == Repeat(n) && Stop(m).Succeeds? else
              && Events(Executed(m)) == Repeat(n + 1) + AnswerToFailure(ms[n].outcome, 400)
              && Stop(m) == ms[n].outcome && m != [] && Last(m) == RunMiddleware(ms[n].outcome)
  {
    if ms == [] {
      NoMiddlewares(None);
    } else {
      MiddlewareStep(ms, 0, None);
      assert ms[0..] == ms;
      MiddlewaresStory(ms[1..]);
      hide Executed, Stop, Events, Last, MiddlewareStages;
      var n := Passed(ms);
      if ms[0].outcome.Succeeds? {
        assert EventsOf(RunMiddleware(ms[0].outcome)) == [MiddlewareRan];
        if n < |ms| {
          Regroup([MiddlewareRan], Repeat(n), AnswerToFailure(ms[n].outcome, 400));
        }
      } else {
        assert Repeat(1) == [MiddlewareRan];
      }
    }
  }

  // Events other than begins leave the connections in the context alone.
  lemma {:induction false} Unaffected(incoming: Option<nat>, es: seq<Event>, more: seq<Event>)
    requires forall e :: e in more ==> !e.Began?
    ensures DefaultIn(incoming, es + more) == DefaultIn(incoming, es)
    ensures TenantIn(incoming, es + more) == TenantIn(incoming, es)
    ensures InTx(es + more) <==> InTx(es)
  {
    if more == [] {
      assert es + more == es;
    } else {
      var n := |more| - 1;
      Unaffected(incoming, es, more[..n]);
      Append(es + more[..n], more[n], incoming);
      hide DefaultIn, TenantIn, InTx;
      assert es + more == es + more[..n] + [more[n]];
    }
  }

  lemma HeldAfter(n: nat, d: Option<Connection>, t: Option<Connection>, more: seq<Event>, incoming: Option<nat>)
    requires (d.Some? ==> d.value.DefaultTx?) && (t.Some? ==> t.value.TenantTx?) && forall e :: e in more ==> !e.Began?
    ensures var es := Repeat(n) + (BeginOf(d) + BeginOf(t)) + more;
            && DefaultIn(incoming, es) == Held(d, incoming) && TenantIn(incoming, es) == Held(t, incoming)
            && (InTx(es) <==> d.Some? || t.Some?)
  {
    var start := Repeat(n);
    Unaffected(incoming, [], start);
    assert [] + start == start;
    assert DefaultIn(incoming, []) == Held(None, incoming) && TenantIn(incoming, []) == Held(None, incoming) && !InTx([]);
    hide DefaultIn, TenantIn, InTx, Repeat;
    Unaffected(incoming, start + (BeginOf(d) + BeginOf(t)), more);
    if d.Some? {
      Append(start, Began(d.value), incoming);
    }
    if t.Some? {
      Append(start + BeginOf(d), Began(t.value), incoming);
    }
    assert d.None? ==> start + BeginOf(d) == start;
    Regroup(start, BeginOf(d), BeginOf(t));
    assert t.None? ==> start + BeginOf(d) + BeginOf(t) == start + BeginOf(d);
  }

  lemma DataStory(r: Request, tenant: string)
    requires r.dataSource.Some?
    ensures var d := DataStages(r.dataSource, Some(tenant));
            && Events(Executed(d)) == BeginOf(BegunDefault(r)) + BeginOf(BegunTenant(r, tenant))
            && Stop(d) == DataStop(r, tenant)
  {
    var ds := r.dataSource.value;
    Compose(DefaultStages(ds), TenantStages(ds, tenant));
    DefaultOutcome(ds);
    TenantOutcome(ds, tenant);
    hide Executed, Events, Stop, Last, DefaultStages, TenantStages;
    var first := BeginOf(BegunDefault(r));
    assert first + [] == first;
  }

  lemma DataExitStory(r: Request, tenant: string)
    requires r.dataSource.Some? && !DataStop(r, tenant).Succeeds?
    ensures var d := DataStages(r.dataSource, Some(tenant)); d != [] && ExitAt(Last(d)) == DataExit(r, tenant)
  {
    var ds := r.dataSource.value;
    var a, b := DefaultStages(ds), TenantStages(ds, tenant);
    Compose(a, b);
    DefaultOutcome(ds);
    TenantOutcome(ds, tenant);
    TenantLast(ds, tenant);
    DefaultLast(ds);
    hide Executed, Events, Stop, Last, DefaultStages, TenantStages;
    assert DataStages(r.dataSource, Some(tenant)) == a + b;
    if Stop(a).Succeeds? {
      assert b != [] && Last(a + b) == Last(b);
    } else {
      assert Last(a + b) == Last(a);
    }
  }

  lemma DefaultLast(ds: DataSource)
    ensures ds.default.Some? ==> DefaultStages(ds) != [] && Last(DefaultStages(ds)) == BeginDefault(ds.default.value, ds.defaultTx)
  {
    if ds.default.Some? {
      Single(BeginDefault(ds.default.value, ds.defaultTx));
    }
  }

  // Where the preparation does not stop the request, the handler does.
  lemma PreparationStory(r: Request)
    requires Passed(r.middlewares) == |r.middlewares| && TenantAfter(r.tenant, r.middlewares).Some?
    ensures var t := TenantAfter(r.tenant, r.middlewares).value;
            && Events(Executed(Preparation(r)))
               == Repeat(|r.middlewares|) + (BeginOf(BegunDefault(r)) + BeginOf(BegunTenant(r, t)))
            && Stop(Preparation(r)) == DataStop(r, t)
            && (!DataStop(r, t).Succeeds? ==> Preparation(r) != [] && ExitAt(Last(Preparation(r))) == DataExit(r, t))
  {
    var t := TenantAfter(r.tenant, r.middlewares);
    var m, p, d := MiddlewareStages(r.middlewares), [TenantStage(t)], DataStages(r.dataSource, t);
    MiddlewaresStory(r.middlewares);
    Compose(m, p);
    Compose(m + p, d);
    Single(TenantStage(t));
    assert Preparation(r) == m + p + d;
    assert r.dataSource.None? ==> d == [];
    hide Executed, Events, Stop, Last, MiddlewareStages, ExitAt, Repeat, TenantAfter, Preparation, DataStages, DataExit;
    var run := Repeat(|r.middlewares|);
    assert run + [] == run;
    if r.dataSource.Some? {
      DataStory(r, t.value);
      if !DataStop(r, t.value).Succeeds? {
        DataExitStory(r, t.value);
      }
    } else {
      EmptyStages();
      assert run + ([] + []) == run;
    }
  }

  lemma EmptyStages()
    ensures Events(Executed([])) == [] && Stop([]).Succeeds?
  {
  }

  lemma MiddlewareStops(r: Request)
    requires Passed(r.middlewares) < |r.middlewares|
    ensures var o := r.middlewares[Passed(r.middlewares)].outcome;
            && Body(r) == Repeat(Passed(r.middlewares) + 1) + AnswerToFailure(o, 400)
            && Stop(Stages(r)) == o && ExitOf(r) == ExitAfter(o, None)
  {
    var t := TenantAfter(r.tenant, r.middlewares);
    var m, p, d := MiddlewareStages(r.middlewares), [TenantStage(t)], DataStages(r.dataSource, t);
    MiddlewaresStory(r.middlewares);
    Compose(m, p);
    Compose(m + p, d);
    Compose(m + p + d, [Handle(r.handler)]);
    assert Stages(r) == m + p + d + [Handle(r.handler)];
    hide Executed, Events, Stop, Last, MiddlewareStages, DataStages, TenantStage, Repeat, TenantAfter, Stages, EventsOf;
    var o := r.middlewares[Passed(r.middlewares)].outcome;
    var es := Repeat(Passed(r.middlewares) + 1) + AnswerToFailure(o, 400);
    assert es + [] == es;
  }

  lemma TenantKeyStops(r: Request)
    requires Passed(r.middlewares) == |r.middlewares| && TenantAfter(r.tenant, r.middlewares).None?
    ensures Body(r) == Repeat(|r.middlewares|) && Stop(Stages(r)) == Panics(ErrorValue(Plain)) && ExitOf(r) == Recovered(Plain)
  {
    var m, p := MiddlewareStages(r.middlewares), [TenantStage(None)];
    MiddlewaresStory(r.middlewares);
    Compose(m, p);
    Compose(m + p, [Handle(r.handler)]);
    Single(TenantStage(None));
    assert Stages(r) == m + p + [] + [Handle(r.handler)] == m + p + [Handle(r.handler)];
    hide Executed, Events, Stop, Last, MiddlewareStages, Repeat, TenantAfter, Stages;
    var es := Repeat(|r.middlewares|);
    assert es + [] == es;
  }

  lemma DataStops(r: Request)
    requires Passed(r.middlewares) == |r.middlewares| && TenantAfter(r.tenant, r.middlewares).Some?
    ensures var t := TenantAfter(r.tenant, r.middlewares).value;
            var begun := BeginOf(BegunDefault(r)) + BeginOf(BegunTenant(r, t));
            var o := DataStop(r, t);
            if !o.Succeeds? then
              && Body(r) == Repeat(|r.middlewares|) + begun && Stop(Stages(r)) == o
              && ExitOf(r) == DataExit(r, t)
            else
              && Body(r) == Repeat(|r.middlewares|) + begun + ([HandlerRan] + AnswerToFailure(r.handler, 500))
              && Stop(Stages(r)) == r.handler && ExitOf(r) == ExitAfter(r.handler, None)
  {
    PreparationStory(r);
    Compose(Preparation(r), [Handle(r.handler)]);
    Single(Handle(r.handler));
    var t := TenantAfter(r.tenant, r.middlewares).value;
    hide Executed, Events, Stop, Last, Repeat, TenantAfter, Preparation, DataStop, BegunDefault, BegunTenant, DataExit;
    var es := Repeat(|r.middlewares|) + (BeginOf(BegunDefault(r)) + BeginOf(BegunTenant(r, t)));
    assert es + [] == es;
    assert EventsOf(Handle(r.handler)) == [HandlerRan] + AnswerToFailure(r.handler, 500);
  }

  // The deferred block in the same terms.
  lemma DeferredStory(r: Request, n: nat, tenant: string, more: seq<Event>, o: Outcome)
    requires forall e :: e in more ==> !e.Began?
    ensures Deferred(r, Repeat(n) + (BeginOf(BegunDefault(r)) + BeginOf(BegunTenant(r, tenant))) + more, o)
         == Closing(r, tenant, o) + AnswerToPanic(o)
  {
    var d, t := BegunDefault(r), BegunTenant(r, tenant);
    HeldAfter(n, d, t, more, r.incomingDefault);
    HeldAfter(n, d, t, more, r.incomingTenant);
    hide DefaultIn, TenantIn, InTx, Repeat, BegunDefault, BegunTenant, BeginOf, Held;
    if o.Panics? && o.p.ErrorValue? {
      assert AnswerToPanic(o) == [Responded(Status(o.p.e, 500))];
    }
  }

  lemma DeferredAlone(r: Request, n: nat, more: seq<Event>, o: Outcome)
    requires forall e :: e in more ==> !e.Began?
    ensures Deferred(r, Repeat(n) + more, o) == AnswerToPanic(o)
  {
    HeldAfter(n, None, None, more, r.incomingDefault);
    assert Repeat(n) + (BeginOf(None) + BeginOf(None)) == Repeat(n);
    hide DefaultIn, TenantIn, InTx, Repeat;
    if o.Panics? && o.p.ErrorValue? {
      assert AnswerToPanic(o) == [Responded(Status(o.p.e, 500))];
    }
  }

  // The stages tell the same story, event by event.
  lemma TraceIsStory(r: Request)
    ensures Trace(r) == Story(r) && ExitOf(r) == StoryExit(r)
  {
    var n, t := Passed(r.middlewares), TenantAfter(r.tenant, r.middlewares);
    hide Body, Stages, Stop, Deferred, ExitOf, TenantAfter, Passed, Repeat, DataStop, BegunDefault, BegunTenant, Closing, DataExit;
    if n < |r.middlewares| {
      var o := r.middlewares[n].outcome;
      MiddlewareStops(r);
      DeferredAlone(r, n + 1, AnswerToFailure(o, 400), o);
    } else if t.None? {
      TenantKeyStops(r);
      DeferredAlone(r, n, [], Panics(ErrorValue(Plain)));
      assert Repeat(n) + [] == Repeat(n);
    } else {
      var begun := BeginOf(BegunDefault(r)) + BeginOf(BegunTenant(r, t.value));
      var o := DataStop(r, t.value);
      DataStops(r);
      if !o.Succeeds? {
        DeferredStory(r, n, t.value, [], o);
        assert Repeat(n) + begun + [] == Repeat(n) + begun;
        Regroup(Repeat(n) + begun, Closing(r, t.value, o), AnswerToPanic(o));
      } else {
        var more := [HandlerRan] + AnswerToFailure(r.handler, 500);
        DeferredStory(r, n, t.value, more, r.handler);
        Regroup(Repeat(n) + begun + more, Closing(r, t.value, r.handler), AnswerToPanic(r.handler));
      }
    }
  }

  // ---------------------------------------------------------------- how the wrapper is left

  // The middlewares end with that outcome.
  ghost predicate MiddlewaresEnd(ms: seq<Middleware>, o: Outcome) {
    exists k :: 0 <= k < |ms| && ms[k].outcome == o && forall j :: 0 <= j < k ==> ms[j].outcome.Succeeds?
  }

  lemma PassedIs(ms: seq<Middleware>, o: Outcome)
    requires !o.Succeeds?
    ensures MiddlewaresEnd(ms, o) <==> Passed(ms) < |ms| && ms[Passed(ms)].outcome == o
    ensures Passed(ms) == |ms| <==> forall m :: m in ms ==> m.outcome.Succeeds?
  {
    var n := Passed(ms);
    assert n < |ms| ==> ms[n] in ms;
    if k :| 0 <= k < |ms| && ms[k].outcome == o && forall j :: 0 <= j < k ==> ms[j].outcome.Succeeds? {
      assert !(k < n) && !(n < k);
    }
  }

  lemma {:induction false} TenantNotSet(tenant: Option<string>, ms: seq<Middleware>)
    requires forall i :: 0 <= i < |ms| ==> ms[i].tenant.None?
    ensures TenantAfter(tenant, ms) == tenant
    decreases |ms|
  {
    if ms != [] {
      TenantNotSet(tenant, ms[1..]);
    }
  }

  // The key that a middleware sets counts if none after it sets another.
  lemma {:induction false} TenantSetLast(tenant: Option<string>, ms: seq<Middleware>, k: nat)
    requires k < |ms| && ms[k].tenant.Some? && forall j :: k < j < |ms| ==> ms[j].tenant.None?
    ensures TenantAfter(tenant, ms) == ms[k].tenant
    decreases |ms|
  {
    var next := if ms[0].tenant.Some? then ms[0].tenant else tenant;
    assert TenantAfter(tenant, ms) == TenantAfter(next, ms[1..]);
    hide TenantAfter;
    if k == 0 {
      TenantNotSet(next, ms[1..]);
    } else {
      TenantSetLast(next, ms[1..], k - 1);
    }
  }

  predicate Arrived(r: Request) {
    (forall m :: m in r.middlewares ==> m.outcome.Succeeds?) && TenantAfter(r.tenant, r.middlewares).Some?
  }

  // Beginning a transaction fails with that error.
  predicate BeginFails(r: Request, e: Failure) {
    && Arrived(r) && r.dataSource.Some?
    && var ds, tenant := r.dataSource.value, TenantAfter(r.tenant, r.middlewares).value;
       || (ds.default.Some? && ds.defaultTx == Fails(e))
       || ((ds.default.Some? ==> ds.defaultTx.Succeeds?) && tenant != "" && ds.lookup.Found? && ds.tenantTx == Fails(e))
  }

  // So does finding a connection or beginning on it, but with a panic.
  predicate DataPanics(r: Request, p: Panic) {
    && Arrived(r) && r.dataSource.Some?
    && var ds, tenant := r.dataSource.value, TenantAfter(r.tenant, r.middlewares).value;
       || (ds.default.Some? && ds.defaultTx == Panics(p))
       || ((ds.default.Some? ==> ds.defaultTx.Succeeds?) && tenant != "" &&
           (ds.lookup == LookupPanics(p) || (ds.lookup.Found? && ds.tenantTx == Panics(p))))
  }

  ghost predicate PanicsWith(r: Request, p: Panic) {
    || MiddlewaresEnd(r.middlewares, Panics(p))
    || DataPanics(r, p)
    || (Ready(r) && r.handler == Panics(p))
  }

  lemma ReadyStory(r: Request)
    ensures Ready(r) <==> Arrived(r) && DataStop(r, TenantAfter(r.tenant, r.middlewares).value).Succeeds?
  {
    hide TenantAfter;
  }

  lemma BeginFailsIff(r: Request, e: Failure)
    requires Arrived(r)
    ensures BeginFails(r, e) <==> DataStop(r, TenantAfter(r.tenant, r.middlewares).value) == Fails(e)
  {
    hide TenantAfter;
  }

  lemma ErrorExit(o: Outcome, e: Failure)
    ensures ExitAfter(o, if o.Fails? then Some(o.e) else None) == Returned(Some(e)) <==> o == Fails(e)
    ensures ExitAfter(o, None) != Returned(Some(e))
  {
  }

  lemma BeginFailsArrived(r: Request, e: Failure)
    ensures BeginFails(r, e) ==> Arrived(r)
  {
  }

  // An error goes back to the router exactly if it comes from beginning a transaction.
  lemma ReturnedErrorIff(r: Request, e: Failure)
    ensures ExitOf(r) == Returned(Some(e)) <==> BeginFails(r, e)
  {
    var n, t := Passed(r.middlewares), TenantAfter(r.tenant, r.middlewares);
    TraceIsStory(r);
    PassedIs(r.middlewares, Fails(e));
    BeginFailsArrived(r, e);
    hide TenantAfter, Passed, ExitOf, Trace, Story, BeginFails, DataStop, ExitAfter, MiddlewaresEnd;
    if n < |r.middlewares| {
      ErrorExit(r.middlewares[n].outcome, e);
    } else if t.Some? {
      BeginFailsIff(r, e);
      ErrorExit(DataStop(r, t.value), e);
      ErrorExit(r.handler, e);
    }
  }

  // The errors of middlewares and of the handler do not: they have been answered.
  lemma ReturnedNothingIff(r: Request)
    ensures ExitOf(r) == Returned(None)
       <==> (exists e :: MiddlewaresEnd(r.middlewares, Fails(e))) || (Ready(r) && !r.handler.Panics?)
  {
    TraceIsStory(r);
    ReadyStory(r);
    PassedIs(r.middlewares, Panics(OtherValue));
    forall e {
      PassedIs(r.middlewares, Fails(e));
    }
    hide TenantAfter, Passed, ExitOf, Trace, Story, Ready, DataStop, MiddlewaresEnd;
  }

  lemma DataPanicsIff(r: Request, p: Panic)
    requires Arrived(r)
    ensures DataPanics(r, p) <==> DataStop(r, TenantAfter(r.tenant, r.middlewares).value) == Panics(p)
  {
    hide TenantAfter;
  }

  // Which exit a panic with p leads to is decided by p.
  function ExitOfPanic(p: Panic): Exit {
    match p
    case ErrorValue(e) => Recovered(e)
    case OtherValue => Propagated
  }

  lemma PanicExit(o: Outcome, failure: Option<Failure>, p: Panic)
    ensures ExitAfter(o, failure) == ExitOfPanic(p) <==> o == Panics(p)
  {
  }

  lemma PanicExitIff(r: Request, p: Panic)
    requires (forall m :: m in r.middlewares ==> m.outcome.Succeeds?) ==> TenantAfter(r.tenant, r.middlewares).Some?
    ensures ExitOf(r) == ExitOfPanic(p) <==> PanicsWith(r, p)
  {
    var n, t := Passed(r.middlewares), TenantAfter(r.tenant, r.middlewares);
    TraceIsStory(r);
    ReadyStory(r);
    PassedIs(r.middlewares, Panics(p));
    hide TenantAfter, Passed, ExitOf, Trace, Story, Ready, MiddlewaresEnd, DataPanics, DataStop, ExitAfter, ExitOfPanic;
    if n < |r.middlewares| {
      PanicExit(r.middlewares[n].outcome, None, p);
      NotArrived(r, p);
    } else {
      var o := DataStop(r, t.value);
      DataPanicsIff(r, p);
      PanicExit(o, if o.Fails? then Some(o.e) else None, p);
      PanicExit(r.handler, None, p);
    }
  }

  lemma NotArrived(r: Request, p: Panic)
    ensures (DataPanics(r, p) || Ready(r)) ==> Arrived(r)
  {
  }

  // A panic with an error is recovered with that error, and so is the one without a tenant key.
  lemma RecoveredIff(r: Request, e: Failure)
    ensures ExitOf(r) == Recovered(e) <==> PanicsWith(r, ErrorValue(e)) || (NoTenantKey(r) && e == Plain)
  {
    if NoTenantKey(r) {
      NoTenantExit(r, ErrorValue(e));
    } else {
      PanicExitIff(r, ErrorValue(e));
    }
    hide PanicsWith, NoTenantKey, ExitOf;
  }

  // A panic with any other value is let through.
  lemma PropagatedOnRequestIff(r: Request)
    ensures ExitOf(r) == Propagated <==> PanicsWith(r, OtherValue)
  {
    if NoTenantKey(r) {
      NoTenantExit(r, OtherValue);
    } else {
      PanicExitIff(r, OtherValue);
    }
    hide PanicsWith, NoTenantKey, ExitOf;
  }

  predicate NoTenantKey(r: Request) {
    (forall m :: m in r.middlewares ==> m.outcome.Succeeds?) && TenantAfter(r.tenant, r.middlewares).None?
  }

  lemma NoTenantExit(r: Request, p: Panic)
    requires NoTenantKey(r)
    ensures ExitOf(r) == Recovered(Plain) && !PanicsWith(r, p)
  {
    TraceIsStory(r);
    PassedIs(r.middlewares, Panics(p));
    NotArrived(r, p);
    hide TenantAfter, Passed, ExitOf, Trace, Story, Ready, MiddlewaresEnd, DataPanics, DataStop;
  }

  // ---------------------------------------------------------------- answers

  function Answers(es: seq<Event>): nat {
    if es == [] then 0 else Answers(es[..|es| - 1]) + (if es[|es| - 1].Responded? then 1 else 0)
  }

  lemma {:induction false} AnswersConcat(a: seq<Event>, b: seq<Event>)
    ensures Answers(a + b) == Answers(a) + Answers(b)
  {
    if b == [] {
      assert a + b == a;
    } else {
      AnswersConcat(a, b[..|b| - 1]);
      assert (a + b)[..|a + b| - 1] == a + b[..|b| - 1];
    }
  }

  // A stage answers exactly if it is a middleware or the handler, and returned an error.
  predicate StageAnswers(s: Stage) {
    (s.RunMiddleware? || s.Handle?) && s.outcome.Fails?
  }

  lemma StageAnswersOnce(s: Stage)
    ensures Answers(EventsOf(s)) == if StageAnswers(s) then 1 else 0
  {
    assert EventsOf(s) != [] ==> EventsOf(s)[..|EventsOf(s)| - 1] == (if |EventsOf(s)| == 1 then [] else [EventsOf(s)[0]]);
    assert forall e: Event :: [e][..0] == [];
  }

  lemma {:induction false} OnlyLastAnswers(st: seq<Stage>)
    requires st != []
    ensures Answers(Events(Executed(st))) == if StageAnswers(Last(st)) then 1 else 0
  {
    StageAnswersOnce(st[0]);
    if st[0].outcome.Succeeds? && |st| > 1 {
      OnlyLastAnswers(st[1..]);
      Compose([st[0]], st[1..]);
      Single(st[0]);
      assert [st[0]] + st[1..] == st;
      AnswersConcat(EventsOf(st[0]), Events(Executed(st[1..])));
    } else {
      Compose([st[0]], st[1..]);
      Single(st[0]);
      assert [st[0]] + st[1..] == st;
      if |st| == 1 {
        assert st == [st[0]];
      }
    }
  }

  lemma DeferredAnswers(r: Request, es: seq<Event>, stop: Outcome)
    ensures Answers(Deferred(r, es, stop)) == if stop.Panics? && stop.p.ErrorValue? then 1 else 0
  {
    var d, t := DefaultIn(r.incomingDefault, es), TenantIn(r.incomingTenant, es);
    hide DefaultIn, TenantIn, InTx;
    forall c: bool ensures Answers(Ends(r, es, c)) == 0 {
      EndsAnswerNothing(d, c);
      EndsAnswerNothing(t, c);
      AnswersConcat(EndOf(d, c), EndOf(t, c));
    }
    if stop.Panics? && stop.p.ErrorValue? {
      var last := [Responded(Status(stop.p.e, 500))];
      AnswersConcat(Ends(r, es, false), last);
      assert last[..0] == [];
    }
  }

  lemma EndsAnswerNothing(cnx: Option<Connection>, committed: bool)
    ensures Answers(EndOf(cnx, committed)) == 0
  {
    if cnx.Some? {
      assert EndOf(cnx, committed)[..0] == [];
    }
  }

  // The wrapper answers a request at most once: exactly if a middleware or the handler returned
  // an error, or an error value was recovered.
  lemma AnsweredAtMostOnce(r: Request)
    ensures Answers(Trace(r)) == if StageAnswers(Last(Stages(r))) || ExitOf(r).Recovered? then 1 else 0
  {
    OnlyLastAnswers(Stages(r));
    DeferredAnswers(r, Body(r), Stop(Stages(r)));
    AnswersConcat(Body(r), Deferred(r, Body(r), Stop(Stages(r))));
    LastStops(Stages(r));
    hide Executed, Stages, Stop, Deferred, Answers;
  }
}
