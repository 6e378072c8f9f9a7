// checkFeatures loads the direct dependencies of the requested features and orders the lot;
// Init runs the hooks of the loaded features in that order.
module FeatureLoader {
  import opened Wrappers
  import opened Features
  import opened FeatureOrder
  import opened Sequences

  function DirectDependencies(fs: seq<Feature>): seq<Feature> {
    if fs == [] then [] else fs[0].dependsOn + DirectDependencies(fs[1..])
  }

  // The first instance of every name that has not been seen yet.
  function Fresh(deps: seq<Feature>, seen: set<string>): seq<Feature> {
    if deps == [] then []
    else if deps[0].name in seen then Fresh(deps[1..], seen)
    else [deps[0]] + Fresh(deps[1..], seen + {deps[0].name})
  }

  // One level of dependencies: those of the loaded dependencies are not loaded in turn.
  function Closure(fs: seq<Feature>): seq<Feature> {
    fs + Fresh(DirectDependencies(fs), Names(fs))
  }

  predicate WellNamed(fs: seq<Feature>) {
    DistinctNames(fs) && forall f :: f in fs ==> f.name != ""
  }

  // The features for which loading succeeds.
  ghost predicate Loadable(fs: seq<Feature>) {
    && WellNamed(fs)
    && (forall x, d :: x in Closure(fs)[|fs|..] && d in x.dependsOn ==> d.name in Names(Closure(fs)))
    && Acyclic(Closure(fs))
  }

  // ---------------------------------------------------------------- what the closure holds

  ghost predicate FirstOfItsName(f: Feature, deps: seq<Feature>) {
    exists k :: 0 <= k < |deps| && deps[k] == f && f.name !in Names(deps[..k])
  }

  lemma {:induction false} FreshNames(deps: seq<Feature>, seen: set<string>)
    ensures DistinctNames(Fresh(deps, seen))
    ensures Names(Fresh(deps, seen)) == Names(deps) - seen
  {
    if deps != [] {
      var d, rest := deps[0], deps[1..];
      assert Names(deps) == {d.name} + Names(rest);
      if d.name in seen {
        FreshNames(rest, seen);
      } else {
        var tail := Fresh(rest, seen + {d.name});
        FreshNames(rest, seen + {d.name});
        assert Names([d] + tail) == {d.name} + Names(tail);
        forall i | 0 <= i < |tail| ensures tail[i].name != d.name {
          assert tail[i].name in Names(tail);
        }
      }
    }
  }

  lemma {:induction false} FreshAreFirst(deps: seq<Feature>, seen: set<string>, f: Feature)
    requires f in Fresh(deps, seen)
    ensures f.name !in seen && FirstOfItsName(f, deps)
  {
    var d, rest := deps[0], deps[1..];
    assert deps[..0] == [];
    assert d.name in seen ==> seen + {d.name} == seen;
    if d.name in seen || f != d {
      FreshAreFirst(rest, seen + {d.name}, f);
      var k :| 0 <= k < |rest| && rest[k] == f && f.name !in Names(rest[..k]);
      assert deps[..k + 1] == [d] + rest[..k];
      assert deps[k + 1] == f;
    }
  }

  lemma {:induction false} DirectDependenciesAre(fs: seq<Feature>, d: Feature)
    ensures d in DirectDependencies(fs) <==> exists f :: f in fs && d in f.dependsOn
  {
    if fs != [] {
      assert fs == [fs[0]] + fs[1..];
      DirectDependenciesAre(fs[1..], d);
    }
  }

  // Once per name, the requested instance preferred, and exactly one level deep.
  lemma ClosureIsOneLevel(fs: seq<Feature>)
    requires DistinctNames(fs)
    ensures DistinctNames(Closure(fs))
    ensures forall f :: f in Closure(fs) && f.name in Names(fs) ==> f in fs
    ensures forall f :: f in Closure(fs) && f !in fs ==> FirstOfItsName(f, DirectDependencies(fs))
    ensures forall f, d :: f in fs && d in f.dependsOn ==> d.name in Names(Closure(fs))
    ensures Names(Closure(fs)) == Names(fs) + Names(DirectDependencies(fs))
  {
    var deps := DirectDependencies(fs);
    var extra := Fresh(deps, Names(fs));
    FreshNames(deps, Names(fs));
    forall f | f in extra ensures FirstOfItsName(f, deps) {
      FreshAreFirst(deps, Names(fs), f);
    }
    forall i, j | 0 <= i < j < |fs + extra| ensures (fs + extra)[i].name != (fs + extra)[j].name {
      if i < |fs| <= j {
        assert extra[j - |fs|].name in Names(extra) && fs[i].name in Names(fs);
      } else if |fs| <= i {
        assert extra[i - |fs|].name != extra[j - |fs|].name;
      }
    }
    assert Names(fs + extra) == Names(fs) + Names(extra);
    forall f, d | f in fs && d in f.dependsOn ensures d.name in Names(deps) {
      DirectDependenciesAre(fs, d);
    }
  }

  // ---------------------------------------------------------------- which instance of a name is loaded

  // The l-th dependency of the k-th feature.
  datatype Place = Place(k: nat, l: nat)

  predicate IsPlace(fs: seq<Feature>, p: Place) {
    p.k < |fs| && p.l < |fs[p.k].dependsOn|
  }

  function At(fs: seq<Feature>, p: Place): Feature
    requires IsPlace(fs, p)
  {
    fs[p.k].dependsOn[p.l]
  }

  // Features first to last, and the dependencies of each first to last.
  predicate Earlier(p: Place, q: Place) {
    p.k < q.k || (p.k == q.k && p.l < q.l)
  }

  // No dependency of that name is listed earlier.
  ghost predicate FirstPlace(fs: seq<Feature>, p: Place, f: Feature) {
    IsPlace(fs, p) && At(fs, p) == f && forall q :: IsPlace(fs, q) && Earlier(q, p) ==> At(fs, q).name != f.name
  }

  lemma DependenciesHead(f: Feature, fs: seq<Feature>)
    ensures DirectDependencies([f] + fs) == f.dependsOn + DirectDependencies(fs)
  {
    assert ([f] + fs)[1..] == fs;
  }

  lemma {:induction false} DependenciesConcat(a: seq<Feature>, b: seq<Feature>)
    ensures DirectDependencies(a + b) == DirectDependencies(a) + DirectDependencies(b)
  {
    if a == [] {
      assert a + b == b && DirectDependencies(a) + DirectDependencies(b) == DirectDependencies(b);
    } else {
      var rest := a[1..];
      assert a == [a[0]] + rest;
      DependenciesConcat(rest, b);
      hide DirectDependencies;
      DependenciesHead(a[0], rest);
      DependenciesHead(a[0], rest + b);
      Regroup([a[0]], rest, b);
      Regroup(a[0].dependsOn, DirectDependencies(rest), DirectDependencies(b));
    }
  }

  function Start(fs: seq<Feature>, k: nat): (n: nat)
    requires k <= |fs|
    ensures k == 0 ==> n == 0
  {
    |DirectDependencies(fs[..k])|
  }

  lemma Starts(fs: seq<Feature>, k: nat)
    requires k < |fs|
    ensures DirectDependencies(fs[..k + 1]) == DirectDependencies(fs[..k]) + fs[k].dependsOn
    ensures Start(fs, k + 1) == Start(fs, k) + |fs[k].dependsOn|
  {
    assert fs[..k + 1] == fs[..k] + [fs[k]];
    DependenciesConcat(fs[..k], [fs[k]]);
    assert [fs[k]][1..] == [] && fs[k].dependsOn + [] == fs[k].dependsOn;
  }

  lemma {:induction false} StartsGrow(fs: seq<Feature>, k: nat, m: nat)
    requires k <= m <= |fs|
    ensures Start(fs, k) <= Start(fs, m)
    decreases m - k
  {
    if k < m {
      Starts(fs, m - 1);
      StartsGrow(fs, k, m - 1);
    }
  }

  // Where a place is in the list of all dependencies.
  function Index(fs: seq<Feature>, p: Place): nat
    requires IsPlace(fs, p)
  {
    Start(fs, p.k) + p.l
  }

  lemma AroundFeature(fs: seq<Feature>, k: nat)
    requires k < |fs|
    ensures DirectDependencies(fs) == DirectDependencies(fs[..k]) + fs[k].dependsOn + DirectDependencies(fs[k + 1..])
  {
    hide *;
    Starts(fs, k);
    DependenciesConcat(fs[..k + 1], fs[k + 1..]);
    TakeAndDrop(fs, k + 1);
  }

  lemma IndexAt(fs: seq<Feature>, p: Place)
    requires IsPlace(fs, p)
    ensures Index(fs, p) < |DirectDependencies(fs)| && DirectDependencies(fs)[Index(fs, p)] == At(fs, p)
  {
    hide DirectDependencies;
    AroundFeature(fs, p.k);
    InTheMiddle(DirectDependencies(fs[..p.k]), fs[p.k].dependsOn, DirectDependencies(fs[p.k + 1..]), p.l);
  }

  lemma IndexGrows(fs: seq<Feature>, p: Place, q: Place)
    requires IsPlace(fs, p) && IsPlace(fs, q)
    ensures Earlier(p, q) <==> Index(fs, p) < Index(fs, q)
  {
    if p.k < q.k {
      Starts(fs, p.k);
      StartsGrow(fs, p.k + 1, q.k);
    } else if q.k < p.k {
      Starts(fs, q.k);
      StartsGrow(fs, q.k + 1, p.k);
    }
  }

  lemma {:induction false} PlaceOf(fs: seq<Feature>, m: nat, i: nat) returns (p: Place)
    requires m <= |fs| && i < Start(fs, m)
    ensures IsPlace(fs, p) && Index(fs, p) == i
  {
    assert m > 0;
    Starts(fs, m - 1);
    if i < Start(fs, m - 1) {
      p := PlaceOf(fs, m - 1, i);
    } else {
      p := Place(m - 1, i - Start(fs, m - 1));
    }
  }

  // The first index with a name.
  predicate IsFirstAt(deps: seq<Feature>, i: nat, name: string) {
    i < |deps| && deps[i].name == name && forall j :: 0 <= j < i ==> deps[j].name != name
  }

  lemma FirstPlaceIff(fs: seq<Feature>, p: Place)
    requires IsPlace(fs, p)
    ensures FirstPlace(fs, p, At(fs, p)) <==> IsFirstAt(DirectDependencies(fs), Index(fs, p), At(fs, p).name)
  {
    var deps, i := DirectDependencies(fs), Index(fs, p);
    IndexAt(fs, p);
    hide DirectDependencies, Index, Earlier, IsPlace, At;
    if FirstPlace(fs, p, At(fs, p)) {
      forall j | 0 <= j < i ensures deps[j].name != At(fs, p).name {
        assert fs[..|fs|] == fs;
        var q := PlaceOf(fs, |fs|, j);
        IndexAt(fs, q);
        IndexGrows(fs, q, p);
      }
    }
    if IsFirstAt(deps, i, At(fs, p).name) {
      forall q | IsPlace(fs, q) && Earlier(q, p) ensures At(fs, q).name != At(fs, p).name {
        IndexAt(fs, q);
        IndexGrows(fs, q, p);
      }
    }
  }

  // The added ones keep the order of the first indices of their names.
  lemma {:induction false} FreshOrder(deps: seq<Feature>, seen: set<string>, a: nat, b: nat, i: nat, j: nat)
    requires a < b < |Fresh(deps, seen)|
    requires IsFirstAt(deps, i, Fresh(deps, seen)[a].name) && IsFirstAt(deps, j, Fresh(deps, seen)[b].name)
    ensures i < j
  {
    var d, rest := deps[0], deps[1..];
    var f, g := Fresh(deps, seen)[a], Fresh(deps, seen)[b];
    FreshNames(deps, seen);
    assert f.name in Names(Fresh(deps, seen)) && g.name in Names(Fresh(deps, seen)) && f.name != g.name;
    if d.name in seen {
      FirstShifts(deps, i, f.name);
      FirstShifts(deps, j, g.name);
      FreshOrder(rest, seen, a, b, i - 1, j - 1);
    } else if a > 0 {
      assert f.name != d.name && g.name != d.name by {
        assert Fresh(deps, seen)[0] == d;
      }
      FirstShifts(deps, i, f.name);
      FirstShifts(deps, j, g.name);
      FreshOrder(rest, seen + {d.name}, a - 1, b - 1, i - 1, j - 1);
    } else {
      assert f == d && i == 0;
    }
  }

  lemma FirstShifts(deps: seq<Feature>, i: nat, name: string)
    requires IsFirstAt(deps, i, name) && deps[0].name != name
    ensures i > 0 && IsFirstAt(deps[1..], i - 1, name)
  {
    assert forall j :: 0 <= j < |deps| - 1 ==> deps[1..][j] == deps[j + 1];
  }

  ghost predicate InListOrder(fs: seq<Feature>, added: seq<Feature>) {
    forall a, b, p, q :: (0 <= a < b < |added| && FirstPlace(fs, p, added[a]) && FirstPlace(fs, q, added[b])) ==> Earlier(p, q)
  }

  // Which instance of a name is added: the one listed first, features first to last and the
  // dependencies of each first to last. And the added ones keep that order.
  lemma AddedAreFirstListed(fs: seq<Feature>)
    ensures forall f :: f in Closure(fs)[|fs|..] ==> f.name !in Names(fs) && exists p :: FirstPlace(fs, p, f)
    ensures InListOrder(fs, Closure(fs)[|fs|..])
  {
    var deps, added := DirectDependencies(fs), Closure(fs)[|fs|..];
    assert added == Fresh(deps, Names(fs));
    forall f | f in added ensures f.name !in Names(fs) && exists p :: FirstPlace(fs, p, f) {
      FreshAreFirst(deps, Names(fs), f);
      var p := FirstListed(fs, f);
    }
    forall a, b, p, q | 0 <= a < b < |added| && FirstPlace(fs, p, added[a]) && FirstPlace(fs, q, added[b]) ensures Earlier(p, q) {
      FirstPlaceIff(fs, p);
      FirstPlaceIff(fs, q);
      FreshOrder(deps, Names(fs), a, b, Index(fs, p), Index(fs, q));
      IndexGrows(fs, p, q);
    }
  }

  lemma FirstListed(fs: seq<Feature>, f: Feature) returns (p: Place)
    requires FirstOfItsName(f, DirectDependencies(fs))
    ensures FirstPlace(fs, p, f)
  {
    var deps := DirectDependencies(fs);
    var i: nat :| i < |deps| && deps[i] == f && f.name !in Names(deps[..i]);
    assert fs[..|fs|] == fs;
    p := PlaceOf(fs, |fs|, i);
    IndexAt(fs, p);
    hide DirectDependencies, Index, IsPlace, At;
    forall j | 0 <= j < i ensures deps[j].name != f.name {
      assert deps[..i][j] in deps[..i];
    }
    FirstPlaceIff(fs, p);
  }

  // The only dependency that can be missing is one of a dependency loaded on the way.
  lemma LoadableIff(fs: seq<Feature>)
    ensures Loadable(fs) <==> WellNamed(fs) && Orderable(Closure(fs))
  {
    if WellNamed(fs) {
      ClosureIsOneLevel(fs);
      var c := Closure(fs);
      assert c[|fs|..] == Fresh(DirectDependencies(fs), Names(fs));
      if forall x, d :: x in c[|fs|..] && d in x.dependsOn ==> d.name in Names(c) {
        forall a, b | Depends(c, a, b) ensures b in Names(c) {
          var f, d :| f in c && d in f.dependsOn && f.name == a && d.name == b;
          assert f in fs || f in c[|fs|..];
        }
      }
      if NoMissing(c) {
        forall x, d | x in c[|fs|..] && d in x.dependsOn ensures d.name in Names(c) {
          assert Depends(c, x.name, d.name);
        }
      }
    }
  }

  // Three features in a chain, of which only the first is requested: the second is loaded, the
  // third is not, and loading fails although every instance was at hand.
  lemma ChainIsNotLoadable(a: Feature, b: Feature, c: Feature)
    requires a.dependsOn == [b] && b.dependsOn == [c] && c.dependsOn == []
    requires a.name != b.name && c.name != a.name && c.name != b.name
    ensures Closure([a]) == [a, b] && !Loadable([a])
  {
    assert DirectDependencies([a]) == [b] by {
      assert [a][1..] == [] && [b] + DirectDependencies([]) == [b];
    }
    assert Fresh([b], {a.name}) == [b] by {
      assert [b][1..] == [];
    }
    assert Names([a]) == {a.name};
    assert [a] + [b] == [a, b];
    assert b in [a, b][1..] && c in b.dependsOn;
    assert c.name !in Names([a, b]);
  }

  // ---------------------------------------------------------------- checkFeatures

  // The i-th requested feature is the first one with an empty or repeated name.
  ghost predicate FaultAt(fs: seq<Feature>, i: int) {
    0 <= i < |fs| && WellNamed(fs[..i]) && (fs[i].name == "" || fs[i].name in Names(fs[..i]))
  }

  lemma FaultStays(fs: seq<Feature>, i: nat, j: nat)
    requires FaultAt(fs, i) && i < j <= |fs|
    ensures !WellNamed(fs[..j])
  {
    assert fs[..j][i] == fs[i] && fs[i] in fs[..j];
    if fs[i].name in Names(fs[..i]) {
      var k :| 0 <= k < i && fs[k].name == fs[i].name;
      assert fs[..j][k] == fs[k];
    }
  }

  lemma FaultIsFirst(fs: seq<Feature>, i: nat)
    requires FaultAt(fs, i)
    ensures !WellNamed(fs)
    ensures forall j :: FaultAt(fs, j) ==> j == i
  {
    FaultStays(fs, i, |fs|);
    assert fs[..|fs|] == fs;
    forall j | FaultAt(fs, j) ensures j == i {
      if j < i {
        FaultStays(fs, j, i);
      } else if i < j {
        FaultStays(fs, i, j);
      }
    }
  }

  lemma NoFault(fs: seq<Feature>)
    requires WellNamed(fs)
    ensures forall i :: !FaultAt(fs, i)
  {
    forall i | 0 <= i < |fs| ensures fs[i].name != "" && fs[i].name !in Names(fs[..i]) {
      assert fs[i] in fs;
    }
  }

  // First loop: reject empty and repeated names among the requested features.
  method AdmitRequested(features: seq<Feature>) returns (fault: Option<LoadError>)
    ensures fault == None <==> WellNamed(features)
    ensures fault == Some(NameRequired) <==> exists i :: FaultAt(features, i) && features[i].name == ""
    ensures forall n :: fault == Some(AlreadyRegistered(n)) <==> (exists i :: FaultAt(features, i) && features[i].name == n && n != "")
    ensures fault.Some? ==> fault.value.NameRequired? || fault.value.AlreadyRegistered?
  {
    var seen: set<string> := {};
    for i := 0 to |features|
      invariant seen == Names(features[..i]) && WellNamed(features[..i])
    {
      var f := features[i];
      if f.name == "" {
        FaultIsFirst(features, i);
        return Some(NameRequired);
      }
      if f.name in seen {
        FaultIsFirst(features, i);
        return Some(AlreadyRegistered(f.name));
      }
      assert features[..i + 1] == features[..i] + [f];
      seen := seen + {f.name};
    }
    assert features[..|features|] == features;
    NoFault(features);
    return None;
  }

  // Second loop. The range expression is evaluated once, so the appended features are not visited.
  method LoadDependencies(requested: seq<Feature>) returns (loaded: seq<Feature>)
    ensures loaded == Closure(requested)
  {
    var seen := Names(requested);
    loaded := requested;
    for i := 0 to |requested|
      invariant loaded + Fresh(DirectDependencies(requested[i..]), seen) == Closure(requested)
    {
      var f := requested[i];
      ghost var later := DirectDependencies(requested[i + 1..]);
      assert requested[i..][1..] == requested[i + 1..];
      assert f.dependsOn[0..] == f.dependsOn;
      for j := 0 to |f.dependsOn|
        invariant loaded + Fresh(f.dependsOn[j..] + later, seen) == Closure(requested)
      {
        var dep := f.dependsOn[j];
        assert (f.dependsOn[j..] + later)[1..] == f.dependsOn[j + 1..] + later;
        if dep.name !in seen {
          loaded := loaded + [dep];
          seen := seen + {dep.name};
        }
      }
      assert f.dependsOn[|f.dependsOn|..] + later == later;
    }
  }

  method CheckFeatures(features: seq<Feature>) returns (r: Result<seq<Feature>, LoadError>)
    ensures r.Ok? <==> Loadable(features)
    ensures r.Ok? ==> Topological(r.value) && multiset(r.value) == multiset(Closure(features))
    ensures r == Err(NameRequired) <==> exists i :: FaultAt(features, i) && features[i].name == ""
    ensures forall n :: r == Err(AlreadyRegistered(n)) <==> (exists i :: FaultAt(features, i) && features[i].name == n && n != "")
    ensures r.Err? && WellNamed(features) ==> r.error == CyclicDependency(|Settled(Closure(features))|, |Closure(features)|)
  {
    var fault := AdmitRequested(features);
    if fault.Some? {
      return Err(fault.value);
    }
    var loaded := LoadDependencies(features);
    r := OrderFeatures(loaded);
    LoadableIff(features);
  }

  // ---------------------------------------------------------------- Init

  datatype HookCall = BeforeInit(feature: Feature) | OnInit(feature: Feature)

  datatype InitError = NotLoadable(cause: LoadError) | NoCreateFunction(name: string) | InfrastructureFailed

  ghost predicate Initialised(trace: seq<HookCall>, name: string) {
    exists k :: 0 <= k < |trace| && trace[k].OnInit? && trace[k].feature.name == name
  }

  ghost predicate OnlyEarly(trace: seq<HookCall>) {
    forall k :: 0 <= k < |trace| ==> trace[k].BeforeInit?
  }

  // The second phase follows the first, and each feature comes after its dependencies.
  ghost predicate InOrder(trace: seq<HookCall>) {
    && (forall i, j :: 0 <= i < |trace| && 0 <= j < |trace| && trace[i].OnInit? && trace[j].BeforeInit? ==> j < i)
    && (forall i, d :: 0 <= i < |trace| && trace[i].OnInit? && d in trace[i].feature.dependsOn ==> Initialised(trace[..i], d.name))
  }

  // The trace ends with one OnInit call for each feature of the list, and has no other.
  ghost predicate EndsWithOnInitOf(trace: seq<HookCall>, fs: seq<Feature>) {
    && |fs| <= |trace|
    && OnlyEarly(trace[..|trace| - |fs|])
    && forall k :: 0 <= k < |fs| ==> trace[|trace| - |fs| + k] == OnInit(fs[k])
  }

  // The early hooks of some features, in their order.
  function EarlyHooks(order: seq<Feature>): seq<HookCall> {
    if order == [] then [] else
      var n := |order| - 1;
      EarlyHooks(order[..n]) + (if order[n].beforeInit.Some? then [BeforeInit(order[n])] else [])
  }

  // Every feature of the list that has an early hook is called once.
  ghost predicate CalledOnce(trace: seq<HookCall>, fs: seq<Feature>) {
    forall f :: f in fs && f.beforeInit.Some? ==> multiset(trace)[BeforeInit(f)] == 1
  }

  // The early hook of g is to be called before that of f.
  predicate Awaits(f: Feature, g: Feature) {
    g.beforeInit.Some? && exists d :: d in f.dependsOn && d.name == g.name
  }

  ghost predicate DependenciesFirst(trace: seq<HookCall>, fs: seq<Feature>) {
    forall k, g :: 0 <= k < |trace| && trace[k].BeforeInit? && g in fs && Awaits(trace[k].feature, g) ==> BeforeInit(g) in trace[..k]
  }

  lemma {:induction false} EarlyHooksAre(order: seq<Feature>)
    ensures OnlyEarly(EarlyHooks(order))
    ensures forall f :: BeforeInit(f) in EarlyHooks(order) <==> f in order && f.beforeInit.Some?
  {
    if order != [] {
      var n := |order| - 1;
      EarlyHooksAre(order[..n]);
      assert order == order[..n] + [order[n]];
    }
  }

  lemma CountOneMore<T>(s: seq<T>, x: T, y: T)
    ensures multiset(s + [x])[y] == multiset(s)[y] + if x == y then 1 else 0
  {
  }

  // A hook is called as often as its feature is listed.
  lemma {:induction false} EarlyHooksCount(order: seq<Feature>, f: Feature)
    ensures multiset(EarlyHooks(order))[BeforeInit(f)] == if f.beforeInit.Some? then multiset(order)[f] else 0
  {
    if order != [] {
      var n := |order| - 1;
      var front, g, before := order[..n], order[n], EarlyHooks(order[..n]);
      assert order == front + [g];
      assert EarlyHooks(order) == if g.beforeInit.Some? then before + [BeforeInit(g)] else before;
      EarlyHooksCount(front, f);
      hide EarlyHooks;
      CountOneMore(front, g, f);
      CountOneMore(before, BeforeInit(g), BeforeInit(f));
    }
  }

  lemma EarlyHooksOnce(order: seq<Feature>)
    requires DistinctNames(order)
    ensures CalledOnce(EarlyHooks(order), order)
  {
    hide EarlyHooks, DistinctNames;
    forall f | f in order && f.beforeInit.Some? ensures multiset(EarlyHooks(order))[BeforeInit(f)] == 1 {
      EarlyHooksCount(order, f);
      DistinctMultiset(order, f);
    }
  }

  // Hooks are called in the order of the features.
  ghost predicate CalledInOrder(trace: seq<HookCall>, order: seq<Feature>) {
    forall i, j, a, b :: (0 <= i < j < |trace| && 0 <= a < |order| && 0 <= b < |order|
      && trace[i] == BeforeInit(order[a]) && trace[j] == BeforeInit(order[b])) ==> a < b
  }

  lemma {:induction false} EarlyHooksFollow(order: seq<Feature>)
    requires DistinctNames(order)
    ensures CalledInOrder(EarlyHooks(order), order)
  {
    if order != [] {
      var n := |order| - 1;
      var before, trace := EarlyHooks(order[..n]), EarlyHooks(order);
      EarlyHooksFollow(order[..n]);
      EarlyHooksAre(order[..n]);
      assert trace == if order[n].beforeInit.Some? then before + [BeforeInit(order[n])] else before;
      hide EarlyHooks;
      forall i, j, a, b | 0 <= i < j < |trace| && 0 <= a < |order| && 0 <= b < |order|
        && trace[i] == BeforeInit(order[a]) && trace[j] == BeforeInit(order[b]) ensures a < b {
        assert before[i] in before && order[a] in order[..n];
        assert a != n;
        if j < |before| {
          assert before[j] in before && order[b] in order[..n];
          assert b != n;
          assert order[..n][a] == order[a] && order[..n][b] == order[b];
        }
      }
    }
  }

  lemma TopologicalPrefix(order: seq<Feature>, n: nat)
    requires Topological(order) && n <= |order|
    ensures Topological(order[..n])
  {
    forall i, d | 0 <= i < n && d in order[..n][i].dependsOn ensures d.name in Names(order[..n][..i]) {
      assert order[..n][..i] == order[..i];
    }
  }

  // The one feature with a name that some dependency of f has stands before f.
  lemma DependencyBefore(order: seq<Feature>, i: nat, g: Feature)
    requires Topological(order) && DistinctNames(order) && i < |order|
    requires g in order && Awaits(order[i], g)
    ensures g in order[..i]
  {
    var d :| d in order[i].dependsOn && d.name == g.name;
    assert d.name in Names(order[..i]);
    var j :| 0 <= j < i && order[j].name == d.name;
    var k :| 0 <= k < |order| && order[k] == g;
    assert j == k;
    assert order[..i][j] == g;
  }

  // The last feature is awaited by none before it.
  lemma AwaitedByNone(order: seq<Feature>, n: nat, trace: seq<HookCall>)
    requires Topological(order) && DistinctNames(order) && n <= |order|
    requires forall e :: e in trace ==> e.feature in order[..n]
    requires DependenciesFirst(trace, order[..n])
    ensures DependenciesFirst(trace, order)
  {
    hide Topological, DistinctNames;
    forall k, g | 0 <= k < |trace| && trace[k].BeforeInit? && g in order && Awaits(trace[k].feature, g)
      ensures BeforeInit(g) in trace[..k]
    {
      assert trace[k] in trace;
      var i :| 0 <= i < n && order[..n][i] == trace[k].feature;
      DependencyBefore(order, i, g);
      assert order[..i] <= order[..n];
    }
  }

  lemma AwaitsOnlyEarlier(order: seq<Feature>, n: nat, before: seq<HookCall>)
    requires Topological(order) && DistinctNames(order) && n < |order|
    requires forall f :: f in order[..n] && f.beforeInit.Some? ==> BeforeInit(f) in before
    requires DependenciesFirst(before, order)
    ensures DependenciesFirst(before + [BeforeInit(order[n])], order)
  {
    var trace := before + [BeforeInit(order[n])];
    hide Topological, DistinctNames;
    forall k, g | 0 <= k < |trace| && trace[k].BeforeInit? && g in order && Awaits(trace[k].feature, g)
      ensures BeforeInit(g) in trace[..k]
    {
      if k < |before| {
        assert trace[..k] == before[..k];
      } else {
        DependencyBefore(order, n, g);
        assert trace[..k] == before;
      }
    }
  }

  lemma {:induction false} EarlyHooksInOrder(order: seq<Feature>)
    requires Topological(order) && DistinctNames(order)
    ensures DependenciesFirst(EarlyHooks(order), order)
  {
    if order != [] {
      var n := |order| - 1;
      var before := EarlyHooks(order[..n]);
      TopologicalPrefix(order, n);
      EarlyHooksInOrder(order[..n]);
      EarlyHooksAre(order[..n]);
      assert EarlyHooks(order) == if order[n].beforeInit.Some? then before + [BeforeInit(order[n])] else before;
      hide Topological, DistinctNames, EarlyHooks, DependenciesFirst;
      forall e | e in before ensures e.feature in order[..n] {
        assert e.BeforeInit? && BeforeInit(e.feature) in before;
      }
      AwaitedByNone(order, n, before);
      AwaitsOnlyEarlier(order, n, before);
    }
  }

  ghost predicate StopsAt(order: seq<Feature>, i: nat, name: string, trace: seq<HookCall>) {
    && i < |order| && order[i].onInit.None? && order[i].name == name
    && (forall f :: f in order[..i] ==> f.onInit.Some?) && trace == EarlyHooks(order[..i])
  }

  // A feature without a create function stops the loop; the hooks before it have been called.
  method Preload(order: seq<Feature>) returns (missing: Option<string>, trace: seq<HookCall>)
    ensures missing == None <==> forall f :: f in order ==> f.onInit.Some?
    ensures missing == None ==> trace == EarlyHooks(order)
    ensures missing.Some? ==> exists i :: StopsAt(order, i, missing.value, trace)
  {
    trace := [];
    for i := 0 to |order|
      invariant trace == EarlyHooks(order[..i])
      invariant forall f :: f in order[..i] ==> f.onInit.Some?
    {
      if order[i].onInit.None? {
        assert StopsAt(order, i, order[i].name, trace);
        return Some(order[i].name), trace;
      }
      assert order[..i + 1][..i] == order[..i];
      if order[i].beforeInit.Some? {
        trace := trace + [BeforeInit(order[i])];
      }
    }
    assert order[..|order|] == order;
    missing := None;
  }

  method RunOnInit(order: seq<Feature>, early: seq<HookCall>) returns (trace: seq<HookCall>)
    requires OnlyEarly(early)
    ensures early <= trace && |trace| == |early| + |order| && EndsWithOnInitOf(trace, order)
  {
    trace := early;
    for i := 0 to |order|
      invariant |trace| == |early| + i && trace[..|early|] == early
      invariant forall k :: 0 <= k < i ==> trace[|early| + k] == OnInit(order[k])
    {
      trace := trace + [OnInit(order[i])];
    }
  }

  lemma OrderGivesOrder(order: seq<Feature>, trace: seq<HookCall>)
    requires Topological(order) && EndsWithOnInitOf(trace, order)
    ensures InOrder(trace)
  {
    var n := |trace| - |order|;
    forall k | 0 <= k < |trace| ensures trace[k].BeforeInit? <==> k < n {
      if k < n {
        assert trace[..n][k].BeforeInit?;
      } else {
        assert trace[n + (k - n)] == OnInit(order[k - n]);
      }
    }
    forall i, d | 0 <= i < |trace| && trace[i].OnInit? && d in trace[i].feature.dependsOn ensures Initialised(trace[..i], d.name) {
      assert trace[n + (i - n)] == OnInit(order[i - n]);
      assert d.name in Names(order[..i - n]);
      var k :| 0 <= k < i - n && order[k].name == d.name;
      assert trace[..i][n + k] == OnInit(order[k]);
    }
  }

  lemma LaterCallsDoNotMatter(early: seq<HookCall>, late: seq<HookCall>, fs: seq<Feature>)
    requires forall e :: e in late ==> e.OnInit?
    requires CalledOnce(early, fs) && DependenciesFirst(early, fs)
    ensures CalledOnce(early + late, fs) && DependenciesFirst(early + late, fs)
  {
    var trace := early + late;
    forall f | f in fs && f.beforeInit.Some? ensures multiset(trace)[BeforeInit(f)] == 1 {
      assert BeforeInit(f) !in late;
    }
    forall k | |early| <= k < |trace| ensures trace[k].OnInit? {
      assert trace[k] == late[k - |early|] && late[k - |early|] in late;
    }
    hide Awaits;
    forall k, g | 0 <= k < |trace| && trace[k].BeforeInit? && g in fs && Awaits(trace[k].feature, g)
      ensures BeforeInit(g) in trace[..k]
    {
      assert trace[k] == early[k] && trace[..k] == early[..k];
    }
  }

  lemma LaterCallsFollow(early: seq<HookCall>, late: seq<HookCall>, fs: seq<Feature>)
    requires (forall k :: 0 <= k < |late| ==> late[k].OnInit?) && CalledInOrder(early, fs)
    ensures CalledInOrder(early + late, fs)
  {
    var trace := early + late;
    assert forall k :: |early| <= k < |trace| ==> trace[k] == late[k - |early|];
  }

  // All of the trace: the early hooks in their order, then the others.
  lemma WholeTrace(order: seq<Feature>, trace: seq<HookCall>)
    requires Topological(order) && DistinctNames(order)
    requires EarlyHooks(order) <= trace && EndsWithOnInitOf(trace, order) && |trace| == |EarlyHooks(order)| + |order|
    ensures CalledOnce(trace, order) && DependenciesFirst(trace, order) && CalledInOrder(trace, order)
  {
    var early, late := EarlyHooks(order), trace[|EarlyHooks(order)|..];
    EarlyHooksOnce(order);
    EarlyHooksInOrder(order);
    EarlyHooksFollow(order);
    hide EarlyHooks, Topological, DistinctNames, CalledOnce, DependenciesFirst, CalledInOrder;
    forall k | 0 <= k < |late| ensures late[k].OnInit? {
      assert trace[|trace| - |order| + k] == OnInit(order[k]);
    }
    assert trace == early + late;
    LaterCallsDoNotMatter(early, late, order);
    LaterCallsFollow(early, late, order);
  }

  lemma PermutationIsDistinct(a: seq<Feature>, b: seq<Feature>)
    requires multiset(a) == multiset(b) && DistinctNames(b)
    ensures DistinctNames(a)
  {
    SameElements(a, b);
    NamesCardinality(a);
    NamesCardinality(b);
    assert |a| == |multiset(a)| && |b| == |multiset(b)|;
    assert Names(a) == Names(b);
  }

  // Why loading fails.
  ghost predicate IsCause(fs: seq<Feature>, cause: LoadError) {
    && (cause == NameRequired <==> exists i :: FaultAt(fs, i) && fs[i].name == "")
    && (forall n :: cause == AlreadyRegistered(n) <==> (exists i :: FaultAt(fs, i) && fs[i].name == n && n != ""))
    && (WellNamed(fs) ==> cause == CyclicDependency(|Settled(Closure(fs))|, |Closure(fs)|))
  }

  ghost predicate IsOrder(fs: seq<Feature>, order: seq<Feature>) {
    Topological(order) && multiset(order) == multiset(Closure(fs))
  }

  // What has been called when a feature turns out to have no create function, or the
  // infrastructure fails.
  ghost predicate PreloadStopped(fs: seq<Feature>, name: string, trace: seq<HookCall>) {
    exists order, i :: IsOrder(fs, order) && StopsAt(order, i, name, trace)
  }

  ghost predicate Preloaded(fs: seq<Feature>, trace: seq<HookCall>) {
    exists order :: IsOrder(fs, order) && trace == EarlyHooks(order)
  }

  // Everything between the two loops of Init is summarised by whether it succeeds.
  method Init(features: seq<Feature>, infrastructure: bool) returns (r: Result<seq<Feature>, InitError>, trace: seq<HookCall>)
    ensures r.Ok? <==> Loadable(features) && (forall f :: f in Closure(features) ==> f.onInit.Some?) && infrastructure
    ensures r.Ok? ==> multiset(r.value) == multiset(Closure(features)) && EndsWithOnInitOf(trace, r.value) && InOrder(trace)
    ensures r.Ok? ==> CalledOnce(trace, r.value) && DependenciesFirst(trace, r.value) && CalledInOrder(trace, r.value)
    ensures r.Ok? ==> EarlyHooks(r.value) <= trace && |trace| == |EarlyHooks(r.value)| + |r.value|
    ensures r.Err? ==> OnlyEarly(trace)
    ensures r.Err? ==> (r.error.NotLoadable? <==> !Loadable(features))
    ensures r.Err? && r.error.NotLoadable? ==> IsCause(features, r.error.cause) && trace == []
    ensures r.Err? && Loadable(features) ==> (r.error.NoCreateFunction? <==> exists f :: f in Closure(features) && f.onInit.None?)
    ensures r.Err? && r.error.NoCreateFunction? ==> PreloadStopped(features, r.error.name, trace)
    ensures r.Err? && r.error.InfrastructureFailed? ==> Preloaded(features, trace)
  {
    LoadableIff(features);
    hide Loadable, Closure, Topological, InOrder, EndsWithOnInitOf, EarlyHooks, CalledOnce, DependenciesFirst, NoMissing, Acyclic, DistinctNames;
    var checked := CheckFeatures(features);
    if checked.Err? {
      assert IsCause(features, checked.error);
      return Err(NotLoadable(checked.error)), [];
    }
    var order := checked.value;
    assert IsOrder(features, order);
    SameElements(order, Closure(features));
    PermutationIsDistinct(order, Closure(features));
    var missing, early := Preload(order);
    if missing.Some? {
      ghost var i: nat :| StopsAt(order, i, missing.value, early);
      EarlyHooksAre(order[..i]);
      return Err(NoCreateFunction(missing.value)), early;
    }
    EarlyHooksAre(order);
    if !infrastructure {
      return Err(InfrastructureFailed), early;
    }
    trace := RunOnInit(order, early);
    OrderGivesOrder(order, trace);
    WholeTrace(order, trace);
    r := Ok(order);
  }

  lemma SameElements(a: seq<Feature>, b: seq<Feature>)
    requires multiset(a) == multiset(b)
    ensures forall f :: f in a <==> f in b
  {
    assert forall f :: f in a <==> f in multiset(a);
    assert forall f :: f in b <==> f in multiset(b);
  }
}
