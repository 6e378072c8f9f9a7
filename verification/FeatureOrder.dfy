// orderFeatures: the work-queue sort over in-degree counts.
module FeatureOrder {
  import opened Wrappers
  import opened Features

  datatype LoadError =
    | NameRequired
    | AlreadyRegistered(name: string)
    | UnknownFeature(name: string)
    | CyclicDependency(ordered: nat, total: nat)

  // One listed dependency: `to` lists `from`. The edge list keeps repeated entries.
  datatype Edge = Edge(from: string, to: string)

  function Targets(edges: seq<Edge>, name: string): seq<string> {
    if edges == [] then [] else
      var e := edges[|edges| - 1];
      Targets(edges[..|edges| - 1], name) + (if e.from == name then [e.to] else [])
  }

  // The in-degree still outstanding for a name when the names in done have been ordered.
  function Outstanding(edges: seq<Edge>, name: string, done: set<string>): nat {
    if edges == [] then 0 else
      var e := edges[|edges| - 1];
      Outstanding(edges[..|edges| - 1], name, done) + (if e.to == name && e.from !in done then 1 else 0)
  }

  lemma {:induction false} OutstandingAfter(edges: seq<Edge>, name: string, done: set<string>, next: string)
    requires next !in done
    ensures Outstanding(edges, name, done) == Outstanding(edges, name, done + {next}) + multiset(Targets(edges, next))[name]
  {
    if edges != [] {
      OutstandingAfter(edges[..|edges| - 1], name, done, next);
    }
  }

  lemma {:induction false} OutstandingZero(edges: seq<Edge>, name: string, done: set<string>)
    ensures Outstanding(edges, name, done) == 0 <==> forall e :: e in edges && e.to == name ==> e.from in done
  {
    if edges != [] {
      var rest, last := edges[..|edges| - 1], edges[|edges| - 1];
      assert edges == rest + [last];
      OutstandingZero(rest, name, done);
    }
  }

  lemma {:induction false} TargetsAre(edges: seq<Edge>, name: string)
    ensures forall t :: t in Targets(edges, name) <==> Edge(name, t) in edges
  {
    if edges != [] {
      var rest, last := edges[..|edges| - 1], edges[|edges| - 1];
      assert edges == rest + [last];
      TargetsAre(rest, name);
    }
  }

  // The edges of the first i features and of the first j dependencies of the next one.
  function EdgesUpTo(fs: seq<Feature>, i: nat, j: nat): seq<Edge>
    requires if i < |fs| then j <= |fs[i].dependsOn| else i == |fs| && j == 0
  {
    if j > 0 then EdgesUpTo(fs, i, j - 1) + [Edge(fs[i].dependsOn[j - 1].name, fs[i].name)]
    else if i > 0 then EdgesUpTo(fs, i - 1, |fs[i - 1].dependsOn|)
    else []
  }

  function EdgeList(fs: seq<Feature>): seq<Edge> {
    EdgesUpTo(fs, |fs|, 0)
  }

  lemma EdgesStep(fs: seq<Feature>, i: nat, j: nat)
    requires i < |fs| && j < |fs[i].dependsOn|
    ensures EdgesUpTo(fs, i, j + 1) == EdgesUpTo(fs, i, j) + [Edge(fs[i].dependsOn[j].name, fs[i].name)]
  {
  }

  lemma EdgesNext(fs: seq<Feature>, i: nat)
    requires i < |fs|
    ensures EdgesUpTo(fs, i + 1, 0) == EdgesUpTo(fs, i, |fs[i].dependsOn|)
  {
  }

  ghost predicate ListedAt(fs: seq<Feature>, k: int, l: int, e: Edge) {
    0 <= k < |fs| && 0 <= l < |fs[k].dependsOn| && e == Edge(fs[k].dependsOn[l].name, fs[k].name)
  }

  lemma {:induction false} EdgesUpToHas(fs: seq<Feature>, i: nat, j: nat, e: Edge)
    requires if i < |fs| then j <= |fs[i].dependsOn| else i == |fs| && j == 0
    ensures e in EdgesUpTo(fs, i, j) <==> exists k, l :: ListedAt(fs, k, l, e) && (k < i || (k == i && l < j))
    decreases i, j
  {
    if j > 0 {
      EdgesUpToHas(fs, i, j - 1, e);
      assert ListedAt(fs, i, j - 1, Edge(fs[i].dependsOn[j - 1].name, fs[i].name));
    } else if i > 0 {
      EdgesUpToHas(fs, i - 1, |fs[i - 1].dependsOn|, e);
      assert forall k, l :: ListedAt(fs, k, l, e) && k < i ==> k < i - 1 || (k == i - 1 && l < |fs[i - 1].dependsOn|);
    }
  }

  // The edge list is exactly the dependency relation of the features.
  lemma EdgeListSpells(fs: seq<Feature>, a: string, b: string)
    ensures Edge(b, a) in EdgeList(fs) <==> Depends(fs, a, b)
  {
    EdgesUpToHas(fs, |fs|, 0, Edge(b, a));
    if f, d :| f in fs && d in f.dependsOn && f.name == a && d.name == b {
      var k :| 0 <= k < |fs| && fs[k] == f;
      var l :| 0 <= l < |f.dependsOn| && f.dependsOn[l] == d;
      assert ListedAt(fs, k, l, Edge(b, a));
    }
  }

  // graph[from] = append(graph[from], to), over the whole edge list; a missing key reads as nil.
  function Adjacency(edges: seq<Edge>): map<string, seq<string>> {
    if edges == [] then map[] else
      var g, e := Adjacency(edges[..|edges| - 1]), edges[|edges| - 1];
      g[e.from := (if e.from in g then g[e.from] else []) + [e.to]]
  }

  // indegree[to]++ over the whole edge list; a missing key reads as zero.
  function Counts(start: map<string, int>, edges: seq<Edge>): map<string, int> {
    if edges == [] then start else
      var m, e := Counts(start, edges[..|edges| - 1]), edges[|edges| - 1];
      m[e.to := (if e.to in m then m[e.to] else 0) + 1]
  }

  lemma OneMoreEdge(start: map<string, int>, edges: seq<Edge>, e: Edge)
    ensures var g := Adjacency(edges);
            Adjacency(edges + [e]) == g[e.from := (if e.from in g then g[e.from] else []) + [e.to]]
    ensures var m := Counts(start, edges);
            Counts(start, edges + [e]) == m[e.to := (if e.to in m then m[e.to] else 0) + 1]
  {
    assert (edges + [e])[..|edges|] == edges;
  }

  lemma {:induction false} AdjacencyIsTargets(edges: seq<Edge>, n: string)
    ensures (if n in Adjacency(edges) then Adjacency(edges)[n] else []) == Targets(edges, n)
  {
    if edges != [] {
      AdjacencyIsTargets(edges[..|edges| - 1], n);
    }
  }

  lemma {:induction false} CountsAreOutstanding(start: map<string, int>, edges: seq<Edge>)
    requires forall n :: n in start ==> start[n] == 0
    requires forall e :: e in edges ==> e.to in start
    ensures Counts(start, edges).Keys == start.Keys
    ensures forall n :: n in start ==> Counts(start, edges)[n] == Outstanding(edges, n, {})
  {
    if edges != [] {
      CountsAreOutstanding(start, edges[..|edges| - 1]);
    }
  }

  // First loop: index the features by name and start every count at zero.
  method IndexByName(features: seq<Feature>) returns (byName: map<string, Feature>, indegree: map<string, int>)
    ensures byName.Keys == indegree.Keys == Names(features)
    ensures forall n :: n in byName ==> byName[n] in features && byName[n].name == n
    ensures forall n :: n in indegree ==> indegree[n] == 0
  {
    byName, indegree := map[], map[];
    for i := 0 to |features|
      invariant byName.Keys == indegree.Keys == Names(features[..i])
      invariant forall n :: n in byName ==> byName[n] in features && byName[n].name == n
      invariant forall n :: n in indegree ==> indegree[n] == 0
    {
      var f := features[i];
      byName := byName[f.name := f];
      if f.name !in indegree {
        indegree := indegree[f.name := 0];
      }
      assert features[..i + 1] == features[..i] + [f];
    }
    assert features[..|features|] == features;
  }

  lemma EdgesFrom(fs: seq<Feature>)
    ensures forall start :: Counts(start, EdgesUpTo(fs, 0, 0)) == start
    ensures Adjacency(EdgesUpTo(fs, 0, 0)) == map[]
  {
  }

  // Second loop: one adjacency entry and one count for every listed dependency.
  method BuildGraph(features: seq<Feature>, start: map<string, int>)
    returns (graph: map<string, seq<string>>, indegree: map<string, int>)
    ensures graph == Adjacency(EdgeList(features)) && indegree == Counts(start, EdgeList(features))
  {
    graph, indegree := map[], start;
    EdgesFrom(features);
    hide Adjacency, Counts, EdgesUpTo;
    for i := 0 to |features|
      invariant graph == Adjacency(EdgesUpTo(features, i, 0)) && indegree == Counts(start, EdgesUpTo(features, i, 0))
    {
      var f := features[i];
      for j := 0 to |f.dependsOn|
        invariant graph == Adjacency(EdgesUpTo(features, i, j)) && indegree == Counts(start, EdgesUpTo(features, i, j))
      {
        var dep := f.dependsOn[j];
        graph := graph[dep.name := (if dep.name in graph then graph[dep.name] else []) + [f.name]];
        indegree := indegree[f.name := (if f.name in indegree then indegree[f.name] else 0) + 1];
        EdgesStep(features, i, j);
        OneMoreEdge(start, EdgesUpTo(features, i, j), Edge(dep.name, f.name));
      }
      EdgesNext(features, i);
    }
  }

  lemma GraphRepresents(fs: seq<Feature>, start: map<string, int>)
    requires start.Keys == Names(fs) && forall n :: n in start ==> start[n] == 0
    ensures Counts(start, EdgeList(fs)).Keys == Names(fs)
    ensures forall n :: n in Names(fs) ==> Counts(start, EdgeList(fs))[n] == Outstanding(EdgeList(fs), n, Elements([]))
  {
    forall e | e in EdgeList(fs) ensures e.to in start {
      EdgeListSpells(fs, e.to, e.from);
    }
    CountsAreOutstanding(start, EdgeList(fs));
    assert Elements([]) == {};
  }

  // The counts are those of the dependencies not ordered yet, but for the dependents in `rest`.
  ghost predicate CountsAgree(fs: seq<Feature>, done: seq<string>, indegree: map<string, int>, rest: seq<string>) {
    && indegree.Keys == Names(fs)
    && (forall n :: n in rest ==> n in Names(fs))
    && (forall n :: n in Names(fs) ==> indegree[n] == Outstanding(EdgeList(fs), n, Elements(done)) + multiset(rest)[n])
  }

  // The names that have been ordered or wait in the queue are those with count zero.
  ghost predicate QueueAgrees(fs: seq<Feature>, done: seq<string>, queue: seq<string>, indegree: map<string, int>) {
    && indegree.Keys == Names(fs)
    && NoDuplicates(done) && NoDuplicates(queue)
    && (forall n :: n in queue ==> n in Names(fs) && n !in done)
    && (forall n :: n in Names(fs) ==> (n in done || n in queue <==> indegree[n] == 0))
  }

  // The state of the work queue: `done` has been ordered, and the counts of `rest`, the
  // dependents of the last name of `done` not yet visited, have still to be decremented.
  ghost predicate Sorting(fs: seq<Feature>, done: seq<string>, queue: seq<string>, indegree: map<string, int>, rest: seq<string>) {
    IsSchedule(fs, done) && CountsAgree(fs, done, indegree, rest) && QueueAgrees(fs, done, queue, indegree)
  }

  lemma PopKeepsSorting(fs: seq<Feature>, done: seq<string>, queue: seq<string>, indegree: map<string, int>)
    requires Sorting(fs, done, queue, indegree, []) && queue != []
    ensures Sorting(fs, done + [queue[0]], queue[1..], indegree, Targets(EdgeList(fs), queue[0]))
  {
    var name := queue[0];
    var after, rest := done + [name], Targets(EdgeList(fs), name);
    assert queue == [name] + queue[1..];
    assert name in Names(fs) && name !in done;
    assert indegree[name] == 0;
    ScheduleGrows(fs, done, name);
    assert Elements(after) == Elements(done) + {name};
    forall n | n in Names(fs)
      ensures indegree[n] == Outstanding(EdgeList(fs), n, Elements(after)) + multiset(rest)[n]
    {
      OutstandingAfter(EdgeList(fs), n, Elements(done), name);
    }
    forall t | t in rest ensures t in Names(fs) {
      TargetsAre(EdgeList(fs), name);
      EdgeListSpells(fs, t, name);
    }
    assert forall n :: (n in done || n in queue) <==> (n in after || n in queue[1..]);
    assert forall n :: n in queue[1..] ==> n in queue && n != name;
  }

  // A name whose outstanding count is zero has all its dependencies ordered already.
  lemma ScheduleGrows(fs: seq<Feature>, done: seq<string>, name: string)
    requires IsSchedule(fs, done) && name in Names(fs)
    requires Outstanding(EdgeList(fs), name, Elements(done)) == 0
    ensures IsSchedule(fs, done + [name])
  {
    OutstandingZero(EdgeList(fs), name, Elements(done));
    var after := done + [name];
    forall i, b | 0 <= i < |after| && Depends(fs, after[i], b) ensures b in after[..i] {
      if i < |done| {
        assert after[..i] == done[..i];
      } else {
        EdgeListSpells(fs, name, b);
        assert after[..i] == done;
      }
    }
  }

  lemma NextIsPending(fs: seq<Feature>, done: seq<string>, queue: seq<string>, indegree: map<string, int>, rest: seq<string>)
    requires Sorting(fs, done, queue, indegree, rest) && rest != []
    ensures rest[0] in indegree && indegree[rest[0]] > 0 && rest[0] !in done && rest[0] !in queue
  {
    var t := rest[0];
    assert t in Names(fs) && multiset(rest)[t] > 0;
    assert indegree[t] == Outstanding(EdgeList(fs), t, Elements(done)) + multiset(rest)[t];
  }

  lemma VisitCounts(fs: seq<Feature>, done: seq<string>, indegree: map<string, int>, rest: seq<string>)
    requires CountsAgree(fs, done, indegree, rest) && rest != []
    ensures rest[0] in indegree && CountsAgree(fs, done, indegree[rest[0] := indegree[rest[0]] - 1], rest[1..])
  {
    var t, edges, d := rest[0], EdgeList(fs), Elements(done);
    hide EdgeList, Elements, Outstanding, Names;
    forall n | n in Names(fs)
      ensures indegree[t := indegree[t] - 1][n] == Outstanding(edges, n, d) + multiset(rest[1..])[n]
    {
      assert rest == [t] + rest[1..];
      assert multiset(rest)[n] == multiset(rest[1..])[n] + (if n == t then 1 else 0);
    }
  }

  lemma VisitQueue(fs: seq<Feature>, done: seq<string>, queue: seq<string>, indegree: map<string, int>, t: string)
    requires QueueAgrees(fs, done, queue, indegree) && t in indegree && indegree[t] > 0
    ensures QueueAgrees(fs, done, if indegree[t] == 1 then queue + [t] else queue, indegree[t := indegree[t] - 1])
  {
    hide Names;
    var queue' := if indegree[t] == 1 then queue + [t] else queue;
    assert forall n :: n in queue' <==> n in queue || (indegree[t] == 1 && n == t);
  }

  lemma VisitKeepsSorting(fs: seq<Feature>, done: seq<string>, queue: seq<string>, indegree: map<string, int>, rest: seq<string>)
    requires Sorting(fs, done, queue, indegree, rest) && rest != []
    ensures rest[0] in indegree
    ensures var t := rest[0];
            Sorting(fs, done, if indegree[t] == 1 then queue + [t] else queue, indegree[t := indegree[t] - 1], rest[1..])
  {
    NextIsPending(fs, done, queue, indegree, rest);
    VisitCounts(fs, done, indegree, rest);
    VisitQueue(fs, done, queue, indegree, rest[0]);
  }

  lemma DrainedIsStuck(fs: seq<Feature>, indegree: map<string, int>, done: seq<string>)
    requires indegree.Keys == Names(fs)
    requires forall n :: n in Names(fs) ==> indegree[n] == Outstanding(EdgeList(fs), n, Elements(done))
    requires forall n :: n in Names(fs) ==> (n in done <==> indegree[n] == 0)
    ensures IsStuck(fs, Elements(done))
  {
    forall a | a in Names(fs) && a !in Elements(done) ensures exists b :: Depends(fs, a, b) && b !in Elements(done) {
      OutstandingZero(EdgeList(fs), a, Elements(done));
      var e :| e in EdgeList(fs) && e.to == a && e.from !in Elements(done);
      EdgeListSpells(fs, a, e.from);
    }
  }

  ghost predicate OrderedAs(fs: seq<Feature>, done: seq<string>, ordered: seq<Feature>) {
    |done| == |ordered| && forall i :: 0 <= i < |done| ==> done[i] == ordered[i].name && ordered[i] in fs
  }

  lemma OrderedAsGrows(fs: seq<Feature>, done: seq<string>, ordered: seq<Feature>, f: Feature)
    requires OrderedAs(fs, done, ordered) && f in fs
    ensures OrderedAs(fs, done + [f.name], ordered + [f])
  {
  }

  lemma ScheduleIsTopological(fs: seq<Feature>, done: seq<string>, ordered: seq<Feature>)
    requires IsSchedule(fs, done) && OrderedAs(fs, done, ordered)
    ensures Topological(ordered)
  {
    forall i, d | 0 <= i < |ordered| && d in ordered[i].dependsOn ensures d.name in Names(ordered[..i]) {
      assert Depends(fs, done[i], d.name);
      var k :| 0 <= k < i && done[..i][k] == d.name;
      assert ordered[..i][k].name == d.name;
    }
  }

  lemma OrderedIsPermutation(fs: seq<Feature>, done: seq<string>, ordered: seq<Feature>)
    requires DistinctNames(fs) && NoDuplicates(done) && OrderedAs(fs, done, ordered)
    requires Elements(done) == Names(fs)
    ensures multiset(ordered) == multiset(fs)
  {
    forall f ensures f in ordered <==> f in fs {
      if f in fs {
        assert f.name in Names(fs);
        var k :| 0 <= k < |done| && done[k] == f.name;
        assert ordered[k] == f;
      }
    }
    SameElementsIsPermutation(ordered, fs);
  }

  lemma ScheduleFits(fs: seq<Feature>, done: seq<string>)
    requires IsSchedule(fs, done) && NoDuplicates(done)
    ensures |done| <= |Names(fs)|
  {
    NoRepeatFits(done, Names(fs));
  }

  lemma Drained(fs: seq<Feature>, done: seq<string>, indegree: map<string, int>, ordered: seq<Feature>)
    requires Sorting(fs, done, [], indegree, []) && OrderedAs(fs, done, ordered)
    ensures |ordered| == |Settled(fs)|
    ensures |ordered| == |fs| <==> Orderable(fs)
    ensures Orderable(fs) ==> Topological(ordered) && multiset(ordered) == multiset(fs)
  {
    DrainedIsStuck(fs, indegree, done);
    ScheduleIsSettled(fs, done);
    CountDecides(fs);
    ScheduleIsTopological(fs, done, ordered);
    if Orderable(fs) {
      AllSettledIff(fs);
      OrderedIsPermutation(fs, done, ordered);
    }
  }

  // The map is ranged over in no particular order: any order of the ready names may come out.
  method SeedQueue(indegree: map<string, int>) returns (queue: seq<string>)
    ensures NoDuplicates(queue)
    ensures forall n :: n in queue <==> n in indegree && indegree[n] == 0
  {
    queue := [];
    var unseen := indegree.Keys;
    while unseen != {}
      invariant unseen <= indegree.Keys && NoDuplicates(queue)
      invariant forall n :: n in queue <==> n in indegree.Keys - unseen && indegree[n] == 0
    {
      var name :| name in unseen;
      unseen := unseen - {name};
      if indegree[name] == 0 {
        queue := queue + [name];
      }
    }
  }

  // Inner loop: decrement every dependent of the name just ordered, enqueueing those that reach zero.
  method VisitDependents(ghost fs: seq<Feature>, ghost done: seq<string>, start: seq<string>, counts: map<string, int>,
                         neighbours: seq<string>)
    returns (queue: seq<string>, indegree: map<string, int>)
    requires Sorting(fs, done, start, counts, neighbours)
    ensures Sorting(fs, done, queue, indegree, [])
  {
    queue, indegree := start, counts;
    for k := 0 to |neighbours|
      invariant Sorting(fs, done, queue, indegree, neighbours[k..])
    {
      var neigh := neighbours[k];
      VisitKeepsSorting(fs, done, queue, indegree, neighbours[k..]);
      assert neighbours[k..][1..] == neighbours[k + 1..];
      indegree := indegree[neigh := indegree[neigh] - 1];
      if indegree[neigh] == 0 {
        queue := queue + [neigh];
      }
    }
    assert neighbours[|neighbours|..] == [];
  }

  method OrderFeatures(features: seq<Feature>) returns (r: Result<seq<Feature>, LoadError>)
    ensures r.Ok? <==> Orderable(features)
    ensures r.Ok? ==> Topological(r.value) && multiset(r.value) == multiset(features)
    ensures r.Err? ==> r.error == CyclicDependency(|Settled(features)|, |features|)
  {
    var byName, start := IndexByName(features);
    var graph, indegree := BuildGraph(features, start);
    GraphRepresents(features, start);

    var queue := SeedQueue(indegree);
    var ordered: seq<Feature> := [];
    ghost var done: seq<string> := [];
    while |queue| > 0
      invariant Sorting(features, done, queue, indegree, [])
      invariant OrderedAs(features, done, ordered)
      decreases |Names(features)| - |done|
    {
      var name := queue[0];
      PopKeepsSorting(features, done, queue, indegree);
      queue := queue[1..];
      if name !in byName {
        return Err(UnknownFeature(name));
      }
      OrderedAsGrows(features, done, ordered, byName[name]);
      ordered := ordered + [byName[name]];
      done := done + [name];

      AdjacencyIsTargets(EdgeList(features), name);
      queue, indegree := VisitDependents(features, done, queue, indegree, if name in graph then graph[name] else []);
      ScheduleFits(features, done);
    }

    Drained(features, done, indegree, ordered);
    if |ordered| != |features| {
      return Err(CyclicDependency(|ordered|, |features|));
    }
    return Ok(ordered);
  }
}
