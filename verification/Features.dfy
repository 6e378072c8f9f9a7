// The dependency graph that a list of features spells out by name, and what it means
// for that graph to be orderable. Nothing here mentions the sorting algorithm.
module Features {
  import opened Wrappers

  // A feature names its dependencies by value; only their names matter for ordering, but
  // the instances matter for loading. The two hooks may be nil in the original.
  datatype Feature = Feature(name: string, dependsOn: seq<Feature>, onInit: Option<nat>, beforeInit: Option<nat>)

  function Names(fs: seq<Feature>): set<string> {
    set f | f in fs :: f.name
  }

  predicate DistinctNames(fs: seq<Feature>) {
    forall i, j :: 0 <= i < j < |fs| ==> fs[i].name != fs[j].name
  }

  // Some feature called a lists a dependency called b.
  ghost predicate Depends(fs: seq<Feature>, a: string, b: string) {
    exists f, d :: f in fs && d in f.dependsOn && f.name == a && d.name == b
  }

  ghost predicate NoMissing(fs: seq<Feature>) {
    forall a, b :: Depends(fs, a, b) ==> b in Names(fs)
  }

  // Each name on the walk depends on the next one.
  ghost predicate IsWalk(fs: seq<Feature>, w: seq<string>) {
    && |w| > 0
    && forall i :: 0 <= i < |w| - 1 ==> Depends(fs, w[i], w[i + 1])
  }

  ghost predicate IsCycle(fs: seq<Feature>, w: seq<string>) {
    IsWalk(fs, w) && |w| >= 2 && w[0] == w[|w| - 1]
  }

  ghost predicate Acyclic(fs: seq<Feature>) {
    !exists w :: IsCycle(fs, w)
  }

  ghost predicate Orderable(fs: seq<Feature>) {
    DistinctNames(fs) && NoMissing(fs) && Acyclic(fs)
  }

  ghost predicate HasRepeat(w: seq<string>) {
    exists i, j :: 0 <= i < j < |w| && w[i] == w[j]
  }

  // The name transitively depends on a feature that is not there, or on a cycle.
  ghost predicate Blocked(fs: seq<Feature>, a: string) {
    exists w :: IsWalk(fs, w) && w[0] == a && (w[|w| - 1] !in Names(fs) || HasRepeat(w))
  }

  ghost function Settled(fs: seq<Feature>): set<string> {
    set a | a in Names(fs) && !Blocked(fs, a)
  }

  // Every dependency occurs strictly before the feature that lists it.
  ghost predicate Topological(fs: seq<Feature>) {
    forall i, d :: 0 <= i < |fs| && d in fs[i].dependsOn ==> d.name in Names(fs[..i])
  }

  // A list of distinct names in which every dependency of a name comes before it.
  ghost predicate IsSchedule(fs: seq<Feature>, order: seq<string>) {
    && (forall i :: 0 <= i < |order| ==> order[i] in Names(fs))
    && (forall i, b :: 0 <= i < |order| && Depends(fs, order[i], b) ==> b in order[..i])
  }

  // Nothing more can be scheduled: every name left out waits for another one left out.
  ghost predicate IsStuck(fs: seq<Feature>, done: set<string>) {
    forall a :: a in Names(fs) && a !in done ==> exists b :: Depends(fs, a, b) && b !in done
  }

  // ---------------------------------------------------------------- pigeonhole

  lemma {:induction false} NoRepeatFits(w: seq<string>, s: set<string>)
    requires !HasRepeat(w)
    requires forall i :: 0 <= i < |w| ==> w[i] in s
    ensures |w| <= |s|
  {
    if |w| > 0 {
      var n := |w| - 1;
      assert !HasRepeat(w[..n]);
      NoRepeatFits(w[..n], s - {w[n]});
    }
  }

  // ---------------------------------------------------------------- what a schedule says about walks

  // Along a walk that starts inside a schedule, positions strictly decrease.
  lemma {:induction false} WalkDescends(fs: seq<Feature>, order: seq<string>, w: seq<string>, p: nat) returns (pos: seq<nat>)
    requires IsSchedule(fs, order) && IsWalk(fs, w)
    requires p < |order| && order[p] == w[0]
    ensures |pos| == |w| && pos[0] == p
    ensures forall i :: 0 <= i < |w| ==> pos[i] < |order| && order[pos[i]] == w[i]
    ensures forall i, j :: 0 <= i < j < |w| ==> pos[j] < pos[i]
    decreases |w|
  {
    if |w| == 1 {
      pos := [p];
    } else {
      assert Depends(fs, w[0], w[1]);
      var q :| 0 <= q < p && order[..p][q] == w[1];
      assert IsWalk(fs, w[1..]) by {
        forall i | 0 <= i < |w[1..]| - 1 ensures Depends(fs, w[1..][i], w[1..][i + 1]) {
          assert Depends(fs, w[i + 1], w[i + 2]);
        }
      }
      var rest := WalkDescends(fs, order, w[1..], q);
      pos := [p] + rest;
      forall i | 0 <= i < |w| ensures pos[i] < |order| && order[pos[i]] == w[i] {
        if i > 0 {
          assert w[1..][i - 1] == w[i];
        }
      }
    }
  }

  ghost predicate NoDuplicates(s: seq<string>) {
    forall i, j :: 0 <= i < j < |s| ==> s[i] != s[j]
  }

  ghost function Elements(s: seq<string>): set<string> {
    set x | x in s
  }

  lemma ScheduledIsNotBlocked(fs: seq<Feature>, order: seq<string>, a: string)
    requires IsSchedule(fs, order) && NoDuplicates(order) && a in order
    ensures !Blocked(fs, a)
  {
    var p :| 0 <= p < |order| && order[p] == a;
    forall w | IsWalk(fs, w) && w[0] == a
      ensures w[|w| - 1] in Names(fs) && !HasRepeat(w)
    {
      var pos := WalkDescends(fs, order, w, p);
      assert order[pos[|w| - 1]] in Names(fs);
      forall i, j | 0 <= i < j < |w| ensures w[i] != w[j] {
        assert order[pos[j]] != order[pos[i]];
      }
    }
  }

  // ---------------------------------------------------------------- what being stuck says about walks

  lemma {:induction false} WalkOutside(fs: seq<Feature>, done: set<string>, a: string, n: nat) returns (w: seq<string>)
    requires IsStuck(fs, done) && a in Names(fs) && a !in done
    ensures IsWalk(fs, w) && w[0] == a
    ensures w[|w| - 1] !in Names(fs) || (|w| == n + 1 && forall x :: x in w ==> x in Names(fs))
    decreases n
  {
    if n == 0 {
      w := [a];
    } else {
      var b :| Depends(fs, a, b) && b !in done;
      if b !in Names(fs) {
        w := [a, b];
      } else {
        var rest := WalkOutside(fs, done, b, n - 1);
        w := [a] + rest;
        forall i | 0 <= i < |w| - 1 ensures Depends(fs, w[i], w[i + 1]) {
          if i > 0 {
            assert Depends(fs, rest[i - 1], rest[i]);
          }
        }
      }
    }
  }

  lemma LeftOutIsBlocked(fs: seq<Feature>, done: set<string>, a: string)
    requires IsStuck(fs, done) && a in Names(fs) && a !in done
    ensures Blocked(fs, a)
  {
    var w := WalkOutside(fs, done, a, |Names(fs)|);
    if w[|w| - 1] in Names(fs) && !HasRepeat(w) {
      NoRepeatFits(w, Names(fs));
      assert false;
    }
  }

  // Whatever order the ready names are taken in, a schedule that cannot be extended holds
  // exactly the names that do not depend on a missing feature or a cycle.
  lemma ScheduleIsSettled(fs: seq<Feature>, order: seq<string>)
    requires IsSchedule(fs, order) && NoDuplicates(order)
    requires IsStuck(fs, Elements(order))
    ensures Elements(order) == Settled(fs)
    ensures |order| == |Settled(fs)|
  {
    var done := Elements(order);
    forall a | a in Names(fs) ensures a in done <==> !Blocked(fs, a) {
      if a in done {
        ScheduledIsNotBlocked(fs, order, a);
      } else {
        LeftOutIsBlocked(fs, done, a);
      }
    }
    assert done == Settled(fs);
    DistinctCardinality(order);
  }

  // Confluence: two schedules that cannot be extended hold the same names, however the ready
  // names were picked.
  lemma ReadyOrderIrrelevant(fs: seq<Feature>, a: seq<string>, b: seq<string>)
    requires IsSchedule(fs, a) && NoDuplicates(a) && IsStuck(fs, Elements(a))
    requires IsSchedule(fs, b) && NoDuplicates(b) && IsStuck(fs, Elements(b))
    ensures Elements(a) == Elements(b) && |a| == |b|
  {
    ScheduleIsSettled(fs, a);
    ScheduleIsSettled(fs, b);
  }

  lemma {:induction false} DistinctCardinality(s: seq<string>)
    requires NoDuplicates(s)
    ensures |Elements(s)| == |s|
  {
    if |s| > 0 {
      var n := |s| - 1;
      DistinctCardinality(s[..n]);
      assert Elements(s) == Elements(s[..n]) + {s[n]};
      assert s[n] !in s[..n];
    }
  }

  // ---------------------------------------------------------------- settled everywhere = orderable

  lemma RepeatIsCycle(fs: seq<Feature>, w: seq<string>)
    requires IsWalk(fs, w) && HasRepeat(w)
    ensures !Acyclic(fs)
  {
    var i, j :| 0 <= i < j < |w| && w[i] == w[j];
    var c := w[i..j + 1];
    forall k | 0 <= k < |c| - 1 ensures Depends(fs, c[k], c[k + 1]) {
      assert Depends(fs, w[i + k], w[i + k + 1]);
    }
    assert IsCycle(fs, c);
  }

  lemma AllSettledIff(fs: seq<Feature>)
    ensures Settled(fs) == Names(fs) <==> NoMissing(fs) && Acyclic(fs)
  {
    if NoMissing(fs) && Acyclic(fs) {
      forall w | IsWalk(fs, w) && w[0] in Names(fs)
        ensures w[|w| - 1] in Names(fs) && !HasRepeat(w)
      {
        assert |w| >= 2 ==> Depends(fs, w[|w| - 2], w[|w| - 1]);
        if HasRepeat(w) {
          RepeatIsCycle(fs, w);
        }
      }
    }
    if Settled(fs) == Names(fs) {
      forall a, b | Depends(fs, a, b) ensures b in Names(fs) {
        var w := [a, b];
        assert IsWalk(fs, w);
        assert a in Settled(fs);
        assert b in Names(fs) || Blocked(fs, a);
      }
      forall w | IsWalk(fs, w) && |w| >= 2 ensures w[0] != w[|w| - 1] {
        assert Depends(fs, w[0], w[1]);
        assert w[0] in Settled(fs);
        assert !HasRepeat(w);
      }
    }
  }

  lemma NamesOfLast(fs: seq<Feature>)
    requires fs != []
    ensures var n := |fs| - 1; Names(fs) == Names(fs[..n]) + {fs[n].name}
  {
    assert fs == fs[..|fs| - 1] + [fs[|fs| - 1]];
  }

  lemma DistinctOfLast(fs: seq<Feature>)
    requires fs != []
    ensures var n := |fs| - 1; DistinctNames(fs) <==> DistinctNames(fs[..n]) && fs[n].name !in Names(fs[..n])
  {
    var n := |fs| - 1;
    forall i | 0 <= i < n ensures fs[i].name in Names(fs[..n]) {
      assert fs[..n][i] in fs[..n];
    }
    forall x | x in Names(fs[..n]) ensures exists i :: 0 <= i < n && fs[i].name == x {
      var f :| f in fs[..n] && f.name == x;
    }
  }

  lemma {:induction false} NamesCardinality(fs: seq<Feature>)
    ensures |Names(fs)| <= |fs|
    ensures |Names(fs)| == |fs| <==> DistinctNames(fs)
  {
    if |fs| > 0 {
      NamesCardinality(fs[..|fs| - 1]);
      NamesOfLast(fs);
      DistinctOfLast(fs);
      hide DistinctNames, Names;
    }
  }

  // The length test at the end of the sort decides orderability.
  lemma CountDecides(fs: seq<Feature>)
    ensures |Settled(fs)| == |fs| <==> Orderable(fs)
  {
    NamesCardinality(fs);
    AllSettledIff(fs);
    assert Settled(fs) <= Names(fs);
    if |Settled(fs)| == |fs| {
      SubsetOfSameSize(Settled(fs), Names(fs));
    }
  }

  lemma SubsetOfSameSize(a: set<string>, b: set<string>)
    requires a <= b && |a| >= |b|
    ensures a == b
  {
    if x :| x in b && x !in a {
      assert |b| == |b - {x}| + 1;
      SubsetCardinality(a, b - {x});
    }
  }

  lemma {:induction false} SubsetCardinality(a: set<string>, b: set<string>)
    requires a <= b
    ensures |a| <= |b|
  {
    if a != {} {
      var x :| x in a;
      SubsetCardinality(a - {x}, b - {x});
    }
  }

  // ---------------------------------------------------------------- permutations

  lemma {:induction false} DistinctMultiset(fs: seq<Feature>, f: Feature)
    requires DistinctNames(fs)
    ensures multiset(fs)[f] == if f in fs then 1 else 0
  {
    if |fs| > 0 {
      var n := |fs| - 1;
      assert fs == fs[..n] + [fs[n]];
      DistinctMultiset(fs[..n], f);
      assert fs[n] !in fs[..n];
    }
  }

  lemma SameElementsIsPermutation(a: seq<Feature>, b: seq<Feature>)
    requires DistinctNames(a) && DistinctNames(b)
    requires forall f :: f in a <==> f in b
    ensures multiset(a) == multiset(b)
  {
    forall f ensures multiset(a)[f] == multiset(b)[f] {
      DistinctMultiset(a, f);
      DistinctMultiset(b, f);
    }
  }
}
