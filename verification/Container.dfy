// The component container: a registry of providers and a cache of resolved singletons.
module Container {
  import opened Wrappers

  type Key = string // a reflected type
  type Component = nat // a non-nil instance

  datatype Tables = Tables(registry: map<Key, Component>, cache: map<Key, Component>)

  const EMPTY := Tables(map[], map[])

  // The atomic operations, with the answer that a lookup gave.
  datatype Op = Provided(t: Key, v: Component) | LookedUp(t: Key, found: Option<Component>) | Cleared

  function Answer(s: Tables, t: Key): Option<Component> {
    if t in s.cache then Some(s.cache[t])
    else if t in s.registry then Some(s.registry[t])
    else None
  }

  function Apply(s: Tables, op: Op): Tables {
    match op
    case Provided(t, v) => s.(registry := s.registry[t := v])
    case LookedUp(t, found) => if found.Some? then s.(cache := s.cache[t := found.value]) else s
    case Cleared => EMPTY
  }

  // ---------------------------------------------------------------- the operations of one caller

  class ComponentContainer {
    var registry: map<Key, Component>
    var cache: map<Key, Component>

    ghost function State(): Tables
      reads this
    {
      Tables(registry, cache)
    }

    constructor ()
      ensures State() == EMPTY
    {
      registry, cache := map[], map[];
    }

    method Provide(t: Key, provider: Component)
      modifies this
      ensures State() == Apply(old(State()), Provided(t, provider))
    {
      registry := registry[t := provider];
    }

    // Under the read lock: only a cached instance is an answer.
    method ReadSection(t: Key) returns (hit: Option<Component>)
      ensures hit.Some? ==> t in cache && hit.value == cache[t]
      ensures hit.None? ==> t !in cache
    {
      if t in cache {
        return Some(cache[t]);
      }
      return None;
    }

    // Under the write lock: the cache may have been filled since, so it is checked again.
    method WriteSection(t: Key) returns (found: Option<Component>)
      modifies this
      ensures found == Answer(old(State()), t)
      ensures State() == Apply(old(State()), LookedUp(t, found))
    {
      if t in cache {
        return Some(cache[t]);
      }
      if t in registry {
        var component := registry[t];
        cache := cache[t := component];
        return Some(component);
      }
      return None;
    }

    method Lookup(t: Key) returns (found: Option<Component>)
      modifies this
      ensures found == Answer(old(State()), t)
      ensures State() == Apply(old(State()), LookedUp(t, found))
    {
      found := ReadSection(t);
      if found.Some? {
        assert cache[t := found.value] == cache;
        return;
      }
      found := WriteSection(t);
    }

    method Resolve(t: Key) returns (r: Result<Component, Key>)
      modifies this
      ensures State() == Apply(old(State()), LookedUp(t, Answer(old(State()), t)))
      ensures r == match Answer(old(State()), t) case Some(v) => Ok(v) case None => Err(t)
    {
      var res := Lookup(t);
      if res == None {
        return Err(t);
      }
      return Ok(res.value);
    }

    method Clear()
      modifies this
      ensures State() == EMPTY
    {
      registry := map[];
      cache := map[];
    }
  }

  // ---------------------------------------------------------------- histories of atomic operations

  function Replay(log: seq<Op>): Tables {
    if log == [] then EMPTY else Apply(Replay(log[..|log| - 1]), log[|log| - 1])
  }

  // Every lookup was answered from the tables that the operations before it produced.
  ghost predicate Legal(log: seq<Op>) {
    forall i :: 0 <= i < |log| && log[i].LookedUp? ==> log[i].found == Answer(Replay(log[..i]), log[i].t)
  }

  lemma LegalExtends(log: seq<Op>, op: Op)
    requires Legal(log)
    requires op.LookedUp? ==> op.found == Answer(Replay(log), op.t)
    ensures Legal(log + [op]) && Replay(log + [op]) == Apply(Replay(log), op)
  {
    var after := log + [op];
    assert after[..|log|] == log;
    forall i | 0 <= i < |after| && after[i].LookedUp? ensures after[i].found == Answer(Replay(after[..i]), after[i].t) {
      if i < |log| {
        assert after[..i] == log[..i];
      }
    }
  }

  ghost predicate NoClear(log: seq<Op>, i: nat, j: nat)
    requires i <= j <= |log|
  {
    forall k :: i <= k < j ==> !log[k].Cleared?
  }

  lemma {:induction false} CacheKeeps(log: seq<Op>, i: nat, j: nat, t: Key)
    requires i <= j <= |log| && Legal(log) && NoClear(log, i, j)
    requires t in Replay(log[..i]).cache
    ensures t in Replay(log[..j]).cache && Replay(log[..j]).cache[t] == Replay(log[..i]).cache[t]
    decreases j
  {
    if i < j {
      CacheKeeps(log, i, j - 1, t);
      assert log[..j][..j - 1] == log[..j - 1];
    }
  }

  // After a successful lookup and until the next Clear, every lookup of the type gives the same
  // component, whatever is provided in between.
  lemma StableUntilClear(log: seq<Op>, i: nat, j: nat)
    requires Legal(log) && i < j < |log| && NoClear(log, i, j)
    requires log[i].LookedUp? && log[i].found.Some? && log[j].LookedUp? && log[j].t == log[i].t
    ensures log[j].found == log[i].found
  {
    assert log[..i + 1][..i] == log[..i];
    CacheKeeps(log, i + 1, j, log[i].t);
  }

  // What was provided last for a type since the last Clear.
  function LastProvided(log: seq<Op>, t: Key): Option<Component> {
    if log == [] then None else
      match log[|log| - 1]
      case Cleared => None
      case Provided(t', v) => if t' == t then Some(v) else LastProvided(log[..|log| - 1], t)
      case LookedUp(_, _) => LastProvided(log[..|log| - 1], t)
  }

  // Whether a lookup of the type has succeeded since the last Clear.
  predicate Hit(log: seq<Op>, t: Key) {
    log != [] &&
    match log[|log| - 1]
    case Cleared => false
    case Provided(_, _) => Hit(log[..|log| - 1], t)
    case LookedUp(t', found) => (t' == t && found.Some?) || Hit(log[..|log| - 1], t)
  }

  lemma {:induction false} TablesAre(log: seq<Op>, t: Key)
    requires Legal(log)
    ensures t in Replay(log).cache <==> Hit(log, t)
    ensures LastProvided(log, t) == if t in Replay(log).registry then Some(Replay(log).registry[t]) else None
  {
    if log != [] {
      var before := log[..|log| - 1];
      assert Legal(before) by {
        forall i | 0 <= i < |before| && before[i].LookedUp? ensures before[i].found == Answer(Replay(before[..i]), before[i].t) {
          assert before[..i] == log[..i];
        }
      }
      TablesAre(before, t);
    }
  }

  lemma LegalPrefix(log: seq<Op>, i: nat)
    requires Legal(log) && i <= |log|
    ensures Legal(log[..i])
  {
    forall k | 0 <= k < i && log[k].LookedUp? ensures log[k].found == Answer(Replay(log[..i][..k]), log[k].t) {
      assert log[..i][..k] == log[..k];
    }
  }

  // The first successful lookup after a Clear gives what the registry held then; before it, a
  // lookup fails exactly when nothing has been provided.
  lemma FirstHitReadsRegistry(log: seq<Op>, i: nat)
    requires Legal(log) && i < |log| && log[i].LookedUp? && !Hit(log[..i], log[i].t)
    ensures log[i].found == LastProvided(log[..i], log[i].t)
  {
    LegalPrefix(log, i);
    TablesAre(log[..i], log[i].t);
  }
}
