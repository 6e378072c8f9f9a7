// Any number of goroutines calling Lookup, Provide and Clear on the container. Every access to
// the lock, to the registry and to the cache is a step of its own.
module ContainerProtocol {
  import opened Wrappers
  import opened Container

  datatype Call = Lookup(t: Key) | Provide(t: Key, v: Component) | Clear

  datatype Phase =
    | WantRead    // before RLock
    | Reading     // read lock held, cache not tested yet
    | HitRead     // read lock held, cached instance found
    | Missed      // read lock held, nothing cached
    | WantWrite   // before Lock
    | Locked      // write lock held, nothing done yet
    | Consulting  // write lock held, still nothing cached
    | Storing     // write lock held, component read from the registry
    | SecondWrite // write lock held, registry wiped but not yet the cache
    | Releasing   // write lock held, work done

  // A call in progress: the step at which it was invoked, the length of the log at that time, its
  // own position in the log once it has taken effect, and the component it has found.
  datatype Thread = Idle | Busy(call: Call, phase: Phase, invoked: nat, from: nat, at: Option<nat>, found: Option<Component>)

  datatype Entry = Entry(tid: nat, op: Op)

  // A finished call, with the steps at which it was invoked and returned.
  datatype Response = Response(tid: nat, op: Op, invoked: nat, returned: nat, from: nat, at: nat, to: nat)

  datatype State = State(
    registry: map<Key, Component>, cache: map<Key, Component>,
    readers: set<nat>, writer: Option<nat>, threads: seq<Thread>,
    log: seq<Entry>, done: seq<Response>, steps: nat)

  datatype Action = Begin(call: Call) | Continue

  function Start(n: nat): State {
    State(map[], map[], {}, None, seq(n, _ => Idle), [], [], 0)
  }

  function OpOf(call: Call, found: Option<Component>): Op {
    match call
    case Lookup(t) => LookedUp(t, found)
    case Provide(t, v) => Provided(t, v)
    case Clear => Cleared
  }

  // ---------------------------------------------------------------- steps

  function Goto(s: State, i: nat, phase: Phase): State
    requires i < |s.threads| && s.threads[i].Busy?
  {
    s.(threads := s.threads[i := s.threads[i].(phase := phase)])
  }

  // The step at which the call takes effect.
  function TakeEffect(s: State, i: nat, phase: Phase, found: Option<Component>): State
    requires i < |s.threads| && s.threads[i].Busy?
  {
    var th := s.threads[i];
    s.(threads := s.threads[i := th.(phase := phase, at := Some(|s.log|), found := found)],
       log := s.log + [Entry(i, OpOf(th.call, found))])
  }

  // The call returns what it found.
  function Return(s: State, i: nat): State
    requires i < |s.threads| && s.threads[i].Busy? && s.threads[i].at.Some?
  {
    var th := s.threads[i];
    s.(threads := s.threads[i := Idle],
       done := s.done + [Response(i, OpOf(th.call, th.found), th.invoked, s.steps, th.from, th.at.value, |s.log|)])
  }

  // One step of thread i, or None if it cannot move that way.
  function Step(s: State, i: nat, a: Action): Option<State>
    requires i < |s.threads|
  {
    var moved :=
      match (s.threads[i], a)
      case (Idle, Begin(call)) => Some(Invoke(s, i, call))
      case (Busy(_, _, _, _, _, _), Continue) => if HoldsWrite(s.threads[i]) then Inside(s, i) else Outside(s, i)
      case _ => None;
    match moved
    case None => None
    case Some(s') => Some(Later(s'))
  }

  function Later(s: State): State {
    s.(steps := s.steps + 1)
  }

  function Invoke(s: State, i: nat, call: Call): State
    requires i < |s.threads|
  {
    s.(threads := s.threads[i := Busy(call, if call.Lookup? then WantRead else WantWrite, s.steps, |s.log|, None, None)])
  }

  // Without the write lock.
  function Outside(s: State, i: nat): Option<State>
    requires i < |s.threads| && s.threads[i].Busy? && !HoldsWrite(s.threads[i])
  {
    var th := s.threads[i];
    match th.phase
    case WantRead =>
      if s.writer.Some? then None else Some(Goto(s, i, Reading).(readers := s.readers + {i}))
    case Reading =>
      if !th.call.Lookup? then None
      else if th.call.t in s.cache then Some(TakeEffect(s, i, HitRead, Some(s.cache[th.call.t])))
      else Some(Goto(s, i, Missed))
    case HitRead =>
      if th.at.None? then None else Some(Return(s, i).(readers := s.readers - {i}))
    case Missed =>
      Some(Goto(s, i, WantWrite).(readers := s.readers - {i}))
    case WantWrite =>
      if s.writer.Some? || s.readers != {} then None else Some(Goto(s, i, Locked).(writer := Some(i)))
    case _ => None
  }

  // With the write lock.
  function Inside(s: State, i: nat): Option<State>
    requires i < |s.threads| && HoldsWrite(s.threads[i])
  {
    var th := s.threads[i];
    match th.phase
    case Locked => (
      match th.call
      case Lookup(t) =>
        if t in s.cache then Some(TakeEffect(s, i, Releasing, Some(s.cache[t]))) else Some(Goto(s, i, Consulting))
      case Provide(t, v) =>
        Some(TakeEffect(s, i, Releasing, None).(registry := s.registry[t := v]))
      case Clear =>
        Some(TakeEffect(s, i, SecondWrite, None).(registry := map[]))
    )
    case Consulting =>
      if !th.call.Lookup? then None
      else if th.call.t in s.registry then
        Some(s.(threads := s.threads[i := th.(phase := Storing, found := Some(s.registry[th.call.t]))]))
      else Some(TakeEffect(s, i, Releasing, None))
    case Storing =>
      if !th.call.Lookup? || th.found.None? then None
      else Some(TakeEffect(s, i, Releasing, th.found).(cache := s.cache[th.call.t := th.found.value]))
    case SecondWrite =>
      Some(Goto(s, i, Releasing).(cache := map[]))
    case Releasing =>
      if th.at.None? then None else Some(Return(s, i).(writer := None))
    case _ => None
  }

  // ---------------------------------------------------------------- what every step keeps

  predicate HoldsRead(th: Thread) {
    th.Busy? && (th.phase.Reading? || th.phase.HitRead? || th.phase.Missed?)
  }

  predicate HoldsWrite(th: Thread) {
    th.Busy? && (th.phase.Locked? || th.phase.Consulting? || th.phase.Storing? || th.phase.SecondWrite? || th.phase.Releasing?)
  }

  predicate Effected(phase: Phase) {
    phase.HitRead? || phase.SecondWrite? || phase.Releasing?
  }

  predicate ForLookupOnly(phase: Phase) {
    phase.WantRead? || phase.Reading? || phase.HitRead? || phase.Missed? || phase.Consulting? || phase.Storing?
  }

  ghost predicate LockOk(s: State, i: nat) {
    && (i in s.readers <==> i < |s.threads| && HoldsRead(s.threads[i]))
    && (s.writer == Some(i) <==> i < |s.threads| && HoldsWrite(s.threads[i]))
  }

  ghost predicate Exclusive(s: State) {
    s.writer.Some? ==> s.readers == {}
  }

  ghost predicate ThreadOk(s: State, i: nat)
    requires i < |s.threads|
  {
    s.threads[i].Busy? ==>
      var th := s.threads[i];
      && th.from <= |s.log| && th.invoked < s.steps
      && (th.at.Some? <==> Effected(th.phase))
      && (th.at.Some? ==> th.from <= th.at.value < |s.log| && s.log[th.at.value] == Entry(i, OpOf(th.call, th.found)))
      && (ForLookupOnly(th.phase) ==> th.call.Lookup?)
      && (th.phase.SecondWrite? ==> th.call.Clear? && s.registry == map[])
      && (th.phase.Consulting? || th.phase.Storing? ==> th.call.t !in s.cache)
      && (th.phase.Storing? ==> th.call.t in s.registry && th.found == Some(s.registry[th.call.t]))
  }

  ghost predicate DoneOk(s: State, k: nat)
    requires k < |s.done|
  {
    var r := s.done[k];
    && r.from <= r.at < r.to <= |s.log|
    && r.invoked < r.returned < s.steps
    && s.log[r.at] == Entry(r.tid, r.op)
    && r.tid < |s.threads|
    && (s.threads[r.tid].Busy? ==> r.to <= s.threads[r.tid].from)
  }

  // Calls of one thread do not overlap.
  ghost predicate Sequential(s: State) {
    forall j, k :: 0 <= j < k < |s.done| && s.done[j].tid == s.done[k].tid ==> s.done[j].to <= s.done[k].from
  }

  // A call invoked after the response of another began after the other's effect.
  ghost predicate Precedes(s: State, k: nat)
    requires k < |s.done|
  {
    forall i :: 0 <= i < |s.threads| && s.threads[i].Busy? && s.done[k].returned < s.threads[i].invoked ==> s.done[k].to <= s.threads[i].from
  }

  ghost predicate Ordered(s: State) {
    forall j, k :: 0 <= j < |s.done| && 0 <= k < |s.done| && s.done[j].returned < s.done[k].invoked ==> s.done[j].to <= s.done[k].from
  }

  // Every entry of the log is the effect of a call, finished or not.
  ghost predicate Owned(s: State, k: nat)
    requires k < |s.log|
  {
    || (exists j :: 0 <= j < |s.done| && s.done[j].at == k)
    || (exists i :: 0 <= i < |s.threads| && s.threads[i].Busy? && s.threads[i].at == Some(k))
  }

  function Ops(log: seq<Entry>): seq<Op> {
    seq(|log|, i requires 0 <= i < |log| => log[i].op)
  }

  // The tables as the atomic specification sees them: between its two writes, Clear has
  // already happened.
  function Abstract(s: State): Tables {
    if s.writer.Some? && s.writer.value < |s.threads|
       && s.threads[s.writer.value].Busy? && s.threads[s.writer.value].phase.SecondWrite?
    then Tables(s.registry, map[]) else Tables(s.registry, s.cache)
  }

  ghost predicate Refines(s: State) {
    Legal(Ops(s.log)) && Replay(Ops(s.log)) == Abstract(s)
  }

  ghost predicate LocksOk(s: State) {
    (forall i: nat :: LockOk(s, i)) && Exclusive(s)
  }

  ghost predicate ThreadsOk(s: State) {
    forall i :: 0 <= i < |s.threads| ==> ThreadOk(s, i)
  }

  ghost predicate CallsOk(s: State) {
    && (forall k :: 0 <= k < |s.done| ==> DoneOk(s, k))
    && (forall k :: 0 <= k < |s.done| ==> Precedes(s, k))
    && Sequential(s)
    && Ordered(s)
    && (forall k :: 0 <= k < |s.log| ==> Owned(s, k))
  }

  ghost predicate Inv(s: State) {
    LocksOk(s) && ThreadsOk(s) && CallsOk(s) && Refines(s)
  }

  lemma StartOk(n: nat)
    ensures Inv(Start(n))
  {
  }

  // ---------------------------------------------------------------- the three kinds of steps

  // Nothing but thread i moves, and only the holder of the write lock changes the tables.
  ghost predicate Frames(s: State, i: nat, s': State) {
    && |s'.threads| == |s.threads| && s'.steps == s.steps + 1
    && (forall k :: 0 <= k < |s.threads| && k != i ==> s'.threads[k] == s.threads[k])
    && (i < |s.threads| && !HoldsWrite(s.threads[i]) ==> s'.registry == s.registry && s'.cache == s.cache)
  }

  ghost predicate Invokes(s: State, i: nat, a: Action, s': State)
    requires i < |s.threads| && i < |s'.threads|
  {
    var th' := s'.threads[i];
    && s.threads[i].Idle? && a.Begin? && s'.log == s.log && s'.done == s.done
    && th'.Busy? && th'.call == a.call && th'.invoked == s.steps && th'.from == |s.log|
  }

  // Here a call may take effect.
  ghost predicate Proceeds(s: State, i: nat, a: Action, s': State)
    requires i < |s.threads| && i < |s'.threads|
  {
    var th, th' := s.threads[i], s'.threads[i];
    && th.Busy? && a.Continue? && s'.done == s.done
    && th'.Busy? && th'.call == th.call && th'.invoked == th.invoked && th'.from == th.from
    && ((s'.log == s.log && th'.at == th.at) ||
        (s'.log == s.log + [Entry(i, OpOf(th.call, th'.found))] && th'.at == Some(|s.log|) && !Effected(th.phase)))
  }

  ghost predicate Returns(s: State, i: nat, a: Action, s': State)
    requires i < |s.threads| && i < |s'.threads|
  {
    var th := s.threads[i];
    && th.Busy? && a.Continue? && s'.log == s.log && s'.threads[i].Idle? && th.at.Some?
    && s'.done == s.done + [Response(i, OpOf(th.call, th.found), th.invoked, s.steps, th.from, th.at.value, |s.log|)]
  }

  ghost predicate Kinds(s: State, i: nat, a: Action, s': State)
    requires i < |s.threads|
  {
    Frames(s, i, s') && (Invokes(s, i, a, s') || Proceeds(s, i, a, s') || Returns(s, i, a, s'))
  }

  // The case analysis over the phases is done once for threads that hold the write lock and once
  // for the others.

  lemma OutsideFrame(s: State, i: nat)
    requires i < |s.threads| && s.threads[i].Busy? && !HoldsWrite(s.threads[i]) && Outside(s, i).Some?
    ensures Frames(s, i, Later(Outside(s, i).value))
  {
  }

  lemma OutsideKind(s: State, i: nat)
    requires i < |s.threads| && s.threads[i].Busy? && !HoldsWrite(s.threads[i]) && Outside(s, i).Some?
    ensures var s' := Later(Outside(s, i).value);
            |s'.threads| == |s.threads| && (Proceeds(s, i, Continue, s') || Returns(s, i, Continue, s'))
  {
    hide OpOf, HoldsWrite;
  }

  lemma InsideFrame(s: State, i: nat)
    requires i < |s.threads| && HoldsWrite(s.threads[i]) && Inside(s, i).Some?
    ensures Frames(s, i, Later(Inside(s, i).value))
  {
  }

  lemma InsideKind(s: State, i: nat)
    requires i < |s.threads| && HoldsWrite(s.threads[i]) && Inside(s, i).Some?
    ensures var s' := Later(Inside(s, i).value);
            |s'.threads| == |s.threads| && (Proceeds(s, i, Continue, s') || Returns(s, i, Continue, s'))
  {
    hide OpOf;
  }

  lemma InvokeKind(s: State, i: nat, call: Call)
    requires i < |s.threads| && s.threads[i].Idle?
    ensures Kinds(s, i, Begin(call), Later(Invoke(s, i, call)))
  {
  }

  lemma StepKind(s: State, i: nat, a: Action)
    requires i < |s.threads| && Step(s, i, a).Some?
    ensures Kinds(s, i, a, Step(s, i, a).value)
  {
    hide Inside, Outside, Invoke, Later, Frames, HoldsWrite, OpOf;
    if s.threads[i].Idle? {
      InvokeKind(s, i, a.call);
    } else if HoldsWrite(s.threads[i]) {
      InsideFrame(s, i);
      InsideKind(s, i);
    } else {
      OutsideFrame(s, i);
      OutsideKind(s, i);
    }
  }

  // ---------------------------------------------------------------- locks

  lemma LockKeptOutside(s: State, i: nat, k: nat)
    requires i < |s.threads| && s.threads[i].Busy? && !HoldsWrite(s.threads[i]) && Outside(s, i).Some?
    requires LockOk(s, i) && LockOk(s, k) && Exclusive(s)
    ensures LockOk(Later(Outside(s, i).value), k) && Exclusive(Later(Outside(s, i).value))
  {
  }

  lemma LockKeptInside(s: State, i: nat, k: nat)
    requires i < |s.threads| && HoldsWrite(s.threads[i]) && Inside(s, i).Some?
    requires LockOk(s, i) && LockOk(s, k) && Exclusive(s)
    ensures LockOk(Later(Inside(s, i).value), k) && Exclusive(Later(Inside(s, i).value))
  {
  }

  lemma LockKept(s: State, i: nat, a: Action, k: nat)
    requires LockOk(s, i) && LockOk(s, k) && Exclusive(s) && i < |s.threads| && Step(s, i, a).Some?
    ensures LockOk(Step(s, i, a).value, k) && Exclusive(Step(s, i, a).value)
  {
    hide Inside, Outside, Later;
    if s.threads[i].Idle? {
      assert LockOk(Later(Invoke(s, i, a.call)), k) && Exclusive(Later(Invoke(s, i, a.call))) by {
        InvokeLocks(s, i, a.call, k);
      }
    } else if HoldsWrite(s.threads[i]) {
      hide HoldsWrite, LockOk, Exclusive;
      LockKeptInside(s, i, k);
    } else {
      hide HoldsWrite, LockOk, Exclusive;
      LockKeptOutside(s, i, k);
    }
  }

  lemma InvokeLocks(s: State, i: nat, call: Call, k: nat)
    requires LockOk(s, k) && Exclusive(s) && i < |s.threads| && s.threads[i].Idle?
    ensures LockOk(Later(Invoke(s, i, call)), k) && Exclusive(Later(Invoke(s, i, call)))
  {
  }

  // ---------------------------------------------------------------- threads

  lemma MoverKeptOutside(s: State, i: nat)
    requires i < |s.threads| && s.threads[i].Busy? && !HoldsWrite(s.threads[i]) && Outside(s, i).Some? && ThreadOk(s, i)
    ensures i < |Outside(s, i).value.threads| && ThreadOk(Later(Outside(s, i).value), i)
  {
    hide OpOf;
  }

  lemma MoverKeptInside(s: State, i: nat)
    requires i < |s.threads| && HoldsWrite(s.threads[i]) && Inside(s, i).Some? && ThreadOk(s, i)
    ensures i < |Inside(s, i).value.threads| && ThreadOk(Later(Inside(s, i).value), i)
  {
    hide OpOf;
  }

  lemma MoverKept(s: State, i: nat, a: Action)
    requires i < |s.threads| && Step(s, i, a).Some? && ThreadOk(s, i)
    ensures i < |Step(s, i, a).value.threads| && ThreadOk(Step(s, i, a).value, i)
  {
    hide Inside, Outside;
    if s.threads[i].Busy? {
      hide HoldsWrite, ThreadOk, Later;
      if HoldsWrite(s.threads[i]) {
        MoverKeptInside(s, i);
      } else {
        MoverKeptOutside(s, i);
      }
    }
  }

  lemma OtherKept(s: State, i: nat, a: Action, s': State, k: nat)
    requires LockOk(s, i) && LockOk(s, k) && i < |s.threads| && Kinds(s, i, a, s') && k < |s.threads| && k != i
    requires ThreadOk(s, k)
    ensures ThreadOk(s', k)
  {
    assert s.log <= s'.log;
    hide OpOf, Effected, ForLookupOnly;
    if HoldsWrite(s.threads[k]) {
      assert !HoldsWrite(s.threads[i]);
    }
  }

  // ---------------------------------------------------------------- responses

  // Responses already given are not touched.
  lemma OldDoneKept(s: State, i: nat, a: Action, s': State, k: nat)
    requires i < |s.threads| && Kinds(s, i, a, s')
    requires k < |s.done| && DoneOk(s, k)
    ensures k < |s'.done| && DoneOk(s', k)
  {
    assert s.done[k] == s'.done[k] && s.log <= s'.log;
    hide OpOf, HoldsWrite;
  }

  lemma NewDoneOk(s: State, i: nat, a: Action, s': State)
    requires i < |s.threads| && Kinds(s, i, a, s') && ThreadOk(s, i)
    requires |s.done| < |s'.done|
    ensures DoneOk(s', |s.done|)
  {
    hide OpOf, HoldsWrite;
  }

  lemma DoneKept(s: State, i: nat, a: Action, s': State, k: nat)
    requires i < |s.threads| && Kinds(s, i, a, s') && ThreadOk(s, i)
    requires k < |s.done| ==> DoneOk(s, k)
    requires k < |s'.done|
    ensures DoneOk(s', k)
  {
    assert |s'.done| <= |s.done| + 1;
    hide Kinds, DoneOk, ThreadOk;
    if k < |s.done| {
      OldDoneKept(s, i, a, s', k);
    } else {
      NewDoneOk(s, i, a, s');
    }
  }

  lemma SequentialKept(s: State, i: nat, a: Action, s': State)
    requires i < |s.threads| && Kinds(s, i, a, s') && Sequential(s)
    requires forall k :: 0 <= k < |s.done| ==> DoneOk(s, k)
    ensures Sequential(s')
  {
    hide OpOf, HoldsWrite;
    forall j, k | 0 <= j < k < |s'.done| && s'.done[j].tid == s'.done[k].tid ensures s'.done[j].to <= s'.done[k].from {
      assert s'.done[j] == s.done[j] && DoneOk(s, j);
      assert k < |s.done| ==> s'.done[k] == s.done[k];
    }
  }

  lemma PrecedesKept(s: State, i: nat, a: Action, s': State, k: nat)
    requires i < |s.threads| && Kinds(s, i, a, s') && k < |s'.done|
    requires k < |s.done| ==> DoneOk(s, k) && Precedes(s, k)
    requires forall j :: 0 <= j < |s.threads| ==> ThreadOk(s, j)
    ensures Precedes(s', k)
  {
    hide OpOf, HoldsWrite, Effected, ForLookupOnly;
    if k < |s.done| {
      assert s'.done[k] == s.done[k];
    } else {
      forall j | 0 <= j < |s'.threads| && s'.threads[j].Busy? ensures s'.threads[j].invoked < s.steps {
        assert j != i && ThreadOk(s, j);
      }
    }
  }

  lemma InvokedBefore(s: State, i: nat, a: Action, s': State, k: nat)
    requires i < |s.threads| && Kinds(s, i, a, s') && ThreadOk(s, i) && k < |s'.done|
    requires k < |s.done| ==> DoneOk(s, k)
    ensures s'.done[k].invoked < s.steps
  {
    hide OpOf, HoldsWrite, Effected, ForLookupOnly;
    assert k < |s.done| ==> s'.done[k] == s.done[k];
  }

  lemma OrderedKept(s: State, i: nat, a: Action, s': State)
    requires i < |s.threads| && Kinds(s, i, a, s') && ThreadOk(s, i) && Ordered(s)
    requires forall k :: 0 <= k < |s.done| ==> DoneOk(s, k) && Precedes(s, k)
    ensures Ordered(s')
  {
    hide OpOf, HoldsWrite, ThreadOk;
    forall k | 0 <= k < |s'.done| ensures s'.done[k].invoked < s.steps {
      InvokedBefore(s, i, a, s', k);
    }
    forall j, k | 0 <= j < |s.done| && 0 <= k < |s'.done| && s'.done[j].returned < s'.done[k].invoked
      ensures s'.done[j].to <= s'.done[k].from
    {
      assert s'.done[j] == s.done[j] && Precedes(s, j);
      assert k < |s.done| ==> s'.done[k] == s.done[k];
    }
  }

  // ---------------------------------------------------------------- entries of the log

  // A step that logs makes its thread the owner of the entry; a step that ends a call passes the
  // ownership on to the response.
  lemma OwnedKept(s: State, i: nat, a: Action, s': State, k: nat)
    requires i < |s.threads| && Kinds(s, i, a, s') && ThreadOk(s, i)
    requires k < |s.log| ==> Owned(s, k)
    requires k < |s'.log|
    ensures Owned(s', k)
  {
    assert s.done <= s'.done;
    hide OpOf, HoldsWrite, ForLookupOnly;
    if k < |s.log| {
      if j :| 0 <= j < |s.done| && s.done[j].at == k {
        assert s'.done[j].at == k;
      } else {
        var j :| 0 <= j < |s.threads| && s.threads[j].Busy? && s.threads[j].at == Some(k);
        if s'.threads[j] == Idle {
          assert s'.done[|s.done|].at == k;
        } else {
          assert s'.threads[j].at == Some(k);
        }
      }
    } else {
      assert s'.threads[i].at == Some(k);
    }
  }

  // ---------------------------------------------------------------- refinement

  ghost predicate Takes(s: State, s': State, i: nat, op: Op) {
    && s'.log == s.log + [Entry(i, op)]
    && (op.LookedUp? ==> op.found == Answer(Abstract(s), op.t))
    && Abstract(s') == Apply(Abstract(s), op)
  }

  ghost predicate Stutters(s: State, s': State) {
    s'.log == s.log && Abstract(s') == Abstract(s)
  }

  lemma OutsideRefines(s: State, i: nat)
    requires i < |s.threads| && s.threads[i].Busy? && !HoldsWrite(s.threads[i]) && Outside(s, i).Some?
    requires LockOk(s, i) && Exclusive(s) && ThreadOk(s, i)
    requires s.writer.Some? ==> LockOk(s, s.writer.value)
    ensures var s' := Later(Outside(s, i).value);
            Stutters(s, s') || (|s'.log| > |s.log| && Takes(s, s', i, s'.log[|s.log|].op))
  {
  }

  lemma InsideRefines(s: State, i: nat)
    requires i < |s.threads| && HoldsWrite(s.threads[i]) && Inside(s, i).Some?
    requires LockOk(s, i) && ThreadOk(s, i)
    ensures var s' := Later(Inside(s, i).value);
            Stutters(s, s') || (|s'.log| > |s.log| && Takes(s, s', i, s'.log[|s.log|].op))
  {
  }

  lemma InvokeRefines(s: State, i: nat, call: Call)
    requires i < |s.threads| && s.threads[i].Idle? && LockOk(s, i)
    ensures Stutters(s, Later(Invoke(s, i, call)))
  {
  }

  // A step either leaves the atomic tables alone and logs nothing, or it logs one atomic operation
  // that the specification allows and changes the tables as that operation does.
  lemma StepRefines(s: State, i: nat, a: Action)
    requires i < |s.threads| && Step(s, i, a).Some?
    requires LockOk(s, i) && Exclusive(s) && ThreadOk(s, i)
    requires s.writer.Some? ==> LockOk(s, s.writer.value)
    ensures var s' := Step(s, i, a).value;
            Stutters(s, s') || exists op :: Takes(s, s', i, op)
  {
    hide Inside, Outside, Invoke, Later, Stutters, Takes, LockOk, ThreadOk, Exclusive, HoldsWrite;
    if s.threads[i].Idle? {
      InvokeRefines(s, i, a.call);
    } else if HoldsWrite(s.threads[i]) {
      InsideRefines(s, i);
    } else {
      OutsideRefines(s, i);
    }
  }

  lemma RefinesKept(s: State, i: nat, a: Action)
    requires LocksOk(s) && ThreadsOk(s) && Refines(s) && i < |s.threads| && Step(s, i, a).Some?
    ensures Refines(Step(s, i, a).value)
  {
    var s' := Step(s, i, a).value;
    assert LockOk(s, i) && ThreadOk(s, i) && (s.writer.Some? ==> LockOk(s, s.writer.value));
    StepRefines(s, i, a);
    hide Step, Abstract, LocksOk, ThreadsOk, LockOk, ThreadOk;
    if op :| Takes(s, s', i, op) {
      LegalExtends(Ops(s.log), op);
      assert Ops(s'.log) == Ops(s.log) + [op];
    }
  }

  lemma LocksKept(s: State, i: nat, a: Action)
    requires LocksOk(s) && i < |s.threads| && Step(s, i, a).Some?
    ensures LocksOk(Step(s, i, a).value)
  {
    hide Step, LockOk, Exclusive;
    var s' := Step(s, i, a).value;
    LockKept(s, i, a, i);
    forall k: nat ensures LockOk(s', k) {
      LockKept(s, i, a, k);
    }
  }

  lemma ThreadsKept(s: State, i: nat, a: Action)
    requires LocksOk(s) && ThreadsOk(s) && i < |s.threads| && Step(s, i, a).Some?
    requires Kinds(s, i, a, Step(s, i, a).value)
    ensures ThreadsOk(Step(s, i, a).value)
  {
    var s' := Step(s, i, a).value;
    assert |s'.threads| == |s.threads|;
    hide Step, Kinds, LockOk, ThreadOk, Exclusive;
    forall k | 0 <= k < |s'.threads| ensures ThreadOk(s', k) {
      if k == i {
        MoverKept(s, i, a);
      } else {
        OtherKept(s, i, a, s', k);
      }
    }
  }

  lemma CallsKept(s: State, i: nat, a: Action, s': State)
    requires ThreadsOk(s) && CallsOk(s) && i < |s.threads| && Kinds(s, i, a, s')
    ensures CallsOk(s')
  {
    hide Kinds, ThreadOk, DoneOk, Precedes, Owned, Ordered, Sequential;
    forall k | 0 <= k < |s'.done| ensures DoneOk(s', k) && Precedes(s', k) {
      DoneKept(s, i, a, s', k);
      PrecedesKept(s, i, a, s', k);
    }
    OrderedKept(s, i, a, s');
    SequentialKept(s, i, a, s');
    forall k | 0 <= k < |s'.log| ensures Owned(s', k) {
      OwnedKept(s, i, a, s', k);
    }
  }

  lemma StepKeepsInv(s: State, i: nat, a: Action)
    requires Inv(s) && i < |s.threads| && Step(s, i, a).Some?
    ensures Inv(Step(s, i, a).value) && |Step(s, i, a).value.threads| == |s.threads|
  {
    StepKind(s, i, a);
    assert |Step(s, i, a).value.threads| == |s.threads|;
    hide Step, Kinds, LocksOk, ThreadsOk, CallsOk, Refines;
    LocksKept(s, i, a);
    ThreadsKept(s, i, a);
    CallsKept(s, i, a, Step(s, i, a).value);
    RefinesKept(s, i, a);
  }

  // ---------------------------------------------------------------- every run

  // The state after a schedule of steps, or None if some step of it was blocked.
  function Run(s: State, schedule: seq<(nat, Action)>): Option<State>
    decreases |schedule|
  {
    if schedule == [] then Some(s) else
      var (i, a) := schedule[0];
      if i >= |s.threads| then None else
        match Step(s, i, a)
        case None => None
        case Some(s') => Run(s', schedule[1..])
  }

  lemma {:induction false} RunKeepsInv(s: State, schedule: seq<(nat, Action)>)
    requires Inv(s) && Run(s, schedule).Some?
    ensures Inv(Run(s, schedule).value)
    decreases |schedule|
  {
    if schedule != [] {
      var (i, a) := schedule[0];
      StepKeepsInv(s, i, a);
      RunKeepsInv(Step(s, i, a).value, schedule[1..]);
    }
  }

  // The log is a sequential explanation of the run: it is legal for the atomic specification,
  // every finished call has its own entry in it, placed between its invocation and its
  // response and giving the answer it returned, and every entry is the effect of some call.
  ghost predicate Linearized(s: State) {
    && Legal(Ops(s.log))
    && (forall k :: 0 <= k < |s.done| ==> var r := s.done[k]; r.from <= r.at < r.to <= |s.log| && s.log[r.at] == Entry(r.tid, r.op))
    && (forall j, k :: 0 <= j < k < |s.done| ==> s.done[j].at != s.done[k].at)
    && (forall k :: 0 <= k < |s.log| ==> Owned(s, k))
  }

  lemma EveryRunLinearizes(n: nat, schedule: seq<(nat, Action)>)
    requires Run(Start(n), schedule).Some?
    ensures Linearized(Run(Start(n), schedule).value)
  {
    var s := Run(Start(n), schedule).value;
    StartOk(n);
    RunKeepsInv(Start(n), schedule);
    hide Run;
    forall j, k | 0 <= j < k < |s.done| ensures s.done[j].at != s.done[k].at {
      assert DoneOk(s, j) && DoneOk(s, k);
    }
    forall k | 0 <= k < |s.done|
      ensures var r := s.done[k]; r.from <= r.at < r.to <= |s.log| && s.log[r.at] == Entry(r.tid, r.op)
    {
      assert DoneOk(s, k);
    }
  }

  // Whatever the interleaving, a lookup that takes effect after a successful one of the same
  // type, with no Clear taking effect in between, returns the same component.
  lemma LookupsAgree(n: nat, schedule: seq<(nat, Action)>, j: nat, k: nat)
    requires Run(Start(n), schedule).Some?
    requires var s := Run(Start(n), schedule).value;
             && j < |s.done| && k < |s.done|
             && s.done[j].op.LookedUp? && s.done[j].op.found.Some? && s.done[k].op.LookedUp? && s.done[k].op.t == s.done[j].op.t
             && s.done[j].at < s.done[k].at <= |s.log| && NoClear(Ops(s.log), s.done[j].at, s.done[k].at)
    ensures var s := Run(Start(n), schedule).value; s.done[k].op.found == s.done[j].op.found
  {
    var s := Run(Start(n), schedule).value;
    EveryRunLinearizes(n, schedule);
    hide Run;
    StableUntilClear(Ops(s.log), s.done[j].at, s.done[k].at);
  }

  function CallOf(op: Op): Call {
    match op
    case LookedUp(t, _) => Lookup(t)
    case Provided(t, v) => Provide(t, v)
    case Cleared => Clear
  }

  // The invocations of all calls and the responses of the finished ones are steps of the schedule.
  ghost predicate Placed(s: State, schedule: seq<(nat, Action)>) {
    && s.steps == |schedule|
    && (forall i :: 0 <= i < |s.threads| && s.threads[i].Busy? ==>
          s.threads[i].invoked < |schedule| && schedule[s.threads[i].invoked] == (i, Begin(s.threads[i].call)))
    && (forall k :: 0 <= k < |s.done| ==>
          && s.done[k].invoked < s.done[k].returned < |schedule|
          && schedule[s.done[k].invoked] == (s.done[k].tid, Begin(CallOf(s.done[k].op)))
          && schedule[s.done[k].returned] == (s.done[k].tid, Continue))
  }

  lemma StepKeepsPlaced(s: State, past: seq<(nat, Action)>, i: nat, a: Action, s': State)
    requires Placed(s, past) && i < |s.threads| && Kinds(s, i, a, s')
    ensures Placed(s', past + [(i, a)])
  {
    var now := past + [(i, a)];
    hide HoldsWrite;
    assert now[|past|] == (i, a) && forall k :: 0 <= k < |past| ==> now[k] == past[k];
    forall k | 0 <= k < |s'.done|
      ensures s'.done[k].invoked < s'.done[k].returned < |now|
      ensures now[s'.done[k].invoked] == (s'.done[k].tid, Begin(CallOf(s'.done[k].op)))
      ensures now[s'.done[k].returned] == (s'.done[k].tid, Continue)
    {
      assert k < |s.done| ==> s'.done[k] == s.done[k];
    }
  }

  lemma {:induction false} RunKeepsPlaced(s: State, past: seq<(nat, Action)>, rest: seq<(nat, Action)>)
    requires Placed(s, past) && Run(s, rest).Some?
    ensures Placed(Run(s, rest).value, past + rest)
    decreases |rest|
  {
    if rest == [] {
      assert past + rest == past;
    } else {
      var (i, a) := rest[0];
      var s' := Step(s, i, a).value;
      hide Step, Placed, Kinds;
      StepKind(s, i, a);
      StepKeepsPlaced(s, past, i, a, s');
      RunKeepsPlaced(s', past + [rest[0]], rest[1..]);
      assert past + [rest[0]] + rest[1..] == past + rest;
    }
  }

  // A call whose response comes before the invocation of another, in the schedule, takes effect
  // before it.
  lemma RealTimeOrder(n: nat, schedule: seq<(nat, Action)>, j: nat, k: nat)
    requires Run(Start(n), schedule).Some?
    requires var s := Run(Start(n), schedule).value; j < |s.done| && k < |s.done|
    ensures var s := Run(Start(n), schedule).value;
            var a, b := s.done[j], s.done[k];
            && a.returned < |schedule| && schedule[a.returned] == (a.tid, Continue)
            && b.invoked < |schedule| && schedule[b.invoked] == (b.tid, Begin(CallOf(b.op)))
            && (a.returned < b.invoked ==> a.at < b.at)
  {
    var s := Run(Start(n), schedule).value;
    StartOk(n);
    RunKeepsInv(Start(n), schedule);
    RunKeepsPlaced(Start(n), [], schedule);
    hide Run;
    assert [] + schedule == schedule;
    assert DoneOk(s, j) && DoneOk(s, k);
  }

  // The lock is never lost: while some call is in progress, some thread can move.
  lemma NoDeadlock(n: nat, schedule: seq<(nat, Action)>, b: nat)
    requires Run(Start(n), schedule).Some?
    requires var s := Run(Start(n), schedule).value; b < |s.threads| && s.threads[b].Busy?
    ensures var s := Run(Start(n), schedule).value; exists i :: 0 <= i < |s.threads| && s.threads[i].Busy? && Step(s, i, Continue).Some?
  {
    var s := Run(Start(n), schedule).value;
    StartOk(n);
    RunKeepsInv(Start(n), schedule);
    hide Run;
    var i: nat := b;
    if s.writer.Some? {
      i := s.writer.value;
    } else if s.readers != {} {
      i :| i in s.readers;
    }
    assert LockOk(s, i) && LockOk(s, b) && ThreadOk(s, i);
  }
}
