// One caller of ShortIDGenerator.Generate, and the IDs of a whole run of calls.
module ShortIdGenerator {
  import opened Bytes
  import opened ShortId

  datatype Clocked = Clocked(lastTime: int, counter: nat)

  const FRESH := Clocked(0, 0)

  // A new millisecond resets the counter; another call in the same one increments it.
  function Tick(s: Clocked, now: int): Clocked {
    Clocked(now, if now != s.lastTime then 0 else Wrap32(s.counter + 1))
  }

  function Emit(s: Clocked, machine: nat): bytes {
    IdOf(s.lastTime - TIME_OFFSET, machine, Low12(s.counter))
  }

  lemma Low12Is(n: nat)
    ensures Low12(n) == n % 0x1000
  {
  }

  // An ID as a number, for any reading of the clock.
  lemma EmitDecodes(s: Clocked, machine: nat)
    requires machine < 1024
    ensures |Emit(s, machine)| == 8 && AllDigits(Emit(s, machine))
    ensures Value(Emit(s, machine)) == IdNumber(s.lastTime, machine, s.counter)
  {
    hide IdOf, Pack, Value, AllDigits, Low12;
    IdDecodes(s.lastTime - TIME_OFFSET, machine, Low12(s.counter));
    PackIsSum(s.lastTime - TIME_OFFSET, machine, Low12(s.counter));
    Low12Is(s.counter);
  }

  // 42 bits of the milliseconds since the beginning of 2025, 10 of the machine and 12 of the
  // counter, modulo 36^8.
  function IdNumber(now: int, machine: nat, counter: nat): int {
    ((now - TIME_OFFSET) % 0x400_0000_0000 * 0x40_0000 + machine * 0x1000 + counter % 0x1000) % 2_821_109_907_456
  }

  lemma LastDigit(v: nat, i: nat, rest: bytes)
    ensures Encode(v, i + 1) + rest == Encode(v / 36, i) + ([DigitByte(v % 36)] + rest)
  {
    var front, last := Encode(v / 36, i), [DigitByte(v % 36)];
    assert Encode(v, i + 1) == front + last;
    hide Encode, DigitByte;
    assert front + last + rest == front + (last + rest);
  }

  class ShortIDGenerator {
    const alphabet: bytes := ALPHABET
    const machineID: nat
    const timeOffset: int := TIME_OFFSET
    const buffer: array<byte>
    var lastTime: int
    var counter: nat

    ghost predicate Valid()
      reads this
    {
      buffer.Length == 8 && machineID < 1024 && counter < 0x1_0000_0000
    }

    ghost function State(): Clocked
      reads this
    {
      Clocked(lastTime, counter)
    }

    // Any machine number is accepted; its low ten bits are kept.
    constructor (machine: int)
      ensures Valid() && fresh(buffer)
      ensures State() == FRESH && machineID == machine % 1024
    {
      machineID := machine % 1024;
      buffer := new byte[8](_ => '0' as int);
      lastTime, counter := 0, 0;
    }

    method CompareAndSwapLastTime(expected: int, now: int) returns (swapped: bool)
      modifies this`lastTime
      ensures swapped <==> old(lastTime) == expected
      ensures lastTime == if swapped then now else old(lastTime)
    {
      swapped := lastTime == expected;
      if swapped {
        lastTime := now;
      }
    }

    // With a single caller neither retry of the original is ever taken.
    method Generate(now: int) returns (id: bytes)
      requires Valid()
      modifies this, buffer
      ensures Valid()
      ensures State() == Tick(old(State()), now)
      ensures id == Emit(State(), machineID)
      ensures |id| == 8 && AllDigits(id) && Value(id) == IdNumber(now, machineID, counter)
    {
      hide Encode, Value, IdNumber, AllDigits;
      var last := lastTime;
      var count: nat;
      if now != last {
        var swapped := CompareAndSwapLastTime(last, now);
        if !swapped {
          assert false; // another thread moved the clock
        }
        counter := 0;
        count := 0;
      } else {
        counter := Wrap32(counter + 1);
        count := counter;
        if Low12(count) >= 4096 {
          assert false; // the mask already keeps the low twelve bits
        }
      }
      count := Low12(count);
      ghost var packed := Pack(now - timeOffset, machineID, count);
      var combined := Pack(now - timeOffset, machineID, count);
      for i := 8 downto 0
        modifies buffer
        invariant Encode(packed, 8) == Encode(combined, i) + buffer[i..]
      {
        buffer[i] := alphabet[combined % 36];
        LastDigit(combined, i, buffer[i + 1..]);
        assert buffer[i..] == [DigitByte(combined % 36)] + buffer[i + 1..];
        combined := combined / 36;
      }
      id := buffer[..];
      EmitDecodes(State(), machineID);
    }
  }

  // ---------------------------------------------------------------- runs

  // The generator after call i of a run whose clock readings are given.
  function StateAfter(clock: seq<int>, i: nat): Clocked
    requires i < |clock|
  {
    Tick(if i == 0 then FRESH else StateAfter(clock, i - 1), clock[i])
  }

  function IdAt(clock: seq<int>, machine: nat, i: nat): bytes
    requires i < |clock|
  {
    Emit(StateAfter(clock, i), machine)
  }

  ghost predicate NonDecreasing(clock: seq<int>) {
    forall i, j :: 0 <= i <= j < |clock| ==> clock[i] <= clock[j]
  }

  // How many earlier calls fell into the same millisecond.
  ghost function Rank(clock: seq<int>, i: nat): nat
    requires i < |clock|
  {
    |set j | 0 <= j < i && clock[j] == clock[i]|
  }

  // A run of one process: the clock does not go back, and stays in the 42 bits after 2025.
  ghost predicate ProperRun(clock: seq<int>) {
    && NonDecreasing(clock)
    && forall i :: 0 <= i < |clock| ==> 0 <= clock[i] - TIME_OFFSET < 0x400_0000_0000
  }

  lemma RankStep(clock: seq<int>, i: nat)
    requires NonDecreasing(clock) && i < |clock|
    ensures Rank(clock, i) == if i > 0 && clock[i - 1] == clock[i] then Rank(clock, i - 1) + 1 else 0
  {
    var now := set j | 0 <= j < i && clock[j] == clock[i];
    if i > 0 && clock[i - 1] == clock[i] {
      var before := set j | 0 <= j < i - 1 && clock[j] == clock[i - 1];
      assert now == before + {i - 1};
    } else {
      assert now == {};
    }
  }

  lemma {:induction false} CounterIsRank(clock: seq<int>, i: nat)
    requires ProperRun(clock) && i < |clock|
    ensures StateAfter(clock, i) == Clocked(clock[i], Wrap32(Rank(clock, i)))
  {
    hide Rank;
    RankStep(clock, i);
    if i > 0 {
      CounterIsRank(clock, i - 1);
    }
  }

  // The last k readings before call i, and no more, are the same as its own.
  ghost predicate IsStreak(clock: seq<int>, i: nat, k: nat)
    requires i < |clock|
  {
    k <= i && (forall j :: i - k <= j <= i ==> clock[j] == clock[i]) && (k < i ==> clock[i - k - 1] != clock[i])
  }

  // On any clock, whether it goes back or not, the counter is the number of calls in a row just
  // before that had the same reading.
  lemma {:induction false} CounterIsStreak(clock: seq<int>, i: nat) returns (k: nat)
    requires i < |clock| && clock[0] != 0
    ensures IsStreak(clock, i, k) && StateAfter(clock, i) == Clocked(clock[i], Wrap32(k))
  {
    if i == 0 || clock[i - 1] != clock[i] {
      k := 0;
      if i > 0 {
        var before := CounterIsStreak(clock, i - 1);
      }
    } else {
      var before := CounterIsStreak(clock, i - 1);
      k := before + 1;
      NextCount(before);
      hide Wrap32;
    }
  }

  lemma NextCount(k: nat)
    ensures Wrap32(Wrap32(k) + 1) == Wrap32(k + 1)
  {
    var q, r := k / 0x1_0000_0000, k % 0x1_0000_0000;
    assert k == 0x1_0000_0000 * q + r;
    if r + 1 == 0x1_0000_0000 {
      ModUnique(k + 1, 0x1_0000_0000, q + 1, 0);
    } else {
      ModUnique(k + 1, 0x1_0000_0000, q, r + 1);
    }
  }

  // Calls in one millisecond have consecutive ranks.
  lemma {:induction false} SameMillisecond(clock: seq<int>, i: nat, j: nat)
    requires NonDecreasing(clock) && i <= j < |clock| && clock[i] == clock[j]
    ensures Rank(clock, j) == Rank(clock, i) + (j - i)
    decreases j
  {
    if i < j {
      RankStep(clock, j);
      SameMillisecond(clock, i, j - 1);
    }
  }

  lemma {:induction false} RankReachesBack(clock: seq<int>, i: nat, k: nat)
    requires NonDecreasing(clock) && i < |clock| && k <= Rank(clock, i)
    ensures k <= i && clock[i - k] == clock[i] && Rank(clock, i - k) == Rank(clock, i) - k
    decreases k
  {
    if k > 0 {
      RankStep(clock, i);
      RankReachesBack(clock, i - 1, k - 1);
    }
  }

  lemma MaskTwice(a: nat)
    ensures Low12(Wrap32(a)) == a % 4096
  {
    var q, w := a / 0x1_0000_0000, Wrap32(a);
    var q', r := w / 4096, w % 4096;
    assert a == 0x1_0000_0000 * q + w && w == 4096 * q' + r;
    assert a == 4096 * (0x10_0000 * q + q') + r;
    hide Wrap32;
    ModUnique(a, 4096, 0x10_0000 * q + q', r);
  }

  lemma SameLowBits(a: nat, b: nat)
    ensures a % 4096 == b % 4096 <==> (a - b) % 4096 == 0
  {
    var qa, ra, qb, rb := a / 4096, a % 4096, b / 4096, b % 4096;
    assert a == 4096 * qa + ra && b == 4096 * qb + rb;
    var q := (a - b) / 4096;
    if (a - b) % 4096 == 0 {
      assert a - b == 4096 * q;
      assert ra - rb == 4096 * (q - qa + qb);
    }
    if ra == rb {
      assert a - b == 4096 * (qa - qb);
    }
  }

  lemma LowTwelveBits(a: nat, b: nat)
    ensures Low12(Wrap32(a)) == Low12(Wrap32(b)) <==> Low12(a - b) == 0
  {
    MaskTwice(a);
    MaskTwice(b);
    hide Wrap32;
    SameLowBits(a, b);
  }

  // The collision condition for absolute clock readings and unmasked counters.
  lemma ReadingsCoincide(machine: nat, u1: int, r1: nat, u2: int, r2: nat)
    requires Fields(u1 - TIME_OFFSET, machine, 0) && Fields(u2 - TIME_OFFSET, machine, 0)
    ensures IdOf(u1 - TIME_OFFSET, machine, Low12(Wrap32(r1))) == IdOf(u2 - TIME_OFFSET, machine, Low12(Wrap32(r2)))
       <==> PeriodDivides(u1 - u2) && Low12(r1 - r2) == 0
  {
    hide IdOf;
    var c1, c2 := Low12(Wrap32(r1)), Low12(Wrap32(r2));
    LowTwelveBits(r1, r2);
    SameMachineIdsCoincide(machine, u1 - TIME_OFFSET, c1, u2 - TIME_OFFSET, c2);
    assert (u1 - TIME_OFFSET) - (u2 - TIME_OFFSET) == u1 - u2;
  }

  lemma IdFromRank(clock: seq<int>, machine: nat, i: nat)
    requires ProperRun(clock) && i < |clock|
    ensures IdAt(clock, machine, i) == IdOf(clock[i] - TIME_OFFSET, machine, Low12(Wrap32(Rank(clock, i))))
  {
    hide IdOf;
    CounterIsRank(clock, i);
  }

  // The two calls fell on milliseconds a multiple of 3^16 apart, at ranks a multiple of 4096 apart.
  ghost predicate Coincide(clock: seq<int>, i: nat, j: nat)
    requires i < |clock| && j < |clock|
  {
    PeriodDivides(clock[i] - clock[j]) && Low12(Rank(clock, i) - Rank(clock, j)) == 0
  }

  // Exactly when two calls of a run return the same ID.
  lemma RunIdsCoincide(clock: seq<int>, machine: nat, i: nat, j: nat)
    requires ProperRun(clock) && machine < 1024 && i < |clock| && j < |clock|
    ensures IdAt(clock, machine, i) == IdAt(clock, machine, j) <==> Coincide(clock, i, j)
  {
    hide IdOf, IdAt;
    IdFromRank(clock, machine, i);
    IdFromRank(clock, machine, j);
    ReadingsCoincide(machine, clock[i], Rank(clock, i), clock[j], Rank(clock, j));
  }

  ghost predicate AllDistinct(clock: seq<int>, machine: nat) {
    forall i, j :: 0 <= i < j < |clock| ==> IdAt(clock, machine, i) != IdAt(clock, machine, j)
  }

  ghost predicate NoneCoincide(clock: seq<int>) {
    forall i, j :: 0 <= i < j < |clock| ==> !Coincide(clock, i, j)
  }

  lemma DistinctIff(clock: seq<int>, machine: nat)
    requires ProperRun(clock) && machine < 1024
    ensures AllDistinct(clock, machine) <==> NoneCoincide(clock)
  {
    hide IdAt, Coincide, ProperRun;
    forall i, j | 0 <= i < j < |clock|
      ensures IdAt(clock, machine, i) == IdAt(clock, machine, j) <==> Coincide(clock, i, j)
    {
      RunIdsCoincide(clock, machine, i, j);
    }
  }

  // At most 4096 calls fall into any one millisecond.
  ghost predicate Paced(clock: seq<int>) {
    forall i :: 0 <= i < |clock| ==> Rank(clock, i) < 4096
  }

  lemma PacedIff(clock: seq<int>)
    requires NonDecreasing(clock)
    requires forall i, j :: 0 <= i < |clock| && 0 <= j < |clock| ==> clock[i] - clock[j] < 43_046_721
    ensures NoneCoincide(clock) <==> Paced(clock)
  {
    if Paced(clock) {
      forall i, j | 0 <= i < j < |clock| ensures !Coincide(clock, i, j) {
        if clock[i] == clock[j] {
          SameMillisecond(clock, i, j);
        }
      }
    }
    if !Paced(clock) {
      var i :| 0 <= i < |clock| && Rank(clock, i) >= 4096;
      RankReachesBack(clock, i, 4096);
      assert Coincide(clock, i - 4096, i);
    }
  }

  // Over less than 3^16 ms, a run is free of duplicates exactly when no millisecond holds
  // more than 4096 calls.
  lemma RunIsUnique(clock: seq<int>, machine: nat)
    requires ProperRun(clock) && machine < 1024
    requires forall i, j :: 0 <= i < |clock| && 0 <= j < |clock| ==> clock[i] - clock[j] < 43_046_721
    ensures AllDistinct(clock, machine) <==> Paced(clock)
  {
    DistinctIff(clock, machine);
    PacedIff(clock);
  }

  // The span is tight as well: the first calls of two milliseconds 3^16 apart collide.
  lemma PeriodCollides(clock: seq<int>, machine: nat)
    requires ProperRun(clock) && machine < 1024
    requires |clock| == 2 && clock[1] == clock[0] + 43_046_721
    ensures !AllDistinct(clock, machine)
  {
    RankStep(clock, 0);
    RankStep(clock, 1);
    assert Coincide(clock, 0, 1);
    hide IdAt, Rank, Coincide, ProperRun;
    RunIdsCoincide(clock, machine, 0, 1);
  }

  // ---------------------------------------------------------------- several machines

  // The machines have different numbers, and no two readings of any two of them are further
  // apart than the safe window.
  ghost predicate Cluster(clocks: seq<seq<int>>, machines: seq<nat>) {
    && |clocks| == |machines|
    && (forall a :: 0 <= a < |machines| ==> machines[a] < 1024 && ProperRun(clocks[a]))
    && (forall a, b :: 0 <= a < b < |machines| ==> machines[a] != machines[b])
    && (forall a, b :: 0 <= a < |clocks| && 0 <= b < |clocks| ==> Near(clocks[a], clocks[b]))
  }

  ghost predicate Near(clock: seq<int>, other: seq<int>) {
    forall i, j :: 0 <= i < |clock| && 0 <= j < |other| ==> clock[i] - other[j] <= 672_604
  }

  ghost predicate NoneInCommon(clock: seq<int>, machine: nat, other: seq<int>, machine': nat) {
    forall i, j :: 0 <= i < |clock| && 0 <= j < |other| ==> IdAt(clock, machine, i) != IdAt(other, machine', j)
  }

  lemma MachinesDiffer(u: int, machine: nat, r: nat, u': int, machine': nat, r': nat)
    requires Fields(u - TIME_OFFSET, machine, 0) && Fields(u' - TIME_OFFSET, machine', 0) && machine != machine'
    requires -672_604 <= u - u' <= 672_604
    ensures IdOf(u - TIME_OFFSET, machine, Low12(r)) != IdOf(u' - TIME_OFFSET, machine', Low12(r'))
  {
    hide IdOf, Low12;
    if IdOf(u - TIME_OFFSET, machine, Low12(r)) == IdOf(u' - TIME_OFFSET, machine', Low12(r')) {
      SafeWindow(u - TIME_OFFSET, machine, Low12(r), u' - TIME_OFFSET, machine', Low12(r'));
    }
  }

  // Runs on different machines share no ID within the safe window, however many calls there are.
  lemma MachinesShareNoId(clock: seq<int>, machine: nat, other: seq<int>, machine': nat)
    requires ProperRun(clock) && ProperRun(other) && machine < 1024 && machine' < 1024 && machine != machine'
    requires Near(clock, other) && Near(other, clock)
    ensures NoneInCommon(clock, machine, other, machine')
  {
    hide IdOf, IdAt, Rank, Wrap32, Low12;
    forall i, j | 0 <= i < |clock| && 0 <= j < |other| ensures IdAt(clock, machine, i) != IdAt(other, machine', j) {
      IdFromRank(clock, machine, i);
      IdFromRank(other, machine', j);
      MachinesDiffer(clock[i], machine, Wrap32(Rank(clock, i)), other[j], machine', Wrap32(Rank(other, j)));
    }
  }

  ghost predicate AllMachinesDistinct(clocks: seq<seq<int>>, machines: seq<nat>)
    requires |clocks| == |machines|
  {
    && (forall a :: 0 <= a < |clocks| ==> AllDistinct(clocks[a], machines[a]))
    && (forall a, b :: 0 <= a < b < |clocks| ==> NoneInCommon(clocks[a], machines[a], clocks[b], machines[b]))
  }

  // So inside the window all IDs of all machines are different exactly when each machine is
  // paced: at most 4096 calls in any one millisecond.
  lemma ClusterIsUnique(clocks: seq<seq<int>>, machines: seq<nat>)
    requires Cluster(clocks, machines)
    ensures AllMachinesDistinct(clocks, machines) <==> forall a :: 0 <= a < |clocks| ==> Paced(clocks[a])
  {
    hide NoneInCommon, AllDistinct, Paced, ProperRun;
    forall a, b | 0 <= a < b < |clocks| ensures NoneInCommon(clocks[a], machines[a], clocks[b], machines[b]) {
      assert Near(clocks[a], clocks[b]) && Near(clocks[b], clocks[a]);
      MachinesShareNoId(clocks[a], machines[a], clocks[b], machines[b]);
    }
    forall a | 0 <= a < |clocks| ensures AllDistinct(clocks[a], machines[a]) <==> Paced(clocks[a]) {
      assert Near(clocks[a], clocks[a]);
      RunIsUnique(clocks[a], machines[a]);
    }
  }
}
