// The short ID generator: a clock and a counter packed into 64 bits, of which eight base-36
// digits are kept.
module ShortId {
  import opened Bytes

  const ALPHABET: bytes := Ascii("0123456789abcdefghijklmnopqrstuvwxyz")
  const TIME_OFFSET: int := 1_735_689_600_000 // 2025-01-01T00:00:00Z in milliseconds

  // ---------------------------------------------------------------- the epoch

  predicate IsLeap(year: nat) {
    year % 4 == 0 && (year % 100 != 0 || year % 400 == 0)
  }

  // Days from the beginning of 1970 to the beginning of that year.
  function DaysBefore(year: nat): nat {
    if year <= 1970 then 0 else DaysBefore(year - 1) + (if IsLeap(year - 1) then 366 else 365)
  }

  lemma {:induction false} DaysAre(year: nat)
    requires 1970 <= year <= 2100
    ensures DaysBefore(year) == 365 * (year - 1970) + (year - 1969) / 4
  {
    if year > 1970 {
      DaysAre(year - 1);
    }
  }

  // The offset is the beginning of 2025, in milliseconds.
  lemma OffsetIsNewYear()
    ensures TIME_OFFSET == DaysBefore(2025) * 24 * 60 * 60 * 1000
  {
    DaysAre(2025);
  }

  // ---------------------------------------------------------------- machine integers

  function Wrap32(n: int): nat {
    n % 0x1_0000_0000
  }

  function Wrap64(n: int): nat {
    n % 0x1_0000_0000_0000_0000
  }

  function Low12(n: int): (r: nat)
    ensures r < 4096
  {
    n % 4096
  }

  // 36^8 = 2^16 * 3^16
  predicate BlockDivides(n: int) {
    n % 2_821_109_907_456 == 0
  }

  // 3^16
  predicate PeriodDivides(n: int) {
    n % 43_046_721 == 0
  }

  // ---------------------------------------------------------------- base 36

  predicate IsDigit(c: byte) {
    '0' as int <= c <= '9' as int || 'a' as int <= c <= 'z' as int
  }

  predicate AllDigits(s: bytes) {
    forall i :: 0 <= i < |s| ==> IsDigit(s[i])
  }

  function Digit(c: byte): (d: nat)
    requires IsDigit(c)
    ensures d < 36 && ALPHABET[d] == c
  {
    if c <= '9' as int then c - '0' as int else c - 'a' as int + 10
  }

  function Value(s: bytes): nat
    requires AllDigits(s)
  {
    if s == [] then 0 else Value(s[..|s| - 1]) * 36 + Digit(s[|s| - 1])
  }

  function DigitByte(d: nat): (c: byte)
    requires d < 36
    ensures IsDigit(c) && Digit(c) == d
  {
    ALPHABET[d]
  }

  // The k low base-36 digits of v, most significant first.
  function Encode(v: nat, k: nat): (s: bytes)
    ensures |s| == k && AllDigits(s)
  {
    if k == 0 then [] else Encode(v / 36, k - 1) + [DigitByte(v % 36)]
  }

  // What is left of v when only k digits are kept.
  function Residue(v: nat, k: nat): nat {
    if k == 0 then 0 else Residue(v / 36, k - 1) * 36 + v % 36
  }

  lemma {:induction false} EncodeValue(v: nat, k: nat)
    ensures Value(Encode(v, k)) == Residue(v, k)
  {
    if k > 0 {
      EncodeValue(v / 36, k - 1);
      assert Encode(v, k)[..k - 1] == Encode(v / 36, k - 1);
    }
  }

  lemma {:induction false} LessLast(a: bytes, x: byte, b: bytes, y: byte)
    requires |a| == |b|
    ensures Less(a + [x], b + [y]) <==> Less(a, b) || (a == b && x < y)
  {
    if a == [] {
      assert a + [x] == [x] && b + [y] == [y];
    } else {
      LessLast(a[1..], x, b[1..], y);
      assert (a + [x])[1..] == a[1..] + [x] && (b + [y])[1..] == b[1..] + [y];
      SameFromHead(a, b);
    }
  }

  lemma SameFromHead(a: bytes, b: bytes)
    requires a != [] && b != []
    ensures a == b <==> a[0] == b[0] && a[1..] == b[1..]
  {
    assert a == [a[0]] + a[1..] && b == [b[0]] + b[1..];
  }

  lemma {:induction false} LessIsNumeric(a: bytes, b: bytes)
    requires AllDigits(a) && AllDigits(b) && |a| == |b|
    ensures Less(a, b) <==> Value(a) < Value(b)
    ensures a == b <==> Value(a) == Value(b)
  {
    if a != [] {
      var n := |a| - 1;
      var a', b', x, y := a[..n], b[..n], a[n], b[n];
      assert a == a' + [x] && b == b' + [y];
      assert Value(a) == Value(a') * 36 + Digit(x) && Value(b) == Value(b') * 36 + Digit(y);
      hide Less, Value, Digit;
      LessIsNumeric(a', b');
      LessLast(a', x, b', y);
      DigitsAscend(x, y);
      assert a == b <==> a' == b' && x == y;
    }
  }

  lemma DigitsAscend(x: byte, y: byte)
    requires IsDigit(x) && IsDigit(y)
    ensures x < y <==> Digit(x) < Digit(y)
    ensures x == y <==> Digit(x) == Digit(y)
  {
  }

  lemma SameDigitsIff(a: nat, b: nat, k: nat)
    ensures Encode(a, k) == Encode(b, k) <==> Residue(a, k) == Residue(b, k)
    ensures Less(Encode(a, k), Encode(b, k)) <==> Residue(a, k) < Residue(b, k)
  {
    EncodeValue(a, k);
    EncodeValue(b, k);
    LessIsNumeric(Encode(a, k), Encode(b, k));
  }

  lemma {:induction false} MulStep(m: nat, a: int, b: int)
    requires a < b
    ensures m * a + m <= m * b
    decreases b - a
  {
    assert m * b == m * (b - 1) + m;
    if a + 1 < b {
      MulStep(m, a, b - 1);
    }
  }

  lemma ModUnique(v: nat, m: nat, q: nat, r: nat)
    requires m > 0 && r < m && v == m * q + r
    ensures v % m == r
  {
    var q', r' := v / m, v % m;
    assert v == m * q' + r';
    if q < q' {
      MulStep(m, q, q');
    } else if q' < q {
      MulStep(m, q', q);
    }
  }

  lemma Reassociate(p: nat, q: nat, r': nat, r: nat)
    ensures 36 * (p * q + r') + r == (36 * p) * q + (36 * r' + r)
  {
  }

  lemma Recompose(v: nat, p: nat)
    requires p > 0
    ensures (v / 36 % p) * 36 + v % 36 == v % (36 * p)
  {
    var q', r' := v / 36 / p, v / 36 % p;
    assert v / 36 == p * q' + r';
    Reassociate(p, q', r', v % 36);
    ModUnique(v, 36 * p, q', 36 * r' + v % 36);
  }

  lemma OneMoreDigit(v: nat, k: nat, p: nat)
    requires p > 0 && Residue(v / 36, k) == v / 36 % p
    ensures Residue(v, k + 1) == v % (36 * p)
  {
    Recompose(v, p);
  }

  // Eight digits keep the value modulo 36^8.
  lemma EightDigits(v: nat)
    ensures Residue(v, 8) == v % 2_821_109_907_456
  {
    hide Residue;
    var v1 := v / 36;
    var v2 := v1 / 36;
    var v3 := v2 / 36;
    var v4 := v3 / 36;
    var v5 := v4 / 36;
    var v6 := v5 / 36;
    var v7 := v6 / 36;
    OneDigit(v7);
    OneMoreDigit(v6, 1, 36);
    OneMoreDigit(v5, 2, 1_296);
    OneMoreDigit(v4, 3, 46_656);
    OneMoreDigit(v3, 4, 1_679_616);
    OneMoreDigit(v2, 5, 60_466_176);
    OneMoreDigit(v1, 6, 2_176_782_336);
    OneMoreDigit(v, 7, 78_364_164_096);
  }

  lemma OneDigit(v: nat)
    ensures Residue(v, 1) == v % 36
  {
  }

  // ---------------------------------------------------------------- packing

  // Bitwise or.
  function Or(a: nat, b: nat): nat
    decreases a + b
  {
    if a == 0 && b == 0 then 0 else 2 * Or(a / 2, b / 2) + (if a % 2 == 1 || b % 2 == 1 then 1 else 0)
  }

  // timestamp << 22 | machine << 12 | count, with the first shift truncated to 64 bits.
  function Pack(timestamp: int, machine: nat, count: nat): nat {
    Or(Or(Wrap64(timestamp * 0x40_0000), machine * 0x1000), count)
  }

  function Pow2(k: nat): (p: nat)
    ensures p > 0
  {
    if k == 0 then 1 else 2 * Pow2(k - 1)
  }

  lemma {:induction false} OrZero(a: nat)
    ensures Or(a, 0) == a
  {
    if a > 0 {
      OrZero(a / 2);
    }
  }

  lemma DoubleProduct(q: nat, p: nat)
    ensures q * (2 * p) == 2 * (q * p)
  {
  }

  // A multiple of 2^k and a number below 2^k have no bit in common.
  lemma {:induction false} OrDisjoint(q: nat, k: nat, b: nat)
    requires b < Pow2(k)
    ensures Or(q * Pow2(k), b) == q * Pow2(k) + b
  {
    var a := q * Pow2(k);
    if k == 0 {
      OrZero(a);
    } else {
      var half := q * Pow2(k - 1);
      DoubleProduct(q, Pow2(k - 1));
      OrDisjoint(q, k - 1, b / 2);
      assert a == 2 * half && a / 2 == half && a % 2 == 0;
      assert b == 2 * (b / 2) + b % 2;
    }
  }

  lemma ShiftedIs(t: int)
    ensures Wrap64(t * 0x40_0000) == (t % 0x400_0000_0000) * 0x40_0000
  {
    var q, r := t / 0x400_0000_0000, t % 0x400_0000_0000;
    assert t == 0x400_0000_0000 * q + r;
    assert t * 0x40_0000 == 0x1_0000_0000_0000_0000 * q + r * 0x40_0000;
  }

  // The three fields do not overlap, so the bitwise or is a sum.
  lemma PackIsSum(t: int, m: nat, c: nat)
    requires m < 1024 && c < 4096
    ensures Pack(t, m, c) == (t % 0x400_0000_0000) * 0x40_0000 + m * 0x1000 + c
  {
    var low := t % 0x400_0000_0000;
    ShiftedIs(t);
    assert Pow2(22) == 0x40_0000 && Pow2(12) == 0x1000;
    hide Or, Wrap64, Pow2;
    OrDisjoint(low, 22, m * 0x1000);
    OrDisjoint(low * 0x400 + m, 12, c);
    assert (low * 0x400 + m) * 0x1000 == low * 0x40_0000 + m * 0x1000;
  }

  function IdOf(timestamp: int, machine: nat, count: nat): bytes {
    Encode(Pack(timestamp, machine, count), 8)
  }

  predicate Fields(timestamp: int, machine: nat, count: nat) {
    0 <= timestamp < 0x400_0000_0000 && machine < 1024 && count < 4096
  }

  lemma PackInRange(t: int, m: nat, c: nat)
    requires Fields(t, m, c)
    ensures Pack(t, m, c) == t * 0x40_0000 + m * 0x1000 + c
  {
    hide Pack;
    PackIsSum(t, m, c);
    assert t % 0x400_0000_0000 == t;
  }

  // The shift keeps the low 42 bits of the timestamp, whatever its sign.
  lemma PackWraps(t: int, m: nat, c: nat)
    ensures Pack(t, m, c) == Pack(t % 0x400_0000_0000, m, c)
  {
    var low := t % 0x400_0000_0000;
    assert low % 0x400_0000_0000 == low;
    hide Or, Wrap64;
    ShiftedIs(t);
    ShiftedIs(low);
    assert Wrap64(t * 0x40_0000) == Wrap64(low * 0x40_0000);
  }

  lemma SameIdIff(a: nat, b: nat)
    ensures Encode(a, 8) == Encode(b, 8) <==> BlockDivides(a - b)
  {
    hide Encode, Residue;
    EightDigits(a);
    EightDigits(b);
    SameDigitsIff(a, b, 8);
    SameResidue(a, b);
  }

  lemma SameResidue(a: nat, b: nat)
    ensures a % 2_821_109_907_456 == b % 2_821_109_907_456 <==> BlockDivides(a - b)
  {
  }

  lemma CollisionDivides(dt: int, dm: int, dc: int)
    requires -1024 < dm < 1024 && -4096 < dc < 4096
    requires BlockDivides(dt * 0x40_0000 + dm * 0x1000 + dc)
    ensures dc == 0 && dm % 16 == 0 && PeriodDivides(64 * dt + dm / 16)
  {
    var d := dt * 0x40_0000 + dm * 0x1000 + dc;
    var k := d / 2_821_109_907_456;
    assert d == k * 2_821_109_907_456;
    assert dc == 0x1000 * (k * 688_747_536 - dt * 1024 - dm);
    assert dc == 0;
    var e := k * 43_046_721 - dt * 64;
    assert dm == 16 * e;
    assert 64 * dt + e == k * 43_046_721;
  }

  lemma DivisorCollides(dt: int, e: int)
    requires PeriodDivides(64 * dt + e)
    ensures BlockDivides(dt * 0x40_0000 + 16 * e * 0x1000)
  {
    var k := (64 * dt + e) / 43_046_721;
    assert 64 * dt + e == k * 43_046_721;
    assert dt * 0x40_0000 + 16 * e * 0x1000 == k * 2_821_109_907_456;
  }

  lemma DifferenceDivides(dt: int, dm: int, dc: int)
    requires -1024 < dm < 1024 && -4096 < dc < 4096
    ensures BlockDivides(dt * 0x40_0000 + dm * 0x1000 + dc) <==> dc == 0 && dm % 16 == 0 && PeriodDivides(64 * dt + dm / 16)
  {
    if BlockDivides(dt * 0x40_0000 + dm * 0x1000 + dc) {
      CollisionDivides(dt, dm, dc);
    }
    if dc == 0 && dm % 16 == 0 && PeriodDivides(64 * dt + dm / 16) {
      DivisorCollides(dt, dm / 16);
      assert 16 * (dm / 16) == dm;
    }
  }

  // Exactly when two IDs coincide.
  lemma IdsCoincide(t1: int, m1: nat, c1: nat, t2: int, m2: nat, c2: nat)
    requires Fields(t1, m1, c1) && Fields(t2, m2, c2)
    ensures IdOf(t1, m1, c1) == IdOf(t2, m2, c2) <==>
            c1 == c2 && (m1 - m2) % 16 == 0 && PeriodDivides(64 * (t1 - t2) + (m1 - m2) / 16)
  {
    hide Pack, Encode;
    PackInRange(t1, m1, c1);
    PackInRange(t2, m2, c2);
    SameIdIff(Pack(t1, m1, c1), Pack(t2, m2, c2));
    DifferenceDivides(t1 - t2, m1 - m2, c1 - c2);
  }

  // The same for timestamps of any size and sign: 42 bits of them count.
  lemma AnyIdsCoincide(t1: int, m1: nat, c1: nat, t2: int, m2: nat, c2: nat)
    requires m1 < 1024 && m2 < 1024 && c1 < 4096 && c2 < 4096
    ensures var d := t1 % 0x400_0000_0000 - t2 % 0x400_0000_0000;
            IdOf(t1, m1, c1) == IdOf(t2, m2, c2) <==> c1 == c2 && (m1 - m2) % 16 == 0 && PeriodDivides(64 * d + (m1 - m2) / 16)
  {
    hide Pack, Encode, PeriodDivides;
    PackWraps(t1, m1, c1);
    PackWraps(t2, m2, c2);
    IdsCoincide(t1 % 0x400_0000_0000, m1, c1, t2 % 0x400_0000_0000, m2, c2);
  }

  // Read as a base-36 number, an ID is the packed value modulo 36^8.
  lemma IdDecodes(t: int, m: nat, c: nat)
    ensures |IdOf(t, m, c)| == 8 && AllDigits(IdOf(t, m, c))
    ensures Value(IdOf(t, m, c)) == Pack(t, m, c) % 2_821_109_907_456
  {
    EncodeValue(Pack(t, m, c), 8);
    EightDigits(Pack(t, m, c));
    hide Encode, Value, Residue, Pack;
  }

  // 64 is invertible modulo 3^16.
  lemma SixtyFourIsUnit(d: int)
    ensures PeriodDivides(64 * d) <==> PeriodDivides(d)
  {
    if PeriodDivides(64 * d) {
      var k := 64 * d / 43_046_721;
      assert 64 * d == 43_046_721 * k;
      assert d == 43_046_721 * (42374116 * k - 63 * d);
    }
    if PeriodDivides(d) {
      var k := d / 43_046_721;
      assert 64 * d == 43_046_721 * (64 * k);
    }
  }

  lemma SameMachineIdsCoincide(m: nat, t1: int, c1: nat, t2: int, c2: nat)
    requires Fields(t1, m, c1) && Fields(t2, m, c2)
    ensures IdOf(t1, m, c1) == IdOf(t2, m, c2) <==> c1 == c2 && PeriodDivides(t1 - t2)
  {
    hide IdOf;
    IdsCoincide(t1, m, c1, t2, m, c2);
    SixtyFourIsUnit(t1 - t2);
  }

  // Within 672604 ms no two distinct triples collide, on any machines.
  lemma SafeWindow(t1: int, m1: nat, c1: nat, t2: int, m2: nat, c2: nat)
    requires Fields(t1, m1, c1) && Fields(t2, m2, c2)
    requires -672_604 <= t1 - t2 <= 672_604
    requires IdOf(t1, m1, c1) == IdOf(t2, m2, c2)
    ensures t1 == t2 && m1 == m2 && c1 == c2
  {
    hide IdOf;
    IdsCoincide(t1, m1, c1, t2, m2, c2);
    SmallDifference(t1 - t2, m1 - m2);
  }

  lemma SmallDifference(dt: int, dm: int)
    requires -672_604 <= dt <= 672_604 && -1024 < dm < 1024
    ensures dm % 16 == 0 && PeriodDivides(64 * dt + dm / 16) ==> dt == 0 && dm == 0
  {
  }

  // One millisecond further they do.
  lemma SafeWindowIsTight(t: int, m: nat, c: nat)
    requires Fields(t, m, c) && Fields(t + 672_605, m + 16, c)
    ensures IdOf(t, m, c) == IdOf(t + 672_605, m + 16, c)
  {
    hide IdOf;
    IdsCoincide(t, m, c, t + 672_605, m + 16, c);
  }

  predicate TripleLess(t1: int, m1: nat, c1: nat, t2: int, m2: nat, c2: nat) {
    t1 < t2 || (t1 == t2 && (m1 < m2 || (m1 == m2 && c1 < c2)))
  }

  // Inside one block of 36^8 packed values, string order is the order of (time, machine, count).
  lemma OrderInBlock(t1: int, m1: nat, c1: nat, t2: int, m2: nat, c2: nat)
    requires Fields(t1, m1, c1) && Fields(t2, m2, c2)
    requires Pack(t1, m1, c1) / 2_821_109_907_456 == Pack(t2, m2, c2) / 2_821_109_907_456
    ensures Less(IdOf(t1, m1, c1), IdOf(t2, m2, c2)) <==> TripleLess(t1, m1, c1, t2, m2, c2)
  {
    PackInRange(t1, m1, c1);
    PackInRange(t2, m2, c2);
    hide Encode, Residue;
    EightDigits(Pack(t1, m1, c1));
    EightDigits(Pack(t2, m2, c2));
    SameDigitsIff(Pack(t1, m1, c1), Pack(t2, m2, c2), 8);
  }
}
