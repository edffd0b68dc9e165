/**
  Where a timer sits in the wheel. `PlaceOf` is what add_node computes from the expire time and the
  clock, both 32-bit numbers that wrap around; the lemmas follow the clock over one tick.
 */
module TimerPlace {

  const WRAP := 0x1_0000_0000

  /** A 32-bit unsigned number. */
  type uint32 = x: int | 0 <= x < WRAP

  const TIME_NEAR := 256
  const TIME_LEVEL := 64

  /** The longest timeout: the C parameter is an int. */
  const MAX_TIMEOUT := 0x7FFF_FFFF

  datatype Place = Near(idx: nat) | Level(level: nat, idx: nat)

  predicate IsPlace(p: Place) {
    if p.Near? then p.idx < TIME_NEAR else p.level < 4 && p.idx < TIME_LEVEL
  }

  /** TIME_NEAR << (level * TIME_LEVEL_SHIFT): the time one slot of a level stands for. */
  function Unit(level: nat): (u: nat)
    requires level < 4
    ensures u > 0
  {
    if level == 0 then 0x100 else if level == 1 then 0x4000 else if level == 2 then 0x10_0000 else 0x400_0000
  }

  /** a | b on unsigned numbers, digit by digit */
  function BitOr(a: nat, b: nat): nat {
    if a == 0 && b == 0 then 0 else (if a % 2 == 1 || b % 2 == 1 then 1 else 0) + 2 * BitOr(a / 2, b / 2)
  }

  function Power2(k: nat): (r: nat)
    ensures r > 0
  {
    if k == 0 then 1 else 2 * Power2(k - 1)
  }

  lemma {:induction false} OrNothing(a: nat)
    ensures BitOr(a, 0) == a
  {
    if a > 0 {
      OrNothing(a / 2);
    }
  }

  /** Or with a mask of the low `k` bits sets these and keeps the prefix. */
  lemma {:induction false} OrLowBits(a: nat, k: nat)
    ensures BitOr(a, Power2(k) - 1) == a / Power2(k) * Power2(k) + (Power2(k) - 1)
  {
    hide BitOr, Power2;
    PowerStep(k);
    if k == 0 {
      OrNothing(a);
    } else {
      var h := Power2(k - 1);
      OrOdd(a, h);
      OrLowBits(a / 2, k - 1);
      HalvesDivide(a, h);
      LowBitsAgain(a / 2 / h, h);
    }
  }

  lemma PowerStep(k: nat)
    ensures Power2(0) == 1 && (k > 0 ==> Power2(k) == 2 * Power2(k - 1))
  {
  }

  lemma OrOdd(a: nat, h: nat)
    requires h > 0
    ensures BitOr(a, 2 * h - 1) == 1 + 2 * BitOr(a / 2, h - 1)
  {
    assert (2 * h - 1) % 2 == 1 && (2 * h - 1) / 2 == h - 1;
  }

  lemma LowBitsAgain(q: nat, h: nat)
    requires h > 0
    ensures 1 + 2 * (q * h + (h - 1)) == q * (2 * h) + (2 * h - 1)
  {
    Doubled(q, h);
  }

  lemma HalvesDivide(a: nat, h: nat)
    requires h > 0
    ensures a / 2 / h == a / (2 * h)
  {
    var q, r := a / 2 / h, a / 2 % h;
    Division(a / 2, h);
    Doubled(q, h);
    assert a == q * (2 * h) + (2 * r + a % 2);
    DivisionIs(a, 2 * h, q, 2 * r + a % 2);
  }

  lemma Doubled(q: nat, h: nat)
    ensures 2 * (q * h) == q * (2 * h)
  {
  }

  lemma Units()
    ensures Unit(0) == Power2(8) && Unit(1) == Power2(14) && Unit(2) == Power2(20) && Unit(3) == Power2(26)
  {
    assert Power2(4) == 0x10 && Power2(8) == 0x100 && Power2(11) == 0x800 && Power2(14) == 0x4000;
    assert Power2(17) == 0x2_0000 && Power2(20) == 0x10_0000 && Power2(23) == 0x80_0000;
  }

  /** The comparison with the low bits set, (a | mask) == (b | mask), compares the slots of a level. */
  lemma MaskIsPrefix(a: nat, b: nat, level: nat)
    requires level < 4
    ensures BitOr(a, Unit(level) - 1) == BitOr(b, Unit(level) - 1) <==> Slot(a, level) == Slot(b, level)
  {
    var k := 8 + 6 * level;
    Units();
    assert Unit(level) == Power2(k);
    OrLowBits(a, k);
    OrLowBits(b, k);
    var u := Unit(level);
    if a / u * u + (u - 1) == b / u * u + (u - 1) {
      QuotientUnique(a / u, u - 1, b / u, u - 1, u);
    }
  }

  /** The quotient that names the slot of level `level` a time falls into. */
  function Slot(time: nat, level: nat): (q: nat)
    requires level < 4
  {
    time / Unit(level)
  }

  function PlaceOf(expire: nat, now: nat): (p: Place)
    ensures IsPlace(p)
  {
    if Slot(expire, 0) == Slot(now, 0) then Near(expire % TIME_NEAR)
    else if Slot(expire, 1) == Slot(now, 1) then Level(0, Slot(expire, 0) % TIME_LEVEL)
    else if Slot(expire, 2) == Slot(now, 2) then Level(1, Slot(expire, 1) % TIME_LEVEL)
    else if Slot(expire, 3) == Slot(now, 3) then Level(2, Slot(expire, 2) % TIME_LEVEL)
    else Level(3, Slot(expire, 3) % TIME_LEVEL)
  }

  /** Pending timers are due at most MAX_TIMEOUT ticks from now. */
  predicate Ahead(due: nat, now: nat) {
    now <= due <= now + MAX_TIMEOUT
  }

  // ----- wrap-around -----

  lemma MultiplesApart(q: nat, a: nat, u: nat)
    requires q > a
    ensures q * u >= a * u + u
  {
    var d := q - a - 1;
    assert q * u == (a + 1 + d) * u == a * u + u + d * u;
  }

  lemma QuotientUnique(q: nat, r: nat, a: nat, b: nat, u: nat)
    requires q * u + r == a * u + b && r < u && b < u
    ensures q == a && r == b
  {
    if q > a {
      MultiplesApart(q, a, u);
    } else if q < a {
      MultiplesApart(a, q, u);
    }
  }

  lemma Division(x: nat, u: nat)
    requires u > 0
    ensures x == (x / u) * u + x % u && x % u < u
  {
  }

  lemma DivisionIs(x: nat, u: nat, q: nat, r: nat)
    requires u > 0 && x == q * u + r && r < u
    ensures x / u == q && x % u == r
  {
    Division(x, u);
    QuotientUnique(x / u, x % u, q, r, u);
  }

  lemma Regroup(k: nat, m: nat, u: nat, c: nat, d: nat)
    ensures k * (u * m) + (c * u + d) == (k * m + c) * u + d
  {
    assert k * (u * m) == k * m * u;
  }

  lemma QuotientBound(c: nat, d: nat, u: nat, m: nat)
    requires c * u + d < u * m
    ensures c < m
  {
    if c > m {
      MultiplesApart(c, m, u);
    }
  }

  lemma WrapDivision(x: nat, u: nat, m: nat)
    requires u > 0 && m > 0 && u * m > 0
    ensures (x % (u * m)) / u == (x / u) % m
    ensures (x % (u * m)) % u == x % u
  {
    var w := u * m;
    Division(x, w);
    var k, r := x / w, x % w;
    Division(r, u);
    var c, d := r / u, r % u;
    QuotientBound(c, d, u, m);
    Regroup(k, m, u, c, d);
    DivisionIs(x, u, k * m + c, d);
    DivisionIs(k * m + c, m, k, c);
  }

  /** The slot of a wrapped time, modulo the number of slots up to the wrap. */
  lemma WrapSlot(x: nat, level: nat)
    requires level < 4
    ensures Slot(x % WRAP, level) == Slot(x, level) % (WRAP / Unit(level))
    ensures Slot(x % WRAP, level) % TIME_LEVEL == Slot(x, level) % TIME_LEVEL
    ensures (x % WRAP) % TIME_NEAR == x % TIME_NEAR
  {
    var u, m := Unit(level), WRAP / Unit(level);
    assert u * m == WRAP;
    WrapDivision(x, u, m);
    WrapDivision(Slot(x, level), TIME_LEVEL, m / TIME_LEVEL);
    WrapDivision(x, TIME_NEAR, WRAP / TIME_NEAR);
  }

  /** Numbers less than `m` apart with the same remainder are equal. */
  lemma SameRemainder(a: nat, b: nat, m: nat)
    requires m > 0 && b <= a < b + m && a % m == b % m
    ensures a == b
  {
    Division(a, m);
    Division(b, m);
    MultiplesNear(a / m, b / m, a % m, m);
  }

  lemma MultiplesNear(x: nat, y: nat, r: nat, m: nat)
    requires y * m + r <= x * m + r < y * m + r + m
    ensures x == y
  {
    if x > y {
      MultiplesApart(x, y, m);
    } else if x < y {
      MultiplesApart(y, x, m);
    }
  }

  /** For times less than half the clock apart, equal wrapped slots are equal slots. */
  lemma SameWrappedSlot(due: nat, now: nat, level: nat)
    requires level < 4 && Ahead(due, now)
    ensures Slot(due % WRAP, level) == Slot(now % WRAP, level) <==> Slot(due, level) == Slot(now, level)
  {
    WrapSlot(due, level);
    WrapSlot(now, level);
    var m := WRAP / Unit(level);
    if Slot(due, level) % m == Slot(now, level) % m {
      SlotSpan(due, now, level);
      SameRemainder(Slot(due, level), Slot(now, level), m);
    }
  }

  lemma SlotSpan(due: nat, now: nat, level: nat)
    requires level < 4 && Ahead(due, now)
    ensures Slot(now, level) <= Slot(due, level) < Slot(now, level) + WRAP / Unit(level)
  {
  }

  /** The place of a pending timer is the same seen on the wrapped clock and on the tick count. */
  lemma PlaceWraps(due: nat, now: nat)
    requires Ahead(due, now)
    ensures PlaceOf(due % WRAP, now % WRAP) == PlaceOf(due, now)
  {
    SameWrappedSlot(due, now, 0);
    SameWrappedSlot(due, now, 1);
    SameWrappedSlot(due, now, 2);
    SameWrappedSlot(due, now, 3);
    WrapSlot(due, 0);
    WrapSlot(due, 1);
    WrapSlot(due, 2);
    WrapSlot(due, 3);
  }

  // ----- the current slot -----

  /** The near slot under the clock holds the timers due now and no others. */
  lemma CurrentSlot(due: nat, now: nat)
    requires Ahead(due, now)
    ensures PlaceOf(due, now) == Near(now % TIME_NEAR) <==> due == now
  {
  }

  // ----- one tick -----

  /** The level whose list timer_shift moves when the clock comes to `now`; 4 if it moves none. */
  function MovedLevel(now: nat): nat {
    if now % Unit(0) != 0 then 4
    else if Slot(now, 0) % TIME_LEVEL != 0 then 0
    else if Slot(now, 1) % TIME_LEVEL != 0 then 1
    else if Slot(now, 2) % TIME_LEVEL != 0 then 2
    else 3
  }

  /** The list timer_shift moves when the clock comes to `now`. */
  function MovedPlace(now: nat): Place
    requires MovedLevel(now) < 4
  {
    Level(MovedLevel(now), Slot(now, MovedLevel(now)) % TIME_LEVEL)
  }

  /** Lower than `level`: the places a moved timer can go to. */
  predicate Below(p: Place, level: nat) {
    p.Near? || p.level < level
  }

  /** How the slots of the clock change with one tick. */
  lemma SlotStep(now: nat, level: nat)
    requires level < 4
    ensures Slot(now + 1, level) == Slot(now, level) + (if (now + 1) % Unit(level) == 0 then 1 else 0)
  {
  }

  /** The clock is at the start of a slot of a level if it is at the start of one below and that is the first. */
  lemma UnitStep(now: nat, level: nat)
    requires level < 3
    ensures now % Unit(level + 1) == 0 <==> now % Unit(level) == 0 && Slot(now, level) % TIME_LEVEL == 0
  {
    var u, v := Unit(level), Unit(level + 1);
    assert v == u * TIME_LEVEL;
    var c, d := now / u, now % u;
    var e, f := c / TIME_LEVEL, c % TIME_LEVEL;
    assert now == e * v + (f * u + d);
    assert f * u + d < v by {
      assert f <= 63;
      assert f * u <= 63 * u;
    }
    DivisionIs(now, v, e, f * u + d);
  }

  /** From the moved level down, every slot of the clock is new; above it none is. */
  lemma MovedSlots(now: nat, level: nat)
    requires level < 4
    ensures Slot(now + 1, level) == Slot(now, level) + (if MovedLevel(now + 1) < 4 && level <= MovedLevel(now + 1) then 1 else 0)
  {
    SlotStep(now, level);
    UnitStep(now + 1, 0);
    UnitStep(now + 1, 1);
    UnitStep(now + 1, 2);
  }

  /** A later time is in the same or a later slot. */
  lemma SlotMonotone(a: nat, b: nat, level: nat)
    requires level < 4 && a <= b
    ensures Slot(a, level) <= Slot(b, level)
  {
  }

  /** A slot of one level is a range of slots of the level below. */
  lemma SlotNest(a: nat, b: nat, level: nat)
    requires level < 3
    ensures Slot(a, level + 1) == Slot(a, level) / TIME_LEVEL
    ensures Slot(b, level + 1) == Slot(b, level) / TIME_LEVEL
    ensures Slot(a, level + 1) == Slot(b, level + 1) && Slot(a, level) % TIME_LEVEL == Slot(b, level) % TIME_LEVEL
            ==> Slot(a, level) == Slot(b, level)
  {
    NestOne(a, level);
    NestOne(b, level);
  }

  lemma NestOne(a: nat, level: nat)
    requires level < 3
    ensures Slot(a, level + 1) == Slot(a, level) / TIME_LEVEL
  {
  }

  /** When nothing is moved, no place changes. */
  lemma QuietTick(due: nat, now: nat)
    requires MovedLevel(now + 1) == 4
    ensures PlaceOf(due, now + 1) == PlaceOf(due, now)
  {
    MovedSlots(now, 0);
    MovedSlots(now, 1);
    MovedSlots(now, 2);
    MovedSlots(now, 3);
  }

  /** Before the tick, no pending timer sits below the moved level. */
  lemma NothingBelow(due: nat, now: nat)
    requires due > now && Ahead(due, now) && MovedLevel(now + 1) < 4
    ensures !Below(PlaceOf(due, now), MovedLevel(now + 1))
  {
    var m := MovedLevel(now + 1);
    SlotsAhead(due, now, 0);
    if m >= 1 { SlotsAhead(due, now, 1); }
    if m >= 2 { SlotsAhead(due, now, 2); }
    if m >= 3 { SlotsAhead(due, now, 3); }
  }

  lemma SlotsAhead(due: nat, now: nat, level: nat)
    requires due > now && MovedLevel(now + 1) < 4 && level <= MovedLevel(now + 1)
    ensures Slot(due, level) != Slot(now, level)
  {
    MovedSlots(now, level);
    SlotMonotone(now + 1, due, level);
  }

  /** A pending timer is in the moved list exactly if it is in the slot the clock comes to. */
  lemma InMovedList(due: nat, now: nat)
    requires due > now && Ahead(due, now) && MovedLevel(now + 1) < 4
    ensures PlaceOf(due, now) == MovedPlace(now + 1) <==> Slot(due, MovedLevel(now + 1)) == Slot(now + 1, MovedLevel(now + 1))
  {
    hide Slot, MovedLevel, Unit;
    var m := MovedLevel(now + 1);
    NothingBelow(due, now);
    SlotsAhead(due, now, m);
    if m < 3 {
      MovedSlots(now, m + 1);
      SlotNest(due, now + 1, m);
      PlaceAtLevel(due, now, m);
    } else {
      LevelThree(due, now);
    }
  }

  /** A timer that is not below a level sits on it exactly if it shares the next prefix. */
  lemma PlaceAtLevel(due: nat, now: nat, m: nat)
    requires m < 3 && !Below(PlaceOf(due, now), m) && Slot(due, m) != Slot(now, m)
    ensures PlaceOf(due, now).level == m <==> Slot(due, m + 1) == Slot(now, m + 1)
    ensures PlaceOf(due, now).level == m ==> PlaceOf(due, now).idx == Slot(due, m) % TIME_LEVEL
  {
  }

  /** Level 3 has twice the slots that a pending timer can be away. */
  lemma LevelThree(due: nat, now: nat)
    requires due > now && Ahead(due, now)
    ensures Slot(due, 3) % TIME_LEVEL == Slot(now + 1, 3) % TIME_LEVEL ==> Slot(due, 3) == Slot(now + 1, 3)
  {
    SlotMonotone(now + 1, due, 3);
    assert Slot(due, 3) <= Slot(now + 1, 3) + 32;
  }

  /** The tick leaves a timer that is not in the moved list where it is. */
  lemma UnmovedStays(due: nat, now: nat)
    requires due > now && Ahead(due, now) && MovedLevel(now + 1) < 4
    requires PlaceOf(due, now) != MovedPlace(now + 1)
    ensures PlaceOf(due, now + 1) == PlaceOf(due, now)
  {
    hide Slot, MovedLevel, Unit;
    var m := MovedLevel(now + 1);
    InMovedList(due, now);
    NothingBelow(due, now);
    MovedSlots(now, 0);
    MovedSlots(now, 1);
    MovedSlots(now, 2);
    MovedSlots(now, 3);
    if m >= 1 { SlotNest(due, now + 1, 0); }
    if m >= 2 { SlotNest(due, now + 1, 1); }
    if m >= 3 { SlotNest(due, now + 1, 2); }
  }

  /** The tick takes every timer of the moved list to a lower place. */
  lemma MovedGoesDown(due: nat, now: nat)
    requires due > now && Ahead(due, now) && MovedLevel(now + 1) < 4
    requires PlaceOf(due, now) == MovedPlace(now + 1)
    ensures Below(PlaceOf(due, now + 1), MovedLevel(now + 1))
  {
    InMovedList(due, now);
  }

  /**
    timer_shift moves exactly the list whose timers change place: a pending timer changes place
    with the tick if and only if it is in that list.
   */
  lemma ShiftIsExact(due: nat, now: nat)
    requires due > now && Ahead(due, now)
    ensures PlaceOf(due, now + 1) != PlaceOf(due, now) <==>
            MovedLevel(now + 1) < 4 && PlaceOf(due, now) == MovedPlace(now + 1)
  {
    if MovedLevel(now + 1) == 4 {
      QuietTick(due, now);
    } else if PlaceOf(due, now) == MovedPlace(now + 1) {
      MovedGoesDown(due, now);
    } else {
      UnmovedStays(due, now);
    }
  }
}
