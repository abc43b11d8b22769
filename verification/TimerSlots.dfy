/**
 Where a node of the timing wheel belongs: the slots that `add_node` of `skynet_timer.c` chooses, and what the tick of
 the 32-bit clock does to that choice.
 */
module TimerSlots {

  const NEAR := 256
  const LEVEL := 64
  const WRAP := 0x1_0000_0000
  const HALF := 0x8000_0000

  predicate IsTime(c: int) { 0 <= c < WRAP }

  /** Ticks until the clock, at `c`, shows `e`. */
  function Remaining(e: int, c: int): int { (e - c) % WRAP }

  function Tick(c: int): int { (c + 1) % WRAP }

  /** The span of a slot of `T->t[i]` */
  function Span(i: nat): nat
    requires i <= 4
  {
    match i
    case 0 => 0x100
    case 1 => 0x4000
    case 2 => 0x10_0000
    case 3 => 0x400_0000
    case 4 => 0x1_0000_0000
  }

  /** The test by masks compares what is left of the masked bits. */
  lemma MaskIsShift(x: bv32, y: bv32)
    ensures (x | 0xFF) == (y | 0xFF) <==> x >> 8 == y >> 8
    ensures (x | 0x3FFF) == (y | 0x3FFF) <==> x >> 14 == y >> 14
    ensures (x | 0xF_FFFF) == (y | 0xF_FFFF) <==> x >> 20 == y >> 20
    ensures (x | 0x3FF_FFFF) == (y | 0x3FF_FFFF) <==> x >> 26 == y >> 26
  {
  }

  /** Both times lie in the same block of a span. */
  predicate Same(e: int, c: int, i: nat)
    requires i < 4
  {
    e / Span(i) == c / Span(i)
  }

  /** The list `T->t[i][k]`, behind the 256 near lists. */
  function Far(i: nat, k: int): int { NEAR + LEVEL * i + k }

  function Digit(e: int, i: nat): int
    requires i < 4
  {
    (e / Span(i)) % LEVEL
  }

  /** `add_node`: the list for a node that expires at `e`, when the clock shows `c`. */
  function SlotOf(e: int, c: int): (s: int)
    requires IsTime(e) && IsTime(c)
    ensures 0 <= s < 512
  {
    if Same(e, c, 0) then e % NEAR
    else if Same(e, c, 1) then Far(0, Digit(e, 0))
    else if Same(e, c, 2) then Far(1, Digit(e, 1))
    else if Same(e, c, 3) then Far(2, Digit(e, 2))
    else Far(3, Digit(e, 3))
  }

  /** The list that `timer_shift` empties when the clock comes to `ct`, from level `i` on; -1 for none. */
  function MovedFrom(ct: int, i: nat): int
    requires IsTime(ct) && i <= 4
    decreases 4 - i
  {
    if i == 4 || ct % Span(i) != 0 then -1
    else if Digit(ct, i) != 0 then Far(i, Digit(ct, i))
    else MovedFrom(ct, i + 1)
  }

  function Moved(ct: int): int
    requires IsTime(ct)
  {
    if ct == 0 then Far(3, 0) else MovedFrom(ct, 0)
  }

  // ----- the clock and the blocks -----

  /** Inside a block the clock stays in it. */
  lemma TickInside(c: int, i: nat)
    requires IsTime(c) && i < 4 && Tick(c) % Span(i) != 0
    ensures Tick(c) / Span(i) == c / Span(i)
  {
    match i case 0 => case 1 => case 2 => case 3 =>
  }

  /** A pending node is not in the block that the clock leaves. */
  lemma LeftBlock(e: int, c: int, i: nat)
    requires IsTime(e) && IsTime(c) && i < 4 && Tick(c) % Span(i) == 0 && 1 <= Remaining(e, c) < HALF
    ensures !Same(e, c, i)
  {
    assert e > c || e + HALF < c;
    if e > c {
      BlockEnds(e, c, i);
    } else {
      FarApart(e, c, i);
    }
  }

  lemma BlockEnds(e: int, c: int, i: nat)
    requires 0 <= c < e < WRAP && i < 4 && (c + 1) % Span(i) == 0
    ensures e / Span(i) != c / Span(i)
  {
    var k := (c + 1) / Span(i);
    assert c + 1 == Span(i) * k;
    match i case 0 => case 1 => case 2 => case 3 =>
  }

  lemma FarApart(e: int, c: int, i: nat)
    requires 0 <= e && i < 4 && e + HALF < c
    ensures e / Span(i) != c / Span(i)
  {
    match i case 0 => case 1 => case 2 => case 3 =>
  }

  /** Whoever shares a block shares the larger one around it. */
  lemma SameUp(e: int, c: int, i: nat)
    requires IsTime(e) && IsTime(c) && i < 3 && Same(e, c, i)
    ensures Same(e, c, i + 1)
  {
    Nested(e, i);
    Nested(c, i);
  }

  lemma Nested(e: int, i: nat)
    requires IsTime(e) && i < 3
    ensures e / Span(i + 1) == (e / Span(i)) / LEVEL
  {
    match i case 0 => case 1 => case 2 =>
  }

  /** The same block is the same larger block and the same digit. */
  lemma SameByDigit(e: int, c: int, i: nat)
    requires IsTime(e) && IsTime(c) && i < 4
    ensures Same(e, c, i) <==> (i == 3 || Same(e, c, i + 1)) && Digit(e, i) == Digit(c, i)
  {
    if i < 3 {
      Nested(e, i);
      Nested(c, i);
    }
  }

  /** A digit other than zero means that the next larger block has not been left. */
  lemma DigitInside(ct: int, i: nat)
    requires IsTime(ct) && i < 3 && Digit(ct, i) != 0
    ensures ct % Span(i + 1) != 0
  {
    match i case 0 => case 1 => case 2 =>
  }

  lemma DigitZero(ct: int, i: nat)
    requires IsTime(ct) && i < 4 && ct % Span(i) == 0 && Digit(ct, i) == 0
    ensures if i < 3 then ct % Span(i + 1) == 0 else ct == 0
  {
    match i case 0 => case 1 => case 2 => case 3 =>
  }

  lemma MultipleDown(ct: int, i: nat)
    requires IsTime(ct) && i < 3 && ct % Span(i + 1) == 0
    ensures ct % Span(i) == 0
  {
    var k := ct / Span(i + 1);
    assert ct == Span(i + 1) * k;
    match i
    case 0 => assert ct == 0x100 * (64 * k);
    case 1 => assert ct == 0x4000 * (64 * k);
    case 2 => assert ct == 0x10_0000 * (64 * k);
  }

  lemma {:induction false} NotMultiple(ct: int, i: nat, k: nat)
    requires IsTime(ct) && i <= k < 4 && ct % Span(i) != 0
    ensures ct % Span(k) != 0
  {
    if i < k {
      NotMultiple(ct, i, k - 1);
      if ct % Span(k) == 0 { MultipleDown(ct, k - 1); }
    }
  }

  lemma {:induction false} ApartDown(e: int, c: int, i: nat, k: nat)
    requires IsTime(e) && IsTime(c) && k <= i < 4 && !Same(e, c, i)
    ensures !Same(e, c, k)
  {
    if k < i {
      if Same(e, c, i - 1) { SameUp(e, c, i - 1); }
      ApartDown(e, c, i - 1, k);
    }
  }

  // ----- the wheel keeps up with the clock -----

  /** Blocks from level `i` on are the same before and after the tick. */
  lemma InsideFrom(e: int, c: int, i: nat)
    requires IsTime(e) && IsTime(c) && i < 4 && Tick(c) % Span(i) != 0
    ensures forall k: nat :: i <= k < 4 ==> Same(e, c, k) == Same(e, Tick(c), k)
  {
    forall k: nat | i <= k < 4 ensures Same(e, c, k) == Same(e, Tick(c), k) {
      NotMultiple(Tick(c), i, k);
      TickInside(c, k);
    }
  }

  /** A slot is determined by the blocks that two times share. */
  lemma SlotBySame(e: int, c: int, ct: int)
    requires IsTime(e) && IsTime(c) && IsTime(ct) && forall k: nat :: k < 4 ==> Same(e, c, k) == Same(e, ct, k)
    ensures SlotOf(e, c) == SlotOf(e, ct)
  {
    assert Same(e, c, 0) == Same(e, ct, 0) && Same(e, c, 1) == Same(e, ct, 1);
    assert Same(e, c, 2) == Same(e, ct, 2) && Same(e, c, 3) == Same(e, ct, 3);
  }

  /** The node is at the level above `i`, in the list that the clock has come to. */
  lemma SlotAbove(e: int, c: int, i: nat)
    requires IsTime(e) && IsTime(c) && i < 4 && !Same(e, c, i) && (i == 3 || Same(e, c, i + 1))
    ensures SlotOf(e, c) == Far(i, Digit(e, i))
  {
    ApartDown(e, c, i, 0);
    if i >= 1 { ApartDown(e, c, i, 1); }
    if i >= 2 { ApartDown(e, c, i, 2); }
  }

  /** At the level where the clock moves on by a digit. */
  lemma StableAt(e: int, c: int, i: nat)
    requires IsTime(e) && IsTime(c) && i < 4 && 1 <= Remaining(e, c) < HALF
    requires Tick(c) % Span(i) == 0 && (i == 3 || Tick(c) % Span(i + 1) != 0)
    ensures Far(i, Digit(Tick(c), i)) == SlotOf(e, c) || SlotOf(e, Tick(c)) == SlotOf(e, c)
  {
    var ct := Tick(c);
    LeftBlock(e, c, i);
    if i < 3 { InsideFrom(e, c, i + 1); }
    SameByDigit(e, ct, i);
    if Same(e, ct, i) {
      SlotAbove(e, c, i);
    } else {
      forall k: nat | k < 4 ensures Same(e, c, k) == Same(e, ct, k) {
        if k <= i {
          ApartDown(e, c, i, k);
          ApartDown(e, ct, i, k);
        }
      }
      SlotBySame(e, c, ct);
    }
  }

  lemma {:induction false} StableFrom(e: int, c: int, i: nat)
    requires IsTime(e) && IsTime(c) && i < 4 && 1 <= Remaining(e, c) < HALF && Tick(c) != 0 && Tick(c) % Span(i) == 0
    ensures MovedFrom(Tick(c), i) == SlotOf(e, c) || SlotOf(e, Tick(c)) == SlotOf(e, c)
    decreases 4 - i
  {
    var ct := Tick(c);
    if Digit(ct, i) != 0 {
      if i < 3 { DigitInside(ct, i); }
      StableAt(e, c, i);
    } else {
      DigitZero(ct, i);
      if i < 3 { StableFrom(e, c, i + 1); }
    }
  }

  /** A pending node is in the list that gets moved, or stands where `add_node` would put it after the tick. */
  lemma Stable(e: int, c: int)
    requires IsTime(e) && IsTime(c) && 1 <= Remaining(e, c) < HALF
    ensures Moved(Tick(c)) == SlotOf(e, c) || SlotOf(e, Tick(c)) == SlotOf(e, c)
  {
    var ct := Tick(c);
    if ct == 0 {
      StableAt(e, c, 3);
    } else if ct % Span(0) != 0 {
      InsideFrom(e, c, 0);
      SlotBySame(e, c, ct);
    } else {
      StableFrom(e, c, 0);
    }
  }

  /** The near list of the present holds the nodes that expire now, and no others. */
  lemma DueNow(e: int, c: int)
    requires IsTime(e) && IsTime(c)
    ensures SlotOf(e, c) == c % NEAR <==> e == c
  {
  }

  lemma MovedRange(ct: int, i: nat)
    requires IsTime(ct) && i <= 4
    ensures -1 <= MovedFrom(ct, i) < 512 && (MovedFrom(ct, i) >= 0 ==> MovedFrom(ct, i) >= NEAR)
    decreases 4 - i
  {
  }

  lemma NotNow(e: int, c: int)
    requires IsTime(e) && IsTime(c) && e != c
    ensures Remaining(e, c) >= 1
  {
  }

  lemma WrapAdd(now: nat, delay: nat)
    ensures (delay + now % WRAP) % WRAP == (now + delay) % WRAP
  {
    var q := now / WRAP;
    assert now == WRAP * q + now % WRAP;
    assert now + delay == WRAP * q + (delay + now % WRAP);
  }

  /** A tick brings every pending node one nearer. */
  lemma RemainingTick(e: int, c: int)
    requires IsTime(e) && IsTime(c) && Remaining(e, c) >= 1
    ensures Remaining(e, Tick(c)) == Remaining(e, c) - 1
  {
  }

  /** `timer_shift` looks one level up; a clock other than zero has a digit before the levels run out. */
  lemma NextLevel(ct: int, i: nat)
    requires IsTime(ct) && ct != 0 && i < 4 && ct % Span(i) == 0 && Digit(ct, i) == 0
    ensures i < 3 && Span(i + 1) == Span(i) * LEVEL && ct / Span(i + 1) == (ct / Span(i)) / LEVEL
    ensures MovedFrom(ct, i) == MovedFrom(ct, i + 1)
  {
    DigitZero(ct, i);
    Nested(ct, i);
  }
}
