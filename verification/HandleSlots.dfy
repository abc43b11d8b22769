/**
 The slots of `skynet_handle.c`: a table of contexts by the low bits of their handles, doubled when it is full.
 */
module HandleSlots {

  import opened Arithmetic
  import opened Sets

  const MODULUS := 0x100_0000   // `HANDLE_MASK + 1`

  lemma TwoTo24()
    ensures Power(2, 24) == MODULUS
  {
    assert Power(2, 3) == 8;
    PowerAdd(2, 3, 3);
    PowerAdd(2, 6, 6);
    PowerAdd(2, 12, 12);
  }

  // ----- remainders -----

  /** A remainder modulo a multiple keeps the remainder. */
  lemma ModMod(x: int, n: int, q: int)
    requires n > 0 && q > 0
    ensures n * q > 0 && (x % (n * q)) % n == x % n
  {
    assert n * q > 0;
    var m := n * q;
    var y := x % m;
    assert x == m * (x / m) + y;
    var a, r := y / n, y % n;
    assert y == n * a + r;
    Assoc(n, q, x / m);
    Distrib(q * (x / m), a, n);
    DivUnique(x, n, q * (x / m) + a, r);
  }

  /** The size of the table divides the number of handles. */
  ghost predicate SizeOk(n: int) { exists k: nat :: k <= 24 && n == Power(2, k) }

  lemma SizeDivides(n: int)
    requires SizeOk(n)
    ensures n > 0 && exists q :: q > 0 && n * q == MODULUS
  {
    var k: nat :| k <= 24 && n == Power(2, k);
    PowerAdd(2, k, 24 - k);
    TwoTo24();
    assert n * Power(2, 24 - k) == MODULUS;
  }

  lemma SizeBound(k: nat)
    requires k <= 24
    ensures Power(2, k) <= MODULUS
  {
    PowerAdd(2, k, 24 - k);
    TwoTo24();
    MulMono(1, Power(2, 24 - k), Power(2, k));
  }

  lemma SizeDoubles(n: int)
    requires SizeOk(n) && n != MODULUS
    ensures SizeOk(2 * n) && 2 * n - 1 <= MODULUS - 1
  {
    var k: nat :| k <= 24 && n == Power(2, k);
    TwoTo24();
    assert k < 24;
    assert 2 * n == Power(2, k + 1);
    SizeBound(k + 1);
  }

  /** The slot of a handle does not depend on the harbor, nor on the wrap of the counter. */
  lemma SlotOfHandle(i: nat, harbor: nat, n: int)
    requires SizeOk(n) && harbor % MODULUS == 0
    ensures n > 0 && (i % MODULUS + harbor) % n == i % n
  {
    SizeDivides(n);
    var q :| q > 0 && n * q == MODULUS;
    ModMod(i, n, q);
    AddMultiple(i % MODULUS, n, q * (harbor / MODULUS));
    Assoc(n, q, harbor / MODULUS);
  }

  lemma AddMultiple(y: int, n: int, a: int)
    requires n > 0
    ensures (y + n * a) % n == y % n
  {
    Distrib(y / n, a, n);
    DivUnique(y + n * a, n, y / n + a, y % n);
  }

  /** Handles that differ in the smaller table differ in the larger one. */
  lemma HalfMod(h: int, n: int)
    requires n > 0
    ensures (h % (2 * n)) % n == h % n
  {
    ModMod(h, n, 2);
  }

  /** Consecutive numbers, as many as there are slots, reach every slot. */
  lemma Reaches(index: nat, n: int, j: int) returns (i: nat)
    requires n > 0 && 0 <= j < n
    ensures i < n && (i + index) % n == j
  {
    i := (j - index) % n;
    var q := (j - index) / n;
    assert j - index == n * q + i;
    DivUnique(i + index, n, -q, j);
  }

  // ----- the table -----

  datatype Slot = Empty | Holds(handle: nat)

  /** Every context is at the slot of its handle. */
  ghost predicate Placed(slots: seq<Slot>) {
    |slots| > 0 && forall i :: 0 <= i < |slots| && slots[i].Holds? ==> slots[i].handle % |slots| == i
  }

  predicate Found(slots: seq<Slot>, h: nat)
    requires |slots| > 0
  {
    slots[h % |slots|] == Holds(h)
  }

  /** The live handles, as a set. */
  ghost predicate Represents(slots: seq<Slot>, live: set<nat>) {
    Placed(slots) && forall h: nat :: h in live <==> Found(slots, h)
  }

  lemma PlacedFound(slots: seq<Slot>, i: nat)
    requires Placed(slots) && i < |slots| && slots[i].Holds?
    ensures Found(slots, slots[i].handle)
  {
  }

  /** The slot of the `k`-th handle from the counter on. */
  function Probe(index: nat, k: nat, n: int): (j: int)
    requires n > 0
    ensures 0 <= j < n
  {
    (k + index) % n
  }

  ghost predicate TakenFrom(slots: seq<Slot>, index: nat, i: nat) {
    |slots| > 0 && forall k: nat :: k < i ==> slots[Probe(index, k, |slots|)].Holds?
  }

  lemma AllTaken(slots: seq<Slot>, index: nat)
    requires TakenFrom(slots, index, |slots|)
    ensures forall j :: 0 <= j < |slots| ==> slots[j].Holds?
  {
    forall j | 0 <= j < |slots| ensures slots[j].Holds? {
      var k := Reaches(index, |slots|, j);
      assert Probe(index, k, |slots|) == j;
    }
  }

  lemma TakenOn(slots: seq<Slot>, index: nat, i: nat)
    requires TakenFrom(slots, index, i) && slots[Probe(index, i, |slots|)].Holds?
    ensures TakenFrom(slots, index, i + 1)
  {
  }

  /** A full table has as many live handles as slots. */
  lemma {:induction false} FullCount(slots: seq<Slot>, k: nat) returns (s: set<nat>)
    requires Placed(slots) && k <= |slots| && forall i :: 0 <= i < |slots| ==> slots[i].Holds?
    ensures |s| == k && forall h :: h in s <==> exists i :: 0 <= i < k && slots[i].handle == h
  {
    s := {};
    if k > 0 {
      var t := FullCount(slots, k - 1);
      var h := slots[k - 1].handle;
      assert h % |slots| == k - 1;
      assert forall i :: 0 <= i < k - 1 ==> slots[i].handle % |slots| == i;
      assert h !in t;
      s := t + {h};
    }
  }

  /** A full table has exactly as many live handles as slots. */
  lemma FullMeansMany(slots: seq<Slot>, live: set<nat>)
    requires Represents(slots, live) && forall i :: 0 <= i < |slots| ==> slots[i].Holds?
    ensures |live| == |slots|
  {
    var s := FullCount(slots, |slots|);
    forall h | h in s ensures h in live {
      var i :| 0 <= i < |slots| && slots[i].handle == h;
      PlacedFound(slots, i);
    }
    forall h | h in live ensures h in s {
      assert Found(slots, h);
    }
    assert s == live;
  }

  // ----- which handle comes next -----

  /** Some live handle has the slot of `x` in a table of size `n`. */
  ghost predicate Occupied(live: set<nat>, n: int, x: nat)
    requires n > 0
  {
    exists g :: g in live && g % n == x % n
  }

  lemma SlotOccupied(slots: seq<Slot>, live: set<nat>, x: nat)
    requires Represents(slots, live)
    ensures slots[x % |slots|].Holds? <==> Occupied(live, |slots|, x)
  {
    var j := x % |slots|;
    if slots[j].Holds? {
      PlacedFound(slots, j);
      assert slots[j].handle in live && slots[j].handle % |slots| == j;
    }
    if g :| g in live && g % |slots| == j { assert Found(slots, g); }
  }

  /** Handle number `i` from the counter on is the first one whose slot is free. */
  ghost predicate FirstFree(live: set<nat>, n: int, index: nat, i: nat)
    requires n > 0
  {
    i < n && !Occupied(live, n, i + index) && forall x: nat :: index <= x < i + index ==> Occupied(live, n, x)
  }

  lemma FirstFreeOne(live: set<nat>, n: int, index: nat, i: nat, j: nat)
    requires n > 0 && FirstFree(live, n, index, i) && FirstFree(live, n, index, j)
    ensures i == j
  {
  }

  lemma FoundFree(slots: seq<Slot>, live: set<nat>, index: nat, i: nat)
    requires Represents(slots, live) && TakenFrom(slots, index, i) && i < |slots| && slots[Probe(index, i, |slots|)] == Empty
    ensures FirstFree(live, |slots|, index, i)
  {
    SlotOccupied(slots, live, i + index);
    forall x: nat | index <= x < i + index ensures Occupied(live, |slots|, x) {
      assert slots[Probe(index, x - index, |slots|)].Holds?;
      SlotOccupied(slots, live, x);
    }
  }

  /** Every slot of a table of size `n` is occupied. */
  ghost predicate Full(live: set<nat>, n: int)
    requires n > 0
  {
    forall x: nat :: x < n ==> Occupied(live, n, x)
  }

  lemma FullSlots(slots: seq<Slot>, live: set<nat>)
    requires Represents(slots, live)
    ensures Full(live, |slots|) <==> forall i :: 0 <= i < |slots| ==> slots[i].Holds?
  {
    forall x: nat | x < |slots| ensures slots[x].Holds? <==> Occupied(live, |slots|, x) { SlotOccupied(slots, live, x); }
  }

  /** A free slot in the search means a table that is not full. */
  lemma FreeNotFull(slots: seq<Slot>, live: set<nat>, index: nat, i: nat)
    requires Represents(slots, live) && slots[Probe(index, i, |slots|)] == Empty
    ensures !Full(live, |slots|)
  {
    FullSlots(slots, live);
  }

  /** The table in which the next registration finds a slot. */
  ghost function TableSize(live: set<nat>, n: int): (m: int)
    requires n > 0
    ensures m > 0
  {
    if Full(live, n) then 2 * n else n
  }

  /**
   The next registration wraps around onto zero: every handle from the counter up to the last one has its slot
   occupied, and slot zero is free.
   */
  ghost predicate WrapsToZero(live: set<nat>, n: int, index: nat)
    requires n > 0
  {
    && MODULUS - n < index <= MODULUS && !Occupied(live, n, 0)
    && forall x: nat :: index <= x < MODULUS ==> Occupied(live, n, x)
  }

  lemma OccupiedWraps(live: set<nat>, n: int)
    requires SizeOk(n)
    ensures n > 0 && (Occupied(live, n, MODULUS) <==> Occupied(live, n, 0))
  {
    SlotOfHandle(MODULUS, 0, n);
    SlotOfHandle(0, 0, n);
    assert MODULUS % n == 0;
  }

  lemma WrapIsChoice(live: set<nat>, n: int, index: nat)
    requires SizeOk(n) && 1 <= index <= MODULUS
    ensures n > 0 && (WrapsToZero(live, n, index) <==> FirstFree(live, n, index, MODULUS - index))
  {
    OccupiedWraps(live, n);
  }

  /** The local part of the handle is zero exactly for the one place where the counter wraps. */
  lemma ZeroPlace(index: nat, i: nat)
    requires 1 <= index <= MODULUS && i < MODULUS
    ensures (i + index) % MODULUS == 0 <==> i == MODULUS - index
  {
  }

  lemma ZeroExactly(live: set<nat>, n: int, index: nat, i: nat)
    requires SizeOk(n) && n > 0 && n <= MODULUS && 1 <= index <= MODULUS && FirstFree(live, n, index, i)
    ensures (i + index) % MODULUS == 0 <==> WrapsToZero(live, n, index)
  {
    ZeroPlace(index, i);
    WrapIsChoice(live, n, index);
    if WrapsToZero(live, n, index) { FirstFreeOne(live, n, index, i, MODULUS - index); }
  }

  lemma StoreRepresents(slots: seq<Slot>, live: set<nat>, h: nat)
    requires Represents(slots, live) && slots[h % |slots|] == Empty
    ensures h !in live && Represents(slots[h % |slots| := Holds(h)], live + {h})
  {
    var t := slots[h % |slots| := Holds(h)];
    forall g: nat ensures g in live + {h} <==> Found(t, g) {
      assert g in live <==> Found(slots, g);
    }
  }

  lemma ClearRepresents(slots: seq<Slot>, live: set<nat>, h: nat)
    requires Represents(slots, live) && Found(slots, h)
    ensures h in live && Represents(slots[h % |slots| := Empty], live - {h})
  {
    var t := slots[h % |slots| := Empty];
    forall g: nat ensures g in live - {h} <==> Found(t, g) {
      assert g in live <==> Found(slots, g);
    }
  }

  // ----- doubling -----

  /** The first `i` slots have been copied into a table of twice the size. */
  ghost predicate Copied(slots: seq<Slot>, t: seq<Slot>, i: nat) {
    && |t| == 2 * |slots| && i <= |slots| && Placed(t)
    && (forall j :: 0 <= j < i && slots[j].Holds? ==> Found(t, slots[j].handle))
    && (forall k :: 0 <= k < |t| && t[k].Holds? ==> exists j :: 0 <= j < i && slots[j] == t[k])
  }

  /** No two handles meet in the larger table. */
  lemma NoCollision(slots: seq<Slot>, t: seq<Slot>, i: nat)
    requires Placed(slots) && Copied(slots, t, i) && i < |slots| && slots[i].Holds?
    ensures t[slots[i].handle % |t|] == Empty
  {
    var k := slots[i].handle % |t|;
    if t[k].Holds? {
      var j :| 0 <= j < i && slots[j] == t[k];
      HalfMod(slots[i].handle, |slots|);
      HalfMod(slots[j].handle, |slots|);
    }
  }

  lemma CopiedOn(slots: seq<Slot>, t: seq<Slot>, i: nat)
    requires Placed(slots) && Copied(slots, t, i) && i < |slots| && slots[i].Holds?
    ensures Copied(slots, t[slots[i].handle % |t| := slots[i]], i + 1)
  {
    NoCollision(slots, t, i);
    var k := slots[i].handle % |t|;
    var u := t[k := slots[i]];
    forall j | 0 <= j < i + 1 && slots[j].Holds? ensures Found(u, slots[j].handle) {
      if j < i { assert Found(t, slots[j].handle); }
    }
    forall m | 0 <= m < |u| && u[m].Holds? ensures exists j :: 0 <= j < i + 1 && slots[j] == u[m] {
      if m != k { var j :| 0 <= j < i && slots[j] == t[m]; assert slots[j] == u[m]; } else { assert slots[i] == u[m]; }
    }
  }

  lemma CopiedRepresents(slots: seq<Slot>, t: seq<Slot>, live: set<nat>)
    requires Represents(slots, live) && Copied(slots, t, |slots|)
    ensures Represents(t, live)
  {
    forall h: nat ensures h in live <==> Found(t, h) {
      assert h in live <==> Found(slots, h);
      if Found(slots, h) { assert slots[h % |slots|].handle == h; }
      if Found(t, h) {
        var j :| 0 <= j < |slots| && slots[j] == t[h % |t|];
        PlacedFound(slots, j);
      }
    }
  }
}
