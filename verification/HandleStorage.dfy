/**
 `struct handle_storage` of `skynet_handle.c`: the table of live handles and the sorted array of names.
 */
module HandleStorage {

  import opened Arithmetic
  import opened HandleSlots
  import opened HandleNames

  class Storage {
    const harbor: nat
    var index: nat
    var slot: array<Slot>
    var names: array<Entry>
    var count: nat
    ghost var live: set<nat>

    ghost predicate SlotsOk()
      reads this, slot
    {
      harbor % MODULUS == 0 && 1 <= index <= MODULUS && SizeOk(slot.Length) && Represents(slot[..], live)
    }

    ghost predicate NamesOk()
      reads this, names
    {
      count <= names.Length && names.Length >= 2 && Sorted(names[..count])
    }

    ghost predicate Valid()
      reads this, slot, names
    {
      SlotsOk() && NamesOk()
    }

    ghost function Names(): seq<Entry>
      requires count <= names.Length
      reads this, names
    {
      names[..count]
    }

    constructor (harborId: nat)
      ensures Valid() && fresh(slot) && fresh(names) && live == {} && Names() == [] && index == 1
      ensures harbor == (harborId % 256) * MODULUS
    {
      harbor := (harborId % 256) * MODULUS;
      slot := new Slot[4](_ => Empty);
      index := 1;
      names := new Entry[2](_ => Entry([], 0));
      count := 0;
      live := {};
      new;
      assert Power(2, 2) == 4;
    }

    /** The search for an empty slot from the counter on; `i` is how far it went. */
    method FindSlot() returns (found: bool, i: nat)
      requires SlotsOk()
      ensures TakenFrom(slot[..], index, i)
      ensures found ==> i < slot.Length && slot[Probe(index, i, slot.Length)] == Empty
      ensures !found ==> i == slot.Length
    {
      hide Probe;
      SizeDivides(slot.Length);
      i := 0;
      while i < slot.Length
        invariant 0 <= i <= slot.Length && TakenFrom(slot[..], index, i)
      {
        var handle := (i + index) % MODULUS;
        ProbeOf(index, i, slot.Length);
        var hash := handle % slot.Length;
        if slot[hash] == Empty { return true, i; }
        TakenOn(slot[..], index, i);
        i := i + 1;
      }
      return false, i;
    }

    /** Twice as many slots; the assertion that no two contexts meet there holds. */
    method Double()
      requires SlotsOk() && slot.Length != MODULUS && forall j :: 0 <= j < slot.Length ==> slot[j].Holds?
      modifies this`slot
      ensures SlotsOk() && fresh(slot) && slot.Length == 2 * old(slot.Length)
    {
      ghost var s := slot[..];
      var n := slot.Length;
      SizeDoubles(n);
      var larger := new Slot[2 * n](_ => Empty);
      var i := 0;
      while i < n
        invariant 0 <= i <= n && slot[..] == s && Copied(s, larger[..], i)
      {
        var hash := slot[i].handle % (2 * n);
        ghost var t := larger[..];
        NoCollision(s, t, i);
        assert larger[hash] == Empty;
        CopiedOn(s, t, i);
        larger[hash] := slot[i];
        assert larger[..] == t[hash := s[i]];
        i := i + 1;
      }
      CopiedRepresents(s, larger[..], live);
      slot := larger;
    }

    /** Puts the context with the `i`-th handle from the counter on into its empty slot. */
    method Store(i: nat) returns (h: nat)
      requires SlotsOk() && slot.Length > 0 && slot[Probe(index, i, slot.Length)] == Empty
      modifies this`index, this`live, slot
      ensures SlotsOk() && h !in old(live) && live == old(live) + {h}
      ensures h - harbor == (i + old(index)) % MODULUS && index == h - harbor + 1
    {
      var n := slot.Length;
      var handle := (i + index) % MODULUS;
      h := handle + harbor;
      SlotOfHandle(i + index, harbor, n);
      SlotOfHandle(i + index, 0, n);
      ghost var s := slot[..];
      StoreRepresents(s, live, h);
      slot[handle % n] := Holds(h);
      assert slot[..] == s[h % n := Holds(h)];
      live := live + {h};
      index := handle + 1;
    }

    /**
     `skynet_handle_register`, and the store of the result in the context. The handle is the first one from the counter
     on whose slot is free, in the table or, if that is full, in one of twice the size; `i` is how far it is from the
     counter. It ends as long as not all handles are live. The local part of the handle is zero exactly when the search
     wraps around onto slot zero.
     */
    method Register() returns (h: nat, ghost i: nat)
      requires SlotsOk() && |live| < MODULUS
      modifies this`slot, this`index, this`live, slot
      ensures SlotsOk() && (slot == old(slot) || fresh(slot))
      ensures h !in old(live) && live == old(live) + {h} && index == h - harbor + 1
      ensures old(slot.Length) > 0 && slot.Length == TableSize(old(live), old(slot.Length))
      ensures FirstFree(old(live), slot.Length, old(index), i) && h - harbor == (i + old(index)) % MODULUS
      ensures h == harbor <==> WrapsToZero(old(live), slot.Length, old(index))
      ensures h == 0 <==> harbor == 0 && WrapsToZero(old(live), slot.Length, old(index))
    {
      hide Represents, Probe, Full, FirstFree, WrapsToZero, SizeOk;
      SizeDivides(slot.Length);
      ghost var n := slot.Length;
      while true
        invariant SlotsOk() && (slot == old(slot) || fresh(slot)) && live == old(live) && index == old(index) && slot.Length > 0
        invariant slot.Length == n || (slot.Length == 2 * n && |live| == n && Full(live, n))
        decreases MODULUS - slot.Length
      {
        var found, k := FindSlot();
        if found {
          FoundFree(slot[..], live, index, k);
          FreeNotFull(slot[..], live, index, k);
          SizeAtMost(slot.Length);
          ZeroExactly(live, slot.Length, index, k);
          i := k;
          h := Store(k);
          return;
        }
        AllTaken(slot[..], index);
        FullMeansMany(slot[..], live);
        FullSlots(slot[..], live);
        SizeDoubles(slot.Length);
        Double();
      }
    }

    /** `skynet_handle_grab`: a context is found exactly when its handle is live. */
    method Grab(h: nat) returns (found: bool)
      requires SlotsOk()
      ensures found == (h in live)
    {
      SizeDivides(slot.Length);
      found := slot[h % slot.Length] == Holds(h);
      assert h in live <==> Found(slot[..], h);
    }

    /** The loop of `skynet_handle_retire` that drops the names of a handle, in place. */
    method DropNames(h: nat)
      requires NamesOk()
      modifies this`count, names
      ensures NamesOk() && Names() == Without(old(Names()), h)
    {
      hide Without, Compare;
      ghost var s := Names();
      var i, j := 0, 0;
      WithoutNone(h);
      while i < count
        invariant 0 <= j <= i <= count == old(count) && names[..j] == Without(s[..i], h) && names[i..count] == s[i..]
      {
        assert names[i] == names[i..count][0] == s[i];
        WithoutNext(s, i, h);
        ghost var kept, rest := names[..j], names[i..count];
        if names[i].handle != h {
          names[j] := names[i];
          j := j + 1;
          assert names[..j] == kept + [s[i]];
        }
        assert names[i + 1..count] == rest[1..];
        i := i + 1;
      }
      assert s[..count] == s;
      WithoutShorter(s, h);
      WithoutSorted(s, h);
      count := j;
    }

    /** `skynet_handle_retire` */
    method Retire(h: nat) returns (found: bool)
      requires Valid()
      modifies this`live, this`count, slot, names
      ensures Valid() && found == (h in old(live)) && live == old(live) - {h}
      ensures Names() == if found then Without(old(Names()), h) else old(Names())
    {
      hide Represents, SizeOk, Sorted, Without, Compare;
      found := Grab(h);
      if found {
        ghost var s := slot[..];
        SizeDivides(slot.Length);
        LiveFound(s, live, h);
        ClearRepresents(s, live, h);
        slot[h % slot.Length] := Empty;
        assert slot[..] == s[h % |s| := Empty];
        live := live - {h};
        DropNames(h);
      }
    }

    /** The binary search of `skynet_handle_findname` and `_insert_name`. */
    method Search(name: Name) returns (found: bool, at: nat)
      requires NamesOk()
      ensures found ==> at < count && names[at].name == name
      ensures !found ==> Gap(Names(), name, at)
    {
      var begin, end := 0, count - 1;
      ghost var s := Names();
      while begin <= end
        invariant 0 <= begin <= end + 1 <= count
        invariant forall i :: 0 <= i < begin ==> Compare(s[i].name, name) < 0
        invariant forall i :: end < i < count ==> Compare(s[i].name, name) > 0
      {
        var mid := (begin + end) / 2;
        var c := Compare(names[mid].name, name);
        CompareZero(names[mid].name, name);
        if c == 0 { return true, mid; }
        if c < 0 {
          forall i | 0 <= i < mid ensures Compare(s[i].name, name) < 0 { CompareTrans(s[i].name, s[mid].name, name); }
          begin := mid + 1;
        } else {
          forall i | mid < i < count ensures Compare(s[i].name, name) > 0 { Behind(s, mid, i, name); }
          end := mid - 1;
        }
      }
      return false, begin;
    }

    /** `skynet_handle_findname`: zero for a name that is not bound, and for one that is bound to zero. */
    method FindName(name: Name) returns (h: nat)
      requires NamesOk()
      ensures forall g :: Bound(Names(), name, g) ==> h == g
      ensures h == 0 <==> Bound(Names(), name, 0) || !(exists g :: Bound(Names(), name, g))
    {
      var found, at := Search(name);
      if found {
        assert Names()[at] == Entry(name, names[at].handle) && Bound(Names(), name, names[at].handle);
        BoundOnce(Names(), name, names[at].handle);
        return names[at].handle;
      }
      NotBound(Names(), name, at);
      return 0;
    }

    /** A larger array with a gap before place `before`. */
    method Spread(before: nat, e: Entry)
      requires count == names.Length && before <= count && count >= 2
      modifies this`names
      ensures fresh(names) && names.Length == 2 * old(names.Length)
      ensures names[..before] == old(names[..before]) && names[before + 1..count + 1] == old(names[before..count])
    {
      var larger := new Entry[2 * names.Length](_ => e);
      var i := 0;
      while i < before
        invariant names == old(names) && names[..] == old(names[..]) && 0 <= i <= before && larger[..i] == names[..i]
      {
        larger[i] := names[i];
        i := i + 1;
      }
      while i < count
        invariant names == old(names) && names[..] == old(names[..]) && before <= i <= count && larger[..before] == names[..before]
        invariant larger[before + 1..i + 1] == names[before..i]
      {
        larger[i + 1] := names[i];
        i := i + 1;
      }
      names := larger;
    }

    /** A gap before place `before`, in place. */
    method ShiftUp(before: nat)
      requires count < names.Length && before <= count
      modifies names
      ensures names[..before] == old(names[..before]) && names[before + 1..count + 1] == old(names[before..count])
    {
      ghost var s := names[..];
      var i := count;
      while i > before
        invariant before <= i <= count && names[..i] == s[..i] && names[i + 1..count + 1] == s[i..count]
      {
        ghost var rest := names[i + 1..count + 1];
        names[i] := names[i - 1];
        assert names[i..count + 1] == [s[i - 1]] + rest;
        i := i - 1;
      }
    }

    /** `_insert_name_before`: makes room in place, or in an array of twice the size. */
    method InsertBefore(e: Entry, before: nat)
      requires NamesOk() && Gap(Names(), e.name, before)
      modifies this`names, this`count, names
      ensures NamesOk() && (names == old(names) || fresh(names))
      ensures Names() == old(Names())[..before] + [e] + old(Names())[before..]
    {
      hide Compare;
      ghost var s := Names();
      InsertSorted(s, e, before);
      if count >= names.Length { Spread(before, e); } else { ShiftUp(before); }
      ghost var rest := names[before + 1..count + 1];
      assert names[..before] == s[..before] && rest == s[before..];
      names[before] := e;
      count := count + 1;
      assert names[..count] == s[..before] + [e] + rest;
    }

    /** `_insert_name`: refuses a name that is bound already. */
    method NameHandle(name: Name, h: nat) returns (ok: bool)
      requires NamesOk()
      modifies this`names, this`count, names
      ensures NamesOk() && (names == old(names) || fresh(names))
      ensures ok <==> !(exists g :: Bound(old(Names()), name, g))
      ensures ok ==> forall n, g :: Bound(Names(), n, g) <==> Bound(old(Names()), n, g) || (n == name && g == h)
      ensures !ok ==> Names() == old(Names())
    {
      var found, at := Search(name);
      if found {
        assert Names()[at] == Entry(name, names[at].handle) && Bound(Names(), name, names[at].handle);
        return false;
      }
      ghost var s := Names();
      NotBound(s, name, at);
      InsertBefore(Entry(name, h), at);
      assert s == s[..at] + s[at..];
      return true;
    }
  }

  lemma Behind(s: seq<Entry>, mid: nat, i: nat, name: Name)
    requires Sorted(s) && mid < i < |s| && Compare(s[mid].name, name) > 0
    ensures Compare(s[i].name, name) > 0
  {
    CompareFlip(s[mid].name, name);
    CompareTrans(name, s[mid].name, s[i].name);
    CompareFlip(name, s[i].name);
  }

  lemma NotBound(s: seq<Entry>, name: Name, at: nat)
    requires Gap(s, name, at)
    ensures forall g :: !Bound(s, name, g)
  {
    forall g ensures !Bound(s, name, g) {
      if Bound(s, name, g) {
        var i :| 0 <= i < |s| && s[i] == Entry(name, g);
        CompareZero(s[i].name, name);
      }
    }
  }

  lemma LiveFound(s: seq<Slot>, live: set<nat>, h: nat)
    requires SizeOk(|s|) && Represents(s, live) && h in live
    ensures Found(s, h)
  {
  }

  lemma ProbeOf(index: nat, i: nat, n: int)
    requires SizeOk(n)
    ensures n > 0 && ((i + index) % MODULUS) % n == Probe(index, i, n)
  {
    SlotOfHandle(i + index, 0, n);
  }

  /** A sorted array binds a name once. */
  lemma BoundOnce(s: seq<Entry>, name: Name, h: nat)
    requires Sorted(s) && Bound(s, name, h)
    ensures forall g :: Bound(s, name, g) ==> g == h
  {
    forall g | Bound(s, name, g) ensures g == h {
      var i :| 0 <= i < |s| && s[i] == Entry(name, h);
      var j :| 0 <= j < |s| && s[j] == Entry(name, g);
      CompareZero(name, name);
    }
  }

  lemma SizeAtMost(n: int)
    requires SizeOk(n)
    ensures 0 < n <= MODULUS
  {
    var k: nat :| k <= 24 && n == Power(2, k);
    SizeBound(k);
  }

  /** With no handle live the next handle is the counter. */
  lemma NoneLive(n: int, index: nat, i: nat)
    requires n > 0 && FirstFree({}, n, index, i)
    ensures i == 0 && !Full({}, n)
  {
    assert !Occupied({}, n, index);
    assert !Occupied({}, n, 0);
  }

  /** One context registered and retired again. */
  method ComeAndGo(s: Storage)
    requires s.Valid() && s.live == {} && s.index < MODULUS
    modifies s, s.slot, s.names
    ensures s.Valid() && s.live == {} && s.index == old(s.index) + 1
    ensures (s.slot == old(s.slot) || fresh(s.slot)) && s.names == old(s.names)
  {
    hide Represents, SizeOk, FirstFree, WrapsToZero, Full, Sorted, TableSize, Without;
    ghost var index := s.index;
    var g, i := s.Register();
    NoneLive(s.slot.Length, index, i);
    var _ := s.Retire(g);
  }

  /**
   A run of a new storage, without harbor, that hands out handle 0: contexts come and go one by one until the counter
   wraps.
   */
  method HandOutZero() returns (h: nat)
    ensures h == 0
  {
    hide Represents, SizeOk, FirstFree, WrapsToZero, Full, Sorted, TableSize;
    var s := new Storage(0);
    while s.index < MODULUS
      invariant s.Valid() && s.live == {} && s.harbor == 0 && fresh(s) && fresh(s.slot) && fresh(s.names)
      decreases MODULUS - s.index
    {
      ComeAndGo(s);
    }
    ghost var i;
    h, i := s.Register();
    NoneLive(s.slot.Length, MODULUS, i);
  }
}
