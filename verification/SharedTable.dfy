/**
 A shared table of `lua-sharedata.c`: converted from the entries of a Lua table, then only read.
 */
module SharedTable {

  import opened Basics
  import opened SharedIndex

  // ----- the two passes -----

  /** After the first pass over `i` keys every node is the first key of its main position. */
  ghost predicate FirstPass<V>(ns: seq<Node<V>>, chains: seq<seq<nat>>, h: HashFn, es: seq<Entry<V>>, i: nat) {
    && i <= |es| == |ns| && Chained(ns, chains, h) && FromEntries(ns, es)
    && (forall s :: 0 <= s < |ns| && ns[s].Node? ==> Main(h, |ns|, ns[s].key) == s)
    && (forall j :: 0 <= j < i ==> ns[Main(h, |ns|, es[j].key)].Node?)
  }

  lemma FirstStep<V>(ns: seq<Node<V>>, chains: seq<seq<nat>>, h: HashFn, es: seq<Entry<V>>, i: nat)
    requires FirstPass(ns, chains, h, es, i) && i < |es|
    ensures var e := es[i]; var s := Main(h, |ns|, e.key);
      if ns[s].Vacant? then FirstPass(ns[s := Node(e.key, e.value, -1, true)], chains[s := [s]], h, es, i + 1)
      else FirstPass(ns, chains, h, es, i + 1)
  {
    var e := es[i];
    var s := Main(h, |ns|, e.key);
    if ns[s].Vacant? { HeadKeeps(ns, chains, h, e); }
  }

  /** During the second pass the nodes away from their main position are keys already passed. */
  ghost predicate SecondPass<V>(ns: seq<Node<V>>, chains: seq<seq<nat>>, h: HashFn, es: seq<Entry<V>>, i: nat) {
    && i <= |es| == |ns| && Chained(ns, chains, h) && FromEntries(ns, es)
    && (forall j :: 0 <= j < |es| ==> MainTaken(ns, h, es[j].key))
    && (forall s :: 0 <= s < |ns| && ns[s].Node? && Main(h, |ns|, ns[s].key) != s ==> Passed(es, i, ns[s].key))
    && (forall j :: 0 <= j < i ==> Has(ns, es[j].key))
  }

  /** The main position of a key is taken by a key of that main position. */
  ghost predicate MainTaken<V>(ns: seq<Node<V>>, h: HashFn, k: Key)
    requires |ns| > 0
  {
    ns[Main(h, |ns|, k)].Node? && Main(h, |ns|, ns[Main(h, |ns|, k)].key) == Main(h, |ns|, k)
  }

  ghost predicate Passed<V>(es: seq<Entry<V>>, i: nat, k: Key)
    requires i <= |es|
  {
    exists j :: 0 <= j < i && es[j].key == k
  }

  /** A key that is not at its main position has not been put anywhere. */
  lemma NotIn<V>(ns: seq<Node<V>>, chains: seq<seq<nat>>, h: HashFn, es: seq<Entry<V>>, i: nat)
    requires SecondPass(ns, chains, h, es, i) && KeysDiffer(es) && i < |es|
    requires ns[Main(h, |ns|, es[i].key)].Node? && ns[Main(h, |ns|, es[i].key)].key != es[i].key
    ensures !Has(ns, es[i].key)
  {
    forall s | 0 <= s < |ns| && ns[s].Node? ensures ns[s].key != es[i].key {
      if Main(h, |ns|, ns[s].key) != s { assert Passed(es, i, ns[s].key); }
    }
  }

  lemma SecondInsert<V>(ns: seq<Node<V>>, chains: seq<seq<nat>>, h: HashFn, es: seq<Entry<V>>, i: nat, s: nat)
    requires SecondPass(ns, chains, h, es, i) && KeysDiffer(es) && i < |es| && s < |ns| && ns[s].Vacant?
    requires ns[Main(h, |ns|, es[i].key)].Node? && ns[Main(h, |ns|, es[i].key)].key != es[i].key
    ensures var m := Main(h, |ns|, es[i].key);
      chains[m] != [] && SecondPass(Inserted(ns, m, s, es[i]), Relinked(chains, m, s), h, es, i + 1)
  {
    hide Main;
    var e := es[i];
    var m := Main(h, |ns|, e.key);
    assert MainTaken(ns, h, e.key);
    NotIn(ns, chains, h, es, i);
    InsertKeeps(ns, chains, h, s, e);
    var ms := Inserted(ns, m, s, e);
    SameKeys(ns, m, s, e);
    forall j | 0 <= j < |es| ensures MainTaken(ms, h, es[j].key) { assert MainTaken(ns, h, es[j].key); }
    forall t | 0 <= t < |ms| && ms[t].Node? && Main(h, |ms|, ms[t].key) != t ensures Passed(es, i + 1, ms[t].key) {
      if t != s { assert Passed(es, i, ns[t].key); } else { assert es[i].key == ms[t].key; }
    }
    forall j | 0 <= j < i + 1 ensures Has(ms, es[j].key) {
      if j < i { assert Has(ns, es[j].key); }
    }
  }

  /** An insertion changes no key that is there. */
  lemma SameKeys<V>(ns: seq<Node<V>>, m: nat, s: nat, e: Entry<V>)
    requires m < |ns| && s < |ns| && m != s && ns[m].Node? && ns[s].Vacant?
    ensures var ms := Inserted(ns, m, s, e);
      && ms[s].Node? && ms[s].key == e.key && Has(ms, e.key)
      && (forall t :: 0 <= t < |ns| && t != s ==> ms[t].Node? == ns[t].Node? && (ns[t].Node? ==> ms[t].key == ns[t].key))
      && (forall k :: Has(ns, k) ==> Has(ms, k))
  {
    var ms := Inserted(ns, m, s, e);
    assert ms[s].key == e.key;
    forall k | Has(ns, k) ensures Has(ms, k) {
      var t :| 0 <= t < |ns| && ns[t].Node? && ns[t].key == k;
      assert ms[t].Node? && ms[t].key == k;
    }
  }

  lemma SecondSkip<V>(ns: seq<Node<V>>, chains: seq<seq<nat>>, h: HashFn, es: seq<Entry<V>>, i: nat)
    requires SecondPass(ns, chains, h, es, i) && i < |es|
    requires ns[Main(h, |ns|, es[i].key)].Node? && ns[Main(h, |ns|, es[i].key)].key == es[i].key
    ensures SecondPass(ns, chains, h, es, i + 1)
  {
    assert Has(ns, es[i].key);
    forall s | 0 <= s < |ns| && ns[s].Node? && Main(h, |ns|, ns[s].key) != s ensures Passed(es, i + 1, ns[s].key) {
      assert Passed(es, i, ns[s].key);
    }
  }

  /** Both passes done: every node is filled, with all entries. */
  ghost predicate Complete<V>(ns: seq<Node<V>>, chains: seq<seq<nat>>, h: HashFn, es: seq<Entry<V>>) {
    && |ns| == |es| && KeysDiffer(es)
    && (es != [] ==> Chained(ns, chains, h)) && FromEntries(ns, es)
    && (forall j :: 0 <= j < |es| ==> Has(ns, es[j].key))
    && (forall s :: 0 <= s < |ns| ==> ns[s].Node?)
  }

  // ----- array part and hash part -----

  /** `ishashkey` */
  predicate IsHashKey(k: Key, n: nat) { !(k.IntKey? && 0 < k.k <= n) }

  function HashPart<V>(es: seq<Entry<V>>, n: nat): seq<Entry<V>> {
    if es == [] then []
    else
      var last := es[|es| - 1];
      HashPart(es[..|es| - 1], n) + (if IsHashKey(last.key, n) then [last] else [])
  }

  lemma {:induction false} HashPartPrefix<V>(es: seq<Entry<V>>, n: nat, i: nat)
    requires i <= |es|
    ensures |HashPart(es[..i], n)| <= |HashPart(es, n)|
    ensures HashPart(es, n)[..|HashPart(es[..i], n)|] == HashPart(es[..i], n)
  {
    if i == |es| {
      assert es[..i] == es;
    } else {
      var t := es[..|es| - 1];
      HashPartPrefix(t, n, i);
      assert t[..i] == es[..i];
    }
  }

  /** Entry `i` in the hash part, where it belongs there. */
  lemma HashPartAt<V>(es: seq<Entry<V>>, n: nat, i: nat)
    requires i < |es|
    ensures var k := |HashPart(es[..i], n)|;
      if IsHashKey(es[i].key, n) then k < |HashPart(es, n)| && HashPart(es, n)[k] == es[i] && |HashPart(es[..i + 1], n)| == k + 1
      else |HashPart(es[..i + 1], n)| == k
  {
    var t := es[..i + 1];
    assert t[..i] == es[..i] && t[i] == es[i];
    HashPartPrefix(es, n, i + 1);
    var k := |HashPart(es[..i], n)|;
    if IsHashKey(es[i].key, n) {
      assert HashPart(t, n) == HashPart(es[..i], n) + [es[i]];
      assert HashPart(es, n)[..k + 1][k] == es[i];
    }
  }

  lemma {:induction false} HashPartMember<V>(es: seq<Entry<V>>, n: nat, e: Entry<V>)
    ensures e in HashPart(es, n) <==> e in es && IsHashKey(e.key, n)
  {
    if es != [] {
      var t := es[..|es| - 1];
      HashPartMember(t, n, e);
      assert es == t + [es[|es| - 1]];
    }
  }

  lemma {:induction false} HashPartDiffers<V>(es: seq<Entry<V>>, n: nat)
    requires KeysDiffer(es)
    ensures KeysDiffer(HashPart(es, n))
  {
    if es != [] {
      var t, last := es[..|es| - 1], es[|es| - 1];
      HashPartDiffers(t, n);
      var p := HashPart(t, n);
      forall i | 0 <= i < |p| ensures p[i].key != last.key {
        HashPartMember(t, n, p[i]);
        assert p[i] in p;
        var j :| 0 <= j < |t| && t[j] == p[i];
      }
    }
  }

  /** The array part holds the entries with keys from one to its size. */
  ghost predicate ArrayHolds<V>(arr: seq<Option<V>>, es: seq<Entry<V>>) {
    && (forall k :: 0 <= k < |arr| && arr[k].Some? ==> Entry(IntKey(k + 1), arr[k].value) in es)
    && (forall i :: 0 <= i < |es| && !IsHashKey(es[i].key, |arr|) ==> arr[es[i].key.k - 1] == Some(es[i].value))
  }

  lemma ArrayStep<V>(arr: seq<Option<V>>, es: seq<Entry<V>>, i: nat)
    requires i < |es| && KeysDiffer(es) && ArrayHolds(arr, es[..i])
    ensures var e := es[i];
      if IsHashKey(e.key, |arr|) then ArrayHolds(arr, es[..i + 1])
      else ArrayHolds(arr[e.key.k - 1 := Some(e.value)], es[..i + 1])
  {
    var e := es[i];
    assert es[..i + 1] == es[..i] + [e];
  }

  // ----- the order of iteration -----

  function ArrayKeys<V>(arr: seq<Option<V>>, i: nat): seq<Key>
    decreases |arr| - i
  {
    if i >= |arr| then [] else (if arr[i].Some? then [IntKey(i + 1)] else []) + ArrayKeys(arr, i + 1)
  }

  function HashKeys<V>(ns: seq<Node<V>>, i: nat): seq<Key>
    requires forall s :: 0 <= s < |ns| ==> ns[s].Node?
    decreases |ns| - i
  {
    if i >= |ns| then [] else [ns[i].key] + HashKeys(ns, i + 1)
  }

  /** A point of the iteration, and the keys from there on. */
  datatype Pos = InArray(i: nat) | InHash(i: nat)

  function KeysFrom<V>(arr: seq<Option<V>>, ns: seq<Node<V>>, p: Pos): seq<Key>
    requires forall s :: 0 <= s < |ns| ==> ns[s].Node?
  {
    match p
    case InArray(i) => ArrayKeys(arr, i) + HashKeys(ns, 0)
    case InHash(i) => HashKeys(ns, i)
  }

  /** The point behind a key. */
  ghost predicate Behind<V>(arr: seq<Option<V>>, ns: seq<Node<V>>, k: Key, p: Pos) {
    if !IsHashKey(k, |arr|) then p == InArray(k.k)
    else p.InHash? && 0 < p.i <= |ns| && ns[p.i - 1].Node? && ns[p.i - 1].key == k
  }

  lemma {:induction false} ArrayHead<V>(arr: seq<Option<V>>, i: nat)
    requires ArrayKeys(arr, i) != []
    ensures var k := ArrayKeys(arr, i)[0];
      k.IntKey? && i < k.k <= |arr| && arr[k.k - 1].Some? && ArrayKeys(arr, i)[1..] == ArrayKeys(arr, k.k)
    decreases |arr| - i
  {
    if !arr[i].Some? { ArrayHead(arr, i + 1); }
  }

  /** Behind the first key of a point is the rest of its keys. */
  lemma KeysBehind<V>(arr: seq<Option<V>>, ns: seq<Node<V>>, p: Pos, q: Pos)
    requires (forall s :: 0 <= s < |ns| ==> ns[s].Node?) && Distinct(ns) && KeysFrom(arr, ns, p) != []
    requires forall s :: 0 <= s < |ns| ==> IsHashKey(ns[s].key, |arr|)
    requires Behind(arr, ns, KeysFrom(arr, ns, p)[0], q)
    ensures KeysFrom(arr, ns, q) == KeysFrom(arr, ns, p)[1..]
  {
    hide ArrayKeys, HashKeys, Distinct;
    if p.InArray? && ArrayKeys(arr, p.i) != [] {
      ArrayHead(arr, p.i);
      var a, b := ArrayKeys(arr, p.i), HashKeys(ns, 0);
      assert (a + b)[0] == a[0] && (a + b)[1..] == a[1..] + b;
    } else {
      var i := if p.InArray? then 0 else p.i;
      assert KeysFrom(arr, ns, p) == HashKeys(ns, i);
      HashBehind(ns, i, q.i - 1);
    }
  }

  lemma HashBehind<V>(ns: seq<Node<V>>, i: nat, s: int)
    requires (forall t :: 0 <= t < |ns| ==> ns[t].Node?) && Distinct(ns) && HashKeys(ns, i) != []
    ensures i < |ns| && HashKeys(ns, i)[0] == ns[i].key && HashKeys(ns, i)[1..] == HashKeys(ns, i + 1)
    ensures 0 <= s < |ns| && ns[s].key == ns[i].key ==> s == i
  {
  }

  /** Array slots without a value give no keys. */
  lemma {:induction false} ArraySkip<V>(arr: seq<Option<V>>, i: nat, j: nat)
    requires i <= j <= |arr| && forall k :: i <= k < j ==> arr[k].None?
    ensures ArrayKeys(arr, i) == ArrayKeys(arr, j)
    decreases j - i
  {
    if i < j { ArraySkip(arr, i + 1, j); }
  }

  lemma {:induction false} ArrayMember<V>(arr: seq<Option<V>>, i: nat, k: Key)
    ensures k in ArrayKeys(arr, i) <==> k.IntKey? && i < k.k <= |arr| && arr[k.k - 1].Some?
    decreases |arr| - i
  {
    if i < |arr| { ArrayMember(arr, i + 1, k); }
  }

  lemma HashStep<V>(ns: seq<Node<V>>, i: nat)
    requires forall s :: 0 <= s < |ns| ==> ns[s].Node?
    ensures HashKeys(ns, i) == if i >= |ns| then [] else [ns[i].key] + HashKeys(ns, i + 1)
  {
  }

  lemma {:induction false} HashMember<V>(ns: seq<Node<V>>, i: nat, k: Key)
    requires forall s :: 0 <= s < |ns| ==> ns[s].Node?
    ensures k in HashKeys(ns, i) <==> exists s :: i <= s < |ns| && ns[s].key == k
    decreases |ns| - i
  {
    hide HashKeys;
    HashStep(ns, i);
    if i < |ns| {
      HashMember(ns, i + 1, k);
      assert k in HashKeys(ns, i) <==> k == ns[i].key || k in HashKeys(ns, i + 1);
    }
  }

  ghost predicate NoRepeat(ks: seq<Key>) { forall i, j :: 0 <= i < j < |ks| ==> ks[i] != ks[j] }

  lemma {:induction false} ArrayOnce<V>(arr: seq<Option<V>>, i: nat)
    ensures NoRepeat(ArrayKeys(arr, i))
    decreases |arr| - i
  {
    if i < |arr| {
      ArrayOnce(arr, i + 1);
      ArrayMember(arr, i + 1, IntKey(i + 1));
      ConsOnce(IntKey(i + 1), ArrayKeys(arr, i + 1));
    }
  }

  lemma {:induction false} HashOnce<V>(ns: seq<Node<V>>, i: nat)
    requires (forall s :: 0 <= s < |ns| ==> ns[s].Node?) && Distinct(ns)
    ensures NoRepeat(HashKeys(ns, i))
    decreases |ns| - i
  {
    if i < |ns| {
      HashOnce(ns, i + 1);
      HashMember(ns, i + 1, ns[i].key);
      ConsOnce(ns[i].key, HashKeys(ns, i + 1));
    }
  }

  lemma ConsOnce(k: Key, ks: seq<Key>)
    requires NoRepeat(ks)
    ensures k !in ks ==> NoRepeat([k] + ks)
    ensures [] + ks == ks
  {
  }

  lemma BothOnce(a: seq<Key>, b: seq<Key>)
    requires NoRepeat(a) && NoRepeat(b) && forall k :: k in a ==> k !in b
    ensures NoRepeat(a + b)
  {
    var c := a + b;
    forall i, j | 0 <= i < j < |c| ensures c[i] != c[j] {
      if i < |a| && j >= |a| { assert a[i] in a && b[j - |a|] in b; }
    }
  }

  // ----- the table -----

  /** `struct table` */
  class Table<V> {
    const h: HashFn
    const arr: array<Option<V>>
    const hash: array<Node<V>>
    ghost const entries: seq<Entry<V>>
    ghost var chains: seq<seq<nat>>

    ghost function Es(): seq<Entry<V>> {
      HashPart(entries, arr.Length)
    }

    ghost predicate Valid()
      reads this, arr, hash
    {
      KeysDiffer(entries) && ArrayHolds(arr[..], entries) && Complete(hash[..], chains, h, Es())
    }

    /** `convtable`: `es` is the source table in the order of `lua_next`, `size` its length. */
    constructor (h: HashFn, es: seq<Entry<V>>, size: nat)
      requires KeysDiffer(es)
      ensures Valid() && entries == es && arr.Length == size && fresh(arr) && fresh(hash)
    {
      var n := CountSize(es, size);
      this.h := h;
      arr := new Option<V>[size](_ => None);
      hash := new Node<V>[n](_ => Vacant);
      entries := es;
      chains := seq(n, _ => []);
      new;
      HashPartDiffers(es, size);
      if n > 0 {
        NothingYet(hash[..], chains, h, Es());
        FillNoColliding(es);
        FillColliding(es);
        AllFilled(hash[..], Es());
      } else {
        FillArray(es);
      }
    }

    /** `fillnocolliding` */
    method FillNoColliding(es: seq<Entry<V>>)
      requires es == entries && KeysDiffer(es) && ArrayHolds(arr[..], []) && FirstPass(hash[..], chains, h, Es(), 0) && |chains| == hash.Length > 0
      modifies arr, hash, this`chains
      ensures ArrayHolds(arr[..], es) && SecondPass(hash[..], chains, h, Es(), 0)
    {
      hide HashPart, Chained;
      var n, i := arr.Length, 0;
      NoHashPart<V>(n);
      assert es[..0] == [];
      while i < |es|
        invariant 0 <= i <= |es| && ArrayHolds(arr[..], es[..i]) && |chains| == hash.Length
        invariant FirstPass(hash[..], chains, h, Es(), |HashPart(es[..i], n)|)
      {
        var e := es[i];
        ghost var k, a, ns := |HashPart(es[..i], n)|, arr[..], hash[..];
        ArrayStep(a, es, i);
        HashPartAt(es, n, i);
        if !IsHashKey(e.key, n) {
          arr[e.key.k - 1] := Some(e.value);
          assert arr[..] == a[e.key.k - 1 := Some(e.value)];
        } else {
          FirstStep(ns, chains, h, Es(), k);
          var s := Main(h, hash.Length, e.key);
          if hash[s].Vacant? {
            hash[s] := Node(e.key, e.value, -1, true);
            assert hash[..] == ns[s := Node(e.key, e.value, -1, true)];
            chains := chains[s := [s]];
          }
        }
        i := i + 1;
      }
      assert es[..|es|] == es;
      PassesMeet(hash[..], chains, h, Es());
    }

    /** `fillcolliding` */
    method FillColliding(es: seq<Entry<V>>)
      requires es == entries && KeysDiffer(Es()) && SecondPass(hash[..], chains, h, Es(), 0) && hash.Length > 0
      modifies hash, this`chains
      ensures SecondPass(hash[..], chains, h, Es(), |Es()|)
    {
      hide HashPart, Chained;
      var n, i := arr.Length, 0;
      NoHashPart<V>(n);
      assert es[..0] == [];
      while i < |es|
        invariant 0 <= i <= |es| && SecondPass(hash[..], chains, h, Es(), |HashPart(es[..i], n)|)
      {
        HashPartAt(es, n, i);
        if IsHashKey(es[i].key, n) { PlaceColliding(es[i], |HashPart(es[..i], n)|); }
        i := i + 1;
      }
      assert es[..|es|] == es;
    }

    method PlaceColliding(e: Entry<V>, ghost k: nat)
      requires KeysDiffer(Es()) && SecondPass(hash[..], chains, h, Es(), k) && k < |Es()| && Es()[k] == e
      modifies hash, this`chains
      ensures SecondPass(hash[..], chains, h, Es(), k + 1)
    {
      hide Main, HashPart, SecondPass, KeysDiffer, Has, Es;
      ghost var ns := hash[..];
      SecondFacts(ns, chains, h, Es(), k);
      var main := Main(h, hash.Length, e.key);
      if hash[main].key == e.key {
        SecondSkip(ns, chains, h, Es(), k);
        return;
      }
      NotIn(ns, chains, h, Es(), k);
      RoomFor(ns, chains, h, Es(), e.key, k);
      var s := FindVacant();
      SecondInsert(ns, chains, h, Es(), k, s);
      hash[s] := Node(e.key, e.value, hash[main].next, false);
      hash[main] := Node(hash[main].key, hash[main].value, s, false);
      assert hash[..] == Inserted(ns, main, s, e);
      chains := Relinked(chains, main, s);
    }

    method FindVacant() returns (s: nat)
      requires exists t :: 0 <= t < hash.Length && hash[..][t].Vacant?
      ensures s < hash.Length && hash[s].Vacant?
    {
      s := 0;
      while s < hash.Length && hash[s].Node?
        invariant 0 <= s <= hash.Length && forall t :: 0 <= t < s ==> hash[t].Node?
      {
        s := s + 1;
      }
    }

    /** The array part of a table without hash keys. */
    method FillArray(es: seq<Entry<V>>)
      requires es == entries && KeysDiffer(es) && ArrayHolds(arr[..], []) && Es() == []
      modifies arr
      ensures ArrayHolds(arr[..], es)
    {
      var n, i := arr.Length, 0;
      assert es[..0] == [];
      while i < |es|
        invariant 0 <= i <= |es| && ArrayHolds(arr[..], es[..i])
      {
        var e := es[i];
        ghost var a := arr[..];
        ArrayStep(a, es, i);
        HashPartMember(es, n, e);
        arr[e.key.k - 1] := Some(e.value);
        assert arr[..] == a[e.key.k - 1 := Some(e.value)];
        i := i + 1;
      }
      assert es[..|es|] == es;
    }

    /** `lookup_key`: the node of a key in the hash part, or -1. */
    method LookupKey(k: Key) returns (s: int)
      requires Valid()
      ensures s >= 0 ==> s < hash.Length && hash[s].Node? && hash[s].key == k
      ensures s < 0 ==> !Has(hash[..], k)
    {
      hide Complete, Es, Chained, KeysDiffer, ArrayHolds, OnRest, Has;
      CompleteFacts(hash[..], chains, h, Es());
      if hash.Length == 0 {
        NoNodes<V>(k);
        return -1;
      }
      s := Walk(k);
    }

    /** The walk of `lookup_key` along a chain, from the main position of the key. */
    method Walk(k: Key) returns (s: int)
      requires Chained(hash[..], chains, h) && |chains| == hash.Length > 0 && forall t :: 0 <= t < hash.Length ==> hash[..][t].Node?
      ensures s >= 0 ==> s < hash.Length && hash[s].Node? && hash[s].key == k
      ensures s < 0 ==> !Has(hash[..], k)
    {
      hide Main, Chained, OnRest, Has;
      ghost var ns := hash[..];
      var keyhash := h(k);
      var n := Main(h, hash.Length, k);
      ghost var c, j := ChainOf(ns, chains, h, n, k);
      if keyhash != h(hash[n].key) && hash[n].nocolliding {
        Elsewhere(ns, chains, h, k, c, j);
        return -1;
      }
      while true
        invariant c < |chains| && j < |chains[c]| && n == chains[c][j] < hash.Length
        invariant Has(ns, k) ==> OnRest(ns, chains, k, c, j)
        decreases |chains[c]| - j
      {
        LinkAt(ns, chains, h, c, j);
        assert hash[n] == ns[n];
        if keyhash == h(hash[n].key) && hash[n].key == k { return n; }
        OnRestNext(ns, chains, k, c, j);
        if hash[n].next < 0 { return -1; }
        n := hash[n].next;
        j := j + 1;
        LinkAt(ns, chains, h, c, j);
      }
    }

    /** `lindexconf`: the value of a key in the source table, or nothing. */
    method Index(k: Key) returns (r: Option<V>)
      requires Valid()
      ensures r.Some? ==> Entry(k, r.value) in entries
      ensures r.None? ==> forall i :: 0 <= i < |entries| ==> entries[i].key != k
    {
      hide Has, Chained, HashPart;
      if !IsHashKey(k, arr.Length) {
        r := arr[k.k - 1];
        assert arr[..][k.k - 1] == r;
        return;
      }
      var s := LookupKey(k);
      if s >= 0 {
        NodeEntry(hash[..], Es(), s);
        HashPartMember(entries, arr.Length, Entry(k, hash[s].value));
        return Some(hash[s].value);
      }
      NoEntry(hash[..], Es(), entries, arr.Length, k);
      return None;
    }

    ghost predicate Filled()
      reads hash
    {
      forall s :: 0 <= s < hash.Length ==> hash[..][s].Node?
    }

    /** The keys in the order of the iteration. */
    ghost function Order(): seq<Key>
      requires Filled()
      reads arr, hash
    {
      KeysFrom(arr[..], hash[..], InArray(0))
    }

    ghost predicate FirstOf(r: Option<Key>, ks: seq<Key>) {
      r == if ks == [] then None else Some(ks[0])
    }

    /** The first array key from a place on, or else the first hash key. */
    method FromArray(from: nat) returns (r: Option<Key>)
      requires Filled() && from <= arr.Length
      ensures FirstOf(r, KeysFrom(arr[..], hash[..], InArray(from)))
    {
      var i := from;
      while i < arr.Length
        invariant from <= i <= arr.Length && forall k :: from <= k < i ==> arr[..][k].None?
      {
        assert arr[i] == arr[..][i];
        if arr[i].Some? {
          ArraySkip(arr[..], from, i);
          return Some(IntKey(i + 1));
        }
        i := i + 1;
      }
      ArraySkip(arr[..], from, i);
      assert hash.Length > 0 ==> hash[..][0].Node?;
      r := if hash.Length > 0 then Some(hash[0].key) else None;
    }

    /** `lnextkey`: the first key, or the key behind a key of the table. */
    method NextKey(k: Option<Key>) returns (r: Option<Key>, ghost p: Pos)
      requires Valid() && Filled() && (k.Some? ==> k.value in Order())
      ensures FirstOf(r, KeysFrom(arr[..], hash[..], p))
      ensures k.None? ==> p == InArray(0)
      ensures k.Some? ==> Behind(arr[..], hash[..], k.value, p)
      ensures r.Some? ==> r.value in Order()
    {
      hide Has, Chained, HashPart, KeysFrom;
      if k.None? {
        p := InArray(0);
        r := FromArray(0);
      } else if !IsHashKey(k.value, arr.Length) {
        p := InArray(k.value.k);
        r := FromArray(k.value.k);
      } else {
        var s := LookupKey(k.value);
        MemberHas(arr[..], hash[..], k.value);
        p := InHash(s + 1);
        HashFrom(arr[..], hash[..], s + 1);
        r := if s + 1 == hash.Length then None else Some(hash[s + 1].key);
      }
      if r.Some? { LaterKeys(arr[..], hash[..], p, r.value); }
    }

    /** From the first key of a point to the next one. */
    method Advance(k: Key, ghost q: Pos) returns (r: Option<Key>, ghost p: Pos)
      requires Valid() && Filled() && k in Order() && FirstOf(Some(k), KeysFrom(arr[..], hash[..], q))
      ensures KeysFrom(arr[..], hash[..], p) == KeysFrom(arr[..], hash[..], q)[1..]
      ensures FirstOf(r, KeysFrom(arr[..], hash[..], p)) && (r.Some? ==> r.value in Order())
    {
      hide Has, Chained, HashPart, KeysFrom, Distinct, ArrayHolds, KeysDiffer, Behind;
      r, p := NextKey(Some(k));
      HashKeysOnly();
      KeysBehind(arr[..], hash[..], q, p);
    }

    /** Iteration with `nextkey` from nil: every key of the source table, once. */
    method Iterate() returns (ks: seq<Key>)
      requires Valid()
      ensures NoRepeat(ks) && forall k :: k in ks <==> exists i :: 0 <= i < |entries| && entries[i].key == k
    {
      hide Has, Chained, HashPart, KeysFrom, Distinct, Complete, ArrayHolds, KeysDiffer, Behind, NoRepeat, Es;
      CompleteFacts(hash[..], chains, h, Es());
      assert Filled();
      ghost var rest := Order();
      OrderOnce();
      ks := [];
      var k, p := NextKey(None);
      while k.Some?
        invariant FirstOf(k, rest) && KeysFrom(arr[..], hash[..], p) == rest && ks + rest == Order()
        invariant k.Some? ==> k.value in Order()
        decreases |rest|
      {
        ks := ks + [k.value];
        k, p := Advance(k.value, p);
        rest := rest[1..];
      }
      assert ks == ks + rest;
    }

    /** Nodes hold hash keys only. */
    lemma HashKeysOnly()
      requires Valid()
      ensures (forall s :: 0 <= s < hash.Length ==> IsHashKey(hash[..][s].key, arr.Length)) && Distinct(hash[..])
    {
      forall s | 0 <= s < hash.Length ensures IsHashKey(hash[..][s].key, arr.Length) {
        NodeEntry(hash[..], Es(), s);
        HashPartMember(entries, arr.Length, Entry(hash[s].key, hash[s].value));
      }
    }

    /** The order holds every key of the source table, once. */
    lemma OrderOnce()
      requires Valid() && Filled()
      ensures NoRepeat(Order()) && forall k :: k in Order() <==> exists i :: 0 <= i < |entries| && entries[i].key == k
    {
      hide HashPart;
      var a, ns := arr[..], hash[..];
      HashKeysOnly();
      ArrayOnce(a, 0);
      HashOnce(ns, 0);
      forall k | k in ArrayKeys(a, 0) ensures k !in HashKeys(ns, 0) {
        ArrayMember(a, 0, k);
        HashMember(ns, 0, k);
      }
      BothOnce(ArrayKeys(a, 0), HashKeys(ns, 0));
      forall k ensures k in Order() <==> exists i :: 0 <= i < |entries| && entries[i].key == k {
        OrderMember(k);
      }
    }

    lemma OrderMember(k: Key)
      requires Valid() && Filled()
      ensures k in Order() <==> exists i :: 0 <= i < |entries| && entries[i].key == k
    {
      hide HashPart, Chained;
      var a, ns := arr[..], hash[..];
      ArrayMember(a, 0, k);
      HashMember(ns, 0, k);
      HashKeysOnly();
      if IsHashKey(k, |a|) {
        if !Has(ns, k) {
          NoEntry(ns, Es(), entries, |a|, k);
        } else {
          var s :| 0 <= s < |ns| && ns[s].Node? && ns[s].key == k;
          NodeEntry(ns, Es(), s);
          HashPartMember(entries, |a|, Entry(k, ns[s].value));
        }
      }
    }
  }

  lemma NoNodes<V>(k: Key)
    ensures !Has<V>([], k)
  {
  }

  lemma NoHashPart<V>(n: nat)
    ensures HashPart<V>([], n) == []
  {
  }

  lemma NothingYet<V>(ns: seq<Node<V>>, chains: seq<seq<nat>>, h: HashFn, es: seq<Entry<V>>)
    requires |ns| == |es| > 0 && |chains| == |ns| && (forall s :: 0 <= s < |ns| ==> ns[s].Vacant?)
    requires forall i :: 0 <= i < |chains| ==> chains[i] == []
    ensures FirstPass(ns, chains, h, es, 0)
  {
  }

  lemma PassesMeet<V>(ns: seq<Node<V>>, chains: seq<seq<nat>>, h: HashFn, es: seq<Entry<V>>)
    requires FirstPass(ns, chains, h, es, |es|) && |ns| > 0
    ensures SecondPass(ns, chains, h, es, 0)
  {
  }

  lemma SecondFacts<V>(ns: seq<Node<V>>, chains: seq<seq<nat>>, h: HashFn, es: seq<Entry<V>>, i: nat)
    requires SecondPass(ns, chains, h, es, i) && i < |es|
    ensures |chains| == |ns| > 0 && MainTaken(ns, h, es[i].key)
  {
  }

  /** What a lookup may rely on. */
  lemma CompleteFacts<V>(ns: seq<Node<V>>, chains: seq<seq<nat>>, h: HashFn, es: seq<Entry<V>>)
    requires Complete(ns, chains, h, es)
    ensures ns != [] ==> Chained(ns, chains, h) && |chains| == |ns|
    ensures forall s :: 0 <= s < |ns| ==> ns[s].Node?
  {
  }

  lemma RoomFor<V>(ns: seq<Node<V>>, chains: seq<seq<nat>>, h: HashFn, es: seq<Entry<V>>, k: Key, i: nat)
    requires SecondPass(ns, chains, h, es, i) && KeysDiffer(es) && i < |es| && es[i].key == k && !Has(ns, k)
    ensures exists s :: 0 <= s < |ns| && ns[s].Vacant?
  {
    RoomLeft(ns, es, k);
  }

  /** `countsize` */
  method CountSize<V>(es: seq<Entry<V>>, size: nat) returns (n: nat)
    ensures n == |HashPart(es, size)|
  {
    n := 0;
    var i := 0;
    while i < |es|
      invariant 0 <= i <= |es| && n == |HashPart(es[..i], size)|
    {
      HashPartAt(es, size, i);
      if IsHashKey(es[i].key, size) { n := n + 1; }
      i := i + 1;
    }
    assert es[..|es|] == es;
  }

  // ----- walking a chain -----

  /** The chain on which a filled node is, and its place there; a key of this main position starts its chain here. */
  lemma ChainOf<V>(ns: seq<Node<V>>, chains: seq<seq<nat>>, h: HashFn, n: nat, k: Key) returns (c: nat, j: nat)
    requires Chained(ns, chains, h) && n < |ns| && ns[n].Node? && n == Main(h, |ns|, k)
    ensures c < |chains| && j < |chains[c]| && chains[c][j] == n
    ensures Has(ns, k) ==> c == n && OnRest(ns, chains, k, c, j)
    ensures Has(ns, k) ==> j == 0
  {
    c := Main(h, |ns|, ns[n].key);
    assert OnChain(ns, chains, h, n);
    if c == n {
      HeadOfChain(ns, chains, h, n);
      j := 0;
    } else {
      j :| 0 <= j < |chains[c]| && chains[c][j] == n;
    }
    if Has(ns, k) {
      var s: nat :| s < |ns| && ns[s].Node? && ns[s].key == k;
      assert OnChain(ns, chains, h, s);
      assert LinkOk(ns, chains, h, n, 0);
      var i :| 0 <= i < |chains[n]| && chains[n][i] == s;
    }
  }

  /** The key is at place `j` of the chain or further on. */
  ghost predicate OnRest<V>(ns: seq<Node<V>>, chains: seq<seq<nat>>, k: Key, c: nat, j: nat)
    requires c < |chains|
  {
    exists i :: j <= i < |chains[c]| && chains[c][i] < |ns| && ns[chains[c][i]].Node? && ns[chains[c][i]].key == k
  }

  lemma OnRestNext<V>(ns: seq<Node<V>>, chains: seq<seq<nat>>, k: Key, c: nat, j: nat)
    requires c < |chains| && j < |chains[c]| && chains[c][j] < |ns| && ns[chains[c][j]].Node? && ns[chains[c][j]].key != k
    ensures OnRest(ns, chains, k, c, j) ==> OnRest(ns, chains, k, c, j + 1) && j + 1 < |chains[c]|
  {
  }

  lemma LinkAt<V>(ns: seq<Node<V>>, chains: seq<seq<nat>>, h: HashFn, c: nat, j: nat)
    requires Chained(ns, chains, h) && c < |chains| && j < |chains[c]|
    ensures LinkOk(ns, chains, h, c, j)
  {
  }

  /** A node alone on its chain, with another hash: the key is not in the table. */
  lemma Elsewhere<V>(ns: seq<Node<V>>, chains: seq<seq<nat>>, h: HashFn, k: Key, c: nat, j: nat)
    requires Chained(ns, chains, h) && c < |chains| && j < |chains[c]| && chains[c][j] == Main(h, |ns|, k)
    requires ns[Main(h, |ns|, k)].Node? && ns[Main(h, |ns|, k)].nocolliding && h(k) != h(ns[Main(h, |ns|, k)].key)
    requires Has(ns, k) ==> c == Main(h, |ns|, k) && OnRest(ns, chains, k, c, 0)
    ensures !Has(ns, k)
  {
    assert LinkOk(ns, chains, h, c, j);
  }

  lemma NodeEntry<V>(ns: seq<Node<V>>, es: seq<Entry<V>>, s: nat)
    requires FromEntries(ns, es) && s < |ns| && ns[s].Node?
    ensures Entry(ns[s].key, ns[s].value) in es
  {
  }

  lemma NoEntry<V>(ns: seq<Node<V>>, hs: seq<Entry<V>>, es: seq<Entry<V>>, n: nat, k: Key)
    requires hs == HashPart(es, n) && (forall j :: 0 <= j < |hs| ==> Has(ns, hs[j].key)) && !Has(ns, k) && IsHashKey(k, n)
    ensures forall i :: 0 <= i < |es| ==> es[i].key != k
  {
    hide HashPart, Has;
    forall i | 0 <= i < |es| ensures es[i].key != k {
      HashPartMember(es, n, es[i]);
      if es[i] in hs {
        var j :| 0 <= j < |hs| && hs[j] == es[i];
        assert Has(ns, hs[j].key);
      }
    }
  }

  lemma MemberHas<V>(arr: seq<Option<V>>, ns: seq<Node<V>>, k: Key)
    requires forall s :: 0 <= s < |ns| ==> ns[s].Node?
    ensures k in KeysFrom(arr, ns, InArray(0)) && IsHashKey(k, |arr|) ==> Has(ns, k)
  {
    ArrayMember(arr, 0, k);
    HashMember(ns, 0, k);
  }

  /** Keys from any point on are keys of the whole order. */
  lemma LaterKeys<V>(arr: seq<Option<V>>, ns: seq<Node<V>>, p: Pos, k: Key)
    requires (forall s :: 0 <= s < |ns| ==> ns[s].Node?) && k in KeysFrom(arr, ns, p)
    ensures k in KeysFrom(arr, ns, InArray(0))
  {
    ArrayMember(arr, p.i, k);
    ArrayMember(arr, 0, k);
    HashMember(ns, p.i, k);
    HashMember(ns, 0, k);
  }

  lemma HashFrom<V>(arr: seq<Option<V>>, ns: seq<Node<V>>, i: nat)
    requires (forall s :: 0 <= s < |ns| ==> ns[s].Node?) && i <= |ns|
    ensures KeysFrom(arr, ns, InHash(i)) == if i == |ns| then [] else [ns[i].key] + HashKeys(ns, i + 1)
  {
  }
}
