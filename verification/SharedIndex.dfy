/**
 The hash part of a shared table in `lua-sharedata.c`: as many nodes as keys, filled in two passes, and the chains that
 join the keys of one main position.
 */
module SharedIndex {

  import opened Sets

  datatype Key = IntKey(k: int) | StrKey(s: seq<char>)

  datatype Entry<V> = Entry(key: Key, value: V)

  /** `struct node`; a vacant node has the value type nil. */
  datatype Node<V> = Vacant | Node(key: Key, value: V, next: int, nocolliding: bool)

  /** Any hash will do. */
  type HashFn = Key -> nat

  function Main(h: HashFn, m: nat, k: Key): (i: nat)
    requires m > 0
    ensures i < m
  {
    h(k) % m
  }

  // ----- chains -----

  /** Place `j` of chain `i`: a node of that main position, linked to the next place. */
  ghost predicate LinkOk<V>(ns: seq<Node<V>>, chains: seq<seq<nat>>, h: HashFn, i: nat, j: nat)
    requires |ns| > 0 && |chains| == |ns| && i < |chains| && j < |chains[i]|
  {
    var s := chains[i][j];
    && s < |ns| && ns[s].Node? && Main(h, |ns|, ns[s].key) == i
    && ns[s].next == (if j + 1 < |chains[i]| then chains[i][j + 1] else -1)
    && (j == 0 ==> s == i)
    && (ns[s].nocolliding ==> |chains[i]| == 1)
  }

  ghost predicate OnChain<V>(ns: seq<Node<V>>, chains: seq<seq<nat>>, h: HashFn, s: nat)
    requires |ns| > 0 && |chains| == |ns| && s < |ns| && ns[s].Node?
  {
    s in chains[Main(h, |ns|, ns[s].key)]
  }

  ghost predicate Distinct<V>(ns: seq<Node<V>>) {
    forall s, t :: 0 <= s < t < |ns| && ns[s].Node? && ns[t].Node? ==> ns[s].key != ns[t].key
  }

  ghost predicate Chained<V>(ns: seq<Node<V>>, chains: seq<seq<nat>>, h: HashFn) {
    && |ns| > 0 && |chains| == |ns|
    && (forall i: nat, j: nat | i < |chains| && j < |chains[i]| :: LinkOk(ns, chains, h, i, j))
    && (forall s: nat | s < |ns| && ns[s].Node? :: OnChain(ns, chains, h, s))
    && Distinct(ns)
  }

  /** Some node holds the key. */
  ghost predicate Has<V>(ns: seq<Node<V>>, k: Key) { exists s :: 0 <= s < |ns| && ns[s].Node? && ns[s].key == k }

  /** A first key for its main position. */
  lemma HeadKeeps<V>(ns: seq<Node<V>>, chains: seq<seq<nat>>, h: HashFn, e: Entry<V>)
    requires Chained(ns, chains, h) && ns[Main(h, |ns|, e.key)].Vacant? && !Has(ns, e.key)
    ensures var i := Main(h, |ns|, e.key);
      chains[i] == [] && Chained(ns[i := Node(e.key, e.value, -1, true)], chains[i := [i]], h)
  {
    var i := Main(h, |ns|, e.key);
    VacantHead(ns, chains, h, i);
    var ms, cs := ns[i := Node(e.key, e.value, -1, true)], chains[i := [i]];
    forall a: nat, j: nat | a < |cs| && j < |cs[a]| ensures LinkOk(ms, cs, h, a, j) {
      if a != i { assert LinkOk(ns, chains, h, a, j); }
    }
    forall s: nat | s < |ms| && ms[s].Node? ensures OnChain(ms, cs, h, s) {
      if s != i { assert OnChain(ns, chains, h, s); VacantChain(ns, chains, h, i, s); }
    }
  }

  lemma VacantHead<V>(ns: seq<Node<V>>, chains: seq<seq<nat>>, h: HashFn, i: nat)
    requires Chained(ns, chains, h) && i < |ns| && ns[i].Vacant?
    ensures chains[i] == []
  {
    assert chains[i] != [] ==> LinkOk(ns, chains, h, i, 0);
  }

  /** A node that stands has another main position than one whose main node is vacant. */
  lemma VacantChain<V>(ns: seq<Node<V>>, chains: seq<seq<nat>>, h: HashFn, i: nat, s: nat)
    requires Chained(ns, chains, h) && i < |ns| && ns[i].Vacant? && s < |ns| && ns[s].Node?
    ensures Main(h, |ns|, ns[s].key) != i
  {
    assert OnChain(ns, chains, h, s);
    VacantHead(ns, chains, h, i);
  }

  /** The main node of a key, and the new node behind it. */
  function Inserted<V>(ns: seq<Node<V>>, i: nat, s: nat, e: Entry<V>): seq<Node<V>>
    requires i < |ns| && s < |ns| && i != s && ns[i].Node?
  {
    ns[s := Node(e.key, e.value, ns[i].next, false)][i := Node(ns[i].key, ns[i].value, s, false)]
  }

  function Relinked(chains: seq<seq<nat>>, i: nat, s: nat): seq<seq<nat>>
    requires i < |chains| && chains[i] != []
  {
    chains[i := [i, s] + chains[i][1..]]
  }

  /** A chain starts at its main position where the node there belongs to it. */
  lemma HeadOfChain<V>(ns: seq<Node<V>>, chains: seq<seq<nat>>, h: HashFn, i: nat)
    requires Chained(ns, chains, h) && i < |ns| && ns[i].Node? && Main(h, |ns|, ns[i].key) == i
    ensures chains[i] != [] && chains[i][0] == i
  {
    assert OnChain(ns, chains, h, i);
    assert LinkOk(ns, chains, h, i, 0);
  }

  /** Only the head of a chain is at its main position. */
  lemma HeadOnce<V>(ns: seq<Node<V>>, chains: seq<seq<nat>>, h: HashFn, i: nat, j: nat)
    requires Chained(ns, chains, h) && i < |chains| && 0 < j < |chains[i]|
    ensures chains[i][j] != i
  {
    Repeats(ns, chains, h, i, j, |chains[i]| - j);
  }

  /** Were place `j` the head again, the chain from there on would repeat the chain from the head on, without an end. */
  lemma {:induction false} Repeats<V>(ns: seq<Node<V>>, chains: seq<seq<nat>>, h: HashFn, i: nat, j: nat, n: nat)
    requires Chained(ns, chains, h) && i < |chains| && 0 < j < |chains[i]| && n <= |chains[i]| - j
    ensures chains[i][j] == i ==> n < |chains[i]| - j && (n > 0 ==> chains[i][n - 1] == chains[i][j + n - 1])
  {
    assert LinkOk(ns, chains, h, i, 0);
    if n > 0 {
      Repeats(ns, chains, h, i, j, n - 1);
      assert LinkOk(ns, chains, h, i, n - 1) && LinkOk(ns, chains, h, i, j + n - 1);
      if n > 1 { assert LinkOk(ns, chains, h, i, n - 2) && LinkOk(ns, chains, h, i, j + n - 2); }
    }
  }

  /** A further key of a main position, in a vacant node. */
  lemma InsertKeeps<V>(ns: seq<Node<V>>, chains: seq<seq<nat>>, h: HashFn, s: nat, e: Entry<V>)
    requires Chained(ns, chains, h) && s < |ns| && ns[s].Vacant? && !Has(ns, e.key)
    requires var i := Main(h, |ns|, e.key); ns[i].Node? && Main(h, |ns|, ns[i].key) == i
    ensures var i := Main(h, |ns|, e.key);
      chains[i] != [] && Chained(Inserted(ns, i, s, e), Relinked(chains, i, s), h)
  {
    var i := Main(h, |ns|, e.key);
    HeadOfChain(ns, chains, h, i);
    var ms, cs := Inserted(ns, i, s, e), Relinked(chains, i, s);
    forall a: nat, j: nat | a < |cs| && j < |cs[a]| ensures LinkOk(ms, cs, h, a, j) {
      InsertLink(ns, chains, h, s, e, a, j);
    }
    forall t: nat | t < |ms| && ms[t].Node? ensures OnChain(ms, cs, h, t) {
      InsertOnChain(ns, chains, h, s, e, t);
    }
  }

  lemma InsertLink<V>(ns: seq<Node<V>>, chains: seq<seq<nat>>, h: HashFn, s: nat, e: Entry<V>, a: nat, j: nat)
    requires Chained(ns, chains, h) && s < |ns| && ns[s].Vacant?
    requires var i := Main(h, |ns|, e.key); ns[i].Node? && Main(h, |ns|, ns[i].key) == i && chains[i] != [] && chains[i][0] == i
    requires var cs := Relinked(chains, Main(h, |ns|, e.key), s); a < |cs| && j < |cs[a]|
    ensures var i := Main(h, |ns|, e.key); LinkOk(Inserted(ns, i, s, e), Relinked(chains, i, s), h, a, j)
  {
    var i := Main(h, |ns|, e.key);
    var cs := Relinked(chains, i, s);
    assert LinkOk(ns, chains, h, i, 0);
    if a == i {
      if j >= 2 {
        assert cs[i][j] == chains[i][j - 1];
        assert LinkOk(ns, chains, h, i, j - 1);
        HeadOnce(ns, chains, h, i, j - 1);
      }
    } else {
      assert LinkOk(ns, chains, h, a, j);
    }
  }

  lemma InsertOnChain<V>(ns: seq<Node<V>>, chains: seq<seq<nat>>, h: HashFn, s: nat, e: Entry<V>, t: nat)
    requires Chained(ns, chains, h) && s < |ns| && ns[s].Vacant? && t < |ns| && (ns[t].Node? || t == s)
    requires var i := Main(h, |ns|, e.key); ns[i].Node? && Main(h, |ns|, ns[i].key) == i && chains[i] != [] && chains[i][0] == i
    ensures var i := Main(h, |ns|, e.key); OnChain(Inserted(ns, i, s, e), Relinked(chains, i, s), h, t)
  {
    var i := Main(h, |ns|, e.key);
    var c := Relinked(chains, i, s)[i];
    assert c[0] == i && c[1] == s;
    if t != s && t != i {
      assert OnChain(ns, chains, h, t);
      if Main(h, |ns|, ns[t].key) == i {
        var j :| 0 <= j < |chains[i]| && chains[i][j] == t;
        assert c[j + 1] == t;
      }
    }
  }

  // ----- counting -----

  ghost function KeysOf<V>(ns: seq<Node<V>>, n: nat): set<Key>
    requires n <= |ns|
  {
    if n == 0 then {} else KeysOf(ns, n - 1) + (if ns[n - 1].Node? then {ns[n - 1].key} else {})
  }

  ghost function Used<V>(ns: seq<Node<V>>, n: nat): nat
    requires n <= |ns|
  {
    if n == 0 then 0 else Used(ns, n - 1) + (if ns[n - 1].Node? then 1 else 0)
  }

  lemma {:induction false} KeysOfMember<V>(ns: seq<Node<V>>, n: nat, k: Key)
    requires n <= |ns|
    ensures k in KeysOf(ns, n) <==> exists s :: 0 <= s < n && ns[s].Node? && ns[s].key == k
  {
    if n > 0 { KeysOfMember(ns, n - 1, k); }
  }

  lemma KeysOfNone<V>(ns: seq<Node<V>>)
    ensures KeysOf(ns, 0) == {}
  {
  }

  lemma KeysOfStep<V>(ns: seq<Node<V>>, n: nat)
    requires 0 < n <= |ns|
    ensures KeysOf(ns, n) == if ns[n - 1].Node? then KeysOf(ns, n - 1) + {ns[n - 1].key} else KeysOf(ns, n - 1)
  {
  }

  lemma {:induction false} KeyCount<V>(ns: seq<Node<V>>, n: nat)
    requires n <= |ns| && Distinct(ns)
    ensures |KeysOf(ns, n)| == Used(ns, n)
  {
    hide KeysOf;
    KeysOfNone(ns);
    if n > 0 {
      KeyCount(ns, n - 1);
      KeysOfStep(ns, n);
      if ns[n - 1].Node? { KeysOfMember(ns, n - 1, ns[n - 1].key); }
    }
  }

  lemma {:induction false} UsedBound<V>(ns: seq<Node<V>>, n: nat)
    requires n <= |ns|
    ensures Used(ns, n) <= n
    ensures Used(ns, n) == n <==> forall s :: 0 <= s < n ==> ns[s].Node?
  {
    if n > 0 { UsedBound(ns, n - 1); }
  }

  ghost function EntryKeys<V>(es: seq<Entry<V>>, n: nat): set<Key>
    requires n <= |es|
  {
    if n == 0 then {} else EntryKeys(es, n - 1) + {es[n - 1].key}
  }

  /** Every key is there once. */
  ghost predicate KeysDiffer<V>(es: seq<Entry<V>>) {
    forall i, j :: 0 <= i < j < |es| ==> es[i].key != es[j].key
  }

  lemma {:induction false} EntryKeysMember<V>(es: seq<Entry<V>>, n: nat, k: Key)
    requires n <= |es|
    ensures k in EntryKeys(es, n) <==> exists i :: 0 <= i < n && es[i].key == k
  {
    if n > 0 { EntryKeysMember(es, n - 1, k); }
  }

  lemma {:induction false} EntryCount<V>(es: seq<Entry<V>>, n: nat)
    requires n <= |es| && KeysDiffer(es)
    ensures |EntryKeys(es, n)| == n
  {
    if n > 0 {
      EntryCount(es, n - 1);
      EntryKeysMember(es, n - 1, es[n - 1].key);
    }
  }

  /** Every node comes from an entry. */
  ghost predicate FromEntries<V>(ns: seq<Node<V>>, es: seq<Entry<V>>) {
    forall s :: 0 <= s < |ns| && ns[s].Node? ==> Entry(ns[s].key, ns[s].value) in es
  }

  lemma NodeKeysInEntries<V>(ns: seq<Node<V>>, es: seq<Entry<V>>)
    requires FromEntries(ns, es)
    ensures KeysOf(ns, |ns|) <= EntryKeys(es, |es|)
  {
    forall k | k in KeysOf(ns, |ns|) ensures k in EntryKeys(es, |es|) {
      KeysOfMember(ns, |ns|, k);
      var s :| 0 <= s < |ns| && ns[s].Node? && ns[s].key == k;
      var i :| 0 <= i < |es| && es[i] == Entry(ns[s].key, ns[s].value);
      EntryKeysMember(es, |es|, k);
    }
  }

  /** The assertion of the second pass: a key that is not in yet finds a vacant node. */
  lemma RoomLeft<V>(ns: seq<Node<V>>, es: seq<Entry<V>>, k: Key)
    requires Distinct(ns) && FromEntries(ns, es) && KeysDiffer(es) && |ns| == |es|
    requires !Has(ns, k) && exists i :: 0 <= i < |es| && es[i].key == k
    ensures exists s :: 0 <= s < |ns| && ns[s].Vacant?
  {
    var a, b := KeysOf(ns, |ns|), EntryKeys(es, |es|);
    NodeKeysInEntries(ns, es);
    KeysOfMember(ns, |ns|, k);
    EntryKeysMember(es, |es|, k);
    SubsetSize(a, b - {k});
    KeyCount(ns, |ns|);
    EntryCount(es, |es|);
    UsedBound(ns, |ns|);
  }

  /** With all keys in, every node is filled. */
  lemma AllFilled<V>(ns: seq<Node<V>>, es: seq<Entry<V>>)
    requires Distinct(ns) && KeysDiffer(es) && |ns| == |es|
    requires forall i :: 0 <= i < |es| ==> Has(ns, es[i].key)
    ensures forall s :: 0 <= s < |ns| ==> ns[s].Node?
  {
    var a, b := KeysOf(ns, |ns|), EntryKeys(es, |es|);
    forall k | k in b ensures k in a {
      EntryKeysMember(es, |es|, k);
      var i :| 0 <= i < |es| && es[i].key == k;
      assert Has(ns, es[i].key);
      KeysOfMember(ns, |ns|, k);
    }
    SubsetSize(b, a);
    KeyCount(ns, |ns|);
    EntryCount(es, |es|);
    UsedBound(ns, |ns|);
  }
}
