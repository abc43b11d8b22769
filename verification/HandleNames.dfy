/**
 The names of handles in `skynet_handle.c`: a sorted array, as a sequence.
 */
module HandleNames {

  type Name = seq<char>

  datatype Entry = Entry(name: Name, handle: nat)

  /** `strcmp` */
  function Compare(a: Name, b: Name): int {
    if a == [] || b == [] then |a| - |b|
    else if a[0] != b[0] then a[0] as int - b[0] as int
    else Compare(a[1..], b[1..])
  }

  lemma {:induction false} CompareZero(a: Name, b: Name)
    ensures Compare(a, b) == 0 <==> a == b
  {
    if a != [] && b != [] && a[0] == b[0] {
      CompareZero(a[1..], b[1..]);
      assert a == [a[0]] + a[1..] && b == [b[0]] + b[1..];
    }
  }

  lemma {:induction false} CompareFlip(a: Name, b: Name)
    ensures Compare(a, b) == -Compare(b, a)
  {
    if a != [] && b != [] && a[0] == b[0] { CompareFlip(a[1..], b[1..]); }
  }

  lemma {:induction false} CompareTrans(a: Name, b: Name, c: Name)
    requires Compare(a, b) < 0 && Compare(b, c) < 0
    ensures Compare(a, c) < 0
  {
    if a != [] && b != [] && c != [] && a[0] == b[0] && b[0] == c[0] { CompareTrans(a[1..], b[1..], c[1..]); }
  }

  /** Strictly ascending, so without a name twice. */
  ghost predicate Sorted(s: seq<Entry>) { forall i, j :: 0 <= i < j < |s| ==> Compare(s[i].name, s[j].name) < 0 }

  /** The entries before `at` come before `name`, the others behind it. */
  ghost predicate Gap(s: seq<Entry>, name: Name, at: nat) {
    && at <= |s|
    && (forall i :: 0 <= i < at ==> Compare(s[i].name, name) < 0)
    && (forall i :: at <= i < |s| ==> Compare(s[i].name, name) > 0)
  }

  /** The name is bound to the handle. */
  ghost predicate Bound(s: seq<Entry>, name: Name, h: nat) { Entry(name, h) in s }

  lemma InsertSorted(s: seq<Entry>, e: Entry, at: nat)
    requires Sorted(s) && Gap(s, e.name, at)
    ensures Sorted(s[..at] + [e] + s[at..])
  {
    var t := s[..at] + [e] + s[at..];
    forall i, j | 0 <= i < j < |t| ensures Compare(t[i].name, t[j].name) < 0 {
      if i == at { CompareFlip(e.name, t[j].name); }
    }
  }

  function Without(s: seq<Entry>, h: nat): seq<Entry> {
    if s == [] then []
    else Without(s[..|s| - 1], h) + (if s[|s| - 1].handle == h then [] else [s[|s| - 1]])
  }

  lemma WithoutNone(h: nat)
    ensures Without([], h) == []
  {
  }

  lemma WithoutNext(s: seq<Entry>, i: nat, h: nat)
    requires i < |s|
    ensures Without(s[..i + 1], h) == Without(s[..i], h) + (if s[i].handle == h then [] else [s[i]])
  {
    assert s[..i + 1][..i] == s[..i];
  }

  lemma {:induction false} WithoutMembers(s: seq<Entry>, h: nat)
    ensures forall e :: e in Without(s, h) <==> e in s && e.handle != h
  {
    if s != [] {
      var t := s[..|s| - 1];
      WithoutMembers(t, h);
      assert s == t + [s[|s| - 1]];
    }
  }

  lemma {:induction false} WithoutSorted(s: seq<Entry>, h: nat)
    requires Sorted(s)
    ensures Sorted(Without(s, h))
  {
    if s != [] {
      var t, last := s[..|s| - 1], s[|s| - 1];
      WithoutSorted(t, h);
      WithoutMembers(t, h);
      var u := Without(t, h);
      forall i | 0 <= i < |u| ensures Compare(u[i].name, last.name) < 0 {
        assert u[i] in u;
      }
    }
  }

  lemma {:induction false} WithoutShorter(s: seq<Entry>, h: nat)
    ensures |Without(s, h)| <= |s|
  {
    if s != [] { WithoutShorter(s[..|s| - 1], h); }
  }
}
