/**
 Counting with finite sets.
 */
module Sets {

  lemma {:induction false} SubsetSize<T>(a: set<T>, b: set<T>)
    requires a <= b
    ensures |a| <= |b|
    decreases b
  {
    if b != {} {
      var x :| x in b;
      SubsetSize(a - {x}, b - {x});
      if x in a { assert a == (a - {x}) + {x}; } else { assert a == a - {x}; }
    }
  }
}
