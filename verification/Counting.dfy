/** Sizes of finite sets. */
module Counting {

  lemma {:induction false} SubsetSize<T>(a: set<T>, b: set<T>)
    requires a <= b
    ensures |a| <= |b|
    decreases a
  {
    if x :| x in a {
      SubsetSize(a - {x}, b - {x});
    }
  }

  /** The size of a set after one element is put in or left out. */
  lemma PutSize<T>(a: set<T>, x: T, after: bool)
    ensures |if after then a + {x} else a - {x}| ==
            |a| + (if after then 1 else 0) - (if x in a then 1 else 0)
  {
    if x in a { assert a + {x} == a; } else { assert a - {x} == a; }
  }

  lemma SingletonSet<T>(a: set<T>, x: T, y: T)
    requires |a| <= 1 && x in a && y in a
    ensures x == y
  {
    if y != x { SubsetSize({x, y}, a); }
  }
}
