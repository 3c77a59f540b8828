/** Sequences and sets in general. */
module Sequences {

  lemma Regroup<T>(x: seq<T>, y: seq<T>, z: seq<T>)
    ensures x + (y + z) == (x + y) + z
  {
  }

  lemma SplitAt<T>(s: seq<T>, k: nat)
    requires k < |s|
    ensures s == s[..k] + ([s[k]] + s[k + 1..])
  {
  }

  lemma InsertAfter<T>(s: seq<T>, k: nat, x: T)
    requires k < |s|
    ensures s[..k] + [s[k], x] + s[k + 1..] == s[..k + 1] + [x] + s[k + 1..]
  {
    assert s[..k] + [s[k], x] == s[..k + 1] + [x];
  }

  /** A subset is no larger. */
  lemma {:induction false} SubsetSize<T>(a: set<T>, b: set<T>)
    requires a <= b
    ensures |a| <= |b|
    decreases a
  {
    if a != {} {
      var x :| x in a;
      SubsetSize(a - {x}, b - {x});
    }
  }

  lemma SomeElement<T>(a: set<T>) returns (x: T)
    requires a != {}
    ensures x in a
  {
    x :| x in a;
  }

  /** A set of numbers has a least one. */
  lemma {:induction false} LeastOf(a: set<int>, x: int) returns (b: int)
    requires x in a
    ensures b in a && forall m :: m in a ==> b <= m
    decreases a
  {
    b := x;
    if y :| y in a && y < x {
      b := LeastOf(a - {x}, y);
      assert forall m :: m in a ==> m == x || m in a - {x};
    }
  }

  /** One element of a sequence replaced by several. */
  lemma ReplaceOne<T>(s: seq<T>, k: nat, mid: seq<T>)
    requires k < |s|
    ensures var r := s[..k] + mid + s[k + 1..]; r[..k] == s[..k] && r[k..] == mid + s[k + 1..] && r[..k + |mid|] == s[..k] + mid && r[k + |mid|..] == s[k + 1..]
  {
  }

  /** Sequences with a common beginning. */
  lemma CommonPrefix<T>(s: seq<T>, t: seq<T>, k: nat)
    requires 0 < k <= |s| && k <= |t| && s[..k] == t[..k]
    ensures s[..k - 1] == t[..k - 1] == t[..k][..k - 1] && s[k - 1] == t[k - 1] == t[..k][k - 1]
  {
    assert s[..k][..k - 1] == s[..k - 1];
    assert s[..k][k - 1] == s[k - 1];
  }
}
