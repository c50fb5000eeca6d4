/** Python's `sorted()` applied to a set of strings. */
module Sorting {
  import opened PyStrings

  /** Each element is `<` every later one, so no string appears twice. */
  predicate StrictlySorted(r: seq<string>) {
    forall i, j :: 0 <= i < j < |r| ==> LexLess(r[i], r[j])
  }

  /** The elements of a sequence, as a set. */
  function Elements(r: seq<string>): set<string> {
    set i | 0 <= i < |r| :: r[i]
  }

  /** `r` with `x` put in its place; `r` unchanged if it already holds `x`. */
  function Insert(r: seq<string>, x: string): (q: seq<string>)
    requires StrictlySorted(r)
    ensures StrictlySorted(q)
    ensures Elements(q) == Elements(r) + {x}
  {
    LexLessTotal(x, if r == [] then x else r[0]);
    if r == [] then
      ConsSorted(x, []);
      assert [x] + [] == [x];
      [x]
    else if x == r[0] then
      HeadLeast(r);
      r
    else if LexLess(x, r[0]) then
      BelowHead(x, r);
      ConsSorted(x, r);
      [x] + r
    else
      HeadLeast(r);
      var q := Insert(r[1..], x);
      ConsSorted(r[0], q);
      [r[0]] + q
  }

  /** The first element of a strictly sorted sequence is below all the others. */
  lemma HeadLeast(r: seq<string>)
    requires StrictlySorted(r) && r != []
    ensures StrictlySorted(r[1..]) && Elements(r) == {r[0]} + Elements(r[1..])
    ensures forall z :: z in Elements(r[1..]) ==> LexLess(r[0], z)
  {
    var t := r[1..];
    assert forall i :: 0 < i < |r| ==> r[i] == t[i - 1];
    assert forall i :: 0 <= i < |t| ==> t[i] == r[i + 1];
  }

  /** A string below the first element of a strictly sorted sequence is below all of them. */
  lemma BelowHead(y: string, r: seq<string>)
    requires StrictlySorted(r) && r != [] && LexLess(y, r[0])
    ensures forall z :: z in Elements(r) ==> LexLess(y, z)
  {
    forall z | z in Elements(r)
      ensures LexLess(y, z)
    {
      var i :| 0 <= i < |r| && r[i] == z;
      if 0 < i {
        LexLessTransitive(y, r[0], z);
      }
    }
  }

  /** Putting a string below all the elements in front keeps a sequence strictly sorted. */
  lemma ConsSorted(y: string, q: seq<string>)
    requires StrictlySorted(q)
    requires forall z :: z in Elements(q) ==> LexLess(y, z)
    ensures StrictlySorted([y] + q) && Elements([y] + q) == {y} + Elements(q)
  {
    var p := [y] + q;
    assert forall i :: 0 < i < |p| ==> p[i] == q[i - 1];
    assert forall i :: 0 <= i < |q| ==> q[i] == p[i + 1];
    assert p[0] == y;
    forall z | z in Elements(p)
      ensures z == y || z in Elements(q)
    {
      var i :| 0 <= i < |p| && p[i] == z;
      if 0 < i {
        assert q[i - 1] == z;
      }
    }
    forall i, j | 0 <= i < j < |p|
      ensures LexLess(p[i], p[j])
    {
      if i == 0 {
        assert q[j - 1] in Elements(q);
      }
    }
  }

  /** `sorted(s)`: the one strictly sorted sequence holding exactly the elements of `s`. */
  ghost function SortedOf(s: set<string>): (r: seq<string>)
    ensures StrictlySorted(r) && Elements(r) == s
  {
    if s == {} then []
    else
      var x :| x in s;
      Insert(SortedOf(s - {x}), x)
  }

  /** Two strictly sorted sequences with the same elements are the same sequence. */
  lemma {:induction false} SortedUnique(a: seq<string>, b: seq<string>)
    requires StrictlySorted(a) && StrictlySorted(b) && Elements(a) == Elements(b)
    ensures a == b
    decreases |a|
  {
    if a != [] {
      assert a[0] in Elements(a);
    }
    if b != [] {
      assert b[0] in Elements(b);
    }
    if a != [] && b != [] {
      assert a[0] in Elements(b) && b[0] in Elements(a);
      var i :| 0 <= i < |b| && b[i] == a[0];
      var j :| 0 <= j < |a| && a[j] == b[0];
      if 0 < i && 0 < j {
        LexLessTransitive(a[0], a[j], a[0]);
        LexLessIrreflexive(a[0]);
      } else if 0 < i {
        assert LexLess(b[0], b[i]);
        LexLessIrreflexive(a[0]);
      } else if 0 < j {
        assert LexLess(a[0], a[j]);
        LexLessIrreflexive(a[0]);
      }
      assert a[0] == b[0];
      Tail(a);
      Tail(b);
      SortedUnique(a[1..], b[1..]);
      assert a == [a[0]] + a[1..] && b == [b[0]] + b[1..];
    }
  }

  /** Dropping the least element of a strictly sorted sequence keeps it sorted and removes exactly that element. */
  lemma Tail(a: seq<string>)
    requires StrictlySorted(a) && a != []
    ensures StrictlySorted(a[1..]) && Elements(a[1..]) == Elements(a) - {a[0]}
  {
    var t := a[1..];
    assert forall i :: 0 < i < |a| ==> a[i] == t[i - 1];
    assert forall i :: 0 <= i < |t| ==> t[i] == a[i + 1];
    forall i | 0 <= i < |t|
      ensures t[i] != a[0]
    {
      LexLessIrreflexive(a[0]);
      assert LexLess(a[0], a[i + 1]);
    }
  }

  /** `sorted(s)` computed by inserting the elements one at a time. */
  method Sorted(s: set<string>) returns (r: seq<string>)
    ensures r == SortedOf(s)
  {
    r := [];
    var rest := s;
    while rest != {}
      invariant rest <= s
      invariant StrictlySorted(r) && Elements(r) == s - rest
      decreases rest
    {
      var x :| x in rest;
      r := Insert(r, x);
      rest := rest - {x};
    }
    SortedUnique(r, SortedOf(s));
  }
}
