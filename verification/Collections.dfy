/** Facts about sets and sequences that several modules share. */
module Collections {

  lemma SubsetSize<T>(a: set<T>, b: set<T>)
    requires a <= b
    ensures |a| <= |b|
  {
    assert b == a + (b - a);
  }

  predicate NoRepeats<T(==)>(list: seq<T>) {
    forall i, j :: 0 <= i < j < |list| ==> list[i] != list[j]
  }

  lemma JoinedWithoutRepeats<T>(a: seq<T>, b: seq<T>)
    requires NoRepeats(a) && NoRepeats(b) && forall x :: x in a ==> x !in b
    ensures NoRepeats(a + b)
  {
    var both := a + b;
    forall i, j | 0 <= i < j < |both| ensures both[i] != both[j] {
      assert i < |a| ==> both[i] in a;
      assert j >= |a| ==> both[j] in b;
    }
  }

  lemma {:induction false} CountWithoutRepeats<T>(list: seq<T>, x: T)
    requires NoRepeats(list)
    ensures multiset(list)[x] == if x in list then 1 else 0
  {
    if list != [] {
      CountWithoutRepeats(list[1..], x);
      assert list == [list[0]] + list[1..];
      if x == list[0] {
        assert x !in list[1..];
      }
    }
  }
}
