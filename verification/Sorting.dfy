/** `Array.prototype.sort`: a stable sort by a comparison. */
module Sorting {

  /** Before the first element it may precede. */
  function Insert<T>(x: T, s: seq<T>, mayPrecede: (T, T) -> bool): seq<T> {
    if s == [] || mayPrecede(x, s[0]) then [x] + s else [s[0]] + Insert(x, s[1..], mayPrecede)
  }

  function Sorted<T>(s: seq<T>, mayPrecede: (T, T) -> bool): seq<T> {
    if s == [] then [] else Insert(s[0], Sorted(s[1..], mayPrecede), mayPrecede)
  }

  ghost predicate InOrder<T>(s: seq<T>, mayPrecede: (T, T) -> bool) {
    forall i, j :: 0 <= i < j < |s| ==> mayPrecede(s[i], s[j])
  }

  ghost predicate TotalPreorder<T(!new)>(mayPrecede: (T, T) -> bool) {
    && (forall a, b :: mayPrecede(a, b) || mayPrecede(b, a))
    && (forall a, b, c :: mayPrecede(a, b) && mayPrecede(b, c) ==> mayPrecede(a, c))
  }

  lemma {:induction false} InsertAdds<T>(x: T, s: seq<T>, mayPrecede: (T, T) -> bool)
    ensures multiset(Insert(x, s, mayPrecede)) == multiset(s) + multiset{x}
  {
    if s != [] && !mayPrecede(x, s[0]) {
      InsertAdds(x, s[1..], mayPrecede);
      assert s == [s[0]] + s[1..];
    }
  }

  lemma {:induction false} InsertKeepsOrder<T(!new)>(x: T, s: seq<T>, mayPrecede: (T, T) -> bool)
    requires TotalPreorder(mayPrecede) && InOrder(s, mayPrecede)
    ensures InOrder(Insert(x, s, mayPrecede), mayPrecede)
  {
    if s != [] && !mayPrecede(x, s[0]) {
      InsertKeepsOrder(x, s[1..], mayPrecede);
      InsertAdds(x, s[1..], mayPrecede);
      var rest := Insert(x, s[1..], mayPrecede);
      forall i | 0 <= i < |rest| ensures mayPrecede(s[0], rest[i]) {
        assert rest[i] in multiset(s[1..]) + multiset{x};
      }
    }
  }

  /** The same elements, in order. */
  lemma {:induction false} SortedIsOrdered<T(!new)>(s: seq<T>, mayPrecede: (T, T) -> bool)
    ensures multiset(Sorted(s, mayPrecede)) == multiset(s)
    ensures TotalPreorder(mayPrecede) ==> InOrder(Sorted(s, mayPrecede), mayPrecede)
  {
    if s != [] {
      SortedIsOrdered(s[1..], mayPrecede);
      InsertAdds(s[0], Sorted(s[1..], mayPrecede), mayPrecede);
      assert s == [s[0]] + s[1..];
      if TotalPreorder(mayPrecede) {
        InsertKeepsOrder(s[0], Sorted(s[1..], mayPrecede), mayPrecede);
      }
    }
  }

  /** The elements of one rank: what a stable sort leaves in their first order. */
  function Keep<T>(s: seq<T>, p: T -> bool): seq<T> {
    if s == [] then [] else (if p(s[0]) then [s[0]] else []) + Keep(s[1..], p)
  }

  lemma {:induction false} InsertIsStable<T(!new)>(x: T, s: seq<T>, mayPrecede: (T, T) -> bool, p: T -> bool)
    requires forall a, b :: p(a) && p(b) ==> mayPrecede(a, b)
    ensures Keep(Insert(x, s, mayPrecede), p) == Keep([x] + s, p)
  {
    if s != [] && !mayPrecede(x, s[0]) {
      InsertIsStable(x, s[1..], mayPrecede, p);
      var rest := Insert(x, s[1..], mayPrecede);
      assert ([s[0]] + rest)[1..] == rest;
      assert ([x] + s)[1..] == s && ([x] + s[1..])[1..] == s[1..];
    }
  }

  /** Elements that may stand either way round keep the order they came in. */
  lemma {:induction false} SortIsStable<T(!new)>(s: seq<T>, mayPrecede: (T, T) -> bool, p: T -> bool)
    requires forall a, b :: p(a) && p(b) ==> mayPrecede(a, b)
    ensures Keep(Sorted(s, mayPrecede), p) == Keep(s, p)
  {
    if s != [] {
      SortIsStable(s[1..], mayPrecede, p);
      var rest := Sorted(s[1..], mayPrecede);
      InsertIsStable(s[0], rest, mayPrecede, p);
      assert ([s[0]] + rest)[1..] == rest;
    }
  }

  // ----- permutations -----

  lemma TakeOut<T>(s: seq<T>, k: nat)
    requires k < |s|
    ensures multiset(s) == multiset(s[..k] + s[k + 1..]) + multiset{s[k]}
    ensures multiset(s[..k] + s[k + 1..]) == multiset(s) - multiset{s[k]}
  {
    assert s == s[..k] + [s[k]] + s[k + 1..];
  }

  lemma SameLength<T>(a: seq<T>, b: seq<T>)
    requires multiset(a) == multiset(b)
    ensures |a| == |b|
  {
    assert |multiset(a)| == |a|;
  }

  /** Taking the same element out of two permutations leaves permutations. */
  lemma Cancel<T>(a: seq<T>, b: seq<T>, k: nat)
    requires multiset(a) == multiset(b) && a != [] && k < |b| && b[k] == a[0]
    ensures multiset(a[1..]) == multiset(b[..k] + b[k + 1..])
  {
    assert a == [a[0]] + a[1..];
    assert multiset(a[1..]) == multiset(a) - multiset{a[0]};
    TakeOut(b, k);
  }
}
