/** Insertion order without repetition, as a JavaScript Set and a Python dict keep it: each element once, where it was first added. */
module JsSet {

  function Distinct<T(==)>(s: seq<T>): seq<T> {
    if s == [] then []
    else AddTo(Distinct(s[..|s| - 1]), s[|s| - 1])
  }

  function AddTo<T(==)>(s: seq<T>, x: T): seq<T> {
    if x in s then s else s + [x]
  }

  function AddAll<T(==)>(s: seq<T>, more: seq<T>): seq<T> {
    if more == [] then s else AddTo(AddAll(s, more[..|more| - 1]), more[|more| - 1])
  }

  ghost predicate NoRepeats<T>(s: seq<T>) {
    forall i, j :: 0 <= i < j < |s| ==> s[i] != s[j]
  }

  /** Exactly the elements of the list, each once, in the order they first appear. */
  lemma {:induction false} DistinctKeepsFirsts<T>(s: seq<T>)
    ensures NoRepeats(Distinct(s))
    ensures forall x :: x in Distinct(s) <==> x in s
    ensures forall i :: 0 <= i <= |s| ==> Distinct(s[..i]) <= Distinct(s)
  {
    if s != [] {
      var init := s[..|s| - 1];
      DistinctKeepsFirsts(init);
      forall i | 0 <= i <= |s| ensures Distinct(s[..i]) <= Distinct(s) {
        if i < |s| {
          assert init[..i] == s[..i];
        } else {
          assert s[..i] == s;
        }
      }
    }
  }

  lemma {:induction false} AddAllIsDistinct<T>(s: seq<T>, more: seq<T>)
    ensures AddAll(Distinct(s), more) == Distinct(s + more)
  {
    if more == [] {
      assert s + more == s;
    } else {
      AddAllIsDistinct(s, more[..|more| - 1]);
      assert (s + more)[..|s + more| - 1] == s + more[..|more| - 1];
    }
  }
}
