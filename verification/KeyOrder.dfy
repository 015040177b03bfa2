/** Key-ordered iteration over a finite set of keys, the way the key-value store's iterator visits them. */
module KeyOrder {

  ghost predicate IsMin(s: set<nat>, x: nat) {
    x in s && forall y :: y in s ==> x <= y
  }

  lemma {:induction false} MinExists(s: set<nat>)
    requires s != {}
    ensures exists x :: IsMin(s, x)
  {
    var x :| x in s;
    if s == {x} {
      assert IsMin(s, x);
    } else {
      MinExists(s - {x});
      var y :| IsMin(s - {x}, y);
      assert forall z :: z in s ==> z == x || z in s - {x};
      assert IsMin(s, if x < y then x else y);
    }
  }

  function Min(s: set<nat>): (x: nat)
    requires s != {}
    ensures IsMin(s, x)
  {
    MinExists(s);
    var x :| x in s && forall y :: y in s ==> x <= y;
    x
  }

  /** All elements of `s`, smallest first. */
  function SortedKeys(s: set<nat>): (r: seq<nat>)
    ensures forall x :: x in r <==> x in s
    ensures forall i, j :: 0 <= i < j < |r| ==> r[i] < r[j]
    decreases |s|
  {
    if s == {} then []
    else
      var x := Min(s);
      [x] + SortedKeys(s - {x})
  }
}
