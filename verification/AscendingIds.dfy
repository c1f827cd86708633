/** Sets of ids in ascending order, which is how every loop over a map goes. */
module AscendingIds {
  ghost predicate IsLeast(s: set<nat>, x: nat) {
    x in s && forall y | y in s :: x <= y
  }

  lemma {:induction false} LeastExists(s: set<nat>)
    requires s != {}
    ensures exists x :: IsLeast(s, x)
    decreases |s|
  {
    var a :| a in s;
    if s == {a} {
      assert IsLeast(s, a);
    } else {
      LeastExists(s - {a});
      var b :| IsLeast(s - {a}, b);
      LeastOfTwo(s, a, b);
    }
  }

  lemma LeastOfTwo(s: set<nat>, a: nat, b: nat)
    requires a in s && IsLeast(s - {a}, b)
    ensures IsLeast(s, if b < a then b else a)
  {
    forall y | y in s ensures (if b < a then b else a) <= y {
      assert y == a || y in s - {a};
    }
  }

  function Least(s: set<nat>): (r: nat)
    requires s != {}
    ensures r in s && forall y | y in s :: r <= y
  {
    LeastExists(s);
    assert exists x :: x in s && forall y | y in s :: x <= y;
    var x :| x in s && forall y | y in s :: x <= y;
    x
  }

  function Ascend(s: set<nat>): (r: seq<nat>)
    ensures forall x :: x in r <==> x in s
    ensures forall i, j | 0 <= i < j < |r| :: r[i] < r[j]
    decreases |s|
  {
    if s == {} then [] else [Least(s)] + Ascend(s - {Least(s)})
  }
}
