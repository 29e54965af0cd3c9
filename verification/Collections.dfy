/** Facts about sets and numbers that several modules use. */
module Collections {

  const TWO32 := 0x1_0000_0000

  lemma {:induction false} SubsetSize<T>(a: set<T>, b: set<T>)
    requires a <= b
    ensures |a| <= |b|
  {
    if a != {} {
      var x :| x in a;
      SubsetSize(a - {x}, b - {x});
    }
  }

  /** An injective image is as large as the set. */
  lemma {:induction false} ImageSize<T(!new), U>(s: set<T>, f: T -> U, image: set<U>)
    requires forall x, y :: x in s && y in s && f(x) == f(y) ==> x == y
    requires image == set x | x in s :: f(x)
    ensures |image| == |s|
  {
    if s != {} {
      var x :| x in s;
      ImageSize(s - {x}, f, image - {f(x)});
    }
  }

  lemma MultiplyMonotone(a: nat, b: nat, c: nat)
    requires a <= b
    ensures a * c <= b * c
  {
  }

  function Pow2(k: nat): (p: nat)
    ensures p > 0
  {
    if k == 0 then 1 else 2 * Pow2(k - 1)
  }

  /** Some number lies beyond a finite set. */
  lemma {:induction false} FreshNumber(s: set<nat>) returns (bound: nat)
    ensures forall x :: x in s ==> x < bound
  {
    if s == {} {
      bound := 0;
    } else {
      var x :| x in s;
      var rest := FreshNumber(s - {x});
      bound := if x < rest then rest else x + 1;
      assert forall y :: y in s ==> y == x || y in s - {x};
    }
  }
}
