/**
 * The list-building loop the scripts use again and again:
 * `for x in xs: if keep(x): out.append(f(x))`.
 */
module Lists {

  /** Keeps an element as it is: the `f` of a loop that appends the element itself. */
  function Identity<T>(x: T): T {
    x
  }

  /**
   * The elements of `xs` that satisfy `keep`, each mapped by `f`, in the
   * order of `xs`. Defined from the back, so that one more loop iteration is
   * one more unfolding.
   */
  function FilterMap<T, U>(xs: seq<T>, keep: T -> bool, f: T -> U): (r: seq<U>)
    ensures |r| <= |xs|
  {
    if xs == [] then []
    else FilterMap(xs[..|xs| - 1], keep, f) + (if keep(xs[|xs| - 1]) then [f(xs[|xs| - 1])] else [])
  }

  /** Filtering a concatenation concatenates the filtered parts: the order of the input is kept. */
  lemma {:induction false} FilterMapAppend<T, U>(a: seq<T>, b: seq<T>, keep: T -> bool, f: T -> U)
    ensures FilterMap(a + b, keep, f) == FilterMap(a, keep, f) + FilterMap(b, keep, f)
    decreases |b|
  {
    if b == [] {
      assert a + b == a;
    } else {
      assert (a + b)[..|a + b| - 1] == a + b[..|b| - 1];
      FilterMapAppend(a, b[..|b| - 1], keep, f);
    }
  }

  /** `y` is produced exactly when some element of `xs` is kept and maps to `y`. */
  lemma {:induction false} FilterMapMember<T, U>(xs: seq<T>, keep: T -> bool, f: T -> U, y: U)
    ensures y in FilterMap(xs, keep, f) <==> exists i :: 0 <= i < |xs| && keep(xs[i]) && f(xs[i]) == y
    decreases |xs|
  {
    if xs != [] {
      var init := xs[..|xs| - 1];
      FilterMapMember(init, keep, f, y);
      if y in FilterMap(xs, keep, f) {
        if y in FilterMap(init, keep, f) {
          var i :| 0 <= i < |init| && keep(init[i]) && f(init[i]) == y;
          assert xs[i] == init[i];
        } else {
          assert keep(xs[|xs| - 1]) && f(xs[|xs| - 1]) == y;
        }
      } else {
        forall i | 0 <= i < |xs| && keep(xs[i])
          ensures f(xs[i]) != y
        {
          if i < |xs| - 1 {
            assert xs[i] == init[i];
          }
        }
      }
    }
  }
}
