/**
 * First-match search over a fixed, ordered candidate list: the shape shared by
 * the script detector, the lockfile and monorepo marker checks, the example
 * env file lookup, the config file loop and the port pattern loop. Each of
 * those walks its list in order and returns on the first hit.
 */
module Search {
  import opened Wrappers

  /** Index of the first candidate that belongs to `present`, if any. */
  function FirstIn<T>(xs: seq<T>, present: set<T>): (r: Option<nat>)
    ensures r.Some? ==> r.value < |xs| && xs[r.value] in present
    ensures r.Some? ==> forall j :: 0 <= j < r.value ==> xs[j] !in present
    ensures r.None? <==> forall j :: 0 <= j < |xs| ==> xs[j] !in present
  {
    if |xs| == 0 then None
    else if xs[0] in present then Some(0)
    else match FirstIn(xs[1..], present)
      case None => None
      case Some(i) => Some(i + 1)
  }

  /** Only membership of the candidates themselves matters. */
  lemma {:induction false} FirstInCongruent<T>(xs: seq<T>, a: set<T>, b: set<T>)
    requires forall j :: 0 <= j < |xs| ==> (xs[j] in a <==> xs[j] in b)
    ensures FirstIn(xs, a) == FirstIn(xs, b)
  {
    if |xs| > 0 && xs[0] !in a {
      assert forall j :: 0 <= j < |xs| - 1 ==> xs[1..][j] == xs[j + 1];
      FirstInCongruent(xs[1..], a, b);
    }
  }

  /** A first candidate that is not present only shifts the index of the rest. */
  lemma FirstInSkips<T>(x: T, xs: seq<T>, present: set<T>)
    requires x !in present
    ensures FirstIn([x] + xs, present) == match FirstIn(xs, present)
                                          case None => None
                                          case Some(i) => Some(i + 1)
  {
    assert ([x] + xs)[1..] == xs;
  }

  /** The first `Some` that `f` yields along `xs`, if any. */
  function FirstSome<T, U>(xs: seq<T>, f: T -> Option<U>): (r: Option<U>)
    ensures r.Some? ==> exists i :: 0 <= i < |xs| && f(xs[i]) == r && forall j :: 0 <= j < i ==> f(xs[j]).None?
    ensures r.None? <==> forall i :: 0 <= i < |xs| ==> f(xs[i]).None?
  {
    if |xs| == 0 then None
    else if f(xs[0]).Some? then f(xs[0])
    else
      var r := FirstSome(xs[1..], f);
      assert forall i :: 0 <= i < |xs| - 1 ==> xs[1..][i] == xs[i + 1];
      r
  }

  /** Functions that agree on every element of `xs` find the same first value. */
  lemma {:induction false} FirstSomeCongruent<T, U>(xs: seq<T>, f: T -> Option<U>, g: T -> Option<U>)
    requires forall i :: 0 <= i < |xs| ==> f(xs[i]) == g(xs[i])
    ensures FirstSome(xs, f) == FirstSome(xs, g)
  {
    if |xs| > 0 && f(xs[0]).None? {
      assert forall i :: 0 <= i < |xs| - 1 ==> xs[1..][i] == xs[i + 1];
      FirstSomeCongruent(xs[1..], f, g);
    }
  }
}
