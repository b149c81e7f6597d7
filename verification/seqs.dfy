/** Searching and projecting ordered collections, the way Array.prototype.findIndex,
    Mongoose's DocumentArray#id, and filter-then-map chains do it. */
module Seqs {
  import opened Wrappers

  /** Index of the first element satisfying `p`: a front-to-back scan in which the
      first match wins, as both findIndex and DocumentArray#id search. */
  function Find<T>(s: seq<T>, p: T -> bool): (r: Option<nat>)
    ensures r.Some? ==> r.value < |s| && p(s[r.value])
    ensures r.Some? ==> forall j :: 0 <= j < r.value ==> !p(s[j])
    ensures r.None? <==> forall j :: 0 <= j < |s| ==> !p(s[j])
  {
    if |s| == 0 then None
    else if p(s[0]) then Some(0)
    else match Find(s[1..], p)
      case None => None
      case Some(i) => Some(i + 1)
  }

  /** `s.filter(keep).map(view)`: the elements that pass `keep`, in order, each
      turned into its external shape by `view`. */
  function Project<T, V>(s: seq<T>, keep: T -> bool, view: T -> V): (r: seq<V>)
    ensures |r| <= |s|
    ensures forall x :: x in s && keep(x) ==> view(x) in r
    ensures forall v :: v in r ==> exists x :: x in s && keep(x) && v == view(x)
  {
    if |s| == 0 then []
    else (if keep(s[0]) then [view(s[0])] else []) + Project(s[1..], keep, view)
  }

  /** Nothing kept, nothing projected. */
  lemma {:induction false} ProjectNone<T, V>(s: seq<T>, keep: T -> bool, view: T -> V)
    requires forall i :: 0 <= i < |s| ==> !keep(s[i])
    ensures Project(s, keep, view) == []
  {
    if |s| > 0 {
      ProjectNone(s[1..], keep, view);
    }
  }

  /** Projection distributes over concatenation, so it keeps the stored order. */
  lemma {:induction false} ProjectAppend<T, V>(a: seq<T>, b: seq<T>, keep: T -> bool, view: T -> V)
    ensures Project(a + b, keep, view) == Project(a, keep, view) + Project(b, keep, view)
  {
    if |a| == 0 {
      assert a + b == b;
    } else {
      assert (a + b)[1..] == a[1..] + b;
      ProjectAppend(a[1..], b, keep, view);
    }
  }

  /** Two scans agree when the predicates agree position by position. */
  lemma {:induction false} FindPointwise<T, U>(a: seq<T>, p: T -> bool, b: seq<U>, q: U -> bool)
    requires |a| == |b|
    requires forall i :: 0 <= i < |a| ==> p(a[i]) == q(b[i])
    ensures Find(a, p) == Find(b, q)
  {
    if |a| > 0 {
      FindPointwise(a[1..], p, b[1..], q);
    }
  }
}
