/**
 Keeping, in order, the results of the elements for which a partial map
 yields something: the shape of a loop that appends to a list and skips
 elements with `continue`.
 */
module Selection {
  import opened Optional

  /** The defined results of `f` over `xs`, in the order of `xs`. */
  function Keep<A, B>(xs: seq<A>, f: A -> Option<B>): (r: seq<B>)
    ensures |r| <= |xs|
  {
    if xs == [] then []
    else
      var last := f(xs[|xs| - 1]);
      Keep(xs[..|xs| - 1], f) + (if last.Some? then [last.value] else [])
  }

  /** The positions in `xs` whose result `Keep` keeps, in order. */
  function KeptAt<A, B>(xs: seq<A>, f: A -> Option<B>): seq<nat>
  {
    if xs == [] then []
    else KeptAt(xs[..|xs| - 1], f) + (if f(xs[|xs| - 1]).Some? then [|xs| - 1] else [])
  }

  /** `Keep` is an order-preserving selection: its k-th element is the result
      at position KeptAt[k], those positions strictly increase, and every
      position with a result is among them. */
  lemma {:induction false} KeepSelectsInOrder<A, B>(xs: seq<A>, f: A -> Option<B>)
    ensures |KeptAt(xs, f)| == |Keep(xs, f)|
    ensures forall k :: 0 <= k < |KeptAt(xs, f)| ==>
      KeptAt(xs, f)[k] < |xs| && f(xs[KeptAt(xs, f)[k]]) == Some(Keep(xs, f)[k])
    ensures forall k, m :: 0 <= k < m < |KeptAt(xs, f)| ==> KeptAt(xs, f)[k] < KeptAt(xs, f)[m]
    ensures forall i :: 0 <= i < |xs| && f(xs[i]).Some? ==> i in KeptAt(xs, f)
  {
    if xs != [] {
      var init := xs[..|xs| - 1];
      KeepSelectsInOrder(init, f);
      var p, q, r := KeptAt(init, f), KeptAt(xs, f), Keep(xs, f);
      forall k | 0 <= k < |p|
        ensures q[k] < |xs| && f(xs[q[k]]) == Some(r[k])
      {
        assert q[k] == p[k] && xs[p[k]] == init[p[k]];
      }
      forall i | 0 <= i < |xs| && f(xs[i]).Some?
        ensures i in q
      {
        if i < |init| {
          assert xs[i] == init[i];
          assert i in p;
        }
      }
    }
  }
}
