/** Wrappers shared by every tag model. */
module Common {

  /** Ruby's `nil` or a value. */
  datatype Option<T> = None | Some(value: T)

  /** The outcome of a Ruby expression that may raise: its value, or an exception. */
  datatype Outcome<T> = Done(value: T) | Raised

  /** `xs.map(&g)`: `g` applied to each element, built from the front as Ruby's `each` with `push` does. */
  function MapSeq<A, B>(xs: seq<A>, g: A -> B): seq<B>
  {
    if xs == [] then [] else MapSeq(xs[..|xs| - 1], g) + [g(xs[|xs| - 1])]
  }

  /** The mapped sequence has one element per input element, each the image of the one at the same place. */
  lemma {:induction false} MapSeqElementwise<A, B>(xs: seq<A>, g: A -> B)
    ensures |MapSeq(xs, g)| == |xs|
    ensures forall i :: 0 <= i < |xs| ==> MapSeq(xs, g)[i] == g(xs[i])
    decreases |xs|
  {
    if xs != [] {
      var init := xs[..|xs| - 1];
      MapSeqElementwise(init, g);
      assert forall i :: 0 <= i < |init| ==> xs[i] == init[i];
    }
  }
}
