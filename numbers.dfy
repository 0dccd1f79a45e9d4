/** Arithmetic over lists of numbers, as the server code computes it with
    `reduce`, `Math.min`, `Math.max` and `Math.round`. Numbers are exact
    reals here; floating-point rounding is not modelled. */
module Numbers {

  /** `xs.reduce((a, b) => a + b, 0)`. */
  function SumOf(xs: seq<real>): real
    decreases |xs|
  {
    if |xs| == 0 then 0.0 else SumOf(xs[..|xs| - 1]) + xs[|xs| - 1]
  }

  function Minimum(xs: seq<real>): real
    requires |xs| > 0
    decreases |xs|
  {
    if |xs| == 1 then xs[0]
    else
      var m := Minimum(xs[..|xs| - 1]);
      if xs[|xs| - 1] < m then xs[|xs| - 1] else m
  }

  function Maximum(xs: seq<real>): real
    requires |xs| > 0
    decreases |xs|
  {
    if |xs| == 1 then xs[0]
    else
      var m := Maximum(xs[..|xs| - 1]);
      if xs[|xs| - 1] > m then xs[|xs| - 1] else m
  }

  /** `Math.min(...xs)` and `Math.max(...xs)` are a least and a greatest
      element of a non-empty list. */
  lemma {:induction false} MinMaxExact(xs: seq<real>)
    requires |xs| > 0
    ensures forall i :: 0 <= i < |xs| ==> Minimum(xs) <= xs[i] <= Maximum(xs)
    ensures Minimum(xs) in xs && Maximum(xs) in xs
    decreases |xs|
  {
    if |xs| > 1 {
      var init := xs[..|xs| - 1];
      MinMaxExact(init);
      assert forall i :: 0 <= i < |init| ==> init[i] == xs[i];
      assert forall x :: x in init ==> x in xs;
    }
  }

  /** `Math.round`: halves round up, towards positive infinity. */
  function RoundHalfUp(x: real): (n: int)
    ensures x - 0.5 < n as real <= x + 0.5
  {
    (x + 0.5).Floor
  }

}
