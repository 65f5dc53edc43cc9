/** The range clamp shared by the serial driver's files. */
module SerialMacros {
  function Constrain(min: nat, val: nat, max: nat): nat
  {
    if val < min then min else if val > max then max else val
  }

  function Gap(a: nat, b: nat): nat { if a <= b then b - a else a - b }

  /** The clamp is the value of the range that comes closest. */
  lemma {:induction false} ConstrainNearest(min: nat, val: nat, max: nat, other: nat)
    requires min <= other <= max
    ensures min <= Constrain(min, val, max) <= max
    ensures Gap(val, Constrain(min, val, max)) <= Gap(val, other)
    ensures Gap(val, Constrain(min, val, max)) == Gap(val, other) ==> other == Constrain(min, val, max)
  {
  }
}
