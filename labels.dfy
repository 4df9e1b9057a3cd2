/**
 * How a classifier label becomes the `(is_bullying, bullying_type)` pair that
 * the detector, the classification merge and the endpoints all return.
 */
module Labels {
  import opened Wrappers
  import opened Text

  const NotCyberbullying := "Not Cyberbullying"

  datatype Verdict = Verdict(isBullying: bool, bullyingType: Option<string>)

  /** What the detector returns when it cannot classify: not bullying, no type. */
  const Safe := Verdict(false, None)

  /** Any label other than "Not Cyberbullying" is bullying, and its type is the label in lower case. */
  function VerdictOf(className: string): (v: Verdict)
    ensures v.isBullying <==> className != NotCyberbullying
    ensures v.bullyingType.Some? <==> v.isBullying
    ensures v.bullyingType.Some? ==> v.bullyingType.value == Lower(className)
  {
    var isBullying := className != NotCyberbullying;
    Verdict(isBullying, if isBullying then Some(Lower(className)) else None)
  }
}
