/** Speaking-pace bands shared by the transcript metrics, the paragraph
    formatter, the combined timeline and the assistant prompt: above 3.0
    words per second is too fast, below 1.0 too slow. */
module Pace {

  const FastAbove: real := 3.0
  const SlowBelow: real := 1.0

  datatype Band = TooFast | TooSlow | Optimal

  /** `if wps > 3.0 … elif wps < 1.0 … else …`. */
  function BandOf(wps: real): (b: Band)
    ensures b == TooFast <==> wps > FastAbove
    ensures b == TooSlow <==> wps < SlowBelow
    ensures b == Optimal <==> SlowBelow <= wps <= FastAbove
  {
    if wps > FastAbove then TooFast else if wps < SlowBelow then TooSlow else Optimal
  }

  /** The combined timeline's `Category` text: three different names,
      one per band. */
  function CategoryName(b: Band): (name: string)
    ensures name == "Too Fast" <==> b == TooFast
    ensures name == "Too Slow" <==> b == TooSlow
    ensures name == "Optimal" <==> b == Optimal
  {
    match b
    case TooFast => "Too Fast"
    case TooSlow => "Too Slow"
    case Optimal => "Optimal"
  }

  /** A speed is categorised "Too Fast" exactly above 3.0 words per
      second, "Too Slow" exactly below 1.0, and "Optimal" otherwise. */
  lemma CategoryOfSpeed(wps: real)
    ensures CategoryName(BandOf(wps)) == "Too Fast" <==> wps > 3.0
    ensures CategoryName(BandOf(wps)) == "Too Slow" <==> wps < 1.0
    ensures CategoryName(BandOf(wps)) == "Optimal" <==> 1.0 <= wps <= 3.0
  {
  }
}
