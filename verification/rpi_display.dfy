/**
 * `rpi_ticker_epaper/display.py`, the earlier Raspberry Pi project: only
 * the default classifier of a price change survives there, the display
 * class itself being commented out.
 */
module RpiDisplay {

  /** `default_delta_func(delta, _)`: "-" for a fall, "=" for no change, "+" for a rise. */
  function DeltaSign(delta: real, price: real): (s: string)
    ensures s == "-" <==> delta < 0.0
    ensures s == "=" <==> delta == 0.0
    ensures s == "+" <==> delta > 0.0
    ensures |s| == 1
  {
    if delta < 0.0 then "-" else if delta == 0.0 then "=" else "+"
  }

  /** The current price, the second argument, never changes the sign. */
  lemma PriceIgnored(delta: real, p: real, q: real)
    ensures DeltaSign(delta, p) == DeltaSign(delta, q)
  {
  }

  /** A change and its opposite get opposite signs, and "=" only for no change. */
  lemma OppositeChanges(delta: real, price: real)
    ensures DeltaSign(delta, price) == "+" <==> DeltaSign(-delta, price) == "-"
    ensures DeltaSign(delta, price) == "=" <==> DeltaSign(-delta, price) == "="
  {
  }
}
