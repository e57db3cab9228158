/** The timeval arithmetic of the event loop. */
module RilTime {
  const SECOND := 1_000_000

  datatype TimeVal = TimeVal(sec: int, usec: int)
  {
    predicate Normal() { 0 <= usec < SECOND }

    /** The instant in microseconds. */
    function Micros(): int { SECOND * sec + usec }
  }

  /** timercmp with < : seconds decide unless they are equal. */
  predicate Less(a: TimeVal, b: TimeVal)
  {
    if a.sec == b.sec then a.usec < b.usec else a.sec < b.sec
  }

  function Add(a: TimeVal, b: TimeVal): TimeVal
  {
    if a.usec + b.usec >= SECOND then TimeVal(a.sec + b.sec + 1, a.usec + b.usec - SECOND)
    else TimeVal(a.sec + b.sec, a.usec + b.usec)
  }

  function Sub(a: TimeVal, b: TimeVal): TimeVal
  {
    if a.usec - b.usec < 0 then TimeVal(a.sec - b.sec - 1, a.usec - b.usec + SECOND)
    else TimeVal(a.sec - b.sec, a.usec - b.usec)
  }

  /** On normalised times the field-wise operations are those of the instants. */
  lemma Arithmetic(a: TimeVal, b: TimeVal)
    requires a.Normal() && b.Normal()
    ensures Less(a, b) <==> a.Micros() < b.Micros()
    ensures Add(a, b).Normal() && Add(a, b).Micros() == a.Micros() + b.Micros()
    ensures Sub(a, b).Normal() && Sub(a, b).Micros() == a.Micros() - b.Micros()
    ensures a.Micros() == b.Micros() ==> a == b
  {}
}
