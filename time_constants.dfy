// The `Time` enumeration of src/lib/utils/time/constants.ts: units of time in
// milliseconds.
module TimeConstants {
  datatype TimeUnit = Millisecond | Second | Minute | Hour | Day | Week | Year

  /** How many steps of the enumeration's definition lead from a unit down to milliseconds. */
  function Rank(u: TimeUnit): nat
  {
    match u
    case Millisecond => 0
    case Second => 1
    case Minute => 2
    case Hour => 3
    case Day => 4
    case Week => 5
    case Year => 5
  }

  /** The length of a unit in milliseconds, each defined from a smaller unit as in the enumeration. */
  function Milliseconds(u: TimeUnit): (r: nat)
    ensures u == Second ==> r == 1000
    ensures u == Minute ==> r == 60_000
    ensures u == Hour ==> r == 3_600_000
    ensures u == Day ==> r == 86_400_000
    ensures u == Week ==> r == 604_800_000
    ensures u == Year ==> r == 31_536_000_000
    decreases Rank(u)
  {
    match u
    case Millisecond => 1
    case Second => 1000 * Milliseconds(Millisecond)
    case Minute => 60 * Milliseconds(Second)
    case Hour => 60 * Milliseconds(Minute)
    case Day => 24 * Milliseconds(Hour)
    case Week => 7 * Milliseconds(Day)
    case Year => 365 * Milliseconds(Day)
  }

  /** The default interval of the activity rotation, five minutes. */
  lemma FiveMinutes()
    ensures 5 * Milliseconds(Minute) == 300_000
  {
  }
}
