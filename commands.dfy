/** The argument rules of the read-only commands: the `/top` limit, the
    `/history` day count and the Fear & Greed banding of `/feargreed`. */
module Commands {
  import opened Common

  const DefaultTopLimit: nat := 10
  const MaxTopLimit: nat := 50

  /** The `/top` limit. `arg` is the first argument when it consists of
      decimal digits, and None when it is missing or is not all digits. */
  function TopLimit(arg: Option<nat>): (r: nat)
    ensures r <= MaxTopLimit
    ensures arg.None? ==> r == DefaultTopLimit
    ensures arg.Some? ==> (r == arg.value <==> arg.value <= MaxTopLimit)
    ensures arg.Some? && arg.value > MaxTopLimit ==> r == MaxTopLimit
  {
    match arg
    case None => DefaultTopLimit
    case Some(n) => if n < MaxTopLimit then n else MaxTopLimit
  }

  const DefaultHistoryDays: nat := 7

  /** The day counts `/history` accepts. */
  const HistoryDayChoices: seq<nat> := [1, 7, 30, 90, 365]

  /** The `/history` day count. `arg` is the second argument when it
      consists of decimal digits; a count outside the accepted ones falls
      back to the default, it is not clamped. */
  function HistoryDays(arg: Option<nat>): (r: nat)
    ensures r in HistoryDayChoices
    ensures arg.Some? ==> (r == arg.value <==> arg.value in HistoryDayChoices)
    ensures arg.None? || arg.value !in HistoryDayChoices ==> r == DefaultHistoryDays
  {
    match arg
    case None => DefaultHistoryDays
    case Some(n) => if n in HistoryDayChoices then n else DefaultHistoryDays
  }

  /** The five bands of the Fear & Greed index, from the most fearful. */
  datatype Sentiment = ExtremeFear | Fear | Neutral | Greed | ExtremeGreed
  {
    /** The band's position, 0 for ExtremeFear up to 4 for ExtremeGreed. */
    function Rank(): nat
    {
      match this
      case ExtremeFear => 0
      case Fear => 1
      case Neutral => 2
      case Greed => 3
      case ExtremeGreed => 4
    }
  }

  /** The band `/feargreed` reports for an index value. */
  function Band(value: int): (r: Sentiment)
    ensures r == ExtremeFear <==> value <= 25
    ensures r == Fear <==> 25 < value <= 45
    ensures r == Neutral <==> 45 < value <= 55
    ensures r == Greed <==> 55 < value <= 75
    ensures r == ExtremeGreed <==> 75 < value
  {
    if value <= 25 then ExtremeFear
    else if value <= 45 then Fear
    else if value <= 55 then Neutral
    else if value <= 75 then Greed
    else ExtremeGreed
  }

  /** A higher index never lands in a more fearful band. */
  lemma BandMonotone(v: int, w: int)
    requires v <= w
    ensures Band(v).Rank() <= Band(w).Rank()
  {
  }
}
