/**
 * Market-data vocabulary shared by the server-side and browser candle
 * aggregators: a trade tick, the six chart timeframes, and the bucketing
 * rule `Math.floor(t / tf) * tf` on non-negative millisecond timestamps.
 */
module Market {

  /** One observed trade: its price and its time in milliseconds. */
  datatype Tick = Tick(price: int, timestamp: nat)

  /** The six timeframes, keyed "1m", "5m", "15m", "1h", "4h" and "1d" in the source. */
  datatype Timeframe = OneMinute | FiveMinutes | FifteenMinutes | OneHour | FourHours | OneDay

  /** All timeframes, in the order the source lists them. */
  const AllTimeframes: seq<Timeframe> :=
    [OneMinute, FiveMinutes, FifteenMinutes, OneHour, FourHours, OneDay]

  function Key(tf: Timeframe): string {
    match tf
    case OneMinute => "1m"
    case FiveMinutes => "5m"
    case FifteenMinutes => "15m"
    case OneHour => "1h"
    case FourHours => "4h"
    case OneDay => "1d"
  }

  /** The list of timeframes holds each of the six exactly once, and their keys are distinct. */
  lemma AllTimeframesComplete()
    ensures |AllTimeframes| == 6
    ensures forall tf: Timeframe :: tf in AllTimeframes
    ensures forall i, j :: 0 <= i < j < |AllTimeframes| ==> Key(AllTimeframes[i]) != Key(AllTimeframes[j])
  {
    forall tf: Timeframe ensures tf in AllTimeframes {
      match tf
      case OneMinute => assert AllTimeframes[0] == tf;
      case FiveMinutes => assert AllTimeframes[1] == tf;
      case FifteenMinutes => assert AllTimeframes[2] == tf;
      case OneHour => assert AllTimeframes[3] == tf;
      case FourHours => assert AllTimeframes[4] == tf;
      case OneDay => assert AllTimeframes[5] == tf;
    }
  }

  /** The position of a timeframe in the list of all timeframes. */
  function Index(tf: Timeframe): (i: nat)
    ensures i < |AllTimeframes| && AllTimeframes[i] == tf
  {
    match tf
    case OneMinute => 0
    case FiveMinutes => 1
    case FifteenMinutes => 2
    case OneHour => 3
    case FourHours => 4
    case OneDay => 5
  }

  /** `Index` is the inverse of listing the timeframes. */
  lemma IndexInverse(i: nat)
    requires i < |AllTimeframes|
    ensures Index(AllTimeframes[i]) == i
  {
  }

  /** The start of the `tf`-millisecond bucket holding time `t`. */
  function Bucket(t: nat, tf: nat): (b: nat)
    requires tf > 0
    ensures b % tf == 0
    ensures b <= t < b + tf
  {
    var q := t / tf;
    MultipleMod(q, tf);
    q * tf
  }

  /** A multiple of `tf` leaves no remainder. */
  lemma MultipleMod(q: nat, tf: nat)
    requires tf > 0
    ensures (q * tf) % tf == 0
  {
    var x := q * tf;
    var d, r := x / tf, x % tf;
    assert x == d * tf + r && 0 <= r < tf;
    assert (q - d) * tf == r;
    if q - d >= 1 {
      MulMonotone(1, q - d, tf);
    } else if q - d <= -1 {
      MulMonotone(q - d, -1, tf);
    }
  }

  /** A multiple of `tf` within `tf` below `t` is the bucket start of `t`. */
  lemma BucketUnique(t: nat, tf: nat, b: nat)
    requires tf > 0 && b % tf == 0 && b <= t < b + tf
    ensures Bucket(t, tf) == b
  {
    var c := Bucket(t, tf);
    if b < c {
      MultiplesApart(b, c, tf);
    } else if c < b {
      MultiplesApart(c, b, tf);
    }
  }

  /** Two distinct multiples of `tf` are at least `tf` apart. */
  lemma MultiplesApart(a: nat, b: nat, tf: nat)
    requires tf > 0 && a % tf == 0 && b % tf == 0 && a < b
    ensures a + tf <= b
  {
    var qa, qb := a / tf, b / tf;
    assert a == qa * tf && b == qb * tf;
    assert qa < qb by {
      if qa >= qb {
        MulMonotone(qb, qa, tf);
      }
    }
    MulMonotone(qa + 1, qb, tf);
  }

  lemma MulMonotone(x: int, y: int, k: nat)
    requires x <= y
    ensures x * k <= y * k
  {
  }

  /** Bucket starts never decrease as time moves forward. */
  lemma BucketMonotone(t1: nat, t2: nat, tf: nat)
    requires tf > 0 && t1 <= t2
    ensures Bucket(t1, tf) <= Bucket(t2, tf)
  {
    var b1, b2 := Bucket(t1, tf), Bucket(t2, tf);
    if b2 < b1 {
      MultiplesApart(b2, b1, tf);
    }
  }
}
