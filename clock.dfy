/**
 * Time as the driver's read loop sees it: struct timeval readings taken with
 * gettimeofday, and their difference in microseconds (time_diff_micro).
 */
module Clock {
  import opened UsbBox

  datatype TimeVal = TimeVal(sec: int, usec: int)

  const MicrosPerSecond: int := 1000000

  /** Latest second count for which sec * 1000000 + usec still fits in a C long. */
  const MaxSeconds: int := 9_223_372_036_853

  /** A reading gettimeofday can return: microseconds below one second, seconds in range. */
  predicate ValidTime(t: TimeVal)
  {
    0 <= t.sec <= MaxSeconds && 0 <= t.usec < MicrosPerSecond
  }

  /** The instant a reading denotes, in microseconds since the epoch. */
  function Micros(t: TimeVal): int
  {
    t.sec * MicrosPerSecond + t.usec
  }

  /** time_diff_micro: seconds and microseconds subtracted separately, then combined. */
  function TimeDiffMicro(begin: TimeVal, end: TimeVal): (d: int)
    requires ValidTime(begin) && ValidTime(end)
    ensures d == Micros(end) - Micros(begin)
    ensures LongMin <= d <= LongMax
  {
    var secDiff := end.sec - begin.sec;
    var usecDiff := end.usec - begin.usec;
    secDiff * MicrosPerSecond + usecDiff
  }

  /** The difference is positive exactly when end is later than begin. */
  lemma TimeDiffPositive(begin: TimeVal, end: TimeVal)
    requires ValidTime(begin) && ValidTime(end)
    ensures TimeDiffMicro(begin, end) > 0 <==>
            begin.sec < end.sec || (begin.sec == end.sec && begin.usec < end.usec)
  {
  }

  /** Microseconds from the first reading of a clock trace to reading i. */
  function Elapsed(clock: seq<TimeVal>, i: nat): int
    requires i < |clock|
    requires forall k :: 0 <= k < |clock| ==> ValidTime(clock[k])
  {
    TimeDiffMicro(clock[0], clock[i])
  }

  /** Some reading at or after `from` is at least `limit` microseconds after the first. */
  predicate Reaches(clock: seq<TimeVal>, limit: int, from: nat)
    requires forall k :: 0 <= k < |clock| ==> ValidTime(clock[k])
  {
    exists i :: from <= i < |clock| && Elapsed(clock, i) >= limit
  }

  /** The first reading at or after `from` that is at least `limit` microseconds after the first. */
  function DeadlineIndex(clock: seq<TimeVal>, limit: int, from: nat): (j: nat)
    requires forall k :: 0 <= k < |clock| ==> ValidTime(clock[k])
    requires Reaches(clock, limit, from)
    ensures from <= j < |clock| && Elapsed(clock, j) >= limit
    ensures forall i :: from <= i < j ==> Elapsed(clock, i) < limit
    decreases |clock| - from
  {
    if Elapsed(clock, from) >= limit then from
    else
      assert Reaches(clock, limit, from + 1);
      DeadlineIndex(clock, limit, from + 1)
  }
}
