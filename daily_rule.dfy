/** A daily recurrence with an inclusive end, as in the RECUR value of
    section 3.3.10 of RFC 5545 with FREQ=DAILY and UNTIL set: every day from
    DTSTART up to and including UNTIL. Days are integer day numbers. */
module DailyRule {

  /** The days `dtstart, dtstart + 1, ..., until`; empty when `dtstart > until`. */
  function DailyRun(dtstart: int, until: int): (days: seq<int>)
    ensures |days| == if dtstart <= until then until - dtstart + 1 else 0
    ensures forall i :: 0 <= i < |days| ==> days[i] == dtstart + i
    decreases until - dtstart
  {
    if dtstart > until then [] else [dtstart] + DailyRun(dtstart + 1, until)
  }

  /** A day occurs in the run exactly when it lies between both ends, inclusive. */
  lemma DailyRunMembers(dtstart: int, until: int, d: int)
    ensures d in DailyRun(dtstart, until) <==> dtstart <= d <= until
  {
    if dtstart <= d <= until {
      assert DailyRun(dtstart, until)[d - dtstart] == d;
    }
  }

  /** The run is strictly increasing, so no day occurs twice. */
  lemma DailyRunIncreasing(dtstart: int, until: int)
    ensures forall i, j :: 0 <= i < j < |DailyRun(dtstart, until)| ==>
              DailyRun(dtstart, until)[i] < DailyRun(dtstart, until)[j]
  {
  }
}
