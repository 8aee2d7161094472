/** What the numbers in a summary mean, for every log. */
module SummaryLaws {
  import opened MachineInts
  import opened Events

  /** Every event differs in `up` from the one before it, starting down. */
  predicate Alternating(log: Log) {
    (log != [] ==> !log[0].up) &&
    forall i :: 0 < i < |log| ==> log[i].up != log[i - 1].up
  }

  predicate Ordered(log: Log) {
    forall i :: 0 < i < |log| ==> log[i - 1].ts <= log[i].ts
  }

  /** Timestamps never go back, `now` is not before the last one, and the whole history fits a `time.Duration`. */
  predicate Timely(log: Log, now: int) {
    Ordered(log) && (log != [] ==> Last(log).ts <= now && now - log[0].ts <= MAX_INT64)
  }

  /** The time before `now` that really passed in `state`: each gap belongs to the event that OPENS it. */
  function TimeIn(s: seq<UpEvent>, state: bool, now: int): int {
    if s == [] then 0
    else TimeIn(DropLast(s), state, Last(s).ts) + if Last(s).up == state then now - Last(s).ts else 0
  }

  /** The total of the gaps after index 1 across which the log stays in `state`. */
  function Unchanged(log: Log, state: bool): int {
    if |log| <= 2 then 0
    else if Last(log).up == state == log[|log| - 2].up then Unchanged(DropLast(log), state) + Gap(Ideal, log)
    else Unchanged(DropLast(log), state)
  }

  /******* Conservation and attribution *******/

  lemma {:induction false} ChargedTotal(log: Log)
    requires |log| >= 2
    ensures Charged(Ideal, log, true) + Charged(Ideal, log, false) == Last(log).ts - log[1].ts
  {
    if |log| > 2 {
      ChargedTotal(DropLast(log));
    }
  }

  /** No nanosecond is lost or counted twice, whatever order or flags the events have. */
  lemma {:induction false} Conservation(log: Log, now: int)
    requires WellStarted(log)
    ensures var s := Summary(Ideal, log, now);
            && s.upTime + s.downTime == now - log[0].ts
            && (|log| >= 2 ==>
                  s.downTime == s.downTimeInitial + s.totalDownTimeBetweenRecovery
                              + if Last(log).up then 0 else now - Last(log).ts)
  {
    if |log| >= 2 {
      ChargedTotal(log);
    }
  }

  lemma {:induction false} ChargedAttribution(log: Log)
    requires WellStarted(log) && |log| >= 2
    ensures Charged(Ideal, log, true) - TimeIn(DropLast(log), true, Last(log).ts)
         == Unchanged(log, false) - Unchanged(log, true)
  {
    if |log| > 2 {
      var before := DropLast(log);
      assert DropLast(before) == log[..|log| - 2];
      ChargedAttribution(before);
    } else {
      assert DropLast(log) == [log[0]];
      assert DropLast([log[0]]) == [];
    }
  }

  /** The reported up time is wrong by exactly the gaps whose two ends are in the same state. */
  lemma {:induction false} Attribution(log: Log, now: int)
    requires WellStarted(log)
    ensures Summary(Ideal, log, now).upTime - TimeIn(log, true, now)
         == Unchanged(log, false) - Unchanged(log, true)
    ensures Summary(Ideal, log, now).downTime - TimeIn(log, false, now)
         == Unchanged(log, true) - Unchanged(log, false)
  {
    TimeInTotal(log, now);
    Conservation(log, now);
    if |log| >= 2 {
      ChargedAttribution(log);
    } else {
      assert DropLast(log) == [];
    }
  }

  lemma {:induction false} TimeInTotal(s: seq<UpEvent>, now: int)
    requires s != []
    ensures TimeIn(s, true, now) + TimeIn(s, false, now) == now - s[0].ts
  {
    if |s| > 1 {
      TimeInTotal(DropLast(s), Last(s).ts);
    } else {
      assert DropLast(s) == [];
    }
  }

  lemma {:induction false} AlternatingNeverUnchanged(log: Log, state: bool)
    requires Alternating(log)
    ensures Unchanged(log, state) == 0
  {
    if |log| > 2 {
      AlternatingNeverUnchanged(DropLast(log), state);
    }
  }

  /** On alternating logs the summary is the truth. */
  lemma {:induction false} AlternatingIsExact(log: Log, now: int)
    requires Alternating(log)
    ensures Summary(Ideal, log, now).upTime == TimeIn(log, true, now)
    ensures Summary(Ideal, log, now).downTime == TimeIn(log, false, now)
  {
    if log != [] {
      AlternatingNeverUnchanged(log, true);
      AlternatingNeverUnchanged(log, false);
      Attribution(log, now);
    }
  }

  predicate UpTimeIsTrue(log: Log, now: int) {
    Summary(Ideal, log, now).upTime == TimeIn(log, true, now)
  }

  /** The up time was true whenever an event had just been logged. */
  predicate UpTimeAlwaysTrue(log: Log) {
    forall n :: 1 <= n <= |log| ==> UpTimeIsTrue(log[..n], log[n - 1].ts)
  }

  lemma AlwaysTrueBefore(log: Log)
    requires log != [] && UpTimeAlwaysTrue(log)
    ensures UpTimeAlwaysTrue(DropLast(log)) && UpTimeIsTrue(log, Last(log).ts)
  {
    var before := DropLast(log);
    forall n | 1 <= n <= |before| ensures UpTimeIsTrue(before[..n], before[n - 1].ts) {
      assert before[..n] == log[..n];
    }
    assert log[..|log|] == log;
  }

  /** When the last event repeats the state before it, the gap between the two is charged to the wrong clock. */
  lemma {:induction false} RepetitionIsCharged(log: Log, now: int)
    requires WellStarted(log) && |log| > 2 && Alternating(DropLast(log)) && Last(log).up == log[|log| - 2].up
    ensures Summary(Ideal, log, now).upTime - TimeIn(log, true, now)
         == if Last(log).up then -Gap(Ideal, log) else Gap(Ideal, log)
  {
    AlternatingNeverUnchanged(DropLast(log), true);
    AlternatingNeverUnchanged(DropLast(log), false);
    Attribution(log, now);
  }

  lemma AlternatingIsAlwaysTrue(log: Log)
    requires Alternating(log)
    ensures UpTimeAlwaysTrue(log)
  {
    forall n | 1 <= n <= |log| ensures UpTimeIsTrue(log[..n], log[n - 1].ts) {
      AlternatingIsExact(log[..n], log[n - 1].ts);
    }
  }

  /** The first two equal events in a row falsify the up time, so it is always true only on alternating logs. */
  lemma {:induction false} AlwaysTrueIff(log: Log)
    requires WellStarted(log) && forall i :: 2 <= i < |log| ==> log[i - 1].ts < log[i].ts
    ensures Alternating(log) <==> UpTimeAlwaysTrue(log)
  {
    if Alternating(log) {
      AlternatingIsAlwaysTrue(log);
    }
    if |log| > 2 && UpTimeAlwaysTrue(log) {
      AlwaysTrueBefore(log);
      AlwaysTrueIff(DropLast(log));
      TrueMeansNoRepetition(log);
    }
  }

  lemma {:induction false} TrueMeansNoRepetition(log: Log)
    requires WellStarted(log) && |log| > 2 && Alternating(DropLast(log)) && log[|log| - 2].ts < Last(log).ts
    requires UpTimeIsTrue(log, Last(log).ts)
    ensures Last(log).up != log[|log| - 2].up
  {
    if Last(log).up == log[|log| - 2].up {
      RepetitionIsCharged(log, Last(log).ts);
    }
  }

  /******* Bounded arithmetic *******/

  /** At every point of the loop the accumulators lie between zero and the time read so far. */
  lemma {:induction false} AccumulatorsBounded(log: Log, state: bool)
    requires |log| >= 2 && Ordered(log) && Last(log).ts - log[0].ts <= MAX_INT64
    ensures 0 <= Charged(Ideal, log, state) <= Last(log).ts - log[1].ts
    ensures log[0].ts <= log[1].ts
    ensures Charged(Int64, log, state) == Charged(Ideal, log, state)
    ensures LatestCharged(Int64, log, state) == LatestCharged(Ideal, log, state)
    ensures 0 <= LatestCharged(Ideal, log, state) <= Charged(Ideal, log, state)
  {
    if |log| > 2 {
      AccumulatorsBounded(DropLast(log), state);
    }
  }

  /** After any number of iterations the program's accumulators are the exact sums, within `[0, now - first]`. */
  lemma {:induction false} LoopNeverWraps(log: Log, now: int, i: nat)
    requires Timely(log, now) && 2 <= i <= |log|
    ensures var t, span := Tally(log[..i], log[1].ts - log[0].ts), now - log[0].ts;
            && 0 <= t.upTime <= span && t.upTime == Charged(Ideal, log[..i], true)
            && 0 <= t.downTime <= span && t.downTime == log[1].ts - log[0].ts + Charged(Ideal, log[..i], false)
            && 0 <= t.totalUpTimeBetweenInterruption <= span
            && 0 <= t.totalDownTimeBetweenRecovery <= span
  {
    var read := log[..i];
    OrderedSpan(log, i - 1, |log| - 1);
    assert Ordered(read) && Last(read) == log[i - 1];
    AccumulatorsBounded(read, true);
    AccumulatorsBounded(read, false);
    TallyIsExact(read, log[1].ts - log[0].ts);
  }

  lemma TallyIsExact(read: Log, initial: int)
    requires forall state :: Charged(Int64, read, state) == Charged(Ideal, read, state)
    requires initial >= 0 && forall state :: 0 <= Charged(Ideal, read, state) <= MAX_INT64 - initial
    ensures var t := Tally(read, initial);
            && t.upTime == t.totalUpTimeBetweenInterruption == Charged(Ideal, read, true)
            && t.downTime == initial + Charged(Ideal, read, false)
            && t.totalDownTimeBetweenRecovery == Charged(Ideal, read, false)
  {
    WrapOfSmall(Charged(Ideal, read, true));
    WrapOfSmall(Charged(Ideal, read, false));
    WrapOfSmall(initial + Charged(Ideal, read, false));
  }

  lemma {:induction false} OrderedSpan(log: Log, i: nat, j: nat)
    requires Ordered(log) && i <= j < |log|
    ensures log[i].ts <= log[j].ts
  {
    if i < j {
      OrderedSpan(log, i, j - 1);
    }
  }

  /** No 64-bit overflow or saturation: the program's summary is the summary over unbounded integers. */
  lemma {:induction false} MachineIsIdeal(log: Log, now: int)
    requires Timely(log, now)
    ensures Summary(Int64, log, now) == Summary(Ideal, log, now)
  {
    if |log| >= 2 {
      AccumulatorsBounded(log, true);
      AccumulatorsBounded(log, false);
      ChargedTotal(log);
    }
  }

  /** The mean is the total divided by the count, rounded down; it is zero when there is nothing to count. */
  predicate IsMean(mean: int, total: int, count: nat) {
    if count == 0 then mean == 0 else mean * count <= total < (mean + 1) * count
  }

  /** Every reported duration lies in `[0, now - first]`, and the means are the rounded-down quotients. */
  lemma {:induction false} SummaryBounded(log: Log, now: int)
    requires Timely(log, now) && log != []
    ensures var s, span := Summary(Int64, log, now), now - log[0].ts;
            && 0 <= s.upTime <= span
            && 0 <= s.downTime <= span
            && s.upTime + s.downTime <= span
            && 0 <= s.totalUpTimeBetweenInterruption <= s.upTime
            && 0 <= s.totalDownTimeBetweenRecovery <= s.downTime
            && 0 <= s.latestUpTimeBetweenInterruption <= s.upTime
            && 0 <= s.latestDownTimeBetweenRecovery <= s.downTime
            && 0 <= s.downTimeInitial <= s.downTime
    ensures var s := Summary(Int64, log, now);
            && IsMean(s.meanUpTimeBetweenInterruption, s.totalUpTimeBetweenInterruption, s.interruptionCount)
            && IsMean(s.meanDownTimeBetweenRecovery, s.totalDownTimeBetweenRecovery, s.recoveryCount)
            && (s.interruptionCount == 0 ==> s.totalUpTimeBetweenInterruption == 0)
  {
    DurationsBounded(log, now);
    MeansAreQuotients(log, now);
  }

  lemma {:induction false} DurationsBounded(log: Log, now: int)
    requires Timely(log, now) && log != []
    ensures var s, span := Summary(Int64, log, now), now - log[0].ts;
            && 0 <= s.upTime <= span
            && 0 <= s.downTime <= span
            && s.upTime + s.downTime <= span
            && 0 <= s.totalUpTimeBetweenInterruption <= s.upTime
            && 0 <= s.totalDownTimeBetweenRecovery <= s.downTime
            && 0 <= s.latestUpTimeBetweenInterruption <= s.upTime
            && 0 <= s.latestDownTimeBetweenRecovery <= s.downTime
            && 0 <= s.downTimeInitial <= s.downTime
  {
    MachineIsIdeal(log, now);
    if |log| >= 2 {
      AccumulatorsBounded(log, true);
      AccumulatorsBounded(log, false);
      ChargedTotal(log);
    }
  }

  lemma {:induction false} MeansAreQuotients(log: Log, now: int)
    requires Timely(log, now) && log != []
    ensures var s := Summary(Int64, log, now);
            && IsMean(s.meanUpTimeBetweenInterruption, s.totalUpTimeBetweenInterruption, s.interruptionCount)
            && IsMean(s.meanDownTimeBetweenRecovery, s.totalDownTimeBetweenRecovery, s.recoveryCount)
            && (s.interruptionCount == 0 ==> s.totalUpTimeBetweenInterruption == 0)
  {
    MachineIsIdeal(log, now);
    if |log| >= 2 {
      AccumulatorsBounded(log, true);
      AccumulatorsBounded(log, false);
      MeanOf(Charged(Ideal, log, true), Interruptions(log));
      MeanOf(Charged(Ideal, log, false), Recoveries(log));
    }
  }

  lemma MeanOf(total: nat, count: nat)
    ensures IsMean(if count > 0 then TruncDiv(total, count) else 0, total, count)
  {
    if count > 0 {
      TruncDivBounds(total, count);
    }
  }

  /**
   * The report may take `now` just before it reads the log. Then the clock of the present state is behind by exactly
   * that much, and can even be negative; every other number is as at the last event.
   */
  lemma {:induction false} EarlyReport(log: Log, now: int)
    requires log != [] && Ordered(log) && Last(log).ts - log[0].ts <= MAX_INT64
    requires now <= Last(log).ts && Last(log).ts - now <= MAX_INT64
    ensures var s, s' := Summary(Int64, log, Last(log).ts), Summary(Int64, log, now);
            var late := Last(log).ts - now;
            if !WellStarted(log) then s' == s
            else if Last(log).up then s' == s.(upTime := s.upTime - late)
            else if |log| == 1 then
              s' == s.(downTime := s.downTime - late, provisioningDuration := s.provisioningDuration - late)
            else s' == s.(downTime := s.downTime - late)
  {
    MachineIsIdeal(log, Last(log).ts);
    EarlyIsIdeal(log, now);
    if !log[0].up {
      ClockContinuity(log, Last(log).ts, now - Last(log).ts);
    }
  }

  lemma {:induction false} EarlyIsIdeal(log: Log, now: int)
    requires log != [] && Ordered(log) && Last(log).ts - log[0].ts <= MAX_INT64
    requires now <= Last(log).ts && Last(log).ts - now <= MAX_INT64
    ensures Summary(Int64, log, now) == Summary(Ideal, log, now)
  {
    if |log| >= 2 {
      AccumulatorsBounded(log, true);
      AccumulatorsBounded(log, false);
      ChargedTotal(log);
    }
  }

  /** How far the numbers can then leave their usual range. */
  lemma {:induction false} EarlyBounds(log: Log, now: int)
    requires log != [] && Ordered(log) && Last(log).ts - log[0].ts <= MAX_INT64
    requires now <= Last(log).ts && Last(log).ts - now <= MAX_INT64
    ensures var s, span, late := Summary(Int64, log, now), Last(log).ts - log[0].ts, Last(log).ts - now;
            && -late <= s.upTime <= span && -late <= s.downTime <= span
            && -late <= s.upTime + s.downTime
            && (WellStarted(log) ==> s.upTime + s.downTime == now - log[0].ts)
            && 0 <= s.totalUpTimeBetweenInterruption <= span && 0 <= s.totalDownTimeBetweenRecovery <= span
            && 0 <= s.downTimeInitial <= span
            && (WellStarted(log) && |log| == 2 ==> s.upTime == -late)
  {
    EarlyReport(log, now);
    SummaryBounded(log, Last(log).ts);
    if WellStarted(log) {
      MachineIsIdeal(log, Last(log).ts);
      Conservation(log, Last(log).ts);
    }
  }

  /** The latest gap charged to a state ends at the last event after index 1 that left the state. */
  lemma {:induction false} LatestChargedIsLast(a: Arithmetic, log: Log, state: bool, i: nat)
    requires 2 <= i < |log| && log[i].up != state
    requires forall j :: i < j < |log| ==> log[j].up == state
    ensures LatestCharged(a, log, state) == Sub(a, log[i].ts, log[i - 1].ts)
  {
    if i < |log| - 1 {
      LatestChargedIsLast(a, DropLast(log), state, i);
    }
  }

  lemma {:induction false} NothingCharged(a: Arithmetic, log: Log, state: bool)
    requires forall j :: 2 <= j < |log| ==> log[j].up == state
    ensures LatestCharged(a, log, state) == 0
  {
    if |log| > 2 {
      NothingCharged(a, DropLast(log), state);
    }
  }

  /** After index 1, the latest down time ends at the last up event, the latest up time at the last down event. */
  lemma LatestIsLast(a: Arithmetic, log: Log, now: int, state: bool, i: nat)
    requires WellStarted(log) && 2 <= i <= |log| && (i < |log| ==> log[i].up != state)
    requires forall j :: i < j < |log| ==> log[j].up == state
    requires i == |log| ==> forall j :: 2 <= j < |log| ==> log[j].up == state
    ensures var s := Summary(a, log, now);
            (if state then s.latestUpTimeBetweenInterruption else s.latestDownTimeBetweenRecovery)
            == if i < |log| then Sub(a, log[i].ts, log[i - 1].ts) else 0
  {
    if i < |log| {
      LatestChargedIsLast(a, log, state, i);
    } else {
      NothingCharged(a, log, state);
    }
  }

  /******* Continuity *******/

  /** Logging a transition at time `t` does not move the clocks, and counts at most one interruption or recovery. */
  lemma {:induction false} TransitionContinuity(log: Log, e: UpEvent)
    requires WellStarted(log) && e.up != Last(log).up
    ensures Appended(log, e) == log + [e] && WellStarted(log + [e])
    ensures var s, s' := Summary(Ideal, log, e.ts), Summary(Ideal, log + [e], e.ts);
            && s'.upTime == s.upTime
            && s'.downTime == s.downTime
            && s'.interruptionCount == s.interruptionCount + (if !e.up && !e.expectedDown then 1 else 0)
            && s'.recoveryCount == s.recoveryCount
                 + (if e.up && |log| >= 2 && !Last(log).expectedDown then 1 else 0)
            && s'.downTimeInitial == (if |log| == 1 then e.ts - log[0].ts else s.downTimeInitial)
            && s'.provisioningDuration == s.provisioningDuration
  {
    var log' := log + [e];
    assert DropLast(log') == log;
    if |log| == 1 {
      assert Charged(Ideal, log', true) == Charged(Ideal, log', false) == 0;
    }
  }

  /** As the clock advances, only the component of the current state grows. */
  lemma ClockContinuity(log: Log, now: int, d: int)
    requires log != [] && !log[0].up
    ensures var s, s' := Summary(Ideal, log, now), Summary(Ideal, log, now + d);
            if !WellStarted(log) then s' == s
            else if Last(log).up then s' == s.(upTime := s.upTime + d)
            else if |log| == 1 then
              s' == s.(downTime := s.downTime + d, provisioningDuration := s.provisioningDuration + d)
            else s' == s.(downTime := s.downTime + d)
  {
  }

  /******* Pairing *******/

  /** Interruptions and recoveries pair up: at most the last interruption is still open. */
  lemma {:induction false} Pairing(log: Log)
    requires Alternating(log)
    ensures Interruptions(log) - Recoveries(log)
         == if |log| >= 3 && !Last(log).up && !Last(log).expectedDown then 1 else 0
  {
    if |log| > 2 {
      Pairing(DropLast(log));
    }
  }

  lemma SummaryPairing(log: Log, now: int)
    requires Alternating(log)
    ensures var s := Summary(Int64, log, now);
            s.interruptionCount - s.recoveryCount
            == if |log| >= 3 && !Last(log).up && !Last(log).expectedDown then 1 else 0
  {
    Pairing(log);
  }
}
