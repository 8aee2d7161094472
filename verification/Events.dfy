/** The up/down event log of one resource: how it is appended to and how it is summarised. */
module Events {
  import opened MachineInts

  /** One logged transition; the same record describes one raw observation. `ts` is in nanoseconds. */
  datatype UpEvent = UpEvent(up: bool, expectedDown: bool, failed: bool, ts: int)

  type Log = seq<UpEvent>

  datatype ProvisioningState = Unset | Provisioning | Success | Failed

  datatype EventSummary = EventSummary(
    downTimeInitial: int,
    interruptionCount: nat,
    recoveryCount: nat,
    downTime: int,
    upTime: int,
    totalDownTimeBetweenRecovery: int,
    totalUpTimeBetweenInterruption: int,
    latestDownTimeBetweenRecovery: int,
    latestUpTimeBetweenInterruption: int,
    meanDownTimeBetweenRecovery: int,
    meanUpTimeBetweenInterruption: int,
    provisioningDuration: int,
    provisioningState: ProvisioningState)

  const NO_SUMMARY := EventSummary(0, 0, 0, 0, 0, 0, 0, 0, 0, 0, 0, 0, Unset)

  function Last<T>(s: seq<T>): T
    requires s != []
  {
    s[|s| - 1]
  }

  function DropLast<T>(s: seq<T>): seq<T>
    requires s != []
  {
    s[..|s| - 1]
  }

  lemma PrefixSnoc<T>(s: seq<T>, i: nat)
    requires i < |s|
    ensures s[..i + 1] == s[..i] + [s[i]]
  {
  }

  /** Two records that agree on everything except their time. */
  predicate SameFlags(e: UpEvent, f: UpEvent) {
    e.up == f.up && e.expectedDown == f.expectedDown && e.failed == f.failed
  }

  /******* Appending *******/

  /** An observation extends the log only when it says something new; a new log is seeded with "down". */
  function Appended(log: Log, o: UpEvent): (r: Log)
    ensures log <= r && r != [] && SameFlags(Last(r), o)
  {
    var seeded := if log == [] then [o.(up := false)] else log;
    if SameFlags(Last(seeded), o) then seeded else seeded + [o]
  }

  /** All three flags count, and the seed takes over the other two. */
  lemma AppendedIs(log: Log, o: UpEvent)
    ensures log != [] ==>
              var e := log[|log| - 1];
              (Appended(log, o) == log <==> e.up == o.up && e.expectedDown == o.expectedDown && e.failed == o.failed)
    ensures log != [] && Appended(log, o) != log ==> Appended(log, o) == log + [o]
    ensures var seed := UpEvent(false, o.expectedDown, o.failed, o.ts);
            Appended([], o) == if o.up then [seed, o] else [seed]
  {
  }

  /** The log that a stream of observations leaves behind. */
  function Fold(obs: seq<UpEvent>): Log {
    if obs == [] then [] else Appended(Fold(DropLast(obs)), Last(obs))
  }

  lemma FoldSnoc(obs: seq<UpEvent>, o: UpEvent)
    ensures Fold(obs + [o]) == Appended(Fold(obs), o)
  {
  }

  /******* Summarising *******/

  function Gap(a: Arithmetic, log: Log): int
    requires |log| >= 2
  {
    Sub(a, Last(log).ts, log[|log| - 2].ts)
  }

  /** The total of the gaps after index 1 that are charged to `state`: those whose LATER event left it. */
  function Charged(a: Arithmetic, log: Log, state: bool): int {
    if |log| <= 2 then 0
    else Charged(a, DropLast(log), state) + if Last(log).up != state then Gap(a, log) else 0
  }

  /** The most recent of those gaps. */
  function LatestCharged(a: Arithmetic, log: Log, state: bool): int {
    if |log| <= 2 then 0
    else if Last(log).up != state then Gap(a, log)
    else LatestCharged(a, DropLast(log), state)
  }

  /** Down events after index 1 that nobody expected. */
  function Interruptions(log: Log): nat {
    if |log| <= 2 then 0
    else Interruptions(DropLast(log)) + if !Last(log).up && !Last(log).expectedDown then 1 else 0
  }

  /** Up events after index 1 whose predecessor was not an expected down. */
  function Recoveries(log: Log): nat {
    if |log| <= 2 then 0
    else Recoveries(DropLast(log)) + if Last(log).up && !log[|log| - 2].expectedDown then 1 else 0
  }

  /** The log starts down and, if it has a second event, that one is up. */
  predicate WellStarted(log: Log) {
    log != [] && !log[0].up && (|log| >= 2 ==> log[1].up)
  }

  /** What `EventRecords.Summarize` reports, as sums over the whole log. */
  function Summary(a: Arithmetic, log: Log, now: int): EventSummary {
    if log == [] || log[0].up then
      NO_SUMMARY
    else if |log| == 1 then
      var d := Sub(a, now, log[0].ts);
      NO_SUMMARY.(downTime := d, provisioningDuration := d, provisioningState := Provisioning)
    else
      var initial := Sub(a, log[1].ts, log[0].ts);
      if log[1].up then
        Settled(a, log, initial, Sub(a, now, Last(log).ts))
      else if log[1].failed then
        NO_SUMMARY.(downTime := initial, downTimeInitial := initial,
                    provisioningDuration := initial, provisioningState := Failed)
      else
        NO_SUMMARY
  }

  /** The summary of a resource that has come up at least once. */
  function Settled(a: Arithmetic, log: Log, initial: int, trailing: int): EventSummary
    requires |log| >= 2
  {
    var n, r := Interruptions(log), Recoveries(log);
    var upTotal, downTotal := Fix(a, Charged(a, log, true)), Fix(a, Charged(a, log, false));
    EventSummary(
      downTimeInitial := initial,
      interruptionCount := n,
      recoveryCount := r,
      downTime := Fix(a, initial + Charged(a, log, false) + if Last(log).up then 0 else trailing),
      upTime := Fix(a, Charged(a, log, true) + if Last(log).up then trailing else 0),
      totalDownTimeBetweenRecovery := downTotal,
      totalUpTimeBetweenInterruption := if n > 0 then upTotal else 0,
      latestDownTimeBetweenRecovery := LatestCharged(a, log, false),
      latestUpTimeBetweenInterruption := LatestCharged(a, log, true),
      meanDownTimeBetweenRecovery := if r > 0 then TruncDiv(downTotal, r) else 0,
      meanUpTimeBetweenInterruption := if n > 0 then TruncDiv(upTotal, n) else 0,
      provisioningDuration := initial,
      provisioningState := Success)
  }

  /** The accumulators of the summarising loop once `log` has been read. */
  ghost function Tally(log: Log, initial: int): EventSummary {
    NO_SUMMARY.(
      downTimeInitial := initial, provisioningDuration := initial, provisioningState := Success,
      interruptionCount := Interruptions(log),
      recoveryCount := Recoveries(log),
      downTime := Wrap64(initial + Charged(Int64, log, false)),
      upTime := Wrap64(Charged(Int64, log, true)),
      totalDownTimeBetweenRecovery := Wrap64(Charged(Int64, log, false)),
      totalUpTimeBetweenInterruption := Wrap64(Charged(Int64, log, true)),
      latestDownTimeBetweenRecovery := LatestCharged(Int64, log, false),
      latestUpTimeBetweenInterruption := LatestCharged(Int64, log, true))
  }

  lemma TallyStepUp(log: Log, initial: int)
    requires |log| >= 3 && Last(log).up
    ensures var t := Tally(DropLast(log), initial);
            var gap := Gap(Int64, log);
            Tally(log, initial) ==
              t.(downTime := Wrap64(t.downTime + gap),
                 totalDownTimeBetweenRecovery := Wrap64(t.totalDownTimeBetweenRecovery + gap),
                 latestDownTimeBetweenRecovery := gap,
                 recoveryCount := t.recoveryCount + if log[|log| - 2].expectedDown then 0 else 1)
  {
    Wrap64Add(Charged(Int64, DropLast(log), false), Gap(Int64, log));
    Wrap64Add(initial + Charged(Int64, DropLast(log), false), Gap(Int64, log));
  }

  lemma TallyStepDown(log: Log, initial: int)
    requires |log| >= 3 && !Last(log).up
    ensures var t := Tally(DropLast(log), initial);
            var gap := Gap(Int64, log);
            Tally(log, initial) ==
              t.(upTime := Wrap64(t.upTime + gap),
                 totalUpTimeBetweenInterruption := Wrap64(t.totalUpTimeBetweenInterruption + gap),
                 latestUpTimeBetweenInterruption := gap,
                 interruptionCount := t.interruptionCount + if Last(log).expectedDown then 0 else 1)
  {
    Wrap64Add(Charged(Int64, DropLast(log), true), Gap(Int64, log));
  }

  lemma TallyStep(log: Log, initial: int)
    requires |log| >= 3
    ensures var t := Tally(DropLast(log), initial);
            var gap := Gap(Int64, log);
            Tally(log, initial) ==
            if Last(log).up then
              t.(downTime := Wrap64(t.downTime + gap),
                 totalDownTimeBetweenRecovery := Wrap64(t.totalDownTimeBetweenRecovery + gap),
                 latestDownTimeBetweenRecovery := gap,
                 recoveryCount := t.recoveryCount + if log[|log| - 2].expectedDown then 0 else 1)
            else
              t.(upTime := Wrap64(t.upTime + gap),
                 totalUpTimeBetweenInterruption := Wrap64(t.totalUpTimeBetweenInterruption + gap),
                 latestUpTimeBetweenInterruption := gap,
                 interruptionCount := t.interruptionCount + if Last(log).expectedDown then 0 else 1)
  {
    if Last(log).up {
      TallyStepUp(log, initial);
    } else {
      TallyStepDown(log, initial);
    }
  }

  lemma TallyFinished(log: Log, initial: int, trailing: int)
    requires |log| >= 3
    ensures var t := Tally(log, initial);
            var n, r := t.interruptionCount, t.recoveryCount;
            Settled(Int64, log, initial, trailing) ==
            t.(totalUpTimeBetweenInterruption := if n > 0 then t.totalUpTimeBetweenInterruption else 0,
               meanUpTimeBetweenInterruption := if n > 0 then TruncDiv(t.totalUpTimeBetweenInterruption, n) else 0,
               meanDownTimeBetweenRecovery := if r > 0 then TruncDiv(t.totalDownTimeBetweenRecovery, r) else 0,
               upTime := if Last(log).up then Wrap64(t.upTime + trailing) else t.upTime,
               downTime := if Last(log).up then t.downTime else Wrap64(t.downTime + trailing))
  {
    Wrap64Add(Charged(Int64, log, true), trailing);
    Wrap64Add(initial + Charged(Int64, log, false), trailing);
  }

  class EventRecords {
    var upEvents: Log

    constructor (log: Log)
      ensures upEvents == log
    {
      upEvents := log;
    }

    method AppendUpEvent(now: int, isUp: bool, expectedDown: bool, failed: bool) returns (changed: bool)
      modifies this
      ensures upEvents == Appended(old(upEvents), UpEvent(isUp, expectedDown, failed, now))
      ensures changed <==> upEvents != old(upEvents)
    {
      changed := false;
      if |upEvents| == 0 {
        upEvents := upEvents + [UpEvent(false, expectedDown, failed, now)];
        changed := true;
      }
      var last := upEvents[|upEvents| - 1];
      if last.up != isUp || last.failed != failed || last.expectedDown != expectedDown {
        upEvents := upEvents + [UpEvent(isUp, expectedDown, failed, now)];
        changed := true;
      }
    }

    /** For every log, in the program's own 64-bit arithmetic. */
    method Summarize(now: int) returns (summary: EventSummary)
      ensures summary == Summary(Int64, upEvents, now)
    {
      var events := upEvents;
      summary := NO_SUMMARY;
      var n := |events|;
      if n == 0 || events[0].up {
        return;
      }
      if n == 1 {
        summary := summary.(downTime := Sub(Int64, now, events[0].ts));
        summary := summary.(provisioningDuration := summary.downTime, provisioningState := Provisioning);
        return;
      }
      if !events[1].up {
        if events[1].failed {
          summary := summary.(downTime := Sub(Int64, events[1].ts, events[0].ts));
          summary := summary.(downTimeInitial := summary.downTime);
          summary := summary.(provisioningDuration := summary.downTimeInitial, provisioningState := Failed);
        }
        return;
      }
      summary := summary.(downTime := Sub(Int64, events[1].ts, events[0].ts),
                          downTimeInitial := Sub(Int64, events[1].ts, events[0].ts));
      summary := summary.(provisioningDuration := summary.downTimeInitial, provisioningState := Success);
      if n == 2 {
        summary := summary.(upTime := Sub(Int64, now, events[1].ts));
        return;
      }

      summary := Accumulate(summary);

      ghost var initial := summary.downTimeInitial;
      if summary.interruptionCount > 0 {
        summary := summary.(meanUpTimeBetweenInterruption :=
          TruncDiv(summary.totalUpTimeBetweenInterruption, summary.interruptionCount));
      } else {
        summary := summary.(totalUpTimeBetweenInterruption := 0);
      }
      if summary.recoveryCount > 0 {
        summary := summary.(meanDownTimeBetweenRecovery :=
          TruncDiv(summary.totalDownTimeBetweenRecovery, summary.recoveryCount));
      }

      TallyFinished(events, initial, Sub(Int64, now, Last(events).ts));
      if events[n - 1].up {
        summary := summary.(upTime := Wrap64(summary.upTime + Sub(Int64, now, events[n - 1].ts)));
      } else {
        summary := summary.(downTime := Wrap64(summary.downTime + Sub(Int64, now, events[n - 1].ts)));
      }
    }

    /** The loop over the events from the third one on. */
    method Accumulate(start: EventSummary) returns (summary: EventSummary)
      requires |upEvents| >= 2 && start == Tally(upEvents[..2], start.downTimeInitial)
      ensures summary == Tally(upEvents, start.downTimeInitial)
    {
      var events := upEvents;
      summary := start;
      ghost var initial := start.downTimeInitial;
      for i := 2 to |events|
        invariant summary == Tally(events[..i], initial)
      {
        TallyStep(events[..i + 1], initial);
        assert DropLast(events[..i + 1]) == events[..i];
        var gap := Sub(Int64, events[i].ts, events[i - 1].ts);
        if events[i].up {
          summary := summary.(
            latestDownTimeBetweenRecovery := gap,
            downTime := Wrap64(summary.downTime + gap),
            totalDownTimeBetweenRecovery := Wrap64(summary.totalDownTimeBetweenRecovery + gap),
            recoveryCount := summary.recoveryCount + if events[i - 1].expectedDown then 0 else 1);
        } else {
          summary := summary.(
            latestUpTimeBetweenInterruption := gap,
            upTime := Wrap64(summary.upTime + gap),
            totalUpTimeBetweenInterruption := Wrap64(summary.totalUpTimeBetweenInterruption + gap),
            interruptionCount := summary.interruptionCount + if events[i].expectedDown then 0 else 1);
        }
      }
      assert events[..|events|] == events;
    }
  }
}
