/** What the memory of owners does for the history of a slice, over whole runs of reconciles. */
module SliceHistory {
  import opened MachineInts
  import opened Kubernetes
  import opened Events
  import opened SummaryLaws
  import opened UpnessThreshold
  import opened StateChanges
  import opened SliceReconciler

  datatype SliceRound = SliceRound(now: int, view: View, slices: seq<Slice>)

  /** The saved owner map and the stored slice records. */
  datatype Memory = Memory(owners: Owners, records: FileRecords)

  /** A round in which the save of the owner map and the store of the records succeed. */
  ghost function AfterRound(m: Memory, r: SliceRound, threshold: real): Memory {
    Memory(NextOwners(r.view, r.slices, m.owners),
           Reconciled(Observed(r.now, NextUps(r.view, r.slices, m.owners), threshold), m.records))
  }

  ghost function AfterRounds(m: Memory, rounds: seq<SliceRound>, threshold: real): Memory {
    if rounds == [] then m else AfterRound(AfterRounds(m, DropLast(rounds), threshold), Last(rounds), threshold)
  }

  lemma AfterRoundsSnoc(m: Memory, rounds: seq<SliceRound>, r: SliceRound, threshold: real)
    ensures AfterRounds(m, rounds + [r], threshold) == AfterRound(AfterRounds(m, rounds, threshold), r, threshold)
  {
    assert DropLast(rounds + [r]) == rounds;
  }

  predicate Remembers(m: Memory, name: string, owner: OwnerInfo) {
    name in m.owners && m.owners[name] == owner
  }

  /** The slice is listed with this owner, or it is not listed and this owner is active. */
  predicate Keeps(r: SliceRound, name: string, owner: OwnerInfo) {
    && DistinctNames(r.slices)
    && (forall i :: 0 <= i < |r.slices| && r.slices[i].name == name ==> r.slices[i].owner == owner)
    && (name !in Names(r.slices) ==> Active(r.view(name), owner))
  }

  /** A round keeps the history of a slice iff it lists the slice or finds its remembered owner active. */
  lemma HistoryKeptIff(m: Memory, r: SliceRound, threshold: real, name: string)
    ensures name in AfterRound(m, r, threshold).records <==> KeepsAt(m, r, name)
    ensures name in AfterRound(m, r, threshold).records
       ==> LogOf(m.records, name) <= AfterRound(m, r, threshold).records[name]
  {
    var ups := NextUps(r.view, r.slices, m.owners);
    ReconciledAt(Observed(r.now, ups, threshold), m.records, name);
    if name in Names(r.slices) {
      ReportedKeys(r.view, r.slices, m.owners);
    } else {
      UnlistedKeptIff(r.view, r.slices, m.owners, name);
    }
  }

  lemma OneRound(m: Memory, r: SliceRound, threshold: real, name: string, owner: OwnerInfo)
    requires Keeps(r, name, owner)
    requires Remembers(m, name, owner) || (owner != NO_OWNER && name in Names(r.slices))
    ensures Remembers(AfterRound(m, r, threshold), name, owner)
    ensures name in AfterRound(m, r, threshold).records
    ensures LogOf(m.records, name) <= AfterRound(m, r, threshold).records[name]
  {
    HistoryKeptIff(m, r, threshold, name);
    if name in Names(r.slices) {
      var i :| 0 <= i < |r.slices| && r.slices[i].name == name;
      ListedRemembered(r.view, r.slices, m.owners, i);
    } else {
      UnlistedKeptIff(r.view, r.slices, m.owners, name);
    }
  }

  /** The round lists the slice or finds its owner, as remembered by then, active. */
  predicate KeepsAt(m: Memory, r: SliceRound, name: string) {
    name in Names(r.slices) || (name in m.owners && Active(r.view(name), m.owners[name]))
  }

  ghost predicate KeptIn(m: Memory, rounds: seq<SliceRound>, threshold: real, name: string, i: nat)
    requires i < |rounds|
  {
    KeepsAt(AfterRounds(m, rounds[..i], threshold), rounds[i], name)
  }

  ghost predicate KeptThroughout(m: Memory, rounds: seq<SliceRound>, threshold: real, name: string) {
    forall i: nat :: i < |rounds| ==> KeptIn(m, rounds, threshold, name, i)
  }

  lemma AfterPrefix(m: Memory, rounds: seq<SliceRound>, threshold: real, i: nat)
    requires i < |rounds|
    ensures AfterRounds(m, rounds[..i + 1], threshold)
         == AfterRound(AfterRounds(m, rounds[..i], threshold), rounds[i], threshold)
  {
    assert rounds[..i + 1] == rounds[..i] + [rounds[i]];
    AfterRoundsSnoc(m, rounds[..i], rounds[i], threshold);
  }

  /** The log of a slice after the first rounds. */
  ghost function LogAfter(m: Memory, rounds: seq<SliceRound>, threshold: real, name: string, k: nat): Log
    requires k <= |rounds|
  {
    LogOf(AfterRounds(m, rounds[..k], threshold).records, name)
  }

  /** Some log of the slice is stored after the first rounds. */
  ghost predicate HasLog(m: Memory, rounds: seq<SliceRound>, threshold: real, name: string, k: nat)
    requires k <= |rounds|
  {
    name in AfterRounds(m, rounds[..k], threshold).records
  }

  lemma KeptRound(m: Memory, rounds: seq<SliceRound>, threshold: real, name: string, i: nat)
    requires i < |rounds|
    ensures HasLog(m, rounds, threshold, name, i + 1) <==> KeptIn(m, rounds, threshold, name, i)
    ensures KeptIn(m, rounds, threshold, name, i)
       ==> LogAfter(m, rounds, threshold, name, i) <= LogAfter(m, rounds, threshold, name, i + 1)
  {
    AfterPrefix(m, rounds, threshold, i);
    HistoryKeptIff(AfterRounds(m, rounds[..i], threshold), rounds[i], threshold, name);
  }

  lemma {:induction false} GrowingChain(logs: seq<Log>, j: nat, k: nat)
    requires j <= k < |logs| && forall i :: 0 < i < |logs| ==> logs[i - 1] <= logs[i]
    ensures logs[j] <= logs[k]
  {
    if j < k {
      GrowingChain(logs, j, k - 1);
    }
  }

  /** As long as every round keeps the slice, the log after some rounds is a prefix of the log after more of them. */
  lemma {:induction false} LogsArePrefixes(
    m: Memory, rounds: seq<SliceRound>, threshold: real, name: string, j: nat, k: nat)
    requires j <= k <= |rounds| && KeptThroughout(m, rounds, threshold, name)
    ensures LogAfter(m, rounds, threshold, name, j) <= LogAfter(m, rounds, threshold, name, k)
  {
    var logs := seq(|rounds| + 1, i requires 0 <= i <= |rounds| => LogAfter(m, rounds, threshold, name, i));
    forall i | 0 < i < |logs| ensures logs[i - 1] <= logs[i] {
      KeptRound(m, rounds, threshold, name, i - 1);
    }
    GrowingChain(logs, j, k);
  }

  /**
   * Over any run in which each round lists the slice or finds its remembered owner active, whoever that is by then, no
   * event of its log is ever lost; and a slice is never without a log exactly in such a run.
   */
  lemma {:induction false} HistorySurvives(m: Memory, rounds: seq<SliceRound>, threshold: real, name: string)
    ensures KeptThroughout(m, rounds, threshold, name)
       <==> forall k :: 0 < k <= |rounds| ==> HasLog(m, rounds, threshold, name, k)
    ensures KeptThroughout(m, rounds, threshold, name) ==>
              LogOf(m.records, name) <= LogOf(AfterRounds(m, rounds, threshold).records, name)
  {
    forall k | 0 < k <= |rounds|
      ensures HasLog(m, rounds, threshold, name, k) <==> KeptIn(m, rounds, threshold, name, k - 1)
    {
      KeptRound(m, rounds, threshold, name, k - 1);
    }
    if forall k :: 0 < k <= |rounds| ==> HasLog(m, rounds, threshold, name, k) {
      forall i: nat | i < |rounds| ensures KeptIn(m, rounds, threshold, name, i) {
        assert HasLog(m, rounds, threshold, name, i + 1);
      }
    }
    if KeptThroughout(m, rounds, threshold, name) {
      LogsArePrefixes(m, rounds, threshold, name, 0, |rounds|);
      assert rounds[..0] == [] && rounds[..|rounds|] == rounds;
    }
  }

  /** Every round keeps the slice under one owner, from a first one on that lists it if it is not remembered already. */
  predicate KeptByOneOwner(m: Memory, rounds: seq<SliceRound>, name: string, owner: OwnerInfo) {
    && (forall i :: 0 <= i < |rounds| ==> Keeps(rounds[i], name, owner))
    && (Remembers(m, name, owner) || (rounds != [] && owner != NO_OWNER && name in Names(rounds[0].slices)))
  }

  lemma {:induction false} OwnerStays(
    m: Memory, rounds: seq<SliceRound>, threshold: real, name: string, owner: OwnerInfo, i: nat)
    requires KeptByOneOwner(m, rounds, name, owner) && i < |rounds|
    ensures Remembers(AfterRounds(m, rounds[..i + 1], threshold), name, owner)
    ensures KeptIn(m, rounds, threshold, name, i)
  {
    if i > 0 {
      OwnerStays(m, rounds, threshold, name, owner, i - 1);
    }
    assert Keeps(rounds[i], name, owner);
    AfterPrefix(m, rounds, threshold, i);
    OneRound(AfterRounds(m, rounds[..i], threshold), rounds[i], threshold, name, owner);
  }

  /** With one owner throughout, what the rounds observe decides: nothing more about the memory need be known. */
  lemma {:induction false} OneOwnerKeeps(
    m: Memory, rounds: seq<SliceRound>, threshold: real, name: string, owner: OwnerInfo)
    requires KeptByOneOwner(m, rounds, name, owner)
    ensures KeptThroughout(m, rounds, threshold, name)
    ensures Remembers(AfterRounds(m, rounds, threshold), name, owner)
  {
    forall i: nat | i < |rounds| ensures KeptIn(m, rounds, threshold, name, i) {
      OwnerStays(m, rounds, threshold, name, owner, i);
    }
    if rounds != [] {
      OwnerStays(m, rounds, threshold, name, owner, |rounds| - 1);
      assert rounds[..|rounds|] == rounds;
    }
  }

  /******* The end of an owner *******/

  /**
   * A listed slice whose owner is gone or has come to its end is logged as an expected down, whatever its condition:
   * the up time ends there, and no interruption is counted.
   */
  lemma EndIsExpected(
    m: Memory, r: SliceRound, threshold: real, name: string, owner: OwnerInfo, now: int)
    requires Keeps(r, name, owner) && name in Names(r.slices) && !Active(r.view(name), owner)
    requires WellStarted(LogOf(m.records, name)) && Last(LogOf(m.records, name)).up
    ensures var log, log' := LogOf(m.records, name), LogOf(AfterRound(m, r, threshold).records, name);
            && log' == log + [UpEvent(false, true, false, r.now)]
            && Summary(Ideal, log', now).interruptionCount == Summary(Ideal, log, now).interruptionCount
            && Summary(Ideal, log', now).upTime == Summary(Ideal, log, r.now).upTime
  {
    var i :| 0 <= i < |r.slices| && r.slices[i].name == name;
    ListedRemembered(r.view, r.slices, m.owners, i);
    Logged(m, r, threshold, name);
    ExpectedDown(LogOf(m.records, name), r.now, now);
  }

  lemma ExpectedDown(log: Log, at: int, now: int)
    requires WellStarted(log) && Last(log).up
    ensures var down := UpEvent(false, true, false, at);
            && Appended(log, down) == log + [down]
            && Summary(Ideal, log + [down], now).interruptionCount == Summary(Ideal, log, now).interruptionCount
            && Summary(Ideal, log + [down], now).upTime == Summary(Ideal, log, at).upTime
  {
    var log' := log + [UpEvent(false, true, false, at)];
    assert DropLast(log') == log && |log| >= 2;
    assert Interruptions(log') == Interruptions(log);
    assert Charged(Ideal, log', true) == Charged(Ideal, log, true) + (at - Last(log).ts);
  }

  /******* One outage *******/

  /** The owner is active, but the slice is gone, being deleted, or not ready. */
  predicate Away(r: SliceRound, name: string, owner: OwnerInfo) {
    && Keeps(r, name, owner) && Active(r.view(name), owner)
    && forall i :: 0 <= i < |r.slices| && r.slices[i].name == name ==>
         r.slices[i].terminating || ReadyStatus(r.slices[i].conditions).False?
  }

  /** The owner is active and the slice is listed and ready. */
  predicate Back(r: SliceRound, name: string, owner: OwnerInfo) {
    && Keeps(r, name, owner) && Active(r.view(name), owner)
    && exists i :: 0 <= i < |r.slices| && r.slices[i].name == name && !r.slices[i].terminating
                   && ReadyStatus(r.slices[i].conditions).True?
  }

  /** The observation of a slice with an active owner, in a round that keeps it. */
  lemma ReportedFor(m: Memory, r: SliceRound, name: string, owner: OwnerInfo) returns (up: Upness)
    requires Remembers(m, name, owner) && Keeps(r, name, owner) && Active(r.view(name), owner)
    ensures name in NextUps(r.view, r.slices, m.owners) && NextUps(r.view, r.slices, m.owners)[name] == up
    ensures !up.expectedDown && !up.failed && up.expectedCount == 1
    ensures Away(r, name, owner) ==> up.readyCount == up.unknownCount == 0
    ensures Back(r, name, owner) ==> up.readyCount == 1 && up.unknownCount == 0
  {
    up := MissingUpness(name, owner);
    if i :| 0 <= i < |r.slices| && r.slices[i].name == name {
      ListedRemembered(r.view, r.slices, m.owners, i);
      up := ListedUpness(r.view(name), r.slices[i]);
      OnlyOneListed(r.slices, i);
    } else {
      UnlistedKeptIff(r.view, r.slices, m.owners, name);
    }
  }

  lemma OnlyOneListed(slices: seq<Slice>, i: nat)
    requires DistinctNames(slices) && i < |slices|
    ensures forall j :: 0 <= j < |slices| && slices[j].name == slices[i].name ==> j == i
  {
  }

  lemma Logged(m: Memory, r: SliceRound, threshold: real, name: string)
    requires name in NextUps(r.view, r.slices, m.owners)
    ensures LogOf(AfterRound(m, r, threshold).records, name)
         == Appended(LogOf(m.records, name), Observe(r.now, NextUps(r.view, r.slices, m.owners)[name], threshold))
  {
  }

  lemma {:induction false} AwayLogsDown(m: Memory, r: SliceRound, threshold: real, name: string, owner: OwnerInfo)
    requires ValidThreshold(threshold)
    requires Remembers(m, name, owner) && Away(r, name, owner)
    ensures LogOf(AfterRound(m, r, threshold).records, name)
         == Appended(LogOf(m.records, name), UpEvent(false, false, false, r.now))
    ensures Remembers(AfterRound(m, r, threshold), name, owner)
  {
    var up := ReportedFor(m, r, name, owner);
    ObservedSingle(r.now, up, threshold);
    Logged(m, r, threshold, name);
    OneRound(m, r, threshold, name, owner);
  }

  lemma BackLogsUp(m: Memory, r: SliceRound, threshold: real, name: string, owner: OwnerInfo)
    requires ValidThreshold(threshold)
    requires Remembers(m, name, owner) && Back(r, name, owner)
    ensures LogOf(AfterRound(m, r, threshold).records, name)
         == Appended(LogOf(m.records, name), UpEvent(true, false, false, r.now))
  {
    var up := ReportedFor(m, r, name, owner);
    ObservedSingle(r.now, up, threshold);
    Logged(m, r, threshold, name);
  }

  /** However many rounds a slice is away, only the first one is logged. */
  lemma {:induction false} AwayLogsOnce(
    m: Memory, away: seq<SliceRound>, threshold: real, name: string, owner: OwnerInfo)
    requires ValidThreshold(threshold)
    requires away != [] && Remembers(m, name, owner)
    requires LogOf(m.records, name) != [] && Last(LogOf(m.records, name)).up
    requires forall i :: 0 <= i < |away| ==> Away(away[i], name, owner)
    ensures var end := AfterRounds(m, away, threshold);
            && Remembers(end, name, owner)
            && LogOf(end.records, name) == LogOf(m.records, name) + [UpEvent(false, false, false, away[0].now)]
  {
    var before, r := DropLast(away), away[|away| - 1];
    if before == [] {
      assert AfterRounds(m, before, threshold) == m;
    } else {
      AwayLogsOnce(m, before, threshold, name, owner);
    }
    AwayLogsDown(AfterRounds(m, before, threshold), r, threshold, name, owner);
  }

  /** A slice that was up goes away for one or more rounds, its owner being active throughout. */
  predicate GoesAway(m: Memory, away: seq<SliceRound>, name: string, owner: OwnerInfo) {
    && Remembers(m, name, owner)
    && WellStarted(LogOf(m.records, name)) && Last(LogOf(m.records, name)).up
    && away != [] && forall i :: 0 <= i < |away| ==> Away(away[i], name, owner)
  }

  /** It goes away and comes back. */
  predicate Outage(m: Memory, away: seq<SliceRound>, back: SliceRound, name: string, owner: OwnerInfo) {
    GoesAway(m, away, name, owner) && Back(back, name, owner)
  }

  /** An outage adds exactly one down event, which nobody expected, and one up event, however many rounds it lasts. */
  lemma {:induction false} OutageLogsTwoEvents(
    m: Memory, away: seq<SliceRound>, back: SliceRound, threshold: real, name: string, owner: OwnerInfo)
    requires ValidThreshold(threshold) && Outage(m, away, back, name, owner)
    ensures LogOf(AfterRounds(m, away + [back], threshold).records, name)
         == LogOf(m.records, name) + [UpEvent(false, false, false, away[0].now)]
                                   + [UpEvent(true, false, false, back.now)]
  {
    AwayLogsOnce(m, away, threshold, name, owner);
    BackLogsUp(AfterRounds(m, away, threshold), back, threshold, name, owner);
    AfterRoundsSnoc(m, away, back, threshold);
  }

  /** As soon as it is away that counts as one interruption, and the up time stands still. */
  lemma {:induction false} AwayCountsOnce(
    m: Memory, away: seq<SliceRound>, threshold: real, name: string, owner: OwnerInfo, a: Arithmetic, now: int)
    requires ValidThreshold(threshold) && GoesAway(m, away, name, owner)
    requires a.Int64? ==> Timely(LogOf(AfterRounds(m, away, threshold).records, name), now)
    ensures var s := Summary(a, LogOf(m.records, name), away[0].now);
            var s' := Summary(a, LogOf(AfterRounds(m, away, threshold).records, name), now);
            && s'.interruptionCount == s.interruptionCount + 1
            && s'.recoveryCount == s.recoveryCount
            && s'.upTime == s.upTime
            && s'.downTime == s.downTime + (now - away[0].now)
  {
    var log, down := LogOf(m.records, name), UpEvent(false, false, false, away[0].now);
    AwayLogsOnce(m, away, threshold, name, owner);
    OneEvent(log, down, now);
    if a.Int64? {
      TimelyPrefix(log, down, now);
      MachineIsIdeal(log, down.ts);
      MachineIsIdeal(log + [down], now);
    }
  }

  /** Once it is over it counts as one recovery too, and has moved exactly its own length from up time to down time. */
  lemma {:induction false} OutageCountsOnce(
    m: Memory, away: seq<SliceRound>, back: SliceRound, threshold: real, name: string, owner: OwnerInfo,
    a: Arithmetic, now: int)
    requires ValidThreshold(threshold) && Outage(m, away, back, name, owner)
    requires a.Int64? ==> Timely(LogOf(AfterRounds(m, away + [back], threshold).records, name), now)
    ensures var s := Summary(a, LogOf(m.records, name), now);
            var s' := Summary(a, LogOf(AfterRounds(m, away + [back], threshold).records, name), now);
            && s'.interruptionCount == s.interruptionCount + 1
            && s'.recoveryCount == s.recoveryCount + 1
            && s'.latestDownTimeBetweenRecovery == back.now - away[0].now
            && s'.downTime == s.downTime + (back.now - away[0].now)
            && s'.upTime == s.upTime - (back.now - away[0].now)
  {
    var log := LogOf(m.records, name);
    var down, up := UpEvent(false, false, false, away[0].now), UpEvent(true, false, false, back.now);
    OutageLogsTwoEvents(m, away, back, threshold, name, owner);
    TwoEvents(log, down, up, now);
    if a.Int64? {
      TimelyPrefix(log + [down], up, now);
      TimelyPrefix(log, down, now);
      MachineIsIdeal(log, now);
      MachineIsIdeal(log + [down] + [up], now);
    }
  }

  lemma TimelyPrefix(log: Log, e: UpEvent, now: int)
    requires log != [] && Timely(log + [e], now)
    ensures Timely(log, now) && Timely(log, e.ts)
  {
    var log' := log + [e];
    assert forall i :: 0 <= i < |log| ==> log'[i] == log[i];
    assert log'[|log| - 1].ts <= log'[|log|].ts;
  }

  lemma OneEvent(log: Log, down: UpEvent, now: int)
    requires WellStarted(log) && Last(log).up
    requires !down.up && !down.expectedDown
    ensures var s, s' := Summary(Ideal, log, down.ts), Summary(Ideal, log + [down], now);
            && s'.interruptionCount == s.interruptionCount + 1
            && s'.recoveryCount == s.recoveryCount
            && s'.upTime == s.upTime
            && s'.downTime == s.downTime + (now - down.ts)
  {
    var a := log + [down];
    assert DropLast(a) == log && |log| >= 2;
    assert Interruptions(a) == Interruptions(log) + 1 && Recoveries(a) == Recoveries(log);
    assert forall state :: Charged(Ideal, a, state)
                        == Charged(Ideal, log, state) + if state then down.ts - Last(log).ts else 0;
  }

  lemma TwoEvents(log: Log, down: UpEvent, up: UpEvent, now: int)
    requires WellStarted(log) && Last(log).up
    requires !down.up && !down.expectedDown && up.up
    ensures var s, s' := Summary(Ideal, log, now), Summary(Ideal, log + [down] + [up], now);
            && s'.interruptionCount == s.interruptionCount + 1
            && s'.recoveryCount == s.recoveryCount + 1
            && s'.latestDownTimeBetweenRecovery == up.ts - down.ts
            && s'.downTime == s.downTime + (up.ts - down.ts)
            && s'.upTime == s.upTime - (up.ts - down.ts)
  {
    var a, b := log + [down], log + [down] + [up];
    assert DropLast(a) == log && DropLast(b) == a && |log| >= 2;
    assert Interruptions(a) == Interruptions(log) + 1 && Recoveries(a) == Recoveries(log);
    assert forall state :: Charged(Ideal, a, state)
                        == Charged(Ideal, log, state) + if state then down.ts - Last(log).ts else 0;
  }
}
