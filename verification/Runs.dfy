/** Whole runs of rounds on one file: what the stored records are, and which logs can arise at all. */
module Runs {
  import opened Events
  import opened SummaryLaws
  import opened Streams
  import opened UpnessThreshold
  import opened StateChanges

  /** The records stored after a run that began with an absent file. */
  function Stored(rounds: seq<Round>): FileRecords {
    ReconciledAll(map[], rounds)
  }

  /** For how many rounds, up to and including the last one, the key has been present without a gap. */
  function PresentFor(rounds: seq<Round>, key: string): (n: nat)
    ensures n <= |rounds|
    ensures forall i :: |rounds| - n <= i < |rounds| ==> key in rounds[i]
    ensures n < |rounds| ==> key !in rounds[|rounds| - n - 1]
  {
    if rounds == [] || key !in Last(rounds) then 0 else PresentFor(DropLast(rounds), key) + 1
  }

  /** What those rounds said about the key. */
  function History(rounds: seq<Round>, key: string): (obs: seq<UpEvent>) {
    var n := PresentFor(rounds, key);
    seq(n, i requires 0 <= i < n => rounds[|rounds| - n + i][key])
  }

  lemma HistorySnoc(rounds: seq<Round>, key: string)
    requires rounds != [] && key in Last(rounds)
    ensures History(rounds, key) == History(DropLast(rounds), key) + [Last(rounds)[key]]
  {
  }

  /** A key is stored iff the latest round has it, and its log tells the time since it last (re)appeared. */
  lemma {:induction false} StoredIsHistory(rounds: seq<Round>, key: string)
    ensures key in Stored(rounds) <==> rounds != [] && key in Last(rounds)
    ensures LogOf(Stored(rounds), key) == Fold(History(rounds, key))
  {
    if rounds != [] {
      var before := DropLast(rounds);
      StoredIsHistory(before, key);
      ReconciledAt(Last(rounds), Stored(before), key);
      if key in Last(rounds) {
        HistorySnoc(rounds, key);
        FoldSnoc(History(before, key), Last(rounds)[key]);
      }
    }
  }

  /** A round as the program makes it: one time stamp, and nothing up that is expected to be down. */
  predicate ProperRound(round: Round, now: int) {
    forall key :: key in round ==> round[key].ts == now && !(round[key].up && round[key].expectedDown)
  }

  /** Rounds made one after the other, none before its predecessor. */
  predicate ProperRun(rounds: seq<Round>, times: seq<int>) {
    && |times| == |rounds|
    && (forall i :: 0 <= i < |rounds| ==> ProperRound(rounds[i], times[i]))
    && (forall i :: 0 < i < |times| ==> times[i - 1] <= times[i])
  }

  /** The shape of every log that can be found in the store. */
  predicate Reachable(log: Log) {
    && log != []
    && Deduplicated(log)
    && Ordered(log)
    && forall i :: 0 <= i < |log| ==> !(log[i].up && log[i].expectedDown)
  }

  lemma ObservedIsProper(now: int, ups: Ups, threshold: real)
    ensures ProperRound(Observed(now, ups, threshold), now)
  {
  }

  lemma {:induction false} AppendedKeepsReachable(log: Log, o: UpEvent)
    requires log == [] || (Reachable(log) && Last(log).ts <= o.ts)
    requires !(o.up && o.expectedDown)
    ensures Reachable(Appended(log, o)) && Last(Appended(log, o)).ts <= o.ts
  {
  }

  lemma {:induction false} StoredIsReachable(rounds: seq<Round>, times: seq<int>, key: string)
    requires ProperRun(rounds, times) && key in Stored(rounds)
    ensures Reachable(Stored(rounds)[key])
    ensures Last(Stored(rounds)[key]).ts <= Last(times)
  {
    var before := DropLast(rounds);
    if key in Stored(before) {
      StoredIsReachable(before, DropLast(times), key);
    }
    AppendedKeepsReachable(LogOf(Stored(before), key), Last(rounds)[key]);
  }

  /** Counts that the program observes as the given event. */
  function Realised(e: UpEvent): Upness {
    Upness(if e.up then 1 else 0, 1, 0, e.expectedDown, e.failed, NoAttrs)
  }

  /** One update of the file: when, and what had been counted. */
  datatype Call = Call(now: int, ups: Ups)

  predicate InOrder(calls: seq<Call>) {
    forall i :: 0 < i < |calls| ==> calls[i - 1].now <= calls[i].now
  }

  function Rounds(calls: seq<Call>, threshold: real): seq<Round> {
    seq(|calls|, i requires 0 <= i < |calls| => Observed(calls[i].now, calls[i].ups, threshold))
  }

  lemma CallsAreProper(calls: seq<Call>, threshold: real) returns (times: seq<int>)
    requires InOrder(calls)
    ensures ProperRun(Rounds(calls, threshold), times)
  {
    times := seq(|calls|, i requires 0 <= i < |calls| => calls[i].now);
    forall i | 0 <= i < |calls| ensures ProperRound(Rounds(calls, threshold)[i], times[i]) {
      ObservedIsProper(calls[i].now, calls[i].ups, threshold);
    }
  }

  /** The calls, each for this one key, that leave the given log behind. */
  function Replay(log: Log, key: string): seq<Call> {
    seq(|log|, i requires 0 <= i < |log| => Call(log[i].ts, map[key := Realised(log[i])]))
  }

  lemma RealisedIsObserved(e: UpEvent, threshold: real)
    requires ValidThreshold(threshold) && !(e.up && e.expectedDown)
    ensures Observe(e.ts, Realised(e), threshold) == e
  {
    MaxUnknownBounds(1, threshold);
  }

  /** Conversely, every log of that shape is what some run of calls stores. */
  lemma ReachableIsStored(log: Log, key: string, threshold: real)
    requires ValidThreshold(threshold) && Reachable(log)
    ensures InOrder(Replay(log, key))
    ensures Stored(Rounds(Replay(log, key), threshold)) == map[key := log]
  {
    ReplayStores(log, key, threshold);
  }

  lemma {:induction false} ReplayStores(log: Log, key: string, threshold: real)
    requires ValidThreshold(threshold)
    requires Deduplicated(log) && forall i :: 0 <= i < |log| ==> !(log[i].up && log[i].expectedDown)
    ensures Stored(Rounds(Replay(log, key), threshold)) == if log == [] then map[] else map[key := log]
  {
    if log != [] {
      var rounds, before := Rounds(Replay(log, key), threshold), DropLast(log);
      ReplayRounds(log, key, threshold);
      assert DropLast(rounds) == Rounds(Replay(before, key), threshold);
      ReplayStores(before, key, threshold);
      assert Appended(before, Last(log)) == log;
      OneKeyRound(before, Last(log), Stored(DropLast(rounds)), key);
    }
  }

  lemma ReplayRounds(log: Log, key: string, threshold: real)
    requires ValidThreshold(threshold)
    requires forall i :: 0 <= i < |log| ==> !(log[i].up && log[i].expectedDown)
    ensures |Rounds(Replay(log, key), threshold)| == |log|
    ensures forall i :: 0 <= i < |log| ==> Rounds(Replay(log, key), threshold)[i] == map[key := log[i]]
  {
    forall i | 0 <= i < |log| ensures Rounds(Replay(log, key), threshold)[i] == map[key := log[i]] {
      RealisedIsObserved(log[i], threshold);
    }
  }

  ghost predicate Leaves(calls: seq<Call>, threshold: real, key: string, log: Log) {
    InOrder(calls) && key in Stored(Rounds(calls, threshold)) && Stored(Rounds(calls, threshold))[key] == log
  }

  /** A log can arise from the program's own updates, at whatever counts and ordered times, iff it has that shape. */
  lemma {:induction false} ReachableIff(log: Log, key: string, threshold: real)
    requires ValidThreshold(threshold)
    ensures Reachable(log) <==> exists calls :: Leaves(calls, threshold, key, log)
  {
    if Reachable(log) {
      ReachableIsStored(log, key, threshold);
      assert Leaves(Replay(log, key), threshold, key, log);
    }
    if calls :| Leaves(calls, threshold, key, log) {
      var times := CallsAreProper(calls, threshold);
      StoredIsReachable(Rounds(calls, threshold), times, key);
    }
  }

  lemma OneKeyRound(log: Log, o: UpEvent, records: FileRecords, key: string)
    requires LogOf(records, key) == log
    ensures Reconciled(map[key := o], records) == map[key := Appended(log, o)]
  {
  }

  /** After a round the exported gauge of every observed resource is the last logged state. */
  lemma GaugeAgreesWithLog(now: int, ups: Ups, records: FileRecords, threshold: real, key: string)
    requires key in ups
    ensures var log := Reconciled(Observed(now, ups, threshold), records)[key];
            log != [] && Last(log).up == Gauge(ups[key], threshold)
  {
  }
}
