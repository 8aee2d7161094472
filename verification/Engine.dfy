/** The engine as a whole: both writers, any interleaving and any failures, from an empty bucket to a report. */
module Engine {
  import opened MachineInts
  import opened Events
  import opened SummaryLaws
  import opened Streams
  import opened StateChanges
  import opened Runs
  import opened EventLog
  import opened Interleaving

  /** The rounds that were stored in a file: those its owner finished, in order. */
  function StoredRounds(trace: seq<Step>, f: File): seq<Round> {
    RoundsOn(Finished(trace, Owner(f)), f)
  }

  /**
   * However the poller and the reconciler interleave, and whichever of their calls fail, every file holds exactly the
   * keys of the last round stored in it, each with the log of its observations since it last (re)appeared.
   */
  lemma BucketIsHistory(trace: seq<Step>, f: File, key: string)
    requires Disciplined(trace)
    ensures var records, rounds := Contents(Run(map[], trace).files, f), StoredRounds(trace, f);
            && (key in records <==> rounds != [] && key in Last(rounds))
            && LogOf(records, key) == Fold(History(rounds, key))
  {
    RunAgrees(map[], trace);
    SerialPerFile(map[], Finished(trace, Owner(f)), f);
    StoredIsHistory(StoredRounds(trace, f), key);
  }

  /** So what is reported for a key is the truth about what was observed of it, if its flags follow its state. */
  lemma BucketReportsTruth(trace: seq<Step>, f: File, key: string, now: int)
    requires Disciplined(trace) && key in Contents(Run(map[], trace).files, f)
    requires var obs := History(StoredRounds(trace, f), key); FlagsFollowUp(obs) && Timely(obs, now)
    ensures var s := Summary(Int64, Contents(Run(map[], trace).files, f)[key], now);
            var obs := History(StoredRounds(trace, f), key);
            && s.upTime == TimeIn(obs, true, now)
            && s.downTime == TimeIn(obs, false, now)
            && s.interruptionCount == TrueInterruptions(obs)
            && s.recoveryCount == TrueRecoveries(obs)
  {
    BucketIsHistory(trace, f, key);
    EndToEndInt64(History(StoredRounds(trace, f), key), now);
  }
}
