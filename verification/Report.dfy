/** The report: the stored logs of one kind of resource, summarised and joined with what was last observed. */
module Report {
  import opened MachineInts
  import opened Events
  import opened SummaryLaws
  import opened Streams
  import opened UpnessThreshold
  import opened StateChanges
  import opened Runs

  datatype SummaryWithAttrs = SummaryWithAttrs(attrs: Attrs, summary: EventSummary)

  function AttrsOf(ups: Ups, key: string): Attrs {
    if key in ups then ups[key].attrs else NoAttrs
  }

  function Summaries(now: int, ups: Ups, events: FileRecords): map<string, SummaryWithAttrs> {
    map key | key in events :: SummaryWithAttrs(AttrsOf(ups, key), Summary(Int64, events[key], now))
  }

  /** Every stored log is reported, also one whose resource is no longer observed. */
  method Summarize(now: int, ups: Ups, events: FileRecords) returns (summaries: map<string, SummaryWithAttrs>)
    ensures summaries == Summaries(now, ups, events)
  {
    summaries := map[];
    var todo := events.Keys;
    while todo != {}
      invariant todo <= events.Keys && summaries.Keys == events.Keys - todo
      invariant forall key :: key in summaries ==>
                  summaries[key] == SummaryWithAttrs(AttrsOf(ups, key), Summary(Int64, events[key], now))
    {
      var key :| key in todo;
      var rec := new EventRecords(events[key]);
      var summary := rec.Summarize(now);
      summaries := summaries[key := SummaryWithAttrs(AttrsOf(ups, key), summary)];
      todo := todo - {key};
    }
  }

  /**
   * What is reported after any run of rounds: exactly the resources of the latest round, and for each of them the
   * truth about the time since it last (re)appeared, provided its flags changed only together with its state.
   */
  lemma {:induction false} ReportIsTruth(rounds: seq<Round>, ups: Ups, now: int, key: string)
    ensures key in Summaries(now, ups, Stored(rounds)) <==> rounds != [] && key in Last(rounds)
    ensures key in Summaries(now, ups, Stored(rounds)) ==>
              Summaries(now, ups, Stored(rounds))[key].attrs == if key in ups then ups[key].attrs else NoAttrs
    ensures var obs := History(rounds, key);
            key in Summaries(now, ups, Stored(rounds)) && FlagsFollowUp(obs) && Timely(obs, now) ==>
              var s := Summaries(now, ups, Stored(rounds))[key].summary;
              && s.upTime == TimeIn(obs, true, now)
              && s.downTime == TimeIn(obs, false, now)
              && s.interruptionCount == TrueInterruptions(obs)
              && s.recoveryCount == TrueRecoveries(obs)
  {
    StoredIsHistory(rounds, key);
    if FlagsFollowUp(History(rounds, key)) && Timely(History(rounds, key), now) {
      EndToEndInt64(History(rounds, key), now);
    }
  }
}
