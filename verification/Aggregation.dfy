/** The start-up gate of the aggregation loop. */
module Aggregation {
  import opened Wrappers
  import opened Events
  import opened UpnessThreshold
  import opened StateChanges
  import opened EventLog
  import opened Interleaving

  /** The files that must have been observed before the first aggregation. */
  function RequiredFiles(sliceEnabled: bool, lwsEnabled: bool): seq<File> {
    [JobSets, NodePools] + (if sliceEnabled then [Slices] else [JobSetNodes])
      + (if lwsEnabled then [LeaderWorkerSets] else [])
  }

  /** The files of the batch that one reconcile of the workloads hands to the event log. */
  function ReconciledFiles(sliceEnabled: bool, lwsEnabled: bool): set<File> {
    {JobSets} + (if !sliceEnabled then {JobSetNodes} else {}) + (if lwsEnabled then {LeaderWorkerSets} else {})
      + (if sliceEnabled then {Slices} else {})
  }

  /** Exactly under this condition there is an entry for the file, and then it is this one. */
  predicate Given(changes: map<File, Ups>, f: File, condition: bool, ups: Ups) {
    if condition then f in changes && changes[f] == ups else f !in changes
  }

  /** The batch of one reconcile. */
  function Changes(sliceEnabled: bool, lwsEnabled: bool, jobSets: Ups, jobSetNodes: Ups, workerSets: Ups, slices: Ups)
    : (changes: map<File, Ups>)
    ensures changes.Keys == ReconciledFiles(sliceEnabled, lwsEnabled)
    ensures forall f :: f in changes ==> Owner(f) == Reconciler
    ensures Given(changes, JobSets, true, jobSets)
    ensures Given(changes, JobSetNodes, !sliceEnabled, jobSetNodes)
    ensures Given(changes, LeaderWorkerSets, lwsEnabled, workerSets)
    ensures Given(changes, Slices, sliceEnabled, slices)
    ensures NodePools !in changes
  {
    var always := map[JobSets := jobSets];
    var noSlices := if sliceEnabled then always else always[JobSetNodes := jobSetNodes];
    var workers := if lwsEnabled then noSlices[LeaderWorkerSets := workerSets] else noSlices;
    if sliceEnabled then workers[Slices := slices] else workers
  }

  /** Whether a tick aggregates: the latch is set, or everything required has been observed by now. */
  predicate GateOpen(latched: bool, required: set<File>, observed: set<File>) {
    latched || required <= observed
  }

  class Aggregator {
    const eventLog: EventLogImpl
    const requiredFiles: seq<File>
    var isPopulated: bool
    var reportReady: bool

    constructor (eventLog: EventLogImpl, sliceEnabled: bool, lwsEnabled: bool)
      ensures this.eventLog == eventLog && !isPopulated && !reportReady
      ensures requiredFiles == RequiredFiles(sliceEnabled, lwsEnabled)
    {
      this.eventLog := eventLog;
      requiredFiles := RequiredFiles(sliceEnabled, lwsEnabled);
      isPopulated := false;
      reportReady := false;
    }

    /**
     * One tick of the polling loop: a failed poll does nothing; otherwise the node pools are observed, and stored
     * unless the store fails. No other file is touched.
     */
    method PollTick(now: int, polled: Result<Ups>)
      requires ValidThreshold(eventLog.unknownCountThreshold)
      modifies eventLog.store, eventLog.observed
      ensures polled.Err? ==> eventLog.observed.state == old(eventLog.observed.state)
      ensures polled.Ok? ==> eventLog.observed.state == old(eventLog.observed.state)[NodePools := polled.value]
      ensures var store, threshold := eventLog.store, eventLog.unknownCountThreshold;
              var records := Contents(old(store.files), NodePools);
              if polled.Ok? && store.failures == old(store.failures) then
                SameContents(store.files, old(store.files)[NodePools :=
                               Reconciled(StateChanges.Observed(now, polled.value, threshold), records)])
              else store.files == old(store.files)
      ensures forall f :: Owner(f) != Poller ==>
                && Contents(eventLog.store.files, f) == Contents(old(eventLog.store.files), f)
                && ObservedIf(false, old(eventLog.observed.state), eventLog.observed.state, f, map[])
    {
      if polled.Ok? {
        var _ := eventLog.AppendStateChange(now, NodePools, polled.value);
      }
    }

    /**
     * The end of a reconcile: each kind of counts becomes the latest observation of its own file. If no store fails
     * each is stored in that file too; otherwise some of them are. The node pools are not touched.
     */
    method DeliverReconcile(now: int, sliceEnabled: bool, lwsEnabled: bool,
                            jobSets: Ups, jobSetNodes: Ups, workerSets: Ups, slices: Ups)
      returns (ok: bool, ghost written: set<File>)
      requires ValidThreshold(eventLog.unknownCountThreshold)
      modifies eventLog.store, eventLog.observed
      ensures var changes := Changes(sliceEnabled, lwsEnabled, jobSets, jobSetNodes, workerSets, slices);
              && eventLog.observed.state == old(eventLog.observed.state) + changes
              && SameContents(eventLog.store.files,
                              AfterBatch(old(eventLog.store.files),
                                         ObservedBatch(now, changes, eventLog.unknownCountThreshold), written))
      ensures written <= ReconciledFiles(sliceEnabled, lwsEnabled)
      ensures ok <==> written == ReconciledFiles(sliceEnabled, lwsEnabled)
      ensures ok <==> eventLog.store.failures == old(eventLog.store.failures)
      ensures var before, after := old(eventLog.observed.state), eventLog.observed.state;
              && ObservedIf(true, before, after, JobSets, jobSets)
              && ObservedIf(!sliceEnabled, before, after, JobSetNodes, jobSetNodes)
              && ObservedIf(lwsEnabled, before, after, LeaderWorkerSets, workerSets)
              && ObservedIf(sliceEnabled, before, after, Slices, slices)
              && ObservedIf(false, before, after, NodePools, map[])
      ensures var before, after, threshold :=
                old(eventLog.store.files), eventLog.store.files, eventLog.unknownCountThreshold;
              && StoredIf(JobSets in written, before, after, JobSets, now, jobSets, threshold)
              && StoredIf(JobSetNodes in written, before, after, JobSetNodes, now, jobSetNodes, threshold)
              && StoredIf(LeaderWorkerSets in written, before, after, LeaderWorkerSets, now, workerSets, threshold)
              && StoredIf(Slices in written, before, after, Slices, now, slices, threshold)
              && StoredIf(false, before, after, NodePools, now, map[], threshold)
      ensures ok ==> && JobSets in written && (JobSetNodes in written <==> !sliceEnabled)
                     && (LeaderWorkerSets in written <==> lwsEnabled) && (Slices in written <==> sliceEnabled)
    {
      ghost var before, threshold := eventLog.store.files, eventLog.unknownCountThreshold;
      var changes := Changes(sliceEnabled, lwsEnabled, jobSets, jobSetNodes, workerSets, slices);
      ok, written := eventLog.AppendStateChanges(now, changes);
      BatchStores(before, now, changes, threshold, written, JobSets, jobSets);
      BatchStores(before, now, changes, threshold, written, JobSetNodes, jobSetNodes);
      BatchStores(before, now, changes, threshold, written, LeaderWorkerSets, workerSets);
      BatchStores(before, now, changes, threshold, written, Slices, slices);
      BatchStores(before, now, changes, threshold, written, NodePools, map[]);
      SameStored(AfterBatch(before, ObservedBatch(now, changes, threshold), written), eventLog.store.files);
    }

    /** One tick of the loop, up to the decision whether to aggregate. */
    method Tick() returns (aggregates: bool)
      modifies this
      ensures reportReady
      ensures aggregates <==> GateOpen(old(isPopulated), (set f | f in requiredFiles), eventLog.observed.state.Keys)
      ensures isPopulated == aggregates
    {
      reportReady := true;
      if !isPopulated {
        var populated := eventLog.observed.IsPopulated(requiredFiles);
        if !populated {
          return false;
        }
        isPopulated := true;
      }
      return true;
    }
  }

  /** What happens to the observed store and the loop, in some order. */
  datatype Event = Update(files: set<File>) | Tick

  /** Files are only ever added to the observed store. */
  function Observed(trace: seq<Event>): set<File> {
    if trace == [] then {}
    else Observed(DropLast(trace)) + (if Last(trace).Update? then Last(trace).files else {})
  }

  /** The latch after a trace. */
  function Latched(trace: seq<Event>, required: set<File>): bool {
    trace != [] &&
    var latched := Latched(DropLast(trace), required);
    if Last(trace).Tick? then GateOpen(latched, required, Observed(DropLast(trace))) else latched
  }

  /** Whether the tick at position `i` aggregates, with the latch. */
  predicate Aggregates(trace: seq<Event>, required: set<File>, i: nat) {
    i < |trace| && trace[i].Tick? && GateOpen(Latched(trace[..i], required), required, Observed(trace[..i]))
  }

  lemma {:induction false} LatchedIsObserved(trace: seq<Event>, required: set<File>)
    ensures Latched(trace, required) ==> required <= Observed(trace)
  {
    if trace != [] {
      LatchedIsObserved(DropLast(trace), required);
    }
  }

  /** The latch admits exactly the aggregations that re-checking at every tick would admit. */
  lemma LatchIsRecheck(trace: seq<Event>, required: set<File>, i: nat)
    ensures Aggregates(trace, required, i)
       <==> i < |trace| && trace[i].Tick? && required <= Observed(trace[..i])
  {
    if i < |trace| {
      LatchedIsObserved(trace[..i], required);
    }
  }

  lemma {:induction false} ObservedFrom(trace: seq<Event>, f: File)
    ensures f in Observed(trace) <==> exists j :: 0 <= j < |trace| && trace[j].Update? && f in trace[j].files
  {
    if trace != [] {
      var before := DropLast(trace);
      ObservedFrom(before, f);
      if j :| 0 <= j < |before| && before[j].Update? && f in before[j].files {
        assert trace[j].Update? && f in trace[j].files;
      } else if Last(trace).Update? && f in Last(trace).files {
        assert trace[|trace| - 1].Update?;
      }
    }
  }

  /**
   * No tick aggregates before every required file has been observed, and once the poller and the reconciler have each
   * delivered one batch, every tick does: together they deliver exactly the required files.
   */
  lemma GateOpens(trace: seq<Event>, sliceEnabled: bool, lwsEnabled: bool, i: nat)
    requires forall j :: 0 <= j < |trace| && trace[j].Update? ==>
               trace[j].files == {NodePools} || trace[j].files == ReconciledFiles(sliceEnabled, lwsEnabled)
    ensures var required := set f | f in RequiredFiles(sliceEnabled, lwsEnabled);
            Aggregates(trace, required, i)
            <==> && i < |trace| && trace[i].Tick?
                 && (exists j :: 0 <= j < i && trace[j] == Update({NodePools}))
                 && (exists j :: 0 <= j < i && trace[j] == Update(ReconciledFiles(sliceEnabled, lwsEnabled)))
  {
    var reconciled := ReconciledFiles(sliceEnabled, lwsEnabled);
    var required := set f | f in RequiredFiles(sliceEnabled, lwsEnabled);
    assert required == {NodePools} + reconciled;
    LatchIsRecheck(trace, required, i);
    if i < |trace| {
      var past := trace[..i];
      forall f ensures f in Observed(past) <==> exists j :: 0 <= j < i && trace[j].Update? && f in trace[j].files {
        ObservedFrom(past, f);
        assert forall j :: 0 <= j < i ==> past[j] == trace[j];
      }
      assert JobSets in reconciled && NodePools !in reconciled;
    }
  }
}
