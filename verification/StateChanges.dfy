/** One round of observations of all resources of one kind, and whole runs of rounds. */
module StateChanges {
  import opened Events
  import opened UpnessThreshold

  /** The event records of one file, by resource key. */
  type FileRecords = map<string, Log>

  /** What one round observed, by resource key: as counts, and as the events it asks to be logged. */
  type Ups = map<string, Upness>
  type Round = map<string, UpEvent>

  /** An expected down is never logged as up. */
  function Observe(now: int, u: Upness, threshold: real): UpEvent {
    UpEvent(Up(u, threshold) && !u.expectedDown, u.expectedDown, u.failed, now)
  }

  function Observed(now: int, ups: Ups, threshold: real): Round {
    map key | key in ups :: Observe(now, ups[key], threshold)
  }

  /** A resource with one member, which is ready or not. */
  lemma ObservedSingle(now: int, up: Upness, threshold: real)
    requires ValidThreshold(threshold)
    requires !up.expectedDown && up.expectedCount == 1 && up.unknownCount == 0 <= up.readyCount <= 1
    ensures Observe(now, up, threshold) == UpEvent(up.readyCount == 1, false, up.failed, now)
  {
    MaxUnknownBounds(1, threshold);
  }

  /** Go's map read: an absent key has the zero record. */
  function LogOf(records: FileRecords, key: string): Log {
    if key in records then records[key] else []
  }

  /** The records after a round: exactly the observed keys, each with its old log extended. */
  function Reconciled(round: Round, records: FileRecords): FileRecords {
    map key | key in round :: Appended(LogOf(records, key), round[key])
  }

  lemma ReconciledAt(round: Round, records: FileRecords, key: string)
    ensures key in Reconciled(round, records) <==> key in round
    ensures LogOf(Reconciled(round, records), key)
         == if key in round then Appended(LogOf(records, key), round[key]) else []
  {
  }

  /** The records after a run of rounds. */
  function ReconciledAll(records: FileRecords, rounds: seq<Round>): FileRecords {
    if rounds == [] then records else Reconciled(Last(rounds), ReconciledAll(records, DropLast(rounds)))
  }

  lemma ReconciledAllSnoc(records: FileRecords, rounds: seq<Round>, round: Round)
    ensures ReconciledAll(records, rounds + [round]) == Reconciled(round, ReconciledAll(records, rounds))
  {
    assert DropLast(rounds + [round]) == rounds;
  }

  /** A Go map that is updated in place. */
  class RecordMap {
    var records: FileRecords

    constructor (records: FileRecords)
      ensures this.records == records
    {
      this.records := records;
    }
  }

  method AppendStateChangeEvents(now: int, ups: Ups, events: RecordMap, threshold: real) returns (changed: bool)
    requires ValidThreshold(threshold)
    modifies events
    ensures events.records == Reconciled(Observed(now, ups, threshold), old(events.records))
    ensures changed <==> events.records != old(events.records)
  {
    ghost var round := Observed(now, ups, threshold);
    assert round.Keys == ups.Keys;
    var appended := AppendObserved(now, ups, events, threshold);
    var deleted := DeleteAbsent(ups, events);
    changed := appended || deleted;
    BothLoops(round, old(events.records));
  }

  /** The first loop on its way to `target`: the keys in `todo` still have their old logs, the others their new ones. */
  ghost function Extended(target: FileRecords, records: FileRecords, todo: set<string>): FileRecords {
    records + map key | key in target && key !in todo :: target[key]
  }

  /** The first loop: extend the log of every observed key, in any order. */
  method AppendObserved(now: int, ups: Ups, events: RecordMap, threshold: real) returns (changed: bool)
    modifies events
    ensures events.records == old(events.records) + Reconciled(Observed(now, ups, threshold), old(events.records))
    ensures changed <==> events.records != old(events.records)
  {
    changed := false;
    ghost var before := events.records;
    ghost var target := Reconciled(Observed(now, ups, threshold), before);
    ExtendedEnds(target, before);
    var todo := ups.Keys;
    assert todo == target.Keys;
    while todo != {}
      invariant todo <= target.Keys
      invariant events.records == Extended(target, before, todo)
      invariant changed <==> events.records != before
    {
      var key :| key in todo;
      var log, appended := AppendOne(now, ups[key], LogOf(events.records, key), threshold);
      if appended {
        changed := true;
      }
      ExtendedStep(target, before, todo, key);
      events.records := events.records[key := log];
      todo := todo - {key};
    }
  }

  /** The body of the first loop, for one key. */
  method AppendOne(now: int, up: Upness, log: Log, threshold: real) returns (log': Log, appended: bool)
    ensures log' == Appended(log, Observe(now, up, threshold))
    ensures appended <==> log' != log
  {
    var isUp := Up(up, threshold);
    if up.expectedDown {
      isUp := false;
    }
    var rec := new EventRecords(log);
    appended := rec.AppendUpEvent(now, isUp, up.expectedDown, up.failed);
    log' := rec.upEvents;
  }

  /** The second loop: forget the keys that were not observed, in any order. */
  method DeleteAbsent(ups: Ups, events: RecordMap) returns (changed: bool)
    modifies events
    ensures events.records == old(events.records) - (old(events.records).Keys - ups.Keys)
    ensures changed <==> events.records != old(events.records)
  {
    changed := false;
    ghost var before := events.records;
    ghost var deleted := {};
    var todo := events.records.Keys;
    while todo != {}
      invariant todo <= before.Keys
      invariant deleted == before.Keys - todo - ups.Keys
      invariant events.records == before - deleted
      invariant changed <==> deleted != {}
    {
      var key :| key in todo;
      todo := todo - {key};
      if key !in ups {
        events.records := events.records - {key};
        deleted := deleted + {key};
        changed := true;
      }
    }
    assert changed ==> events.records.Keys != before.Keys;
  }

  lemma ExtendedEnds(target: FileRecords, before: FileRecords)
    ensures Extended(target, before, target.Keys) == before
    ensures Extended(target, before, {}) == before + target
  {
  }

  lemma ExtendedStep(target: FileRecords, before: FileRecords, todo: set<string>, key: string)
    requires key in target && key in todo && target[key] != []
    ensures var current := Extended(target, before, todo);
            && LogOf(current, key) == LogOf(before, key)
            && Extended(target, before, todo - {key}) == current[key := target[key]]
            && (current[key := target[key]] != before <==> current != before || target[key] != LogOf(before, key))
  {
  }

  /** Extending and deleting together compute `Reconciled`, and neither undoes a change the other made. */
  lemma BothLoops(round: Round, before: FileRecords)
    ensures var extended := before + Reconciled(round, before);
            var after := extended - (extended.Keys - round.Keys);
            && after == Reconciled(round, before)
            && (after != before <==> extended != before || after != extended)
  {
    var target := Reconciled(round, before);
    assert target.Keys == round.Keys;
    DeleteDiffers(before, before + target, round.Keys);
    DeleteRestricts(before, target);
  }

  lemma DeleteRestricts(before: FileRecords, target: FileRecords)
    ensures (before + target) - ((before + target).Keys - target.Keys) == target
  {
  }

  lemma DeleteDiffers(before: FileRecords, extended: FileRecords, keys: set<string>)
    requires extended.Keys == before.Keys + keys
    ensures var after := extended - (extended.Keys - keys);
            after != before <==> extended != before || after != extended
  {
  }
}
