/** The event log: an in-memory store of the latest observations, and records kept in an object store that can fail. */
module EventLog {
  import opened Wrappers
  import opened Events
  import opened UpnessThreshold
  import opened StateChanges

  /** The objects in the bucket, one a kind of resource. */
  datatype File = JobSets | JobSetNodes | NodePools | Slices | LeaderWorkerSets

  type World = map<File, FileRecords>

  /** An absent object reads as the empty map. */
  function Contents(w: World, f: File): FileRecords {
    if f in w then w[f] else map[]
  }

  /** No reader can tell the two apart. */
  ghost predicate SameContents(v: World, w: World) {
    forall f :: Contents(v, f) == Contents(w, f)
  }

  /** One batch of observations: for each file, what its round asks to be logged. */
  type Batch = map<File, Round>

  function ObservedBatch(now: int, changes: map<File, Ups>, threshold: real): Batch {
    map f | f in changes :: Observed(now, changes[f], threshold)
  }

  lemma ObservedBatchAt(now: int, changes: map<File, Ups>, threshold: real, f: File)
    requires f in changes
    ensures f in ObservedBatch(now, changes, threshold)
    ensures ObservedBatch(now, changes, threshold)[f] == Observed(now, changes[f], threshold)
  {
  }

  /** The world after the rounds of the files in `written` have been stored, and no others. */
  function AfterBatch(w: World, batch: Batch, written: set<File>): World {
    w + map f | f in batch && f in written :: Reconciled(batch[f], Contents(w, f))
  }

  lemma AfterBatchAt(w: World, batch: Batch, written: set<File>, f: File)
    ensures Contents(AfterBatch(w, batch, written), f)
         == if f in batch && f in written then Reconciled(batch[f], Contents(w, f)) else Contents(w, f)
  {
  }

  lemma AfterNothing(w: World, batch: Batch)
    ensures SameContents(w, AfterBatch(w, batch, {}))
  {
  }

  /** The effect of one read-modify-write: the round of the file is stored, or, if a call failed, nothing. */
  ghost predicate Appends(before: World, after: World, f: File, round: Round, ok: bool) {
    if ok then SameContents(after, before[f := Reconciled(round, Contents(before, f))]) else after == before
  }

  /** Under this condition the file holds the round of these counts on top of what it held; otherwise just that. */
  predicate StoredIf(condition: bool, before: World, after: World, f: File, now: int, ups: Ups, threshold: real) {
    Contents(after, f)
    == if condition then Reconciled(Observed(now, ups, threshold), Contents(before, f)) else Contents(before, f)
  }

  /** Under this condition the counts are the latest ones of the file; otherwise it is as before. */
  predicate ObservedIf(condition: bool, before: map<File, Ups>, after: map<File, Ups>, f: File, ups: Ups) {
    if condition then f in after && after[f] == ups
    else (f in after <==> f in before) && (f in before ==> after[f] == before[f])
  }

  lemma BatchStores(w: World, now: int, changes: map<File, Ups>, threshold: real, written: set<File>,
                    f: File, ups: Ups)
    requires f in changes ==> changes[f] == ups
    ensures var after := AfterBatch(w, ObservedBatch(now, changes, threshold), written);
            StoredIf(f in changes && f in written, w, after, f, now, ups, threshold)
  {
    AfterBatchAt(w, ObservedBatch(now, changes, threshold), written, f);
  }

  lemma SameStored(v: World, w: World)
    requires SameContents(v, w)
    ensures forall condition, before, f, now, ups, threshold ::
              StoredIf(condition, before, v, f, now, ups, threshold)
              <==> StoredIf(condition, before, w, f, now, ups, threshold)
  {
  }

  /** The bucket. Either operation may fail; a failed one changes nothing, and is counted in `failures`. */
  class EventStore {
    var files: World
    ghost var failures: nat

    constructor ()
      ensures files == map[] && failures == 0
    {
      files := map[];
      failures := 0;
    }

    method Get(f: File) returns (r: Result<FileRecords>)
      modifies this`failures
      ensures r.Ok? ==> r.value == Contents(files, f) && failures == old(failures)
      ensures r.Err? ==> failures == old(failures) + 1
    {
      if * {
        r := Err;
        failures := failures + 1;
      } else {
        r := Ok(Contents(files, f));
      }
    }

    method Put(f: File, records: FileRecords) returns (ok: bool)
      modifies this
      ensures files == if ok then old(files)[f := records] else old(files)
      ensures failures == old(failures) + if ok then 0 else 1
    {
      if * {
        ok := false;
        failures := failures + 1;
      } else {
        files := files[f := records];
        ok := true;
      }
    }
  }

  predicate Populated(state: map<File, Ups>, keys: seq<File>) {
    forall f :: f in keys ==> f in state
  }

  /** The latest observation of every file that has been observed at all. */
  class CurrentObservedStore {
    var state: map<File, Ups>

    constructor ()
      ensures state == map[]
    {
      state := map[];
    }

    method Update(f: File, ups: Ups)
      modifies this
      ensures state == old(state)[f := ups]
    {
      state := state[f := ups];
    }

    method UpdateBatch(changes: map<File, Ups>)
      modifies this
      ensures state == old(state) + changes
    {
      ghost var before := state;
      var todo := changes.Keys;
      while todo != {}
        invariant todo <= changes.Keys
        invariant state == before + map f | f in changes && f !in todo :: changes[f]
      {
        var f :| f in todo;
        state := state[f := changes[f]];
        todo := todo - {f};
      }
      assert (map f | f in changes && f !in todo :: changes[f]) == changes;
    }

    method Get(f: File) returns (ups: Ups)
      ensures ups == if f in state then state[f] else map[]
    {
      ups := if f in state then state[f] else map[];
    }

    method IsPopulated(keys: seq<File>) returns (populated: bool)
      ensures populated <==> Populated(state, keys)
    {
      for i := 0 to |keys|
        invariant forall j :: 0 <= j < i ==> keys[j] in state
      {
        if keys[i] !in state {
          return false;
        }
      }
      return true;
    }
  }

  class EventLogImpl {
    const store: EventStore
    const observed: CurrentObservedStore
    const unknownCountThreshold: real

    constructor (store: EventStore, threshold: real)
      ensures this.store == store && fresh(observed) && unknownCountThreshold == threshold
      ensures observed.state == map[]
    {
      this.store := store;
      unknownCountThreshold := threshold;
      var o := new CurrentObservedStore();
      observed := o;
    }

    /** One read-modify-write: all, or nothing when a call fails; skipping an unchanged write cannot be noticed. */
    method AppendToEventStore(now: int, f: File, ups: Ups) returns (r: Result<FileRecords>)
      requires ValidThreshold(unknownCountThreshold)
      modifies store
      ensures r.Ok? ==> r.value == Reconciled(Observed(now, ups, unknownCountThreshold), Contents(old(store.files), f))
      ensures Appends(old(store.files), store.files, f, Observed(now, ups, unknownCountThreshold), r.Ok?)
      ensures store.failures == old(store.failures) + if r.Ok? then 0 else 1
    {
      var got := store.Get(f);
      if got.Err? {
        return Err;
      }
      var records := new RecordMap(got.value);
      var changed := AppendStateChangeEvents(now, ups, records, unknownCountThreshold);
      if changed {
        var ok := store.Put(f, records.records);
        if !ok {
          return Err;
        }
      }
      r := Ok(records.records);
    }

    /** The observation is remembered even when storing it fails. */
    method AppendStateChange(now: int, f: File, ups: Ups) returns (r: Result<FileRecords>)
      requires ValidThreshold(unknownCountThreshold)
      modifies store, observed
      ensures observed.state == old(observed.state)[f := ups]
      ensures r.Ok? ==> r.value == Reconciled(Observed(now, ups, unknownCountThreshold), Contents(old(store.files), f))
      ensures r.Ok? ==> forall key :: key in ups ==>
                key in r.value && r.value[key] != [] &&
                Last(r.value[key]).up == Gauge(observed.state[f][key], unknownCountThreshold)
      ensures Appends(old(store.files), store.files, f, Observed(now, ups, unknownCountThreshold), r.Ok?)
      ensures store.failures == old(store.failures) + if r.Ok? then 0 else 1
    {
      observed.Update(f, ups);
      r := AppendToEventStore(now, f, ups);
    }

    /**
     * The files are stored one after the other in any order, stopping at the first failure and only there: whenever it
     * stops, every file is wholly old or wholly new.
     */
    method AppendStateChanges(now: int, changes: map<File, Ups>) returns (ok: bool, ghost written: set<File>)
      requires ValidThreshold(unknownCountThreshold)
      modifies store, observed
      ensures observed.state == old(observed.state) + changes
      ensures written <= changes.Keys && (ok <==> written == changes.Keys)
      ensures store.failures == old(store.failures) + if ok then 0 else 1
      ensures SameContents(store.files,
                           AfterBatch(old(store.files), ObservedBatch(now, changes, unknownCountThreshold), written))
    {
      observed.UpdateBatch(changes);
      ok, written := StoreBatch(now, changes);
    }

    /** The loop over the files of the batch. */
    method StoreBatch(now: int, changes: map<File, Ups>) returns (ok: bool, ghost written: set<File>)
      requires ValidThreshold(unknownCountThreshold)
      modifies store
      ensures written <= changes.Keys && (ok <==> written == changes.Keys)
      ensures store.failures == old(store.failures) + if ok then 0 else 1
      ensures SameContents(store.files,
                           AfterBatch(old(store.files), ObservedBatch(now, changes, unknownCountThreshold), written))
    {
      ghost var before := store.files;
      ghost var batch := ObservedBatch(now, changes, unknownCountThreshold);
      var done := {};
      AfterNothing(before, batch);
      while done != changes.Keys
        invariant done <= changes.Keys
        invariant store.failures == old(store.failures)
        invariant SameContents(store.files, AfterBatch(before, batch, done))
        decreases changes.Keys - done
      {
        var todo := changes.Keys - done;
        assert done + todo == changes.Keys;
        var f :| f in todo;
        ghost var current := store.files;
        var r := AppendToEventStore(now, f, changes[f]);
        if r.Err? {
          return false, done;
        }
        ObservedBatchAt(now, changes, unknownCountThreshold, f);
        AfterBatchStep(before, batch, done, f, current, store.files, r.value);
        done := done + {f};
      }
      return true, done;
    }
  }

  lemma AfterBatchStep(before: World, batch: Batch, written: set<File>, f: File, current: World, next: World,
                       records: FileRecords)
    requires f in batch && f !in written
    requires SameContents(current, AfterBatch(before, batch, written))
    requires records == Reconciled(batch[f], Contents(current, f)) && SameContents(next, current[f := records])
    ensures SameContents(next, AfterBatch(before, batch, written + {f}))
  {
    forall g ensures Contents(next, g) == Contents(AfterBatch(before, batch, written + {f}), g) {
      AfterBatchAt(before, batch, written, g);
      AfterBatchAt(before, batch, written + {f}, g);
      assert Contents(current, g) == Contents(AfterBatch(before, batch, written), g);
      assert Contents(next, g) == if g == f then records else Contents(current, g);
    }
  }

  /******* Is a batch atomic? *******/

  /** Storing the batch changes what the file says. */
  predicate Alters(w: World, batch: Batch, f: File) {
    f in batch && Reconciled(batch[f], Contents(w, f)) != Contents(w, f)
  }

  /** Wherever the stores stop, a reader finds the bucket as it was before the batch, or as it is after all of it. */
  ghost predicate Atomic(w: World, batch: Batch) {
    forall written :: written <= batch.Keys ==> AllOrNothing(w, batch, written)
  }

  ghost predicate AllOrNothing(w: World, batch: Batch, written: set<File>) {
    || SameContents(AfterBatch(w, batch, written), w)
    || SameContents(AfterBatch(w, batch, written), AfterBatch(w, batch, batch.Keys))
  }

  /** A batch is atomic iff it alters at most one file. */
  lemma AtomicIff(w: World, batch: Batch)
    ensures Atomic(w, batch) <==> forall f, g :: Alters(w, batch, f) && Alters(w, batch, g) ==> f == g
  {
    if f, g :| Alters(w, batch, f) && Alters(w, batch, g) && f != g {
      NotAtomic(w, batch, f, g);
    } else {
      forall written | written <= batch.Keys ensures AllOrNothing(w, batch, written) {
        AlteringOneFile(w, batch, written);
      }
    }
  }

  /** If storing stops between two files that it alters, the bucket is in neither state. */
  lemma Torn(w: World, batch: Batch, f: File, g: File)
    requires Alters(w, batch, f) && Alters(w, batch, g) && f != g
    ensures !AllOrNothing(w, batch, {f})
  {
    var torn, all := AfterBatch(w, batch, {f}), AfterBatch(w, batch, batch.Keys);
    AfterBatchAt(w, batch, {f}, f);
    AfterBatchAt(w, batch, {f}, g);
    AfterBatchAt(w, batch, batch.Keys, g);
    assert Contents(torn, f) != Contents(w, f) && Contents(torn, g) != Contents(all, g);
  }

  lemma NotAtomic(w: World, batch: Batch, f: File, g: File)
    requires Alters(w, batch, f) && Alters(w, batch, g) && f != g
    ensures !Atomic(w, batch)
  {
    Torn(w, batch, f, g);
    assert {f} <= batch.Keys;
  }

  lemma AlteringOneFile(w: World, batch: Batch, written: set<File>)
    requires written <= batch.Keys && forall f, g :: Alters(w, batch, f) && Alters(w, batch, g) ==> f == g
    ensures AllOrNothing(w, batch, written)
  {
    var all := batch.Keys;
    if f :| f in written && Alters(w, batch, f) {
      forall g ensures Contents(AfterBatch(w, batch, written), g) == Contents(AfterBatch(w, batch, all), g) {
        AfterBatchAt(w, batch, written, g);
        AfterBatchAt(w, batch, all, g);
        assert g in batch && g !in written ==> !Alters(w, batch, g);
      }
    } else {
      forall g ensures Contents(AfterBatch(w, batch, written), g) == Contents(w, g) {
        AfterBatchAt(w, batch, written, g);
      }
    }
  }
}
