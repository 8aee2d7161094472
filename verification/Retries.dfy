/** A batch that fails half way and is tried again leaves the same history as one that never failed. */
module Retries {
  import opened Events
  import opened StateChanges
  import opened EventLog

  /******* Equality up to time stamps *******/

  predicate SameStates(a: Log, b: Log) {
    |a| == |b| && forall i :: 0 <= i < |a| ==> SameFlags(a[i], b[i])
  }

  predicate SameRecords(a: FileRecords, b: FileRecords) {
    a.Keys == b.Keys && forall key :: key in a ==> SameStates(a[key], b[key])
  }

  predicate SameRound(a: Round, b: Round) {
    a.Keys == b.Keys && forall key :: key in a ==> SameFlags(a[key], b[key])
  }

  predicate SameBatch(a: Batch, b: Batch) {
    a.Keys == b.Keys && forall f :: f in a ==> SameRound(a[f], b[f])
  }

  /** Observing the same thing at another time asks for the same states. */
  lemma ObservedLater(now: int, later: int, changes: map<File, Ups>, threshold: real)
    ensures SameBatch(ObservedBatch(now, changes, threshold), ObservedBatch(later, changes, threshold))
  {
  }

  lemma AppendedSameStates(a: Log, b: Log, o: UpEvent, p: UpEvent)
    requires SameStates(a, b) && SameFlags(o, p)
    ensures SameStates(Appended(a, o), Appended(b, p))
  {
  }

  lemma {:induction false} ReconciledSame(a: Round, b: Round, r: FileRecords, s: FileRecords)
    requires SameRound(a, b) && SameRecords(r, s)
    ensures SameRecords(Reconciled(a, r), Reconciled(b, s))
  {
    forall key | key in a ensures SameStates(Reconciled(a, r)[key], Reconciled(b, s)[key]) {
      AppendedSameStates(LogOf(r, key), LogOf(s, key), a[key], b[key]);
    }
  }

  /** Storing the same observations a second time, even later, changes nothing at all. */
  lemma ReconciledTwice(a: Round, b: Round, r: FileRecords)
    requires SameRound(a, b)
    ensures Reconciled(b, Reconciled(a, r)) == Reconciled(a, r)
  {
    forall key | key in b ensures Reconciled(b, Reconciled(a, r))[key] == Reconciled(a, r)[key] {
      AppendedTwice(LogOf(r, key), a[key], b[key]);
    }
  }

  lemma AppendedTwice(log: Log, o: UpEvent, p: UpEvent)
    requires SameFlags(o, p)
    ensures Appended(Appended(log, o), p) == Appended(log, o)
  {
  }

  /******* Attempts *******/

  /** One call of `AppendStateChanges`: the batch it observed and the files it managed to store. */
  datatype Attempt = Attempt(batch: Batch, written: set<File>)

  function AfterAttempts(w: World, attempts: seq<Attempt>): World {
    if attempts == [] then w
    else AfterBatch(AfterAttempts(w, DropLast(attempts)), Last(attempts).batch, Last(attempts).written)
  }

  /** The observations of `clean` are tried, at whatever times, until all files of the batch are stored. */
  predicate Episode(attempts: seq<Attempt>, clean: Batch) {
    && attempts != []
    && Last(attempts).written == Last(attempts).batch.Keys
    && forall i :: 0 <= i < |attempts| ==> SameBatch(clean, attempts[i].batch)
  }

  /** Handing the same counts over again, at other times, until all files are stored is such an episode. */
  lemma RetriesAreEpisode(attempts: seq<Attempt>, times: seq<int>, now: int, changes: map<File, Ups>, threshold: real)
    requires attempts != [] && |times| == |attempts| && Last(attempts).written == changes.Keys
    requires forall i :: 0 <= i < |attempts| ==> attempts[i].batch == ObservedBatch(times[i], changes, threshold)
    ensures Episode(attempts, ObservedBatch(now, changes, threshold))
  {
    forall i | 0 <= i < |attempts| ensures SameBatch(ObservedBatch(now, changes, threshold), attempts[i].batch) {
      ObservedLater(now, times[i], changes, threshold);
    }
    assert attempts[|attempts| - 1].batch.Keys == changes.Keys;
  }

  predicate Stores(a: Attempt, f: File) {
    f in a.batch && f in a.written
  }

  /** The rounds that were stored in one file, in order. */
  function StoredRounds(attempts: seq<Attempt>, f: File): seq<Round> {
    if attempts == [] then []
    else if Stores(Last(attempts), f) then StoredRounds(DropLast(attempts), f) + [Last(attempts).batch[f]]
    else StoredRounds(DropLast(attempts), f)
  }

  lemma {:induction false} AttemptsPerFile(w: World, attempts: seq<Attempt>, f: File)
    ensures Contents(AfterAttempts(w, attempts), f) == ReconciledAll(Contents(w, f), StoredRounds(attempts, f))
  {
    if attempts != [] {
      var before, a := DropLast(attempts), Last(attempts);
      AttemptsPerFile(w, before, f);
      AfterBatchAt(AfterAttempts(w, before), a.batch, a.written, f);
      if Stores(a, f) {
        assert DropLast(StoredRounds(attempts, f)) == StoredRounds(before, f);
      }
    }
  }

  /** Of several stores of the same observations only the first one counts. */
  lemma {:induction false} FirstStoreWins(records: FileRecords, rounds: seq<Round>)
    requires rounds != [] && forall i :: 0 <= i < |rounds| ==> SameRound(rounds[0], rounds[i])
    ensures ReconciledAll(records, rounds) == Reconciled(rounds[0], records)
  {
    var before := DropLast(rounds);
    if before == [] {
      assert ReconciledAll(records, before) == records;
    } else {
      FirstStoreWins(records, before);
      ReconciledTwice(rounds[0], rounds[|rounds| - 1], records);
    }
  }

  lemma {:induction false} StoredRoundsAlike(attempts: seq<Attempt>, clean: Batch, f: File)
    requires forall i :: 0 <= i < |attempts| ==> SameBatch(clean, attempts[i].batch)
    ensures f !in clean ==> StoredRounds(attempts, f) == []
    ensures f in clean ==> forall r :: r in StoredRounds(attempts, f) ==> SameRound(clean[f], r)
  {
    if attempts != [] {
      StoredRoundsAlike(DropLast(attempts), clean, f);
      assert SameBatch(clean, attempts[|attempts| - 1].batch);
    }
  }

  lemma SameRoundTransitive(a: Round, b: Round, c: Round)
    requires SameRound(a, b) && SameRound(a, c)
    ensures SameRound(b, c)
  {
  }

  lemma EpisodeStores(attempts: seq<Attempt>, clean: Batch, f: File)
    requires Episode(attempts, clean) && f in clean
    ensures var rounds := StoredRounds(attempts, f);
            && rounds != [] && SameRound(rounds[0], clean[f])
            && forall i :: 0 <= i < |rounds| ==> SameRound(rounds[0], rounds[i])
  {
    var rounds := StoredRounds(attempts, f);
    StoredRoundsAlike(attempts, clean, f);
    assert SameBatch(clean, attempts[|attempts| - 1].batch);
    forall i | 0 <= i < |rounds| ensures SameRound(rounds[0], rounds[i]) {
      assert rounds[0] in rounds && rounds[i] in rounds;
      SameRoundTransitive(clean[f], rounds[0], rounds[i]);
    }
    assert rounds[0] in rounds;
  }

  /** One episode of failures and retries, started from the same states, ends in the same states as a clean store. */
  lemma {:induction false} EpisodeIsClean(v: World, w: World, attempts: seq<Attempt>, clean: Batch, f: File)
    requires Episode(attempts, clean)
    requires SameRecords(Contents(v, f), Contents(w, f))
    ensures SameRecords(Contents(AfterAttempts(v, attempts), f), Contents(AfterBatch(w, clean, clean.Keys), f))
  {
    AttemptsPerFile(v, attempts, f);
    AfterBatchAt(w, clean, clean.Keys, f);
    if f in clean {
      var rounds := StoredRounds(attempts, f);
      EpisodeStores(attempts, clean, f);
      FirstStoreWins(Contents(v, f), rounds);
      ReconciledSame(rounds[0], clean[f], Contents(v, f), Contents(w, f));
    } else {
      StoredRoundsAlike(attempts, clean, f);
    }
  }

  /******* Whole runs *******/

  function AfterEpisodes(w: World, episodes: seq<seq<Attempt>>): World {
    if episodes == [] then w else AfterAttempts(AfterEpisodes(w, DropLast(episodes)), Last(episodes))
  }

  function AfterCleanRun(w: World, batches: seq<Batch>): World {
    if batches == [] then w
    else AfterBatch(AfterCleanRun(w, DropLast(batches)), Last(batches), Last(batches).Keys)
  }

  /**
   * Over any run, whatever failed and however often it was retried, every key of every file has the same sequence of
   * (up, expectedDown, failed) states as in a run without failures; only the time stamps can differ.
   */
  lemma {:induction false} RetriesAreHarmless(w: World, episodes: seq<seq<Attempt>>, batches: seq<Batch>, f: File)
    requires |episodes| == |batches|
    requires forall i :: 0 <= i < |batches| ==> Episode(episodes[i], batches[i])
    ensures SameRecords(Contents(AfterEpisodes(w, episodes), f), Contents(AfterCleanRun(w, batches), f))
  {
    if episodes != [] {
      RetriesAreHarmless(w, DropLast(episodes), DropLast(batches), f);
      EpisodeIsClean(AfterEpisodes(w, DropLast(episodes)), AfterCleanRun(w, DropLast(batches)),
                     Last(episodes), Last(batches), f);
    }
  }
}
