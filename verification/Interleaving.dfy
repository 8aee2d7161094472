/** The node poller and the workload reconciler share the bucket without locking it. */
module Interleaving {
  import opened Wrappers
  import opened Events
  import opened StateChanges
  import opened EventLog

  datatype Writer = Poller | Reconciler

  /** The poller stores the node pools, the reconciler everything else. */
  function Owner(f: File): Writer {
    if f.NodePools? then Poller else Reconciler
  }

  /** A writer reads a file, later writes it back, or gives up; the other writer may step in between. */
  datatype Step =
    | Read(w: Writer, file: File, round: Round)
    | Write(w: Writer)
    | Abort(w: Writer)

  datatype Job = Job(file: File, round: Round)

  /** A read-modify-write that has read but not yet written. */
  datatype Pending = Idle | Loaded(job: Job, snapshot: FileRecords)

  datatype State = State(files: World, poller: Pending, reconciler: Pending) {
    function Of(w: Writer): Pending {
      if w.Poller? then poller else reconciler
    }

    function With(w: Writer, p: Pending): State {
      if w.Poller? then this.(poller := p) else this.(reconciler := p)
    }
  }

  function Execute(s: State, step: Step): State {
    match step
    case Read(w, f, round) => s.With(w, Loaded(Job(f, round), Contents(s.files, f)))
    case Abort(w) => s.With(w, Idle)
    case Write(w) =>
      match s.Of(w)
      case Idle => s
      case Loaded(job, snapshot) =>
        var records := Reconciled(job.round, snapshot);
        var files := if records != snapshot then s.files[job.file := records] else s.files;
        s.(files := files).With(w, Idle)
  }

  function Run(files: World, trace: seq<Step>): State {
    if trace == [] then State(files, Idle, Idle) else Execute(Run(files, DropLast(trace)), Last(trace))
  }

  lemma RunSnoc(files: World, trace: seq<Step>, step: Step)
    ensures Run(files, trace + [step]) == Execute(Run(files, trace), step)
  {
    assert DropLast(trace + [step]) == trace;
  }

  /******* The machine and the event log *******/

  /** One call of `AppendToEventStore`, as the machine takes it: a failing call is given up. */
  function CallSteps(w: Writer, f: File, round: Round, ok: bool): seq<Step> {
    [Read(w, f, round), if ok then Write(w) else Abort(w)]
  }

  /** The machine makes of such a call exactly what the contract of the method promises. */
  lemma CallIsRun(trace: seq<Step>, files: World, after: World, w: Writer, f: File, round: Round, ok: bool)
    ensures var before, end := Run(files, trace), Run(files, trace + CallSteps(w, f, round, ok));
            && end.Of(w).Idle? && (forall v :: v != w ==> end.Of(v) == before.Of(v))
            && Appends(before.files, end.files, f, round, ok)
            && (Appends(before.files, after, f, round, ok) ==> SameContents(after, end.files))
  {
    var steps := CallSteps(w, f, round, ok);
    assert trace + steps == trace + [steps[0]] + [steps[1]];
    RunSnoc(files, trace, steps[0]);
    RunSnoc(files, trace + [steps[0]], steps[1]);
  }

  /** The run has left nothing half done, and has stored this part of the batch. */
  ghost predicate HasStored(files: World, trace: seq<Step>, batch: Batch, written: set<File>) {
    && SameContents(Run(files, trace).files, AfterBatch(files, batch, written))
    && Run(files, trace).poller.Idle? && Run(files, trace).reconciler.Idle?
  }

  lemma StoreOneMore(files: World, trace: seq<Step>, batch: Batch, written: set<File>, w: Writer, f: File)
    requires HasStored(files, trace, batch, written) && f in batch && f !in written
    ensures HasStored(files, trace + CallSteps(w, f, batch[f], true), batch, written + {f})
  {
    var trace' := trace + CallSteps(w, f, batch[f], true);
    var current, next := Run(files, trace).files, Run(files, trace').files;
    CallIsRun(trace, files, next, w, f, batch[f], true);
    AfterBatchStep(files, batch, written, f, current, next, Reconciled(batch[f], Contents(current, f)));
    assert forall v :: Run(files, trace').Of(v).Idle?;
    assert Run(files, trace').Of(Poller).Idle? && Run(files, trace').Of(Reconciler).Idle?;
  }

  /** All steps are those of one writer, on these files. */
  predicate OnlyOn(trace: seq<Step>, w: Writer, files: set<File>) {
    forall i :: 0 <= i < |trace| ==> trace[i].w == w && (trace[i].Read? ==> trace[i].file in files)
  }

  lemma CallOnlyOn(trace: seq<Step>, w: Writer, files: set<File>, f: File, round: Round, ok: bool)
    requires OnlyOn(trace, w, files - {f}) && f in files
    ensures OnlyOn(trace + CallSteps(w, f, round, ok), w, files)
  {
  }

  /** Likewise for `AppendStateChanges`: whatever part of a batch it stores, some run of the machine does just that. */
  lemma {:induction false} BatchIsRun(files: World, batch: Batch, written: set<File>, w: Writer)
    returns (trace: seq<Step>)
    requires written <= batch.Keys
    ensures HasStored(files, trace, batch, written)
    ensures OnlyOn(trace, w, written)
    decreases |written|
  {
    if written == {} {
      trace := [];
      AfterNothing(files, batch);
    } else {
      var f :| f in written;
      var before := BatchIsRun(files, batch, written - {f}, w);
      trace := before + CallSteps(w, f, batch[f], true);
      StoreOneMore(files, before, batch, written - {f}, w, f);
      CallOnlyOn(before, w, written, f, batch[f], true);
      assert written - {f} + {f} == written;
    }
  }

  /** Nobody reads, in order to write, a file of the other. */
  predicate Disciplined(trace: seq<Step>) {
    forall i :: 0 <= i < |trace| && trace[i].Read? ==> Owner(trace[i].file) == trace[i].w
  }

  lemma OwnFilesOnly(trace: seq<Step>, w: Writer, files: set<File>)
    requires OnlyOn(trace, w, files) && forall f :: f in files ==> Owner(f) == w
    ensures Disciplined(trace)
  {
  }

  /******* The serial execution *******/

  /** The job a writer has in hand after a trace, by its own steps alone. */
  function InHand(trace: seq<Step>, w: Writer): Option<Job> {
    if trace == [] then None
    else if Last(trace).w != w then InHand(DropLast(trace), w)
    else if Last(trace).Read? then Some(Job(Last(trace).file, Last(trace).round))
    else None
  }

  /** The jobs a writer has finished, in order. */
  function Finished(trace: seq<Step>, w: Writer): seq<Job> {
    if trace == [] then []
    else
      var before := DropLast(trace);
      if Last(trace) == Write(w) && InHand(before, w).Some? then Finished(before, w) + [InHand(before, w).value]
      else Finished(before, w)
  }

  /** The jobs done one at a time, each a read and a write with nothing in between. */
  function Serial(files: World, jobs: seq<Job>): World {
    if jobs == [] then files
    else
      var before, job := Serial(files, DropLast(jobs)), Last(jobs);
      before[job.file := Reconciled(job.round, Contents(before, job.file))]
  }

  lemma SerialLast(files: World, jobs: seq<Job>, f: File)
    requires jobs != []
    ensures var before := Contents(Serial(files, DropLast(jobs)), f);
            Contents(Serial(files, jobs), f)
            == if f == Last(jobs).file then Reconciled(Last(jobs).round, before) else before
  {
  }

  lemma SerialSnoc(files: World, jobs: seq<Job>, job: Job, f: File)
    ensures var before := Contents(Serial(files, jobs), f);
            Contents(Serial(files, jobs + [job]), f) == if f == job.file then Reconciled(job.round, before) else before
  {
    assert DropLast(jobs + [job]) == jobs;
  }

  /** The rounds of the jobs on one file, in order. */
  function RoundsOn(jobs: seq<Job>, f: File): seq<Round> {
    if jobs == [] then []
    else if Last(jobs).file == f then RoundsOn(DropLast(jobs), f) + [Last(jobs).round]
    else RoundsOn(DropLast(jobs), f)
  }

  /** A file depends only on its own initial contents and the rounds on it. */
  lemma {:induction false} SerialPerFile(files: World, jobs: seq<Job>, f: File)
    ensures Contents(Serial(files, jobs), f) == ReconciledAll(Contents(files, f), RoundsOn(jobs, f))
  {
    if jobs != [] {
      var before, job := DropLast(jobs), Last(jobs);
      SerialPerFile(files, before, f);
      SerialLast(files, jobs, f);
      if job.file == f {
        ReconciledAllSnoc(Contents(files, f), RoundsOn(before, f), job.round);
      }
    }
  }

  lemma {:induction false} RoundsOnConcat(a: seq<Job>, b: seq<Job>, f: File)
    ensures RoundsOn(a + b, f) == RoundsOn(a, f) + RoundsOn(b, f)
  {
    if b == [] {
      assert a + b == a;
    } else {
      var before := DropLast(b);
      assert DropLast(a + b) == a + before && Last(a + b) == Last(b);
      RoundsOnConcat(a, before, f);
      if Last(b).file == f {
        assert RoundsOn(a, f) + RoundsOn(b, f) == RoundsOn(a, f) + RoundsOn(before, f) + [Last(b).round];
      }
    }
  }

  lemma {:induction false} NoRoundsOn(jobs: seq<Job>, f: File)
    requires forall i :: 0 <= i < |jobs| ==> jobs[i].file != f
    ensures RoundsOn(jobs, f) == []
  {
    if jobs != [] {
      NoRoundsOn(DropLast(jobs), f);
    }
  }

  /******* The invariant *******/

  /** Each file is as its owner alone would have left it, and a pending snapshot is still what is stored. */
  ghost predicate Agrees(files: World, trace: seq<Step>, s: State) {
    && (forall f :: Contents(s.files, f) == Contents(Serial(files, Finished(trace, Owner(f))), f))
    && (forall w :: HandAgrees(trace, s, w))
  }

  predicate HandAgrees(trace: seq<Step>, s: State, w: Writer) {
    match InHand(trace, w)
    case None => s.Of(w).Idle?
    case Some(job) => Owner(job.file) == w && s.Of(w) == Loaded(job, Contents(s.files, job.file))
  }

  lemma {:induction false} RunAgrees(files: World, trace: seq<Step>)
    requires Disciplined(trace)
    ensures Agrees(files, trace, Run(files, trace))
  {
    if trace != [] {
      var before, step := DropLast(trace), trace[|trace| - 1];
      RunAgrees(files, before);
      assert before + [step] == trace;
      if step.Write? && InHand(before, step.w).Some? {
        WriteAgrees(files, before, step.w, Run(files, before));
      } else {
        QuietStepAgrees(files, before, step, Run(files, before));
      }
    }
  }

  /** A step that stores nothing. */
  lemma QuietStepAgrees(files: World, before: seq<Step>, step: Step, s: State)
    requires Agrees(files, before, s) && (step.Read? ==> Owner(step.file) == step.w)
    requires step.Write? ==> InHand(before, step.w).None?
    ensures Agrees(files, before + [step], Execute(s, step))
  {
    var trace := before + [step];
    assert DropLast(trace) == before;
    assert HandAgrees(before, s, step.w);
    forall w ensures HandAgrees(trace, Execute(s, step), w) {
      assert HandAgrees(before, s, w);
    }
    assert forall w :: Finished(trace, w) == Finished(before, w);
  }

  lemma {:induction false} WriteAgrees(files: World, before: seq<Step>, w: Writer, s: State)
    requires InHand(before, w).Some? && Agrees(files, before, s)
    ensures Agrees(files, before + [Write(w)], Execute(s, Write(w)))
  {
    var trace, s', job := before + [Write(w)], Execute(s, Write(w)), InHand(before, w).value;
    assert HandAgrees(before, s, w);
    forall f ensures Contents(s'.files, f) == Contents(Serial(files, Finished(trace, Owner(f))), f) {
      assert DropLast(trace) == before;
      WriteContents(s, w, job, f);
      SerialSnoc(files, Finished(before, w), job, f);
      assert Contents(s.files, f) == Contents(Serial(files, Finished(before, Owner(f))), f);
    }
    forall v ensures HandAgrees(trace, s', v) {
      assert HandAgrees(before, s, v);
      WriteKeepsOther(before, w, s, v);
    }
  }

  /** A write leaves its writer idle and does not touch what the other has read. */
  lemma WriteKeepsOther(before: seq<Step>, w: Writer, s: State, v: Writer)
    requires InHand(before, w).Some? && HandAgrees(before, s, w) && HandAgrees(before, s, v)
    ensures HandAgrees(before + [Write(w)], Execute(s, Write(w)), v)
  {
  }

  /** A skipped write of unchanged records cannot be told from a real one. */
  lemma WriteContents(s: State, w: Writer, job: Job, f: File)
    requires s.Of(w) == Loaded(job, Contents(s.files, job.file))
    ensures Contents(Execute(s, Write(w)).files, f)
         == if f == job.file then Reconciled(job.round, Contents(s.files, f)) else Contents(s.files, f)
  {
  }

  lemma {:induction false} FinishedIsOwned(files: World, trace: seq<Step>, w: Writer)
    requires Disciplined(trace)
    ensures forall i :: 0 <= i < |Finished(trace, w)| ==> Owner(Finished(trace, w)[i].file) == w
  {
    if trace != [] {
      var before := DropLast(trace);
      FinishedIsOwned(files, before, w);
      RunAgrees(files, before);
      assert HandAgrees(before, Run(files, before), w);
    }
  }

  /** Jobs of the other writer, before or after, leave a file as its owner's jobs alone would. */
  lemma OnlyOwnerMatters(files: World, own: seq<Job>, other: seq<Job>, f: File)
    requires forall i :: 0 <= i < |other| ==> other[i].file != f
    ensures Contents(Serial(files, own + other), f) == Contents(Serial(files, own), f)
    ensures Contents(Serial(files, other + own), f) == Contents(Serial(files, own), f)
  {
    NoRoundsOn(other, f);
    RoundsOnConcat(own, other, f);
    RoundsOnConcat(other, own, f);
    assert RoundsOn(own + other, f) == RoundsOn(other + own, f) == RoundsOn(own, f);
    SerialPerFile(files, own, f);
    SerialPerFile(files, own + other, f);
    SerialPerFile(files, other + own, f);
  }

  /** However the two interleave, the bucket ends up as if one had run after the other, in either order. */
  lemma {:induction false} InterleavingIsSerial(files: World, trace: seq<Step>)
    requires Disciplined(trace)
    ensures var p, r := Finished(trace, Poller), Finished(trace, Reconciler);
            && SameContents(Run(files, trace).files, Serial(files, p + r))
            && SameContents(Run(files, trace).files, Serial(files, r + p))
  {
    var p, r := Finished(trace, Poller), Finished(trace, Reconciler);
    RunAgrees(files, trace);
    FinishedIsOwned(files, trace, Poller);
    FinishedIsOwned(files, trace, Reconciler);
    forall f
      ensures Contents(Run(files, trace).files, f) == Contents(Serial(files, p + r), f)
      ensures Contents(Run(files, trace).files, f) == Contents(Serial(files, r + p), f)
    {
      if Owner(f) == Poller {
        OnlyOwnerMatters(files, p, r, f);
      } else {
        OnlyOwnerMatters(files, r, p, f);
      }
    }
  }

  /** Two writers of one file: both have read it before either writes. */
  function Race(f: File, a: Round, b: Round): seq<Step> {
    [Read(Poller, f, a), Read(Reconciler, f, b), Write(Reconciler), Write(Poller)]
  }

  lemma RaceResult(files: World, f: File, a: Round, b: Round)
    requires Reconciled(a, Contents(files, f)) != Contents(files, f)
    ensures Contents(Run(files, Race(f, a, b)).files, f) == Reconciled(a, Contents(files, f))
  {
    var t1 := [Read(Poller, f, a)];
    var t2 := t1 + [Read(Reconciler, f, b)];
    var t3 := t2 + [Write(Reconciler)];
    assert DropLast(t1) == [] && DropLast(t2) == t1 && DropLast(t3) == t2 && DropLast(Race(f, a, b)) == t3;
    var loaded := Loaded(Job(f, a), Contents(files, f));
    assert Run(files, t1) == State(files, loaded, Idle);
    assert Run(files, t2) == State(files, loaded, Loaded(Job(f, b), Contents(files, f)));
    assert Run(files, t3).poller == loaded;
  }

  /**
   * The discipline is needed: if both writers observe a change of one key, the later write undoes the other's event,
   * and the file ends up as in neither serial order.
   */
  lemma LostUpdate(files: World, f: File, a: Round, b: Round, key: string)
    requires key in a && key in b && LogOf(Contents(files, f), key) != []
    requires var last := Last(LogOf(Contents(files, f), key));
             !SameFlags(last, a[key]) && !SameFlags(last, b[key]) && !SameFlags(a[key], b[key])
    ensures var raced := Contents(Run(files, Race(f, a, b)).files, f);
            && LogOf(raced, key) == LogOf(Contents(files, f), key) + [a[key]]
            && raced != Contents(Serial(files, [Job(f, a), Job(f, b)]), f)
            && raced != Contents(Serial(files, [Job(f, b), Job(f, a)]), f)
  {
    var records := Contents(files, f);
    ReconciledAt(a, records, key);
    RaceResult(files, f, a, b);
    SerialOfTwo(files, f, a, b, key);
    SerialOfTwo(files, f, b, a, key);
  }

  lemma SerialOfTwo(files: World, f: File, a: Round, b: Round, key: string)
    requires key in a && key in b
    ensures LogOf(Contents(Serial(files, [Job(f, a), Job(f, b)]), f), key)
         == Appended(Appended(LogOf(Contents(files, f), key), a[key]), b[key])
  {
    var records := Contents(files, f);
    SerialSnoc(files, [], Job(f, a), f);
    SerialSnoc(files, [Job(f, a)], Job(f, b), f);
    assert [] + [Job(f, a)] == [Job(f, a)] && [Job(f, a)] + [Job(f, b)] == [Job(f, a), Job(f, b)];
    ReconciledAt(a, records, key);
    ReconciledAt(b, Reconciled(a, records), key);
  }
}
