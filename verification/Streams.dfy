/** The deduplicated log against the raw stream of observations it was built from. */
module Streams {
  import opened MachineInts
  import opened Events
  import opened SummaryLaws

  /******* Quantities read directly off a stream of observations *******/

  predicate EverUp(s: seq<UpEvent>) {
    exists i :: 0 <= i < |s| && s[i].up
  }

  /** How often `up` turned to `down` without that being expected. */
  function TrueInterruptions(s: seq<UpEvent>): nat {
    if |s| < 2 then 0
    else if s[|s| - 2].up && !Last(s).up && !Last(s).expectedDown then TrueInterruptions(DropLast(s)) + 1
    else TrueInterruptions(DropLast(s))
  }

  /** How often, after the first `up`, `down` turned to `up` from a down that was not expected. */
  function TrueRecoveries(s: seq<UpEvent>): nat {
    if |s| < 2 then 0
    else if EverUp(DropLast(s)) && !s[|s| - 2].up && Last(s).up && !s[|s| - 2].expectedDown then
      TrueRecoveries(DropLast(s)) + 1
    else TrueRecoveries(DropLast(s))
  }

  /** Unexpected-down observations, after the first `up`, that only changed the flags of a resource already down. */
  function FlagFlipsWhileDown(s: seq<UpEvent>): nat {
    if |s| < 2 then 0
    else if EverUp(DropLast(s)) && !s[|s| - 2].up && !Last(s).up && !SameFlags(s[|s| - 2], Last(s))
            && !Last(s).expectedDown then FlagFlipsWhileDown(DropLast(s)) + 1
    else FlagFlipsWhileDown(DropLast(s))
  }

  /** Observations that only changed the flags of a resource that stayed up. */
  function FlagFlipsWhileUp(s: seq<UpEvent>): nat {
    if |s| < 2 then 0
    else if s[|s| - 2].up && Last(s).up && !SameFlags(s[|s| - 2], Last(s))
            && !s[|s| - 2].expectedDown then FlagFlipsWhileUp(DropLast(s)) + 1
    else FlagFlipsWhileUp(DropLast(s))
  }

  /** The flags change only together with `up`. */
  predicate FlagsFollowUp(s: seq<UpEvent>) {
    forall i :: 0 < i < |s| && s[i].up == s[i - 1].up ==> SameFlags(s[i], s[i - 1])
  }

  /** The flags do not change before the resource is first up. */
  predicate SteadyUntilUp(s: seq<UpEvent>) {
    forall i :: 0 < i < |s| && !EverUp(s[..i + 1]) ==> SameFlags(s[i], s[i - 1])
  }

  /******* The log is the stream with repetitions dropped *******/

  /** A stream whose first observation is already up gets a down observation in front. */
  function Seeded(obs: seq<UpEvent>): seq<UpEvent> {
    if obs != [] && obs[0].up then [obs[0].(up := false)] + obs else obs
  }

  /** Keep an element only if it differs from its direct predecessor in the stream. */
  function Destuttered(s: seq<UpEvent>): seq<UpEvent> {
    if |s| < 2 then s
    else if SameFlags(s[|s| - 2], Last(s)) then Destuttered(DropLast(s))
    else Destuttered(DropLast(s)) + [Last(s)]
  }

  lemma {:induction false} FoldIsDestuttering(obs: seq<UpEvent>)
    ensures Fold(obs) == Destuttered(Seeded(obs))
    ensures obs != [] ==> Fold(obs) != [] && SameFlags(Last(Fold(obs)), Last(obs))
  {
    if |obs| == 1 {
      assert DropLast(obs) == [];
      var seeded := Seeded(obs);
      if obs[0].up {
        assert DropLast(seeded) == [seeded[0]];
      }
    } else if |obs| > 1 {
      var before := DropLast(obs);
      FoldIsDestuttering(before);
      assert DropLast(Seeded(obs)) == Seeded(before);
    }
  }

  /** The shape of every log an observation stream can leave behind. */
  predicate Deduplicated(log: Log) {
    (log != [] ==> !log[0].up) &&
    forall i :: 0 < i < |log| ==> !SameFlags(log[i], log[i - 1])
  }

  lemma {:induction false} FoldIsDeduplicated(obs: seq<UpEvent>)
    ensures Deduplicated(Fold(obs))
  {
    if obs != [] {
      FoldIsDeduplicated(DropLast(obs));
    }
  }

  lemma {:induction false} FoldOfDeduplicated(log: Log)
    requires Deduplicated(log)
    ensures Fold(log) == log
  {
    if |log| == 1 {
      assert DropLast(log) == [];
    } else if |log| > 1 {
      FoldOfDeduplicated(DropLast(log));
    }
  }

  /******* What deduplication preserves *******/

  /** Two histories from which the same continuations count the same transitions. */
  ghost predicate CountAlike(s: seq<UpEvent>, t: seq<UpEvent>) {
    && s != [] && t != [] && SameFlags(Last(s), Last(t))
    && EverUp(s) == EverUp(t)
    && TrueInterruptions(s) == TrueInterruptions(t)
    && TrueRecoveries(s) == TrueRecoveries(t)
    && FlagFlipsWhileDown(s) == FlagFlipsWhileDown(t)
    && FlagFlipsWhileUp(s) == FlagFlipsWhileUp(t)
  }

  lemma EverUpSnoc(s: seq<UpEvent>, o: UpEvent)
    ensures EverUp(s + [o]) == (EverUp(s) || o.up)
  {
    var t := s + [o];
    assert t[|s|] == o;
    assert forall i :: 0 <= i < |s| ==> t[i] == s[i];
  }

  lemma CountAlikeSnoc(s: seq<UpEvent>, t: seq<UpEvent>, o: UpEvent)
    requires CountAlike(s, t)
    ensures CountAlike(s + [o], t + [o])
    ensures SameFlags(Last(s), o) ==> CountAlike(s, t + [o])
  {
    EverUpSnoc(s, o);
    EverUpSnoc(t, o);
    assert DropLast(s + [o]) == s && DropLast(t + [o]) == t;
    assert EverUp(s) == EverUp(t);
  }

  lemma {:induction false} FoldCountsAlike(obs: seq<UpEvent>)
    requires obs != []
    ensures CountAlike(Fold(obs), obs)
  {
    var before, o := DropLast(obs), Last(obs);
    assert obs == before + [o];
    if before == [] {
      FoldOfOne(o);
    } else {
      FoldCountsAlike(before);
      CountAlikeSnoc(Fold(before), before, o);
    }
  }

  lemma {:induction false} FoldKeepsTime(obs: seq<UpEvent>, state: bool, now: int)
    ensures TimeIn(Fold(obs), state, now) == TimeIn(obs, state, now)
    decreases |obs|
  {
    if obs != [] {
      var before, o := DropLast(obs), Last(obs);
      FoldKeepsTime(before, state, o.ts);
      var log, log' := Fold(before), Fold(obs);
      if before == [] {
        assert obs == [o];
        FoldOfOne(o);
        assert DropLast([o]) == [] && DropLast([o.(up := false)]) == [];
        assert DropLast([o.(up := false), o]) == [o.(up := false)];
      } else if log' != log {
        assert DropLast(log') == log;
      }
    }
  }

  lemma FoldOfOne(o: UpEvent)
    ensures Fold([o]) == if o.up then [o.(up := false), o] else [o]
    ensures CountAlike(Fold([o]), [o])
  {
  }

  /** Deduplicating loses nothing the reports are about: times per state and numbers of transitions. */
  lemma FoldPreserves(obs: seq<UpEvent>, now: int)
    ensures forall state :: TimeIn(Fold(obs), state, now) == TimeIn(obs, state, now)
    ensures TrueInterruptions(Fold(obs)) == TrueInterruptions(obs)
    ensures TrueRecoveries(Fold(obs)) == TrueRecoveries(obs)
    ensures FlagFlipsWhileDown(Fold(obs)) == FlagFlipsWhileDown(obs)
    ensures FlagFlipsWhileUp(Fold(obs)) == FlagFlipsWhileUp(obs)
  {
    if obs != [] {
      FoldCountsAlike(obs);
    }
    forall state ensures TimeIn(Fold(obs), state, now) == TimeIn(obs, state, now) {
      FoldKeepsTime(obs, state, now);
    }
  }

  /******* The reported counts *******/

  /** The code counts log events; each is either a true transition or a flag flip after the first `up`. */
  lemma {:induction false} CountsDecompose(log: Log)
    requires Deduplicated(log) && WellStarted(log)
    ensures Interruptions(log) == TrueInterruptions(log) + FlagFlipsWhileDown(log)
    ensures Recoveries(log) == TrueRecoveries(log) + FlagFlipsWhileUp(log)
  {
    if |log| > 2 {
      var before := DropLast(log);
      CountsDecompose(before);
      assert EverUp(before) by { assert before[1].up; }
    } else if |log| == 2 {
      assert !EverUp(DropLast(log));
      assert DropLast(log) == [log[0]];
    }
  }

  /** The log gets past the summary's validity guards exactly when no flag changes before the first `up`. */
  lemma {:induction false} WellStartedIff(obs: seq<UpEvent>)
    requires obs != []
    ensures WellStarted(Fold(obs)) <==> SteadyUntilUp(obs)
    ensures !EverUp(obs) && SteadyUntilUp(obs) ==> |Fold(obs)| == 1
    ensures EverUp(obs) ==> |Fold(obs)| >= 2
  {
    var before, o := DropLast(obs), Last(obs);
    assert obs == before + [o];
    EverUpSnoc(before, o);
    if before == [] {
      FoldOfOne(o);
    } else {
      WellStartedIff(before);
      FoldIsDestuttering(before);
      SteadySnoc(before, o);
      WellStartedStep(Fold(before), o);
    }
  }

  lemma WellStartedStep(log: Log, o: UpEvent)
    requires log != []
    ensures WellStarted(Appended(log, o)) <==> WellStarted(log) && (|log| >= 2 || o.up || SameFlags(o, log[0]))
    ensures |Appended(log, o)| == |log| + if SameFlags(o, Last(log)) then 0 else 1
  {
  }

  lemma SteadySnoc(s: seq<UpEvent>, o: UpEvent)
    requires s != []
    ensures SteadyUntilUp(s + [o])
       <==> SteadyUntilUp(s) && (EverUp(s) || o.up || SameFlags(o, Last(s)))
  {
    var t := s + [o];
    EverUpSnoc(s, o);
    assert t[..|s| + 1] == t;
    assert forall i :: 0 <= i < |s| ==> t[..i + 1] == s[..i + 1] && t[i] == s[i];
    if SteadyUntilUp(t) {
      forall i | 0 < i < |s| && !EverUp(s[..i + 1]) ensures SameFlags(s[i], s[i - 1]) {
        assert !EverUp(t[..i + 1]);
        assert SameFlags(t[i], t[i - 1]);
      }
      if !EverUp(s) && !o.up {
        assert !EverUp(t[..|s| + 1]);
        assert SameFlags(t[|s|], t[|s| - 1]);
      }
    }
  }

  /**
   * The summary of the log of ANY stream against the truth about that stream: every error term is named, so each
   * reported number is right exactly when its term vanishes.
   */
  lemma {:induction false} SummaryOfStream(obs: seq<UpEvent>, now: int)
    requires obs != [] && SteadyUntilUp(obs)
    ensures var s, log := Summary(Ideal, Fold(obs), now), Fold(obs);
            && s.upTime == TimeIn(obs, true, now) + Unchanged(log, false) - Unchanged(log, true)
            && s.downTime == TimeIn(obs, false, now) + Unchanged(log, true) - Unchanged(log, false)
            && s.interruptionCount == TrueInterruptions(obs) + FlagFlipsWhileDown(obs)
            && s.recoveryCount == TrueRecoveries(obs) + FlagFlipsWhileUp(obs)
  {
    var log := Fold(obs);
    WellStartedIff(obs);
    FoldIsDeduplicated(obs);
    FoldPreserves(obs, now);
    CountsDecompose(log);
    Attribution(log, now);
  }

  lemma {:induction false} FoldPrefix(obs: seq<UpEvent>, n: nat)
    requires n <= |obs|
    ensures Fold(obs[..n]) <= Fold(obs)
  {
    if n < |obs| {
      assert DropLast(obs)[..n] == obs[..n];
      FoldPrefix(DropLast(obs), n);
    } else {
      assert obs[..n] == obs;
    }
  }

  /** Provisioning lasts from the first observation to the first one that is up, or until now. */
  lemma {:induction false} ProvisioningOfStream(obs: seq<UpEvent>, now: int, j: nat)
    requires obs != [] && SteadyUntilUp(obs)
    requires j <= |obs| && !EverUp(obs[..j]) && (j < |obs| ==> obs[j].up)
    ensures var s := Summary(Ideal, Fold(obs), now);
            if j < |obs| then
              && s.provisioningState == Success
              && s.downTimeInitial == s.provisioningDuration == obs[j].ts - obs[0].ts
            else
              && s.provisioningState == Provisioning
              && s.provisioningDuration == s.downTime == now - obs[0].ts
  {
    WellStartedIff(obs);
    FoldStart(obs);
    if j < |obs| {
      FirstUpIsLogged(obs, j);
    } else {
      assert obs[..j] == obs;
    }
  }

  lemma FirstUpIsLogged(obs: seq<UpEvent>, j: nat)
    requires SteadyUntilUp(obs) && j < |obs| && obs[j].up && !EverUp(obs[..j])
    ensures |Fold(obs)| >= 2 && Fold(obs)[1] == obs[j]
  {
    var before, upTo := obs[..j], obs[..j + 1];
    assert upTo == before + [obs[j]];
    FoldSnoc(before, obs[j]);
    if j > 0 {
      SteadyPrefix(obs, j);
      WellStartedIff(before);
      FoldIsDestuttering(before);
      assert !before[j - 1].up;
    }
    FoldPrefix(obs, j + 1);
  }

  lemma {:induction false} FoldStart(obs: seq<UpEvent>)
    requires obs != []
    ensures Fold(obs) != [] && Fold(obs)[0].ts == obs[0].ts
  {
    if |obs| > 1 {
      FoldStart(DropLast(obs));
    } else {
      assert DropLast(obs) == [];
    }
  }

  lemma SteadyPrefix(obs: seq<UpEvent>, n: nat)
    requires n <= |obs| && SteadyUntilUp(obs)
    ensures SteadyUntilUp(obs[..n])
  {
    var s := obs[..n];
    forall i | 0 < i < n && !EverUp(s[..i + 1]) ensures SameFlags(s[i], s[i - 1]) {
      assert s[..i + 1] == obs[..i + 1];
    }
  }

  /** Still never up, the resource changes a flag for the first time. */
  predicate FrozenAt(obs: seq<UpEvent>, j: nat) {
    && 0 < j < |obs| && !SameFlags(obs[j], obs[0]) && !obs[j].up
    && forall i :: 0 <= i < j ==> SameFlags(obs[i], obs[0]) && !obs[i].up
  }

  lemma {:induction false} UnsteadyFrom(obs: seq<UpEvent>) returns (j: nat)
    requires obs != [] && !SteadyUntilUp(obs)
    ensures FrozenAt(obs, j)
  {
    var before, o := DropLast(obs), Last(obs);
    assert obs == before + [o];
    if before != [] {
      SteadySnoc(before, o);
      if !SteadyUntilUp(before) {
        j := UnsteadyFrom(before);
      } else {
        j := |before|;
        SteadyIsConstant(before);
      }
    }
  }

  lemma {:induction false} SteadyIsConstant(s: seq<UpEvent>)
    requires SteadyUntilUp(s) && !EverUp(s)
    ensures forall i :: 0 <= i < |s| ==> SameFlags(s[i], s[0]) && !s[i].up
  {
    if |s| > 1 {
      var before := DropLast(s);
      assert s == before + [Last(s)];
      EverUpSnoc(before, Last(s));
      SteadySnoc(before, Last(s));
      SteadyIsConstant(before);
    }
  }

  lemma {:induction false} FoldOfConstant(s: seq<UpEvent>)
    requires s != [] && forall i :: 0 <= i < |s| ==> SameFlags(s[i], s[0]) && !s[i].up
    ensures Fold(s) == [s[0]]
  {
    var before := DropLast(s);
    if before == [] {
      assert Fold(before) == [];
    } else {
      FoldOfConstant(before);
    }
  }

  lemma FrozenLog(obs: seq<UpEvent>, j: nat)
    requires FrozenAt(obs, j)
    ensures [obs[0], obs[j]] <= Fold(obs)
  {
    FoldOfConstant(obs[..j]);
    assert obs[..j + 1] == obs[..j] + [obs[j]];
    FoldSnoc(obs[..j], obs[j]);
    FoldPrefix(obs, j + 1);
  }

  /**
   * If a flag does change before the first `up`, that change alone decides the summary, whatever follows: it is blank,
   * or frozen as a failed start that lasted until the change.
   */
  lemma {:induction false} UnsteadyStream(obs: seq<UpEvent>, j: nat, a: Arithmetic, now: int)
    requires FrozenAt(obs, j)
    ensures !SteadyUntilUp(obs)
    ensures Summary(a, Fold(obs), now)
         == if !obs[j].failed then EventSummary(0, 0, 0, 0, 0, 0, 0, 0, 0, 0, 0, 0, Unset)
            else
              var d := Sub(a, obs[j].ts, obs[0].ts);
              EventSummary(0, 0, 0, 0, 0, 0, 0, 0, 0, 0, 0, 0, Failed)
              .(downTime := d, downTimeInitial := d, provisioningDuration := d)
  {
    FrozenLog(obs, j);
    assert [obs[0], obs[j]][1] == Fold(obs)[1] && [obs[0], obs[j]][0] == Fold(obs)[0];
    WellStartedIff(obs);
  }

  /** Whatever is observed afterwards, even that the resource is up, changes nothing any more. */
  lemma {:induction false} UnsteadyForever(obs: seq<UpEvent>, more: seq<UpEvent>, a: Arithmetic,
                                          now: int, later: int)
    requires obs != [] && !SteadyUntilUp(obs)
    ensures Summary(a, Fold(obs + more), later) == Summary(a, Fold(obs), now)
  {
    var j := UnsteadyFrom(obs);
    assert FrozenAt(obs + more, j);
    UnsteadyStream(obs, j, a, now);
    UnsteadyStream(obs + more, j, a, later);
  }

  /** A start that was seen as failed once: its later up time and its interruption are never reported. */
  lemma LateStart()
    ensures var obs := [UpEvent(false, false, false, 0), UpEvent(false, false, true, 1),
                        UpEvent(true, false, false, 2), UpEvent(false, false, false, 5)];
            var s := Summary(Ideal, Fold(obs), 9);
            && s.upTime == 0 && TimeIn(obs, true, 9) == 3
            && s.downTime == 1 && TimeIn(obs, false, 9) == 6
            && s.interruptionCount == 0 && TrueInterruptions(obs) == 1
  {
    var d, f, u, e := UpEvent(false, false, false, 0), UpEvent(false, false, true, 1),
                      UpEvent(true, false, false, 2), UpEvent(false, false, false, 5);
    UnsteadyStream([d, f, u, e], 1, Ideal, 9);
    assert DropLast([d, f, u, e]) == [d, f, u] && DropLast([d, f, u]) == [d, f];
    assert DropLast([d, f]) == [d] && DropLast([d]) == [];
  }

  /**
   * When the summary tells the truth about a stream: if the flags are steady until the first `up`, each count is right
   * exactly when no flag flip was counted, and each clock when the wrongly charged gaps cancel out; if they are not,
   * only when there was nothing to count and no time but that of the failed start to measure.
   */
  lemma {:induction false} TruthfulIff(obs: seq<UpEvent>, now: int)
    requires obs != []
    ensures var s, log := Summary(Ideal, Fold(obs), now), Fold(obs);
            && (s.interruptionCount == TrueInterruptions(obs)
                <==> if SteadyUntilUp(obs) then FlagFlipsWhileDown(obs) == 0 else TrueInterruptions(obs) == 0)
            && (s.recoveryCount == TrueRecoveries(obs)
                <==> if SteadyUntilUp(obs) then FlagFlipsWhileUp(obs) == 0 else TrueRecoveries(obs) == 0)
            && (s.upTime == TimeIn(obs, true, now)
                <==> if SteadyUntilUp(obs) then Unchanged(log, true) == Unchanged(log, false)
                     else TimeIn(obs, true, now) == 0)
            && (s.downTime == TimeIn(obs, false, now)
                <==> if SteadyUntilUp(obs) then Unchanged(log, true) == Unchanged(log, false)
                     else |log| >= 2 && TimeIn(obs, false, now) == if log[1].failed then log[1].ts - log[0].ts else 0)
  {
    if SteadyUntilUp(obs) {
      SummaryOfStream(obs, now);
    } else {
      var j := UnsteadyFrom(obs);
      UnsteadyStream(obs, j, Ideal, now);
      FrozenLog(obs, j);
      assert [obs[0], obs[j]][1] == Fold(obs)[1] && [obs[0], obs[j]][0] == Fold(obs)[0];
    }
  }

  lemma {:induction false} FlagsFollowUpMeansNoFlips(s: seq<UpEvent>)
    requires FlagsFollowUp(s)
    ensures FlagFlipsWhileDown(s) == FlagFlipsWhileUp(s) == 0
    ensures SteadyUntilUp(s)
  {
    if |s| >= 2 {
      FlagsFollowUpMeansNoFlips(DropLast(s));
    }
    forall i | 0 < i < |s| && !EverUp(s[..i + 1]) ensures SameFlags(s[i], s[i - 1]) {
      var t := s[..i + 1];
      assert t[i] == s[i] && t[i - 1] == s[i - 1];
    }
  }

  lemma {:induction false} FoldAlternates(obs: seq<UpEvent>)
    requires FlagsFollowUp(obs)
    ensures Alternating(Fold(obs))
  {
    if obs != [] {
      var before := DropLast(obs);
      FoldAlternates(before);
      FoldIsDestuttering(before);
    }
  }

  /**
   * End to end: if the flags change only together with `up`, the summary of the deduplicated log is the truth about
   * the raw stream.
   */
  lemma {:induction false} EndToEnd(obs: seq<UpEvent>, now: int)
    requires FlagsFollowUp(obs)
    ensures var s := Summary(Ideal, Fold(obs), now);
            && s.upTime == TimeIn(obs, true, now)
            && s.downTime == TimeIn(obs, false, now)
            && s.interruptionCount == TrueInterruptions(obs)
            && s.recoveryCount == TrueRecoveries(obs)
  {
    if obs != [] {
      FoldAlternates(obs);
      AlternatingNeverUnchanged(Fold(obs), true);
      AlternatingNeverUnchanged(Fold(obs), false);
      FlagsFollowUpMeansNoFlips(obs);
      SummaryOfStream(obs, now);
    }
  }

  /** Since when the resource has been in its present state. */
  function Since(s: seq<UpEvent>): int
    requires s != []
  {
    if |s| > 1 && s[|s| - 2].up == Last(s).up then Since(DropLast(s)) else Last(s).ts
  }

  lemma {:induction false} FoldKeepsSince(obs: seq<UpEvent>)
    requires obs != [] && FlagsFollowUp(obs)
    ensures Fold(obs) != [] && Last(Fold(obs)).ts == Since(obs) && Last(Fold(obs)).up == Last(obs).up
  {
    var before, o := DropLast(obs), Last(obs);
    if before == [] {
      assert obs == [o];
      FoldOfOne(o);
    } else {
      FoldKeepsSince(before);
      FoldIsDestuttering(before);
      assert SameFlags(Last(before), o) <==> Last(before).up == o.up;
    }
  }

  /**
   * So are the totals and the means: with the start and the state still open left out, the totals are the time really
   * spent up or down, and the means divide it by the number of times that state really ended.
   */
  lemma {:induction false} EndToEndTotals(obs: seq<UpEvent>, now: int, j: nat)
    requires FlagsFollowUp(obs)
    requires j < |obs| && obs[j].up && !EverUp(obs[..j])
    ensures var s, n, r := Summary(Ideal, Fold(obs), now), TrueInterruptions(obs), TrueRecoveries(obs);
            var open := now - Since(obs);
            var upTotal := TimeIn(obs, true, now) - if Last(obs).up then open else 0;
            var downTotal := TimeIn(obs, false, now) - (obs[j].ts - obs[0].ts) - if Last(obs).up then 0 else open;
            && s.totalUpTimeBetweenInterruption == (if n > 0 then upTotal else 0)
            && s.totalDownTimeBetweenRecovery == downTotal
            && s.meanUpTimeBetweenInterruption == (if n > 0 then TruncDiv(upTotal, n) else 0)
            && s.meanDownTimeBetweenRecovery == (if r > 0 then TruncDiv(downTotal, r) else 0)
  {
    var log := Fold(obs);
    EndToEnd(obs, now);
    FlagsFollowUpMeansNoFlips(obs);
    ProvisioningOfStream(obs, now, j);
    FoldKeepsSince(obs);
    WellStartedIff(obs);
    FoldIsDeduplicated(obs);
    assert EverUp(obs) && |log| >= 2;
    TotalsOfSettled(log, now);
  }

  /** The totals and means of a log that is past the guards, in terms of its other numbers. */
  lemma TotalsOfSettled(log: Log, now: int)
    requires WellStarted(log) && |log| >= 2
    ensures var s := Summary(Ideal, log, now);
            var open := now - Last(log).ts;
            var upTotal := s.upTime - if Last(log).up then open else 0;
            var downTotal := s.downTime - s.downTimeInitial - if Last(log).up then 0 else open;
            && s.totalUpTimeBetweenInterruption == (if s.interruptionCount > 0 then upTotal else 0)
            && s.totalDownTimeBetweenRecovery == downTotal
            && s.meanUpTimeBetweenInterruption
               == (if s.interruptionCount > 0 then TruncDiv(upTotal, s.interruptionCount) else 0)
            && s.meanDownTimeBetweenRecovery
               == (if s.recoveryCount > 0 then TruncDiv(downTotal, s.recoveryCount) else 0)
  {
  }

  predicate ClocksAreTrue(obs: seq<UpEvent>, now: int) {
    && Summary(Ideal, Fold(obs), now).upTime == TimeIn(obs, true, now)
    && Summary(Ideal, Fold(obs), now).downTime == TimeIn(obs, false, now)
  }

  /** The clocks were true after every observation, at any later time. */
  ghost predicate ClocksAlwaysTrue(obs: seq<UpEvent>) {
    forall n, now :: 1 <= n <= |obs| && obs[n - 1].ts <= now ==> ClocksAreTrue(obs[..n], now)
  }

  lemma AlwaysTrueForPrefix(obs: seq<UpEvent>, now: int)
    requires obs != [] && ClocksAlwaysTrue(obs) && Last(obs).ts <= now
    ensures ClocksAlwaysTrue(DropLast(obs)) && ClocksAreTrue(obs, now)
  {
    var before := DropLast(obs);
    forall n, t | 1 <= n <= |before| && before[n - 1].ts <= t ensures ClocksAreTrue(before[..n], t) {
      assert before[..n] == obs[..n];
    }
    assert obs[..|obs|] == obs;
  }

  lemma FollowingIsAlwaysTrue(obs: seq<UpEvent>)
    requires FlagsFollowUp(obs)
    ensures ClocksAlwaysTrue(obs)
  {
    forall n, now | 1 <= n <= |obs| && obs[n - 1].ts <= now ensures ClocksAreTrue(obs[..n], now) {
      EndToEnd(obs[..n], now);
    }
  }

  /** The hypothesis is the right one: only with it the clocks are always true. */
  lemma {:induction false} ClocksAlwaysTrueIff(obs: seq<UpEvent>)
    requires forall i :: 0 < i < |obs| ==> obs[i - 1].ts < obs[i].ts
    ensures FlagsFollowUp(obs) <==> ClocksAlwaysTrue(obs)
  {
    if FlagsFollowUp(obs) {
      FollowingIsAlwaysTrue(obs);
    }
    if |obs| >= 2 && ClocksAlwaysTrue(obs) {
      var before, o := DropLast(obs), Last(obs);
      AlwaysTrueForPrefix(obs, o.ts + 1);
      ClocksAlwaysTrueIff(before);
      if o.up == Last(before).up && !SameFlags(o, Last(before)) {
        assert obs == before + [o];
        FlagChangeFalsifies(before, o);
      }
    }
  }

  /** A flag that changes while `up` does not makes one of the clocks wrong from the next moment on. */
  lemma {:induction false} FlagChangeFalsifies(before: seq<UpEvent>, o: UpEvent)
    requires before != [] && FlagsFollowUp(before) && Ordered(before) && Last(before).ts < o.ts
    requires o.up == Last(before).up && !SameFlags(o, Last(before))
    ensures !ClocksAreTrue(before + [o], o.ts + 1)
  {
    FoldAlternates(before);
    FoldIsDestuttering(before);
    FoldIsOrdered(before);
    FoldSnoc(before, o);
    FoldKeepsTime(before + [o], true, o.ts + 1);
    FoldKeepsTime(before + [o], false, o.ts + 1);
    RepetitionFalsifies(Fold(before), o);
  }

  lemma {:induction false} RepetitionFalsifies(log: Log, o: UpEvent)
    requires log != [] && Alternating(log)
    requires o.up == Last(log).up && !SameFlags(Last(log), o) && Last(log).ts < o.ts
    ensures var log', now := Appended(log, o), o.ts + 1;
            || Summary(Ideal, log', now).upTime != TimeIn(log', true, now)
            || Summary(Ideal, log', now).downTime != TimeIn(log', false, now)
  {
    var log' := log + [o];
    assert DropLast(log') == log;
    if |log| >= 2 {
      RepetitionIsCharged(log', o.ts + 1);
    } else {
      assert DropLast(log) == [];
      assert TimeIn(log, false, o.ts) == o.ts - log[0].ts;
    }
  }

  /** The same for the program's own arithmetic, when time does not run backwards or past 292 years. */
  lemma {:induction false} EndToEndInt64(obs: seq<UpEvent>, now: int)
    requires FlagsFollowUp(obs) && Timely(obs, now)
    ensures var s := Summary(Int64, Fold(obs), now);
            && s.upTime == TimeIn(obs, true, now)
            && s.downTime == TimeIn(obs, false, now)
            && s.interruptionCount == TrueInterruptions(obs)
            && s.recoveryCount == TrueRecoveries(obs)
  {
    EndToEnd(obs, now);
    FoldIsOrdered(obs);
    MachineIsIdeal(Fold(obs), now);
  }

  lemma {:induction false} FoldIsOrdered(obs: seq<UpEvent>)
    requires Ordered(obs)
    ensures Ordered(Fold(obs))
    ensures obs != [] ==> Fold(obs) != [] && Fold(obs)[0].ts == obs[0].ts && Last(Fold(obs)).ts <= Last(obs).ts
  {
    if obs != [] {
      FoldIsOrdered(DropLast(obs));
    }
  }

  /**
   * Without the flag hypothesis the summary can be wrong: a resource that stays up but turns `failed` is charged
   * down time it never had and is credited with a recovery that never happened.
   */
  lemma FailedWhileUp()
    ensures var obs := [UpEvent(false, false, false, 0), UpEvent(true, false, false, 1), UpEvent(true, false, true, 4)];
            var s := Summary(Ideal, Fold(obs), 4);
            && Fold(obs) == obs
            && !Alternating(Fold(obs))
            && s.upTime == 0 && TimeIn(obs, true, 4) == 3
            && s.downTime == 4 && TimeIn(obs, false, 4) == 1
            && s.recoveryCount == 1 && TrueRecoveries(obs) == 0
  {
    var d, u, f := UpEvent(false, false, false, 0), UpEvent(true, false, false, 1), UpEvent(true, false, true, 4);
    FoldOfDeduplicated([d, u, f]);
    assert DropLast([d, u, f]) == [d, u] && DropLast([d, u]) == [d] && DropLast([d]) == [];
  }
}
