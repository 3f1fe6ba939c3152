/** The life of an archive being written (archive/create.rs, archive/mod.rs): which
    steps write trailing records, install the staged files or drop them, for every
    sequence of steps and every way a step can fail. */
module Lifecycle {

  /** What an archive's own fields say, with two counters and a flag on the side. */
  datatype Life = Life(
    open: bool,             // the stream is there
    writing: bool,          // the mode is not Read
    finalizeStarted: bool,
    pending: bool,          // staged files wait to be installed or removed
    begun: nat,             // how often the open volume's trailing records were begun
    twice: bool,            // some volume's were begun more than once
    installs: nat)          // how often a staged set reached its final paths

  const CREATED := Life(true, true, false, true, 0, false, 0)

  /** How a step ended. */
  datatype Outcome =
    | Done
    | Cancelled         // the caller's cancel flag was seen
    | Refused           // finalization had been attempted, or there is no stream
    | TrailingFailed    // while the trailing records were written
    | OpenFailed        // behind them: the next volume could not be started
    | NotInstalled      // the staged files stayed where they were
    | InstalledAnyway   // they reached their final paths, and an error still came

  datatype Step =
    | Add(outcome: Outcome)
    | Roll(outcome: Outcome, stream: bool)   // whether a failed roll has a new stream
    | Close(outcome: Outcome)
    | Abort
    | Drop(outcome: Outcome)                 // of the close it makes

  function Begin(s: Life): Life {
    s.(begun := s.begun + 1, twice := s.twice || s.begun >= 1)
  }

  /** Finish the volume, then start the next. */
  function AfterRoll(s: Life, outcome: Outcome, stream: bool): Life {
    match outcome
    case Refused => s
    case TrailingFailed => Begin(s)
    case OpenFailed => Begin(s).(open := stream, begun := 0)
    case _ => Begin(s).(begun := 0)
  }

  /** The installation of whatever is pending. */
  function AfterCommit(s: Life, outcome: Outcome): Life {
    if !s.pending then s
    else match outcome
         case Done => s.(pending := false, installs := s.installs + 1)
         case InstalledAnyway => s.(installs := s.installs + 1)
         case _ => s
  }

  /** Trailing records of the last volume, if one is being written. */
  function AfterFinish(s: Life, outcome: Outcome): Life {
    var t := s.(finalizeStarted := true);
    if !(s.open && s.writing) then t
    else if outcome == TrailingFailed then Begin(t)
    else Begin(t).(writing := false)
  }

  function AfterClose(s: Life, outcome: Outcome): Life {
    if outcome == Cancelled || outcome == Refused then s
    else if outcome == TrailingFailed then AfterFinish(s, outcome)
    else AfterCommit(AfterFinish(s, outcome).(open := false), outcome)
  }

  function AfterAbort(s: Life): Life {
    s.(open := false, writing := false, finalizeStarted := false, pending := false)
  }

  /** Dropping closes, unless that was attempted before, and removes what is left. */
  function AfterDrop(s: Life, outcome: Outcome): Life {
    (if s.finalizeStarted then s else AfterClose(s, outcome)).(pending := false, open := false)
  }

  function Next(s: Life, step: Step): Life {
    match step
    case Add(_) => s
    case Roll(outcome, stream) => AfterRoll(s, outcome, stream)
    case Close(outcome) => AfterClose(s, outcome)
    case Abort => AfterAbort(s)
    case Drop(outcome) => AfterDrop(s, outcome)
  }

  /** The outcomes a step can have in a state. */
  predicate ClosesWith(s: Life, outcome: Outcome) {
    && (outcome == Cancelled || (s.finalizeStarted <==> outcome == Refused))
    && (outcome == TrailingFailed ==> s.open && s.writing)
    && outcome != OpenFailed
    && ((outcome == NotInstalled || outcome == InstalledAnyway) ==> s.pending)
  }

  predicate Possible(s: Life, step: Step) {
    match step
    case Add(outcome) => !(s.open && s.writing) ==> outcome != Done
    case Roll(outcome, stream) =>
      && (outcome == Refused <==> !(s.open && s.writing))
      && (outcome == Done || outcome == Refused || outcome == TrailingFailed || outcome == OpenFailed)
    case Close(outcome) => ClosesWith(s, outcome)
    case Abort => true
    case Drop(outcome) => s.finalizeStarted || ClosesWith(s, outcome)
  }

  predicate IsRun(s: Life, steps: seq<Step>)
    decreases |steps|
  {
    steps == [] || (Possible(s, steps[0]) && IsRun(Next(s, steps[0]), steps[1..]))
  }

  function After(s: Life, steps: seq<Step>): Life
    decreases |steps|
  {
    if steps == [] then s else After(Next(s, steps[0]), steps[1..])
  }

  // ---------------------------------------------------------------- what holds of every run

  /** Once installed, or aborted, an archive never installs again. */
  predicate Settled(s: Life) {
    && s.installs <= 1
    && (s.open && s.writing ==> s.installs == 0)
    && (s.pending && !s.finalizeStarted ==> s.installs == 0)
  }

  lemma StepSettles(s: Life, step: Step)
    requires Settled(s) && Possible(s, step)
    ensures Settled(Next(s, step))
    ensures Next(s, step).installs > s.installs ==>
              s.pending && !s.finalizeStarted && Next(s, step).finalizeStarted
              && !Next(s, step).open
  {
  }

  lemma {:induction false} RunSettles(s: Life, steps: seq<Step>)
    requires Settled(s) && IsRun(s, steps)
    ensures Settled(After(s, steps))
    decreases |steps|
  {
    hide Settled; hide Next; hide Possible;
    if steps != [] {
      StepSettles(s, steps[0]);
      RunSettles(Next(s, steps[0]), steps[1..]);
    }
  }

  /** The staged set is installed at most once. */
  lemma InstalledAtMostOnce(steps: seq<Step>)
    requires IsRun(CREATED, steps)
    ensures After(CREATED, steps).installs <= 1
  {
    RunSettles(CREATED, steps);
  }

  /** It is installed only by a close, or the close a drop makes, that had found no
      earlier finalization and got past the trailing records. */
  lemma InstalledOnlyWhenFinished(s: Life, step: Step)
    requires Possible(s, step) && Next(s, step).installs > s.installs
    ensures (step.Close? || step.Drop?) && (step.outcome == Done || step.outcome == InstalledAnyway)
    ensures !s.finalizeStarted && s.pending && (s.open && s.writing ==> Next(s, step).begun == s.begun + 1)
  {
  }

  /** Nothing left to write to or to install. */
  predicate Dead(s: Life) {
    !s.open && !s.pending
  }

  lemma {:induction false} DeadStaysDead(s: Life, steps: seq<Step>)
    requires Dead(s) && IsRun(s, steps)
    ensures var t := After(s, steps);
            Dead(t) && t.installs == s.installs && t.begun == s.begun && t.twice == s.twice
    decreases |steps|
  {
    if steps != [] {
      DeadStaysDead(Next(s, steps[0]), steps[1..]);
    }
  }

  /** After an abort nothing is written or installed any more, whatever follows: the
      drop that must still come included. */
  lemma AbortIsFinal(s: Life, steps: seq<Step>)
    requires IsRun(AfterAbort(s), steps)
    ensures var t := After(s, [Abort] + steps);
            t.installs == s.installs && t.begun == s.begun && t.twice == s.twice && !t.open && !t.pending
  {
    assert ([Abort] + steps)[1..] == steps;
    DeadStaysDead(AfterAbort(s), steps);
  }

  /** However a run went on, and however the close inside a drop ends, nothing is
      written, installed or left staged behind the drop; and the set has been installed
      at most once in all. */
  lemma DropIsFinal(before: seq<Step>, outcome: Outcome, behind: seq<Step>)
    requires IsRun(CREATED, before + [Drop(outcome)] + behind)
    ensures var s := AfterDrop(After(CREATED, before), outcome);
            var t := After(CREATED, before + [Drop(outcome)] + behind);
            && t.installs == s.installs <= 1 && t.begun == s.begun && t.twice == s.twice
            && !t.open && !t.pending
  {
    RunSplits(CREATED, before, [Drop(outcome)] + behind);
    assert before + [Drop(outcome)] + behind == before + ([Drop(outcome)] + behind);
    var s := After(CREATED, before);
    assert ([Drop(outcome)] + behind)[1..] == behind;
    DeadStaysDead(AfterDrop(s, outcome), behind);
    RunSettles(CREATED, before + [Drop(outcome)] + behind);
  }

  lemma {:induction false} RunSplits(s: Life, a: seq<Step>, b: seq<Step>)
    requires IsRun(s, a + b)
    ensures IsRun(s, a) && IsRun(After(s, a), b) && After(s, a + b) == After(After(s, a), b)
    decreases |a|
  {
    hide Possible; hide Next;
    if a == [] {
      assert a + b == b;
    } else {
      assert (a + b)[1..] == a[1..] + b && (a + b)[0] == a[0];
      RunSplits(Next(s, a[0]), a[1..], b);
    }
  }

  // ---------------------------------------------------------------- trailing records only once

  /** Whether a step begins trailing records. */
  predicate Begins(s: Life, step: Step) {
    match step
    case Roll(outcome, _) => outcome != Refused
    case Close(outcome) => s.open && s.writing && outcome != Cancelled && outcome != Refused
    case Drop(outcome) => s.open && s.writing && !s.finalizeStarted && outcome != Cancelled && outcome != Refused
    case _ => false
  }

  /** A step that leaves its volume with trailing records begun and the stream open
      on it: a roll or a close that failed in them. */
  predicate Tears(step: Step) {
    (step.Roll? || step.Close?) && step.outcome == TrailingFailed
  }

  /** Whether the records of some volume are begun again, `torn` telling that those of
      the open one were begun already. */
  predicate BegunAgain(s: Life, torn: bool, steps: seq<Step>)
    decreases |steps|
  {
    steps != [] &&
    ((torn && Begins(s, steps[0]))
     || BegunAgain(Next(s, steps[0]), if steps[0].Abort? then false else torn || Tears(steps[0]), steps[1..]))
  }

  /** The counter and the history agree. */
  predicate Agrees(s: Life, torn: bool) {
    (s.open && s.writing) ==> (torn <==> s.begun >= 1)
  }

  lemma StepAgrees(s: Life, torn: bool, step: Step)
    requires Possible(s, step) && Agrees(s, torn) && !(torn && Begins(s, step))
    ensures Agrees(Next(s, step), if step.Abort? then false else torn || Tears(step))
    ensures Next(s, step).twice == s.twice
  {
  }

  lemma {:induction false} TwiceStays(s: Life, steps: seq<Step>)
    requires s.twice
    ensures After(s, steps).twice
    decreases |steps|
  {
    if steps != [] {
      TwiceStays(Next(s, steps[0]), steps[1..]);
    }
  }

  lemma {:induction false} BegunTwiceExactly(s: Life, torn: bool, steps: seq<Step>)
    requires IsRun(s, steps) && Agrees(s, torn) && !s.twice
    ensures After(s, steps).twice <==> BegunAgain(s, torn, steps)
    decreases |steps|
  {
    hide Agrees;
    if steps != [] {
      var step := steps[0];
      if torn && Begins(s, step) {
        BeginsTwice(s, torn, step);
        TwiceStays(Next(s, step), steps[1..]);
      } else {
        StepAgrees(s, torn, step);
        BegunTwiceExactly(Next(s, step), if step.Abort? then false else torn || Tears(step), steps[1..]);
      }
    }
  }

  lemma BeginsTwice(s: Life, torn: bool, step: Step)
    requires Possible(s, step) && Agrees(s, torn) && torn && Begins(s, step)
    ensures Next(s, step).twice
  {
  }

  /** No volume gets trailing records twice exactly when no step begins them again
      after a roll or close that failed while writing them, unless an abort came
      between. */
  lemma TrailingOnceExactly(steps: seq<Step>)
    requires IsRun(CREATED, steps)
    ensures !After(CREATED, steps).twice <==> !BegunAgain(CREATED, false, steps)
  {
    BegunTwiceExactly(CREATED, false, steps);
  }

  /** The guard in `close` covers a failed close but not a failed roll: dropping the
      archive after one writes trailing records again, into the same volume, and
      installs the result. */
  lemma RollThenDropRepeats()
    ensures var steps := [Roll(TrailingFailed, true), Drop(Done)];
            && IsRun(CREATED, steps)
            && After(CREATED, steps).twice && After(CREATED, steps).installs == 1
  {
    var steps := [Roll(TrailingFailed, true), Drop(Done)];
    var s := Next(CREATED, steps[0]);
    assert steps[1..] == [Drop(Done)] && [Drop(Done)][1..] == [];
    assert IsRun(Next(s, Drop(Done)), []);
    assert IsRun(s, [Drop(Done)]);
    assert After(s, [Drop(Done)]) == After(Next(s, Drop(Done)), []);
  }

  // ---------------------------------------------------------------- behind the writer's facade

  /** The facade aborts and forgets the archive after every step that fails, and when
      it is dropped unfinished; its finish closes, and then the archive is dropped. */
  datatype FacadeStep = FacadeAdd(outcome: Outcome) | FacadeRoll(outcome: Outcome, stream: bool)
    | FacadeFinish(outcome: Outcome) | FacadeDrop

  function Steps(f: FacadeStep, dropped: Outcome): seq<Step> {
    match f
    case FacadeAdd(outcome) => if outcome == Done then [Add(outcome)] else [Add(outcome), Abort, Drop(dropped)]
    case FacadeRoll(outcome, stream) =>
      if outcome == Done then [Roll(outcome, stream)] else [Roll(outcome, stream), Abort, Drop(dropped)]
    case FacadeFinish(outcome) =>
      if outcome == Done then [Close(outcome), Drop(dropped)] else [Close(outcome), Abort, Drop(dropped)]
    case FacadeDrop => [Abort, Drop(dropped)]
  }

  /** Whether the facade still has its archive afterwards. */
  predicate Keeps(f: FacadeStep) {
    (f.FacadeAdd? || f.FacadeRoll?) && f.outcome == Done
  }

  /** Adds and rolls that all succeed, then one step that ends it. */
  predicate FacadeRun(fs: seq<FacadeStep>) {
    forall i :: 0 <= i < |fs| - 1 ==> Keeps(fs[i])
  }

  function Unfold(fs: seq<FacadeStep>, dropped: Outcome): seq<Step> {
    if fs == [] then [] else Steps(fs[0], dropped) + Unfold(fs[1..], dropped)
  }

  predicate Fresh(s: Life) {
    s.open && s.writing && !s.finalizeStarted && s.pending && s.begun == 0 && !s.twice && s.installs == 0
  }

  /** Behind the facade no volume ever gets trailing records twice, the set is
      installed at most once, and a facade that is done has left nothing staged;
      a finish that reports success has installed exactly once. */
  lemma {:induction false} FacadeIsSafe(s: Life, fs: seq<FacadeStep>, dropped: Outcome)
    requires Fresh(s) && FacadeRun(fs) && IsRun(s, Unfold(fs, dropped))
    ensures var t := After(s, Unfold(fs, dropped));
            && !t.twice && t.installs <= 1
            && (fs != [] && !Keeps(fs[|fs| - 1]) ==> !t.pending && !t.open)
            && (fs != [] && fs[|fs| - 1] == FacadeFinish(Done) ==> t.installs == 1)
            && (fs == [] || Keeps(fs[|fs| - 1]) ==> Fresh(t))
            && (t.installs == 1 ==> fs != [] && fs[|fs| - 1].FacadeFinish?)
    decreases |fs|
  {
    if fs != [] {
      var head, tail := Steps(fs[0], dropped), Unfold(fs[1..], dropped);
      if Keeps(fs[0]) {
        assert (head + tail)[0] == head[0] && (head + tail)[1..] == tail;
        FacadeIsSafe(Next(s, head[0]), fs[1..], dropped);
        if |fs| > 1 {
          assert fs[|fs| - 1] == fs[1..][|fs| - 2];
        }
      } else {
        assert fs[1..] == [];
        assert head + tail == head;
        LastFacadeStep(s, fs[0], dropped);
      }
    }
  }

  lemma LastFacadeStep(s: Life, f: FacadeStep, dropped: Outcome)
    requires Fresh(s) && !Keeps(f) && IsRun(s, Steps(f, dropped))
    ensures var t := After(s, Steps(f, dropped));
            && !t.twice && t.installs <= 1 && !t.pending && !t.open
            && (f == FacadeFinish(Done) ==> t.installs == 1)
            && (t.installs == 1 ==> f.FacadeFinish?)
  {
    var steps := Steps(f, dropped);
    Unroll(s, steps);
    if |steps| > 1 {
      Unroll(Next(s, steps[0]), steps[1..]);
      if |steps| > 2 {
        Unroll(Next(Next(s, steps[0]), steps[1]), steps[2..]);
      }
    }
  }

  lemma Unroll(s: Life, steps: seq<Step>)
    requires steps != [] && IsRun(s, steps)
    ensures Possible(s, steps[0]) && IsRun(Next(s, steps[0]), steps[1..])
    ensures After(s, steps) == After(Next(s, steps[0]), steps[1..])
    ensures |steps| == 1 ==> After(s, steps) == Next(s, steps[0])
  {
    if |steps| == 1 {
      assert steps[1..] == [];
    }
  }
}
