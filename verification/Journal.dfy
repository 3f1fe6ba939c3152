/** The journaled commit of a set of files (fs/atomic/set.rs): existing files are
    parked, the staged ones moved over their final names, a marker says that the new
    set won. Every operation can fail, and the process can be killed at any of them.
    A file of the set is known by a number; its final, staged and parked names differ. */
module Journal {
  import opened Options

  type Content = seq<nat>

  type Files = map<nat, Content>

  /** What becomes of one operation on the directory. */
  datatype Fate = Works | Fails | Kills

  /** The fates of the operations whose result is looked at, and of those whose result
      is ignored, each numbered from the start; and whether a parked file that could not
      be returned has already cost the file in its place, removed to make room. */
  datatype Oracle = Oracle(checked: nat -> Fate, quiet: nat -> Fate, tears: nat -> bool)

  datatype Ending = Done | Failed | Killed

  /** Which finals are parked and which are installed. */
  datatype Plan = Plan(parks: seq<nat>, installs: seq<nat>)

  /** The directory, and how many operations of either kind it has seen. */
  datatype Dir = Dir(finals: Files, staged: Files, backups: Files, journal: Option<Plan>, marker: bool,
                     ops: nat, quiet: nat)

  datatype Step = Step(dir: Dir, end: Ending)

  function Without(files: Files, n: nat): Files {
    files - {n}
  }

  // ---------------------------------------------------------------- single operations

  function Checked(w: Oracle, d: Dir): Step {
    Step(d.(ops := d.ops + 1),
         match w.checked(d.ops) case Works => Done case Fails => Failed case Kills => Killed)
  }

  /** An operation whose failure goes unnoticed, and leaves `d`. */
  function Quiet(w: Oracle, d: Dir, effect: Dir): Step {
    match w.quiet(d.quiet)
    case Works => Step(effect.(quiet := d.quiet + 1), Done)
    case Fails => Step(d.(quiet := d.quiet + 1), Done)
    case Kills => Step(d.(quiet := d.quiet + 1), Killed)
  }

  /** Move a final aside. */
  function Park(w: Oracle, d: Dir, n: nat): Step {
    var s := Checked(w, d);
    if s.end != Done then s
    else if n !in d.finals then Step(s.dir, Failed)
    else Step(s.dir.(finals := Without(d.finals, n), backups := d.backups[n := d.finals[n]]), Done)
  }

  /** Flush a staged file and move it over its final name. */
  function Install(w: Oracle, d: Dir, n: nat): Step {
    var s := Checked(w, d);
    if s.end != Done then s
    else if n !in d.staged then Step(s.dir, Failed)
    else Step(s.dir.(finals := d.finals[n := d.staged[n]], staged := Without(d.staged, n)), Done)
  }

  function TakenBack(d: Dir, n: nat): Dir {
    if n in d.finals then d.(finals := Without(d.finals, n), staged := d.staged[n := d.finals[n]]) else d
  }

  function Returned(d: Dir, n: nat): Dir {
    if n in d.backups then d.(finals := d.finals[n := d.backups[n]], backups := Without(d.backups, n)) else d
  }

  /** An installed file back to its staged name. */
  function TakeBack(w: Oracle): (Dir, nat) -> Step {
    (d: Dir, n: nat) => Quiet(w, d, TakenBack(d, n))
  }

  /** The file in the way removed, if that much happened. */
  function Torn(w: Oracle, d: Dir, n: nat): Dir {
    if w.tears(d.quiet) then d.(finals := Without(d.finals, n)) else d
  }

  /** A parked file, if it is there, back to its final name. */
  function Return(w: Oracle): (Dir, nat) -> Step {
    (d: Dir, n: nat) => if n in d.backups then Quiet(w, Torn(w, d, n), Returned(d, n)) else Step(d, Done)
  }

  /** A new final removed, unless it is an old one that was never parked. */
  function RemoveNew(w: Oracle, plan: Plan): (Dir, nat) -> Step {
    (d: Dir, n: nat) =>
      if n !in plan.parks || n in d.backups then Quiet(w, d, d.(finals := Without(d.finals, n))) else Step(d, Done)
  }

  function Discard(w: Oracle): (Dir, nat) -> Step {
    (d: Dir, n: nat) => Quiet(w, d, d.(staged := Without(d.staged, n)))
  }

  function DropBackup(w: Oracle): (Dir, nat) -> Step {
    (d: Dir, n: nat) => Quiet(w, d, d.(backups := Without(d.backups, n)))
  }

  function Parking(w: Oracle): (Dir, nat) -> Step {
    (d: Dir, n: nat) => Park(w, d, n)
  }

  function RemoveJournal(w: Oracle, d: Dir): Step {
    Quiet(w, d, d.(journal := None))
  }

  function RemoveMarker(w: Oracle, d: Dir): Step {
    Quiet(w, d, d.(marker := false))
  }

  /** The operation on every file in turn, until one does not end well. */
  function Each(f: (Dir, nat) -> Step, d: Dir, names: seq<nat>): Step
    decreases |names|
  {
    if names == [] then Step(d, Done)
    else
      var s := f(d, names[0]);
      if s.end != Done then s else Each(f, s.dir, names[1..])
  }

  function Reversed(names: seq<nat>): seq<nat> {
    if names == [] then [] else [names[|names| - 1]] + Reversed(names[..|names| - 1])
  }

  // ---------------------------------------------------------------- commit and recovery

  /** Those of the given files that exist, in order. */
  function Existing(finals: Files, candidates: seq<nat>): seq<nat> {
    if candidates == [] then []
    else (if candidates[0] in finals then [candidates[0]] else []) + Existing(finals, candidates[1..])
  }

  function PlanFor(d: Dir, installs: seq<nat>, retire: seq<nat>): Plan {
    Plan(Existing(d.finals, installs + retire), installs)
  }

  /** Take installed files back, return the parked ones, forget the journal. */
  function RolledBack(w: Oracle, d: Dir, plan: Plan, installed: seq<nat>): Step {
    var s := Each(TakeBack(w), d, Reversed(installed));
    if s.end != Done then s
    else
      var t := Each(Return(w), s.dir, Reversed(plan.parks));
      if t.end != Done then t
      else
        var u := RemoveJournal(w, t.dir);
        Step(u.dir, if u.end == Done then Failed else u.end)
  }

  /** Install the files from the `i`-th on and flush the directory. */
  function Installed(w: Oracle, d: Dir, plan: Plan, i: nat): Step
    requires i <= |plan.installs|
    decreases |plan.installs| - i
  {
    var s := if i == |plan.installs| then Checked(w, d) else Install(w, d, plan.installs[i]);
    if s.end == Failed then RolledBack(w, s.dir, plan, plan.installs[..i])
    else if s.end == Killed || i == |plan.installs| then s
    else Installed(w, s.dir, plan, i + 1)
  }

  /** Drop the parked files, then journal and marker. */
  function CleanedUp(w: Oracle, d: Dir, plan: Plan): Step {
    var s := Each(DropBackup(w), d, plan.parks);
    if s.end != Done then s
    else
      var t := RemoveJournal(w, s.dir);
      if t.end != Done then t else RemoveMarker(w, t.dir)
  }

  /** Write the marker and flush it; from then on the new set has won. */
  function MarkedDone(w: Oracle, d: Dir, plan: Plan): Step {
    var s := Checked(w, d);
    if s.end != Done then s
    else
      var t := Checked(w, s.dir.(marker := true));
      if t.end != Done then t else CleanedUp(w, t.dir, plan)
  }

  /** Park, install, mark, with the journal written. */
  function Moved(w: Oracle, d: Dir, plan: Plan): Step {
    var s := Each(Parking(w), d, plan.parks);
    if s.end == Failed then RolledBack(w, s.dir, plan, [])
    else if s.end == Killed then s
    else
      var t := Installed(w, s.dir, plan, 0);
      if t.end != Done then t else MarkedDone(w, t.dir, plan)
  }

  function Committed(w: Oracle, d: Dir, installs: seq<nat>, retire: seq<nat>): Step {
    if installs == [] && retire == [] then Step(d, Done)
    else
      var plan := PlanFor(d, installs, retire);
      var s := RemoveMarker(w, d);
      if s.end != Done then s
      else
        var t := Checked(w, s.dir);
        if t.end != Done then t else Moved(w, t.dir.(journal := Some(plan)), plan)
  }

  /** Remove what was installed, return what was parked, discard what is staged. */
  function Restored(w: Oracle, d: Dir, plan: Plan): Step {
    var s := Each(RemoveNew(w, plan), d, plan.installs);
    if s.end != Done then s
    else
      var t := Each(Return(w), s.dir, plan.parks);
      if t.end != Done then t
      else
        var u := Each(Discard(w), t.dir, plan.installs);
        if u.end != Done then u
        else
          var v := RemoveJournal(w, u.dir);
          if v.end != Done then v else RemoveMarker(w, v.dir)
  }

  /** What the next process does first. */
  function Recovered(w: Oracle, d: Dir): Step {
    if d.journal.None? then RemoveMarker(w, d)
    else if d.marker then CleanedUp(w, d, d.journal.value)
    else Restored(w, d, d.journal.value)
  }

  // ---------------------------------------------------------------- the loops

  lemma EachNext(f: (Dir, nat) -> Step, d: Dir, names: seq<nat>, i: nat)
    requires i < |names|
    ensures Each(f, d, names[i..])
         == var s := f(d, names[i]); if s.end != Done then s else Each(f, s.dir, names[i + 1..])
  {
    assert names[i..][1..] == names[i + 1..];
  }

  lemma EachEnds(f: (Dir, nat) -> Step, d: Dir, names: seq<nat>)
    ensures Each(f, d, names[|names|..]) == Step(d, Done) && Each(f, d, names[0..]) == Each(f, d, names)
    ensures Each(f, d, Reversed(names[..0])) == Step(d, Done) && names[..|names|] == names
  {
    assert names[0..] == names && names[|names|..] == [];
  }

  lemma EachBack(f: (Dir, nat) -> Step, d: Dir, names: seq<nat>, i: nat)
    requires 0 < i <= |names|
    ensures Each(f, d, Reversed(names[..i]))
         == var s := f(d, names[i - 1]); if s.end != Done then s else Each(f, s.dir, Reversed(names[..i - 1]))
  {
    assert names[..i][..i - 1] == names[..i - 1];
    assert Reversed(names[..i])[1..] == Reversed(names[..i - 1]);
  }

  class Directory {
    const w: Oracle
    var finals: Files
    var staged: Files
    var backups: Files
    var journal: Option<Plan>
    var marker: bool
    var ops: nat
    var quiet: nat

    function Abstract(): Dir
      reads this
    {
      Dir(finals, staged, backups, journal, marker, ops, quiet)
    }

    constructor (w: Oracle, d: Dir)
      ensures this.w == w && Abstract() == d
    {
      this.w := w;
      finals, staged, backups, journal, marker := d.finals, d.staged, d.backups, d.journal, d.marker;
      ops, quiet := d.ops, d.quiet;
    }

    method NextChecked() returns (e: Ending)
      modifies this`ops
      ensures Step(Abstract(), e) == Checked(w, old(Abstract()))
    {
      e := match w.checked(ops) case Works => Done case Fails => Failed case Kills => Killed;
      ops := ops + 1;
    }

    /** Whether a quiet operation takes effect, and whether the process lives on. */
    method NextQuiet() returns (works: bool, e: Ending)
      modifies this`quiet
      ensures quiet == old(quiet) + 1
      ensures works == w.quiet(old(quiet)).Works? && e == if w.quiet(old(quiet)).Kills? then Killed else Done
    {
      works := w.quiet(quiet).Works?;
      e := if w.quiet(quiet).Kills? then Killed else Done;
      quiet := quiet + 1;
    }

    /** Move a final aside. */
    method ParkFile(n: nat) returns (e: Ending)
      modifies this
      ensures Step(Abstract(), e) == Park(w, old(Abstract()), n)
    {
      hide Without;
      e := NextChecked();
      if e == Done {
        if n !in finals {
          return Failed;
        }
        backups := backups[n := finals[n]];
        finals := Without(finals, n);
      }
    }

    method InstallFile(n: nat) returns (e: Ending)
      modifies this
      ensures Step(Abstract(), e) == Install(w, old(Abstract()), n)
    {
      hide Without;
      e := NextChecked();
      if e == Done {
        if n !in staged {
          return Failed;
        }
        finals := finals[n := staged[n]];
        staged := Without(staged, n);
      }
    }

    method TakeFileBack(n: nat) returns (e: Ending)
      modifies this
      ensures Step(Abstract(), e) == TakeBack(w)(old(Abstract()), n)
    {
      hide Without;
      var works;
      works, e := NextQuiet();
      if works && n in finals {
        staged := staged[n := finals[n]];
        finals := Without(finals, n);
      }
    }

    method ReturnFile(n: nat) returns (e: Ending)
      modifies this
      ensures Step(Abstract(), e) == Return(w)(old(Abstract()), n)
    {
      hide Without;
      if n !in backups {
        return Done;
      }
      var works;
      works, e := NextQuiet();
      if works {
        finals := finals[n := backups[n]];
        backups := Without(backups, n);
      } else if w.tears(quiet - 1) {
        finals := Without(finals, n);
      }
    }

    method RemoveNewFile(plan: Plan, n: nat) returns (e: Ending)
      modifies this
      ensures Step(Abstract(), e) == RemoveNew(w, plan)(old(Abstract()), n)
    {
      hide Without;
      if n in plan.parks && n !in backups {
        return Done;
      }
      var works;
      works, e := NextQuiet();
      if works {
        finals := Without(finals, n);
      }
    }

    method DiscardFile(n: nat) returns (e: Ending)
      modifies this
      ensures Step(Abstract(), e) == Discard(w)(old(Abstract()), n)
    {
      hide Without;
      var works;
      works, e := NextQuiet();
      if works {
        staged := Without(staged, n);
      }
    }

    method DropFile(n: nat) returns (e: Ending)
      modifies this
      ensures Step(Abstract(), e) == DropBackup(w)(old(Abstract()), n)
    {
      hide Without;
      var works;
      works, e := NextQuiet();
      if works {
        backups := Without(backups, n);
      }
    }

    method ForgetJournal() returns (e: Ending)
      modifies this
      ensures Step(Abstract(), e) == RemoveJournal(w, old(Abstract()))
    {
      var works;
      works, e := NextQuiet();
      if works {
        journal := None;
      }
    }

    method ClearMarker() returns (e: Ending)
      modifies this
      ensures Step(Abstract(), e) == RemoveMarker(w, old(Abstract()))
    {
      var works;
      works, e := NextQuiet();
      if works {
        marker := false;
      }
    }

    // -------------------------------------------------------------- loops over the files

    method ParkAll(names: seq<nat>) returns (e: Ending)
      modifies this
      ensures Step(Abstract(), e) == Each(Parking(w), old(Abstract()), names)
    {
      hide Each; hide Park;
      var i := 0;
      EachEnds(Parking(w), Abstract(), names);
      while i < |names|
        invariant 0 <= i <= |names|
        invariant Each(Parking(w), Abstract(), names[i..]) == Each(Parking(w), old(Abstract()), names)
      {
        EachNext(Parking(w), Abstract(), names, i);
        e := ParkFile(names[i]);
        if e != Done {
          return;
        }
        i := i + 1;
      }
      EachEnds(Parking(w), Abstract(), names);
      e := Done;
    }

    method TakeAllBack(names: seq<nat>) returns (e: Ending)
      modifies this
      ensures Step(Abstract(), e) == Each(TakeBack(w), old(Abstract()), Reversed(names))
    {
      hide Each; hide Reversed; hide TakeBack;
      var i := |names|;
      EachEnds(TakeBack(w), Abstract(), names);
      while i > 0
        invariant 0 <= i <= |names|
        invariant Each(TakeBack(w), Abstract(), Reversed(names[..i]))
               == Each(TakeBack(w), old(Abstract()), Reversed(names))
      {
        EachBack(TakeBack(w), Abstract(), names, i);
        e := TakeFileBack(names[i - 1]);
        if e != Done {
          return;
        }
        i := i - 1;
      }
      EachEnds(TakeBack(w), Abstract(), names);
      e := Done;
    }

    /** The parked files back, last one first. */
    method ReturnAllBackwards(names: seq<nat>) returns (e: Ending)
      modifies this
      ensures Step(Abstract(), e) == Each(Return(w), old(Abstract()), Reversed(names))
    {
      hide Each; hide Reversed; hide Return;
      var i := |names|;
      EachEnds(Return(w), Abstract(), names);
      while i > 0
        invariant 0 <= i <= |names|
        invariant Each(Return(w), Abstract(), Reversed(names[..i]))
               == Each(Return(w), old(Abstract()), Reversed(names))
      {
        EachBack(Return(w), Abstract(), names, i);
        e := ReturnFile(names[i - 1]);
        if e != Done {
          return;
        }
        i := i - 1;
      }
      EachEnds(Return(w), Abstract(), names);
      e := Done;
    }

    method ReturnAll(names: seq<nat>) returns (e: Ending)
      modifies this
      ensures Step(Abstract(), e) == Each(Return(w), old(Abstract()), names)
    {
      hide Each; hide Return;
      var i := 0;
      EachEnds(Return(w), Abstract(), names);
      while i < |names|
        invariant 0 <= i <= |names|
        invariant Each(Return(w), Abstract(), names[i..]) == Each(Return(w), old(Abstract()), names)
      {
        EachNext(Return(w), Abstract(), names, i);
        e := ReturnFile(names[i]);
        if e != Done {
          return;
        }
        i := i + 1;
      }
      EachEnds(Return(w), Abstract(), names);
      e := Done;
    }

    method RemoveAllNew(plan: Plan) returns (e: Ending)
      modifies this
      ensures Step(Abstract(), e) == Each(RemoveNew(w, plan), old(Abstract()), plan.installs)
    {
      hide Each; hide RemoveNew;
      var i := 0;
      EachEnds(RemoveNew(w, plan), Abstract(), plan.installs);
      while i < |plan.installs|
        invariant 0 <= i <= |plan.installs|
        invariant Each(RemoveNew(w, plan), Abstract(), plan.installs[i..])
               == Each(RemoveNew(w, plan), old(Abstract()), plan.installs)
      {
        EachNext(RemoveNew(w, plan), Abstract(), plan.installs, i);
        e := RemoveNewFile(plan, plan.installs[i]);
        if e != Done {
          return;
        }
        i := i + 1;
      }
      EachEnds(RemoveNew(w, plan), Abstract(), plan.installs);
      e := Done;
    }

    method DiscardAll(names: seq<nat>) returns (e: Ending)
      modifies this
      ensures Step(Abstract(), e) == Each(Discard(w), old(Abstract()), names)
    {
      hide Each; hide Discard;
      var i := 0;
      EachEnds(Discard(w), Abstract(), names);
      while i < |names|
        invariant 0 <= i <= |names|
        invariant Each(Discard(w), Abstract(), names[i..]) == Each(Discard(w), old(Abstract()), names)
      {
        EachNext(Discard(w), Abstract(), names, i);
        e := DiscardFile(names[i]);
        if e != Done {
          return;
        }
        i := i + 1;
      }
      EachEnds(Discard(w), Abstract(), names);
      e := Done;
    }

    method DropAll(names: seq<nat>) returns (e: Ending)
      modifies this
      ensures Step(Abstract(), e) == Each(DropBackup(w), old(Abstract()), names)
    {
      hide Each; hide DropBackup;
      var i := 0;
      EachEnds(DropBackup(w), Abstract(), names);
      while i < |names|
        invariant 0 <= i <= |names|
        invariant Each(DropBackup(w), Abstract(), names[i..]) == Each(DropBackup(w), old(Abstract()), names)
      {
        EachNext(DropBackup(w), Abstract(), names, i);
        e := DropFile(names[i]);
        if e != Done {
          return;
        }
        i := i + 1;
      }
      EachEnds(DropBackup(w), Abstract(), names);
      e := Done;
    }

    // -------------------------------------------------------------- commit

    method Rollback(plan: Plan, installed: seq<nat>) returns (e: Ending)
      modifies this
      ensures Step(Abstract(), e) == RolledBack(w, old(Abstract()), plan, installed)
    {
      hide Each; hide Reversed; hide Quiet;
      e := TakeAllBack(installed);
      if e != Done {
        return;
      }
      e := ReturnAllBackwards(plan.parks);
      if e != Done {
        return;
      }
      e := ForgetJournal();
      e := if e == Done then Failed else e;
    }

    /** Install every file, roll back when one of them, or the flush, fails. */
    method InstallAll(plan: Plan) returns (e: Ending)
      modifies this
      ensures Step(Abstract(), e) == Installed(w, old(Abstract()), plan, 0)
    {
      hide RolledBack; hide Checked; hide Install;
      var i := 0;
      while i < |plan.installs|
        invariant 0 <= i <= |plan.installs|
        invariant Installed(w, Abstract(), plan, i) == Installed(w, old(Abstract()), plan, 0)
      {
        e := InstallFile(plan.installs[i]);
        if e == Failed {
          e := Rollback(plan, plan.installs[..i]);
          return;
        }
        if e == Killed {
          return;
        }
        i := i + 1;
      }
      e := NextChecked();
      if e == Failed {
        e := Rollback(plan, plan.installs[..i]);
      }
    }

    /** Install the staged files and retire others, as one unit. */
    method CommitFiles(installs: seq<nat>, retire: seq<nat>) returns (e: Ending)
      modifies this
      ensures Step(Abstract(), e) == Committed(w, old(Abstract()), installs, retire)
    {
      hide Each; hide RolledBack; hide Installed; hide Existing; hide CleanedUp; hide Quiet;
      if installs == [] && retire == [] {
        return Done;
      }
      var plan := PlanFor(Abstract(), installs, retire);
      e := ClearMarker();
      if e != Done {
        return;
      }
      e := NextChecked();
      if e != Done {
        return;
      }
      journal := Some(plan);
      e := ParkAll(plan.parks);
      if e == Failed {
        e := Rollback(plan, []);
        return;
      }
      if e == Killed {
        return;
      }
      e := InstallAll(plan);
      if e != Done {
        return;
      }
      e := NextChecked();
      if e != Done {
        return;
      }
      marker := true;
      e := NextChecked();
      if e != Done {
        return;
      }
      e := CleanUp(plan);
    }

    /** Drop the parked files, then journal and marker. */
    method CleanUp(plan: Plan) returns (e: Ending)
      modifies this
      ensures Step(Abstract(), e) == CleanedUp(w, old(Abstract()), plan)
    {
      hide Each; hide Quiet;
      e := DropAll(plan.parks);
      if e == Done {
        e := ForgetJournal();
      }
      if e == Done {
        e := ClearMarker();
      }
    }

    // -------------------------------------------------------------- recovery

    /** Finish or roll back what an earlier process left. */
    method Recover() returns (e: Ending)
      modifies this
      ensures Step(Abstract(), e) == Recovered(w, old(Abstract()))
    {
      hide Each; hide Quiet; hide CleanedUp;
      e := Done;
      if journal.Some? && marker {
        e := CleanUp(journal.value);
        return;
      }
      if journal.Some? {
        var plan := journal.value;
        e := RemoveAllNew(plan);
        if e == Done {
          e := ReturnAll(plan.parks);
        }
        if e == Done {
          e := DiscardAll(plan.installs);
        }
        if e == Done {
          e := ForgetJournal();
        }
      }
      if e == Done {
        e := ClearMarker();
      }
    }
  }
}
