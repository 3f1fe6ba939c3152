/** What a journaled commit and the recovery behind it leave of the old and the new set
    (fs/atomic/set.rs): which of the two comes out, and exactly when neither does. */
module JournalOutcome {
  import opened Options
  import opened Journal

  // ---------------------------------------------------------------- the two sets

  predicate Distinct(s: seq<nat>) {
    forall i, j :: 0 <= i < j < |s| ==> s[i] != s[j]
  }

  function Lookup(files: Files, n: nat): Option<Content> {
    if n in files then Some(files[n]) else None
  }

  /** The set after the commit: the retired files gone, the staged ones in place. */
  function NewSet(finals: Files, staged: Files, installs: seq<nat>, retire: seq<nat>): Files
    requires forall n :: n in installs ==> n in staged
  {
    map n | n in finals.Keys + staged.Keys && (n in installs || (n in finals && n !in retire)) ::
      if n in installs then staged[n] else finals[n]
  }

  /** What removing the new files and returning the parked ones makes of the finals. */
  function Reverted(finals: Files, backups: Files, plan: Plan): Files {
    map n | n in finals.Keys + backups.Keys
            && ((n in backups && n in plan.parks) || (n in finals && (n in plan.parks || n !in plan.installs))) ::
      if n in backups && n in plan.parks then backups[n] else finals[n]
  }

  /** The set that comes out when the next process recovers undisturbed. */
  function Outcome(d: Dir): Files {
    if d.journal.None? || d.marker then d.finals else Reverted(d.finals, d.backups, d.journal.value)
  }

  /** File `n` of the old set is where a rollback looks for it. */
  predicate Safe(finals: Files, backups: Files, plan: Plan, oldSet: Files, n: nat) {
    if n in backups then n in plan.parks && Lookup(oldSet, n) == Some(backups[n])
    else if n in plan.installs && n !in plan.parks then n !in oldSet
    else Lookup(finals, n) == Lookup(oldSet, n)
  }

  ghost predicate OldSafe(d: Dir, plan: Plan, oldSet: Files) {
    forall n: nat :: Safe(d.finals, d.backups, plan, oldSet, n)
  }

  /** Before the marker: every old file is still there, parked or in its place. */
  ghost predicate Before(d: Dir, plan: Plan, oldSet: Files) {
    OldSafe(d, plan, oldSet) && (d.journal.Some? ==> d.journal.value == plan)
  }

  /** After it: the new set is in place. */
  ghost predicate After(d: Dir, plan: Plan, oldSet: Files, newSet: Files) {
    && d.finals == newSet && (d.journal.Some? ==> d.journal.value == plan)
    && forall n :: n in d.backups ==> n in plan.parks && Lookup(oldSet, n) == Some(d.backups[n])
  }

  /** No old file is still aside, unless the same stands in its place, and no new file
      stands where none was. */
  predicate AllBack(d: Dir, plan: Plan) {
    && (forall n :: n in d.backups ==> Lookup(d.finals, n) == Some(d.backups[n]))
    && (forall n :: n in plan.installs && n !in plan.parks ==> n !in d.finals)
  }

  /** Going back would change nothing: every new file replaced one, and what is parked
      is what stands there. */
  predicate Replaces(d: Dir, plan: Plan) {
    && (forall n :: n in plan.installs ==> n in plan.parks)
    && (forall n :: n in d.backups ==> Lookup(d.finals, n) == Some(d.backups[n]))
  }

  lemma SameFiles(a: Files, b: Files)
    ensures a == b <==> forall n: nat :: Lookup(a, n) == Lookup(b, n)
  {
    if forall n: nat :: Lookup(a, n) == Lookup(b, n) {
      forall n: nat ensures n in a <==> n in b {
        assert Lookup(a, n) == Lookup(b, n);
      }
      forall n | n in a ensures a[n] == b[n] {
        assert Lookup(a, n) == Lookup(b, n);
      }
    }
  }

  /** Before the marker the old set comes out exactly when the journal tells of it and
      no marker contradicts, or when everything is back already. */
  lemma OutcomeBefore(d: Dir, plan: Plan, oldSet: Files)
    requires Before(d, plan, oldSet)
    ensures Outcome(d) == oldSet <==> (d.journal.Some? && !d.marker) || AllBack(d, plan)
  {
    RevertedIsOld(d, plan, oldSet);
    AllBackIsOld(d, plan, oldSet);
  }

  lemma RevertedIsOld(d: Dir, plan: Plan, oldSet: Files)
    requires OldSafe(d, plan, oldSet)
    ensures Reverted(d.finals, d.backups, plan) == oldSet
  {
    var r := Reverted(d.finals, d.backups, plan);
    forall n: nat ensures Lookup(r, n) == Lookup(oldSet, n) {
      assert Safe(d.finals, d.backups, plan, oldSet, n);
    }
    SameFiles(r, oldSet);
  }

  lemma AllBackIsOld(d: Dir, plan: Plan, oldSet: Files)
    requires OldSafe(d, plan, oldSet)
    ensures d.finals == oldSet <==> AllBack(d, plan)
  {
    if AllBack(d, plan) {
      forall n: nat ensures Lookup(d.finals, n) == Lookup(oldSet, n) {
        assert Safe(d.finals, d.backups, plan, oldSet, n);
      }
      SameFiles(d.finals, oldSet);
    }
    if d.finals == oldSet {
      forall n | n in d.backups ensures Lookup(d.finals, n) == Some(d.backups[n]) {
        assert Safe(d.finals, d.backups, plan, oldSet, n);
      }
      forall n | n in plan.installs && n !in plan.parks ensures n !in d.finals {
        assert Safe(d.finals, d.backups, plan, oldSet, n);
      }
    }
  }

  /** After the marker the new set comes out exactly unless a journal without a marker
      is left and going back would change something. */
  lemma OutcomeAfter(d: Dir, plan: Plan, oldSet: Files, newSet: Files)
    requires After(d, plan, oldSet, newSet) && forall n :: n in plan.installs ==> n in newSet
    ensures Outcome(d) == newSet <==> d.journal.None? || d.marker || Replaces(d, plan)
  {
    if d.journal.Some? && !d.marker {
      var r := Reverted(d.finals, d.backups, plan);
      SameFiles(r, newSet);
      if Replaces(d, plan) {
        forall n: nat ensures Lookup(r, n) == Lookup(newSet, n) {
        }
      } else if n :| n in plan.installs && n !in plan.parks {
        assert Lookup(r, n) != Lookup(newSet, n);
      } else {
        var n :| n in d.backups && Lookup(d.finals, n) != Some(d.backups[n]);
        assert Lookup(r, n) != Lookup(newSet, n);
      }
    }
  }

  // ---------------------------------------------------------------- what each operation keeps

  lemma {:induction false} EachKeeps(f: (Dir, nat) -> Step, d: Dir, names: seq<nat>, keep: Dir -> bool)
    requires keep(d) && forall x: Dir, n: nat :: n in names && keep(x) ==> keep(f(x, n).dir)
    ensures keep(Each(f, d, names).dir)
    decreases |names|
  {
    if names != [] {
      var s := f(d, names[0]);
      assert names[0] in names && keep(s.dir);
      if s.end == Done {
        forall x: Dir, n: nat | n in names[1..] && keep(x) ensures keep(f(x, n).dir) {
          assert n in names;
        }
        EachKeeps(f, s.dir, names[1..], keep);
      }
    }
  }

  /** A file may be taken back: no old one was there, or it is parked. */
  predicate Movable(d: Dir, plan: Plan, n: nat) {
    n !in plan.parks || n in d.backups
  }

  lemma ParkKeeps(w: Oracle, d: Dir, plan: Plan, oldSet: Files, n: nat)
    requires OldSafe(d, plan, oldSet) && n in plan.parks && n !in d.backups
    ensures OldSafe(Park(w, d, n).dir, plan, oldSet)
  {
    var e := Park(w, d, n).dir;
    assert Safe(d.finals, d.backups, plan, oldSet, n);
    forall m: nat ensures Safe(e.finals, e.backups, plan, oldSet, m) {
      assert Safe(d.finals, d.backups, plan, oldSet, m);
    }
  }

  lemma InstallKeeps(w: Oracle, d: Dir, plan: Plan, oldSet: Files, n: nat)
    requires OldSafe(d, plan, oldSet) && n in plan.installs && Movable(d, plan, n)
    ensures OldSafe(Install(w, d, n).dir, plan, oldSet)
  {
    var e := Install(w, d, n).dir;
    forall m: nat ensures Safe(e.finals, e.backups, plan, oldSet, m) {
      assert Safe(d.finals, d.backups, plan, oldSet, m);
    }
  }

  /** Whether or not it works, taking a file back keeps the old set safe. */
  lemma TakeBackKeeps(w: Oracle, d: Dir, plan: Plan, oldSet: Files, n: nat)
    requires OldSafe(d, plan, oldSet) && n in plan.installs && Movable(d, plan, n)
    ensures OldSafe(TakeBack(w)(d, n).dir, plan, oldSet)
  {
    var e := TakeBack(w)(d, n).dir;
    forall m: nat ensures Safe(e.finals, e.backups, plan, oldSet, m) {
      assert Safe(d.finals, d.backups, plan, oldSet, m);
    }
  }

  lemma ReturnKeeps(w: Oracle, d: Dir, plan: Plan, oldSet: Files, n: nat)
    requires OldSafe(d, plan, oldSet)
    ensures OldSafe(Return(w)(d, n).dir, plan, oldSet)
  {
    var e := Return(w)(d, n).dir;
    assert Safe(d.finals, d.backups, plan, oldSet, n);
    forall m: nat ensures Safe(e.finals, e.backups, plan, oldSet, m) {
      assert Safe(d.finals, d.backups, plan, oldSet, m);
    }
  }

  lemma RemoveNewKeeps(w: Oracle, d: Dir, plan: Plan, oldSet: Files, n: nat)
    requires OldSafe(d, plan, oldSet) && n in plan.installs
    ensures OldSafe(RemoveNew(w, plan)(d, n).dir, plan, oldSet)
  {
    var e := RemoveNew(w, plan)(d, n).dir;
    forall m: nat ensures Safe(e.finals, e.backups, plan, oldSet, m) {
      assert Safe(d.finals, d.backups, plan, oldSet, m);
    }
  }

  /** The journal and the old set through the loops of a rollback or a recovery. */
  lemma ReturnsKeep(w: Oracle, d: Dir, plan: Plan, oldSet: Files, names: seq<nat>)
    requires OldSafe(d, plan, oldSet)
    ensures var e := Each(Return(w), d, names).dir;
            OldSafe(e, plan, oldSet) && e.journal == d.journal && e.marker == d.marker
  {
    hide OldSafe;
    forall x: Dir, n: nat | OldSafe(x, plan, oldSet) ensures OldSafe(Return(w)(x, n).dir, plan, oldSet) {
      ReturnKeeps(w, x, plan, oldSet, n);
    }
    EachKeeps(Return(w), d, names,
      (x: Dir) => OldSafe(x, plan, oldSet) && x.journal == d.journal && x.marker == d.marker);
  }

  lemma TakesBackKeep(w: Oracle, d: Dir, plan: Plan, oldSet: Files, names: seq<nat>)
    requires OldSafe(d, plan, oldSet) && forall n :: n in names ==> n in plan.installs && Movable(d, plan, n)
    ensures var e := Each(TakeBack(w), d, names).dir;
            OldSafe(e, plan, oldSet) && e.journal == d.journal && e.marker == d.marker && e.backups == d.backups
  {
    hide OldSafe;
    forall x: Dir, n: nat | n in names && OldSafe(x, plan, oldSet) && x.backups == d.backups
      ensures OldSafe(TakeBack(w)(x, n).dir, plan, oldSet)
    {
      assert Movable(d, plan, n);
      TakeBackKeeps(w, x, plan, oldSet, n);
    }
    EachKeeps(TakeBack(w), d, names,
      (x: Dir) => OldSafe(x, plan, oldSet) && x.journal == d.journal && x.marker == d.marker && x.backups == d.backups);
  }

  lemma RemovalsKeep(w: Oracle, d: Dir, plan: Plan, oldSet: Files)
    requires OldSafe(d, plan, oldSet)
    ensures var e := Each(RemoveNew(w, plan), d, plan.installs).dir;
            OldSafe(e, plan, oldSet) && e.journal == d.journal && e.marker == d.marker
  {
    hide OldSafe;
    forall x: Dir, n: nat | n in plan.installs && OldSafe(x, plan, oldSet)
      ensures OldSafe(RemoveNew(w, plan)(x, n).dir, plan, oldSet)
    {
      RemoveNewKeeps(w, x, plan, oldSet, n);
    }
    EachKeeps(RemoveNew(w, plan), d, plan.installs,
      (x: Dir) => OldSafe(x, plan, oldSet) && x.journal == d.journal && x.marker == d.marker);
  }

  lemma DiscardsKeep(w: Oracle, d: Dir, names: seq<nat>)
    ensures var e := Each(Discard(w), d, names).dir;
            e.finals == d.finals && e.backups == d.backups && e.journal == d.journal && e.marker == d.marker
  {
    EachKeeps(Discard(w), d, names,
      (x: Dir) => x.finals == d.finals && x.backups == d.backups && x.journal == d.journal && x.marker == d.marker);
  }

  lemma DropKeeps(w: Oracle, d: Dir, plan: Plan, oldSet: Files, newSet: Files, n: nat)
    requires After(d, plan, oldSet, newSet)
    ensures After(DropBackup(w)(d, n).dir, plan, oldSet, newSet)
  {
  }

  lemma DropsKeep(w: Oracle, d: Dir, plan: Plan, oldSet: Files, newSet: Files)
    requires After(d, plan, oldSet, newSet)
    ensures var e := Each(DropBackup(w), d, plan.parks).dir;
            After(e, plan, oldSet, newSet) && e.journal == d.journal && e.marker == d.marker
  {
    hide After; hide Each;
    forall x: Dir, n: nat | After(x, plan, oldSet, newSet) ensures After(DropBackup(w)(x, n).dir, plan, oldSet, newSet) {
      DropKeeps(w, x, plan, oldSet, newSet, n);
    }
    EachKeeps(DropBackup(w), d, plan.parks,
      (x: Dir) => After(x, plan, oldSet, newSet) && x.journal == d.journal && x.marker == d.marker);
  }

  // ---------------------------------------------------------------- nothing is lost on the disk

  lemma ReversedHas(names: seq<nat>)
    ensures forall n :: n in Reversed(names) <==> n in names
  {
    if names != [] {
      ReversedHas(names[..|names| - 1]);
      assert names == names[..|names| - 1] + [names[|names| - 1]];
    }
  }

  lemma RollbackKeeps(w: Oracle, d: Dir, plan: Plan, oldSet: Files, installed: seq<nat>)
    requires Before(d, plan, oldSet) && forall n :: n in installed ==> n in plan.installs && Movable(d, plan, n)
    ensures Before(RolledBack(w, d, plan, installed).dir, plan, oldSet)
    ensures RolledBack(w, d, plan, installed).end != Done
    ensures RolledBack(w, d, plan, installed).dir.marker == d.marker
  {
    hide OldSafe; hide Each; hide Reversed;
    ReversedHas(installed);
    TakesBackKeep(w, d, plan, oldSet, Reversed(installed));
    var s := Each(TakeBack(w), d, Reversed(installed));
    ReturnsKeep(w, s.dir, plan, oldSet, Reversed(plan.parks));
    var t := Each(Return(w), s.dir, Reversed(plan.parks));
    SameParts(t.dir, RemoveJournal(w, t.dir).dir, plan, oldSet);
  }

  lemma SameParts(d: Dir, e: Dir, plan: Plan, oldSet: Files)
    requires OldSafe(d, plan, oldSet) && e.finals == d.finals && e.backups == d.backups
    ensures OldSafe(e, plan, oldSet)
  {
  }

  /** Existing files are parked one by one; the first fault stops it. */
  lemma {:induction false} ParkingKeeps(w: Oracle, d: Dir, plan: Plan, oldSet: Files, i: nat)
    requires OldSafe(d, plan, oldSet) && Distinct(plan.parks) && i <= |plan.parks|
    requires forall n :: n in d.backups <==> n in plan.parks[..i]
    requires d.finals == oldSet - d.backups.Keys
    ensures var s := Each(Parking(w), d, plan.parks[i..]);
            && OldSafe(s.dir, plan, oldSet) && s.dir.finals == oldSet - s.dir.backups.Keys
            && (forall n :: n in s.dir.backups ==> n in plan.parks)
            && (s.end == Done ==> forall n :: n in plan.parks ==> n in s.dir.backups)
    decreases |plan.parks| - i
  {
    hide OldSafe; hide Each; hide Park; hide Distinct;
    if i < |plan.parks| {
      var n := plan.parks[i];
      NextIsNew(plan.parks, i);
      EachNext(Parking(w), d, plan.parks, i);
      ParkKeeps(w, d, plan, oldSet, n);
      ParkMoves(w, d, oldSet, n);
      var s := Park(w, d, n);
      if s.end == Done {
        ParkingKeeps(w, s.dir, plan, oldSet, i + 1);
      }
    } else {
      assert plan.parks[..i] == plan.parks;
      EachEnds(Parking(w), d, plan.parks);
    }
  }

  lemma NextIsNew(names: seq<nat>, i: nat)
    requires Distinct(names) && i < |names|
    ensures names[i] in names && names[i] !in names[..i]
    ensures forall n :: n in names[..i + 1] <==> n in names[..i] || n == names[i]
  {
    assert names[..i + 1] == names[..i] + [names[i]];
  }

  lemma ParkMoves(w: Oracle, d: Dir, oldSet: Files, n: nat)
    requires d.finals == oldSet - d.backups.Keys
    ensures var s := Park(w, d, n);
            && s.dir.finals == oldSet - s.dir.backups.Keys
            && s.dir.backups.Keys == (if s.end == Done then d.backups.Keys + {n} else d.backups.Keys)
  {
  }

  /** What parking leaves alone, and when it goes through. */
  lemma {:induction false} ParkingEnds(w: Oracle, d: Dir, names: seq<nat>)
    requires Distinct(names) && forall n :: n in names ==> n in d.finals
    ensures var s := Each(Parking(w), d, names);
            && s.dir.journal == d.journal && s.dir.marker == d.marker && s.dir.staged == d.staged
            && s.dir.quiet == d.quiet
            && (s.end == Done ==> s.dir.ops == d.ops + |names|)
            && (s.end == Done <==> forall k :: d.ops <= k < d.ops + |names| ==> w.checked(k).Works?)
    decreases |names|
  {
    if names != [] {
      assert names[0] in names;
      var s := Park(w, d, names[0]);
      if s.end == Done {
        forall n | n in names[1..] ensures n in s.dir.finals {
          assert n in names && n != names[0];
        }
        forall i, j | 0 <= i < j < |names[1..]| ensures names[1..][i] != names[1..][j] {
        }
        ParkingEnds(w, s.dir, names[1..]);
      } else {
        assert !w.checked(d.ops).Works?;
      }
    }
  }

  /** The staged files in place over the rest. */
  function Over(rest: Files, staged: Files, installs: seq<nat>): Files
    requires forall n :: n in installs ==> n in staged
  {
    map n | n in rest.Keys + staged.Keys && (n in installs || n in rest) ::
      if n in installs then staged[n] else rest[n]
  }

  lemma OverNext(rest: Files, staged: Files, installs: seq<nat>, i: nat)
    requires i < |installs| && Distinct(installs) && forall n :: n in installs ==> n in staged
    ensures Over(rest, staged, installs[..i + 1])
         == Over(rest, staged, installs[..i])[installs[i] := staged[installs[i]]]
    ensures Left(staged, installs[..i + 1]) == Without(Left(staged, installs[..i]), installs[i])
    ensures installs[i] in Left(staged, installs[..i])
    ensures Left(staged, installs[..i])[installs[i]] == staged[installs[i]]
  {
    hide Over; hide Left; hide Without;
    OneMoreInstalled(rest, staged, installs[..i], installs[i]);
    assert installs[..i + 1] == installs[..i] + [installs[i]];
    OneLeftLess(staged, installs[..i], installs[i]);
  }

  lemma OneMoreInstalled(rest: Files, staged: Files, installed: seq<nat>, n: nat)
    requires n in staged && forall m :: m in installed ==> m in staged
    ensures Over(rest, staged, installed + [n]) == Over(rest, staged, installed)[n := staged[n]]
  {
  }

  lemma OneLeftLess(staged: Files, installed: seq<nat>, n: nat)
    requires n in staged && n !in installed
    ensures n in Left(staged, installed) && Left(staged, installed)[n] == staged[n]
    ensures Left(staged, installed + [n]) == Without(Left(staged, installed), n)
  {
  }

  /** What is still staged. */
  function Left(staged: Files, installs: seq<nat>): Files {
    map n | n in staged && n !in installs :: staged[n]
  }

  /** Installing moves one staged file after the other; a failure rolls back. */
  lemma {:induction false} InstallingKeeps(w: Oracle, d: Dir, plan: Plan, oldSet: Files, rest: Files, staged: Files, i: nat)
    requires Before(d, plan, oldSet) && Distinct(plan.installs) && i <= |plan.installs|
    requires forall n :: n in plan.parks ==> n in d.backups
    requires forall n :: n in plan.installs ==> n in staged
    requires d.finals == Over(rest, staged, plan.installs[..i]) && d.staged == Left(staged, plan.installs[..i])
    ensures var s := Installed(w, d, plan, i);
            && Before(s.dir, plan, oldSet) && s.dir.marker == d.marker
            && (s.end == Done ==>
                  && s.dir.finals == Over(rest, staged, plan.installs) && s.dir.staged == Left(staged, plan.installs)
                  && s.dir.backups == d.backups && s.dir.journal == d.journal
                  && s.dir.quiet == d.quiet && s.dir.ops == d.ops + |plan.installs| - i + 1)
            && (s.end == Done <==> forall k :: d.ops <= k <= d.ops + |plan.installs| - i ==> w.checked(k).Works?)
    decreases |plan.installs| - i
  {
    hide OldSafe; hide Over; hide Left; hide RolledBack;
    if i == |plan.installs| {
      assert plan.installs[..i] == plan.installs;
      SameParts(d, Checked(w, d).dir, plan, oldSet);
      if Checked(w, d).end == Failed {
        RollbackKeeps(w, Checked(w, d).dir, plan, oldSet, plan.installs[..i]);
      }
    } else {
      var n := plan.installs[i];
      OverNext(rest, staged, plan.installs, i);
      InstallKeeps(w, d, plan, oldSet, n);
      var s := Install(w, d, n);
      if s.end == Failed {
        RollbackKeeps(w, s.dir, plan, oldSet, plan.installs[..i]);
        assert !w.checked(d.ops).Works?;
      } else if s.end == Done {
        InstallingKeeps(w, s.dir, plan, oldSet, rest, staged, i + 1);
      } else {
        assert !w.checked(d.ops).Works?;
      }
    }
  }

  lemma MarkingKeeps(w: Oracle, d: Dir, plan: Plan, oldSet: Files, newSet: Files)
    requires Before(d, plan, oldSet) && d.finals == newSet && d.journal == Some(plan)
    ensures var r := MarkedDone(w, d, plan);
            && After(r.dir, plan, oldSet, newSet) && r.dir.staged == d.staged
            && (r.end == Failed ==> r.dir.journal == Some(plan) && r.dir.finals == newSet)
            && (r.end == Failed <==> w.checked(d.ops).Fails? || (w.checked(d.ops).Works? && w.checked(d.ops + 1).Fails?))
  {
    hide OldSafe; hide Each; hide After;
    BackupsParked(d, plan, oldSet, newSet);
    var e := Checked(w, d).dir.(marker := true);
    var f := Checked(w, e).dir;
    AfterSame(d, Checked(w, d).dir, plan, oldSet, newSet);
    AfterSame(d, f, plan, oldSet, newSet);
    CleanUpKeeps(w, f, plan, oldSet, newSet);
  }

  lemma AfterSame(d: Dir, e: Dir, plan: Plan, oldSet: Files, newSet: Files)
    requires After(d, plan, oldSet, newSet) && e.finals == d.finals && e.backups == d.backups
    requires e.journal.Some? ==> e.journal == Some(plan)
    ensures After(e, plan, oldSet, newSet)
  {
  }

  lemma BackupsParked(d: Dir, plan: Plan, oldSet: Files, newSet: Files)
    requires Before(d, plan, oldSet) && d.finals == newSet
    ensures After(d, plan, oldSet, newSet)
  {
    forall n | n in d.backups ensures n in plan.parks && Lookup(oldSet, n) == Some(d.backups[n]) {
      assert Safe(d.finals, d.backups, plan, oldSet, n);
    }
  }

  lemma CleanUpKeeps(w: Oracle, d: Dir, plan: Plan, oldSet: Files, newSet: Files)
    requires After(d, plan, oldSet, newSet)
    ensures var r := CleanedUp(w, d, plan);
            After(r.dir, plan, oldSet, newSet) && r.end != Failed && r.dir.staged == d.staged
  {
    hide Each; hide After; hide RemoveJournal; hide RemoveMarker;
    DropsKeep(w, d, plan, oldSet, newSet);
    DropsStage(w, d, plan.parks);
    var s := Each(DropBackup(w), d, plan.parks);
    var t := RemoveJournal(w, s.dir);
    JournalOf(s.dir, plan, oldSet, newSet);
    LastSteps(w, s.dir);
    LastSteps(w, t.dir);
    AfterSame(s.dir, t.dir, plan, oldSet, newSet);
    AfterSame(t.dir, RemoveMarker(w, t.dir).dir, plan, oldSet, newSet);
  }

  /** Removing journal or marker touches nothing else. */
  lemma LastSteps(w: Oracle, d: Dir)
    ensures var t := RemoveJournal(w, d);
            && t.end != Failed && t.dir == d.(journal := t.dir.journal, quiet := d.quiet + 1)
            && (t.dir.journal == None || t.dir.journal == d.journal)
    ensures var t := RemoveMarker(w, d);
            && t.end != Failed && t.dir == d.(marker := t.dir.marker, quiet := d.quiet + 1)
            && (t.dir.marker ==> d.marker)
  {
  }

  lemma JournalOf(d: Dir, plan: Plan, oldSet: Files, newSet: Files)
    requires After(d, plan, oldSet, newSet)
    ensures d.journal.Some? ==> d.journal == Some(plan)
  {
  }

  lemma {:induction false} DropsStage(w: Oracle, d: Dir, names: seq<nat>)
    ensures Each(DropBackup(w), d, names).end != Failed && Each(DropBackup(w), d, names).dir.staged == d.staged
    decreases |names|
  {
    if names != [] && DropBackup(w)(d, names[0]).end == Done {
      DropsStage(w, DropBackup(w)(d, names[0]).dir, names[1..]);
    }
  }

  /** What a commit starts from: nothing under way, but perhaps a stale marker. */
  ghost predicate Ready(d: Dir, installs: seq<nat>, retire: seq<nat>) {
    && d.journal.None? && d.backups == map[] && Distinct(installs + retire)
    && forall n :: n in installs ==> n in d.staged
  }

  lemma {:induction false} ExistingIs(finals: Files, candidates: seq<nat>)
    requires Distinct(candidates)
    ensures forall n :: n in Existing(finals, candidates) <==> n in candidates && n in finals
    ensures Distinct(Existing(finals, candidates))
  {
    if candidates != [] {
      forall i, j | 0 <= i < j < |candidates[1..]| ensures candidates[1..][i] != candidates[1..][j] {
      }
      ExistingIs(finals, candidates[1..]);
      forall n | n in candidates[1..] ensures n != candidates[0] {
      }
    }
  }

  lemma PlanIs(d: Dir, installs: seq<nat>, retire: seq<nat>)
    requires Distinct(installs + retire)
    ensures var plan := PlanFor(d, installs, retire);
            && Distinct(plan.parks) && Distinct(plan.installs) && plan.installs == installs
            && (forall n :: n in plan.parks <==> (n in installs || n in retire) && n in d.finals)
  {
    ExistingIs(d.finals, installs + retire);
    forall i, j | 0 <= i < j < |installs| ensures installs[i] != installs[j] {
      assert (installs + retire)[i] != (installs + retire)[j];
    }
  }

  lemma UntouchedSafe(d: Dir, installs: seq<nat>, retire: seq<nat>)
    requires Ready(d, installs, retire)
    ensures OldSafe(d, PlanFor(d, installs, retire), d.finals)
  {
    PlanIs(d, installs, retire);
  }

  lemma OverIsNew(d: Dir, installs: seq<nat>, retire: seq<nat>, parked: set<nat>)
    requires Ready(d, installs, retire)
    requires forall n :: n in parked <==> n in PlanFor(d, installs, retire).parks
    ensures Over(d.finals - parked, d.staged, installs) == NewSet(d.finals, d.staged, installs, retire)
  {
    PlanIs(d, installs, retire);
  }

  /** Park, install and mark from a written journal. */
  lemma MovedKeeps(w: Oracle, d: Dir, installs: seq<nat>, retire: seq<nat>)
    requires Ready(d.(journal := None), installs, retire)
    requires d.journal == Some(PlanFor(d, installs, retire))
    ensures var plan, r := PlanFor(d, installs, retire), Moved(w, d, PlanFor(d, installs, retire));
            var newSet := NewSet(d.finals, d.staged, installs, retire);
            var m := d.ops + |plan.parks| + |installs| + 1;
            && (Before(r.dir, plan, d.finals) || After(r.dir, plan, d.finals, newSet))
            && (r.end == Done ==> After(r.dir, plan, d.finals, newSet) && r.dir.staged == Left(d.staged, installs))
            && (if forall k :: d.ops <= k < m ==> w.checked(k).Works? then
                  var e := Installed(w, Each(Parking(w), d, plan.parks).dir, plan, 0).dir;
                  && r == MarkedDone(w, e, plan) && After(r.dir, plan, d.finals, newSet)
                  && Before(e, plan, d.finals) && e.finals == newSet && e.journal == Some(plan) && e.ops == m
                  && e.marker == d.marker && e.quiet == d.quiet && e.staged == Left(d.staged, installs)
                  && (forall n :: n in plan.parks <==> n in e.backups)
                else Before(r.dir, plan, d.finals) && r.end != Done && r.dir.marker == d.marker)
  {
    hide OldSafe; hide Over; hide RolledBack; hide MarkedDone; hide Each; hide Installed; hide NewSet; hide Left; hide Existing;
    var plan, oldSet := PlanFor(d, installs, retire), d.finals;
    PlanIs(d, installs, retire);
    UntouchedSafe(d.(journal := None), installs, retire);
    SameParts(d.(journal := None), d, plan, oldSet);
    assert plan.parks[0..] == plan.parks && plan.parks[..0] == [] && oldSet - {} == oldSet;
    ParkingKeeps(w, d, plan, oldSet, 0);
    ParkingEnds(w, d, plan.parks);
    var s := Each(Parking(w), d, plan.parks);
    if s.end == Failed {
      RollbackKeeps(w, s.dir, plan, oldSet, []);
    } else if s.end == Done {
      NothingOver(s.dir.finals, s.dir.staged, installs);
      InstallingKeeps(w, s.dir, plan, oldSet, s.dir.finals, d.staged, 0);
      var t := Installed(w, s.dir, plan, 0);
      if t.end == Done {
        OverIsNew(d.(journal := None), installs, retire, s.dir.backups.Keys);
        MarkingKeeps(w, t.dir, plan, oldSet, NewSet(oldSet, d.staged, installs, retire));
        forall k | d.ops <= k < d.ops + |plan.parks| + |installs| + 1 ensures w.checked(k).Works? {
        }
      }
    }
  }

  lemma NothingOver(rest: Files, staged: Files, installs: seq<nat>)
    ensures Over(rest, staged, installs[..0]) == rest && Left(staged, installs[..0]) == staged
  {
  }

  // ---------------------------------------------------------------- what a commit leaves, whatever fails

  /** Whatever fails or is ignored, and wherever the process is killed, a commit loses
      no file: every old one is still there, or the new set is in place. Which set comes
      out in the end is decided by journal and marker, exactly so. */
  lemma CommitOutcome(w: Oracle, d: Dir, installs: seq<nat>, retire: seq<nat>)
    requires Ready(d, installs, retire)
    ensures var plan, r := PlanFor(d, installs, retire), Committed(w, d, installs, retire);
            var newSet := NewSet(d.finals, d.staged, installs, retire);
            && (r.end == Done ==> After(r.dir, plan, d.finals, newSet))
            && ((Before(r.dir, plan, d.finals)
                 && (Outcome(r.dir) == d.finals <==>
                       (r.dir.journal.Some? && !r.dir.marker) || AllBack(r.dir, plan)))
                || (After(r.dir, plan, d.finals, newSet)
                    && (Outcome(r.dir) == newSet <==>
                          r.dir.journal.None? || r.dir.marker || Replaces(r.dir, plan))))
  {
    hide OldSafe; hide Moved; hide Outcome; hide AllBack; hide Replaces; hide Existing;
    var plan, oldSet := PlanFor(d, installs, retire), d.finals;
    var newSet := NewSet(oldSet, d.staged, installs, retire);
    var r := Committed(w, d, installs, retire);
    UntouchedSafe(d, installs, retire);
    CommitCases(w, d, installs, retire);
    if Before(r.dir, plan, oldSet) {
      OutcomeBefore(r.dir, plan, oldSet);
    }
    if After(r.dir, plan, oldSet, newSet) {
      OutcomeAfter(r.dir, plan, oldSet, newSet);
    }
  }

  lemma CommitCases(w: Oracle, d: Dir, installs: seq<nat>, retire: seq<nat>)
    requires Ready(d, installs, retire)
    ensures var plan, r := PlanFor(d, installs, retire), Committed(w, d, installs, retire);
            var newSet := NewSet(d.finals, d.staged, installs, retire);
            && (Before(r.dir, plan, d.finals) || After(r.dir, plan, d.finals, newSet))
            && (r.end == Done ==> After(r.dir, plan, d.finals, newSet))
  {
    hide OldSafe; hide Moved; hide NewSet; hide Existing;
    var plan, oldSet := PlanFor(d, installs, retire), d.finals;
    UntouchedSafe(d, installs, retire);
    LastSteps(w, d);
    if installs == [] && retire == [] {
      NothingNew(oldSet, d.staged);
    } else {
      var s := RemoveMarker(w, d);
      SameParts(d, s.dir, plan, oldSet);
      var t := Checked(w, s.dir);
      SameParts(d, t.dir, plan, oldSet);
      if s.end == Done && t.end == Done {
        MovedKeeps(w, t.dir.(journal := Some(plan)), installs, retire);
      }
    }
  }

  lemma NothingNew(finals: Files, staged: Files)
    ensures NewSet(finals, staged, [], []) == finals
  {
  }

  /** Recovery, whatever it cannot do, loses no file either, so `OutcomeBefore` and
      `OutcomeAfter` say of its result, too, which set comes out. */
  lemma RecoveryLosesNothing(w: Oracle, d: Dir, plan: Plan, oldSet: Files, newSet: Files)
    requires d.journal == Some(plan)
    requires if d.marker then After(d, plan, oldSet, newSet) else Before(d, plan, oldSet)
    ensures var r := Recovered(w, d);
            && r.end != Failed
            && if d.marker then After(r.dir, plan, oldSet, newSet) else Before(r.dir, plan, oldSet) && !r.dir.marker
  {
    hide OldSafe; hide After; hide Each;
    if d.marker {
      CleanUpKeeps(w, d, plan, oldSet, newSet);
    } else {
      RestoreKeeps(w, d, plan, oldSet);
    }
  }

  lemma RestoreKeeps(w: Oracle, d: Dir, plan: Plan, oldSet: Files)
    requires Before(d, plan, oldSet) && !d.marker
    ensures var r := Restored(w, d, plan); Before(r.dir, plan, oldSet) && !r.dir.marker && r.end != Failed
  {
    hide OldSafe; hide Each; hide RemoveJournal; hide RemoveMarker;
    RemovalsKeep(w, d, plan, oldSet);
    var s := Each(RemoveNew(w, plan), d, plan.installs);
    ReturnsKeep(w, s.dir, plan, oldSet, plan.parks);
    var t := Each(Return(w), s.dir, plan.parks);
    DiscardsKeep(w, t.dir, plan.installs);
    var u := Each(Discard(w), t.dir, plan.installs);
    SameParts(t.dir, u.dir, plan, oldSet);
    var v := RemoveJournal(w, u.dir);
    LastSteps(w, u.dir);
    LastSteps(w, v.dir);
    SameParts(u.dir, v.dir, plan, oldSet);
    SameParts(v.dir, RemoveMarker(w, v.dir).dir, plan, oldSet);
    NeverFails(w, plan, d, plan.installs);
    NeverFails(w, plan, s.dir, plan.parks);
    NeverFails(w, plan, t.dir, plan.installs);
  }

  /** An operation on every file, none of which fails, does not fail. */
  lemma {:induction false} EachEndsUnfailed(f: (Dir, nat) -> Step, d: Dir, names: seq<nat>)
    requires forall x: Dir, n: nat :: f(x, n).end != Failed
    ensures Each(f, d, names).end != Failed
    decreases |names|
  {
    if names != [] && f(d, names[0]).end == Done {
      EachEndsUnfailed(f, f(d, names[0]).dir, names[1..]);
    }
  }

  lemma NeverFails(w: Oracle, plan: Plan, d: Dir, names: seq<nat>)
    ensures Each(RemoveNew(w, plan), d, names).end != Failed && Each(Return(w), d, names).end != Failed
    ensures Each(Discard(w), d, names).end != Failed && Each(TakeBack(w), d, names).end != Failed
  {
    hide Each;
    EachEndsUnfailed(RemoveNew(w, plan), d, names);
    EachEndsUnfailed(Return(w), d, names);
    EachEndsUnfailed(Discard(w), d, names);
    EachEndsUnfailed(TakeBack(w), d, names);
  }

  // ---------------------------------------------------------------- when nothing goes unnoticed

  /** No operation whose result is ignored fails. */
  ghost predicate Noticed(w: Oracle) {
    forall k: nat :: !w.quiet(k).Fails?
  }

  lemma {:induction false} TakesBackAll(w: Oracle, d: Dir, plan: Plan, rest: Files, staged: Files, i: nat)
    requires Noticed(w) && Distinct(plan.installs) && i <= |plan.installs|
    requires forall n :: n in plan.installs ==> n in staged
    requires forall n :: n in plan.installs[..i] ==> n !in rest
    requires d.finals == Over(rest, staged, plan.installs[..i]) && d.staged == Left(staged, plan.installs[..i])
    ensures var s := Each(TakeBack(w), d, Reversed(plan.installs[..i]));
            && (s.end == Done ==> s.dir.finals == rest && s.dir.staged == staged)
            && s.end != Failed
            && s.dir.backups == d.backups && s.dir.journal == d.journal && s.dir.marker == d.marker
    decreases i
  {
    hide Each; hide Over; hide Left; hide Reversed;
    if i == 0 {
      EachEnds(TakeBack(w), d, plan.installs);
      NothingOver(rest, staged, plan.installs);
    } else {
      EachBack(TakeBack(w), d, plan.installs, i);
      assert plan.installs[..i] == plan.installs[..i - 1] + [plan.installs[i - 1]];
      OverBack(rest, staged, plan.installs, i - 1);
      var s := TakeBack(w)(d, plan.installs[i - 1]);
      assert !w.quiet(d.quiet).Fails?;
      if s.end == Done {
        TakesBackAll(w, s.dir, plan, rest, staged, i - 1);
      }
    }
  }

  lemma OverBack(rest: Files, staged: Files, installs: seq<nat>, i: nat)
    requires i < |installs| && Distinct(installs) && installs[i] !in rest
    requires forall n :: n in installs ==> n in staged
    ensures var n, o, l := installs[i], Over(rest, staged, installs[..i + 1]), Left(staged, installs[..i + 1]);
            && n in o && Without(o, n) == Over(rest, staged, installs[..i])
            && l[n := o[n]] == Left(staged, installs[..i])
  {
    hide Over; hide Left;
    OverNext(rest, staged, installs, i);
    var n, o, l := installs[i], Over(rest, staged, installs[..i]), Left(staged, installs[..i]);
    NotYetOver(rest, staged, installs, i);
    assert Without(o[n := staged[n]], n) == o;
    assert Without(l, n)[n := l[n]] == l;
  }

  lemma NotYetOver(rest: Files, staged: Files, installs: seq<nat>, i: nat)
    requires i < |installs| && Distinct(installs) && installs[i] !in rest
    requires forall n :: n in installs ==> n in staged
    ensures installs[i] !in Over(rest, staged, installs[..i])
  {
    assert installs[i] !in installs[..i];
  }

  lemma {:induction false} ReturnsAll(w: Oracle, d: Dir, names: seq<nat>)
    requires Noticed(w)
    ensures var s := Each(Return(w), d, names);
            && s.end != Failed && s.dir.staged == d.staged && s.dir.marker == d.marker
            && (s.end == Done ==> forall n :: n in s.dir.backups ==> n in d.backups && n !in names)
            && (forall n :: n in s.dir.finals ==> n in d.finals || n in d.backups)
    decreases |names|
  {
    if names != [] {
      var s := Return(w)(d, names[0]);
      assert !w.quiet(d.quiet).Fails?;
      if s.end == Done {
        ReturnsAll(w, s.dir, names[1..]);
      }
    }
  }

  lemma {:induction false} RemovesAll(w: Oracle, d: Dir, plan: Plan, names: seq<nat>)
    requires Noticed(w)
    ensures var s := Each(RemoveNew(w, plan), d, names);
            && s.dir.backups == d.backups
            && (forall n :: n in s.dir.finals ==> n in d.finals)
            && (s.end == Done ==> forall n :: n in names && n !in plan.parks ==> n !in s.dir.finals)
    decreases |names|
  {
    if names != [] {
      var s := RemoveNew(w, plan)(d, names[0]);
      assert !w.quiet(d.quiet).Fails?;
      if s.end == Done {
        RemovesAll(w, s.dir, plan, names[1..]);
        var e := Each(RemoveNew(w, plan), s.dir, names[1..]).dir;
        assert names[0] !in plan.parks ==> names[0] !in s.dir.finals;
      }
    }
  }

  lemma {:induction false} DropsAll(w: Oracle, d: Dir, names: seq<nat>)
    requires Noticed(w)
    ensures var s := Each(DropBackup(w), d, names);
            s.end == Done ==> forall n :: n in s.dir.backups ==> n in d.backups && n !in names
    decreases |names|
  {
    if names != [] {
      var s := DropBackup(w)(d, names[0]);
      assert !w.quiet(d.quiet).Fails?;
      if s.end == Done {
        DropsAll(w, s.dir, names[1..]);
      }
    }
  }

  /** A rollback that is not killed leaves the old set, the staged files and nothing
      else; killed, it can be taken up again. */
  lemma RollbackWhole(w: Oracle, d: Dir, plan: Plan, oldSet: Files, rest: Files, staged: Files, i: nat)
    requires Noticed(w) && Before(d, plan, oldSet) && d.journal == Some(plan) && !d.marker
    requires Distinct(plan.installs) && i <= |plan.installs|
    requires forall n :: n in plan.installs ==> n in staged && (n !in plan.parks ==> n !in rest)
    requires forall n :: n in plan.installs[..i] ==> n !in rest && Movable(d, plan, n)
    requires d.finals == Over(rest, staged, plan.installs[..i]) && d.staged == Left(staged, plan.installs[..i])
    ensures var r := RolledBack(w, d, plan, plan.installs[..i]);
            && (r.end == Failed ==> r.dir.finals == oldSet && r.dir.staged == staged && r.dir.backups == map[]
                                    && r.dir.journal == None && !r.dir.marker)
            && (r.end == Killed ==> Outcome(r.dir) == oldSet)
            && r.end != Done
  {
    hide OldSafe; hide Each; hide Reversed; hide Over; hide Left; hide Outcome; hide RemoveJournal; hide AllBack;
    var installed := plan.installs[..i];
    RollbackKeeps(w, d, plan, oldSet, installed);
    ReversedHas(installed);
    TakesBackKeep(w, d, plan, oldSet, Reversed(installed));
    TakesBackAll(w, d, plan, rest, staged, i);
    var s := Each(TakeBack(w), d, Reversed(installed));
    if s.end == Done {
      ReturnsKeep(w, s.dir, plan, oldSet, Reversed(plan.parks));
      ReturnsAll(w, s.dir, Reversed(plan.parks));
      ReversedHas(plan.parks);
      var t := Each(Return(w), s.dir, Reversed(plan.parks));
      if t.end == Done {
        BackupsIn(s.dir, plan, oldSet);
        assert t.dir.backups == map[];
        BackIsOld(t.dir, plan, oldSet);
        Forgotten(w, t.dir);
        var u := RemoveJournal(w, t.dir);
        SameParts(t.dir, u.dir, plan, oldSet);
        OutcomeBefore(u.dir, plan, oldSet);
      } else {
        OutcomeBefore(t.dir, plan, oldSet);
      }
    } else {
      OutcomeBefore(s.dir, plan, oldSet);
    }
  }

  lemma BackupsIn(d: Dir, plan: Plan, oldSet: Files)
    requires OldSafe(d, plan, oldSet)
    ensures forall n :: n in d.backups ==> n in plan.parks && n in oldSet
  {
    forall n | n in d.backups ensures n in plan.parks && n in oldSet {
      assert Safe(d.finals, d.backups, plan, oldSet, n);
    }
  }

  lemma BackIsOld(d: Dir, plan: Plan, oldSet: Files)
    requires OldSafe(d, plan, oldSet) && d.backups == map[]
    requires forall n :: n in plan.installs && n !in plan.parks ==> n !in d.finals
    ensures d.finals == oldSet
  {
    AllBackIsOld(d, plan, oldSet);
  }

  lemma Forgotten(w: Oracle, d: Dir)
    requires Noticed(w)
    ensures var t := RemoveJournal(w, d);
            && t.dir == d.(journal := t.dir.journal, quiet := d.quiet + 1)
            && (t.end == Done ==> t.dir.journal == None) && (t.end == Killed ==> t.dir.journal == d.journal)
            && t.end != Failed
    ensures var t := RemoveMarker(w, d);
            && t.dir == d.(marker := t.dir.marker, quiet := d.quiet + 1)
            && (t.end == Done ==> !t.dir.marker) && (t.end == Killed ==> t.dir.marker == d.marker)
            && t.end != Failed
  {
    assert !w.quiet(d.quiet).Fails?;
  }

  lemma {:induction false} InstallingWhole(w: Oracle, d: Dir, plan: Plan, oldSet: Files, rest: Files, staged: Files, i: nat)
    requires Noticed(w) && Before(d, plan, oldSet) && d.journal == Some(plan) && !d.marker
    requires Distinct(plan.installs) && i <= |plan.installs|
    requires forall n :: n in plan.parks ==> n in d.backups
    requires forall n :: n in plan.installs ==> n in staged && n !in rest
    requires d.finals == Over(rest, staged, plan.installs[..i]) && d.staged == Left(staged, plan.installs[..i])
    ensures var s := Installed(w, d, plan, i);
            && (s.end == Failed ==> s.dir.finals == oldSet && s.dir.staged == staged && s.dir.backups == map[]
                                    && s.dir.journal == None && !s.dir.marker)
            && (s.end == Killed ==> Outcome(s.dir) == oldSet)
    decreases |plan.installs| - i
  {
    hide OldSafe; hide Over; hide Left; hide RolledBack; hide Outcome;
    if i == |plan.installs| {
      var s := Checked(w, d);
      SameParts(d, s.dir, plan, oldSet);
      OutcomeBefore(s.dir, plan, oldSet);
      if s.end == Failed {
        RollbackWhole(w, s.dir, plan, oldSet, rest, staged, i);
      }
    } else {
      var n := plan.installs[i];
      OverNext(rest, staged, plan.installs, i);
      InstallKeeps(w, d, plan, oldSet, n);
      var s := Install(w, d, n);
      OutcomeBefore(s.dir, plan, oldSet);
      if s.end == Failed {
        RollbackWhole(w, s.dir, plan, oldSet, rest, staged, i);
      } else if s.end == Done {
        InstallingWhole(w, s.dir, plan, oldSet, rest, staged, i + 1);
      }
    }
  }

  lemma CleanUpWhole(w: Oracle, d: Dir, plan: Plan, oldSet: Files, newSet: Files)
    requires Noticed(w) && After(d, plan, oldSet, newSet) && d.marker
    ensures var r := CleanedUp(w, d, plan);
            && r.dir.finals == newSet && Outcome(r.dir) == newSet
            && (r.end == Done ==> r.dir.backups == map[] && r.dir.journal == None && !r.dir.marker)
  {
    hide Each; hide RemoveJournal; hide RemoveMarker;
    DropsKeep(w, d, plan, oldSet, newSet);
    DropsAll(w, d, plan.parks);
    var s := Each(DropBackup(w), d, plan.parks);
    var t := RemoveJournal(w, s.dir);
    Forgotten(w, s.dir);
    Forgotten(w, t.dir);
    if s.end == Done {
      assert s.dir.backups == map[];
    }
  }

  lemma MarkingWhole(w: Oracle, d: Dir, plan: Plan, oldSet: Files, newSet: Files)
    requires Noticed(w) && Before(d, plan, oldSet) && d.finals == newSet && d.journal == Some(plan) && !d.marker
    ensures var r := MarkedDone(w, d, plan);
            && (r.end == Done ==> r.dir.finals == newSet && r.dir.backups == map[] && r.dir.journal == None && !r.dir.marker)
            && (Outcome(r.dir) == oldSet || Outcome(r.dir) == newSet)
  {
    hide OldSafe; hide Outcome; hide CleanedUp;
    BackupsParked(d, plan, oldSet, newSet);
    var s := Checked(w, d);
    SameParts(d, s.dir, plan, oldSet);
    OutcomeBefore(s.dir, plan, oldSet);
    var t := Checked(w, s.dir.(marker := true));
    MarkedOutcome(t.dir);
    CleanUpWhole(w, t.dir, plan, oldSet, newSet);
  }

  lemma MarkedOutcome(d: Dir)
    ensures d.marker || d.journal.None? ==> Outcome(d) == d.finals
  {
  }

  lemma MovedWhole(w: Oracle, d: Dir, installs: seq<nat>, retire: seq<nat>)
    requires Noticed(w) && Ready(d.(journal := None), installs, retire) && !d.marker
    requires d.journal == Some(PlanFor(d, installs, retire))
    ensures var plan, r := PlanFor(d, installs, retire), Moved(w, d, PlanFor(d, installs, retire));
            var newSet := NewSet(d.finals, d.staged, installs, retire);
            && (r.end == Done ==> r.dir.finals == newSet && r.dir.backups == map[] && r.dir.journal == None
                                  && !r.dir.marker && r.dir.staged == Left(d.staged, installs))
            && (r.end == Failed ==>
                  || (r.dir.finals == d.finals && r.dir.staged == d.staged && r.dir.backups == map[]
                      && r.dir.journal == None && !r.dir.marker)
                  || (r.dir.finals == newSet && r.dir.journal == Some(plan)))
            && (Outcome(r.dir) == d.finals || Outcome(r.dir) == newSet)
            && (r.end == Failed ==> (r.dir.finals == d.finals && r.dir.journal == None)
                                    || forall k :: d.ops <= k < d.ops + |plan.parks| + |installs| + 1 ==> w.checked(k).Works?)
  {
    hide OldSafe; hide Over; hide RolledBack; hide MarkedDone; hide Each; hide Installed; hide NewSet; hide Left;
    hide Existing; hide Outcome;
    var plan, oldSet := PlanFor(d, installs, retire), d.finals;
    var newSet := NewSet(oldSet, d.staged, installs, retire);
    PlanIs(d, installs, retire);
    MovedKeeps(w, d, installs, retire);
    UntouchedSafe(d.(journal := None), installs, retire);
    SameParts(d.(journal := None), d, plan, oldSet);
    assert plan.parks[0..] == plan.parks && plan.parks[..0] == [] && oldSet - {} == oldSet;
    ParkingKeeps(w, d, plan, oldSet, 0);
    ParkingEnds(w, d, plan.parks);
    var s := Each(Parking(w), d, plan.parks);
    OutcomeBefore(s.dir, plan, oldSet);
    NothingOver(s.dir.finals, s.dir.staged, installs);
    if s.end == Failed {
      assert plan.installs[..0] == [];
      RollbackWhole(w, s.dir, plan, oldSet, s.dir.finals, d.staged, 0);
      MarkedOutcome(RolledBack(w, s.dir, plan, []).dir);
    } else if s.end == Done {
      InstallingWhole(w, s.dir, plan, oldSet, s.dir.finals, d.staged, 0);
      InstallingKeeps(w, s.dir, plan, oldSet, s.dir.finals, d.staged, 0);
      var t := Installed(w, s.dir, plan, 0);
      MarkedOutcome(t.dir);
      if t.end == Done {
        OverIsNew(d.(journal := None), installs, retire, s.dir.backups.Keys);
        MarkingKeeps(w, t.dir, plan, oldSet, newSet);
        MarkingWhole(w, t.dir, plan, oldSet, newSet);
        AfterFinals(MarkedDone(w, t.dir, plan).dir, plan, oldSet, newSet);
      }
    }
  }

  lemma AfterFinals(d: Dir, plan: Plan, oldSet: Files, newSet: Files)
    requires After(d, plan, oldSet, newSet)
    ensures d.finals == newSet
  {
  }

  /** When no ignored operation fails, a commit is all or nothing: done, the new set is
      there and nothing else; failed, the old set with the staged files, or the new set
      with the journal that still decides; and wherever it ends or is killed, the next
      process makes of it one of the two sets. */
  lemma CommitWhole(w: Oracle, d: Dir, installs: seq<nat>, retire: seq<nat>)
    requires Noticed(w) && Ready(d, installs, retire) && (installs != [] || retire != [])
    ensures var plan, r := PlanFor(d, installs, retire), Committed(w, d, installs, retire);
            var newSet := NewSet(d.finals, d.staged, installs, retire);
            && (r.end == Done ==> r.dir.finals == newSet && r.dir.backups == map[] && r.dir.journal == None
                                  && !r.dir.marker && r.dir.staged == Left(d.staged, installs))
            && (r.end == Failed ==>
                  || (r.dir.finals == d.finals && r.dir.staged == d.staged && r.dir.backups == map[]
                      && r.dir.journal == None && !r.dir.marker)
                  || (r.dir.finals == newSet && r.dir.journal == Some(plan)))
            && (Outcome(r.dir) == d.finals || Outcome(r.dir) == newSet)
  {
    hide Moved; hide NewSet; hide Left; hide Existing; hide Outcome; hide RemoveMarker;
    Forgotten(w, d);
    var s := RemoveMarker(w, d);
    MarkedOutcome(s.dir);
    if s.end == Done {
      var t := Checked(w, s.dir);
      MarkedOutcome(t.dir);
      if t.end == Done {
        MovedWhole(w, t.dir.(journal := Some(PlanFor(d, installs, retire))), installs, retire);
      }
    }
  }

  /** Recovery changes nothing about which set comes out, however often it is killed, and
      run to its end it has brought that set out. */
  lemma RecoveryWhole(w: Oracle, d: Dir, plan: Plan, oldSet: Files, newSet: Files)
    requires Noticed(w)
    requires d.journal.None? || (d.journal == Some(plan)
                                 && if d.marker then After(d, plan, oldSet, newSet) else Before(d, plan, oldSet))
    ensures var r := Recovered(w, d);
            && Outcome(r.dir) == Outcome(d)
            && (r.end == Done ==> r.dir.finals == Outcome(d) && r.dir.journal == None && !r.dir.marker)
  {
    hide OldSafe; hide Each; hide Outcome; hide Restored; hide RemoveMarker; hide AllBack; hide Replaces;
    MarkedOutcome(d);
    MarkedOutcome(Recovered(w, d).dir);
    if d.journal.None? {
      Forgotten(w, d);
    } else if d.marker {
      CleanUpWhole(w, d, plan, oldSet, newSet);
    } else {
      OutcomeBefore(d, plan, oldSet);
      RestoreWhole(w, d, plan, oldSet);
    }
  }

  lemma RestoreWhole(w: Oracle, d: Dir, plan: Plan, oldSet: Files)
    requires Noticed(w) && Before(d, plan, oldSet) && d.journal == Some(plan) && !d.marker
    ensures var r := Restored(w, d, plan);
            && Outcome(r.dir) == oldSet
            && (r.end == Done ==> r.dir.finals == oldSet && r.dir.journal == None && !r.dir.marker)
  {
    hide OldSafe; hide Each; hide RemoveJournal; hide RemoveMarker; hide Outcome; hide AllBack;
    RemovalsKeep(w, d, plan, oldSet);
    RemovesAll(w, d, plan, plan.installs);
    var s := Each(RemoveNew(w, plan), d, plan.installs);
    OutcomeBefore(s.dir, plan, oldSet);
    ReturnsKeep(w, s.dir, plan, oldSet, plan.parks);
    ReturnsAll(w, s.dir, plan.parks);
    BackupsIn(s.dir, plan, oldSet);
    var t := Each(Return(w), s.dir, plan.parks);
    OutcomeBefore(t.dir, plan, oldSet);
    DiscardsKeep(w, t.dir, plan.installs);
    var u := Each(Discard(w), t.dir, plan.installs);
    SameParts(t.dir, u.dir, plan, oldSet);
    OutcomeBefore(u.dir, plan, oldSet);
    if s.end == Done && t.end == Done {
      assert t.dir.backups == map[];
      BackIsOld(t.dir, plan, oldSet);
      Forgotten(w, u.dir);
      var v := RemoveJournal(w, u.dir);
      Forgotten(w, v.dir);
      SameParts(u.dir, v.dir, plan, oldSet);
      OutcomeBefore(v.dir, plan, oldSet);
      MarkedOutcome(v.dir);
      MarkedOutcome(RemoveMarker(w, v.dir).dir);
    }
  }

  // ---------------------------------------------------------------- what a recovery makes of each file

  /** The same files, but for `gone`. */
  ghost predicate AllBut(files: Files, after: Files, gone: set<nat>) {
    forall n: nat :: Lookup(after, n) == if n in gone then None else Lookup(files, n)
  }

  lemma {:induction false} DiscardsEach(w: Oracle, d: Dir, names: seq<nat>)
    requires Noticed(w) && Each(Discard(w), d, names).end == Done
    ensures var e := Each(Discard(w), d, names).dir;
            AllBut(d.staged, e.staged, set n | n in names) && e == d.(staged := e.staged, quiet := e.quiet)
    decreases |names|
  {
    if names != [] {
      var s := Discard(w)(d, names[0]);
      assert !w.quiet(d.quiet).Fails?;
      DiscardsEach(w, s.dir, names[1..]);
      assert forall n :: n in names <==> n == names[0] || n in names[1..];
    }
  }

  lemma {:induction false} DropsEach(w: Oracle, d: Dir, names: seq<nat>)
    requires Noticed(w) && Each(DropBackup(w), d, names).end == Done
    ensures var e := Each(DropBackup(w), d, names).dir;
            AllBut(d.backups, e.backups, set n | n in names) && e == d.(backups := e.backups, quiet := e.quiet)
    decreases |names|
  {
    if names != [] {
      var s := DropBackup(w)(d, names[0]);
      assert !w.quiet(d.quiet).Fails?;
      DropsEach(w, s.dir, names[1..]);
      assert forall n :: n in names <==> n == names[0] || n in names[1..];
    }
  }

  lemma {:induction false} RemovesEach(w: Oracle, d: Dir, plan: Plan, names: seq<nat>)
    requires Noticed(w) && Each(RemoveNew(w, plan), d, names).end == Done
    ensures var e := Each(RemoveNew(w, plan), d, names).dir;
            && AllBut(d.finals, e.finals, set n | n in names && (n !in plan.parks || n in d.backups))
            && e == d.(finals := e.finals, quiet := e.quiet)
    decreases |names|
  {
    if names != [] {
      var s := RemoveNew(w, plan)(d, names[0]);
      assert !w.quiet(d.quiet).Fails?;
      RemovesEach(w, s.dir, plan, names[1..]);
      assert forall n :: n in names <==> n == names[0] || n in names[1..];
    }
  }

  lemma {:induction false} ReturnsEach(w: Oracle, d: Dir, names: seq<nat>)
    requires Noticed(w) && Each(Return(w), d, names).end == Done
    ensures var e := Each(Return(w), d, names).dir;
            && AllBut(d.backups, e.backups, set n | n in names)
            && (forall n: nat ::
                  Lookup(e.finals, n)
                  == if n in names && n in d.backups then Lookup(d.backups, n) else Lookup(d.finals, n))
            && e == d.(finals := e.finals, backups := e.backups, quiet := e.quiet)
    decreases |names|
  {
    if names != [] {
      var s := Return(w)(d, names[0]);
      assert !w.quiet(d.quiet).Fails?;
      ReturnsEach(w, s.dir, names[1..]);
      assert forall n :: n in names <==> n == names[0] || n in names[1..];
    }
  }

  /** What a recovery that runs to its end leaves, file by file: with the marker there it
      drops what is parked and nothing else; without it every parked file is final again,
      no other new file is, and nothing of the commit is staged or parked any more; without
      a journal it touches no file. */
  lemma RecoveryLeaves(w: Oracle, d: Dir)
    requires Noticed(w) && Recovered(w, d).end == Done
    ensures var r := Recovered(w, d).dir;
            && r.journal.None? && !r.marker
            && match d.journal
               case None => r.finals == d.finals && r.staged == d.staged && r.backups == d.backups
               case Some(plan) =>
                 && AllBut(d.backups, r.backups, set n | n in plan.parks)
                 && if d.marker then r.finals == d.finals && r.staged == d.staged
                    else
                      && AllBut(d.staged, r.staged, set n | n in plan.installs)
                      && forall n: nat ::
                           Lookup(r.finals, n)
                           == if n in plan.parks && n in d.backups then Lookup(d.backups, n)
                              else if n in plan.installs && n !in plan.parks then None
                              else Lookup(d.finals, n)
  {
    hide Each; hide RemoveJournal; hide RemoveMarker; hide Lookup;
    if d.journal.None? {
      Forgotten(w, d);
    } else if d.marker {
      var s := Each(DropBackup(w), d, d.journal.value.parks);
      DropsEach(w, d, d.journal.value.parks);
      Forgotten(w, s.dir);
      Forgotten(w, RemoveJournal(w, s.dir).dir);
    } else {
      RestoreLeaves(w, d, d.journal.value);
    }
  }

  lemma RestoreLeaves(w: Oracle, d: Dir, plan: Plan)
    requires Noticed(w) && Restored(w, d, plan).end == Done
    ensures var r := Restored(w, d, plan).dir;
            && r.journal.None? && !r.marker
            && AllBut(d.backups, r.backups, set n | n in plan.parks)
            && AllBut(d.staged, r.staged, set n | n in plan.installs)
            && forall n: nat ::
                 Lookup(r.finals, n)
                 == if n in plan.parks && n in d.backups then Lookup(d.backups, n)
                    else if n in plan.installs && n !in plan.parks then None
                    else Lookup(d.finals, n)
  {
    hide Each; hide RemoveJournal; hide RemoveMarker; hide Lookup;
    var s := Each(RemoveNew(w, plan), d, plan.installs);
    RemovesEach(w, d, plan, plan.installs);
    var t := Each(Return(w), s.dir, plan.parks);
    ReturnsEach(w, s.dir, plan.parks);
    var u := Each(Discard(w), t.dir, plan.installs);
    DiscardsEach(w, t.dir, plan.installs);
    Forgotten(w, u.dir);
    Forgotten(w, RemoveJournal(w, u.dir).dir);
    SomeBackups(d);
  }

  lemma SomeBackups(d: Dir)
    ensures forall n :: n in d.backups ==> Lookup(d.backups, n).Some?
  {
  }

  // ---------------------------------------------------------------- exactly when a failure leaves the new set

  /** How many checked operations come before the marker: the journal, every park, every
      installation, and the flush of the directory. */
  function MarkerAt(d: Dir, installs: seq<nat>, retire: seq<nat>): nat {
    d.ops + 1 + |PlanFor(d, installs, retire).parks| + |installs| + 1
  }

  ghost predicate WorksUpTo(w: Oracle, d: Dir, m: nat) {
    forall k :: d.ops <= k < m ==> w.checked(k).Works?
  }

  /** A commit reports a failure with the new set in place if and only if everything
      before the marker works and then writing the marker, or flushing it, fails. */
  lemma FailsWithNewSetExactly(w: Oracle, d: Dir, installs: seq<nat>, retire: seq<nat>)
    requires Noticed(w) && !w.quiet(d.quiet).Kills? && Ready(d, installs, retire)
    requires NewSet(d.finals, d.staged, installs, retire) != d.finals
    ensures var r, m := Committed(w, d, installs, retire), MarkerAt(d, installs, retire);
            r.end == Failed && r.dir.finals == NewSet(d.finals, d.staged, installs, retire)
            <==> WorksUpTo(w, d, m)
                 && (w.checked(m).Fails? || (w.checked(m).Works? && w.checked(m + 1).Fails?))
  {
    hide Moved; hide NewSet; hide Existing; hide RemoveMarker; hide MarkedDone; hide Each; hide Installed;
    hide OldSafe; hide After; hide Outcome; hide Left; hide Distinct; hide Before;
    var plan, newSet := PlanFor(d, installs, retire), NewSet(d.finals, d.staged, installs, retire);
    if installs == [] && retire == [] {
      NothingNew(d.finals, d.staged);
    } else {
      Forgotten(w, d);
      NotKilled(w, d);
      var t := Checked(w, RemoveMarker(w, d).dir);
      if t.end == Done {
        var e := t.dir.(journal := Some(plan));
        MovedWhole(w, e, installs, retire);
        MovedKeeps(w, e, installs, retire);
        if WorksUpTo(w, d, MarkerAt(d, installs, retire)) {
          var f := Installed(w, Each(Parking(w), e, plan.parks).dir, plan, 0).dir;
          MarkingKeeps(w, f, plan, d.finals, newSet);
          AfterFinals(MarkedDone(w, f, plan).dir, plan, d.finals, newSet);
        } else {
          forall k | e.ops <= k < e.ops + |plan.parks| + |installs| + 1
            ensures WorksUpTo(w, d, k) && w.checked(d.ops).Works? ==> true
          {
          }
        }
      }
    }
  }

  lemma NotKilled(w: Oracle, d: Dir)
    requires !w.quiet(d.quiet).Kills?
    ensures RemoveMarker(w, d).end == Done && RemoveMarker(w, d).dir.ops == d.ops
  {
  }
}
