/** Exactly when a journaled commit loses a set: for every fate of every operation, those
    whose failure goes unnoticed included, which set comes out in the end. */
module JournalLosses {
  import opened Options
  import opened Journal
  import opened JournalOutcome

  // ---------------------------------------------------------------- exactly which ignored failures lose a set

  /** The files whose turn fails, when the turns start at quiet operation `q`. */
  function Missed(w: Oracle, q: nat, names: seq<nat>): set<nat>
    decreases |names|
  {
    if names == [] then {}
    else (if w.quiet(q).Works? then {} else {names[0]}) + Missed(w, q + 1, names[1..])
  }

  /** Those of them that cost the file in their place. */
  function TornAway(w: Oracle, q: nat, names: seq<nat>): set<nat>
    decreases |names|
  {
    if names == [] then {}
    else (if !w.quiet(q).Works? && w.tears(q) then {names[0]} else {}) + TornAway(w, q + 1, names[1..])
  }

  lemma {:induction false} MissedAmong(w: Oracle, q: nat, names: seq<nat>)
    ensures forall n :: n in Missed(w, q, names) ==> n in names
    ensures TornAway(w, q, names) <= Missed(w, q, names)
    decreases |names|
  {
    if names != [] {
      MissedAmong(w, q + 1, names[1..]);
    }
  }

  /** What dropping leaves: of these backups only those in `missed`. */
  ghost predicate DroppedBut(d: Dir, e: Dir, names: seq<nat>, missed: set<nat>) {
    && (forall n :: n in e.backups <==> n in d.backups && (n !in names || n in missed))
    && (forall n :: n in e.backups ==> e.backups[n] == d.backups[n])
  }

  lemma {:induction false} DropsExactly(w: Oracle, d: Dir, names: seq<nat>)
    requires Distinct(names) && Each(DropBackup(w), d, names).end == Done
    ensures var e := Each(DropBackup(w), d, names).dir;
            && e == d.(backups := e.backups, quiet := d.quiet + |names|)
            && DroppedBut(d, e, names, Missed(w, d.quiet, names))
    decreases |names|
  {
    hide Distinct; hide Missed; hide DroppedBut; hide Each;
    if names == [] {
      NoneDropped(w, d);
    } else {
      var s := DropBackup(w)(d, names[0]);
      EachHead(DropBackup(w), d, names);
      TailDistinct(names);
      MissedAmong(w, d.quiet + 1, names[1..]);
      DropsExactly(w, s.dir, names[1..]);
      OneDropped(w, d, names, Each(DropBackup(w), d, names).dir, Missed(w, d.quiet + 1, names[1..]));
      MissedHead(w, d.quiet, names);
    }
  }

  lemma NoneDropped(w: Oracle, d: Dir)
    ensures DroppedBut(d, d, [], Missed(w, d.quiet, [])) && Each(DropBackup(w), d, []).dir == d
  {
  }

  lemma OneDropped(w: Oracle, d: Dir, names: seq<nat>, e: Dir, missed: set<nat>)
    requires names != [] && names[0] !in names[1..] && names[0] !in missed
    requires DropBackup(w)(d, names[0]).end == Done
    requires DroppedBut(DropBackup(w)(d, names[0]).dir, e, names[1..], missed)
    ensures DroppedBut(d, e, names, missed + if w.quiet(d.quiet).Works? then {} else {names[0]})
  {
    assert names == [names[0]] + names[1..];
  }

  /** A commit that reports success loses the new set exactly when the journal's removal
      goes wrong unnoticed and the marker's does not, and rolling back then changes
      something: a file was installed where none had been, or a parked file whose
      removal went wrong as well differs from the one in its place. */
  lemma DoneLosesExactly(w: Oracle, d: Dir, installs: seq<nat>, retire: seq<nat>)
    requires Ready(d, installs, retire) && (installs != [] || retire != [])
    requires Committed(w, d, installs, retire).end == Done
    ensures var parks, r := PlanFor(d, installs, retire).parks, Committed(w, d, installs, retire);
            var newSet, j := NewSet(d.finals, d.staged, installs, retire), d.quiet + 1 + |parks|;
            && r.dir.finals == newSet
            && (Outcome(r.dir) != newSet <==>
                  && w.quiet(j).Fails? && w.quiet(j + 1).Works?
                  && ((exists n :: n in installs && n !in d.finals)
                      || exists n :: n in Missed(w, d.quiet + 1, parks) && Lookup(newSet, n) != Lookup(d.finals, n)))
  {
    hide Moved; hide NewSet; hide Existing; hide Outcome; hide MarkedDone; hide Each; hide Installed; hide OldSafe;
    hide Missed;
    var plan, newSet := PlanFor(d, installs, retire), NewSet(d.finals, d.staged, installs, retire);
    PlanIs(d, installs, retire);
    var e := Checked(w, RemoveMarker(w, d).dir).dir.(journal := Some(plan));
    MovedKeeps(w, e, installs, retire);
    var f := Installed(w, Each(Parking(w), e, plan.parks).dir, plan, 0).dir;
    BackupsParked(f, plan, d.finals, newSet);
    MarkedCleansUp(w, f, plan);
    var g := f.(marker := true, ops := f.ops + 2);
    AfterSame(f, g, plan, d.finals, newSet);
    InNewSet(d, installs, retire);
    CleanUpLosesExactly(w, g, plan, d.finals, newSet);
  }

  lemma InNewSet(d: Dir, installs: seq<nat>, retire: seq<nat>)
    requires forall n :: n in installs ==> n in d.staged
    ensures forall n :: n in installs ==> n in NewSet(d.finals, d.staged, installs, retire)
  {
  }

  lemma MarkedCleansUp(w: Oracle, d: Dir, plan: Plan)
    requires MarkedDone(w, d, plan).end == Done
    ensures MarkedDone(w, d, plan) == CleanedUp(w, d.(marker := true, ops := d.ops + 2), plan)
  {
    hide CleanedUp;
  }

  lemma CleanUpLosesExactly(w: Oracle, d: Dir, plan: Plan, oldSet: Files, newSet: Files)
    requires After(d, plan, oldSet, newSet) && d.journal == Some(plan) && d.marker
    requires Distinct(plan.parks) && (forall n :: n in plan.parks <==> n in d.backups)
    requires CleanedUp(w, d, plan).end == Done && forall n :: n in plan.installs ==> n in newSet
    ensures var r, j := CleanedUp(w, d, plan), d.quiet + |plan.parks|;
            Outcome(r.dir) != newSet <==>
              && w.quiet(j).Fails? && w.quiet(j + 1).Works?
              && ((exists n :: n in plan.installs && n !in plan.parks)
                  || exists n :: n in Missed(w, d.quiet, plan.parks) && Lookup(newSet, n) != Lookup(oldSet, n))
  {
    hide Each; hide Outcome; hide CleanedUp; hide Missed; hide Distinct; hide Lookup; hide After;
    CleanUpEnds(w, d, plan);
    MissedAmong(w, d.quiet, plan.parks);
    CleanUpKeeps(w, d, plan, oldSet, newSet);
    var r := CleanedUp(w, d, plan);
    OutcomeAfter(r.dir, plan, oldSet, newSet);
    ReplacesExactly(d, r.dir, plan, oldSet, newSet, Missed(w, d.quiet, plan.parks));
  }

  lemma CleanUpEnds(w: Oracle, d: Dir, plan: Plan)
    requires CleanedUp(w, d, plan).end == Done && Distinct(plan.parks) && d.marker && d.journal.Some?
    ensures var r, j := CleanedUp(w, d, plan).dir, d.quiet + |plan.parks|;
            && (r.journal.Some? <==> w.quiet(j).Fails?) && (!r.marker <==> w.quiet(j + 1).Works?)
            && (forall n :: n in r.backups <==> n in d.backups && (n !in plan.parks || n in Missed(w, d.quiet, plan.parks)))
  {
    hide Each; hide Missed; hide Distinct;
    DropsExactly(w, d, plan.parks);
  }

  lemma ReplacesExactly(d: Dir, r: Dir, plan: Plan, oldSet: Files, newSet: Files, missed: set<nat>)
    requires After(d, plan, oldSet, newSet) && After(r, plan, oldSet, newSet)
    requires (forall n :: n in plan.parks <==> n in d.backups) && forall n :: n in missed ==> n in plan.parks
    requires forall n :: n in r.backups <==> n in d.backups && (n !in plan.parks || n in missed)
    ensures !Replaces(r, plan) <==>
              (exists n :: n in plan.installs && n !in plan.parks)
              || exists n :: n in missed && Lookup(newSet, n) != Lookup(oldSet, n)
  {
    hide Lookup;
    if n :| n in missed && Lookup(newSet, n) != Lookup(oldSet, n) {
      assert n in r.backups;
    }
  }

  // ---------------------------------------------------------------- rolling back

  /** What a rollback misses: of the installed files, of the parked ones, and which of
      those cost it the file in their place. */
  datatype Damage = Damage(kept: set<nat>, aside: set<nat>, torn: set<nat>)

  /** The new files that were not taken back had all replaced one, and the parked files
      that were not returned were all replaced by an equal one that stayed. */
  predicate Harmless(damage: Damage, plan: Plan, placed: Files, oldSet: Files) {
    && (forall n :: n in damage.kept ==> n in plan.parks)
    && (forall n :: n in damage.aside ==>
          n in damage.kept && n !in damage.torn && Lookup(placed, n) == Lookup(oldSet, n))
  }

  /** The files whose parked copies are there, in order. */
  function Present(names: seq<nat>, backups: Files): seq<nat> {
    if names == [] then []
    else (if names[0] in backups then [names[0]] else []) + Present(names[1..], backups)
  }

  /** What taking back leaves: of these finals only those in `kept`. */
  ghost predicate TakenBut(d: Dir, e: Dir, names: seq<nat>, kept: set<nat>) {
    && e.backups == d.backups
    && (forall n :: n in e.finals <==> n in d.finals && (n !in names || n in kept))
    && (forall n :: n in e.finals ==> e.finals[n] == d.finals[n])
  }

  lemma {:induction false} TakesBackExactly(w: Oracle, d: Dir, names: seq<nat>)
    requires Distinct(names) && (forall n :: n in names ==> n in d.finals)
    requires Each(TakeBack(w), d, names).end == Done
    ensures var e := Each(TakeBack(w), d, names).dir;
            && TakenBut(d, e, names, Missed(w, d.quiet, names))
            && e.quiet == d.quiet + |names| && e.journal == d.journal && e.backups == d.backups
    decreases |names|
  {
    hide TakenBut; hide Distinct; hide Missed; hide Each;
    if names == [] {
      NoneTaken(w, d);
    } else {
      var s := TakeBack(w)(d, names[0]);
      EachHead(TakeBack(w), d, names);
      TailDistinct(names);
      assert names[0] in names;
      forall n | n in names[1..] ensures n in s.dir.finals {
        assert n in names;
      }
      TakesBackExactly(w, s.dir, names[1..]);
      MissedAmong(w, s.dir.quiet, names[1..]);
      OneTaken(w, d, names, Each(TakeBack(w), d, names).dir, Missed(w, s.dir.quiet, names[1..]));
      MissedHead(w, d.quiet, names);
    }
  }

  lemma NoneTaken(w: Oracle, d: Dir)
    ensures TakenBut(d, Each(TakeBack(w), d, []).dir, [], Missed(w, d.quiet, [])) && Each(TakeBack(w), d, []).dir == d
  {
  }

  lemma MissedHead(w: Oracle, q: nat, names: seq<nat>)
    requires names != []
    ensures Missed(w, q, names) == Missed(w, q + 1, names[1..]) + if w.quiet(q).Works? then {} else {names[0]}
  {
  }

  lemma OneTaken(w: Oracle, d: Dir, names: seq<nat>, e: Dir, kept: set<nat>)
    requires names != [] && names[0] !in names[1..] && names[0] !in kept && names[0] in d.finals
    requires TakeBack(w)(d, names[0]).end == Done
    requires TakenBut(TakeBack(w)(d, names[0]).dir, e, names[1..], kept)
    ensures TakenBut(d, e, names, kept + if w.quiet(d.quiet).Works? then {} else {names[0]})
  {
    hide Distinct; hide Lookup;
    assert names == [names[0]] + names[1..];
  }

  lemma PresentStays(names: seq<nat>, backups: Files, n: nat)
    requires n !in names
    ensures Present(names, Without(backups, n)) == Present(names, backups)
  {
    if names != [] {
      assert names[0] in names;
      PresentStays(names[1..], backups, n);
    }
  }

  lemma {:induction false} PresentAmong(names: seq<nat>, backups: Files)
    ensures forall n :: n in Present(names, backups) <==> n in names && n in backups
  {
    if names != [] {
      PresentAmong(names[1..], backups);
    }
  }

  /** What returning leaves: the backups in `aside`, those in `torn` without the file in
      their place, and the others in it. */
  ghost predicate ReturnedBut(d: Dir, e: Dir, names: seq<nat>, aside: set<nat>, torn: set<nat>) {
    && (forall n :: n in e.backups <==> n in d.backups && (n !in names || n in aside))
    && (forall n :: n in e.backups ==> e.backups[n] == d.backups[n])
    && (forall n :: Lookup(e.finals, n)
          == if n in d.backups && n in names && n !in aside then Some(d.backups[n])
             else if n in torn then None
             else Lookup(d.finals, n))
  }

  lemma {:induction false} ReturnsExactly(w: Oracle, d: Dir, names: seq<nat>)
    requires Distinct(names) && Each(Return(w), d, names).end == Done
    ensures var e, present := Each(Return(w), d, names).dir, Present(names, d.backups);
            && ReturnedBut(d, e, names, Missed(w, d.quiet, present), TornAway(w, d.quiet, present))
            && e.quiet == d.quiet + |present|
    decreases |names|
  {
    hide ReturnedBut; hide Distinct; hide Missed; hide TornAway; hide Each; hide Present;
    if names == [] {
      NoneReturned(w, d);
    } else {
      var s := Return(w)(d, names[0]);
      EachHead(Return(w), d, names);
      TailDistinct(names);
      PresentStays(names[1..], d.backups, names[0]);
      ReturnsExactly(w, s.dir, names[1..]);
      var present := Present(names[1..], d.backups);
      MissedAmong(w, s.dir.quiet, present);
      PresentAmong(names[1..], d.backups);
      OneReturned(w, d, names, Each(Return(w), d, names).dir, Missed(w, s.dir.quiet, present),
                  TornAway(w, s.dir.quiet, present));
      PresentHead(w, names, d.backups, d.quiet);
    }
  }

  lemma EachHead(f: (Dir, nat) -> Step, d: Dir, names: seq<nat>)
    requires names != []
    ensures Each(f, d, names) == var s := f(d, names[0]); if s.end != Done then s else Each(f, s.dir, names[1..])
  {
  }

  /** The first name, when its parked copy is there, takes the first quiet operation. */
  lemma PresentHead(w: Oracle, names: seq<nat>, backups: Files, q: nat)
    requires names != []
    ensures var rest := Present(names[1..], backups);
            if names[0] in backups then
              && |Present(names, backups)| == |rest| + 1
              && Missed(w, q, Present(names, backups))
                 == Missed(w, q + 1, rest) + (if w.quiet(q).Works? then {} else {names[0]})
              && TornAway(w, q, Present(names, backups))
                 == TornAway(w, q + 1, rest) + (if !w.quiet(q).Works? && w.tears(q) then {names[0]} else {})
            else
              && Present(names, backups) == rest && Missed(w, q, rest) + {} == Missed(w, q, rest)
              && TornAway(w, q, rest) + {} == TornAway(w, q, rest)
  {
    var rest := Present(names[1..], backups);
    assert ([names[0]] + rest)[1..] == rest;
  }

  lemma TailDistinct(names: seq<nat>)
    requires Distinct(names) && names != []
    ensures Distinct(names[1..]) && names[0] !in names[1..]
  {
    forall i, j | 0 <= i < j < |names[1..]| ensures names[1..][i] != names[1..][j] {
    }
  }

  lemma NoneReturned(w: Oracle, d: Dir)
    ensures ReturnedBut(d, Each(Return(w), d, []).dir, [], Missed(w, d.quiet, Present([], d.backups)),
                        TornAway(w, d.quiet, Present([], d.backups)))
    ensures Each(Return(w), d, []).dir == d && Present([], d.backups) == []
  {
  }

  lemma OneReturned(w: Oracle, d: Dir, names: seq<nat>, e: Dir, aside: set<nat>, torn: set<nat>)
    requires names != [] && names[0] !in names[1..] && names[0] !in aside && torn <= aside
    requires Return(w)(d, names[0]).end == Done
    requires ReturnedBut(Return(w)(d, names[0]).dir, e, names[1..], aside, torn)
    ensures var missed := names[0] in d.backups && !w.quiet(d.quiet).Works?;
            ReturnedBut(d, e, names, aside + (if missed then {names[0]} else {}),
                        torn + if missed && w.tears(d.quiet) then {names[0]} else {})
  {
    hide Return; hide Lookup; hide Distinct;
    var missed := names[0] in d.backups && !w.quiet(d.quiet).Works?;
    var s, all := Return(w)(d, names[0]).dir, aside + if missed then {names[0]} else {};
    var away := torn + if missed && w.tears(d.quiet) then {names[0]} else {};
    assert names == [names[0]] + names[1..];
    forall n: nat
      ensures Lookup(e.finals, n)
           == if n in d.backups && n in names && n !in all then Some(d.backups[n])
              else if n in away then None
              else Lookup(d.finals, n)
      ensures n in e.backups <==> n in d.backups && (n !in names || n in all)
      ensures n in e.backups ==> e.backups[n] == d.backups[n]
    {
      OneReturn(w, d, names[0], n);
    }
  }

  lemma OneReturn(w: Oracle, d: Dir, name: nat, n: nat)
    requires Return(w)(d, name).end == Done
    ensures var s, works := Return(w)(d, name).dir, w.quiet(d.quiet).Works?;
            && (n in s.backups <==> n in d.backups && !(n == name && works))
            && (n in s.backups ==> s.backups[n] == d.backups[n])
            && Lookup(s.finals, n)
               == if n != name || name !in d.backups then Lookup(d.finals, n)
                  else if works then Some(d.backups[n])
                  else if w.tears(d.quiet) then None
                  else Lookup(d.finals, n)
  {
  }

  lemma {:induction false} ReversedDistinct(names: seq<nat>)
    requires Distinct(names)
    ensures Distinct(Reversed(names)) && |Reversed(names)| == |names|
  {
    if names != [] {
      var front, last := names[..|names| - 1], names[|names| - 1];
      ReversedDistinct(front);
      ReversedHas(front);
      assert last !in front;
      assert forall k :: 0 <= k < |Reversed(front)| ==> Reversed(front)[k] in Reversed(front);
    }
  }

  /** A rollback that runs to its end brings the old set back exactly when every new file
      it could not take back had replaced one, and every parked file it could not return
      is, by chance, the same as the new one still left in its place. Otherwise the old
      set is lost, unless forgetting the journal went wrong as well and no stale marker
      contradicts it. */
  lemma RollbackLosesExactly(w: Oracle, d: Dir, plan: Plan, oldSet: Files, installed: seq<nat>)
    requires Before(d, plan, oldSet) && d.journal == Some(plan)
    requires Distinct(installed) && Distinct(plan.parks)
    requires forall n :: n in installed ==> n in plan.installs && n in d.finals && Movable(d, plan, n)
    requires forall n :: n in d.finals && (n in d.backups || (n in plan.installs && n !in plan.parks)) ==> n in installed
    requires RolledBack(w, d, plan, installed).end == Failed
    ensures var r := RolledBack(w, d, plan, installed);
            var present := Present(Reversed(plan.parks), d.backups);
            var kept, aside := Missed(w, d.quiet, Reversed(installed)), Missed(w, d.quiet + |installed|, present);
            var torn := TornAway(w, d.quiet + |installed|, present);
            && (r.dir.finals == oldSet <==> Harmless(Damage(kept, aside, torn), plan, d.finals, oldSet))
            && (Outcome(r.dir) == oldSet <==>
                  r.dir.finals == oldSet || (!d.marker && w.quiet(d.quiet + |installed| + |present|).Fails?))
  {
    hide OldSafe; hide Outcome; hide Missed; hide TornAway; hide Present; hide Reversed; hide Movable;
    hide RolledBack; hide AllBack; hide Harmless; hide TakenBut; hide ReturnedBut; hide Lookup; hide Distinct;
    RollbackKeeps(w, d, plan, oldSet, installed);
    var r := RolledBack(w, d, plan, installed);
    var present := Present(Reversed(plan.parks), d.backups);
    var kept, aside := Missed(w, d.quiet, Reversed(installed)), Missed(w, d.quiet + |installed|, present);
    AllBackIsOld(r.dir, plan, oldSet);
    OutcomeBefore(r.dir, plan, oldSet);
    RollbackParts(w, d, plan, installed);
    ReversedHas(installed);
    MissedAmong(w, d.quiet, Reversed(installed));
    PresentAmong(Reversed(plan.parks), d.backups);
    MissedAmong(w, d.quiet + |installed|, present);
    BackExactly(d, RollbackTaken(w, d, installed), r.dir, plan, oldSet, installed, kept, aside,
                TornAway(w, d.quiet + |installed|, present));
  }

  function RollbackTaken(w: Oracle, d: Dir, installed: seq<nat>): Dir {
    Each(TakeBack(w), d, Reversed(installed)).dir
  }

  /** What a rollback leaves, file by file. */
  lemma RollbackParts(w: Oracle, d: Dir, plan: Plan, installed: seq<nat>)
    requires Distinct(installed) && Distinct(plan.parks)
    requires forall n :: n in installed ==> n in d.finals
    requires RolledBack(w, d, plan, installed).end == Failed
    ensures var s, r := RollbackTaken(w, d, installed), RolledBack(w, d, plan, installed).dir;
            var present := Present(Reversed(plan.parks), d.backups);
            && TakenBut(d, s, Reversed(installed), Missed(w, d.quiet, Reversed(installed)))
            && ReturnedBut(s, r, Reversed(plan.parks), Missed(w, d.quiet + |installed|, present),
                           TornAway(w, d.quiet + |installed|, present))
            && (r.journal.None? <==> d.journal.None? || !w.quiet(d.quiet + |installed| + |present|).Fails?)
  {
    hide *;
    RollbackUnfolds(w, d, plan, installed);
    ReversedDistinct(installed);
    ReversedDistinct(plan.parks);
    ReversedHas(installed);
    TakesBackExactly(w, d, Reversed(installed));
    var s := RollbackTaken(w, d, installed);
    ReturnsExactly(w, s, Reversed(plan.parks));
    ReturnsJournal(w, s, Reversed(plan.parks));
    var t := Each(Return(w), s, Reversed(plan.parks)).dir;
    ForgetsUnlessFails(w, t);
    ReturnedSame(s, t, RemoveJournal(w, t).dir, Reversed(plan.parks),
                 Missed(w, d.quiet + |installed|, Present(Reversed(plan.parks), d.backups)),
                 TornAway(w, d.quiet + |installed|, Present(Reversed(plan.parks), d.backups)));
  }

  lemma RollbackUnfolds(w: Oracle, d: Dir, plan: Plan, installed: seq<nat>)
    requires RolledBack(w, d, plan, installed).end == Failed
    ensures var s := RollbackTaken(w, d, installed);
            var t := Each(Return(w), s, Reversed(plan.parks));
            && Each(TakeBack(w), d, Reversed(installed)) == Step(s, Done) && t.end == Done
            && RemoveJournal(w, t.dir).end == Done
            && RolledBack(w, d, plan, installed).dir == RemoveJournal(w, t.dir).dir
  {
    hide Each; hide Reversed; hide RemoveJournal;
    NeverFails(w, plan, d, Reversed(installed));
    NeverFails(w, plan, RollbackTaken(w, d, installed), Reversed(plan.parks));
    ForgetsUnlessFails(w, Each(Return(w), RollbackTaken(w, d, installed), Reversed(plan.parks)).dir);
  }

  lemma ForgetsUnlessFails(w: Oracle, d: Dir)
    ensures var u := RemoveJournal(w, d);
            && u.dir.finals == d.finals && u.dir.backups == d.backups && u.end != Failed
            && (u.end == Done ==> (u.dir.journal.None? <==> d.journal.None? || !w.quiet(d.quiet).Fails?))
  {
  }

  lemma ReturnedSame(d: Dir, e: Dir, f: Dir, names: seq<nat>, aside: set<nat>, torn: set<nat>)
    requires ReturnedBut(d, e, names, aside, torn) && f.finals == e.finals && f.backups == e.backups
    ensures ReturnedBut(d, f, names, aside, torn)
  {
  }

  lemma {:induction false} ReturnsJournal(w: Oracle, d: Dir, names: seq<nat>)
    ensures Each(Return(w), d, names).dir.journal == d.journal
    decreases |names|
  {
    if names != [] {
      ReturnsJournal(w, Return(w)(d, names[0]).dir, names[1..]);
    }
  }

  lemma BackExactly(d: Dir, s: Dir, r: Dir, plan: Plan, oldSet: Files, installed: seq<nat>, kept: set<nat>,
                    aside: set<nat>, torn: set<nat>)
    requires Before(d, plan, oldSet)
    requires forall n :: n in d.finals && (n in d.backups || (n in plan.installs && n !in plan.parks)) ==> n in installed
    requires forall n :: n in installed ==> n in plan.installs && n in d.finals && Movable(d, plan, n)
    requires forall n :: n in kept ==> n in installed
    requires (forall n :: n in aside ==> n in d.backups) && torn <= aside
    requires TakenBut(d, s, Reversed(installed), kept) && ReturnedBut(s, r, Reversed(plan.parks), aside, torn)
    ensures AllBack(r, plan) <==> Harmless(Damage(kept, aside, torn), plan, d.finals, oldSet)
  {
    hide Reversed;
    ReversedHas(installed);
    ReversedHas(plan.parks);
    BackupsIn(d, plan, oldSet);
    forall n | n in d.backups ensures Lookup(oldSet, n) == Some(d.backups[n]) {
      assert Safe(d.finals, d.backups, plan, oldSet, n);
    }
    forall n | n in aside
      ensures Lookup(r.finals, n) == Some(r.backups[n])
          <==> n in kept && n !in torn && Lookup(d.finals, n) == Lookup(oldSet, n)
    {
      assert Lookup(r.finals, n) == if n in torn then None else Lookup(s.finals, n);
    }
    forall n | n in plan.installs && n !in plan.parks ensures n in r.finals <==> n in kept {
      assert Lookup(r.finals, n) == Lookup(s.finals, n);
    }
  }

  // ---------------------------------------------------------------- a process killed during the rollback

  /** Whether the process was killed before quiet operation `k`, at one behind `q`. */
  predicate DeadBy(w: Oracle, q: nat, k: nat) {
    exists m: nat :: q <= m < k && w.quiet(m).Kills?
  }

  /** The same fates, but instead of killing the process at a quiet operation behind `q`,
      they let it and everything behind it go undone. */
  function Cut(w: Oracle, q: nat): Oracle {
    Oracle(w.checked, (k: nat) => if DeadBy(w, q, k + 1) then Fails else w.quiet(k),
           (k: nat) => w.tears(k) && !DeadBy(w, q, k))
  }

  lemma DeadNext(w: Oracle, q: nat, k: nat)
    requires q <= k
    ensures DeadBy(w, q, k + 1) <==> DeadBy(w, q, k) || w.quiet(k).Kills?
  {
  }

  /** Files, journal and marker are the same. */
  predicate SameLeft(d: Dir, e: Dir) {
    e == d.(quiet := e.quiet)
  }

  /** What a cut makes of one step: while the process lives, the same step, survived;
      afterwards nothing. */
  ghost predicate CutsStep(f: Oracle -> ((Dir, nat) -> Step), w: Oracle, q: nat) {
    forall x: Dir, n: nat :: x.quiet >= q ==> CutStep(f(w)(x, n), f(Cut(w, q))(x, n), x, w, q)
  }

  predicate CutStep(s: Step, t: Step, x: Dir, w: Oracle, q: nat) {
    && t.end == Done && t.dir.quiet >= x.quiet
    && if DeadBy(w, q, x.quiet) then SameLeft(x, t.dir) && DeadBy(w, q, t.dir.quiet)
       else if DeadBy(w, q, t.dir.quiet) then SameLeft(s.dir, t.dir) && s.end == Killed
       else s == t
  }

  lemma QuietCuts(w: Oracle, q: nat, x: Dir, left: Dir, cut: Dir, effect: Dir)
    requires q <= x.quiet == left.quiet == effect.quiet && cut == if DeadBy(w, q, x.quiet) then x else left
    ensures CutStep(Quiet(w, left, effect), Quiet(Cut(w, q), cut, effect), x, w, q)
  {
    hide DeadBy;
    DeadNext(w, q, x.quiet);
  }

  lemma TakeBackCuts(w: Oracle, q: nat)
    ensures CutsStep(TakeBack, w, q)
  {
    hide DeadBy; hide Quiet; hide CutStep;
    forall x: Dir, n: nat | x.quiet >= q ensures CutStep(TakeBack(w)(x, n), TakeBack(Cut(w, q))(x, n), x, w, q) {
      QuietCuts(w, q, x, x, x, TakenBack(x, n));
    }
  }

  lemma ReturnCuts(w: Oracle, q: nat)
    ensures CutsStep(Return, w, q)
  {
    hide DeadBy; hide Quiet; hide CutStep; hide Torn;
    forall x: Dir, n: nat | x.quiet >= q ensures CutStep(Return(w)(x, n), Return(Cut(w, q))(x, n), x, w, q) {
      if n in x.backups {
        TornCut(w, q, x, n);
        QuietCuts(w, q, x, Torn(w, x, n), Torn(Cut(w, q), x, n), Returned(x, n));
      } else {
        IdleCuts(w, q, x);
      }
    }
  }

  lemma TornCut(w: Oracle, q: nat, x: Dir, n: nat)
    ensures Torn(Cut(w, q), x, n) == if DeadBy(w, q, x.quiet) then x else Torn(w, x, n)
    ensures Torn(w, x, n).quiet == x.quiet
  {
    hide DeadBy; hide Without;
  }

  lemma IdleCuts(w: Oracle, q: nat, x: Dir)
    ensures CutStep(Step(x, Done), Step(x, Done), x, w, q)
  {
    hide DeadBy;
  }

  /** The same for a loop. */
  lemma {:induction false} EachCut(f: Oracle -> ((Dir, nat) -> Step), w: Oracle, q: nat, x: Dir, names: seq<nat>)
    requires x.quiet >= q && CutsStep(f, w, q)
    ensures CutStep(Each(f(w), x, names), Each(f(Cut(w, q)), x, names), x, w, q)
    decreases |names|
  {
    hide DeadBy; hide Cut; hide Each;
    EachFirst(f(w), x, names);
    EachFirst(f(Cut(w, q)), x, names);
    if names != [] {
      assert CutStep(f(w)(x, names[0]), f(Cut(w, q))(x, names[0]), x, w, q);
      EachCut(f, w, q, f(Cut(w, q))(x, names[0]).dir, names[1..]);
    }
  }

  lemma EachFirst(f: (Dir, nat) -> Step, d: Dir, names: seq<nat>)
    ensures Each(f, d, names)
         == if names == [] then Step(d, Done)
            else var s := f(d, names[0]); if s.end != Done then s else Each(f, s.dir, names[1..])
  {
  }

  lemma NotDead(w: Oracle, q: nat)
    ensures !DeadBy(w, q, q)
  {
  }

  /** Forgetting the journal, by a process that lives. */
  lemma JournalCut(w: Oracle, q: nat, d: Dir)
    requires q <= d.quiet
    ensures var s, t := RemoveJournal(w, d), RemoveJournal(Cut(w, q), d);
            && t.end == Done
            && if DeadBy(w, q, d.quiet) then SameLeft(d, t.dir)
               else t.dir == s.dir && s.end == if w.quiet(d.quiet).Kills? then Killed else Done
  {
    hide DeadBy;
    DeadNext(w, q, d.quiet);
  }

  /** A rollback, killed or not, leaves what it leaves when the process lives on and
      nothing works any more. */
  lemma RollbackCut(w: Oracle, d: Dir, plan: Plan, installed: seq<nat>)
    ensures var r, t := RolledBack(w, d, plan, installed), RolledBack(Cut(w, d.quiet), d, plan, installed);
            SameLeft(r.dir, t.dir) && t.end == Failed
  {
    hide Each; hide Reversed; hide DeadBy; hide Cut; hide CutsStep; hide TakeBack; hide Return; hide RemoveJournal;
    var q, v := d.quiet, Cut(w, d.quiet);
    NotDead(w, q);
    TakeBackCuts(w, q);
    ReturnCuts(w, q);
    EachCut(TakeBack, w, q, d, Reversed(installed));
    var s := Each(TakeBack(v), d, Reversed(installed)).dir;
    EachCut(Return, w, q, s, Reversed(plan.parks));
    JournalCut(w, q, Each(Return(v), s, Reversed(plan.parks)).dir);
  }

  // ---------------------------------------------------------------- a commit that fails before its marker

  /** Parking stops at the first file whose turn does not work. */
  lemma {:induction false} ParkingStops(w: Oracle, d: Dir, names: seq<nat>, p: nat)
    requires Distinct(names) && (forall n :: n in names ==> n in d.finals) && p < |names|
    requires (forall k :: d.ops <= k < d.ops + p ==> w.checked(k).Works?) && !w.checked(d.ops + p).Works?
    ensures var s := Each(Parking(w), d, names);
            && s.end == (if w.checked(d.ops + p).Fails? then Failed else Killed)
            && s.dir.quiet == d.quiet && s.dir.journal == d.journal && s.dir.marker == d.marker
            && s.dir.staged == d.staged
            && forall n :: n in s.dir.backups <==> n in d.backups || n in names[..p]
    decreases |names|
  {
    hide Distinct; hide Each;
    assert names[0] in names;
    EachHead(Parking(w), d, names);
    if p > 0 {
      var s := Park(w, d, names[0]);
      TailDistinct(names);
      forall n | n in names[1..] ensures n in s.dir.finals {
        assert n in names;
      }
      ParkingStops(w, s.dir, names[1..], p - 1);
      assert names[..p] == [names[0]] + names[1..][..p - 1];
    }
  }

  /** Installing stops at the first file whose turn does not work, or at the flush, with
      the directory `e`: there it is rolled back, or left by a killed process. */
  lemma {:induction false} InstallingStops(w: Oracle, d: Dir, plan: Plan, oldSet: Files, rest: Files, staged: Files,
                                           i: nat, m: nat) returns (e: Dir)
    requires Before(d, plan, oldSet) && Distinct(plan.installs) && i <= m <= |plan.installs|
    requires forall n :: n in plan.parks ==> n in d.backups
    requires forall n :: n in plan.installs ==> n in staged
    requires d.finals == Over(rest, staged, plan.installs[..i]) && d.staged == Left(staged, plan.installs[..i])
    requires (forall k :: d.ops <= k < d.ops + m - i ==> w.checked(k).Works?) && !w.checked(d.ops + m - i).Works?
    ensures Installed(w, d, plan, i)
         == if w.checked(d.ops + m - i).Fails? then RolledBack(w, e, plan, plan.installs[..m]) else Step(e, Killed)
    ensures Before(e, plan, oldSet) && e.finals == Over(rest, staged, plan.installs[..m])
    ensures e.backups == d.backups && e.quiet == d.quiet && e.journal == d.journal && e.marker == d.marker
    decreases m - i
  {
    hide OldSafe; hide Over; hide Left; hide RolledBack; hide Distinct;
    if i == m {
      e := Checked(w, d).dir;
      SameParts(d, e, plan, oldSet);
      StopsHere(w, d, plan, i);
    } else {
      var n := plan.installs[i];
      OverNext(rest, staged, plan.installs, i);
      InstallKeeps(w, d, plan, oldSet, n);
      e := InstallingStops(w, Install(w, d, n).dir, plan, oldSet, rest, staged, i + 1, m);
    }
  }

  lemma StopsHere(w: Oracle, d: Dir, plan: Plan, i: nat)
    requires i <= |plan.installs| && !w.checked(d.ops).Works?
    ensures var e := Checked(w, d).dir;
            Installed(w, d, plan, i)
            == if w.checked(d.ops).Fails? then RolledBack(w, e, plan, plan.installs[..i]) else Step(e, Killed)
  {
    hide RolledBack;
  }

  lemma {:induction false} PresentSplits(a: seq<nat>, b: seq<nat>, backups: Files)
    ensures Present(a + b, backups) == Present(a, backups) + Present(b, backups)
  {
    if a == [] {
      assert a + b == b;
    } else {
      assert (a + b)[1..] == a[1..] + b;
      PresentSplits(a[1..], b, backups);
    }
  }

  lemma {:induction false} PresentWhole(names: seq<nat>, backups: Files)
    ensures (forall n :: n in names ==> n in backups) ==> Present(names, backups) == names
    ensures (forall n :: n in names ==> n !in backups) ==> Present(names, backups) == []
  {
    if names != [] {
      assert names[0] in names && forall n :: n in names[1..] ==> n in names;
      PresentWhole(names[1..], backups);
    }
  }

  lemma ReversedPush(names: seq<nat>, n: nat)
    ensures Reversed(names + [n]) == [n] + Reversed(names)
  {
    assert (names + [n])[..|names|] == names;
  }

  lemma {:induction false} ReversedConcat(a: seq<nat>, b: seq<nat>)
    ensures Reversed(a + b) == Reversed(b) + Reversed(a)
    decreases |b|
  {
    if b == [] {
      assert a + b == a;
    } else {
      var front, last := b[..|b| - 1], b[|b| - 1];
      assert a + b == (a + front) + [last] && b == front + [last];
      hide Reversed;
      ReversedPush(a + front, last);
      ReversedConcat(a, front);
      ReversedPush(front, last);
      assert [last] + (Reversed(front) + Reversed(a)) == ([last] + Reversed(front)) + Reversed(a);
    }
  }

  /** The parked copies there are, last one first, when the first `j` were parked. */
  lemma PresentPrefix(names: seq<nat>, backups: Files, j: nat)
    requires Distinct(names) && j <= |names|
    requires forall n :: n in names ==> (n in backups <==> n in names[..j])
    ensures Present(Reversed(names), backups) == Reversed(names[..j])
  {
    hide Present; hide Reversed;
    assert names == names[..j] + names[j..];
    ReversedConcat(names[..j], names[j..]);
    ReversedHas(names[..j]);
    ReversedHas(names[j..]);
    PresentSplits(Reversed(names[j..]), Reversed(names[..j]), backups);
    PresentWhole(Reversed(names[..j]), backups);
    PresentWhole(Reversed(names[j..]), backups);
  }

  /** The files parked, and those installed, when `p` steps behind the journal have worked. */
  function ParkedBy(plan: Plan, p: nat): seq<nat> {
    if p < |plan.parks| then plan.parks[..p] else plan.parks
  }

  function InstalledBy(plan: Plan, p: nat): seq<nat>
    requires p <= |plan.parks| + |plan.installs|
  {
    if p < |plan.parks| then [] else plan.installs[..p - |plan.parks|]
  }

  /** A directory where a commit may start to move files. */
  ghost predicate Written(c: Dir, plan: Plan, oldSet: Files) {
    && Before(c, plan, oldSet) && c.journal == Some(plan) && c.backups == map[] && c.finals == oldSet
    && Distinct(plan.parks) && Distinct(plan.installs)
    && (forall n :: n in plan.parks ==> n in oldSet)
    && (forall n :: n in plan.installs ==> n in c.staged && (n !in plan.parks ==> n !in oldSet))
  }

  /** What the directory is like where the moving stops behind `p` steps that worked. */
  ghost predicate StoppedAt(c: Dir, e: Dir, plan: Plan, oldSet: Files, p: nat)
    requires p <= |plan.parks| + |plan.installs|
    requires forall n :: n in plan.installs ==> n in c.staged
  {
    && Before(e, plan, oldSet) && e.journal == Some(plan) && e.marker == c.marker && e.quiet == c.quiet
    && (forall n :: n in e.backups <==> n in ParkedBy(plan, p))
    && (forall n :: n in InstalledBy(plan, p) ==> n in c.staged)
    && e.finals == Over(oldSet - e.backups.Keys, c.staged, InstalledBy(plan, p))
  }

  lemma MovingStops(w: Oracle, c: Dir, plan: Plan, oldSet: Files, p: nat) returns (e: Dir)
    requires Written(c, plan, oldSet) && p <= |plan.parks| + |plan.installs|
    requires (forall k :: c.ops <= k < c.ops + p ==> w.checked(k).Works?) && !w.checked(c.ops + p).Works?
    ensures StoppedAt(c, e, plan, oldSet, p)
    ensures Moved(w, c, plan)
         == if w.checked(c.ops + p).Fails? then RolledBack(w, e, plan, InstalledBy(plan, p)) else Step(e, Killed)
  {
    hide OldSafe; hide Each; hide Over; hide Left; hide RolledBack; hide Installed; hide Distinct; hide MarkedDone;
    if p < |plan.parks| {
      e := StopsParking(w, c, plan, oldSet, p);
    } else {
      e := StopsInstalling(w, c, plan, oldSet, p);
    }
  }

  lemma StopsParking(w: Oracle, c: Dir, plan: Plan, oldSet: Files, p: nat) returns (e: Dir)
    requires Written(c, plan, oldSet) && p < |plan.parks|
    requires (forall k :: c.ops <= k < c.ops + p ==> w.checked(k).Works?) && !w.checked(c.ops + p).Works?
    ensures StoppedAt(c, e, plan, oldSet, p)
    ensures Moved(w, c, plan) == if w.checked(c.ops + p).Fails? then RolledBack(w, e, plan, []) else Step(e, Killed)
  {
    hide OldSafe; hide Each; hide Over; hide Left; hide RolledBack; hide Installed; hide Distinct; hide MarkedDone;
    assert plan.parks[0..] == plan.parks && plan.parks[..0] == [] && oldSet - {} == oldSet;
    ParkingKeeps(w, c, plan, oldSet, 0);
    ParkingStops(w, c, plan.parks, p);
    e := Each(Parking(w), c, plan.parks).dir;
    NothingOver(e.finals, e.staged, plan.installs);
    NothingOver(e.finals, c.staged, plan.installs);
    assert plan.installs[..0] == [];
  }

  lemma StopsInstalling(w: Oracle, c: Dir, plan: Plan, oldSet: Files, p: nat) returns (e: Dir)
    requires Written(c, plan, oldSet) && |plan.parks| <= p <= |plan.parks| + |plan.installs|
    requires (forall k :: c.ops <= k < c.ops + p ==> w.checked(k).Works?) && !w.checked(c.ops + p).Works?
    ensures StoppedAt(c, e, plan, oldSet, p)
    ensures Moved(w, c, plan)
         == if w.checked(c.ops + p).Fails? then RolledBack(w, e, plan, InstalledBy(plan, p)) else Step(e, Killed)
  {
    hide OldSafe; hide Each; hide Over; hide Left; hide RolledBack; hide Installed; hide Distinct; hide MarkedDone;
    assert plan.parks[0..] == plan.parks && plan.parks[..0] == [] && oldSet - {} == oldSet;
    ParkingKeeps(w, c, plan, oldSet, 0);
    ParkingEnds(w, c, plan.parks);
    var s := Each(Parking(w), c, plan.parks).dir;
    NothingOver(s.finals, s.staged, plan.installs);
    e := InstallingStops(w, s, plan, oldSet, s.finals, c.staged, 0, p - |plan.parks|);
    RollbackEnds(w, e, plan, oldSet, p - |plan.parks|);
  }

  lemma RollbackEnds(w: Oracle, e: Dir, plan: Plan, oldSet: Files, m: nat)
    requires Before(e, plan, oldSet) && m <= |plan.installs| && forall n :: n in plan.parks ==> n in e.backups
    ensures RolledBack(w, e, plan, plan.installs[..m]).end != Done
  {
    hide OldSafe; hide RolledBack;
    forall n | n in plan.installs[..m] ensures n in plan.installs {
    }
    RollbackKeeps(w, e, plan, oldSet, plan.installs[..m]);
  }

  /** What a rollback misses behind `p` steps that worked. Once the process is killed it
      misses everything. */
  function DamageOf(w: Oracle, q: nat, plan: Plan, p: nat): Damage
    requires p <= |plan.parks| + |plan.installs|
  {
    var v, parked, installed := Cut(w, q), ParkedBy(plan, p), InstalledBy(plan, p);
    Damage(Missed(v, q, Reversed(installed)),
           Missed(v, q + |installed|, Reversed(parked)),
           TornAway(v, q + |installed|, Reversed(parked)))
  }

  /** A rollback `p` steps behind the journal, whatever it misses and wherever it is
      killed. */
  lemma RolledBackExactly(w: Oracle, c: Dir, e: Dir, plan: Plan, oldSet: Files, p: nat)
    requires Written(c, plan, oldSet) && p <= |plan.parks| + |plan.installs| && StoppedAt(c, e, plan, oldSet, p)
    ensures var r, harmless := RolledBack(w, e, plan, InstalledBy(plan, p)),
                               Harmless(DamageOf(w, c.quiet, plan, p), plan, c.staged, oldSet);
            && (r.dir.finals == oldSet <==> harmless)
            && (Outcome(r.dir) == oldSet <==> harmless || (!c.marker && Cut(w, c.quiet).quiet(c.quiet + p).Fails?))
  {
    hide OldSafe; hide Outcome; hide Missed; hide TornAway; hide RolledBack; hide Reversed; hide Over; hide Cut;
    hide Distinct; hide Harmless; hide Lookup; hide Present; hide SameLeft; hide Movable; hide InstalledBy; hide ParkedBy;
    var v, installed := Cut(w, c.quiet), InstalledBy(plan, p);
    RollbackCut(w, e, plan, installed);
    SameOutcome(RolledBack(w, e, plan, installed).dir, RolledBack(v, e, plan, installed).dir);
    PrefixesDistinct(plan, p);
    ParkedPresent(e, plan, p);
    OverPrefix(oldSet - e.backups.Keys, c.staged, installed);
    InstalledMovable(c, e, plan, oldSet, p);
    RollbackLosesExactly(v, e, plan, oldSet, installed);
    var parked := Reversed(ParkedBy(plan, p));
    var aside, torn := Missed(v, c.quiet + |installed|, parked), TornAway(v, c.quiet + |installed|, parked);
    assert DamageOf(w, c.quiet, plan, p) == Damage(Missed(v, c.quiet, Reversed(installed)), aside, torn);
    HarmlessIs(v, c.quiet, plan, c.staged, oldSet, e.finals, installed, aside, torn);
  }

  /** For the installed files what is in place is what was staged. */
  lemma HarmlessIs(v: Oracle, q: nat, plan: Plan, staged: Files, oldSet: Files, finals: Files, installed: seq<nat>,
                   aside: set<nat>, torn: set<nat>)
    requires forall n :: n in installed ==> Lookup(finals, n) == Lookup(staged, n)
    ensures var kept := Missed(v, q, Reversed(installed));
            Harmless(Damage(kept, aside, torn), plan, staged, oldSet)
            <==> Harmless(Damage(kept, aside, torn), plan, finals, oldSet)
  {
    hide Missed; hide Reversed; hide Lookup;
    MissedAmong(v, q, Reversed(installed));
    ReversedHas(installed);
  }

  lemma SameOutcome(d: Dir, e: Dir)
    requires SameLeft(d, e)
    ensures Outcome(d) == Outcome(e) && d.finals == e.finals
  {
  }

  lemma PrefixesDistinct(plan: Plan, p: nat)
    requires Distinct(plan.parks) && Distinct(plan.installs) && p <= |plan.parks| + |plan.installs|
    ensures Distinct(ParkedBy(plan, p)) && Distinct(InstalledBy(plan, p))
    ensures forall n :: n in ParkedBy(plan, p) ==> n in plan.parks
    ensures forall n :: n in InstalledBy(plan, p) ==> n in plan.installs
    ensures |ParkedBy(plan, p)| + |InstalledBy(plan, p)| == p
    ensures InstalledBy(plan, p) != [] ==> ParkedBy(plan, p) == plan.parks
  {
  }

  lemma ParkedPresent(e: Dir, plan: Plan, p: nat)
    requires Distinct(plan.parks) && forall n :: n in e.backups <==> n in ParkedBy(plan, p)
    ensures Present(Reversed(plan.parks), e.backups) == Reversed(ParkedBy(plan, p))
    ensures |Reversed(ParkedBy(plan, p))| == |ParkedBy(plan, p)|
  {
    hide Present; hide Reversed;
    var j := if p < |plan.parks| then p else |plan.parks|;
    assert plan.parks[..j] == ParkedBy(plan, p);
    PresentPrefix(plan.parks, e.backups, j);
    assert Distinct(plan.parks[..j]);
    ReversedDistinct(plan.parks[..j]);
  }

  lemma OverPrefix(rest: Files, staged: Files, installed: seq<nat>)
    requires forall n :: n in installed ==> n in staged
    ensures forall n :: n in installed ==> Lookup(Over(rest, staged, installed), n) == Lookup(staged, n)
    ensures forall n :: n in Over(rest, staged, installed) <==> n in installed || n in rest
    ensures forall n :: n in rest && n !in installed ==> Over(rest, staged, installed)[n] == rest[n]
  {
  }

  lemma InstalledMovable(c: Dir, e: Dir, plan: Plan, oldSet: Files, p: nat)
    requires Written(c, plan, oldSet) && p <= |plan.parks| + |plan.installs| && StoppedAt(c, e, plan, oldSet, p)
    ensures forall n :: n in InstalledBy(plan, p) ==> n in e.finals && Movable(e, plan, n)
    ensures forall n :: n in e.finals && (n in e.backups || (n in plan.installs && n !in plan.parks)) ==>
              n in InstalledBy(plan, p)
  {
    hide OldSafe; hide Over; hide Distinct;
    OverPrefix(oldSet - e.backups.Keys, c.staged, InstalledBy(plan, p));
  }

  // ---------------------------------------------------------------- every way a commit can go

  /** How many of `n` checked operations from `k` on work before one does not. */
  function Working(w: Oracle, k: nat, n: nat): nat
    decreases n
  {
    if n == 0 || !w.checked(k).Works? then 0 else 1 + Working(w, k + 1, n - 1)
  }

  lemma {:induction false} WorkingIs(w: Oracle, k: nat, n: nat)
    ensures Working(w, k, n) <= n && (Working(w, k, n) < n ==> !w.checked(k + Working(w, k, n)).Works?)
    ensures forall i :: k <= i < k + Working(w, k, n) ==> w.checked(i).Works?
    decreases n
  {
    if n > 0 && w.checked(k).Works? {
      WorkingIs(w, k + 1, n - 1);
    }
  }

  /** The steps of a commit behind its journal that move files: parks, installations,
      and the flush of the directory last. Behind them the marker is written and flushed. */
  function FlushAt(d: Dir, installs: seq<nat>, retire: seq<nat>): nat {
    |PlanFor(d, installs, retire).parks| + |installs|
  }

  /** How many steps behind its journal work before one does not. */
  function Reached(w: Oracle, d: Dir, installs: seq<nat>, retire: seq<nat>): nat {
    Working(w, d.ops + 1, FlushAt(d, installs, retire) + 3)
  }

  /** A marker of an earlier commit is there and stays. */
  predicate Stale(w: Oracle, d: Dir) {
    d.marker && w.quiet(d.quiet).Fails?
  }

  /** The journal gets written. */
  predicate Begun(w: Oracle, d: Dir) {
    !w.quiet(d.quiet).Kills? && w.checked(d.ops).Works?
  }

  /** The directory with the journal written. */
  function Journaled(w: Oracle, d: Dir, plan: Plan): Dir {
    d.(journal := Some(plan), marker := Stale(w, d), ops := d.ops + 1, quiet := d.quiet + 1)
  }

  /** The old set is not touched without a journal. */
  lemma UnbegunIsOld(w: Oracle, d: Dir, installs: seq<nat>, retire: seq<nat>)
    requires Ready(d, installs, retire) && (installs != [] || retire != []) && !Begun(w, d)
    ensures var r := Committed(w, d, installs, retire); r.end != Done && r.dir.finals == d.finals == Outcome(r.dir)
  {
    hide Moved; hide Existing;
  }

  lemma BegunMoves(w: Oracle, d: Dir, installs: seq<nat>, retire: seq<nat>)
    requires Ready(d, installs, retire) && (installs != [] || retire != []) && Begun(w, d)
    ensures var plan := PlanFor(d, installs, retire); var c := Journaled(w, d, plan);
            Committed(w, d, installs, retire) == Moved(w, c, plan) && Written(c, plan, d.finals)
  {
    hide Moved; hide Existing; hide OldSafe;
    var plan := PlanFor(d, installs, retire);
    PlanIs(d, installs, retire);
    UntouchedSafe(d, installs, retire);
    SameParts(d, Journaled(w, d, plan), plan, d.finals);
  }

  /** The first `p` steps have changed nothing: what they parked, they replaced by an
      equal file, and they put nothing where nothing was. */
  predicate Unchanged(d: Dir, plan: Plan, p: nat)
    requires p <= |plan.parks| + |plan.installs|
  {
    && (forall n :: n in ParkedBy(plan, p) ==> n in InstalledBy(plan, p) && Lookup(d.staged, n) == Lookup(d.finals, n))
    && (forall n :: n in InstalledBy(plan, p) ==> n in ParkedBy(plan, p))
  }

  /** The other steps would change nothing. */
  predicate Complete(d: Dir, plan: Plan, p: nat)
    requires p <= |plan.parks| + |plan.installs|
  {
    && (forall n :: n in plan.installs && n !in InstalledBy(plan, p) ==>
          n in plan.parks && n !in ParkedBy(plan, p) && Lookup(d.staged, n) == Lookup(d.finals, n))
    && (forall n :: n in plan.parks && n !in ParkedBy(plan, p) ==> n in plan.installs)
  }

  /** The finals half way. */
  lemma HalfWay(d: Dir, installs: seq<nat>, retire: seq<nat>, p: nat, finals: Files, aside: set<nat>)
    requires Ready(d, installs, retire) && p <= FlushAt(d, installs, retire)
    requires var plan := PlanFor(d, installs, retire);
             && (forall n :: n in aside <==> n in ParkedBy(plan, p))
             && (forall n :: n in InstalledBy(plan, p) ==> n in d.staged)
             && finals == Over(d.finals - aside, d.staged, InstalledBy(plan, p))
    ensures var plan := PlanFor(d, installs, retire);
            && (finals == d.finals <==> Unchanged(d, plan, p))
            && (finals == NewSet(d.finals, d.staged, installs, retire) <==> Complete(d, plan, p))
  {
    hide Over; hide Existing; hide Distinct; hide NewSet; hide ParkedBy; hide InstalledBy;
    var plan, newSet := PlanFor(d, installs, retire), NewSet(d.finals, d.staged, installs, retire);
    PlanIs(d, installs, retire);
    PrefixesDistinct(plan, p);
    OverPrefix(d.finals - aside, d.staged, InstalledBy(plan, p));
    forall n: nat
      ensures Lookup(finals, n)
           == if n in InstalledBy(plan, p) then Lookup(d.staged, n)
              else if n in ParkedBy(plan, p) then None
              else Lookup(d.finals, n)
    {
    }
    forall n: nat
      ensures Lookup(newSet, n)
           == if n in installs then Lookup(d.staged, n) else if n in plan.parks then None else Lookup(d.finals, n)
    {
      NewSetAt(d, installs, retire, n);
    }
    IsUnchanged(d, plan, p, finals);
    IsComplete(d, plan, p, finals, newSet);
  }

  lemma IsUnchanged(d: Dir, plan: Plan, p: nat, finals: Files)
    requires p <= |plan.parks| + |plan.installs|
    requires forall n :: n in ParkedBy(plan, p) ==> n in d.finals
    requires forall n :: n in InstalledBy(plan, p) && n in d.finals ==> n in ParkedBy(plan, p)
    requires forall n :: n in InstalledBy(plan, p) ==> n in d.staged
    requires (forall n: nat ::
               Lookup(finals, n)
               == if n in InstalledBy(plan, p) then Lookup(d.staged, n)
                  else if n in ParkedBy(plan, p) then None
                  else Lookup(d.finals, n))
    ensures finals == d.finals <==> Unchanged(d, plan, p)
  {
    hide ParkedBy; hide InstalledBy;
    SameFiles(finals, d.finals);
  }

  lemma IsComplete(d: Dir, plan: Plan, p: nat, finals: Files, newSet: Files)
    requires p <= |plan.parks| + |plan.installs|
    requires forall n :: n in plan.parks ==> n in d.finals
    requires forall n :: n in plan.installs ==> n in d.staged && (n in d.finals ==> n in plan.parks)
    requires forall n :: n in InstalledBy(plan, p) ==> n in plan.installs
    requires forall n :: n in ParkedBy(plan, p) ==> n in plan.parks
    requires (forall n: nat ::
               Lookup(finals, n)
               == if n in InstalledBy(plan, p) then Lookup(d.staged, n)
                  else if n in ParkedBy(plan, p) then None
                  else Lookup(d.finals, n))
    requires (forall n: nat ::
               Lookup(newSet, n)
               == if n in plan.installs then Lookup(d.staged, n) else if n in plan.parks then None else Lookup(d.finals, n))
    ensures finals == newSet <==> Complete(d, plan, p)
  {
    hide ParkedBy; hide InstalledBy;
    SameFiles(finals, newSet);
  }

  lemma NewSetAt(d: Dir, installs: seq<nat>, retire: seq<nat>, n: nat)
    requires Ready(d, installs, retire)
    ensures Lookup(NewSet(d.finals, d.staged, installs, retire), n)
         == if n in installs then Lookup(d.staged, n) else if n in retire then None else Lookup(d.finals, n)
  {
  }

  /** A commit that fails while moving files brings the old set out exactly when what its
      rollback missed is harmless, or when the journal stays as well and no stale marker
      contradicts it. */
  lemma FailedLosesExactly(w: Oracle, d: Dir, installs: seq<nat>, retire: seq<nat>)
    requires Ready(d, installs, retire) && (installs != [] || retire != []) && Begun(w, d)
    requires Reached(w, d, installs, retire) <= FlushAt(d, installs, retire)
    requires w.checked(d.ops + 1 + Reached(w, d, installs, retire)).Fails?
    ensures var plan, r, p := PlanFor(d, installs, retire), Committed(w, d, installs, retire),
                              Reached(w, d, installs, retire);
            var harmless := Harmless(DamageOf(w, d.quiet + 1, plan, p), plan, d.staged, d.finals);
            && r.end != Done && (r.dir.finals == d.finals <==> harmless)
            && (Outcome(r.dir) == d.finals <==>
                  harmless || (!Stale(w, d) && Cut(w, d.quiet + 1).quiet(d.quiet + 1 + p).Fails?))
  {
    hide Moved; hide Existing; hide OldSafe; hide Outcome; hide RolledBack; hide Written; hide StoppedAt; hide Cut;
    hide Harmless; hide Working;
    var plan, p := PlanFor(d, installs, retire), Reached(w, d, installs, retire);
    WorkingIs(w, d.ops + 1, FlushAt(d, installs, retire) + 3);
    BegunMoves(w, d, installs, retire);
    var c := Journaled(w, d, plan);
    var e := MovingStops(w, c, plan, d.finals, p);
    RolledBackExactly(w, c, e, plan, d.finals, p);
    StoppedEnds(w, c, e, plan, d.finals, p);
  }

  lemma StoppedEnds(w: Oracle, c: Dir, e: Dir, plan: Plan, oldSet: Files, p: nat)
    requires Written(c, plan, oldSet) && p <= |plan.parks| + |plan.installs| && StoppedAt(c, e, plan, oldSet, p)
    ensures RolledBack(w, e, plan, InstalledBy(plan, p)).end != Done
  {
    hide OldSafe; hide Over; hide Distinct; hide RolledBack;
    PrefixesDistinct(plan, p);
    InstalledMovable(c, e, plan, oldSet, p);
    RollbackKeeps(w, e, plan, oldSet, InstalledBy(plan, p));
  }

  /** A process killed while moving files: without a stale marker the old set comes out;
      under one, whatever it had got to, which is the old set exactly when the steps done
      changed nothing and the new one exactly when the others would not. */
  lemma KilledLosesExactly(w: Oracle, d: Dir, installs: seq<nat>, retire: seq<nat>)
    requires Ready(d, installs, retire) && (installs != [] || retire != []) && Begun(w, d)
    requires Reached(w, d, installs, retire) <= FlushAt(d, installs, retire)
    requires w.checked(d.ops + 1 + Reached(w, d, installs, retire)).Kills?
    ensures var plan, r, p := PlanFor(d, installs, retire), Committed(w, d, installs, retire),
                              Reached(w, d, installs, retire);
            && r.end == Killed
            && (Outcome(r.dir) == d.finals <==> !Stale(w, d) || Unchanged(d, plan, p))
            && (Stale(w, d) ==>
                  (Outcome(r.dir) == NewSet(d.finals, d.staged, installs, retire) <==> Complete(d, plan, p)))
  {
    hide Moved; hide Existing; hide OldSafe; hide RolledBack; hide Working; hide Over; hide NewSet; hide Distinct;
    hide Reverted; hide AllBack;
    var plan, p := PlanFor(d, installs, retire), Reached(w, d, installs, retire);
    WorkingIs(w, d.ops + 1, FlushAt(d, installs, retire) + 3);
    BegunMoves(w, d, installs, retire);
    var c := Journaled(w, d, plan);
    var e := MovingStops(w, c, plan, d.finals, p);
    HalfWay(d, installs, retire, p, e.finals, e.backups.Keys);
    OutcomeBefore(e, plan, d.finals);
  }

  /** Behind the flush the new set is in place, and it comes out unless the marker could
      not be written, and no stale one stands for it, or removing journal and marker
      goes wrong. */
  lemma MarkedLosesExactly(w: Oracle, d: Dir, installs: seq<nat>, retire: seq<nat>)
    requires Ready(d, installs, retire) && (installs != [] || retire != []) && Begun(w, d)
    requires Reached(w, d, installs, retire) > FlushAt(d, installs, retire)
    ensures var m, r, p := FlushAt(d, installs, retire), Committed(w, d, installs, retire),
                           Reached(w, d, installs, retire);
            var newSet := NewSet(d.finals, d.staged, installs, retire);
            && r.dir.finals == newSet && (r.end == Done ==> p == m + 3)
            && (p == m + 1 ==> Outcome(r.dir) == if Stale(w, d) then newSet else d.finals)
            && (p > m + 1 && r.end != Done ==> Outcome(r.dir) == newSet)
  {
    hide Moved; hide Existing; hide OldSafe; hide Outcome; hide Working; hide NewSet; hide After; hide MarkedDone;
    hide Installed; hide Each; hide Left; hide Written;
    var plan, m := PlanFor(d, installs, retire), FlushAt(d, installs, retire);
    var newSet := NewSet(d.finals, d.staged, installs, retire);
    WorkingIs(w, d.ops + 1, m + 3);
    BegunMoves(w, d, installs, retire);
    var c := Journaled(w, d, plan);
    assert c.(journal := None) == d.(marker := Stale(w, d), ops := d.ops + 1, quiet := d.quiet + 1);
    MovedKeeps(w, c, installs, retire);
    var e := Installed(w, Each(Parking(w), c, plan.parks).dir, plan, 0).dir;
    AfterFinals(MarkedDone(w, e, plan).dir, plan, d.finals, newSet);
    MarkingExactly(w, e, plan, d.finals, newSet);
  }

  lemma MarkingExactly(w: Oracle, d: Dir, plan: Plan, oldSet: Files, newSet: Files)
    requires Before(d, plan, oldSet) && d.finals == newSet && d.journal == Some(plan)
    ensures var r := MarkedDone(w, d, plan);
            && (r.end == Done ==> w.checked(d.ops).Works? && w.checked(d.ops + 1).Works?)
            && (!w.checked(d.ops).Works? ==> Outcome(r.dir) == if d.marker then newSet else oldSet)
            && (w.checked(d.ops).Works? && r.end != Done ==> Outcome(r.dir) == newSet)
  {
    hide OldSafe; hide After; hide CleanedUp; hide Outcome; hide AllBack; hide Replaces;
    BackupsParked(d, plan, oldSet, newSet);
    var e := Checked(w, d).dir;
    SameParts(d, e, plan, oldSet);
    OutcomeBefore(e, plan, oldSet);
    MarkedOutcome(e);
    var f := Checked(w, e.(marker := true)).dir;
    MarkedOutcome(f);
    AfterSame(d, f, plan, oldSet, newSet);
    CleanUpKeeps(w, f, plan, oldSet, newSet);
    AfterFinals(CleanedUp(w, f, plan).dir, plan, oldSet, newSet);
    CleanUpMarked(w, f, plan);
    MarkedOutcome(CleanedUp(w, f, plan).dir);
  }

  /** A cleanup that is killed has left the marker. */
  lemma CleanUpMarked(w: Oracle, d: Dir, plan: Plan)
    requires d.marker
    ensures CleanedUp(w, d, plan).end != Done ==> CleanedUp(w, d, plan).dir.marker
  {
    hide Each;
    DropsMarked(w, d, plan.parks);
  }

  lemma {:induction false} DropsMarked(w: Oracle, d: Dir, names: seq<nat>)
    ensures Each(DropBackup(w), d, names).dir.marker == d.marker
    decreases |names|
  {
    if names != [] {
      DropsMarked(w, DropBackup(w)(d, names[0]).dir, names[1..]);
    }
  }

  /** Which set comes out of a commit, whatever becomes of any of its operations. */
  lemma OutcomeExactly(w: Oracle, d: Dir, installs: seq<nat>, retire: seq<nat>)
    requires Ready(d, installs, retire) && (installs != [] || retire != [])
    ensures var plan, r := PlanFor(d, installs, retire), Committed(w, d, installs, retire);
            var m, p, q := FlushAt(d, installs, retire), Reached(w, d, installs, retire), d.quiet + 1;
            var newSet := NewSet(d.finals, d.staged, installs, retire);
            if !Begun(w, d) then Outcome(r.dir) == d.finals
            else if p <= m && w.checked(d.ops + 1 + p).Fails? then
              Outcome(r.dir) == d.finals <==>
                || Harmless(DamageOf(w, q, plan, p), plan, d.staged, d.finals)
                || (!Stale(w, d) && Cut(w, q).quiet(q + p).Fails?)
            else if p <= m then
              && (Outcome(r.dir) == d.finals <==> !Stale(w, d) || Unchanged(d, plan, p))
              && (Stale(w, d) ==> (Outcome(r.dir) == newSet <==> Complete(d, plan, p)))
            else if p == m + 1 then Outcome(r.dir) == if Stale(w, d) then newSet else d.finals
            else if r.end != Done then Outcome(r.dir) == newSet
            else
              var j := q + |plan.parks|;
              Outcome(r.dir) != newSet <==>
                && w.quiet(j).Fails? && w.quiet(j + 1).Works?
                && ((exists n :: n in installs && n !in d.finals)
                    || exists n :: n in Missed(w, q, plan.parks) && Lookup(newSet, n) != Lookup(d.finals, n))
  {
    hide Committed; hide Existing; hide OldSafe; hide Outcome; hide Working; hide NewSet; hide Harmless; hide Cut;
    hide Unchanged; hide Complete; hide Distinct; hide Missed; hide Lookup;
    var p, m := Reached(w, d, installs, retire), FlushAt(d, installs, retire);
    WorkingIs(w, d.ops + 1, m + 3);
    if !Begun(w, d) {
      UnbegunIsOld(w, d, installs, retire);
    } else if p > m {
      MarkedLosesExactly(w, d, installs, retire);
      if p > m + 1 && Committed(w, d, installs, retire).end == Done {
        DoneLosesExactly(w, d, installs, retire);
      }
    } else if w.checked(d.ops + 1 + p).Fails? {
      FailedLosesExactly(w, d, installs, retire);
    } else {
      KilledLosesExactly(w, d, installs, retire);
    }
  }

  /** Unless a stale marker stays, a process that is killed loses no set, whatever it had
      missed unnoticed. */
  lemma KilledIsWhole(w: Oracle, d: Dir, installs: seq<nat>, retire: seq<nat>)
    requires Ready(d, installs, retire) && (installs != [] || retire != []) && !Stale(w, d)
    requires Committed(w, d, installs, retire).end == Killed
    ensures var r := Committed(w, d, installs, retire);
            Outcome(r.dir) == d.finals || Outcome(r.dir) == NewSet(d.finals, d.staged, installs, retire)
  {
    hide Moved; hide Existing; hide OldSafe; hide Outcome; hide RolledBack; hide Written; hide Working; hide NewSet;
    var plan, p := PlanFor(d, installs, retire), Reached(w, d, installs, retire);
    WorkingIs(w, d.ops + 1, FlushAt(d, installs, retire) + 3);
    OutcomeExactly(w, d, installs, retire);
    if Begun(w, d) && p <= FlushAt(d, installs, retire) && w.checked(d.ops + 1 + p).Fails? {
      BegunMoves(w, d, installs, retire);
      var c := Journaled(w, d, plan);
      var e := MovingStops(w, c, plan, d.finals, p);
      StoppedKilled(w, c, e, plan, d.finals, p);
    }
  }

  /** A killed rollback has left the journal. */
  lemma StoppedKilled(w: Oracle, c: Dir, e: Dir, plan: Plan, oldSet: Files, p: nat)
    requires Written(c, plan, oldSet) && p <= |plan.parks| + |plan.installs| && StoppedAt(c, e, plan, oldSet, p)
    requires !c.marker && RolledBack(w, e, plan, InstalledBy(plan, p)).end == Killed
    ensures Outcome(RolledBack(w, e, plan, InstalledBy(plan, p)).dir) == oldSet
  {
    hide OldSafe; hide Over; hide Distinct; hide RolledBack; hide Outcome; hide AllBack;
    var installed := InstalledBy(plan, p);
    PrefixesDistinct(plan, p);
    InstalledMovable(c, e, plan, oldSet, p);
    RollbackKeeps(w, e, plan, oldSet, installed);
    KilledKeepsJournal(w, e, plan, installed);
    OutcomeBefore(RolledBack(w, e, plan, installed).dir, plan, oldSet);
  }

  lemma KilledKeepsJournal(w: Oracle, d: Dir, plan: Plan, installed: seq<nat>)
    ensures RolledBack(w, d, plan, installed).end == Killed ==> RolledBack(w, d, plan, installed).dir.journal == d.journal
  {
    hide Each; hide Reversed;
    TakesBackJournal(w, d, Reversed(installed));
    var s := Each(TakeBack(w), d, Reversed(installed));
    ReturnsJournal(w, s.dir, Reversed(plan.parks));
  }

  lemma {:induction false} TakesBackJournal(w: Oracle, d: Dir, names: seq<nat>)
    ensures Each(TakeBack(w), d, names).dir.journal == d.journal
    decreases |names|
  {
    if names != [] {
      TakesBackJournal(w, TakeBack(w)(d, names[0]).dir, names[1..]);
    }
  }

  // ---------------------------------------------------------------- sets that are lost, and one that is not

  function Always(): nat -> Fate {
    (k: nat) => Works
  }

  function NoTears(): nat -> bool {
    (k: nat) => false
  }

  function At(at: nat, fate: Fate): nat -> Fate {
    (k: nat) => if k == at then fate else Works
  }

  /** Neither of the two sets comes out. */
  predicate Lost(d: Dir, oldSet: Files, newSet: Files) {
    Outcome(d) != oldSet && Outcome(d) != newSet
  }

  /** One old file, replaced, and one new beside it. */
  const ONE_OLD := Dir(map[0 := [1]], map[0 := [2], 1 := [3]], map[], None, false, 0, 0)

  /** Two old files, both to be replaced. */
  const TWO_OLD := Dir(map[0 := [1], 1 := [5]], map[0 := [2], 1 := [3]], map[], None, false, 0, 0)

  lemma ExamplePlans()
    ensures PlanFor(ONE_OLD, [0, 1], []) == Plan([0], [0, 1]) && Ready(ONE_OLD, [0, 1], [])
    ensures PlanFor(TWO_OLD, [0, 1], []) == Plan([0, 1], [0, 1]) && Ready(TWO_OLD, [0, 1], [])
    ensures NewSet(ONE_OLD.finals, ONE_OLD.staged, [0, 1], []) == map[0 := [2], 1 := [3]]
    ensures NewSet(TWO_OLD.finals, TWO_OLD.staged, [0, 1], []) == map[0 := [2], 1 := [3]]
  {
    hide NewSet; hide Existing;
    var both: seq<nat> := [0, 1];
    assert both + [] == both;
    ExistingBoth(ONE_OLD.finals);
    ExistingBoth(TWO_OLD.finals);
    ExampleSets();
  }

  lemma ExistingBoth(finals: Files)
    ensures Existing(finals, [0, 1])
         == (if 0 in finals then [0] else []) + (if 1 in finals then [1] else [])
  {
    var both: seq<nat> := [0, 1];
    assert both[1..] == [1] && [1][1..] == [];
    assert Existing(finals, [1]) == (if 1 in finals then [1] else []) + [];
  }

  lemma ExampleSets()
    ensures NewSet(ONE_OLD.finals, ONE_OLD.staged, [0, 1], []) == map[0 := [2], 1 := [3]]
    ensures NewSet(TWO_OLD.finals, TWO_OLD.staged, [0, 1], []) == map[0 := [2], 1 := [3]]
  {
    hide NewSet; hide Lookup;
    NewSetOfTwo(ONE_OLD.finals);
    NewSetOfTwo(TWO_OLD.finals);
  }

  lemma NewSetOfTwo(finals: Files)
    requires forall n :: n in finals ==> n < 2
    ensures NewSet(finals, map[0 := [2], 1 := [3]], [0, 1], []) == map[0 := [2], 1 := [3]]
  {
    var r := NewSet(finals, map[0 := [2], 1 := [3]], [0, 1], []);
    assert 0 in r && 1 in r && r[0] == [2] && r[1] == [3];
    assert r.Keys == {0, 1};
  }

  lemma {:induction false} DropsLive(w: Oracle, d: Dir, names: seq<nat>)
    requires forall k: nat :: !w.quiet(k).Kills?
    ensures Each(DropBackup(w), d, names).end == Done
    decreases |names|
  {
    if names != [] {
      DropsLive(w, DropBackup(w)(d, names[0]).dir, names[1..]);
    }
  }

  lemma EndsWell(w: Oracle, d: Dir, installs: seq<nat>, retire: seq<nat>)
    requires Ready(d, installs, retire) && (installs != [] || retire != [])
    requires WorksUpTo(w, d, MarkerAt(d, installs, retire) + 2) && forall k: nat :: !w.quiet(k).Kills?
    ensures Committed(w, d, installs, retire).end == Done
  {
    hide Moved; hide Existing; hide OldSafe; hide NewSet; hide Each; hide Installed; hide After;
    var plan := PlanFor(d, installs, retire);
    assert w.checked(d.ops).Works? && !w.quiet(d.quiet).Kills?;
    var e := Checked(w, RemoveMarker(w, d).dir).dir.(journal := Some(plan));
    MovedKeeps(w, e, installs, retire);
    var f := Installed(w, Each(Parking(w), e, plan.parks).dir, plan, 0).dir;
    DropsLive(w, f.(marker := true, ops := f.ops + 2), plan.parks);
    assert w.checked(f.ops).Works? && w.checked(f.ops + 1).Works?;
  }

  /** A commit reports success, yet the removal of its journal failed unnoticed while the
      marker's worked: the next process takes the new file away again. */
  lemma KeptJournalLoses()
    ensures var w := Oracle(Always(), At(2, Fails), NoTears());
            var r := Committed(w, ONE_OLD, [0, 1], []);
            r.end == Done && Lost(r.dir, ONE_OLD.finals, map[0 := [2], 1 := [3]])
  {
    hide Moved; hide Existing; hide NewSet; hide CleanedUp; hide Outcome; hide After;
    var w := Oracle(Always(), At(2, Fails), NoTears());
    ExamplePlans();
    EndsWell(w, ONE_OLD, [0, 1], []);
    DoneLosesExactly(w, ONE_OLD, [0, 1], []);
    CommitCases(w, ONE_OLD, [0, 1], []);
    assert 1 in [0, 1] && 1 !in ONE_OLD.finals;
    OneOldDropped(w);
    KeptJournal(Committed(w, ONE_OLD, [0, 1], []).dir);
  }

  /** In the first example the one parked file is dropped by the second quiet operation. */
  lemma OneOldDropped(w: Oracle)
    requires Committed(w, ONE_OLD, [0, 1], []).end == Done && w.quiet(0).Works? && w.quiet(1).Works?
    ensures 0 !in Committed(w, ONE_OLD, [0, 1], []).dir.backups
  {
    hide Each; hide Installed; hide Moved; hide Missed; hide Existing; hide NewSet; hide After; hide OldSafe;
    hide MarkedDone;
    ExamplePlans();
    var plan := Plan([0], [0, 1]);
    var e := ONE_OLD.(journal := Some(plan), ops := 1, quiet := 1);
    assert Checked(w, RemoveMarker(w, ONE_OLD).dir).dir.(journal := Some(plan)) == e;
    MovedKeeps(w, e, [0, 1], []);
    var f := Installed(w, Each(Parking(w), e, plan.parks).dir, plan, 0).dir;
    MarkedCleansUp(w, f, plan);
    FirstDropped(w, f.(marker := true, ops := f.ops + 2), plan);
  }

  lemma FirstDropped(w: Oracle, d: Dir, plan: Plan)
    requires plan.parks == [0] && w.quiet(d.quiet).Works? && CleanedUp(w, d, plan).end == Done
    ensures 0 !in CleanedUp(w, d, plan).dir.backups
  {
    hide Each; hide Missed; hide RemoveJournal; hide RemoveMarker;
    DropsExactly(w, d, plan.parks);
    NoneMissed(w, d.quiet, 0);
    assert 0 in plan.parks;
    var s := Each(DropBackup(w), d, plan.parks);
    LastSteps(w, s.dir);
    LastSteps(w, RemoveJournal(w, s.dir).dir);
  }

  lemma NoneMissed(w: Oracle, q: nat, n: nat)
    requires w.quiet(q).Works?
    ensures Missed(w, q, [n]) == {}
  {
    assert [n][1..] == [] && Missed(w, q + 1, []) == {};
  }

  lemma KeptJournal(d: Dir)
    requires d.finals == map[0 := [2], 1 := [3]] && Outcome(d) != d.finals
    requires After(d, Plan([0], [0, 1]), map[0 := [1]], d.finals)
    ensures Outcome(d) != map[0 := [1]] || 0 in d.backups
  {
    assert 0 !in d.backups ==> Lookup(Outcome(d), 0) == Some([2]);
  }

  /** Parking the second file fails, and so, unnoticed, does the return of the first: its
      journal forgotten, the old set lacks a file. */
  lemma KeptAsideLoses()
    ensures var w := Oracle(At(2, Fails), At(1, Fails), NoTears());
            var r := Committed(w, TWO_OLD, [0, 1], []);
            r.end == Failed && r.dir.finals == map[1 := [5]] && Lost(r.dir, TWO_OLD.finals, map[0 := [2], 1 := [3]])
  {
    hide Installed; hide MarkedDone; hide Existing; hide Each; hide RolledBack; hide Without;
    var w := Oracle(At(2, Fails), At(1, Fails), NoTears());
    ExamplePlans();
    var plan := Plan([0, 1], [0, 1]);
    var d := TWO_OLD.(journal := Some(plan), ops := 1, quiet := 1);
    assert Checked(w, RemoveMarker(w, TWO_OLD).dir) == Step(TWO_OLD.(ops := 1, quiet := 1), Done);
    assert Committed(w, TWO_OLD, [0, 1], []) == Moved(w, d, plan);
    FirstParked(w, d, plan);
    var e := d.(finals := map[1 := [5]], backups := map[0 := [1]], ops := 3);
    ReturnsNone(w, e, plan);
    assert Moved(w, d, plan) == RolledBack(w, e, plan, []);
    assert 0 in TWO_OLD.finals && map[0 := [2], 1 := [3]][1] == [3];
    assert e.finals[1] == [5] && 0 !in e.finals;
  }

  /** Nothing installed, one file parked, and its return fails. */
  lemma ReturnsNone(w: Oracle, e: Dir, plan: Plan)
    requires plan.parks == [0, 1] && 0 in e.backups && 1 !in e.backups
    requires w.quiet(e.quiet).Fails? && !w.tears(e.quiet) && w.quiet(e.quiet + 1).Works?
    ensures RolledBack(w, e, plan, []) == Step(e.(journal := None, quiet := e.quiet + 2), Failed)
  {
    hide Each; hide Without;
    TwoReversed();
    EachFirst(TakeBack(w), e, []);
    EachHead(Return(w), e, [1, 0]);
    assert [1, 0][1..] == [0] && [0][1..] == [];
    EachHead(Return(w), e, [0]);
    EachFirst(Return(w), e.(quiet := e.quiet + 1), []);
  }

  lemma TwoReversed()
    ensures Reversed([]) == [] && Reversed([0, 1]) == [1, 0]
  {
    var parks: seq<nat> := [0, 1];
    assert parks[..1] == [0] && parks[..1][..0] == [];
    assert Reversed(parks[..1]) == [0];
  }

  /** The first of two files is parked, the second is not. */
  lemma FirstParked(w: Oracle, d: Dir, plan: Plan)
    requires d.finals == map[0 := [1], 1 := [5]] && d.backups == map[] && plan.parks == [0, 1]
    requires w.checked(d.ops).Works? && !w.checked(d.ops + 1).Works?
    ensures Each(Parking(w), d, plan.parks)
         == Step(d.(finals := map[1 := [5]], backups := map[0 := [1]], ops := d.ops + 2),
                 if w.checked(d.ops + 1).Fails? then Failed else Killed)
  {
    var s := d.(finals := map[1 := [5]], backups := map[0 := [1]], ops := d.ops + 1);
    assert Without(d.finals, 0) == map[1 := [5]];
    assert Park(w, d, 0) == Step(s, Done);
    EachHead(Parking(w), d, plan.parks);
    assert plan.parks[1..] == [1];
    EachHead(Parking(w), s, [1]);
  }

  /** A stale marker that cannot be removed, and a process killed while it parks: the
      next process drops the parked file for good. */
  lemma StaleMarkerLoses()
    ensures var d, w := TWO_OLD.(marker := true), Oracle(At(2, Kills), At(0, Fails), NoTears());
            var r := Committed(w, d, [0, 1], []);
            var after := Recovered(Oracle(Always(), Always(), NoTears()), r.dir);
            && r.end == Killed && Lost(r.dir, d.finals, map[0 := [2], 1 := [3]])
            && after.end == Done && after.dir.finals == map[1 := [5]] && after.dir.backups == map[]
  {
    hide Installed; hide MarkedDone; hide Existing; hide Each; hide Without;
    var d, w := TWO_OLD.(marker := true), Oracle(At(2, Kills), At(0, Fails), NoTears());
    ExamplePlans();
    var plan := Plan([0, 1], [0, 1]);
    assert PlanFor(d, [0, 1], []) == PlanFor(TWO_OLD, [0, 1], []);
    var e := d.(journal := Some(plan), ops := 1, quiet := 1);
    assert Checked(w, RemoveMarker(w, d).dir) == Step(d.(ops := 1, quiet := 1), Done);
    assert Committed(w, d, [0, 1], []) == Moved(w, e, plan);
    FirstParked(w, e, plan);
    var f := e.(finals := map[1 := [5]], backups := map[0 := [1]], ops := 3);
    DropsBoth(Oracle(Always(), Always(), NoTears()), f, plan);
    assert Moved(w, e, plan) == Step(f, Killed);
    assert 0 in TWO_OLD.finals && map[0 := [2], 1 := [3]][1] == [3];
    assert f.finals[1] == [5] && 0 !in f.finals;
  }

  lemma DropsBoth(v: Oracle, f: Dir, plan: Plan)
    requires plan.parks == [0, 1] && v.quiet == Always() && f.backups == map[0 := [1]]
    ensures Each(DropBackup(v), f, plan.parks) == Step(f.(backups := map[], quiet := f.quiet + 2), Done)
  {
    hide Each;
    EachHead(DropBackup(v), f, plan.parks);
    assert plan.parks[1..] == [1] && [1][1..] == [];
    var g := f.(backups := map[], quiet := f.quiet + 1);
    assert DropBackup(v)(f, 0) == Step(g, Done);
    EachHead(DropBackup(v), g, [1]);
    assert Without(map[], 1) == map[];
    EachFirst(DropBackup(v), g.(quiet := f.quiet + 2), []);
  }

  /** The same with both files parked and the first installed when the process is killed:
      the second is lost. */
  lemma StaleMarkerLosesInstalling()
    ensures var d, w := TWO_OLD.(marker := true), Oracle(At(4, Kills), At(0, Fails), NoTears());
            var r := Committed(w, d, [0, 1], []);
            r.end == Killed && Lost(r.dir, d.finals, map[0 := [2], 1 := [3]])
  {
    hide Committed; hide Existing; hide NewSet; hide Working; hide Outcome; hide Distinct;
    var d, w := TWO_OLD.(marker := true), Oracle(At(4, Kills), At(0, Fails), NoTears());
    ExamplePlans();
    assert PlanFor(d, [0, 1], []) == PlanFor(TWO_OLD, [0, 1], []);
    ThreeWork(w, 7);
    KilledLosesExactly(w, d, [0, 1], []);
    var plan, installs := PlanFor(d, [0, 1], []), [0, 1];
    assert 1 in ParkedBy(plan, 3) && plan.installs[1] == 1;
    assert InstalledBy(plan, 3) == [0];
  }

  lemma ThreeWork(w: Oracle, n: nat)
    requires n > 3 && w.checked(1).Works? && w.checked(2).Works? && w.checked(3).Works? && !w.checked(4).Works?
    ensures Working(w, 1, n) == 3
  {
    assert Working(w, 4, n - 3) == 0 && Working(w, 3, n - 2) == 1 && Working(w, 2, n - 1) == 2;
  }

  /** The marker alone cannot be written: the caller is told of a failure, the new set
      is in place, and the next process puts the old one back. */
  lemma UnmarkedFails()
    ensures var w := Oracle(At(5, Fails), Always(), NoTears());
            var r := Committed(w, ONE_OLD, [0, 1], []);
            && r.end == Failed && r.dir.finals == map[0 := [2], 1 := [3]]
            && Outcome(r.dir) == ONE_OLD.finals
  {
    hide Each; hide Installed; hide Moved; hide Existing; hide NewSet; hide OldSafe; hide Outcome; hide MarkedDone;
    var w := Oracle(At(5, Fails), Always(), NoTears());
    ExamplePlans();
    assert 1 !in ONE_OLD.finals && 1 in map[0 := [2], 1 := [3]];
    FailsWithNewSetExactly(w, ONE_OLD, [0, 1], []);
    CommitCases(w, ONE_OLD, [0, 1], []);
    var plan := Plan([0], [0, 1]);
    var e := Checked(w, RemoveMarker(w, ONE_OLD).dir).dir.(journal := Some(plan));
    assert e == ONE_OLD.(journal := Some(plan), ops := 1, quiet := 1);
    assert Committed(w, ONE_OLD, [0, 1], []) == Moved(w, e, plan);
    MovedKeeps(w, e, [0, 1], []);
    var f := Installed(w, Each(Parking(w), e, plan.parks).dir, plan, 0).dir;
    Unmarked(w, f, plan);
    SameParts(f, MarkedDone(w, f, plan).dir, plan, ONE_OLD.finals);
    OutcomeBefore(MarkedDone(w, f, plan).dir, plan, ONE_OLD.finals);
  }

  lemma Unmarked(w: Oracle, d: Dir, plan: Plan)
    requires w.checked(d.ops).Fails?
    ensures MarkedDone(w, d, plan) == Step(d.(ops := d.ops + 1), Failed)
  {
  }
}
