/** Aggregated write progress (write_progress.rs): reports of many members, in any
    interleaving, become one stream of (committed, total) pairs. */
module Progress {
  const U64_MAX: nat := 0xFFFF_FFFF_FFFF_FFFF
  type u64 = x: int | 0 <= x <= 0xFFFF_FFFF_FFFF_FFFF

  datatype MemberReport = Done(member: nat, done: u64, memberTotal: u64)

  function Min(a: nat, b: nat): nat {
    if a < b then a else b
  }

  // ---------------------------------------------------------------- what is reported

  /** The most that `member` ever reported as done. */
  function Highest(reports: seq<MemberReport>, member: nat): nat {
    if reports == [] then 0
    else
      var rest, last := Highest(reports[..|reports| - 1], member), reports[|reports| - 1];
      if last.member == member && last.done > rest then last.done else rest
  }

  ghost predicate IsHighest(reports: seq<MemberReport>, member: nat, h: nat) {
    && (forall r :: r in reports && r.member == member ==> r.done <= h)
    && (h == 0 || exists r :: r in reports && r.member == member && r.done == h)
  }

  lemma {:induction false} HighestIsHighest(reports: seq<MemberReport>, member: nat)
    ensures IsHighest(reports, member, Highest(reports, member))
    ensures Highest(reports, member) <= U64_MAX
  {
    if reports != [] {
      HighestIsHighest(reports[..|reports| - 1], member);
      assert reports == reports[..|reports| - 1] + [reports[|reports| - 1]];
    }
  }

  function SumHighest(reports: seq<MemberReport>, members: nat): nat {
    if members == 0 then 0 else SumHighest(reports, members - 1) + Highest(reports, members - 1)
  }

  /** One more than the largest member number reported. */
  function Members(reports: seq<MemberReport>): nat {
    if reports == [] then 0
    else
      var rest, last := Members(reports[..|reports| - 1]), reports[|reports| - 1];
      if last.member >= rest then last.member + 1 else rest
  }

  /** Everything reported: each member counted by its highest report. */
  function Reported(reports: seq<MemberReport>): nat {
    SumHighest(reports, Members(reports))
  }

  lemma {:induction false} MembersBound(reports: seq<MemberReport>)
    ensures forall r :: r in reports ==> r.member < Members(reports)
  {
    if reports != [] {
      MembersBound(reports[..|reports| - 1]);
      assert reports == reports[..|reports| - 1] + [reports[|reports| - 1]];
    }
  }

  lemma {:induction false} SumBeyond(reports: seq<MemberReport>, members: nat)
    requires Members(reports) <= members
    ensures SumHighest(reports, members) == Reported(reports)
  {
    if members > Members(reports) {
      SumBeyond(reports, members - 1);
      MembersBound(reports);
      HighestIsHighest(reports, members - 1);
    }
  }

  lemma {:induction false} SumNext(reports: seq<MemberReport>, r: MemberReport, members: nat)
    ensures SumHighest(reports + [r], members)
         == SumHighest(reports, members)
            + if r.member < members && r.done > Highest(reports, r.member)
              then r.done - Highest(reports, r.member) else 0
  {
    if members > 0 {
      SumNext(reports, r, members - 1);
      assert (reports + [r])[..|reports|] == reports;
    }
  }

  lemma ReportedNext(reports: seq<MemberReport>, r: MemberReport)
    ensures Reported(reports + [r])
         == Reported(reports)
            + if r.done > Highest(reports, r.member) then r.done - Highest(reports, r.member) else 0
  {
    var members := Members(reports + [r]);
    assert (reports + [r])[..|reports|] == reports;
    SumBeyond(reports, members);
    SumNext(reports, r, members);
  }

  lemma {:induction false} SumSame(a: seq<MemberReport>, b: seq<MemberReport>, members: nat)
    requires forall r :: r in a <==> r in b
    ensures SumHighest(a, members) == SumHighest(b, members)
  {
    if members > 0 {
      SumSame(a, b, members - 1);
      HighestIsHighest(a, members - 1);
      HighestIsHighest(b, members - 1);
    }
  }

  /** The sum depends on which reports were made, not on their order, nor on how
      often one was repeated. */
  lemma OrderDoesNotMatter(a: seq<MemberReport>, b: seq<MemberReport>)
    requires forall r :: r in a <==> r in b
    ensures Reported(a) == Reported(b)
  {
    var members := if Members(a) > Members(b) then Members(a) else Members(b);
    SumBeyond(a, members);
    SumBeyond(b, members);
    SumSame(a, b, members);
  }

  // ---------------------------------------------------------------- the tracker

  /** The baselines kept per member are the highest reports. */
  ghost predicate Tracks(perMember: map<nat, u64>, reports: seq<MemberReport>) {
    forall m: nat :: Highest(reports, m) == if m in perMember then perMember[m] else 0
  }

  lemma TracksNext(perMember: map<nat, u64>, reports: seq<MemberReport>, r: MemberReport)
    requires Tracks(perMember, reports)
    ensures r.done > Highest(reports, r.member) ==> Tracks(perMember[r.member := r.done], reports + [r])
    ensures r.done <= Highest(reports, r.member) ==> Tracks(perMember, reports + [r])
  {
    assert (reports + [r])[..|reports|] == reports;
  }

  lemma Baseline(perMember: map<nat, u64>, reports: seq<MemberReport>, member: nat)
    requires Tracks(perMember, reports)
    ensures Highest(reports, member) == if member in perMember then perMember[member] else 0
  {
  }

  /** Every pair is within its total, and from `since` on no pair falls below an
      earlier one, nor the current figures below any. */
  ghost predicate Monotone(calls: seq<(u64, u64)>, since: nat, shown: nat, total: nat) {
    && (forall i :: 0 <= i < |calls| ==> calls[i].0 <= calls[i].1)
    && (forall i, j :: since <= i < j < |calls| ==> calls[i].0 <= calls[j].0 && calls[i].1 <= calls[j].1)
    && (forall i :: since <= i < |calls| ==> calls[i].0 <= shown && calls[i].1 <= total)
  }

  lemma MonotoneNext(calls: seq<(u64, u64)>, since: nat, shown: nat, total: nat, shown': u64, total': u64)
    requires since <= |calls| && Monotone(calls, since, shown, total)
    requires shown <= shown' <= total' && total <= total'
    ensures Monotone(calls, since, shown', total')
    ensures Monotone(calls + [(shown', total')], since, shown', total')
  {
  }

  class ProgressTracker {
    const callback: bool          // whether anyone listens
    var total: u64
    var committed: u64
    var perMember: map<nat, u64>
    var calls: seq<(u64, u64)>    // the pairs handed to the callback

    ghost var reports: seq<MemberReport>
    ghost var since: nat          // calls made before the last SetTotal

    /** What the callback would be shown now. */
    ghost function Shown(): nat
      reads this
    {
      if committed < total then committed else total
    }

    ghost predicate Valid()
      reads this
    {
      && Tracks(perMember, reports)
      && committed == Min(0xFFFF_FFFF_FFFF_FFFF, Reported(reports))
      && since <= |calls|
      && Monotone(calls, since, Shown(), total)
    }

    constructor (callback: bool)
      ensures Valid() && reports == [] && calls == [] && since == 0 && total == 0 && committed == 0
      ensures this.callback == callback
    {
      this.callback := callback;
      total, committed, perMember, calls := 0, 0, map[], [];
      reports, since := [], 0;
    }

    method SetTotal(newTotal: u64)
      requires Valid()
      modifies this
      ensures Valid() && total == newTotal && since == |calls|
      ensures reports == old(reports) && calls == old(calls) && committed == old(committed)
    {
      total := newTotal;
      since := |calls|;
    }

    /** A report counts by what it adds to its member; the callback hears of it only
        when it adds something. */
    method Report(member: nat, done: u64, memberTotal: u64)
      requires Valid()
      modifies this
      ensures Valid() && since == old(since)
      ensures reports == old(reports) + [Done(member, done, memberTotal)]
      ensures total == if old(total) == 0 then memberTotal else old(total)
      ensures calls == if callback && done > Highest(old(reports), member)
                       then old(calls) + [(Shown(), total)] else old(calls)
    {
      hide Reported; hide Members; hide Tracks; hide Monotone; hide Highest;
      assert Highest(reports, member) == if member in perMember then perMember[member] else 0 by {
        Baseline(perMember, reports, member);
      }
      TracksNext(perMember, reports, Done(member, done, memberTotal));
      ghost var shown, total0 := Shown(), total;
      ghost var before := reports;
      ghost var r := Done(member, done, memberTotal);
      ReportedNext(before, r);
      if total == 0 {
        total := memberTotal;
      }
      reports := reports + [r];
      var prev := if member in perMember then perMember[member] else 0;
      var delta := if done > prev then done - prev else 0;
      if delta == 0 {
        MonotoneNext(calls, since, shown, total0, Min(committed, total), total);
        return;
      }
      perMember := perMember[member := done];
      committed := if committed + delta > U64_MAX then U64_MAX else committed + delta;
      MonotoneNext(calls, since, shown, total0, Min(committed, total), total);
      if callback {
        calls := calls + [(Min(committed, total), total)];
      }
    }
  }
}
