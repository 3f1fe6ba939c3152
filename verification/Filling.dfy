/** Volumes as the writer fills them (format/rar5/write/emit.rs): one part of a member
    offered after the other, taken or not by the rules of `VolumeBudget`. What holds of
    every volume made like that: its size, and when it gets a quick-open record. */
module Filling {
  import opened Options
  import opened Vint
  import opened Blocks
  import opened VolumeLayout
  import opened VolumeBudget
  import Locator
  import QuickOpen

  /** What is offered to the open volume: a member to be taken whole or not at all, what
      is left of one to be cut where the volume ends, with the sizes estimated for a
      middle and a last header, or the header of an empty member. */
  datatype Part =
    | Whole(header: seq<byte>, data: seq<byte>)
    | Chunk(header: seq<byte>, data: seq<byte>, middle: nat, last: nat)
    | Bare(header: seq<byte>)

  function DataOf(p: Part): seq<byte> {
    if p.Bare? then [] else p.data
  }

  /** The run announced: what is left of the member, or of the volume. */
  function RunOf(c: Config, volumeSize: Option<nat>, v: Volume, p: Part): nat {
    var left := |DataOf(p)|;
    if volumeSize.None? || left < RoomOf(c, v, volumeSize.value, 0).remaining then left
    else RoomOf(c, v, volumeSize.value, 0).remaining
  }

  function Offered(c: Config, volumeSize: Option<nat>, v: Volume, p: Part): Volume {
    if p.Bare? then v else v.(runs := v.runs + [RunOf(c, volumeSize, v, p)])
  }

  /** How many bytes the volume takes, if it takes the part. */
  function SizeOf(c: Config, volumeSize: Option<nat>, v: Volume, p: Part): (size: Option<nat>)
    ensures size.Some? ==> size.value <= |DataOf(p)|
  {
    if volumeSize.None? then Some(|DataOf(p)|)
    else
      var w, n := Offered(c, volumeSize, v, p), volumeSize.value;
      match p
      case Chunk(_, data, middle, last) =>
        var size := ChunkSize(c, RoomOf(c, w, n, last), middle, last, |data|);
        if size > 0 then Some(size) else None
      case _ => if FitsHere(c, w, n, |p.header|, |DataOf(p)|) then Some(|DataOf(p)|) else None
  }

  /** The volume after a part. */
  function Put(c: Config, volumeSize: Option<nat>, v: Volume, p: Part): Volume {
    match SizeOf(c, volumeSize, v, p)
    case None => Offered(c, volumeSize, v, p)
    case Some(size) => With(Offered(c, volumeSize, v, p), Item(p.header, DataOf(p)[..size], true))
  }

  /** Of a chunk the volume takes as much as it can. */
  ghost predicate Full(c: Config, volumeSize: nat, v: Volume, p: Part)
    requires p.Chunk?
  {
    Largest(c, RoomOf(c, Offered(c, Some(volumeSize), v, p), volumeSize, p.last), p.middle, p.last, |p.data|,
            TakenOf(c, Some(volumeSize), v, p))
  }

  lemma ChunkFull(c: Config, volumeSize: nat, v: Volume, p: Part)
    requires p.Chunk? && p.data != [] && Good(c, Some(volumeSize), v, p)
    ensures Full(c, volumeSize, v, p)
  {
    hide RoomOf; hide ChunkSize; hide Largest;
    ChunkLargest(c, RoomOf(c, Offered(c, Some(volumeSize), v, p), volumeSize, p.last), p.middle, p.last, |p.data|);
  }

  /** The header of a chunk is no longer than estimated. */
  predicate Good(c: Config, volumeSize: Option<nat>, v: Volume, p: Part) {
    && p.header != []
    && (p.Chunk? ==>
          && |p.header| <= p.last && p.middle <= p.last
          && (SizeOf(c, volumeSize, v, p) != Some(|p.data|) ==> |p.header| <= p.middle))
  }

  /** A volume filled with these parts. */
  function Filled(c: Config, volumeSize: Option<nat>, number: Option<nat>, parts: seq<Part>): Volume {
    if parts == [] then Volume(number, [], [])
    else Put(c, volumeSize, Filled(c, volumeSize, number, parts[..|parts| - 1]), parts[|parts| - 1])
  }

  predicate AllGood(c: Config, volumeSize: Option<nat>, number: Option<nat>, parts: seq<Part>) {
    forall k :: 0 <= k < |parts| ==> Good(c, volumeSize, Filled(c, volumeSize, number, parts[..k]), parts[k])
  }

  /** A volume of the writer's making. */
  ghost predicate Made(c: Config, volumeSize: Option<nat>, v: Volume) {
    exists parts :: AllGood(c, volumeSize, v.number, parts) && v == Filled(c, volumeSize, v.number, parts)
  }

  lemma FreshMade(c: Config, volumeSize: Option<nat>, number: Option<nat>)
    ensures Made(c, volumeSize, Volume(number, [], []))
  {
    assert AllGood(c, volumeSize, number, []);
    assert Filled(c, volumeSize, number, []) == Volume(number, [], []);
  }

  lemma PutMade(c: Config, volumeSize: Option<nat>, v: Volume, p: Part)
    requires Made(c, volumeSize, v) && Good(c, volumeSize, v, p)
    ensures Made(c, volumeSize, Put(c, volumeSize, v, p))
  {
    hide Good; hide SizeOf;
    var parts :| AllGood(c, volumeSize, v.number, parts) && v == Filled(c, volumeSize, v.number, parts);
    hide Filled;
    FilledNext(c, volumeSize, v.number, parts, p);
    forall k | 0 <= k < |parts + [p]|
      ensures Good(c, volumeSize, Filled(c, volumeSize, v.number, (parts + [p])[..k]), (parts + [p])[k])
    {
      if k < |parts| {
        assert (parts + [p])[..k] == parts[..k];
      } else {
        assert (parts + [p])[..k] == parts;
      }
    }
  }

  lemma FilledNext(c: Config, volumeSize: Option<nat>, number: Option<nat>, parts: seq<Part>, p: Part)
    ensures Filled(c, volumeSize, number, parts + [p]) == Put(c, volumeSize, Filled(c, volumeSize, number, parts), p)
    ensures Put(c, volumeSize, Filled(c, volumeSize, number, parts), p).number
         == Filled(c, volumeSize, number, parts).number
  {
    assert (parts + [p])[..|parts|] == parts;
  }

  lemma {:induction false} FilledNumber(c: Config, volumeSize: Option<nat>, number: Option<nat>, parts: seq<Part>)
    ensures Filled(c, volumeSize, number, parts).number == number
  {
    if parts != [] {
      FilledNumber(c, volumeSize, number, parts[..|parts| - 1]);
    }
  }

  // ---------------------------------------------------------------- who earns a record

  /** The bytes taken. */
  function TakenOf(c: Config, volumeSize: Option<nat>, v: Volume, p: Part): nat {
    match SizeOf(c, volumeSize, v, p) case None => 0 case Some(size) => size
  }

  lemma NoMoreThanAnnounced(c: Config, volumeSize: Option<nat>, v: Volume, p: Part)
    ensures TakenOf(c, volumeSize, v, p) <= RunOf(c, volumeSize, v, p)
  {
    if volumeSize.Some? {
      var w, n := Offered(c, volumeSize, v, p), volumeSize.value;
      hide QuickOpenReserve; hide TailBehind; hide Budgeted; hide QuickOpenPos;
      SameRoom(c, v, w, n, |p.header|);
      if p.Chunk? {
        SameRoom(c, v, w, n, p.last);
        BudgetedFits(c, RoomOf(c, w, n, p.last), p.middle);
        BudgetedFits(c, RoomOf(c, w, n, p.last), p.last);
      }
    }
  }

  /** Announcing a run takes no room. */
  lemma SameRoom(c: Config, v: Volume, w: Volume, volumeSize: nat, pending: nat)
    requires w == v.(runs := w.runs)
    ensures RoomOf(c, w, volumeSize, pending).remaining == RoomOf(c, v, volumeSize, 0).remaining
  {
    hide QuickOpenReserve;
  }

  /** One part more: what it does to the announced runs and to the runs held. */
  lemma PutRule(c: Config, volumeSize: Option<nat>, v: Volume, p: Part)
    ensures var after := Put(c, volumeSize, v, p);
            && (Earned(after.runs) <==> Earned(v.runs) || RunOf(c, volumeSize, v, p) > AUTO_THRESHOLD)
            && (HoldsLongRun(after) <==> HoldsLongRun(v) || TakenOf(c, volumeSize, v, p) > AUTO_THRESHOLD)
            && (Announced(v) ==> Announced(after))
  {
    hide SizeOf; hide RunOf; hide HoldsLongRun; hide Announced; hide Earned;
    NoMoreThanAnnounced(c, volumeSize, v, p);
    var w, run := Offered(c, volumeSize, v, p), RunOf(c, volumeSize, v, p);
    NoneAnnounced(c, volumeSize, v, p);
    OneAnnounced(v, run);
    if SizeOf(c, volumeSize, v, p).Some? {
      OneHeld(w, Item(p.header, DataOf(p)[..SizeOf(c, volumeSize, v, p).value], true), run);
    }
  }

  lemma NoneAnnounced(c: Config, volumeSize: Option<nat>, v: Volume, p: Part)
    ensures p.Bare? ==> RunOf(c, volumeSize, v, p) == 0
  {
    hide RoomOf;
  }

  lemma OneAnnounced(v: Volume, run: nat)
    ensures var w := v.(runs := v.runs + [run]);
            && run in w.runs && (Earned(w.runs) <==> Earned(v.runs) || run > AUTO_THRESHOLD)
            && (HoldsLongRun(w) <==> HoldsLongRun(v)) && (Announced(v) ==> Announced(w))
  {
    var w := v.(runs := v.runs + [run]);
    assert forall r :: r in w.runs <==> r in v.runs || r == run;
    if Earned(v.runs) {
      var r :| r in v.runs && r > AUTO_THRESHOLD;
      assert r in w.runs;
    }
    if Announced(v) {
      forall item | item in w.items && item.cached && item.data != []
        ensures exists r :: r in w.runs && |item.data| <= r
      {
        var r :| r in v.runs && |item.data| <= r;
        assert r in w.runs;
      }
    }
  }

  lemma OneHeld(w: Volume, item: Item, run: nat)
    requires item.cached && |item.data| <= run && (run in w.runs || item.data == [])
    ensures var after := With(w, item);
            && after.runs == w.runs && (Announced(w) ==> Announced(after))
            && (HoldsLongRun(after) <==> HoldsLongRun(w) || |item.data| > AUTO_THRESHOLD)
  {
    var after := With(w, item);
    assert item in after.items;
    forall i | i in w.items ensures i in after.items {
    }
  }

  /** How far a volume has come by its `k`-th part. */
  function Before(c: Config, volumeSize: Option<nat>, number: Option<nat>, parts: seq<Part>, k: nat): Volume
    requires k < |parts|
  {
    Filled(c, volumeSize, number, parts[..k])
  }

  /** Some part was announced as a long run. */
  ghost predicate LongRunAnnounced(c: Config, volumeSize: Option<nat>, number: Option<nat>, parts: seq<Part>) {
    exists k :: 0 <= k < |parts| && RunOf(c, volumeSize, Before(c, volumeSize, number, parts, k), parts[k]) > AUTO_THRESHOLD
  }

  /** Some part was taken as one. */
  ghost predicate LongRunTaken(c: Config, volumeSize: Option<nat>, number: Option<nat>, parts: seq<Part>) {
    exists k :: 0 <= k < |parts| && TakenOf(c, volumeSize, Before(c, volumeSize, number, parts, k), parts[k]) > AUTO_THRESHOLD
  }

  lemma LongRunsNext(c: Config, volumeSize: Option<nat>, number: Option<nat>, parts: seq<Part>)
    requires parts != []
    ensures var front, p := parts[..|parts| - 1], parts[|parts| - 1];
            var v := Filled(c, volumeSize, number, front);
            && (LongRunAnnounced(c, volumeSize, number, parts) <==>
                  LongRunAnnounced(c, volumeSize, number, front) || RunOf(c, volumeSize, v, p) > AUTO_THRESHOLD)
            && (LongRunTaken(c, volumeSize, number, parts) <==>
                  LongRunTaken(c, volumeSize, number, front) || TakenOf(c, volumeSize, v, p) > AUTO_THRESHOLD)
  {
    hide Filled; hide RunOf; hide TakenOf;
    var n := |parts| - 1;
    forall k | 0 <= k < n
      ensures Before(c, volumeSize, number, parts, k) == Before(c, volumeSize, number, parts[..n], k)
      ensures parts[k] == parts[..n][k]
    {
      assert parts[..k] == parts[..n][..k];
    }
    assert Before(c, volumeSize, number, parts, n) == Filled(c, volumeSize, number, parts[..n]);
  }

  lemma {:induction false} FilledRule(c: Config, volumeSize: Option<nat>, number: Option<nat>, parts: seq<Part>)
    ensures var v := Filled(c, volumeSize, number, parts);
            && (Earned(v.runs) <==> LongRunAnnounced(c, volumeSize, number, parts))
            && (HoldsLongRun(v) <==> LongRunTaken(c, volumeSize, number, parts))
            && Announced(v)
  {
    if parts != [] {
      hide Earned; hide HoldsLongRun; hide Announced; hide Put; hide LongRunAnnounced; hide LongRunTaken;
      FilledRule(c, volumeSize, number, parts[..|parts| - 1]);
      LongRunsNext(c, volumeSize, number, parts);
      PutRule(c, volumeSize, Filled(c, volumeSize, number, parts[..|parts| - 1]), parts[|parts| - 1]);
    }
  }

  /** Under the automatic rule the record a volume gets and the runs it holds disagree
      exactly when some part was announced as a long run, that much of its member being
      left and room for it, and yet every part taken was short. */
  lemma AutoRecord(c: Config, volumeSize: Option<nat>, number: Option<nat>, parts: seq<Part>)
    requires c.quickOpen && c.quickOpenAuto
    ensures var v := Filled(c, volumeSize, number, parts);
            (Wanted(c, v) <==> HoldsLongRun(v)) <==>
            !(LongRunAnnounced(c, volumeSize, number, parts) && !LongRunTaken(c, volumeSize, number, parts))
  {
    hide LongRunAnnounced; hide LongRunTaken; hide HoldsLongRun; hide Earned; hide Filled;
    FilledRule(c, volumeSize, number, parts);
    var v := Filled(c, volumeSize, number, parts);
    if HoldsLongRun(v) {
      LongRunEarns(c, v);
    }
  }

  /** So it is with every volume of the writer's making. */
  lemma MadeRecord(c: Config, volumeSize: Option<nat>, v: Volume) returns (parts: seq<Part>)
    requires c.quickOpen && c.quickOpenAuto && Made(c, volumeSize, v)
    ensures AllGood(c, volumeSize, v.number, parts) && v == Filled(c, volumeSize, v.number, parts)
    ensures (Wanted(c, v) <==> HoldsLongRun(v)) <==>
            !(LongRunAnnounced(c, volumeSize, v.number, parts) && !LongRunTaken(c, volumeSize, v.number, parts))
  {
    hide AllGood; hide Filled; hide LongRunAnnounced; hide LongRunTaken; hide HoldsLongRun; hide Earned;
    parts :| AllGood(c, volumeSize, v.number, parts) && v == Filled(c, volumeSize, v.number, parts);
    AutoRecord(c, volumeSize, v.number, parts);
  }

  /** For one more part in a volume of the writer's making that had earned no record:
      they disagree exactly when what is left, and the room for it, are long and the size
      taken is not. */
  lemma NextPartDisagrees(c: Config, volumeSize: nat, v: Volume, p: Part)
    requires c.quickOpen && c.quickOpenAuto && Made(c, Some(volumeSize), v) && !Wanted(c, v)
    ensures var after := Put(c, Some(volumeSize), v, p);
            (Wanted(c, after) <==> HoldsLongRun(after)) <==>
            !(|DataOf(p)| > AUTO_THRESHOLD && RoomOf(c, v, volumeSize, 0).remaining > AUTO_THRESHOLD
              && TakenOf(c, Some(volumeSize), v, p) <= AUTO_THRESHOLD)
  {
    hide HoldsLongRun; hide Earned; hide Put; hide RoomOf; hide TakenOf; hide Announced;
    MadeAnnounced(c, Some(volumeSize), v);
    PutRule(c, Some(volumeSize), v, p);
    if HoldsLongRun(v) {
      LongRunEarns(c, v);
    }
    NoMoreThanAnnounced(c, Some(volumeSize), v, p);
  }

  lemma MadeAnnounced(c: Config, volumeSize: Option<nat>, v: Volume)
    requires Made(c, volumeSize, v)
    ensures Announced(v)
  {
    hide AllGood; hide Filled; hide Announced;
    var parts :| AllGood(c, volumeSize, v.number, parts) && v == Filled(c, volumeSize, v.number, parts);
    FilledRule(c, volumeSize, v.number, parts);
  }

  // ---------------------------------------------------------------- volumes within their size

  /** Whatever the volume holds, a part it takes keeps it within its size when there is
      no recovery record. */
  lemma TakenKeepsSize(c: Config, volumeSize: nat, v: Volume, p: Part, nextVolume: bool)
    requires ValidConfig(c) && ValidVolume(v) && c.recovery.None?
    requires Good(c, Some(volumeSize), v, p) && SizeOf(c, Some(volumeSize), v, p).Some?
    ensures |Finished(c, Put(c, Some(volumeSize), v, p), nextVolume)| <= volumeSize
  {
    hide Finished; hide Budgeted; hide QuickOpenReserve; hide ProtectedLength; hide QuickOpenPos;
    var w, size := Offered(c, Some(volumeSize), v, p), SizeOf(c, Some(volumeSize), v, p).value;
    var item := Item(p.header, DataOf(p)[..size], true);
    if p.Chunk? {
      var room := RoomOf(c, w, volumeSize, p.last);
      BudgetedFits(c, room, p.middle);
      BudgetedFits(c, room, p.last);
      var est := if ChunkFits(c, room, p.last, size) then p.last else p.middle;
      ChunkWithinSizeExactly(c, w, item, est, p.last, volumeSize, nextVolume);
    } else {
      WithinSizeExactly(c, w, item, volumeSize, nextVolume);
    }
  }

  /** Volumes that hold the same, both with a record or both without, are as long. */
  lemma RunsTakeNoRoom(c: Config, v: Volume, w: Volume, nextVolume: bool)
    requires ValidConfig(c) && ValidVolume(v) && c.recovery.None?
    requires w == v.(runs := w.runs) && Wanted(c, v) == Wanted(c, w)
    ensures |Finished(c, v, nextVolume)| == |Finished(c, w, nextVolume)|
  {
    hide Finished; hide Bytes; hide Prologue; hide RecordLength; hide Cached; hide Wanted; hide QuickOpenPart;
    hide RecoveryReserve;
    FinishedLength(c, v, nextVolume);
    FinishedLength(c, w, nextVolume);
    RecordLengthIs(c, v);
    RecordLengthIs(c, w);
  }

  lemma {:induction false} FilledValid(c: Config, volumeSize: Option<nat>, number: Option<nat>, parts: seq<Part>)
    requires AllGood(c, volumeSize, number, parts) && (number.Some? ==> number.value < U64)
    ensures ValidVolume(Filled(c, volumeSize, number, parts))
  {
    hide SizeOf; hide RunOf;
    FilledNumber(c, volumeSize, number, parts);
    if parts != [] {
      GoodFront(c, volumeSize, number, parts);
      FilledValid(c, volumeSize, number, parts[..|parts| - 1]);
    }
  }

  lemma GoodFront(c: Config, volumeSize: Option<nat>, number: Option<nat>, parts: seq<Part>)
    requires AllGood(c, volumeSize, number, parts) && parts != []
    ensures AllGood(c, volumeSize, number, parts[..|parts| - 1])
    ensures Good(c, volumeSize, Filled(c, volumeSize, number, parts[..|parts| - 1]), parts[|parts| - 1])
  {
    hide Filled; hide Good;
    var front := parts[..|parts| - 1];
    forall k | 0 <= k < |front| ensures Good(c, volumeSize, Filled(c, volumeSize, number, front[..k]), front[k]) {
      assert front[..k] == parts[..k];
    }
  }

  /** Without a recovery record, and without the automatic rule, every volume that holds
      anything keeps its size. */
  lemma {:induction false} FilledKeepsSize(c: Config, volumeSize: nat, number: Option<nat>, parts: seq<Part>, nextVolume: bool)
    requires ValidConfig(c) && c.recovery.None? && !(c.quickOpen && c.quickOpenAuto)
    requires AllGood(c, Some(volumeSize), number, parts) && (number.Some? ==> number.value < U64)
    ensures var v := Filled(c, Some(volumeSize), number, parts);
            v.items != [] ==> |Finished(c, v, nextVolume)| <= volumeSize
  {
    hide AllGood; hide Finished; hide SizeOf; hide RunOf; hide Good;
    if parts != [] {
      var v, p := Filled(c, Some(volumeSize), number, parts[..|parts| - 1]), parts[|parts| - 1];
      GoodFront(c, Some(volumeSize), number, parts);
      FilledValid(c, Some(volumeSize), number, parts[..|parts| - 1]);
      FilledKeepsSize(c, volumeSize, number, parts[..|parts| - 1], nextVolume);
      if SizeOf(c, Some(volumeSize), v, p).Some? {
        TakenKeepsSize(c, volumeSize, v, p, nextVolume);
      } else {
        RunsTakeNoRoom(c, v, Offered(c, Some(volumeSize), v, p), nextVolume);
      }
    }
  }

  lemma MadeKeepsSize(c: Config, volumeSize: nat, v: Volume, nextVolume: bool)
    requires ValidConfig(c) && c.recovery.None? && !(c.quickOpen && c.quickOpenAuto)
    requires Made(c, Some(volumeSize), v) && (v.number.Some? ==> v.number.value < U64) && v.items != []
    ensures |Finished(c, v, nextVolume)| <= volumeSize
  {
    hide AllGood; hide Filled; hide Finished;
    var parts :| AllGood(c, Some(volumeSize), v.number, parts) && v == Filled(c, Some(volumeSize), v.number, parts);
    FilledKeepsSize(c, volumeSize, v.number, parts, nextVolume);
  }

  /** A volume without number, or with a smaller one, has no longer a header. */
  lemma PrologueGrows(c: Config, a: Option<nat>, b: Option<nat>)
    requires a.None? || (b.Some? && a.value <= b.value)
    ensures |Prologue(c, a)| <= |Prologue(c, b)|
  {
    hide Encoded; hide Fixed; hide Locator.Extra;
    var s, t := ShapeOf(c, a), ShapeOf(c, b);
    assert Locator.Extra(s, 0, 0) == Locator.Extra(t, 0, 0) by {
      ExtraSame(c, a, b);
    }
    var g := ArchiveHeader(s.flags, Locator.Extra(s, 0, 0), a);
    var h := ArchiveHeader(t.flags, Locator.Extra(t, 0, 0), b);
    QuickOpen.SizeGrows(StoredFlags(g), StoredFlags(h));
    if a.Some? {
      QuickOpen.SizeGrows(a.value, b.value);
    }
    assert MainStart(g) == MainStart(h);
    QuickOpen.SizeGrows(|MainBody(g)|, |MainBody(h)|);
  }

  lemma ExtraSame(c: Config, a: Option<nat>, b: Option<nat>)
    ensures Locator.Extra(ShapeOf(c, a), 0, 0) == Locator.Extra(ShapeOf(c, b), 0, 0)
  {
  }

  /** An empty volume is no longer than one with members and a larger number. */
  lemma EmptyWithin(c: Config, v: Volume, w: Volume, next: bool, nextAfter: bool)
    requires ValidConfig(c) && ValidVolume(v) && ValidVolume(w)
    requires c.recovery.None? && !(c.quickOpen && c.quickOpenAuto)
    requires v.items == [] && (v.number.None? || (w.number.Some? && v.number.value <= w.number.value))
    ensures |Finished(c, v, next)| <= |Finished(c, w, nextAfter)|
  {
    hide Finished; hide Prologue; hide CatalogLength; hide ServiceLength; hide Cached;
    FinishedLength(c, v, next);
    FinishedLength(c, w, nextAfter);
    RecordLengthIs(c, v);
    RecordLengthIs(c, w);
    PrologueGrows(c, v.number, w.number);
    NoCatalog(c, v);
    ServiceLengthGrows(0, 0, CatalogLength(Catalog(c, w), QuickOpenPos(c, w)));
  }

  lemma NoCatalog(c: Config, v: Volume)
    requires v.items == []
    ensures Bytes(v.items) == [] && CatalogLength(Catalog(c, v), QuickOpenPos(c, v)) == 0
  {
    hide Prologue;
  }
}
