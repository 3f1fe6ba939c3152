/** Members written whole or across volume boundaries (`write_file_entry` and
    `write_split_member` in format/rar5/write/emit.rs): a member that does not fit is
    cut into chunks, each with a header of its own in a volume of its own. */
module MemberSplit {
  import opened Options
  import opened Vint
  import opened VolumeLayout
  import opened VolumeWriter
  import opened Lifecycle
  import opened VolumeBudget
  import opened Filling

  /** The headers of a member: undivided, and of a chunk of this size, first or not,
      last or not; and the sizes estimated for the latter, middle or last, from the
      room left in a volume. */
  datatype Headers = Headers(
    whole: seq<byte>,
    header: (nat, bool, bool) -> seq<byte>,
    middle: (nat, bool) -> nat,
    last: (nat, bool) -> nat)

  /** No chunk header is longer than estimated from at least the chunk's own room; a
      last header has all the records a middle one has. */
  ghost predicate ValidHeaders(h: Headers) {
    && h.whole != []
    && forall size: nat, room: nat, first: bool :: 0 < size <= room ==> Estimated(h, size, room, first)
  }

  predicate Estimated(h: Headers, size: nat, room: nat, first: bool) {
    && h.header(size, first, false) != [] && h.header(size, first, true) != []
    && |h.header(size, first, false)| <= h.middle(room, first) <= h.last(room, first)
    && |h.header(size, first, true)| <= h.last(room, first)
  }

  datatype Ending = Written | TooSmall | Broken

  // ---------------------------------------------------------------- what a set holds

  /** Everything in a set of volumes, in order. */
  function AllItems(done: seq<Volume>): seq<Item> {
    if done == [] then [] else AllItems(done[..|done| - 1]) + done[|done| - 1].items
  }

  lemma OneMore(done: seq<Volume>, v: Volume)
    ensures AllItems(done + [v]) == AllItems(done) + v.items
  {
    assert (done + [v])[..|done|] == done;
  }

  /** A volume rolled over to an empty one holds what it held. */
  lemma RolledOver(done: seq<Volume>, v: Volume, empty: Volume)
    requires empty.items == []
    ensures AllItems(done + [v] + [empty]) == AllItems(done + [v])
  {
    OneMore(done + [v], empty);
    assert AllItems(done + [v]) + [] == AllItems(done + [v]);
  }

  /** The chunks of `data` from `offset` on, with these sizes. */
  function Chunks(h: Headers, data: seq<byte>, offset: nat, sizes: seq<nat>): seq<Item>
    requires offset + Sum(sizes) <= |data|
    decreases |sizes|
  {
    if sizes == [] then []
    else
      [Item(h.header(sizes[0], offset == 0, offset + sizes[0] == |data|), data[offset..offset + sizes[0]], true)]
      + Chunks(h, data, offset + sizes[0], sizes[1..])
  }

  function Sum(sizes: seq<nat>): nat {
    if sizes == [] then 0 else sizes[0] + Sum(sizes[1..])
  }

  lemma {:induction false} SumNext(sizes: seq<nat>, size: nat)
    ensures Sum(sizes + [size]) == Sum(sizes) + size
  {
    if sizes == [] {
      assert [size][1..] == [] && sizes + [size] == [size];
    } else {
      assert (sizes + [size])[1..] == sizes[1..] + [size];
      SumNext(sizes[1..], size);
    }
  }

  lemma {:induction false} ChunksNext(h: Headers, data: seq<byte>, offset: nat, sizes: seq<nat>, size: nat)
    requires offset + Sum(sizes) + size <= |data|
    ensures Sum(sizes + [size]) == Sum(sizes) + size
    ensures var at := offset + Sum(sizes);
            Chunks(h, data, offset, sizes + [size])
            == Chunks(h, data, offset, sizes)
               + [Item(h.header(size, at == 0, at + size == |data|), data[at..at + size], true)]
    decreases |sizes|
  {
    SumNext(sizes, size);
    if sizes == [] {
      assert [size][1..] == [] && sizes + [size] == [size];
    } else {
      assert (sizes + [size])[1..] == sizes[1..] + [size];
      SumNext(sizes[1..], size);
      ChunksNext(h, data, offset + sizes[0], sizes[1..], size);
    }
  }

  /** The data of items, joined. */
  function Payload(items: seq<Item>): seq<byte> {
    if items == [] then [] else items[0].data + Payload(items[1..])
  }

  /** Chunks that cover a payload hold it, byte for byte and in order. */
  lemma {:induction false} ChunksHold(h: Headers, data: seq<byte>, offset: nat, sizes: seq<nat>)
    requires offset + Sum(sizes) == |data|
    ensures Payload(Chunks(h, data, offset, sizes)) == data[offset..]
    decreases |sizes|
  {
    if sizes != [] {
      var size := sizes[0];
      ChunksHold(h, data, offset + size, sizes[1..]);
      var head := Item(h.header(size, offset == 0, offset + size == |data|), data[offset..offset + size], true);
      var tail := Chunks(h, data, offset + size, sizes[1..]);
      assert ([head] + tail)[1..] == tail;
      assert data[offset..] == data[offset..offset + size] + data[offset + size..];
    }
  }

  /** Only the first chunk is written as a first, only the last as a last one. */
  lemma {:induction false} ChunkFlags(h: Headers, data: seq<byte>, offset: nat, sizes: seq<nat>, k: nat)
    requires offset + Sum(sizes) == |data| && k < |sizes| && forall s :: s in sizes ==> s > 0
    ensures |Chunks(h, data, offset, sizes)| == |sizes|
    ensures Chunks(h, data, offset, sizes)[k].header
         == h.header(sizes[k], offset == 0 && k == 0, k == |sizes| - 1)
    decreases |sizes|
  {
    assert sizes[0] in sizes;
    forall s | s in sizes[1..] ensures s in sizes {
    }
    if |sizes| > 1 {
      assert sizes[1..][0] in sizes[1..];
      ChunkFlags(h, data, offset + sizes[0], sizes[1..], if k > 0 then k - 1 else 0);
    } else {
      assert sizes[1..] == [];
    }
  }

  // ---------------------------------------------------------------- what the archive holds

  /** Everything put into the archive so far. */
  ghost function Contents(a: RarArchive): seq<Item>
    reads a
  {
    AllItems(a.done + [a.volume])
  }

  /** Every volume is of the making that `Filling` describes. */
  ghost predicate AllMade(a: RarArchive)
    reads a
  {
    SetMade(a.cfg, a.volumeSize, a.done, a.volume)
  }

  ghost predicate SetMade(c: Config, volumeSize: Option<nat>, done: seq<Volume>, v: Volume) {
    Made(c, volumeSize, v) && forall u :: u in done ==> Made(c, volumeSize, u)
  }

  /** The open volume took a part and stayed open, or was left for a fresh one. */
  lemma SetMadeNext(c: Config, volumeSize: Option<nat>, done: seq<Volume>, v: Volume, p: Part)
    requires SetMade(c, volumeSize, done, v) && Good(c, volumeSize, v, p)
    ensures var after := Put(c, volumeSize, v, p);
            && SetMade(c, volumeSize, done, after)
            && SetMade(c, volumeSize, done + [after], Volume(Some(|done| + 1), [], []))
  {
    hide Made; hide Good; hide Put;
    PutMade(c, volumeSize, v, p);
    FreshMade(c, volumeSize, Some(|done| + 1));
  }

  /** What the writer reads off its fields before it plans. */
  ghost function RoomIn(a: RarArchive, volumeSize: nat, pending: nat): Room
    reads a
  {
    RoomOf(a.cfg, a.volume, volumeSize, pending)
  }

  lemma WritingFacts(a: RarArchive)
    requires a.Writing()
    ensures a.Sane() && a.open && a.pos <= |a.file| && ValidVolume(a.volume) && ValidConfig(a.cfg)
    ensures a.cfg.multi ==> a.currentVolume == |a.done| + 1 && a.bytesWritten == QuickOpenPos(a.cfg, a.volume)
    ensures a.cfg.multi == a.volumeSize.Some? && a.entries == Catalog(a.cfg, a.volume)
    ensures (a.cfg.quickOpen && (!a.cfg.quickOpenAuto || a.hit)) == Wanted(a.cfg, a.volume)
  {
    hide Prologue; hide Bytes; hide Earned;
  }

  // ---------------------------------------------------------------- single steps

  method Roll(a: RarArchive) returns (ok: bool)
    requires a.Writing() && a.cfg.multi && a.currentVolume + 1 < U64
    modifies a
    ensures ok ==> a.Writing() && a.currentVolume == old(a.currentVolume) + 1
    ensures ok ==> a.done == old(a.done) + [old(a.volume)] && a.volume == Volume(Some(|a.done|), [], [])
    ensures ok ==> Contents(a) == old(Contents(a))
    ensures !ok ==> a.Sane()
  {
    hide InFile; hide InSet; hide FieldsKnown; hide AfterRoll; hide Possible;
    WritingFacts(a);
    ghost var done, v := a.done, a.volume;
    var outcome := a.StartNextVolume();
    ok := outcome == Done;
    if ok {
      WritingFacts(a);
      RolledOver(done, v, a.volume);
    }
  }

  /** A header and its data, announced before. */
  method EmitItem(a: RarArchive, item: Item) returns (ok: bool)
    requires a.Writing() && item.header != []
    modifies a
    ensures !ok ==> a.Sane()
    ensures ok ==> && a.Writing() && a.done == old(a.done) && a.currentVolume == old(a.currentVolume)
                   && a.volume == With(old(a.volume), item) && Contents(a) == old(Contents(a)) + [item]
  {
    hide InFile; hide InSet; hide FieldsKnown;
    WritingFacts(a);
    ghost var done, v := a.done, a.volume;
    ok := a.Emit(item);
    if ok {
      WritingFacts(a);
      OneMore(done, v);
      OneMore(done, a.volume);
      assert AllItems(done) + (v.items + [item]) == AllItems(done) + v.items + [item];
    }
  }

  method Announce(a: RarArchive, run: nat)
    requires a.Writing()
    modifies a`hit, a`volume
    ensures a.Writing() && a.volume == old(a.volume).(runs := old(a.volume).runs + [run])
    ensures Contents(a) == old(Contents(a))
  {
    hide InFile; hide InSet; hide FieldsKnown;
    ghost var v := a.volume;
    a.MarkQuickOpenData(run);
    OneMore(a.done, v);
    OneMore(a.done, a.volume);
  }

  /** The room in the open volume, with a header of `pending` bytes to come. */
  method ReadRoom(a: RarArchive, volumeSize: nat, pending: nat) returns (room: Room)
    requires a.Writing() && a.cfg.multi
    ensures room == RoomIn(a, volumeSize, pending) && room.used == a.bytesWritten
    ensures room.remaining == if a.bytesWritten < volumeSize then volumeSize - a.bytesWritten else 0
  {
    hide InFile; hide InSet; hide FieldsKnown; hide CatalogReserve;
    WritingFacts(a);
    var wanted := a.QuickOpenRecordWanted();
    var used := a.bytesWritten;
    room := Room(used, if used < volumeSize then volumeSize - used else 0,
                 CatalogReserve(wanted, a.entries, volumeSize, pending));
  }

  /** How much of the member goes into the open volume: the run is announced, then the
      budgets behind a middle and behind a last header are searched. */
  method PlanChunk(a: RarArchive, h: Headers, left: nat, first: bool, volumeSize: nat) returns (size: nat, ghost room: Room)
    requires a.Writing() && a.cfg.multi
    modifies a`hit, a`volume
    ensures a.Writing() && Contents(a) == old(Contents(a))
    ensures var bound := if room.remaining > 1 then room.remaining else 1;
            && room == RoomIn(a, volumeSize, h.last(bound, first))
            && size == ChunkSize(a.cfg, room, h.middle(bound, first), h.last(bound, first), left)
            && (left > 0 && h.middle(bound, first) <= h.last(bound, first) ==>
                  Largest(a.cfg, room, h.middle(bound, first), h.last(bound, first), left, size))
            && a.volume == old(a.volume).(runs := old(a.volume).runs + [if left < room.remaining then left else room.remaining])
  {
    hide InFile; hide InSet; hide FieldsKnown; hide CatalogReserve; hide Largest; hide ChunkSize;
    hide Contents; hide RoomIn; hide Wanted; hide Catalog; hide QuickOpenPos; hide ValidVolume; hide ValidConfig;
    WritingFacts(a);
    var used := a.bytesWritten;
    var remaining := if used < volumeSize then volumeSize - used else 0;
    Announce(a, if left < remaining then left else remaining);
    WritingFacts(a);
    var bound := if remaining > 1 then remaining else 1;
    var middle, last := h.middle(bound, first), h.last(bound, first);
    var here := ReadRoom(a, volumeSize, last);
    room := here;
    size := ChooseSize(a.cfg, here, middle, last, left);
  }

  /** The rest if it fits behind a last header, else what fits there if the rest fits behind
      a middle one, else what fits behind that. */
  method ChooseSize(c: Config, room: Room, middle: nat, last: nat, left: nat) returns (size: nat)
    ensures size == ChunkSize(c, room, middle, last, left)
    ensures left > 0 && middle <= last ==> Largest(c, room, middle, last, left, size)
  {
    hide ChunkFits; hide Budget; hide Largest;
    var forData := DataBudget(FitsBehind(c, room, middle), middle, room.remaining);
    var forLast := DataBudget(FitsBehind(c, room, last), last, room.remaining);
    size := if left <= forLast then left else if left <= forData then forLast else forData;
    if left > 0 && middle <= last {
      ChunkLargest(c, room, middle, last, left);
    }
  }

  /** The part that a plan offers: what is left of the member, with the headers estimated
      from the room there is. */
  function PartOf(h: Headers, c: Config, v: Volume, volumeSize: nat, rest: seq<byte>, first: bool, size: nat): Part {
    var remaining := RoomOf(c, v, volumeSize, 0).remaining;
    var bound := if remaining > 1 then remaining else 1;
    Chunk(h.header(if size > 0 then size else 1, first, size == |rest|), rest, h.middle(bound, first), h.last(bound, first))
  }

  /** The plan is what the part's rules say, and its header is as good as estimated. */
  lemma PlannedPart(h: Headers, c: Config, v: Volume, w: Volume, volumeSize: nat, rest: seq<byte>, first: bool, size: nat)
    requires ValidHeaders(h) && rest != []
    requires w == Offered(c, Some(volumeSize), v, PartOf(h, c, v, volumeSize, rest, first, size))
    requires var p := PartOf(h, c, v, volumeSize, rest, first, size);
             size == ChunkSize(c, RoomOf(c, w, volumeSize, p.last), p.middle, p.last, |rest|)
    ensures var p := PartOf(h, c, v, volumeSize, rest, first, size);
            && SizeOf(c, Some(volumeSize), v, p) == (if size > 0 then Some(size) else None)
            && Good(c, Some(volumeSize), v, p) && p.header != []
            && Put(c, Some(volumeSize), v, p) == if size > 0 then With(w, Item(p.header, rest[..size], true)) else w
  {
    hide RoomOf; hide Budgeted;
    var p := PartOf(h, c, v, volumeSize, rest, first, size);
    NoMoreThanAnnounced(c, Some(volumeSize), v, p);
    var remaining := RoomOf(c, v, volumeSize, 0).remaining;
    assert Estimated(h, if size > 0 then size else 1, if remaining > 1 then remaining else 1, first);
  }

  /** Exactly when such a chunk makes its volume too large is `ChunkWithinSizeExactly`;
      never when there is no recovery record. */
  lemma ChunkKeepsSize(h: Headers, c: Config, v: Volume, volumeSize: nat, rest: seq<byte>, first: bool, size: nat,
                       nextVolume: bool)
    requires ValidConfig(c) && ValidVolume(v) && ValidHeaders(h) && c.recovery.None? && rest != []
    requires var p := PartOf(h, c, v, volumeSize, rest, first, size);
             var w := Offered(c, Some(volumeSize), v, p);
             0 < size == ChunkSize(c, RoomOf(c, w, volumeSize, p.last), p.middle, p.last, |rest|)
    ensures var p := PartOf(h, c, v, volumeSize, rest, first, size);
            |Finished(c, Put(c, Some(volumeSize), v, p), nextVolume)| <= volumeSize
  {
    hide Finished; hide RoomOf; hide Good; hide SizeOf; hide ChunkSize;
    var p := PartOf(h, c, v, volumeSize, rest, first, size);
    PlannedPart(h, c, v, Offered(c, Some(volumeSize), v, p), volumeSize, rest, first, size);
    TakenKeepsSize(c, volumeSize, v, p, nextVolume);
  }

  // ---------------------------------------------------------------- the loop

  /** A volume with these items was offered what was left of the member somewhere, and
      took as much as it could. */
  ghost predicate FilledUp(h: Headers, c: Config, volumeSize: nat, data: seq<byte>, items: seq<Item>, v: Volume) {
    exists before: Volume, offset: nat, size: nat ::
      offset < |data| && FilledFrom(h, c, volumeSize, data, items, v, before, offset, size)
  }

  ghost predicate FilledFrom(h: Headers, c: Config, volumeSize: nat, data: seq<byte>, items: seq<Item>, v: Volume,
                             before: Volume, offset: nat, size: nat)
    requires offset < |data|
  {
    var p := PartOf(h, c, before, volumeSize, data[offset..], offset == 0, size);
    before.items == items && v == Put(c, Some(volumeSize), before, p) && Full(c, volumeSize, before, p)
  }

  /** What a member written so far, behind `first` volumes and `items` in the open one, has
      made of the set: every volume left was filled up, the `bare` ones with nothing, so
      that they are as they were; every other one keeps its size when there is no recovery
      record; and the open one holds nothing of the member yet unless it `ends` there. */
  ghost predicate Spread(h: Headers, data: seq<byte>, c: Config, volumeSize: nat, items: seq<Item>, first: nat,
                         done: seq<Volume>, v: Volume, bare: set<nat>, ends: bool) {
    && first <= |done|
    && (forall i :: first <= i < |done| ==>
          FilledUp(h, c, volumeSize, data, if i == first then items else [], done[i]))
    && (if ends then v.items != [] else v.items == if |done| == first then items else [])
    && (forall i :: i in bare ==> first <= i < |done| && done[i].items == if i == first then items else [])
    && (c.recovery.None? ==>
          && (ends ==> |Finished(c, v, true)| <= volumeSize && |Finished(c, v, false)| <= volumeSize)
          && forall i :: first <= i < |done| && i !in bare ==> |Finished(c, done[i], true)| <= volumeSize)
  }

  /** Write a member across as many volumes as it takes. When it succeeds the set holds
      exactly the member's chunks more, none of them empty, and together they are its
      payload; every volume but the `bare` ones, which were left without a chunk, keeps
      its size, unless there is a recovery record; and a volume size too small for a
      header is noticed instead of rolling for ever. */
  method WriteSplitMember(a: RarArchive, h: Headers, data: seq<byte>, volumeSize: nat)
    returns (r: Ending, ghost sizes: seq<nat>, ghost bare: set<nat>)
    requires a.Writing() && a.volumeSize == Some(volumeSize) && ValidHeaders(h) && data != []
    requires a.currentVolume + 2 * |data| + 2 < U64
    modifies a
    ensures r != Written ==> a.Sane()
    ensures r == Written ==>
              && a.Writing() && Sum(sizes) == |data| && (forall s :: s in sizes ==> s > 0)
              && Contents(a) == old(Contents(a)) + Chunks(h, data, 0, sizes)
              && Payload(Chunks(h, data, 0, sizes)) == data
    ensures r == Written ==>
              && (old(AllMade(a)) ==> AllMade(a))
              && Spread(h, data, a.cfg, volumeSize, old(a.volume.items), |old(a.done)|, a.done, a.volume, bare, true)
  {
    hide Contents; hide Chunks; hide ValidHeaders; hide SetMade; hide Spread; hide Turned; hide PartOf; hide SizeOf;
    hide InFile; hide InSet; hide FieldsKnown;
    var offset := 0;
    var rolled := false;
    sizes, bare := [], {};
    ghost var before, start, items, first := Contents(a), a.currentVolume, a.volume.items, |a.done|;
    NoChunks(h, data, before);
    SpreadStarts(h, data, a.cfg, volumeSize, a.done, a.volume);
    while offset < |data|
      invariant 0 <= offset <= |data| && Sum(sizes) == offset && a.Writing()
      invariant Contents(a) == before + Chunks(h, data, 0, sizes)
      invariant (forall s :: s in sizes ==> s > 0) && (old(AllMade(a)) ==> AllMade(a))
      invariant a.currentVolume <= start + 2 * offset + if rolled then 1 else 0
      invariant Spread(h, data, a.cfg, volumeSize, items, first, a.done, a.volume, bare, offset == |data|)
      decreases |data| - offset, if rolled then 0 else 1
    {
      var size;
      r, size, bare := WriteTurn(a, h, data, offset, volumeSize, rolled, items, first, bare);
      if r != Written {
        return;
      }
      rolled := size == 0;
      if size > 0 {
        ghost var item := ChunkAt(h, data, offset, size);
        ChunksNext(h, data, 0, sizes, size);
        Appended(before, Chunks(h, data, 0, sizes), item);
        sizes := sizes + [size];
        offset := offset + size;
      }
    }
    ChunksHold(h, data, 0, sizes);
    assert data[0..] == data;
    r := Written;
  }

  function ChunkAt(h: Headers, data: seq<byte>, offset: nat, size: nat): Item
    requires offset + size <= |data|
  {
    Item(h.header(size, offset == 0, offset + size == |data|), data[offset..offset + size], true)
  }

  /** What one turn of the loop does to the set: the part is put into the open volume,
      which is left unless it was the last. */
  ghost predicate Turned(c: Config, volumeSize: nat, done: seq<Volume>, v: Volume, p: Part, ends: bool,
                         done': seq<Volume>, v': Volume) {
    && Good(c, Some(volumeSize), v, p)
    && var after := Put(c, Some(volumeSize), v, p);
       if ends then done' == done && v' == after
       else done' == done + [after] && v' == Volume(Some(|done'|), [], [])
  }

  lemma TurnKeeps(c: Config, volumeSize: nat, done: seq<Volume>, v: Volume, p: Part, ends: bool,
                  done': seq<Volume>, v': Volume)
    requires Turned(c, volumeSize, done, v, p, ends, done', v')
    ensures SetMade(c, Some(volumeSize), done, v) ==> SetMade(c, Some(volumeSize), done', v')
  {
    hide SetMade; hide Good; hide Put;
    if SetMade(c, Some(volumeSize), done, v) {
      SetMadeNext(c, Some(volumeSize), done, v, p);
    }
  }

  /** One turn of the loop, with what it does to the set in all. */
  method WriteTurn(a: RarArchive, h: Headers, data: seq<byte>, offset: nat, volumeSize: nat, rolled: bool,
                   ghost items: seq<Item>, ghost first: nat, ghost bare: set<nat>)
    returns (r: Ending, size: nat, ghost bare': set<nat>)
    requires a.Writing() && a.volumeSize == Some(volumeSize) && ValidHeaders(h) && offset < |data|
    requires a.currentVolume + 1 < U64 && Spread(h, data, a.cfg, volumeSize, items, first, a.done, a.volume, bare, false)
    modifies a
    ensures r != Written ==> a.Sane()
    ensures r == Written ==> && a.Writing() && offset + size <= |data| && (size == 0 ==> !rolled)
                             && a.currentVolume <= old(a.currentVolume) + 1
                             && Contents(a) == old(Contents(a)) + (if size == 0 then [] else [ChunkAt(h, data, offset, size)])
    ensures r == Written ==> && (old(AllMade(a)) ==> AllMade(a))
                             && Spread(h, data, a.cfg, volumeSize, items, first, a.done, a.volume, bare', offset + size == |data|)
  {
    hide Contents; hide ValidHeaders; hide SetMade; hide Spread; hide Turned; hide PartOf; hide SizeOf;
    hide InFile; hide InSet; hide FieldsKnown; hide ChunkAt;
    bare' := bare;
    ghost var c, done, v, rest := a.cfg, a.done, a.volume, data[offset..];
    WritingFacts(a);
    r, size := WritePart(a, h, data, offset, volumeSize, rolled);
    if r == Written {
      TurnKeeps(c, volumeSize, done, v, PartOf(h, c, v, volumeSize, rest, offset == 0, size), size == |rest|, a.done, a.volume);
      bare' := SpreadNext(h, data, c, volumeSize, items, first, done, v, bare, offset, size, a.done, a.volume);
    }
  }

  lemma SpreadStarts(h: Headers, data: seq<byte>, c: Config, volumeSize: nat, done: seq<Volume>, v: Volume)
    ensures Spread(h, data, c, volumeSize, v.items, |done|, done, v, {}, false)
  {
    hide Finished;
  }

  lemma SpreadNext(h: Headers, data: seq<byte>, c: Config, volumeSize: nat, items: seq<Item>, from: nat,
                   done: seq<Volume>, v: Volume, bare: set<nat>, offset: nat, size: nat,
                   done': seq<Volume>, v': Volume) returns (bare': set<nat>)
    requires ValidConfig(c) && ValidVolume(v) && offset < |data| && size <= |data[offset..]|
    requires Spread(h, data, c, volumeSize, items, from, done, v, bare, false)
    requires var p := PartOf(h, c, v, volumeSize, data[offset..], offset == 0, size);
             && Turned(c, volumeSize, done, v, p, size == |data[offset..]|, done', v')
             && SizeOf(c, Some(volumeSize), v, p) == if size > 0 then Some(size) else None
    ensures Spread(h, data, c, volumeSize, items, from, done', v', bare', offset + size == |data|)
    ensures bare' == if size == 0 then bare + {|done|} else bare
  {
    hide Finished; hide Good; hide SizeOf; hide PartOf; hide RunOf; hide FilledUp;
    var p := PartOf(h, c, v, volumeSize, data[offset..], offset == 0, size);
    if size > 0 && c.recovery.None? {
      TakenKeepsSize(c, volumeSize, v, p, true);
      TakenKeepsSize(c, volumeSize, v, p, false);
    }
    PartFillsUp(h, data, c, volumeSize, v, offset, size);
    bare' := if size == 0 then bare + {|done|} else bare;
  }

  lemma PartFillsUp(h: Headers, data: seq<byte>, c: Config, volumeSize: nat, v: Volume, offset: nat, size: nat)
    requires offset < |data|
    requires Good(c, Some(volumeSize), v, PartOf(h, c, v, volumeSize, data[offset..], offset == 0, size))
    ensures FilledUp(h, c, volumeSize, data, v.items,
                     Put(c, Some(volumeSize), v, PartOf(h, c, v, volumeSize, data[offset..], offset == 0, size)))
  {
    hide Good; hide Full; hide Put;
    var p := PartOf(h, c, v, volumeSize, data[offset..], offset == 0, size);
    ChunkFull(c, volumeSize, v, p);
    assert FilledFrom(h, c, volumeSize, data, v.items, Put(c, Some(volumeSize), v, p), v, offset, size);
  }

  /** One turn: a chunk is written, and the volume left unless it was the last; or,
      when nothing fits, the volume is left as it is, but not twice. */
  method WritePart(a: RarArchive, h: Headers, data: seq<byte>, offset: nat, volumeSize: nat, rolled: bool)
    returns (r: Ending, size: nat)
    requires a.Writing() && a.volumeSize == Some(volumeSize) && ValidHeaders(h) && offset < |data|
    requires a.currentVolume + 1 < U64
    modifies a
    ensures r != Written ==> a.Sane()
    ensures r == Written ==> && a.Writing() && offset + size <= |data| && (size == 0 ==> !rolled)
                             && a.currentVolume <= old(a.currentVolume) + 1
                             && Contents(a) == old(Contents(a)) + (if size == 0 then [] else [ChunkAt(h, data, offset, size)])
    ensures r == Written ==>
              var c, v, rest := a.cfg, old(a.volume), data[offset..];
              var p := PartOf(h, c, v, volumeSize, rest, offset == 0, size);
              && Turned(c, volumeSize, old(a.done), v, p, size == |rest|, a.done, a.volume)
              && SizeOf(c, Some(volumeSize), v, p) == if size > 0 then Some(size) else None
  {
    hide Contents; hide ValidHeaders; hide Good; hide SizeOf; hide PartOf; hide Put;
    hide InFile; hide InSet; hide FieldsKnown;
    size := 0;
    ghost var v := a.volume;
    WritingFacts(a);
    var go := Continue(a);
    if !go {
      WritingFacts(a);
      return Broken, 0;
    }
    r, size := OfferChunk(a, h, data, offset, volumeSize, rolled);
    if r == Written && offset + size < |data| {
      PutNumber(a.cfg, Some(volumeSize), v, PartOf(h, a.cfg, v, volumeSize, data[offset..], offset == 0, size));
      var ok := Roll(a);
      r := if ok then Written else Broken;
    }
  }

  lemma PutNumber(c: Config, volumeSize: Option<nat>, v: Volume, p: Part)
    ensures Put(c, volumeSize, v, p).number == v.number
  {
    hide SizeOf; hide RunOf;
  }

  /** What is left of the member is offered to the open volume, unless it would be
      refused a second time. */
  method OfferChunk(a: RarArchive, h: Headers, data: seq<byte>, offset: nat, volumeSize: nat, rolled: bool)
    returns (r: Ending, size: nat)
    requires a.Writing() && a.volumeSize == Some(volumeSize) && ValidHeaders(h) && offset < |data|
    modifies a
    ensures r != Written ==> a.Sane()
    ensures r == Written ==> && a.Writing() && offset + size <= |data| && (size == 0 ==> !rolled)
                             && a.currentVolume == old(a.currentVolume) && a.done == old(a.done)
                             && Contents(a) == old(Contents(a)) + (if size == 0 then [] else [ChunkAt(h, data, offset, size)])
    ensures r == Written ==>
              var c, v := a.cfg, old(a.volume);
              var p := PartOf(h, c, v, volumeSize, data[offset..], offset == 0, size);
              && Good(c, Some(volumeSize), v, p) && a.volume == Put(c, Some(volumeSize), v, p)
              && SizeOf(c, Some(volumeSize), v, p) == if size > 0 then Some(size) else None
  {
    hide Contents; hide ValidHeaders; hide RoomOf; hide ChunkSize; hide Good; hide SizeOf; hide Put; hide Largest;
    hide Wanted; hide Catalog; hide QuickOpenPos; hide ValidVolume; hide ValidConfig; hide InFile; hide InSet; hide FieldsKnown;
    ghost var contents, v, c, rest := Contents(a), a.volume, a.cfg, data[offset..];
    WritingFacts(a);
    ghost var room;
    size, room := PlanChunk(a, h, |data| - offset, offset == 0, volumeSize);
    WritingFacts(a);
    if size == 0 && rolled {
      return TooSmall, 0;
    }
    SameRoom(c, v, a.volume, volumeSize, h.last(if room.remaining > 1 then room.remaining else 1, offset == 0));
    PlannedPart(h, c, v, a.volume, volumeSize, rest, offset == 0, size);
    r := Written;
    if size > 0 {
      var item := Item(h.header(size, offset == 0, offset + size >= |data|), data[offset..offset + size], true);
      assert rest[..size] == item.data;
      var ok := EmitItem(a, item);
      r := if ok then Written else Broken;
    } else {
      assert contents + [] == contents;
    }
  }

  /** The check for cancellation. */
  method Continue(a: RarArchive) returns (go: bool)
    requires a.Writing()
    modifies a`ops
    ensures a.Writing() && Contents(a) == old(Contents(a))
  {
    hide InFile; hide InSet; hide FieldsKnown;
    go := a.Operate();
  }

  lemma NoChunks(h: Headers, data: seq<byte>, before: seq<Item>)
    ensures before + Chunks(h, data, 0, []) == before && Sum([]) == 0
  {
    assert before + [] == before;
  }

  lemma Appended(before: seq<Item>, chunks: seq<Item>, item: Item)
    ensures before + chunks + [item] == before + (chunks + [item])
  {
  }

  // ---------------------------------------------------------------- a whole entry

  /** Exactly what the rules say of a member, or the header of an empty one, that is taken
      whole or not at all. */
  lemma WholePart(c: Config, volumeSize: Option<nat>, v: Volume, w: Volume, p: Part, fits: bool)
    requires !p.Chunk? && p.header != [] && w == Offered(c, volumeSize, v, p)
    requires volumeSize.Some? ==> fits == FitsHere(c, w, volumeSize.value, |p.header|, |DataOf(p)|)
    requires volumeSize.None? ==> fits
    ensures SizeOf(c, volumeSize, v, p) == (if fits then Some(|DataOf(p)|) else None) && Good(c, volumeSize, v, p)
    ensures Put(c, volumeSize, v, p) == if fits then With(w, Item(p.header, DataOf(p), true)) else w
  {
    hide RoomOf; hide FitsHere;
    assert DataOf(p)[..|DataOf(p)|] == DataOf(p);
  }

  /** A member is offered to the open volume, its run announced; without a volume size it
      is always taken. */
  method OfferWhole(a: RarArchive, header: seq<byte>, data: seq<byte>) returns (r: Ending, taken: bool)
    requires a.Writing() && header != []
    modifies a
    ensures r != Written ==> a.Sane()
    ensures r == Written ==>
              && a.Writing() && a.currentVolume == old(a.currentVolume) && a.done == old(a.done)
              && a.volume == Put(a.cfg, a.volumeSize, old(a.volume), Whole(header, data))
              && Good(a.cfg, a.volumeSize, old(a.volume), Whole(header, data))
              && (a.volumeSize.None? ==> taken)
              && Contents(a) == old(Contents(a)) + (if taken then [Item(header, data, true)] else [])
              && (taken ==> a.volume.items != [])
  {
    hide Contents; hide FitsHere; hide ChunkFits; hide RoomOf; hide Good; hide SizeOf; hide Put;
    hide InFile; hide InSet; hide FieldsKnown;
    WritingFacts(a);
    ghost var v, contents := a.volume, Contents(a);
    assert contents + [] == contents;
    taken := true;
    if a.volumeSize.Some? {
      var used := a.bytesWritten;
      var remaining := if used < a.volumeSize.value then a.volumeSize.value - used else 0;
      RemainingIs(a.cfg, v, a.volumeSize.value);
      Announce(a, if |data| < remaining then |data| else remaining);
      var room := ReadRoom(a, a.volumeSize.value, |header|);
      taken := ChunkFits(a.cfg, room, |header|, |data|);
      FitsIs(a.cfg, a.volume, a.volumeSize.value, |header|, |data|);
    } else {
      Announce(a, |data|);
    }
    WholePart(a.cfg, a.volumeSize, v, a.volume, Whole(header, data), taken);
    r := Written;
    if taken {
      var ok := EmitItem(a, Item(header, data, true));
      r := if ok then Written else Broken;
    }
  }

  lemma FitsIs(c: Config, v: Volume, volumeSize: nat, header: nat, data: nat)
    ensures FitsHere(c, v, volumeSize, header, data) <==> ChunkFits(c, RoomOf(c, v, volumeSize, header), header, data)
  {
    hide ChunkFits; hide RoomOf;
  }

  lemma RemainingIs(c: Config, v: Volume, volumeSize: nat)
    ensures RoomOf(c, v, volumeSize, 0).remaining
         == if QuickOpenPos(c, v) < volumeSize then volumeSize - QuickOpenPos(c, v) else 0
  {
    hide QuickOpenReserve; hide QuickOpenPos;
  }

  /** The header of an empty member is offered to the open volume. */
  method OfferBare(a: RarArchive, header: seq<byte>) returns (r: Ending, taken: bool)
    requires a.Writing() && a.volumeSize.Some? && header != []
    modifies a
    ensures r != Written ==> a.Sane()
    ensures r == Written ==>
              && a.Writing() && a.currentVolume == old(a.currentVolume) && a.done == old(a.done)
              && a.volume == Put(a.cfg, a.volumeSize, old(a.volume), Bare(header))
              && Good(a.cfg, a.volumeSize, old(a.volume), Bare(header))
              && Contents(a) == old(Contents(a)) + (if taken then [Item(header, [], true)] else [])
              && (taken ==> a.volume.items != [])
  {
    hide Contents; hide FitsHere; hide ChunkFits; hide RoomOf; hide Good; hide SizeOf; hide Put;
    hide InFile; hide InSet; hide FieldsKnown;
    WritingFacts(a);
    ghost var v, contents := a.volume, Contents(a);
    assert contents + [] == contents;
    var room := ReadRoom(a, a.volumeSize.value, |header|);
    taken := ChunkFits(a.cfg, room, |header|, 0);
    FitsIs(a.cfg, v, a.volumeSize.value, |header|, 0);
    WholePart(a.cfg, a.volumeSize, v, v, Bare(header), taken);
    r := Written;
    if taken {
      var ok := EmitItem(a, Item(header, [], true));
      r := if ok then Written else Broken;
    }
  }

  /** A header without data, in the open volume or the next. */
  method WriteEmptyMember(a: RarArchive, header: seq<byte>) returns (r: Ending)
    requires a.Writing() && a.volumeSize.Some? && header != [] && a.currentVolume + 1 < U64
    modifies a
    ensures r != Written ==> a.Sane()
    ensures r == Written ==> && a.Writing() && Contents(a) == old(Contents(a)) + [Item(header, [], true)]
                             && (old(AllMade(a)) ==> AllMade(a)) && a.volume.items != []
  {
    hide Contents; hide SetMade; hide Good; hide Put;
    hide InFile; hide InSet; hide FieldsKnown;
    WritingFacts(a);
    ghost var contents, done, v := Contents(a), a.done, a.volume;
    assert contents + [] == contents;
    var taken;
    r, taken := OfferBare(a, header);
    if r != Written {
      return;
    }
    MadeByPart(a.cfg, a.volumeSize, done, v, Bare(header));
    if !taken {
      var ok := Roll(a);
      if !ok {
        return Broken;
      }
      PutNumber(a.cfg, a.volumeSize, v, Bare(header));
      r, taken := OfferBare(a, header);
      if r != Written {
        return;
      }
      MadeByPart(a.cfg, a.volumeSize, done + [Put(a.cfg, a.volumeSize, v, Bare(header))],
                 Volume(Some(|done| + 1), [], []), Bare(header));
      if !taken {
        WritingFacts(a);
        return TooSmall;
      }
    }
  }

  /** What is known of the set outlasts a part. */
  lemma MadeByPart(c: Config, volumeSize: Option<nat>, done: seq<Volume>, v: Volume, p: Part)
    requires Good(c, volumeSize, v, p)
    ensures SetMade(c, volumeSize, done, v) ==>
              && SetMade(c, volumeSize, done, Put(c, volumeSize, v, p))
              && SetMade(c, volumeSize, done + [Put(c, volumeSize, v, p)], Volume(Some(|done| + 1), [], []))
  {
    hide SetMade; hide Good; hide Put;
    if SetMade(c, volumeSize, done, v) {
      SetMadeNext(c, volumeSize, done, v, p);
    }
  }

  /** One member, whole where it fits and in chunks where it does not; when it succeeds
      the archive holds its payload more, in order, and nothing else, in volumes that are
      all of the making that `Filling` describes. */
  method WriteFileEntry(a: RarArchive, h: Headers, data: seq<byte>) returns (r: Ending, ghost items: seq<Item>)
    requires a.Writing() && ValidHeaders(h) && a.currentVolume + 2 * |data| + 2 < U64
    modifies a
    ensures r != Written ==> a.Sane()
    ensures r == Written ==>
              && a.Writing() && Contents(a) == old(Contents(a)) + items && Payload(items) == data
              && (forall item :: item in items ==> item.cached)
              && (old(AllMade(a)) ==> AllMade(a)) && a.volume.items != []
              && (AllMade(a) ==> SizesKept(a))
  {
    hide InFile; hide InSet; hide FieldsKnown; hide ValidHeaders; hide Chunks; hide SetMade; hide Contents; hide Put;
    hide Good; hide Spread;
    WholeHeader(h, data);
    items := [Item(h.whole, data, true)];
    ghost var contents, done, v := Contents(a), a.done, a.volume;
    assert contents + [] == contents;
    var taken;
    r, taken := OfferWhole(a, h.whole, data);
    if r != Written {
      return;
    }
    MadeByPart(a.cfg, a.volumeSize, done, v, Whole(h.whole, data));
    v := a.volume;
    if !taken && data == [] {
      r := WriteEmptyMember(a, h.whole);
    } else if !taken {
      ghost var sizes;
      ghost var bare;
      r, sizes, bare := WriteSplitMember(a, h, data, a.volumeSize.value);
      if r == Written {
        items := Chunks(h, data, 0, sizes);
        ChunksCached(h, data, 0, sizes);
        SpreadEnds(h, data, a.cfg, a.volumeSize.value, v.items, |done|, a.done, a.volume, bare);
      }
    }
    if r == Written && AllMade(a) {
      MadeSizesKept(a);
    }
  }

  lemma WholeHeader(h: Headers, data: seq<byte>)
    requires ValidHeaders(h)
    ensures h.whole != [] && Payload([Item(h.whole, data, true)]) == data
  {
    var item := Item(h.whole, data, true);
    assert [item][1..] == [] && data + [] == data;
  }

  lemma SpreadEnds(h: Headers, data: seq<byte>, c: Config, volumeSize: nat, items: seq<Item>, first: nat,
                   done: seq<Volume>, v: Volume, bare: set<nat>)
    requires Spread(h, data, c, volumeSize, items, first, done, v, bare, true)
    ensures v.items != []
  {
  }

  lemma {:induction false} ChunksCached(h: Headers, data: seq<byte>, offset: nat, sizes: seq<nat>)
    requires offset + Sum(sizes) <= |data|
    ensures forall item :: item in Chunks(h, data, offset, sizes) ==> item.cached
    decreases |sizes|
  {
    if sizes != [] {
      ChunksCached(h, data, offset + sizes[0], sizes[1..]);
    }
  }

  // ---------------------------------------------------------------- the sizes of a set

  /** When it is sure beforehand which records a volume will carry, every volume of the
      set keeps its size. */
  ghost predicate SizesKept(a: RarArchive)
    reads a
  {
    a.volumeSize.Some? ==> EachWithin(a.cfg, a.volumeSize.value, a.done + [a.volume])
  }

  ghost predicate EachWithin(c: Config, volumeSize: nat, volumes: seq<Volume>) {
    c.recovery.None? && !(c.quickOpen && c.quickOpenAuto) ==>
      forall i, next: bool :: 0 <= i < |volumes| ==> |Finished(c, volumes[i], next)| <= volumeSize
  }

  lemma MadeSizesKept(a: RarArchive)
    requires a.Writing() && AllMade(a) && a.volume.items != []
    ensures SizesKept(a)
  {
    hide Finished; hide Made; hide EachWithin; hide InFile; hide FieldsKnown; hide ValidVolume;
    WritingFacts(a);
    if a.volumeSize.Some? {
      Numbered(a);
      SetWithin(a.cfg, a.volumeSize.value, a.done + [a.volume]);
    }
  }

  lemma Numbered(a: RarArchive)
    requires a.Writing()
    ensures var volumes := a.done + [a.volume];
            forall i :: 0 <= i < |volumes| ==> volumes[i].number == NumberOf(i) && ValidVolume(volumes[i])
  {
    hide Finished; hide InFile; hide FieldsKnown; hide ValidVolume;
    WritingFacts(a);
  }

  /** A set of such volumes, numbered in order, the last not empty: even a volume left
      empty is no longer than the last. */
  lemma SetWithin(c: Config, volumeSize: nat, volumes: seq<Volume>)
    requires ValidConfig(c) && volumes != [] && volumes[|volumes| - 1].items != []
    requires forall i :: 0 <= i < |volumes| ==> volumes[i].number == NumberOf(i) && ValidVolume(volumes[i])
    requires forall v :: v in volumes ==> Made(c, Some(volumeSize), v)
    ensures EachWithin(c, volumeSize, volumes)
  {
    hide Finished; hide Made;
    if c.recovery.None? && !(c.quickOpen && c.quickOpenAuto) {
      var last := volumes[|volumes| - 1];
      forall i, next: bool | 0 <= i < |volumes| ensures |Finished(c, volumes[i], next)| <= volumeSize {
        assert volumes[i] in volumes && last in volumes;
        if volumes[i].items != [] {
          MadeKeepsSize(c, volumeSize, volumes[i], next);
        } else {
          MadeKeepsSize(c, volumeSize, last, next);
          EmptyWithin(c, volumes[i], last, next, next);
        }
      }
    }
  }
}
