/** Volumes that leave their size, and a search that misses: concrete members that
    show where the conditions of `VolumeBudget` matter. */
module VolumeOverflow {
  import opened Options
  import opened Vint
  import opened Blocks
  import opened VolumeLayout
  import opened VolumeBudget
  import opened Filling
  import Locator
  import QuickOpen

  // ---------------------------------------------------------------- volumes beyond their size

  /** A volume set with both records, 16554 bytes to a volume. */
  ghost predicate TightConfig(c: Config) {
    && ValidConfig(c) && c.multi && c.quickOpen && !c.quickOpenAuto
    && c.recovery == Some(10) && c.width == 5
  }

  lemma TightPrologue(c: Config)
    requires TightConfig(c)
    ensures |Prologue(c, None)| == 30
  {
    hide Encoded; hide Fixed;
    var s := ShapeOf(c, None);
    Locator.RecordHeadReads(s, 0, 0);
    var h := ArchiveHeader(s.flags, Locator.Extra(s, 0, 0), None);
    Small(ARCHIVE_HEADER);
    Small(SKIP_IF_UNKNOWN + EXTRA_DATA);
    Small(13);
    Small(StoredFlags(h));
    Small(17);
    assert |MainBody(h)| == 17;
  }

  /** A member that passes the test and still makes the volume too large: the distance
      to its header takes one byte less than reserved, the prefix is one shard short of
      the one assumed, and its parity 54 bytes longer. */
  lemma SizeExceeded(c: Config, item: Item, nextVolume: bool)
    requires TightConfig(c) && item.cached && |item.header| == 50 && |item.data| == 15202
    requires ParityAsPlanned(c, Volume(None, [item], []))
    ensures FitsHere(c, Volume(None, [], []), 16554, |item.header|, |item.data|)
    ensures |Finished(c, Volume(None, [item], []), nextVolume)| == 16607
  {
    hide Finished; hide ParityLength; hide AtLeast; hide Encoded; hide QuickOpenPart; hide Prologue; hide ServiceLength;
    hide QuickOpen.EntryLenUpper; hide RecoveryReserve;
    var v, after := Volume(None, [], []), Volume(None, [item], []);
    TightPrologue(c);
    TightReserve(c, v);
    TightPart(c, item);
    ParityShrinks();
    TightRecovery(c);
    assert Bytes(after.items) == item.header + item.data by {
      assert [item][1..] == [];
    }
    FinishedLength(c, after, nextVolume);
  }

  /** Such a configuration, with a parity function of the planned lengths. */
  function TightExample(crc: Checksum): Config {
    Config(crc, (prefix: seq<byte>, percent: nat) => seq(ParityLength(|prefix|, percent), _ => 0),
           true, false, Some(10), 5, 1, false, true)
  }

  const TIGHT_MEMBER := Item(seq(50, _ => 1), seq(15202, _ => 0), true)

  /** So the volume size is not a bound: 16554 bytes were asked for, 16607 are written. */
  lemma SizeIsExceeded(crc: Checksum, nextVolume: bool)
    ensures FitsHere(TightExample(crc), Volume(None, [], []), 16554, |TIGHT_MEMBER.header|, |TIGHT_MEMBER.data|)
    ensures |Finished(TightExample(crc), Volume(None, [TIGHT_MEMBER], []), nextVolume)| == 16607
  {
    hide FitsHere; hide Finished; hide Protected; hide RecoveryPos; hide ParityLength;
    hide TightConfig; hide ParityAsPlanned;
    TightIsExample(crc, Volume(None, [TIGHT_MEMBER], []));
    SizeExceeded(TightExample(crc), TIGHT_MEMBER, nextVolume);
  }

  lemma TightIsExample(crc: Checksum, v: Volume)
    ensures TightConfig(TightExample(crc)) && ParityAsPlanned(TightExample(crc), v)
    ensures |TIGHT_MEMBER.header| == 50 && |TIGHT_MEMBER.data| == 15202
  {
    hide Finished; hide Protected; hide RecoveryPos; hide ParityLength; hide Holds; hide Bytes; hide QuickOpenPart;
    hide RecoveryPart; hide EndBlock; hide Prologue; hide FinalHeader; hide QuickOpenPos;
    var c := TightExample(crc);
    FinishedParts(c, v, true);
    assert |c.parity(Protected(c, v), 10)| == ParityLength(|Protected(c, v)|, 10);
  }

  lemma TightReserve(c: Config, v: Volume)
    requires TightConfig(c) && v == Volume(None, [], [])
    ensures QuickOpenReserve(c, v, 16554, 50) == 79
  {
    hide AtLeast; hide Encoded;
    ThreeBytes(16554);
    Small(50);
    Small(55);
    Small(60);
    Small(14);
    AtLeastLength(60);
  }

  lemma TightPart(c: Config, item: Item)
    requires TightConfig(c) && item.cached && |item.header| == 50 && |item.data| == 15202
    ensures |QuickOpenPart(c, Volume(None, [item], []))| == 78
  {
    hide AtLeast; hide Encoded; hide Prologue; hide ServiceBlock;
    var v := Volume(None, [item], []);
    TightPrologue(c);
    assert [item][1..] == [];
    assert Bytes(v.items) == item.header + item.data;
    assert v.items[1..] == [] && Cached([], 15282) == [];
    assert Cached(v.items, 30) == [(30, item.header)];
    var e := QuickOpen.Entry(15252, item.header);
    var cached: seq<(nat, seq<byte>)> := [(30, item.header)];
    assert cached[1..] == [] && Distances(cached[1..], 15282) == Some([]);
    assert [e] + [] == [e];
    assert Distances(cached, 15282) == Some([e]);
    assert [e][1..] == [];
    assert QuickOpen.EncodePayload(c.crc, [e]) == QuickOpen.EncodeEntry(c.crc, e);
    Small(0);
    TwoBytes(15252);
    Small(50);
    Small(54);
    assert |QuickOpen.EncodeEntry(c.crc, e)| == 59;
    ServiceLengthIs(c, QUICK_OPEN_NAME, [], 59);
    Small(59);
    AtLeastLength(59);
    Small(14);
  }

  lemma TightRecovery(c: Config)
    requires TightConfig(c)
    ensures RecoveryReserve(c, 15361) == 1185 && RecoveryReserve(c, 15360) == 1239
  {
    hide ParityLength; hide ServiceLength;
    ParityShrinks();
    RecoveryHeader(1162);
    RecoveryHeader(1216);
  }

  // ---------------------------------------------------------------- a search that misses

  /** The signature and main header written, 2860 bytes to a volume and 3 percent: what
      costs `prefix` bytes in all takes two data shards up to 2048 bytes, then three. */
  const MISSED: Room := Room(25, 2835, 0)

  lemma CostIs(c: Config, data: nat, shards: nat, group: nat)
    requires c.recovery == Some(3) && 75 + data < 204800 && shards == DivCeil(75 + data, 1024) && 0 < shards < 66
    requires group == Even(DivCeil(75 + data, shards)) && 48 <= group <= 1024
    ensures ChunkFits(c, MISSED, 50, data) <==> data + 8 + 23 + (8 * shards + 72 + group) + 75 <= 2860
  {
    hide ParityLength; hide ServiceLength; hide DivCeil; hide Even;
    ParityIs(75 + data, 3, shards, group, 1);
    RecoveryHeader(8 * shards + 72 + group);
  }

  /** That is the room of a fresh volume with such a record and no quick-open one. */
  lemma MissedIsFresh(c: Config, pending: nat)
    requires ValidConfig(c) && c.multi && !c.quickOpen && c.recovery == Some(3) && c.width == 5
    ensures RoomOf(c, Volume(None, [], []), 2860, pending) == MISSED
  {
    hide Encoded; hide Fixed;
    var s := ShapeOf(c, None);
    Locator.RecordHeadReads(s, 0, 0);
    var h := ArchiveHeader(s.flags, Locator.Extra(s, 0, 0), None);
    Small(ARCHIVE_HEADER);
    Small(SKIP_IF_UNKNOWN + EXTRA_DATA);
    Small(8);
    Small(StoredFlags(h));
    Small(12);
    assert |MainBody(h)| == 12;
    assert Bytes([]) == [];
  }

  /** Behind a 50-byte header 1974 bytes fit into such a fresh volume of 2860, but the
      search settles below 1915. */
  lemma SearchMisses(c: Config, pending: nat)
    requires ValidConfig(c) && c.multi && !c.quickOpen && c.recovery == Some(3) && c.width == 5
    ensures var room := RoomOf(c, Volume(None, [], []), 2860, pending);
            ChunkFits(c, room, 50, 1974) && Budgeted(c, room, 50) < 1915
  {
    hide ChunkFits; hide Budgeted; hide RoomOf;
    MissedIsFresh(c, pending);
    MissedSearch(c);
  }

  lemma MissedSearch(c: Config)
    requires c.recovery == Some(3)
    ensures ChunkFits(c, MISSED, 50, 1974) && Budgeted(c, MISSED, 50) < 1915
  {
    hide ChunkFits; hide Search; hide Misleads; hide FitsBehind;
    var fits := FitsBehind(c, MISSED, 50);
    MissedSteps(c);
    SearchStep(fits, 0, 2785);
    SearchStep(fits, 1393, 2785);
    SearchStep(fits, 1393, 2088);
    SearchStep(fits, 1741, 2088);
    SearchWithin(fits, 1741, 1914);
  }

  lemma MissedSteps(c: Config)
    requires c.recovery == Some(3)
    ensures var fits := FitsBehind(c, MISSED, 50);
            !fits(2785) && fits(1393) && !fits(2089) && fits(1741) && !fits(1915)
    ensures ChunkFits(c, MISSED, 50, 1974)
  {
    TooMuch(c);
    CostAt1393(c);
    CostAt2089(c);
    CostAt1741(c);
    CostAt1915(c);
    CostAt1974(c);
    hide ChunkFits;
  }

  lemma TooMuch(c: Config)
    ensures !ChunkFits(c, MISSED, 50, 2785)
  {
    hide RecoveryReserve;
  }

  lemma CostAt1393(c: Config)
    requires c.recovery == Some(3)
    ensures ChunkFits(c, MISSED, 50, 1393)
  {
    hide ChunkFits;
    CostIs(c, 1393, 2, 734);
  }

  lemma CostAt2089(c: Config)
    requires c.recovery == Some(3)
    ensures !ChunkFits(c, MISSED, 50, 2089)
  {
    hide ChunkFits;
    CostIs(c, 2089, 3, 722);
  }

  lemma CostAt1741(c: Config)
    requires c.recovery == Some(3)
    ensures ChunkFits(c, MISSED, 50, 1741)
  {
    hide ChunkFits;
    CostIs(c, 1741, 2, 908);
  }

  lemma CostAt1915(c: Config)
    requires c.recovery == Some(3)
    ensures !ChunkFits(c, MISSED, 50, 1915)
  {
    hide ChunkFits;
    CostIs(c, 1915, 2, 996);
  }

  lemma CostAt1974(c: Config)
    requires c.recovery == Some(3)
    ensures ChunkFits(c, MISSED, 50, 1974)
  {
    hide ChunkFits;
    CostIs(c, 1974, 3, 684);
  }

  // ---------------------------------------------------------------- a record nobody reserved for

  /** Automatic quick-open records, no recovery record. */
  function AutoExample(crc: Checksum): Config {
    Config(crc, (prefix: seq<byte>, percent: nat) => [], true, true, None, 5, 1, false, true)
  }

  lemma AutoPrologue(crc: Checksum)
    ensures |Prologue(AutoExample(crc), None)| == 25
  {
    hide Encoded; hide Fixed;
    var s := ShapeOf(AutoExample(crc), None);
    Locator.RecordHeadReads(s, 0, 0);
    var h := ArchiveHeader(s.flags, Locator.Extra(s, 0, 0), None);
    Small(ARCHIVE_HEADER);
    Small(SKIP_IF_UNKNOWN + EXTRA_DATA);
    Small(8);
    Small(StoredFlags(h));
    Small(12);
    assert |MainBody(h)| == 12;
  }

  /** A tiny member with a long name. */
  function LongMember(): (item: Item)
    ensures |item.header| == 1000 && |item.data| == 1 && item.cached
  {
    Item(seq(1000, _ => 1), [7], true)
  }

  /** A volume of `n` such members. */
  function LongNamed(n: nat): Volume {
    if n == 0 then Volume(None, [], [])
    else With(LongNamed(n - 1), LongMember()).(runs := LongNamed(n - 1).runs + [1])
  }

  lemma {:induction false} LongNamedIs(n: nat)
    ensures LongNamed(n).number == None && ValidVolume(LongNamed(n))
    ensures forall run :: run in LongNamed(n).runs ==> run == 1
  {
    if n > 0 {
      LongNamedIs(n - 1);
    }
  }

  lemma {:induction false} LongNamedSize(n: nat)
    ensures |Bytes(LongNamed(n).items)| == 1001 * n
  {
    if n > 0 {
      LongNamedSize(n - 1);
      BytesAppend(LongNamed(n - 1).items, LongMember());
    }
  }

  function HeaderBytes(cached: seq<(nat, seq<byte>)>): nat {
    if cached == [] then 0 else |cached[0].1| + HeaderBytes(cached[1..])
  }

  lemma {:induction false} HeadersNeedRoom(cached: seq<(nat, seq<byte>)>, pos: nat, volumeSize: nat)
    ensures CatalogLength(cached, pos) >= HeaderBytes(cached)
    ensures EntriesUpper(cached, volumeSize) >= HeaderBytes(cached)
  {
    hide Encoded;
    if cached != [] {
      HeadersNeedRoom(cached[1..], pos, volumeSize);
    }
  }

  lemma {:induction false} HeaderBytesAppend(cached: seq<(nat, seq<byte>)>, e: (nat, seq<byte>))
    ensures HeaderBytes(cached + [e]) == HeaderBytes(cached) + |e.1|
  {
    if cached == [] {
      assert cached + [e] == [e] && [e][1..] == [];
    } else {
      assert (cached + [e])[1..] == cached[1..] + [e];
      HeaderBytesAppend(cached[1..], e);
    }
  }

  lemma {:induction false} LongNamedHeaders(n: nat, at: nat)
    ensures HeaderBytes(Cached(LongNamed(n).items, at)) == 1000 * n
  {
    hide HeaderBytes;
    if n > 0 {
      var v := LongNamed(n - 1);
      LongNamedHeaders(n - 1, at);
      CachedAppend(v.items, LongMember(), at);
      HeaderBytesAppend(Cached(v.items, at), (at + |Bytes(v.items)|, LongMember().header));
    } else {
      NoHeaders(at);
    }
  }

  lemma NoHeaders(at: nat)
    ensures HeaderBytes(Cached([], at)) == 0
  {
  }

  /** The same, as parts offered to a volume. */
  function LongNames(n: nat): seq<Part> {
    if n == 0 then [] else LongNames(n - 1) + [Whole(LongMember().header, LongMember().data)]
  }

  /** All of them are taken by a 9130-byte volume, which earns no record by them. */
  lemma {:induction false} LongNamedTaken(crc: Checksum, n: nat)
    requires n <= 5
    ensures Filled(AutoExample(crc), Some(9130), None, LongNames(n)) == LongNamed(n)
    ensures !Wanted(AutoExample(crc), LongNamed(n))
  {
    hide LongMember; hide FitsHere; hide RoomOf;
    var c := AutoExample(crc);
    if n > 0 {
      LongNamedTaken(crc, n - 1);
      LongNamedFits(crc, n - 1);
      hide LongNamed; hide LongNames; hide Wanted; hide Filled;
      LongNamesNext(n);
      var p := Whole(LongMember().header, LongMember().data);
      FilledNext(c, Some(9130), None, LongNames(n - 1), p);
      OneByteFits(c, LongNamed(n - 1), p);
      LongNamedNext(n);
      LongNamedIs(n);
      ShortRunsEarnNothing(c, LongNamed(n));
    } else {
      ShortRunsEarnNothing(c, LongNamed(n));
    }
  }

  lemma LongNamesNext(n: nat)
    requires n > 0
    ensures LongNames(n) == LongNames(n - 1) + [Whole(LongMember().header, LongMember().data)]
  {
  }

  lemma LongNamedNext(n: nat)
    requires n > 0
    ensures LongNamed(n) == With(LongNamed(n - 1), LongMember()).(runs := LongNamed(n - 1).runs + [1])
  {
  }

  lemma ShortRunsEarnNothing(c: Config, v: Volume)
    requires c.quickOpen && c.quickOpenAuto && forall run :: run in v.runs ==> run == 1
    ensures !Wanted(c, v)
  {
  }

  lemma OneByteFits(c: Config, v: Volume, p: Part)
    requires p.Whole? && |p.data| == 1 && FitsHere(c, v.(runs := v.runs + [1]), 9130, |p.header|, 1)
    ensures Put(c, Some(9130), v, p) == With(v.(runs := v.runs + [1]), Item(p.header, p.data, true))
  {
    hide TailBehind; hide QuickOpenReserve;
    assert p.data[..1] == p.data;
  }

  /** Five members taken by a 9130-byte volume that earns no record by them; then 4100
      bytes are left, and a long member is announced of which nothing fits: the volume is
      closed as it is, with a record for its five headers, too large. */
  lemma RecordExceeds(crc: Checksum, long: Part, nextVolume: bool)
    requires long.Chunk? && |long.data| > AUTO_THRESHOLD && |long.header| <= long.middle <= long.last
    ensures var c := AutoExample(crc);
            var v := Filled(c, Some(9130), None, LongNames(5));
            var after := Filled(c, Some(9130), None, LongNames(5) + [long]);
            && v == LongNamed(5) && |LongNames(5)| == |v.items| && !Wanted(c, v) && QuickOpenPos(c, v) + 4100 == 9130
            && after.items == v.items && |Finished(c, after, nextVolume)| > 9130
  {
    hide FitsHere; hide Finished; hide Budgeted; hide RecordLength; hide LongNamed; hide LongNames; hide Filled;
    hide ServiceLength; hide QuickOpenReserve; hide LongMember;
    var c, v := AutoExample(crc), LongNamed(5);
    LongNamedTaken(crc, 5);
    LongNamesCount(5);
    AutoPrologue(crc);
    LongNamedSize(5);
    LongNamedIs(5);
    FilledNext(c, Some(9130), None, LongNames(5), long);
    var run := if |long.data| < 4100 then |long.data| else 4100;
    var after := v.(runs := v.runs + [run]);
    assert ParityAsPlanned(c, after);
    LateRunExceeds(c, v, |long.data|, 9130, nextVolume);
    LongNamedRecord(crc);
    NothingFits(crc, |long.data|, long.middle, long.last);
    NothingFits(crc, |long.data|, long.last, long.last);
  }

  lemma {:induction false} LongNamesCount(n: nat)
    ensures |LongNames(n)| == n == |LongNamed(n).items|
  {
    if n > 0 {
      LongNamesCount(n - 1);
    }
  }

  lemma LongNamedFits(crc: Checksum, k: nat)
    requires k < 5
    ensures var c, v := AutoExample(crc), LongNamed(k).(runs := LongNamed(k).runs + [1]);
            !Wanted(c, v) && FitsHere(c, v, 9130, 1000, 1)
  {
    hide LongNamed; hide Prologue; hide Bytes;
    AutoPrologue(crc);
    LongNamedSize(k);
    LongNamedIs(k);
  }

  lemma LongNamedRecord(crc: Checksum)
    ensures RecordLength(Catalog(AutoExample(crc), LongNamed(5)), 5030) >= 5000
  {
    hide LongNamed; hide CatalogLength; hide ServiceLength; hide Cached; hide Prologue;
    var c := AutoExample(crc);
    LongNamedIs(5);
    LongNamedHeaders(5, |Prologue(c, None)|);
    HeadersNeedRoom(Catalog(c, LongNamed(5)), 5030, 0);
  }

  lemma NothingFits(crc: Checksum, left: nat, header: nat, pending: nat)
    requires left > AUTO_THRESHOLD
    ensures var c, v := AutoExample(crc), LongNamed(5);
            var after := v.(runs := v.runs + [if left < 4100 then left else 4100]);
            Budgeted(c, RoomOf(c, after, 9130, pending), header) == 0
  {
    hide LongNamed; hide EntriesUpper; hide ServiceLength; hide Cached; hide Prologue; hide Bytes; hide Budgeted;
    hide QuickOpen.EntryLenUpper;
    var c, v := AutoExample(crc), LongNamed(5);
    var run := if left < 4100 then left else 4100;
    var after := v.(runs := v.runs + [run]);
    assert run in after.runs;
    AutoPrologue(crc);
    LongNamedSize(5);
    LongNamedIs(5);
    LongNamedHeaders(5, |Prologue(c, None)|);
    HeadersNeedRoom(Catalog(c, after), 0, 9130);
    BudgetedFits(c, RoomOf(c, after, 9130, pending), header);
  }

  // ---------------------------------------------------------------- a record for a short run

  /** A volume of 4125 bytes, 4100 of them left, is offered a member of 10000 with headers
      of 50: the run announced is 4100, the chunk it takes 3964 bytes, so it gets a record
      without holding a run over 4096. */
  lemma ShortChunkEarns(crc: Checksum, p: Part)
    requires p.Chunk? && |p.header| == 50 && |p.data| == 10000 && p.middle == p.last == 50
    ensures var c, empty := AutoExample(crc), Volume(None, [], []);
            var v := Filled(c, Some(4125), None, [p]);
            && RunOf(c, Some(4125), empty, p) == 4100 && TakenOf(c, Some(4125), empty, p) == 3964
            && QuickOpenPart(c, v) != [] && !HoldsLongRun(v)
  {
    hide Prologue; hide Budgeted; hide QuickOpenPart; hide Wanted; hide QuickOpenReserve; hide Filled;
    var c, empty := AutoExample(crc), Volume(None, [], []);
    FilledNext(c, Some(4125), None, [], p);
    FilledNone(c, Some(4125));
    assert [] + [p] == [p];
    AutoPrologue(crc);
    assert Bytes(empty.items) == [];
    var w := Volume(None, [], [4100]);
    assert Offered(c, Some(4125), empty, p) == w;
    EmptyReserve(crc);
    OnlyRoom(c, Room(25, 4100, 78), 50, 3964);
    assert 4100 in w.runs;
    var chunk := Item(p.header, p.data[..3964], true);
    assert With(w, chunk).items == [chunk];
    RecordLengthIs(c, With(w, chunk));
    RecordNotEmpty(c, With(w, chunk));
  }

  lemma FilledNone(c: Config, volumeSize: Option<nat>)
    ensures Filled(c, volumeSize, None, []) == Volume(None, [], [])
  {
  }

  lemma EmptyReserve(crc: Checksum)
    ensures RoomOf(AutoExample(crc), Volume(None, [], [4100]), 4125, 50) == Room(25, 4100, 78)
  {
    hide Prologue; hide AtLeast; hide Encoded;
    AutoPrologue(crc);
    assert 4100 in Volume(None, [], [4100]).runs;
    TwoBytes(4125);
    Small(50);
    Small(54);
    Small(59);
    AtLeastLength(59);
    Small(14);
  }

  /** Without a recovery record the search finds exactly what is left. */
  lemma OnlyRoom(c: Config, room: Room, header: nat, data: nat)
    requires c.recovery.None? && header + data + 8 + room.catalog == room.remaining
    ensures Budgeted(c, room, header) == data
  {
    hide Budgeted;
    BudgetedLargest(c, room, header);
    BudgetedFits(c, room, header);
    assert ChunkFits(c, room, header, data);
  }

  lemma RecordNotEmpty(c: Config, v: Volume)
    requires Earned(v.runs) && c.quickOpen && c.quickOpenAuto
    ensures Wanted(c, v)
  {
  }
}
