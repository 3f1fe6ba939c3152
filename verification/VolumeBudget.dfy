/** Keeping a volume within its size (format/rar5/write/emit.rs): room reserved for the
    trailing records before a member is written, against what the records take when
    the volume is finished. The recovery record's geometry is that of
    recovery/rar50/plan.rs. */
module VolumeBudget {
  import opened Options
  import opened Vint
  import opened Blocks
  import opened VolumeLayout
  import QuickOpen

  // ---------------------------------------------------------------- recovery geometry

  function DivCeil(a: nat, b: nat): nat
    requires b > 0
  {
    (a + b - 1) / b
  }

  function DataShards(size: nat): (n: nat)
    ensures 1 <= n <= 200
  {
    if size >= 204800 then 200 else if size == 0 then 1 else DivCeil(size, 1024)
  }

  function RecoveryShards(size: nat, percent: nat): nat {
    var pct := if percent < 100 then percent else 100;
    var shards := 2 * pct * DataShards(size) / 200;
    var capped := if shards < DataShards(size) then shards else DataShards(size);
    if capped == 0 && size < 204800 then 1 else capped
  }

  function Even(n: nat): nat {
    n + n % 2
  }

  function GroupCount(size: nat): nat {
    Even(DivCeil(size, DataShards(size)))
  }

  function ShardSize(group: nat, shards: nat): nat {
    var blocks := DivCeil(group, 65536);
    Times(8 * shards + 72, if blocks < 1 then 1 else blocks) + group
  }

  /** The parity's length for a prefix of `size` bytes. */
  function ParityLength(size: nat, percent: nat): nat {
    Times(RecoveryShards(size, percent), ShardSize(GroupCount(size), DataShards(size)))
  }

  function Times(a: nat, b: nat): nat {
    a * b
  }

  // ---------------------------------------------------------------- the geometry in inequalities

  /** As few pieces of `unit` as hold `size`. */
  predicate Covers(pieces: nat, unit: nat, size: nat) {
    size <= pieces * unit && (pieces > 0 ==> (pieces - 1) * unit < size)
  }

  lemma DivCeilCovers(a: nat, b: nat)
    requires b > 0
    ensures Covers(DivCeil(a, b), b, a)
  {
    var q := DivCeil(a, b);
    var r := (a + b - 1) % b;
    assert a + b - 1 == b * q + r;
    if q > 0 {
      assert (q - 1) * b == b * q - b;
    }
  }

  /** The parity in inequalities: `n` data shards, a kilobyte each up to 200 of them; of
      these a hundredth as many times as the percentage says are recovery shards, and at
      least one of a short prefix; a shard holds an even share of the prefix, and a header
      for every 64 kilobytes of it. */
  lemma ParityGeometry(size: nat, percent: nat) returns (blocks: nat)
    ensures var n, group := DataShards(size), GroupCount(size);
            var recovery := RecoveryShards(size, percent);
            && (if size >= 204800 then n == 200 else if size == 0 then n == 1 else Covers(n, 1024, size))
            && (if percent >= 100 then recovery == n
                else if percent * n < 100 && size < 204800 then recovery == 1
                else 100 * recovery <= percent * n < 100 * (recovery + 1))
            && group % 2 == 0 && (Covers(group, n, size) || (group > 0 && Covers(group - 1, n, size)))
    ensures var n, group := DataShards(size), GroupCount(size);
            && ParityLength(size, percent) == RecoveryShards(size, percent) * ((8 * n + 72) * blocks + group)
            && (if group == 0 then blocks == 1 else Covers(blocks, 65536, group))
  {
    hide DivCeil; hide Covers;
    DivCeilCovers(size, 1024);
    DivCeilCovers(size, DataShards(size));
    RecoveryFloor(size, percent);
    EvenIsNext(DivCeil(size, DataShards(size)));
    blocks := BlocksOf(GroupCount(size), DataShards(size));
    hide DataShards; hide RecoveryShards; hide ShardSize;
    assert ParityLength(size, percent)
        == Times(RecoveryShards(size, percent), ShardSize(GroupCount(size), DataShards(size)));
  }

  lemma EvenIsNext(k: nat)
    ensures Even(k) % 2 == 0 && (Even(k) == k || Even(k) == k + 1)
  {
  }

  lemma BlocksOf(group: nat, n: nat) returns (blocks: nat)
    ensures ShardSize(group, n) == (8 * n + 72) * blocks + group
    ensures if group == 0 then blocks == 1 else Covers(blocks, 65536, group)
  {
    DivCeilCovers(group, 65536);
    blocks := if group == 0 then 1 else DivCeil(group, 65536);
  }

  lemma RecoveryFloor(size: nat, percent: nat)
    ensures var n, recovery := DataShards(size), RecoveryShards(size, percent);
            if percent >= 100 then recovery == n
            else if percent * n < 100 && size < 204800 then recovery == 1
            else 100 * recovery <= percent * n < 100 * (recovery + 1)
  {
    var n := DataShards(size);
    hide DataShards;
    var pct := if percent < 100 then percent else 100;
    assert 2 * pct * n == 2 * (pct * n);
    Halved(pct * n);
    if percent < 100 {
      ProductGrows(n, percent, 99);
      assert percent * n == n * percent;
    }
  }

  lemma Halved(k: nat)
    ensures 2 * k / 200 == k / 100
    ensures 100 * (k / 100) <= k < 100 * (k / 100 + 1)
  {
  }

  lemma DivCeilGrows(a: nat, b: nat, n: nat)
    requires a <= b && n > 0
    ensures DivCeil(a, n) <= DivCeil(b, n)
  {
    QuotientGrows(a + n - 1, b + n - 1, n);
  }

  lemma QuotientGrows(a: nat, b: nat, n: nat)
    requires a <= b && n > 0
    ensures a / n <= b / n
  {
    assert n * (b / n + 1) == n * (b / n) + n;
    assert n * (a / n) <= a < n * (b / n + 1);
    SmallerFactor(n, a / n, b / n + 1);
  }

  lemma SmallerFactor(n: nat, x: nat, y: nat)
    requires n * x < n * y
    ensures x < y
  {
    if x >= y {
      ProductGrows(n, y, x);
    }
  }

  lemma ProductGrows(n: nat, x: nat, y: nat)
    requires x <= y
    ensures n * x <= n * y && Times(n, x) <= Times(n, y)
  {
  }

  /** With as many data shards, a longer prefix has no shorter parity. */
  lemma ParityGrowsWithin(a: nat, b: nat, percent: nat)
    requires a <= b && DataShards(a) == DataShards(b) && percent > 0
    ensures ParityLength(a, percent) <= ParityLength(b, percent)
  {
    hide DivCeil; hide Times;
    var shards := DataShards(a);
    SameRecoveryShards(a, b, percent);
    DivCeilGrows(a, b, shards);
    ShardGrows(GroupCount(a), GroupCount(b), shards);
    ProductGrows(RecoveryShards(a, percent), ShardSize(GroupCount(a), shards), ShardSize(GroupCount(b), shards));
  }

  lemma SameRecoveryShards(a: nat, b: nat, percent: nat)
    requires DataShards(a) == DataShards(b) && percent > 0
    ensures RecoveryShards(a, percent) == RecoveryShards(b, percent)
  {
    hide DataShards;
    if DataShards(a) == 200 {
      var pct := if percent < 100 then percent else 100;
      assert 2 * pct * 200 / 200 == 2 * pct;
    } else {
      FewShards(a);
      FewShards(b);
    }
  }

  lemma FewShards(size: nat)
    ensures DataShards(size) < 200 ==> size < 204800
  {
  }

  lemma ShardGrows(a: nat, b: nat, shards: nat)
    requires a <= b
    ensures ShardSize(a, shards) <= ShardSize(b, shards)
  {
    DivCeilGrows(a, b, 65536);
    var x, y := DivCeil(a, 65536), DivCeil(b, 65536);
    hide DivCeil; hide Times;
    ProductGrows(8 * shards + 72, if x < 1 then 1 else x, if y < 1 then 1 else y);
  }

  /** But one more byte can start another shard and make the parity shorter, so the
      reserve does not grow with the data. */
  lemma ParityShrinks()
    ensures ParityLength(2048, 3) == 1112 && ParityLength(2049, 3) == 780
    ensures ParityLength(15360, 10) == 1216 && ParityLength(15361, 10) == 1162
  {
    hide ParityLength;
    TwoKilobytes();
    FifteenKilobytes();
  }

  lemma TwoKilobytes()
    ensures ParityLength(2048, 3) == 1112 && ParityLength(2049, 3) == 780
  {
    hide ParityLength;
    assert DivCeil(2048, 2) == 1024 && DivCeil(2049, 3) == 683;
    ParityIs(2048, 3, 2, 1024, 1);
    ParityIs(2049, 3, 3, 684, 1);
  }

  lemma FifteenKilobytes()
    ensures ParityLength(15360, 10) == 1216 && ParityLength(15361, 10) == 1162
  {
    hide ParityLength;
    assert DivCeil(15360, 15) == 1024 && DivCeil(15361, 16) == 961;
    ParityIs(15360, 10, 15, 1024, 1);
    ParityIs(15361, 10, 16, 962, 1);
  }

  /** The geometry of small prefixes, worked out. */
  lemma ParityIs(size: nat, percent: nat, shards: nat, group: nat, recovery: nat)
    requires 0 < size < 204800 && shards == DivCeil(size, 1024) && 0 < percent <= 100
    requires group == Even(DivCeil(size, shards)) && 0 < group <= 65536
    requires recovery == (if percent * shards < 200 then 1 else 2)
    requires percent * shards < 300
    ensures ParityLength(size, percent) == recovery * (8 * shards + 72 + group)
  {
    hide Even;
    assert DataShards(size) == shards;
    hide DataShards;
    FewRecoveryShards(size, percent, shards, recovery);
    hide RecoveryShards;
    OneBlock(group, shards);
  }

  lemma FewRecoveryShards(size: nat, percent: nat, shards: nat, recovery: nat)
    requires 0 < size < 204800 && shards == DataShards(size) && 0 < percent <= 100
    requires percent * shards < 300 && recovery == (if percent * shards < 200 then 1 else 2)
    ensures RecoveryShards(size, percent) == recovery
  {
    hide DataShards;
    assert 2 * percent * shards == 2 * (percent * shards);
    assert shards >= 2 || percent * shards <= 100 by {
      if shards == 1 {
        assert percent * shards == percent;
      }
    }
  }

  lemma OneBlock(group: nat, shards: nat)
    requires 0 < group <= 65536
    ensures ShardSize(group, shards) == 8 * shards + 72 + group
  {
  }

  // ---------------------------------------------------------------- reserves

  function ServiceLength(subdata: nat, dataSize: nat): nat {
    var body := 10 + 2 * |AtLeast(dataSize, 2)| + subdata + (if subdata > 0 then 1 else 0);
    4 + |Encoded(body)| + body
  }

  lemma ServiceLengthIs(c: Config, name: seq<byte>, subdata: seq<byte>, dataSize: nat)
    requires ValidConfig(c) && |name| == 2 && |subdata| < 128
    ensures |ServiceBlock(c.crc, name, subdata, dataSize, c.hostOs)| == ServiceLength(|subdata|, dataSize)
  {
    hide Encoded; hide AtLeast;
    Small(0);
    Small(SERVICE_HEADER);
    Small(ServiceFlags(subdata));
    Small(|subdata|);
    Small(c.hostOs);
    Small(2);
    ZeroInTwo();
  }

  lemma ZeroInTwo()
    ensures |AtLeast(0, 2)| == 2
  {
  }

  lemma ServiceLengthGrows(subdata: nat, a: nat, b: nat)
    requires a <= b
    ensures ServiceLength(subdata, a) <= ServiceLength(subdata, b)
  {
    QuickOpen.SizeGrows(a, b);
    AtLeastLength(a);
    AtLeastLength(b);
    hide Encoded; hide AtLeast;
    var extra := subdata + (if subdata > 0 then 1 else 0);
    QuickOpen.SizeGrows(10 + 2 * |AtLeast(a, 2)| + extra, 10 + 2 * |AtLeast(b, 2)| + extra);
  }

  lemma AtLeastLength(v: nat)
    ensures |AtLeast(v, 2)| == if |Encoded(v)| < 2 then 2 else |Encoded(v)|
  {
    hide Encoded;
  }

  /** What the recovery record of a prefix takes. */
  function RecoveryReserve(c: Config, prefix: nat): nat {
    if c.recovery.None? then 0
    else
      var payload := ParityLength(prefix, c.recovery.value);
      ServiceLength(3, payload) + payload
  }

  function EntriesUpper(cached: seq<(nat, seq<byte>)>, volumeSize: nat): nat {
    if cached == [] then 0
    else QuickOpen.EntryLenUpper(volumeSize, |cached[0].1|) + EntriesUpper(cached[1..], volumeSize)
  }

  /** What the quick-open record may take at most, one more header pending. */
  function CatalogReserve(wanted: bool, cached: seq<(nat, seq<byte>)>, volumeSize: nat, pending: nat): nat {
    if !wanted then 0
    else
      var payload := EntriesUpper(cached, volumeSize) + QuickOpen.EntryLenUpper(volumeSize, pending);
      ServiceLength(0, payload) + payload
  }

  function QuickOpenReserve(c: Config, v: Volume, volumeSize: nat, pending: nat): nat {
    CatalogReserve(Wanted(c, v), Catalog(c, v), volumeSize, pending)
  }

  /** Bytes to keep free behind a prefix: end block, recovery and quick-open record. */
  function TailBehind(c: Config, quickOpen: nat, prefix: nat): nat {
    8 + RecoveryReserve(c, prefix + quickOpen) + quickOpen
  }

  /** What a volume holds, what it has left, and the reserve for its catalog. */
  datatype Room = Room(used: nat, remaining: nat, catalog: nat)

  function RoomOf(c: Config, v: Volume, volumeSize: nat, pending: nat): Room {
    var used := QuickOpenPos(c, v);
    Room(used, if used < volumeSize then volumeSize - used else 0, QuickOpenReserve(c, v, volumeSize, pending))
  }

  /** So much data behind such a header leaves room for the trailing records. */
  predicate ChunkFits(c: Config, room: Room, header: nat, data: nat) {
    header + data + TailBehind(c, room.catalog, room.used + header + data) <= room.remaining
  }

  /** The writer's test that a member fits into the open volume. */
  predicate FitsHere(c: Config, v: Volume, volumeSize: nat, header: nat, data: nat) {
    ChunkFits(c, RoomOf(c, v, volumeSize, header), header, data)
  }

  // ---------------------------------------------------------------- the budget search

  /** Bisection, `hi` known not to fit or equal to `lo`. */
  function Search(fits: nat -> bool, lo: nat, hi: nat): nat
    requires lo <= hi
    decreases hi - lo
  {
    if lo == hi then lo
    else
      var mid := lo + (hi - lo + 1) / 2;
      if fits(mid) then Search(fits, mid, hi) else Search(fits, lo, mid - 1)
  }

  function Budget(fits: nat -> bool, hdr: nat, remaining: nat): nat {
    var hi := if remaining > hdr then remaining - hdr else 0;
    if fits(hi) then hi else Search(fits, 0, hi)
  }

  method DataBudget(fits: nat -> bool, hdr: nat, remaining: nat) returns (r: nat)
    ensures r == Budget(fits, hdr, remaining)
  {
    var lo: nat := 0;
    var hi: nat := if remaining > hdr then remaining - hdr else 0;
    if fits(hi) {
      return hi;
    }
    while lo < hi
      invariant lo <= hi && Search(fits, lo, hi) == Budget(fits, hdr, remaining)
    {
      var mid: nat := lo + (hi - lo + 1) / 2;
      if fits(mid) {
        lo := mid;
      } else {
        hi := mid - 1;
      }
    }
    return lo;
  }

  lemma {:induction false} SearchWithin(fits: nat -> bool, lo: nat, hi: nat)
    requires lo <= hi
    ensures lo <= Search(fits, lo, hi) <= hi
    ensures fits(Search(fits, lo, hi)) || Search(fits, lo, hi) == lo
    decreases hi - lo
  {
    if lo < hi {
      var mid := lo + (hi - lo + 1) / 2;
      if fits(mid) {
        SearchWithin(fits, mid, hi);
      } else {
        SearchWithin(fits, lo, mid - 1);
      }
    }
  }

  /** Whether some probe of the search says no although more would fit. */
  ghost predicate Misleads(fits: nat -> bool, lo: nat, hi: nat)
    requires lo <= hi
    decreases hi - lo
  {
    lo < hi &&
    var mid := lo + (hi - lo + 1) / 2;
    if fits(mid) then Misleads(fits, mid, hi)
    else (exists b: nat :: mid < b <= hi && fits(b)) || Misleads(fits, lo, mid - 1)
  }

  /** The search finds the most that fits if and only if no probe misleads it. */
  lemma {:induction false} SearchLargestExactly(fits: nat -> bool, lo: nat, hi: nat)
    requires lo <= hi
    ensures (forall b: nat :: lo <= b <= hi && fits(b) ==> b <= Search(fits, lo, hi)) <==> !Misleads(fits, lo, hi)
    decreases hi - lo
  {
    hide Search; hide Misleads;
    SearchStep(fits, lo, hi);
    if lo < hi {
      var mid := lo + (hi - lo + 1) / 2;
      if fits(mid) {
        SearchLargestExactly(fits, mid, hi);
        SearchWithin(fits, mid, hi);
      } else {
        SearchLargestExactly(fits, lo, mid - 1);
        SearchWithin(fits, lo, mid - 1);
      }
    }
  }

  /** One probe of the search. */
  lemma SearchStep(fits: nat -> bool, lo: nat, hi: nat)
    requires lo <= hi
    ensures lo == hi ==> Search(fits, lo, hi) == lo && !Misleads(fits, lo, hi)
    ensures lo < hi ==>
              var mid := lo + (hi - lo + 1) / 2;
              && Search(fits, lo, hi) == (if fits(mid) then Search(fits, mid, hi) else Search(fits, lo, mid - 1))
              && (Misleads(fits, lo, hi)
                  <==> if fits(mid) then Misleads(fits, mid, hi)
                       else (exists b: nat :: mid < b <= hi && fits(b)) || Misleads(fits, lo, mid - 1))
  {
  }

  /** What fits in the range is a prefix of it. */
  ghost predicate FitsPrefix(fits: nat -> bool, lo: nat, hi: nat) {
    forall a: nat, b: nat :: lo <= a <= b <= hi && fits(b) ==> fits(a)
  }

  lemma {:induction false} PrefixNeverMisleads(fits: nat -> bool, lo: nat, hi: nat)
    requires lo <= hi && FitsPrefix(fits, lo, hi)
    ensures !Misleads(fits, lo, hi)
    decreases hi - lo
  {
    if lo < hi {
      var mid := lo + (hi - lo + 1) / 2;
      PrefixNeverMisleads(fits, if fits(mid) then mid else lo, if fits(mid) then hi else mid - 1);
    }
  }

  /** The most data the writer finds to fit behind a header. */
  function Budgeted(c: Config, room: Room, header: nat): nat {
    Budget(FitsBehind(c, room, header), header, room.remaining)
  }

  function FitsBehind(c: Config, room: Room, header: nat): nat -> bool {
    (data: nat) => ChunkFits(c, room, header, data)
  }

  lemma BudgetedFits(c: Config, room: Room, header: nat)
    ensures ChunkFits(c, room, header, Budgeted(c, room, header)) || Budgeted(c, room, header) == 0
    ensures Budgeted(c, room, header) <= room.remaining
  {
    hide ChunkFits;
    var fits := FitsBehind(c, room, header);
    SearchWithin(fits, 0, if room.remaining > header then room.remaining - header else 0);
  }

  /** The budget is the most that fits if and only if the whole rest fits or no probe
      misleads the search. */
  lemma BudgetedLargestExactly(c: Config, room: Room, header: nat)
    ensures var hi := if room.remaining > header then room.remaining - header else 0;
            (forall b: nat :: ChunkFits(c, room, header, b) ==> b <= Budgeted(c, room, header))
            <==> ChunkFits(c, room, header, hi) || !Misleads(FitsBehind(c, room, header), 0, hi)
  {
    hide RecoveryReserve;
    var fits := FitsBehind(c, room, header);
    var hi := if room.remaining > header then room.remaining - header else 0;
    SearchLargestExactly(fits, 0, hi);
    assert forall b: nat :: fits(b) ==> b <= hi;
    assert forall b: nat :: ChunkFits(c, room, header, b) <==> fits(b);
  }

  /** There is no recovery record, or all prefixes in question have the same number of
      data shards, as they do behind 200 KiB. */
  predicate Steady(c: Config, room: Room, header: nat) {
    c.recovery.Some? ==>
      && c.recovery.value > 0
      && DataShards(room.used + header + room.catalog) == DataShards(room.used + room.remaining + room.catalog)
  }

  /** Then the search finds the most that fits. */
  lemma BudgetedLargest(c: Config, room: Room, header: nat)
    requires Steady(c, room, header)
    ensures forall b: nat :: ChunkFits(c, room, header, b) ==> b <= Budgeted(c, room, header)
  {
    hide DataShards; hide ChunkFits; hide Budgeted; hide Misleads;
    var hi := if room.remaining > header then room.remaining - header else 0;
    forall a: nat, b: nat | 0 <= a <= b <= hi && ChunkFits(c, room, header, b) ensures ChunkFits(c, room, header, a) {
      FewerFit(c, room, header, a, b);
    }
    assert FitsPrefix(FitsBehind(c, room, header), 0, hi);
    PrefixNeverMisleads(FitsBehind(c, room, header), 0, hi);
    BudgetedLargestExactly(c, room, header);
  }

  lemma FewerFit(c: Config, room: Room, header: nat, a: nat, b: nat)
    requires Steady(c, room, header)
    requires a <= b && ChunkFits(c, room, header, b)
    ensures ChunkFits(c, room, header, a)
  {
    hide DataShards; hide ParityLength; hide ServiceLength;
    if c.recovery.Some? {
      var base := room.used + header + room.catalog;
      SameShards(base, base + a, room.used + room.remaining + room.catalog);
      SameShards(base, base + b, room.used + room.remaining + room.catalog);
      ReserveGrowsWithin(c, base + a, base + b);
    }
  }

  lemma SameShards(a: nat, b: nat, d: nat)
    requires a <= b <= d && DataShards(a) == DataShards(d)
    ensures DataShards(b) == DataShards(a)
  {
    ShardsGrow(a, b);
    ShardsGrow(b, d);
  }

  lemma ShardsGrow(a: nat, b: nat)
    requires a <= b
    ensures DataShards(a) <= DataShards(b)
  {
    DivCeilGrows(a, b, 1024);
  }

  lemma ReserveGrowsWithin(c: Config, a: nat, b: nat)
    requires a <= b && c.recovery.Some? && c.recovery.value > 0 && DataShards(a) == DataShards(b)
    ensures RecoveryReserve(c, a) <= RecoveryReserve(c, b)
  {
    hide ParityLength; hide ServiceLength; hide DataShards;
    ParityGrowsWithin(a, b, c.recovery.value);
    ServiceLengthGrows(3, ParityLength(a, c.recovery.value), ParityLength(b, c.recovery.value));
  }

  /** The size of the next chunk of a member with `left` bytes to go: all of it if it fits
      behind a last header, and else what fits behind a middle one, leaving a tail that
      would not fit behind a last one to the next volume. */
  function ChunkSize(c: Config, room: Room, middle: nat, last: nat, left: nat): (size: nat)
    ensures size <= left
  {
    if left <= Budgeted(c, room, last) then left
    else if left <= Budgeted(c, room, middle) then Budgeted(c, room, last)
    else Budgeted(c, room, middle)
  }

  /** So much data fits behind the header, unless it is none, and no more does. */
  ghost predicate MostThatFits(c: Config, room: Room, header: nat, data: nat) {
    (data > 0 ==> ChunkFits(c, room, header, data)) && forall b: nat :: ChunkFits(c, room, header, b) ==> b <= data
  }

  /** Of `left` bytes a chunk takes all when they fit behind a last header; else the most
      that fits behind a middle one, unless all would fit there, and then the most that
      fits behind a last one. */
  ghost predicate Largest(c: Config, room: Room, middle: nat, last: nat, left: nat, size: nat) {
    Steady(c, room, middle) && Steady(c, room, last) ==>
      if ChunkFits(c, room, last, left) then size == left
      else MostThatFits(c, room, if ChunkFits(c, room, middle, left) then last else middle, size)
  }

  lemma ChunkLargest(c: Config, room: Room, middle: nat, last: nat, left: nat)
    requires left > 0 && middle <= last
    ensures Largest(c, room, middle, last, left, ChunkSize(c, room, middle, last, left))
  {
    hide ChunkFits; hide Budgeted; hide Steady; hide MostThatFits;
    if Steady(c, room, middle) && Steady(c, room, last) {
      BudgetedMost(c, room, middle, left);
      BudgetedMost(c, room, last, left);
    }
  }

  lemma BudgetedMost(c: Config, room: Room, header: nat, left: nat)
    requires left > 0 && Steady(c, room, header)
    ensures MostThatFits(c, room, header, Budgeted(c, room, header))
    ensures ChunkFits(c, room, header, left) <==> left <= Budgeted(c, room, header)
  {
    hide ChunkFits; hide Budgeted; hide Steady;
    BudgetedFits(c, room, header);
    BudgetedLargest(c, room, header);
    if left <= Budgeted(c, room, header) {
      FewerFit(c, room, header, left, Budgeted(c, room, header));
    }
  }

  /** With a recovery record the budgets that fit need not be a prefix: one byte more can
      be another shard and a shorter parity, so `data` bytes are too many and one more
      is not. */
  lemma BudgetsNotAPrefix(c: Config, used: nat, hdr: nat, data: nat, volumeSize: nat)
    requires c.recovery == Some(3) && used + hdr + data == 2048 && 2860 <= volumeSize < 3191
    ensures !ChunkFits(c, Room(used, volumeSize - used, 0), hdr, data)
    ensures ChunkFits(c, Room(used, volumeSize - used, 0), hdr, data + 1)
  {
    hide ParityLength; hide AtLeast; hide Encoded;
    ParityShrinks();
    RecoveryHeader(1112);
    RecoveryHeader(780);
  }

  lemma RecoveryHeader(payload: nat)
    requires 128 <= payload < 16384
    ensures ServiceLength(3, payload) == 23
  {
    TwoBytes(payload);
    AtLeastLength(payload);
    Small(18);
  }

  lemma TwoBytes(v: nat)
    requires 128 <= v < 16384
    ensures |Encoded(v)| == 2
  {
    Small(v / 128);
  }

  lemma ThreeBytes(v: nat)
    requires 16384 <= v < 2097152
    ensures |Encoded(v)| == 3
  {
    TwoBytes(v / 128);
  }

  // ---------------------------------------------------------------- what the records take

  lemma {:induction false} PayloadWithin(c: Config, cached: seq<(nat, seq<byte>)>, pos: nat, volumeSize: nat)
    requires pos <= volumeSize && Distances(cached, pos).Some?
    ensures |QuickOpen.EncodePayload(c.crc, Distances(cached, pos).value)| <= EntriesUpper(cached, volumeSize)
  {
    hide QuickOpen.EncodeEntry; hide QuickOpen.EntryLenUpper;
    if cached != [] {
      PayloadWithin(c, cached[1..], pos, volumeSize);
      var e := QuickOpen.Entry(pos - cached[0].0, cached[0].1);
      QuickOpen.EntryFits(c.crc, e, volumeSize);
      assert Distances(cached, pos).value[1..] == Distances(cached[1..], pos).value;
    }
  }

  lemma {:induction false} EntriesUpperAppend(cached: seq<(nat, seq<byte>)>, e: (nat, seq<byte>), volumeSize: nat)
    ensures EntriesUpper(cached + [e], volumeSize)
         == EntriesUpper(cached, volumeSize) + QuickOpen.EntryLenUpper(volumeSize, |e.1|)
  {
    hide QuickOpen.EntryLenUpper;
    if cached == [] {
      assert cached + [e] == [e] && [e][1..] == [];
    } else {
      assert (cached + [e])[1..] == cached[1..] + [e];
      EntriesUpperAppend(cached[1..], e, volumeSize);
    }
  }

  function With(v: Volume, item: Item): Volume {
    v.(items := v.items + [item])
  }

  lemma UpperGrows(volumeSize: nat, a: nat, b: nat)
    requires a <= b
    ensures QuickOpen.EntryLenUpper(volumeSize, a) <= QuickOpen.EntryLenUpper(volumeSize, b)
  {
    hide Encoded;
    QuickOpen.SizeGrows(a, b);
    QuickOpen.SizeGrows(1 + |Encoded(volumeSize)| + |Encoded(a)| + a, 1 + |Encoded(volumeSize)| + |Encoded(b)| + b);
  }

  /** The quick-open record never takes more than was reserved for it. */
  lemma QuickOpenWithin(c: Config, v: Volume, item: Item, volumeSize: nat, pending: nat)
    requires ValidConfig(c) && ValidVolume(With(v, item)) && item.cached && |item.header| <= pending
    requires QuickOpenPos(c, With(v, item)) <= volumeSize
    ensures |QuickOpenPart(c, With(v, item))| <= QuickOpenReserve(c, v, volumeSize, pending)
    ensures QuickOpenPos(c, With(v, item)) == QuickOpenPos(c, v) + |item.header| + |item.data|
    ensures !Wanted(c, v) ==> QuickOpenPart(c, With(v, item)) == []
  {
    hide QuickOpen.EncodePayload; hide QuickOpen.EntryLenUpper; hide EntriesUpper; hide ServiceBlock; hide Distances;
    hide Earned; hide Bytes; hide Cached; hide Prologue; hide ServiceLength;
    var after, at := With(v, item), |Prologue(c, v.number)|;
    var pos := QuickOpenPos(c, after);
    BytesAppend(v.items, item);
    CachedAppend(v.items, item, at);
    if Wanted(c, v) {
      DistancesThere(c, after);
      var payload := QuickOpen.EncodePayload(c.crc, Distances(Catalog(c, after), pos).value);
      PayloadWithin(c, Catalog(c, after), pos, volumeSize);
      EntriesUpperAppend(Catalog(c, v), (at + |Bytes(v.items)|, item.header), volumeSize);
      UpperGrows(volumeSize, |item.header|, pending);
      ServiceLengthIs(c, QUICK_OPEN_NAME, [], |payload|);
      ServiceLengthGrows(0, |payload|,
        EntriesUpper(Catalog(c, v), volumeSize) + QuickOpen.EntryLenUpper(volumeSize, pending));
    }
  }

  lemma DistancesThere(c: Config, v: Volume)
    requires ValidVolume(v)
    ensures Distances(Catalog(c, v), QuickOpenPos(c, v)).Some?
  {
    hide Prologue; hide Bytes; hide Catalog; hide Distances;
    var data := Prologue(c, v.number) + Bytes(v.items);
    HoldsWhole(Prologue(c, v.number), Bytes(v.items), []);
    assert data + [] == data;
    CatalogInPlace(c, v, data);
  }

  /** What an entry takes, by its distance and the length of its header. */
  function EntryLength(distance: nat, header: nat): nat {
    var body := 1 + |Encoded(distance)| + |Encoded(header)| + header;
    4 + |Encoded(body)| + body
  }

  function CatalogLength(cached: seq<(nat, seq<byte>)>, pos: nat): nat {
    if cached == [] then 0
    else EntryLength(if cached[0].0 <= pos then pos - cached[0].0 else 0, |cached[0].1|) + CatalogLength(cached[1..], pos)
  }

  /** What a quick-open record at `pos` takes, by the cached headers' places and sizes. */
  function RecordLength(cached: seq<(nat, seq<byte>)>, pos: nat): nat {
    ServiceLength(0, CatalogLength(cached, pos)) + CatalogLength(cached, pos)
  }

  lemma {:induction false} CatalogLengthIs(c: Config, cached: seq<(nat, seq<byte>)>, pos: nat)
    requires Distances(cached, pos).Some?
    ensures |QuickOpen.EncodePayload(c.crc, Distances(cached, pos).value)| == CatalogLength(cached, pos)
  {
    hide Encoded;
    if cached != [] {
      Small(0);
      CatalogLengthIs(c, cached[1..], pos);
      assert Distances(cached, pos).value[1..] == Distances(cached[1..], pos).value;
    }
  }

  lemma RecordLengthIs(c: Config, v: Volume)
    requires ValidConfig(c) && ValidVolume(v)
    ensures |QuickOpenPart(c, v)| == if Wanted(c, v) then RecordLength(Catalog(c, v), QuickOpenPos(c, v)) else 0
  {
    hide Prologue; hide Bytes; hide Catalog; hide Distances; hide QuickOpen.EncodePayload; hide ServiceBlock;
    hide ServiceLength; hide CatalogLength; hide Wanted;
    DistancesThere(c, v);
    CatalogLengthIs(c, Catalog(c, v), QuickOpenPos(c, v));
    ServiceLengthIs(c, QUICK_OPEN_NAME, [], CatalogLength(Catalog(c, v), QuickOpenPos(c, v)));
  }

  /** The parity function honours the planned length on the prefix of this volume. */
  predicate ParityAsPlanned(c: Config, v: Volume) {
    c.recovery.Some? ==>
      |c.parity(Protected(c, v), c.recovery.value)| == ParityLength(RecoveryPos(c, v), c.recovery.value)
  }

  /** The length of a finished volume, from the length of what it protects. */
  lemma FinishedLength(c: Config, v: Volume, nextVolume: bool)
    requires ValidConfig(c) && ParityAsPlanned(c, v)
    ensures |Finished(c, v, nextVolume)| == RecoveryPos(c, v) + RecoveryReserve(c, RecoveryPos(c, v)) + 8
  {
    hide Finished; hide Protected; hide QuickOpenPart; hide EndBlock; hide ServiceBlock; hide Prologue; hide Bytes;
    hide ParityLength; hide FinalHeader; hide RecoverySubdata; hide RecoveryPos;
    FinishedParts(c, v, nextVolume);
    EndLength(c, nextVolume);
    if c.recovery.Some? {
      SubdataSize(c.recovery.value);
      var parity := c.parity(Protected(c, v), c.recovery.value);
      ServiceLengthIs(c, RECOVERY_NAME, RecoverySubdata(c.recovery.value), |parity|);
    }
  }

  lemma EndLength(c: Config, nextVolume: bool)
    ensures |EndBlock(c.crc, nextVolume)| == 8
  {
    HoldsSelf(EndBlock(c.crc, nextVolume));
    EndReads(c.crc, EndBlock(c.crc, nextVolume), 0, nextVolume);
  }

  // ---------------------------------------------------------------- volumes within their size

  /** What a volume protects once `item` is its last: its length is known beforehand. */
  function ProtectedLength(c: Config, v: Volume, item: Item): nat {
    var pos := QuickOpenPos(c, v) + |item.header| + |item.data|;
    pos + if Wanted(c, v) then RecordLength(Catalog(c, With(v, item)), pos) else 0
  }

  lemma ProtectedLengthIs(c: Config, v: Volume, item: Item)
    requires ValidConfig(c) && ValidVolume(With(v, item))
    ensures RecoveryPos(c, With(v, item)) == ProtectedLength(c, v, item)
    ensures QuickOpenPos(c, With(v, item)) == QuickOpenPos(c, v) + |item.header| + |item.data|
  {
    hide QuickOpenPart; hide Bytes; hide Prologue; hide RecordLength; hide Catalog;
    BytesAppend(v.items, item);
    RecordLengthIs(c, With(v, item));
  }

  /** Exactly when a chunk that was found to fit behind a header no shorter than its own
      still makes the volume too large: when the recovery record of what is really there
      is longer than the one reserved for, by more than the reserve and the room it
      left have to spare. A boundary between two numbers of data shards lies between. */
  lemma ChunkWithinSizeExactly(c: Config, v: Volume, item: Item, header: nat, pending: nat, volumeSize: nat, nextVolume: bool)
    requires ValidConfig(c) && ValidVolume(With(v, item)) && item.cached && ParityAsPlanned(c, With(v, item))
    requires c.recovery.Some? ==> c.recovery.value > 0
    requires |item.header| <= header && |item.header| <= pending
    requires ChunkFits(c, RoomOf(c, v, volumeSize, pending), header, |item.data|)
    ensures var room, actual := RoomOf(c, v, volumeSize, pending), ProtectedLength(c, v, item);
            var reserved := room.used + header + |item.data| + room.catalog;
            && actual <= reserved && reserved + RecoveryReserve(c, reserved) + 8 <= volumeSize
            && (|Finished(c, With(v, item), nextVolume)| > volumeSize <==>
                  RecoveryReserve(c, actual) >
                    RecoveryReserve(c, reserved) + (reserved - actual)
                    + (volumeSize - (reserved + RecoveryReserve(c, reserved) + 8)))
            && (|Finished(c, With(v, item), nextVolume)| > volumeSize ==>
                  c.recovery.Some? && actual < reserved && DataShards(actual) < DataShards(reserved))
  {
    hide Finished; hide QuickOpenPart; hide QuickOpenReserve; hide DataShards; hide ParityLength; hide ParityAsPlanned;
    hide ServiceLength; hide Bytes; hide Prologue; hide Protected; hide ProtectedLength; hide RecoveryPos;
    var after, room := With(v, item), RoomOf(c, v, volumeSize, pending);
    ProtectedLengthIs(c, v, item);
    QuickOpenWithin(c, v, item, volumeSize, pending);
    FinishedLength(c, after, nextVolume);
    var reserved := room.used + header + |item.data| + room.catalog;
    var actual := ProtectedLength(c, v, item);
    RecoveryPosIs(c, after);
    if c.recovery.Some? {
      ShardsGrow(actual, reserved);
      if DataShards(actual) == DataShards(reserved) {
        ReserveGrowsWithin(c, actual, reserved);
      }
    }
  }

  lemma RecoveryPosIs(c: Config, v: Volume)
    ensures RecoveryPos(c, v) == QuickOpenPos(c, v) + |QuickOpenPart(c, v)|
  {
  }

  /** Exactly when a member that passed the test makes its volume too large: both records
      are written, and the parity over what is really there is so much longer. Without
      either record, or within one number of data shards, the size is kept. */
  lemma WithinSizeExactly(c: Config, v: Volume, item: Item, volumeSize: nat, nextVolume: bool)
    requires ValidConfig(c) && ValidVolume(With(v, item)) && item.cached && ParityAsPlanned(c, With(v, item))
    requires c.recovery.Some? ==> c.recovery.value > 0
    requires FitsHere(c, v, volumeSize, |item.header|, |item.data|)
    ensures var actual, pos := ProtectedLength(c, v, item), QuickOpenPos(c, v) + |item.header| + |item.data|;
            var reserved := pos + QuickOpenReserve(c, v, volumeSize, |item.header|);
            && actual <= reserved && reserved + RecoveryReserve(c, reserved) + 8 <= volumeSize
            && (|Finished(c, With(v, item), nextVolume)| > volumeSize <==>
                  && c.recovery.Some? && Wanted(c, v)
                  && RecoveryReserve(c, actual) >
                       RecoveryReserve(c, reserved) + (reserved - actual)
                       + (volumeSize - (reserved + RecoveryReserve(c, reserved) + 8)))
            && (|Finished(c, With(v, item), nextVolume)| > volumeSize ==> DataShards(actual) < DataShards(reserved))
  {
    hide Finished; hide QuickOpenReserve; hide DataShards; hide RecoveryReserve; hide Wanted; hide QuickOpenPos;
    hide RecordLength; hide ParityAsPlanned;
    NothingReserved(c, v, volumeSize, |item.header|);
    ChunkWithinSizeExactly(c, v, item, |item.header|, |item.header|, volumeSize, nextVolume);
  }

  lemma NothingReserved(c: Config, v: Volume, volumeSize: nat, pending: nat)
    ensures !Wanted(c, v) ==> QuickOpenReserve(c, v, volumeSize, pending) == 0
  {
  }

  // ---------------------------------------------------------------- a run announced too late

  /** A run announced for a volume that had earned no record grants it one for the
      headers already there. If the run's data then goes elsewhere, the volume exceeds
      its size exactly when the record, and the recovery record behind it, take more
      than the room that was left. */
  lemma LateRunExceeds(c: Config, v: Volume, left: nat, volumeSize: nat, nextVolume: bool)
    requires ValidConfig(c) && ValidVolume(v) && c.quickOpen && c.quickOpenAuto
    requires QuickOpenPos(c, v) <= volumeSize
    requires var room := volumeSize - QuickOpenPos(c, v); (if left < room then left else room) > AUTO_THRESHOLD
    requires var room := volumeSize - QuickOpenPos(c, v);
             ParityAsPlanned(c, v.(runs := v.runs + [if left < room then left else room]))
    ensures var used := QuickOpenPos(c, v);
            var room, record := volumeSize - used, RecordLength(Catalog(c, v), used);
            var after := v.(runs := v.runs + [if left < room then left else room]);
            |Finished(c, after, nextVolume)| > volumeSize <==>
              record + RecoveryReserve(c, used + record) + 8 > room
  {
    hide Finished; hide RecordLength; hide RecoveryReserve; hide QuickOpenPart; hide Bytes; hide Prologue;
    hide ParityAsPlanned; hide RecoveryPos;
    var used := QuickOpenPos(c, v);
    var run := if left < volumeSize - used then left else volumeSize - used;
    var after := v.(runs := v.runs + [run]);
    assert run in after.runs;
    RecordLengthIs(c, after);
    RecoveryPosIs(c, after);
    FinishedLength(c, after, nextVolume);
  }
}
