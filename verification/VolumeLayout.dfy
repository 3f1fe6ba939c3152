/** The bytes of a finished RAR5 volume as a function of what was put into it, and
    what a reader finds there (archive/create.rs, archive/engine.rs). */
module VolumeLayout {
  import opened Options
  import opened Vint
  import opened Blocks
  import opened Services
  import QuickOpen
  import Locator

  const SIGNATURE: seq<byte> := [0x52, 0x61, 0x72, 0x21, 0x1A, 0x07, 0x01, 0x00]

  const BASE: nat := 8

  /** Longest data run a volume may hold without earning a quick-open record. */
  const AUTO_THRESHOLD: nat := 4096

  /** The settings of a writer that stay fixed. The parity of a prefix and the block
      checksum are any functions. */
  datatype Config = Config(
    crc: Checksum,
    parity: (seq<byte>, nat) -> seq<byte>,
    quickOpen: bool,
    quickOpenAuto: bool,
    recovery: Option<nat>,     // percent of the inline recovery record
    width: nat,                // of the locator's offset fields
    hostOs: nat,
    solid: bool,
    multi: bool)               // split into volumes

  ghost predicate ValidConfig(c: Config) {
    0 < c.width <= MAX_BYTES && c.hostOs < 128 && (c.recovery.Some? ==> c.recovery.value < 256)
  }

  /** A header and the data behind it; `cached` when the header is a member's. */
  datatype Item = Item(header: seq<byte>, data: seq<byte>, cached: bool)

  /** What one volume was given: its number (none on the first or only one), its
      items, and the data runs announced for it before they were written. */
  datatype Volume = Volume(number: Option<nat>, items: seq<Item>, runs: seq<nat>)

  /** The automatic rule: some announced run is long enough for a quick-open record. */
  predicate Earned(runs: seq<nat>) {
    exists run :: run in runs && run > AUTO_THRESHOLD
  }

  ghost predicate ValidVolume(v: Volume) {
    (v.number.Some? ==> v.number.value < U64) && forall item :: item in v.items ==> item.header != []
  }

  // ---------------------------------------------------------------- the parts

  function ShapeOf(c: Config, number: Option<nat>): Locator.Shape {
    Locator.Shape(
      (if c.multi then 1 else 0) + (if c.solid && !c.multi then 4 else 0) + (if c.recovery.Some? then 8 else 0),
      number, c.quickOpen, c.recovery.Some?, c.width)
  }

  function Prologue(c: Config, number: Option<nat>): seq<byte> {
    SIGNATURE + Locator.BuildMainHeader(c.crc, ShapeOf(c, number)).header
  }

  function Bytes(items: seq<Item>): seq<byte> {
    if items == [] then [] else items[0].header + items[0].data + Bytes(items[1..])
  }

  /** The members' headers with the positions they stand at. */
  function Cached(items: seq<Item>, at: nat): seq<(nat, seq<byte>)> {
    if items == [] then []
    else (if items[0].cached then [(at, items[0].header)] else [])
         + Cached(items[1..], at + |items[0].header| + |items[0].data|)
  }

  function Catalog(c: Config, v: Volume): seq<(nat, seq<byte>)> {
    if c.quickOpen then Cached(v.items, |Prologue(c, v.number)|) else []
  }

  predicate Wanted(c: Config, v: Volume) {
    c.quickOpen && (!c.quickOpenAuto || Earned(v.runs))
  }

  /** Where the quick-open record goes: behind everything else. */
  function QuickOpenPos(c: Config, v: Volume): nat {
    |Prologue(c, v.number)| + |Bytes(v.items)|
  }

  /** Cached headers with their distances back from `pos`; none when one of them
      lies behind `pos`. */
  function Distances(cached: seq<(nat, seq<byte>)>, pos: nat): Option<seq<QuickOpen.Entry>> {
    if cached == [] then Some([])
    else if cached[0].0 > pos then None
    else match Distances(cached[1..], pos)
         case Some(rest) => Some([QuickOpen.Entry(pos - cached[0].0, cached[0].1)] + rest)
         case None => None
  }

  function Record(c: Config, name: seq<byte>, subdata: seq<byte>, data: seq<byte>): seq<byte> {
    ServiceBlock(c.crc, name, subdata, |data|, c.hostOs) + data
  }

  function QuickOpenPart(c: Config, v: Volume): seq<byte> {
    var entries := Distances(Catalog(c, v), QuickOpenPos(c, v));
    if Wanted(c, v) && entries.Some? then
      Record(c, QUICK_OPEN_NAME, [], QuickOpen.EncodePayload(c.crc, entries.value))
    else []
  }

  function RecoveryPos(c: Config, v: Volume): nat {
    QuickOpenPos(c, v) + |QuickOpenPart(c, v)|
  }

  /** The main header with the offsets of the records that are there. */
  function FinalHeader(c: Config, v: Volume): seq<byte> {
    Locator.MainHeader(c.crc, ShapeOf(c, v.number), StoredQuickOpen(c, v), StoredRecovery(c, v))
  }

  function StoredQuickOpen(c: Config, v: Volume): nat {
    Locator.StoredIn(c.quickOpen, if Wanted(c, v) then Some(QuickOpenPos(c, v)) else None, BASE, c.width)
  }

  function StoredRecovery(c: Config, v: Volume): nat {
    Locator.StoredIn(c.recovery.Some?, if c.recovery.Some? then Some(RecoveryPos(c, v)) else None, BASE, c.width)
  }

  /** Everything the recovery record protects, the patched header included. */
  function Protected(c: Config, v: Volume): seq<byte> {
    SIGNATURE + (FinalHeader(c, v) + (Bytes(v.items) + QuickOpenPart(c, v)))
  }

  function RecoverySubdata(percent: nat): seq<byte> {
    Encoded(2) + Encoded(7) + [percent % 256]
  }

  function RecoveryPart(c: Config, prefix: seq<byte>): seq<byte> {
    if c.recovery.None? then []
    else Record(c, RECOVERY_NAME, RecoverySubdata(c.recovery.value), c.parity(prefix, c.recovery.value))
  }

  /** A finished volume. */
  function Finished(c: Config, v: Volume, nextVolume: bool): seq<byte> {
    Protected(c, v) + (RecoveryPart(c, Protected(c, v)) + EndBlock(c.crc, nextVolume))
  }

  // ---------------------------------------------------------------- headers in their place

  lemma {:induction false} BytesAppend(a: seq<Item>, item: Item)
    ensures Bytes(a + [item]) == Bytes(a) + item.header + item.data
  {
    if a == [] {
      assert [item][1..] == [];
      assert a + [item] == [item];
    } else {
      assert (a + [item])[1..] == a[1..] + [item];
      BytesAppend(a[1..], item);
    }
  }

  lemma CachedStep(a: seq<Item>, at: nat)
    requires a != []
    ensures Cached(a, at) == (if a[0].cached then [(at, a[0].header)] else [])
                             + Cached(a[1..], at + |a[0].header| + |a[0].data|)
    ensures |Bytes(a)| == |a[0].header| + |a[0].data| + |Bytes(a[1..])|
  {
  }

  lemma {:induction false} CachedAppend(a: seq<Item>, item: Item, at: nat)
    ensures Cached(a + [item], at)
         == Cached(a, at) + if item.cached then [(at + |Bytes(a)|, item.header)] else []
  {
    if a == [] {
      assert a + [item] == [item] && [item][1..] == [];
    } else {
      var x := a[0];
      assert (a + [item])[1..] == a[1..] + [item];
      CachedAppend(a[1..], item, at + |x.header| + |x.data|);
      CachedStep(a, at);
      CachedStep(a + [item], at);
    }
  }

  /** Every cached header stands in the file where the cache says, before its end. */
  lemma {:induction false} CachedInPlace(items: seq<Item>, at: nat, data: seq<byte>)
    requires Holds(data, at, Bytes(items))
    requires forall item :: item in items ==> item.header != []
    ensures forall e :: e in Cached(items, at) ==>
              Holds(data, e.0, e.1) && e.1 != [] && e.0 + |e.1| <= at + |Bytes(items)|
  {
    if items != [] {
      var head := items[0];
      assert head in items;
      HoldsParts(data, at, head.header + head.data, Bytes(items[1..]));
      HoldsParts(data, at, head.header, head.data);
      forall item | item in items[1..] ensures item in items {
      }
      CachedInPlace(items[1..], at + |head.header| + |head.data|, data);
    }
  }

  /** Headers before `pos` always have a distance, so the record never fails. */
  lemma {:induction false} DistancesFound(cached: seq<(nat, seq<byte>)>, pos: nat)
    requires forall e :: e in cached ==> e.0 <= pos
    ensures Distances(cached, pos).Some? && |Distances(cached, pos).value| == |cached|
    ensures forall i :: 0 <= i < |cached| ==>
              Distances(cached, pos).value[i] == QuickOpen.Entry(pos - cached[i].0, cached[i].1)
  {
    if cached != [] {
      assert cached[0] in cached;
      forall e | e in cached[1..] ensures e in cached {
      }
      DistancesFound(cached[1..], pos);
    }
  }

  lemma SameLength(c: Config, v: Volume)
    ensures |FinalHeader(c, v)| == |Prologue(c, v.number)| - |SIGNATURE|
  {
    Locator.SameStart(ShapeOf(c, v.number), StoredQuickOpen(c, v), StoredRecovery(c, v));
    HeaderLength(c, v.number, 0, 0);
    HeaderLength(c, v.number, StoredQuickOpen(c, v), StoredRecovery(c, v));
  }

  lemma HeaderLength(c: Config, number: Option<nat>, qo: nat, rr: nat)
    ensures |Locator.MainHeader(c.crc, ShapeOf(c, number), qo, rr)|
         == 4 + |Locator.Fixture(ShapeOf(c, number))|
            + (if c.quickOpen then c.width else 0) + (if c.recovery.Some? then c.width else 0)
  {
    hide Locator.Fixture; hide Locator.MainHeader;
    Locator.HeaderSplits(c.crc, ShapeOf(c, number), qo, rr);
  }

  /** The catalog of a volume, in the finished file: every header where its distance
      says, none missing. */
  lemma CatalogInPlace(c: Config, v: Volume, data: seq<byte>)
    requires ValidVolume(v) && Holds(data, |Prologue(c, v.number)|, Bytes(v.items))
    ensures var found := Distances(Catalog(c, v), QuickOpenPos(c, v));
            && found.Some? && |found.value| == |Catalog(c, v)|
            && forall i :: 0 <= i < |found.value| ==>
                 CatalogEntryInPlace(found.value[i], Catalog(c, v)[i], QuickOpenPos(c, v), data)
  {
    hide Prologue; hide Holds; hide Bytes;
    if c.quickOpen {
      CachedInPlace(v.items, |Prologue(c, v.number)|, data);
    }
    DistancesFound(Catalog(c, v), QuickOpenPos(c, v));
  }

  /** A catalog entry names a real header by a positive distance. */
  predicate CatalogEntryInPlace(e: QuickOpen.Entry, cached: (nat, seq<byte>), pos: nat, data: seq<byte>) {
    && 0 < |e.header| <= e.distance <= pos && cached.0 <= pos
    && e == QuickOpen.Entry(pos - cached.0, cached.1)
    && Holds(data, pos - e.distance, e.header)
  }

  // ---------------------------------------------------------------- who earns a record

  /** Every member's data was announced, by a run at least as long. */
  ghost predicate Announced(v: Volume) {
    forall item :: item in v.items && item.cached && item.data != [] ==>
      exists run :: run in v.runs && |item.data| <= run
  }

  /** Whether the volume holds a member's data run longer than the threshold. */
  ghost predicate HoldsLongRun(v: Volume) {
    exists item :: item in v.items && item.cached && |item.data| > 4096
  }

  /** Every volume that holds a long run gets its record under the automatic rule. */
  lemma LongRunEarns(c: Config, v: Volume)
    requires c.quickOpen && c.quickOpenAuto && Announced(v) && HoldsLongRun(v)
    ensures Wanted(c, v)
  {
    var item :| item in v.items && item.cached && |item.data| > AUTO_THRESHOLD;
    var run :| run in v.runs && |item.data| <= run;
  }

  // ---------------------------------------------------------------- what a reader finds

  lemma FinishedParts(c: Config, v: Volume, nextVolume: bool)
    ensures var file := Finished(c, v, nextVolume);
            && Holds(file, 0, Protected(c, v))
            && |Protected(c, v)| == RecoveryPos(c, v)
            && Holds(file, |SIGNATURE|, FinalHeader(c, v))
            && Holds(file, |Prologue(c, v.number)|, Bytes(v.items))
            && Holds(file, QuickOpenPos(c, v), QuickOpenPart(c, v))
            && Holds(file, RecoveryPos(c, v), RecoveryPart(c, Protected(c, v)))
            && Holds(file, RecoveryPos(c, v) + |RecoveryPart(c, Protected(c, v))|, EndBlock(c.crc, nextVolume))
            && |file| == RecoveryPos(c, v) + |RecoveryPart(c, Protected(c, v))| + |EndBlock(c.crc, nextVolume)|
  {
    hide Bytes; hide FinalHeader; hide QuickOpenPart; hide RecoveryPart; hide EndBlock; hide Prologue; hide Holds;
    var file, p := Finished(c, v, nextVolume), Protected(c, v);
    var h, b, q := FinalHeader(c, v), Bytes(v.items), QuickOpenPart(c, v);
    SameLength(c, v);
    HoldsSelf(file);
    HoldsParts(file, 0, p, RecoveryPart(c, p) + EndBlock(c.crc, nextVolume));
    HoldsParts(file, |p|, RecoveryPart(c, p), EndBlock(c.crc, nextVolume));
    HoldsParts(file, 0, SIGNATURE, h + (b + q));
    HoldsParts(file, |SIGNATURE|, h, b + q);
    HoldsParts(file, |SIGNATURE| + |h|, b, q);
  }

  /** The offset stored for a record at `pos`: 0 for a record that is not there, or one
      whose offset does not fit the field. */
  function OffsetFor(c: Config, there: bool, pos: nat): nat {
    if there && 8 < pos && pos - 8 < Pow128(c.width) then pos - 8 else 0
  }

  /** The archive flags of a volume: one of a set, numbered, solid, with a recovery
      record. */
  function ArchiveFlags(c: Config, v: Volume): nat {
    (if c.multi || v.number.Some? then 1 else 0) + (if v.number.Some? then 2 else 0)
    + (if c.solid && !c.multi then 4 else 0) + (if c.recovery.Some? then 8 else 0)
  }

  /** A file starts with the RAR5 signature; its main header bears the volume's flags and
      number, and its offset fields, in one locator record that says which are there,
      name the places where the volume's records really start. */
  predicate LocatorNames(c: Config, v: Volume, file: seq<byte>) {
    var block := ReadBlock(c.crc, file, 8);
    && |file| >= 8 && file[..8] == [0x52, 0x61, 0x72, 0x21, 0x1A, 0x07, 0x01, 0x00]
    && block.Some? && block.value.blockType == 1 && block.value.dataOffset == |Prologue(c, v.number)|
    && var h := ParseMain(block.value.body);
       && h.Some? && h.value.volumeNumber == v.number && h.value.flags == ArchiveFlags(c, v)
       && (if c.quickOpen || c.recovery.Some? then
             Locator.StartsLocator(h.value.extra, c.quickOpen, c.recovery.Some?)
           else h.value.extra == [])
       && Locator.QuickOpenOffset(h.value.extra, 0)
          == (if c.quickOpen then Some(OffsetFor(c, Wanted(c, v), QuickOpenPos(c, v))) else None)
       && (c.recovery.Some? ==>
             Decode(h.value.extra, 3 + if c.quickOpen then c.width else 0)
             == Decoded(OffsetFor(c, true, RecoveryPos(c, v)), c.width))
  }

  lemma LocatorReads(c: Config, v: Volume, nextVolume: bool)
    requires ValidConfig(c) && ValidVolume(v) && |Finished(c, v, nextVolume)| < U64
    ensures LocatorNames(c, v, Finished(c, v, nextVolume))
  {
    hide Holds; hide ReadBlock; hide ParseMain; hide Locator.QuickOpenOffset; hide Decode; hide Prologue;
    hide Finished; hide Locator.StoredIn; hide Pow128; hide QuickOpenPart; hide Locator.MainHeader; hide Bytes;
    hide RecoveryPart; hide EndBlock; hide StoredFlags; hide ArchiveFlags; hide Locator.StartsLocator;
    hide Locator.Extra;
    var file := Finished(c, v, nextVolume);
    FinishedParts(c, v, nextVolume);
    SameLength(c, v);
    ShapeValid(c, v);
    PrologueLength(c, v.number);
    Locator.StoredFits(if Wanted(c, v) then Some(QuickOpenPos(c, v)) else None, c.quickOpen, BASE, c.width);
    Locator.StoredFits(if c.recovery.Some? then Some(RecoveryPos(c, v)) else None, c.recovery.Some?, BASE, c.width);
    Locator.HeaderReads(c.crc, file, |SIGNATURE|, ShapeOf(c, v.number), StoredQuickOpen(c, v), StoredRecovery(c, v));
    NothingStored(c, v);
    FlagsStored(c, v, Locator.Extra(ShapeOf(c, v.number), StoredQuickOpen(c, v), StoredRecovery(c, v)));
    SignatureFirst(c, v, nextVolume);
    assert StoredRecovery(c, v) == OffsetFor(c, c.recovery.Some?, RecoveryPos(c, v));
    assert c.quickOpen ==> StoredQuickOpen(c, v) == OffsetFor(c, Wanted(c, v), QuickOpenPos(c, v));
  }

  lemma FlagsStored(c: Config, v: Volume, extra: seq<byte>)
    ensures StoredFlags(ArchiveHeader(ShapeOf(c, v.number).flags, extra, v.number)) == ArchiveFlags(c, v)
  {
  }

  lemma SignatureFirst(c: Config, v: Volume, nextVolume: bool)
    ensures |Finished(c, v, nextVolume)| >= 8 && Finished(c, v, nextVolume)[..8] == SIGNATURE
  {
    hide FinalHeader; hide Bytes; hide QuickOpenPart; hide RecoveryPart; hide EndBlock;
  }

  lemma NothingStored(c: Config, v: Volume)
    ensures !Wanted(c, v) ==> StoredQuickOpen(c, v) == 0
    ensures c.recovery.None? ==> StoredRecovery(c, v) == 0
  {
  }

  lemma ShapeValid(c: Config, v: Volume)
    requires ValidConfig(c) && (v.number.Some? ==> v.number.value < U64)
    ensures Locator.Valid(ShapeOf(c, v.number))
  {
  }

  lemma PrologueLength(c: Config, number: Option<nat>)
    ensures |Prologue(c, number)| > BASE + 4
  {
  }

  /** The headers of the members among the items, in order. */
  function MemberHeaders(items: seq<Item>): seq<seq<byte>> {
    if items == [] then []
    else (if items[0].cached then [items[0].header] else []) + MemberHeaders(items[1..])
  }

  /** A file has its quick-open record where the layout puts it, under the name "QO" and
      to be skipped by who does not know it, and what a reader of up to `maxEntries`
      entries decodes there is the volume's member headers, all of them, in order, each
      found again in the file at its distance. */
  predicate CatalogReads(c: Config, v: Volume, file: seq<byte>, maxEntries: nat) {
    var pos := QuickOpenPos(c, v);
    var block := ReadBlock(c.crc, file, pos);
    var entries := Distances(Catalog(c, v), pos);
    && block.Some? && block.value.blockType == 3 && block.value.flags == 6
    && ReadService(block.value.body)
       == Some(Service(block.value.dataSize, 0, block.value.dataSize, 0, 0, c.hostOs, [0x51, 0x4F]))
    && block.value.dataOffset + block.value.dataSize == RecoveryPos(c, v) <= |file|
    && (entries.Some? ==> |entries.value| == |MemberHeaders(v.items)|
                          && forall i :: 0 <= i < |entries.value| ==> entries.value[i].header == MemberHeaders(v.items)[i])
    && entries.Some? && |entries.value| == |Catalog(c, v)|
    && QuickOpen.DecodeFrom(c.crc, file[block.value.dataOffset..RecoveryPos(c, v)], 0, maxEntries)
       == (if |entries.value| <= maxEntries then QuickOpen.Ok(entries.value)
           else QuickOpen.Err(QuickOpen.TooManyEntries))
    && forall i :: 0 <= i < |entries.value| ==>
         CatalogEntryInPlace(entries.value[i], Catalog(c, v)[i], pos, file)
  }

  /** The quick-open record exists exactly when it is wanted, and reads back. */
  lemma QuickOpenReads(c: Config, v: Volume, nextVolume: bool, maxEntries: nat)
    requires ValidConfig(c) && ValidVolume(v) && |Finished(c, v, nextVolume)| < U64 / 2
    ensures !Wanted(c, v) <==> QuickOpenPart(c, v) == []
    ensures Wanted(c, v) ==> CatalogReads(c, v, Finished(c, v, nextVolume), maxEntries)
  {
    hide Finished; hide ReadBlock; hide Catalog; hide Distances; hide QuickOpen.DecodeFrom; hide Holds;
    hide QuickOpen.EncodePayload; hide Bytes; hide Prologue; hide Wanted; hide CatalogEntryInPlace;
    hide RecoveryPart; hide EndBlock; hide FinalHeader; hide ServiceBlock; hide MemberHeaders; hide ReadService;
    var file, pos := Finished(c, v, nextVolume), QuickOpenPos(c, v);
    FinishedParts(c, v, nextVolume);
    CatalogInPlace(c, v, file);
    var entries := Distances(Catalog(c, v), pos).value;
    var payload := QuickOpen.EncodePayload(c.crc, entries);
    ServiceNotEmpty(c, QUICK_OPEN_NAME, [], payload);
    if Wanted(c, v) {
      HoldsFits(file, pos, QuickOpenPart(c, v));
      RecordReads(c, file, pos, QUICK_OPEN_NAME, [], payload);
      CatalogHeaders(c, v);
      forall i | 0 <= i < |entries|
        ensures QuickOpen.Encodable(entries[i]) && entries[i].header == Catalog(c, v)[i].1
      {
        EntryEncodable(entries[i], Catalog(c, v)[i], pos, file);
      }
      forall e | e in entries ensures QuickOpen.Encodable(e) {
        var i :| 0 <= i < |entries| && entries[i] == e;
      }
      QuickOpen.CatalogRoundTrip(c.crc, entries, maxEntries);
    }
  }

  /** A volume has a quick-open record when its writer always makes one, or makes one for
      runs over 4096 bytes and such a run was announced. */
  lemma RecordThere(c: Config, v: Volume)
    ensures QuickOpenPart(c, v) != [] <==>
              && c.quickOpen && (c.quickOpenAuto ==> exists run :: run in v.runs && run > 4096)
              && Distances(Catalog(c, v), QuickOpenPos(c, v)).Some?
  {
    hide Distances; hide Catalog; hide QuickOpen.EncodePayload; hide QuickOpenPos;
    var entries := Distances(Catalog(c, v), QuickOpenPos(c, v));
    if entries.Some? {
      ServiceNotEmpty(c, QUICK_OPEN_NAME, [], QuickOpen.EncodePayload(c.crc, entries.value));
    }
  }

  lemma CatalogHeaders(c: Config, v: Volume)
    requires Wanted(c, v)
    ensures |Catalog(c, v)| == |MemberHeaders(v.items)|
    ensures forall i :: 0 <= i < |Catalog(c, v)| ==> Catalog(c, v)[i].1 == MemberHeaders(v.items)[i]
  {
    hide Prologue;
    CatalogIsHeaders(v.items, |Prologue(c, v.number)|);
  }

  lemma {:induction false} CatalogIsHeaders(items: seq<Item>, at: nat)
    ensures |Cached(items, at)| == |MemberHeaders(items)|
    ensures forall i :: 0 <= i < |Cached(items, at)| ==> Cached(items, at)[i].1 == MemberHeaders(items)[i]
  {
    if items != [] {
      CatalogIsHeaders(items[1..], at + |items[0].header| + |items[0].data|);
    }
  }

  lemma HoldsFits(data: seq<byte>, pos: nat, bytes: seq<byte>)
    requires Holds(data, pos, bytes)
    ensures pos + |bytes| <= |data| && data[pos..pos + |bytes|] == bytes
  {
  }

  lemma ServiceNotEmpty(c: Config, name: seq<byte>, subdata: seq<byte>, data: seq<byte>)
    ensures |Record(c, name, subdata, data)| > |data|
  {
    hide ServiceBody;
  }

  lemma EntryEncodable(e: QuickOpen.Entry, cached: (nat, seq<byte>), pos: nat, data: seq<byte>)
    requires CatalogEntryInPlace(e, cached, pos, data) && pos <= |data| < U64 / 2
    ensures QuickOpen.Encodable(e) && e.header == cached.1
  {
    hide Encoded; hide Holds;
    Small(0);
    U64Fits(e.distance);
    U64Fits(|e.header|);
  }

  /** A record reads back: its header announces the data, and the data follows. */
  lemma RecordReads(c: Config, file: seq<byte>, pos: nat, name: seq<byte>, subdata: seq<byte>, data: seq<byte>)
    requires ValidConfig(c) && |name| == 2 && |subdata| < 128 && |file| < U64
    requires Holds(file, pos, Record(c, name, subdata, data))
    ensures var block := ReadBlock(c.crc, file, pos);
            && block.Some? && block.value.blockType == 3 && block.value.dataSize == |data|
            && block.value.flags == (if subdata == [] then 6 else 7)
            && ReadService(block.value.body) == Some(Service(|data|, 0, |data|, 0, 0, c.hostOs, name))
            && ExtraArea(block.value.body) == Some(subdata)
            && block.value.dataOffset + |data| == pos + |Record(c, name, subdata, data)| <= |file|
            && file[block.value.dataOffset..block.value.dataOffset + |data|] == data
  {
    hide ServiceBlock; hide ReadBlock; hide Holds; hide ServiceBody; hide ReadService; hide ExtraArea;
    var header := ServiceBlock(c.crc, name, subdata, |data|, c.hostOs);
    HoldsParts(file, pos, header, data);
    HoldsFits(file, pos + |header|, data);
    HoldsFits(file, pos, Record(c, name, subdata, data));
    ServiceReads(c.crc, file, pos, name, subdata, |data|, c.hostOs);
    ServiceReadsBack(name, subdata, |data|, c.hostOs);
  }

  /** A file has its recovery record where the layout puts it, under the name "RR" and
      with its percentage, and the parity stored there is that of the very bytes in front
      of it. */
  predicate ParityReads(c: Config, v: Volume, file: seq<byte>)
    requires c.recovery.Some?
  {
    var pos := RecoveryPos(c, v);
    var block := ReadBlock(c.crc, file, pos);
    && pos <= |file|
    && block.Some? && block.value.blockType == 3 && block.value.flags == 7
    && ReadService(block.value.body)
       == Some(Service(block.value.dataSize, 0, block.value.dataSize, 0, 0, c.hostOs, [0x52, 0x52]))
    && RecoveryPercent(block.value.body) == Some(c.recovery.value)
    && block.value.dataOffset + block.value.dataSize <= |file|
    && file[block.value.dataOffset..block.value.dataOffset + block.value.dataSize]
       == c.parity(file[..pos], c.recovery.value)
  }

  lemma RecoveryReads(c: Config, v: Volume, nextVolume: bool)
    requires ValidConfig(c) && ValidVolume(v) && |Finished(c, v, nextVolume)| < U64 && c.recovery.Some?
    ensures ParityReads(c, v, Finished(c, v, nextVolume))
  {
    hide Finished; hide ReadBlock; hide Holds; hide Protected; hide Record; hide RecoverySubdata; hide EndBlock;
    hide RecoveryPos; hide QuickOpenPart; hide Bytes; hide ReadService; hide ExtraArea;
    var file, pos := Finished(c, v, nextVolume), RecoveryPos(c, v);
    FinishedParts(c, v, nextVolume);
    HoldsFits(file, 0, Protected(c, v));
    assert file[..pos] == Protected(c, v);
    SubdataSize(c.recovery.value);
    PercentReads(c.recovery.value);
    RecordReads(c, file, pos, RECOVERY_NAME, RecoverySubdata(c.recovery.value), c.parity(Protected(c, v), c.recovery.value));
  }

  lemma PercentReads(percent: nat)
    requires percent < 256
    ensures Subdata(RecoverySubdata(percent), 0) == Some([percent])
  {
    hide Decode; hide Encoded;
    Small(2);
    Small(7);
    var x := RecoverySubdata(percent);
    assert x == [2, 7, percent] && x[2..3] == [percent];
    SmallBytes(x, 0);
    SmallBytes(x, 1);
  }

  lemma SubdataSize(percent: nat)
    ensures |RecoverySubdata(percent)| == 3
  {
    Small(2);
    Small(7);
  }

  predicate EndsWithBlock(crc: Checksum, file: seq<byte>, nextVolume: bool) {
    && |file| >= 8
    && var block := ReadBlock(crc, file, |file| - 8);
       && block.Some? && block.value.blockType == 5 && block.value.dataOffset == |file|
       && EndFlags(block.value) == Some(if nextVolume then 1 else 0)
  }

  /** The volume ends with an end block, which says whether another volume follows. */
  lemma EndBlockReads(c: Config, v: Volume, nextVolume: bool)
    ensures EndsWithBlock(c.crc, Finished(c, v, nextVolume), nextVolume)
  {
    hide Finished; hide ReadBlock; hide Holds; hide Protected; hide EndBlock; hide RecoveryPos;
    hide QuickOpenPart; hide RecoveryPart; hide Bytes; hide EndFlags;
    FinishedParts(c, v, nextVolume);
    EndReads(c.crc, Finished(c, v, nextVolume), RecoveryPos(c, v) + |RecoveryPart(c, Protected(c, v))|, nextVolume);
  }
}
