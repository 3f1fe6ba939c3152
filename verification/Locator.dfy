/** The main archive header and its locator record (format/rar5/headers/locator.rs):
    offset fields are reserved when the header is written and patched in place when
    the records they name have been written. */
module Locator {
  import opened Options
  import opened Vint
  import opened Blocks

  const LOCATOR: nat := 1
  const QUICK_OPEN_FLAG: nat := 1
  const RECOVERY_FLAG: nat := 2

  /** What a main header without other records is built from. */
  datatype Shape = Shape(flags: nat, number: Option<nat>, quickOpen: bool, recovery: bool, width: nat)

  ghost predicate Valid(s: Shape) {
    && 0 < s.width <= MAX_BYTES
    && (s.number.Some? ==> s.number.value < U64)
    && (s.number.None? ==> !HasBit(s.flags, 2))
  }

  // ---------------------------------------------------------------- building

  function LocatorFlags(s: Shape): nat {
    (if s.quickOpen then QUICK_OPEN_FLAG else 0) + (if s.recovery then RECOVERY_FLAG else 0)
  }

  /** The offset fields, holding these values. */
  function OffsetFields(s: Shape, qo: nat, rr: nat): seq<byte> {
    (if s.quickOpen then Fixed(qo, s.width) else []) + (if s.recovery then Fixed(rr, s.width) else [])
  }

  function RecordHead(s: Shape): seq<byte> {
    var fields := (if s.quickOpen then s.width else 0) + (if s.recovery then s.width else 0);
    Encoded(2 + fields) + Encoded(LOCATOR) + Encoded(LocatorFlags(s))
  }

  /** The extra area: one locator record, or nothing when there is nothing to locate. */
  function Extra(s: Shape, qo: nat, rr: nat): seq<byte> {
    if s.quickOpen || s.recovery then RecordHead(s) + OffsetFields(s, qo, rr) else []
  }

  /** The framed main header with these values in its offset fields. */
  function MainHeader(crc: Checksum, s: Shape, qo: nat, rr: nat): seq<byte> {
    FrameBlock(crc, MainBody(ArchiveHeader(s.flags, Extra(s, qo, rr), s.number)))
  }

  datatype Built = Built(header: seq<byte>, qoField: Option<nat>, rrField: Option<nat>)

  /** A fresh main header with its fields reserved, and where they are. */
  function BuildMainHeader(crc: Checksum, s: Shape): (b: Built)
    ensures |b.header| > 4
  {
    var header := MainHeader(crc, s, 0, 0);
    var fields := |header| - |OffsetFields(s, 0, 0)|;
    ExtraInside(crc, s);
    Built(header,
          if s.quickOpen then Some(fields) else None,
          if s.recovery then Some(fields + if s.quickOpen then s.width else 0) else None)
  }

  lemma ExtraInside(crc: Checksum, s: Shape)
    ensures |OffsetFields(s, 0, 0)| <= |Extra(s, 0, 0)| <= |MainHeader(crc, s, 0, 0)|
  {
  }

  // ---------------------------------------------------------------- patching

  /** The width of the placeholder at `pos`, at most `left` bytes. */
  function WidthAt(hdr: seq<byte>, pos: nat, left: nat): (w: Option<nat>)
    ensures w.Some? ==> 0 < w.value <= left && pos + w.value <= |hdr|
    decreases left
  {
    if left == 0 || pos >= |hdr| then None
    else if hdr[pos] < 128 then Some(1)
    else match WidthAt(hdr, pos + 1, left - 1)
         case Some(w) => Some(w + 1)
         case None => None
  }

  /** The offset as stored: relative to `base`, or 0 when the field cannot hold it. */
  function Stored(offset: nat, base: nat, width: nat): nat {
    var rel := if offset > base then offset - base else 0;
    if width >= 10 || rel < Pow128(width) then rel else 0
  }

  function Splice(hdr: seq<byte>, at: nat, bytes: seq<byte>): (r: seq<byte>)
    requires at + |bytes| <= |hdr|
    ensures |r| == |hdr| && r[at..at + |bytes|] == bytes
    ensures forall k :: 0 <= k < |hdr| && (k < at || at + |bytes| <= k) ==> r[k] == hdr[k]
  {
    hdr[..at] + bytes + hdr[at + |bytes|..]
  }

  /** One field patched; none when it runs out of the header. */
  function FieldPatched(hdr: seq<byte>, offset: Option<nat>, field: Option<nat>, base: nat): (r: Option<seq<byte>>)
    ensures r.Some? ==> |r.value| == |hdr|
  {
    if offset.None? || field.None? then Some(hdr)
    else match WidthAt(hdr, field.value, 10)
         case Some(w) => Some(Splice(hdr, field.value, Fixed(Stored(offset.value, base, w), w)))
         case None => None
  }

  function Restamped(crc: Checksum, hdr: seq<byte>): (r: seq<byte>)
    requires |hdr| >= 4
    ensures |r| == |hdr|
  {
    LittleEndian(crc(hdr[4..])) + hdr[4..]
  }

  predicate AnyPatched(qo: Option<nat>, rr: Option<nat>, b: Built) {
    (qo.Some? && b.qoField.Some?) || (rr.Some? && b.rrField.Some?)
  }

  /** Both fields patched and the checksum renewed. */
  function Patched(crc: Checksum, hdr: seq<byte>, qo: Option<nat>, rr: Option<nat>, b: Built, base: nat): (r: Option<seq<byte>>)
    requires |hdr| >= 4
    ensures r.Some? ==> |r.value| == |hdr|
  {
    match FieldPatched(hdr, qo, b.qoField, base)
    case None => None
    case Some(h) =>
      match FieldPatched(h, rr, b.rrField, base)
      case None => None
      case Some(h2) => Some(if AnyPatched(qo, rr, b) then Restamped(crc, h2) else h2)
  }

  method PlaceholderWidth(hdr: array<byte>, field: nat) returns (r: Option<nat>)
    ensures r == WidthAt(hdr[..], field, 10)
  {
    hide WidthAt;
    var n := 1;
    ghost var bytes := hdr[..];
    while n <= 10
      invariant 1 <= n <= 11 && hdr[..] == bytes
      invariant WidthAt(bytes, field, 10) ==
                match WidthAt(bytes, field + n - 1, 11 - n)
                case Some(w) => Some(w + n - 1)
                case None => None
    {
      WidthStep(bytes, field + n - 1, 11 - n);
      if field + n - 1 >= hdr.Length {
        return None;
      }
      if hdr[field + n - 1] < 128 {
        return Some(n);
      }
      n := n + 1;
    }
    NoWidth(bytes, field + 10);
    return None;
  }

  lemma WidthStep(hdr: seq<byte>, pos: nat, left: nat)
    requires left > 0
    ensures WidthAt(hdr, pos, left)
         == if pos >= |hdr| then None
            else if hdr[pos] < 128 then Some(1)
            else match WidthAt(hdr, pos + 1, left - 1)
                 case Some(w) => Some(w + 1)
                 case None => None
  {
  }

  lemma NoWidth(hdr: seq<byte>, pos: nat)
    ensures WidthAt(hdr, pos, 0) == None
  {
  }

  method PatchField(hdr: array<byte>, offset: Option<nat>, field: Option<nat>, base: nat) returns (ok: bool)
    modifies hdr
    ensures ok == FieldPatched(old(hdr[..]), offset, field, base).Some?
    ensures ok ==> hdr[..] == FieldPatched(old(hdr[..]), offset, field, base).value
  {
    hide Pow128; hide Fixed; hide WidthAt;
    if offset.None? || field.None? {
      return true;
    }
    var width := PlaceholderWidth(hdr, field.value);
    if width.None? {
      return false;
    }
    var bytes := VintFixed(Stored(offset.value, base, width.value), width.value);
    CopyInto(hdr, field.value, bytes);
    return true;
  }

  method CopyInto(hdr: array<byte>, at: nat, bytes: seq<byte>)
    requires at + |bytes| <= hdr.Length
    modifies hdr
    ensures hdr[..] == Splice(old(hdr[..]), at, bytes)
  {
    ghost var before := hdr[..];
    var i := 0;
    while i < |bytes|
      invariant 0 <= i <= |bytes|
      invariant forall k :: 0 <= k < hdr.Length ==> hdr[k] == if at <= k < at + i then bytes[k - at] else before[k]
    {
      hdr[at + i] := bytes[i];
      i := i + 1;
    }
  }

  /** Patch the offset fields in place and renew the checksum. */
  method PatchLocatorFields(crc: Checksum, hdr: array<byte>, qo: Option<nat>, rr: Option<nat>, b: Built, base: nat)
    returns (r: Option<bool>)
    requires hdr.Length >= 4
    modifies hdr
    ensures r.None? <==> Patched(crc, old(hdr[..]), qo, rr, b, base).None?
    ensures r.Some? ==> hdr[..] == Patched(crc, old(hdr[..]), qo, rr, b, base).value
    ensures r.Some? ==> (r.value <==> (qo.Some? && b.qoField.Some?) || (rr.Some? && b.rrField.Some?))
  {
    hide FieldPatched;
    var ok := PatchField(hdr, qo, b.qoField, base);
    if !ok {
      return None;
    }
    ok := PatchField(hdr, rr, b.rrField, base);
    if !ok {
      return None;
    }
    var patched := AnyPatched(qo, rr, b);
    if patched {
      ghost var before := hdr[..];
      var stamp := LittleEndian(crc(hdr[4..]));
      hdr[0], hdr[1], hdr[2], hdr[3] := stamp[0], stamp[1], stamp[2], stamp[3];
      assert hdr[..] == Restamped(crc, before);
    }
    return Some(patched);
  }

  // ---------------------------------------------------------------- patching is building

  /** Everything between the checksum and the offset fields; the fields' values do
      not reach it. */
  function Fixture(s: Shape): seq<byte> {
    var h := ArchiveHeader(s.flags, Extra(s, 0, 0), s.number);
    Encoded(|MainBody(h)|) + (MainStart(h) + (MainMiddle(h) + if s.quickOpen || s.recovery then RecordHead(s) else []))
  }

  lemma HeaderSplits(crc: Checksum, s: Shape, qo: nat, rr: nat)
    ensures var rest := Fixture(s) + OffsetFields(s, qo, rr);
            MainHeader(crc, s, qo, rr) == LittleEndian(crc(rest)) + rest
  {
    hide Encoded; hide RecordHead; hide MainStart; hide MainMiddle; hide OffsetFields;
    var h := ArchiveHeader(s.flags, Extra(s, qo, rr), s.number);
    SameStart(s, qo, rr);
    var size, start, middle := Encoded(|MainBody(h)|), MainStart(h), MainMiddle(h);
    var head := if s.quickOpen || s.recovery then RecordHead(s) else [];
    var fields := OffsetFields(s, qo, rr);
    ExtraParts(s, qo, rr);
    Regroup(size, start, middle, head, fields);
  }

  lemma ExtraParts(s: Shape, qo: nat, rr: nat)
    ensures Extra(s, qo, rr) == (if s.quickOpen || s.recovery then RecordHead(s) else []) + OffsetFields(s, qo, rr)
  {
    hide Encoded; hide Fixed;
  }

  lemma Regroup(size: seq<byte>, start: seq<byte>, middle: seq<byte>, head: seq<byte>, fields: seq<byte>)
    ensures size + (start + (middle + (head + fields))) == (size + (start + (middle + head))) + fields
  {
  }

  lemma SameStart(s: Shape, qo: nat, rr: nat)
    ensures var h := ArchiveHeader(s.flags, Extra(s, qo, rr), s.number);
            var zero := ArchiveHeader(s.flags, Extra(s, 0, 0), s.number);
            MainStart(h) == MainStart(zero) && MainMiddle(h) == MainMiddle(zero) && |MainBody(h)| == |MainBody(zero)|
  {
    hide Encoded; hide Fixed;
    RecordHeadNotEmpty(s);
  }

  lemma RecordHeadNotEmpty(s: Shape)
    ensures |RecordHead(s)| >= 1
  {
  }

  lemma {:induction false} WidthOfFixed(hdr: seq<byte>, pos: nat, v: nat, width: nat, left: nat)
    requires 0 < width <= left && Holds(hdr, pos, Fixed(v, width))
    ensures WidthAt(hdr, pos, left) == Some(width)
    decreases width
  {
    FixedStep(v, width);
    assert hdr[pos] == hdr[pos..pos + width][0];
    if width > 1 {
      assert hdr[pos + 1..pos + width] == hdr[pos..pos + width][1..];
      WidthOfFixed(hdr, pos + 1, v / 128, width - 1, left - 1);
    }
  }

  lemma SplicePart(a: seq<byte>, was: seq<byte>, b: seq<byte>, now: seq<byte>)
    requires |was| == |now|
    ensures Splice(a + was + b, |a|, now) == a + now + b
  {
  }

  lemma FieldReplaced(a: seq<byte>, v: nat, width: nat, b: seq<byte>, offset: nat, base: nat)
    requires 0 < width <= MAX_BYTES
    ensures FieldPatched(a + Fixed(v, width) + b, Some(offset), Some(|a|), base)
         == Some(a + Fixed(Stored(offset, base, width), width) + b)
  {
    hide Fixed; hide Stored; hide WidthAt;
    HoldsWhole(a, Fixed(v, width), b);
    WidthOfFixed(a + Fixed(v, width) + b, |a|, v, width, 10);
    SplicePart(a, Fixed(v, width), b, Fixed(Stored(offset, base, width), width));
  }

  function StoredIn(field: bool, offset: Option<nat>, base: nat, width: nat): nat {
    if field && offset.Some? then Stored(offset.value, base, width) else 0
  }

  /** Patching a fresh header gives the header that would have been built with the
      final offsets in its fields: same length, only fields and checksum changed. */
  lemma PatchedIsBuilt(crc: Checksum, s: Shape, qo: Option<nat>, rr: Option<nat>, base: nat)
    requires Valid(s)
    ensures var b := BuildMainHeader(crc, s);
            Patched(crc, b.header, qo, rr, b, base)
            == Some(MainHeader(crc, s, StoredIn(s.quickOpen, qo, base, s.width),
                               StoredIn(s.recovery, rr, base, s.width)))
  {
    hide Fixed; hide FieldPatched; hide Fixture; hide MainHeader; hide Stored;
    var b := BuildMainHeader(crc, s);
    var q, r := StoredIn(s.quickOpen, qo, base, s.width), StoredIn(s.recovery, rr, base, s.width);
    var fix := Fixture(s);
    var stamp := LittleEndian(crc(fix + OffsetFields(s, 0, 0)));
    HeaderSplits(crc, s, 0, 0);
    HeaderSplits(crc, s, q, r);
    var a := stamp + fix;
    var second := if s.recovery then Fixed(0, s.width) else [];
    assert b.header == a + OffsetFields(s, 0, 0);
    QuickOpenPatched(s, a, qo, q, b, base);
    RecoveryPatched(s, a, q, rr, r, b, base);
    var h2 := a + OffsetFields(s, q, r);
    assert h2[4..] == fix + OffsetFields(s, q, r);
  }

  lemma NotPatched(hdr: seq<byte>, offset: Option<nat>, field: Option<nat>, base: nat)
    ensures offset.None? || field.None? ==> FieldPatched(hdr, offset, field, base) == Some(hdr)
  {
  }

  lemma QuickOpenPatched(s: Shape, a: seq<byte>, qo: Option<nat>, q: nat, b: Built, base: nat)
    requires Valid(s) && b.qoField == if s.quickOpen then Some(|a|) else None
    requires q == StoredIn(s.quickOpen, qo, base, s.width)
    ensures FieldPatched(a + OffsetFields(s, 0, 0), qo, b.qoField, base) == Some(a + OffsetFields(s, q, 0))
  {
    hide Fixed; hide Stored; hide FieldPatched;
    NotPatched(a + OffsetFields(s, 0, 0), qo, b.qoField, base);
    if s.quickOpen && qo.Some? {
      var second := if s.recovery then Fixed(0, s.width) else [];
      FieldReplaced(a, 0, s.width, second, qo.value, base);
      assert a + (Fixed(0, s.width) + second) == a + Fixed(0, s.width) + second;
      assert a + (Fixed(q, s.width) + second) == a + Fixed(q, s.width) + second;
    }
  }

  lemma RecoveryPatched(s: Shape, a: seq<byte>, q: nat, rr: Option<nat>, r: nat, b: Built, base: nat)
    requires Valid(s)
    requires b.rrField == if s.recovery then Some(|a| + if s.quickOpen then s.width else 0) else None
    requires r == StoredIn(s.recovery, rr, base, s.width)
    ensures FieldPatched(a + OffsetFields(s, q, 0), rr, b.rrField, base) == Some(a + OffsetFields(s, q, r))
  {
    hide Fixed; hide Stored; hide FieldPatched;
    NotPatched(a + OffsetFields(s, q, 0), rr, b.rrField, base);
    if s.recovery && rr.Some? {
      var first := if s.quickOpen then Fixed(q, s.width) else [];
      FieldReplaced(a + first, 0, s.width, [], rr.value, base);
      assert a + (first + Fixed(0, s.width)) == a + first + Fixed(0, s.width) + [];
      assert a + (first + Fixed(r, s.width)) == a + first + Fixed(r, s.width) + [];
    }
  }

  // ---------------------------------------------------------------- reading the locator

  /** The reader's quick-open offset: that of the first locator record, if it has one. */
  function QuickOpenOffset(extra: seq<byte>, e: nat): Option<nat>
    decreases |extra| - e
  {
    if e >= |extra| then None
    else match Decode(extra, e)
         case Decoded(size, n) =>
           (var at, end := e + n, e + n + size;
            if end > |extra| then None
            else match Decode(extra, at)
                 case Decoded(kind, t) =>
                   if kind == LOCATOR then
                     (match Decode(extra, at + t)
                      case Decoded(flags, f) =>
                        if !HasBit(flags, QUICK_OPEN_FLAG) then None
                        else (match Decode(extra, at + t + f)
                              case Decoded(offset, _) => Some(offset)
                              case _ => None)
                      case _ => None)
                   else if end <= e then None
                   else QuickOpenOffset(extra, end)
                 case _ => None)
         case _ => None
  }

  /** A locator record spelled out: its size, type 1, a flag for each field, and the fields,
      the quick-open one first. */
  lemma RecordSpelled(s: Shape, qo: nat, rr: nat)
    requires Valid(s) && (s.quickOpen || s.recovery)
    ensures var fields := (if s.quickOpen then Fixed(qo, s.width) else []) + (if s.recovery then Fixed(rr, s.width) else []);
            Spells(Extra(s, qo, rr),
                   [2 + |fields|, 1, (if s.quickOpen then 1 else 0) + (if s.recovery then 2 else 0)], 0, fields)
  {
    hide Encoded; hide Fixed; hide Spells;
    var fields := OffsetFields(s, qo, rr);
    var flags := LocatorFlags(s);
    var values := [2 + |fields|, 1, flags];
    SpellsTail(fields, values);
    SpellsVint(flags, fields, values, 2, fields);
    SpellsVint(1, Encoded(flags) + fields, values, 1, fields);
    SpellsVint(2 + |fields|, Encoded(1) + (Encoded(flags) + fields), values, 0, fields);
    assert Extra(s, qo, rr) == Encoded(2 + |fields|) + (Encoded(1) + (Encoded(flags) + fields));
  }

  lemma RecordHeadReads(s: Shape, qo: nat, rr: nat)
    requires Valid(s) && (s.quickOpen || s.recovery)
    ensures var x := Extra(s, qo, rr);
            && |RecordHead(s)| == 3
            && |x| == 3 + |OffsetFields(s, qo, rr)| < 128
            && Decode(x, 0) == Decoded(|x| - 1, 1)
            && Decode(x, 1) == Decoded(LOCATOR, 1)
            && Decode(x, 2) == Decoded(LocatorFlags(s), 1)
  {
    hide Decode; hide Fixed; hide Encoded;
    var x := Extra(s, qo, rr);
    var fields := (if s.quickOpen then s.width else 0) + (if s.recovery then s.width else 0);
    Small(2 + fields);
    Small(LOCATOR);
    Small(LocatorFlags(s));
    SmallBytes(x, 0);
    SmallBytes(x, 1);
    SmallBytes(x, 2);
  }

  /** The quick-open value, and the field after it, as a reader finds them. */
  lemma FieldsRead(s: Shape, qo: nat, rr: nat)
    requires Valid(s) && (s.quickOpen || s.recovery)
    requires qo < U64 && qo < Pow128(s.width) && rr < U64 && rr < Pow128(s.width)
    ensures var x := Extra(s, qo, rr);
            && (s.quickOpen ==> Decode(x, 3) == Decoded(qo, s.width))
            && (s.recovery ==> Decode(x, 3 + if s.quickOpen then s.width else 0) == Decoded(rr, s.width))
  {
    hide Decode; hide Fixed; hide Encoded; hide Pow128; hide Holds;
    var x := Extra(s, qo, rr);
    RecordHeadReads(s, qo, rr);
    HoldsSelf(x);
    var first := if s.quickOpen then Fixed(qo, s.width) else [];
    var second := if s.recovery then Fixed(rr, s.width) else [];
    HoldsParts(x, 0, RecordHead(s), first + second);
    HoldsParts(x, 3, first, second);
    if s.quickOpen {
      DecodeFixedAt(x, 3, qo, s.width);
    }
    if s.recovery {
      DecodeFixedAt(x, 3 + |first|, rr, s.width);
    }
  }

  lemma FlagBits(s: Shape)
    ensures HasBit(LocatorFlags(s), QUICK_OPEN_FLAG) == s.quickOpen
    ensures HasBit(LocatorFlags(s), RECOVERY_FLAG) == s.recovery
  {
  }

  /** A stored offset fits its field. */
  lemma StoredFits(offset: Option<nat>, field: bool, base: nat, width: nat)
    requires 0 < width <= MAX_BYTES && (offset.Some? ==> offset.value < U64)
    ensures var v := StoredIn(field, offset, base, width); v < U64 && v < Pow128(width)
    ensures field && offset.Some? && base < offset.value && offset.value - base < Pow128(width) ==>
              StoredIn(field, offset, base, width) == offset.value - base
    ensures field && offset.Some? && base + Pow128(width) <= offset.value ==> StoredIn(field, offset, base, width) == 0
  {
    if width == 10 {
      TopPower();
      PowStep(9);
    }
  }

  /** Reading a patched header: the block parses, the parsed extra area holds the
      quick-open offset just as stored, and a recovery offset behind it. */
  lemma HeaderReads(crc: Checksum, data: seq<byte>, pos: nat, s: Shape, qo: nat, rr: nat)
    requires Valid(s) && Holds(data, pos, MainHeader(crc, s, qo, rr))
    requires qo < U64 && qo < Pow128(s.width) && rr < U64 && rr < Pow128(s.width)
    ensures var block := ReadBlock(crc, data, pos);
            && block.Some? && block.value.blockType == ARCHIVE_HEADER && block.value.dataSize == 0
            && block.value.dataOffset == pos + |MainHeader(crc, s, qo, rr)|
            && ParseMain(block.value.body) == Some(Reread(s, Extra(s, qo, rr)))
    ensures var extra := Extra(s, qo, rr);
            && (if s.quickOpen || s.recovery then StartsLocator(extra, s.quickOpen, s.recovery) else extra == [])
            && QuickOpenOffset(extra, 0) == (if s.quickOpen then Some(qo) else None)
            && (s.recovery ==> Decode(extra, 3 + if s.quickOpen then s.width else 0) == Decoded(rr, s.width))
  {
    hide Decode; hide Extra; hide Holds; hide ReadBlock; hide ParseMain; hide QuickOpenOffset; hide MainBody; hide FrameBlock;
    hide StoredFlags;
    var h := ArchiveHeader(s.flags, Extra(s, qo, rr), s.number);
    SmallHeader(s, qo, rr);
    FramedReads(crc, data, pos, MainBody(h));
    MainFields(h);
    MainParses(h);
    ReadOffset(s, qo, rr);
    if s.recovery {
      FieldsRead(s, qo, rr);
    }
    if s.quickOpen || s.recovery {
      RecordHeadReads(s, qo, rr);
    }
    NoExtra(s, qo, rr);
  }

  /** What the reader makes of a header of this shape. */
  function Reread(s: Shape, extra: seq<byte>): ArchiveHeader {
    ArchiveHeader(StoredFlags(ArchiveHeader(s.flags, extra, s.number)), extra, s.number)
  }

  /** An extra area that is one locator record, with a flag for each offset it carries. */
  predicate StartsLocator(extra: seq<byte>, quickOpen: bool, recovery: bool) {
    && |extra| > 3 && Decode(extra, 0) == Decoded(|extra| - 1, 1) && Decode(extra, 1) == Decoded(1, 1)
    && Decode(extra, 2) == Decoded((if quickOpen then 1 else 0) + (if recovery then 2 else 0), 1)
  }

  lemma ReadOffset(s: Shape, qo: nat, rr: nat)
    requires Valid(s) && qo < U64 && qo < Pow128(s.width) && rr < U64 && rr < Pow128(s.width)
    ensures QuickOpenOffset(Extra(s, qo, rr), 0) == if s.quickOpen then Some(qo) else None
  {
    hide Decode; hide Extra; hide Pow128;
    if s.quickOpen || s.recovery {
      RecordHeadReads(s, qo, rr);
      FieldsRead(s, qo, rr);
      FlagBits(s);
    } else {
      NoExtra(s, qo, rr);
    }
  }

  lemma NoExtra(s: Shape, qo: nat, rr: nat)
    ensures !s.quickOpen && !s.recovery ==> Extra(s, qo, rr) == []
    ensures s.quickOpen || s.recovery ==> Extra(s, qo, rr) != []
  {
  }

  /** A main header is small: its size fits one byte. */
  lemma SmallHeader(s: Shape, qo: nat, rr: nat)
    requires Valid(s)
    ensures |Extra(s, qo, rr)| < 24
    ensures var h := ArchiveHeader(s.flags, Extra(s, qo, rr), s.number); 0 < |MainBody(h)| < 128
  {
    hide Encoded; hide Fixed;
    var h := ArchiveHeader(s.flags, Extra(s, qo, rr), s.number);
    if s.quickOpen || s.recovery {
      RecordHeadReads(s, qo, rr);
    }
    Small(ARCHIVE_HEADER);
    Small(SKIP_IF_UNKNOWN);
    Small(SKIP_IF_UNKNOWN + EXTRA_DATA);
    Small(|h.extra|);
    NumberBit(h);
    U64Fits(StoredFlags(h));
    if s.number.Some? {
      U64Fits(s.number.value);
    }
  }

  lemma MainFields(h: ArchiveHeader)
    requires |h.extra| < 128
    ensures ParseFields(MainBody(h))
         == Some(Fields(ARCHIVE_HEADER, if h.extra != [] then 5 else 4, 0))
  {
    hide Decode; hide Encoded;
    var body := MainBody(h);
    Small(ARCHIVE_HEADER);
    Small(SKIP_IF_UNKNOWN);
    Small(SKIP_IF_UNKNOWN + EXTRA_DATA);
    Small(|h.extra|);
    SmallBytes(body, 0);
    SmallBytes(body, 1);
    if h.extra != [] {
      SmallBytes(body, 2);
    }
  }
}
