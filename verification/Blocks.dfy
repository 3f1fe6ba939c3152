/** RAR5 block envelopes and the service, end and main headers inside them
    (format/rar5/headers/serialize.rs), with the reader that takes them apart
    (format/rar5/headers/parse.rs). The checksum is any function to four bytes. */
module Blocks {
  import opened Options
  import opened Vint

  type Checksum = seq<byte> -> (byte, byte, byte, byte)

  function LittleEndian(c: (byte, byte, byte, byte)): (bytes: seq<byte>)
    ensures |bytes| == 4
  {
    [c.0, c.1, c.2, c.3]
  }

  // ---------------------------------------------------------------- bytes in place

  /** `bytes` stands in `data` at `pos`. */
  predicate Holds(data: seq<byte>, pos: nat, bytes: seq<byte>) {
    pos + |bytes| <= |data| && data[pos..pos + |bytes|] == bytes
  }

  lemma HoldsParts(data: seq<byte>, pos: nat, a: seq<byte>, b: seq<byte>)
    ensures Holds(data, pos, a + b) <==> Holds(data, pos, a) && Holds(data, pos + |a|, b)
  {
    if pos + |a + b| <= |data| {
      var x, y := data[pos..pos + |a|], data[pos + |a|..pos + |a| + |b|];
      assert data[pos..pos + |a + b|] == x + y;
      assert (x + y)[..|a|] == x && (x + y)[|a|..] == y && (a + b)[..|a|] == a && (a + b)[|a|..] == b;
    }
  }

  lemma HoldsWhole(prefix: seq<byte>, bytes: seq<byte>, rest: seq<byte>)
    ensures Holds(prefix + bytes + rest, |prefix|, bytes)
  {
  }

  /** A vint standing at `pos` is decoded there. */
  lemma DecodeAt(data: seq<byte>, pos: nat, v: nat)
    requires v < U64 && Holds(data, pos, Encoded(v))
    ensures Decode(data, pos) == Decoded(v, |Encoded(v)|)
  {
    hide Decode; hide Encoded;
    var n := |Encoded(v)|;
    assert data == data[..pos] + Encoded(v) + data[pos + n..];
    RoundTrip(data[..pos], v, data[pos + n..]);
  }

  /** Likewise a vint padded to a fixed width. */
  lemma DecodeFixedAt(data: seq<byte>, pos: nat, v: nat, width: nat)
    requires v < U64 && 0 < width <= MAX_BYTES && v < Pow128(width) && Holds(data, pos, Fixed(v, width))
    ensures Decode(data, pos) == Decoded(v, width)
  {
    hide Decode; hide Fixed; hide Pow128;
    assert data == data[..pos] + Fixed(v, width) + data[pos + width..];
    FixedRoundTrip(data[..pos], v, width, data[pos + width..]);
  }

  lemma Small(v: nat)
    requires v < 128
    ensures Encoded(v) == [v]
  {
  }

  // ---------------------------------------------------------------- padded vints

  /** `v` in at least `min` bytes. */
  function AtLeast(v: nat, min: nat): (bytes: seq<byte>)
    ensures |bytes| >= min
  {
    if |Encoded(v)| < min then Fixed(v, min) else Encoded(v)
  }

  method VintFixed(value: nat, width: nat) returns (out: seq<byte>)
    ensures out == Fixed(value, width)
  {
    var buffer := new byte[width](_ => 0x80);
    var v := value;
    var i := 0;
    while i < width
      invariant 0 <= i <= width
      invariant buffer[..i] + Fixed(v, width - i) == Fixed(value, width)
    {
      var b := v % 128;
      ghost var before := v;
      v := v / 128;
      if i + 1 < width {
        b := b + 128;
      }
      buffer[i] := b;
      FixedStep(before, width - i);
      assert buffer[..i + 1] == buffer[..i] + [b];
      i := i + 1;
    }
    out := buffer[..];
    assert buffer[..i] == out;
  }

  lemma FixedStep(v: nat, width: nat)
    requires width > 0
    ensures Fixed(v, width) == [if width > 1 then v % 128 + 128 else v % 128] + Fixed(v / 128, width - 1)
  {
  }

  /** Widen byte by byte: the last byte gains its continuation bit and a zero
      follows. */
  method VintAtLeast(value: nat, min: nat) returns (out: seq<byte>)
    requires value < U64
    ensures out == AtLeast(value, min)
  {
    out := Encode(value);
    EncodedIsFixed(value);
    SizeIsNeeded(value);
    while |out| < min
      invariant 0 < |out| && value < Pow128(|out|)
      invariant out == AtLeast(value, |out|) && |Encoded(value)| <= |out|
      invariant |out| <= min || |out| == |Encoded(value)|
    {
      FixedWider(value, |out|);
      assert out == Fixed(value, |out|);
      out := out[|out| - 1 := out[|out| - 1] + 128];
      out := out + [0];
    }
  }

  lemma {:induction false} EncodedIsFixed(v: nat)
    ensures Encoded(v) == Fixed(v, |Encoded(v)|)
    decreases v
  {
    if v >= 128 {
      EncodedIsFixed(v / 128);
    }
  }

  lemma {:induction false} FixedWider(v: nat, width: nat)
    requires width > 0 && v < Pow128(width)
    ensures var f := Fixed(v, width);
            f[width - 1] < 128 && Fixed(v, width + 1) == f[width - 1 := f[width - 1] + 128] + [0]
    ensures Pow128(width) <= Pow128(width + 1)
  {
    if width > 1 {
      FixedWider(v / 128, width - 1);
    } else {
      assert v < 128;
      assert Fixed(v / 128, 1) == [0];
    }
  }

  lemma AtLeastDecodes(data: seq<byte>, pos: nat, v: nat, min: nat)
    requires v < U64 && min <= MAX_BYTES && Holds(data, pos, AtLeast(v, min))
    ensures Decode(data, pos) == Decoded(v, |AtLeast(v, min)|)
  {
    hide Decode; hide Holds;
    if |Encoded(v)| < min {
      SizeIsNeeded(v);
      PowGrows(|Encoded(v)|, min);
      DecodeFixedAt(data, pos, v, min);
    } else {
      DecodeAt(data, pos, v);
    }
  }

  // ---------------------------------------------------------------- field by field

  /** `bytes` are the numbers from the `k`-th on, vint behind vint, and then `tail`. */
  ghost predicate Spells(bytes: seq<byte>, values: seq<nat>, k: nat, tail: seq<byte>)
    decreases |values| - k
  {
    if k >= |values| then bytes == tail
    else match Decode(bytes, 0)
         case Decoded(value, n) => value == values[k] && n <= |bytes| && Spells(bytes[n..], values, k + 1, tail)
         case _ => false
  }

  /** One more vint in front, padded or not. */
  lemma SpellsNext(v: nat, min: nat, rest: seq<byte>, values: seq<nat>, k: nat, tail: seq<byte>)
    requires v < U64 && min <= MAX_BYTES && k < |values| && values[k] == v && Spells(rest, values, k + 1, tail)
    ensures Spells(AtLeast(v, min) + rest, values, k, tail)
  {
    hide Decode; hide AtLeast;
    var bytes := AtLeast(v, min) + rest;
    assert Holds(bytes, 0, AtLeast(v, min));
    AtLeastDecodes(bytes, 0, v, min);
    assert bytes[|AtLeast(v, min)|..] == rest;
  }

  lemma Unpadded(v: nat)
    ensures AtLeast(v, 0) == Encoded(v)
  {
  }

  lemma SpellsVint(v: nat, rest: seq<byte>, values: seq<nat>, k: nat, tail: seq<byte>)
    requires v < U64 && k < |values| && values[k] == v && Spells(rest, values, k + 1, tail)
    ensures Spells(Encoded(v) + rest, values, k, tail)
  {
    hide Spells; hide AtLeast; hide Encoded;
    Unpadded(v);
    SpellsNext(v, 0, rest, values, k, tail);
  }

  lemma SpellsTail(tail: seq<byte>, values: seq<nat>)
    ensures Spells(tail, values, |values|, tail)
  {
  }

  // ---------------------------------------------------------------- the envelope

  const MAX_HEADER: nat := 0x20_0000

  function Content(body: seq<byte>): seq<byte> {
    Encoded(|body|) + body
  }

  /** [checksum][body size][body], the checksum over what follows it. */
  function FrameBlock(crc: Checksum, body: seq<byte>): (bytes: seq<byte>)
    ensures |bytes| == 4 + |Encoded(|body|)| + |body|
  {
    LittleEndian(crc(Content(body))) + Content(body)
  }

  /** What a frame is: the checksum, lowest byte first, over all that follows it, .. */
  lemma FrameStamped(crc: Checksum, body: seq<byte>)
    ensures var f := FrameBlock(crc, body); crc(f[4..]) == (f[0], f[1], f[2], f[3])
  {
    hide Encoded;
    var stamp, content := crc(Content(body)), Content(body);
    assert FrameBlock(crc, body)[4..] == content;
    assert stamp == (stamp.0, stamp.1, stamp.2, stamp.3);
  }

  /** .. the size of the body, and the body. */
  lemma FrameSpelled(crc: Checksum, body: seq<byte>, values: seq<nat>)
    requires |body| < U64 && values == [|body|]
    ensures Spells(FrameBlock(crc, body)[4..], values, 0, body)
  {
    hide Encoded; hide Spells; hide FrameBlock;
    SpellsTail(body, values);
    SpellsVint(|body|, body, values, 0, body);
    FrameTail(crc, body);
  }

  lemma FrameTail(crc: Checksum, body: seq<byte>)
    ensures FrameBlock(crc, body)[4..] == Encoded(|body|) + body
  {
    hide Encoded;
  }

  datatype Block = Block(body: seq<byte>, blockType: nat, flags: nat, dataSize: nat, dataOffset: nat)

  datatype Fields = Fields(blockType: nat, flags: nat, dataSize: nat)

  const EXTRA_DATA: nat := 1
  const DATA_AREA: nat := 2
  const SKIP_IF_UNKNOWN: nat := 4

  predicate HasBit(flags: nat, bit: nat)
    requires bit > 0
  {
    flags / bit % 2 == 1
  }

  function ParseFields(body: seq<byte>): Option<Fields> {
    match Decode(body, 0)
    case Decoded(blockType, n) =>
      (match Decode(body, n)
       case Decoded(flags, m) =>
         if HasBit(flags, EXTRA_DATA) then
           match Decode(body, n + m)
           case Decoded(_, k) => ParseDataSize(body, n + m + k, blockType, flags)
           case _ => None
         else ParseDataSize(body, n + m, blockType, flags)
       case _ => None)
    case _ => None
  }

  function ParseDataSize(body: seq<byte>, pos: nat, blockType: nat, flags: nat): Option<Fields> {
    if !HasBit(flags, DATA_AREA) then Some(Fields(blockType, flags, 0))
    else match Decode(body, pos)
         case Decoded(size, _) => Some(Fields(blockType, flags, size))
         case _ => None
  }

  /** Read the plain block standing at `pos`; none when it is truncated, implausibly
      large or its checksum is wrong. */
  function ReadBlock(crc: Checksum, data: seq<byte>, pos: nat): Option<Block> {
    if pos + 5 > |data| then None
    else match Decode(data, pos + 4)
         case Decoded(size, n) =>
           if size == 0 || size > MAX_HEADER || pos + 4 + n + size > |data| || pos + 4 + n > |data| then None
           else
             var end := pos + 4 + n + size;
             var body := data[pos + 4 + n..end];
             if LittleEndian(crc(data[pos + 4..end])) != data[pos..pos + 4] then None
             else (match ParseFields(body)
                   case Some(f) => Some(Block(body, f.blockType, f.flags, f.dataSize, end))
                   case None => None)
         case _ => None
  }

  /** A framed block reads back wherever it stands. */
  lemma FramedReads(crc: Checksum, data: seq<byte>, pos: nat, body: seq<byte>)
    requires Holds(data, pos, FrameBlock(crc, body)) && 0 < |body| <= 0x20_0000
    ensures ReadBlock(crc, data, pos)
         == match ParseFields(body)
            case Some(f) => Some(Block(body, f.blockType, f.flags, f.dataSize, pos + |FrameBlock(crc, body)|))
            case None => None
  {
    hide Decode; hide Encoded; hide ParseFields;
    var stamp, size := LittleEndian(crc(Content(body))), Encoded(|body|);
    HoldsParts(data, pos, stamp, Content(body));
    HoldsParts(data, pos + 4, size, body);
    DecodeAt(data, pos + 4, |body|);
    assert |size| > 0;
  }

  /** Whatever block is read bears a right checksum over its size and its body, and the body
      is neither empty nor over two megabytes. */
  lemma ReadIsChecked(crc: Checksum, data: seq<byte>, pos: nat)
    requires ReadBlock(crc, data, pos).Some?
    ensures var b := ReadBlock(crc, data, pos).value;
            && 0 < |b.body| <= 0x20_0000 && pos + 4 + |b.body| < b.dataOffset <= |data|
            && data[b.dataOffset - |b.body|..b.dataOffset] == b.body
            && crc(data[pos + 4..b.dataOffset]) == (data[pos], data[pos + 1], data[pos + 2], data[pos + 3])
            && Decode(data, pos + 4) == Decoded(|b.body|, b.dataOffset - |b.body| - pos - 4)
  {
    hide ParseFields; hide Scan;
    var b := ReadBlock(crc, data, pos).value;
    ScanBound(data, pos + 4, MAX_BYTES);
    var stamp := crc(data[pos + 4..b.dataOffset]);
    assert LittleEndian(stamp) == data[pos..pos + 4];
    assert data[pos..pos + 4] == [data[pos], data[pos + 1], data[pos + 2], data[pos + 3]];
    assert stamp == (LittleEndian(stamp)[0], LittleEndian(stamp)[1], LittleEndian(stamp)[2], LittleEndian(stamp)[3]);
  }

  // ---------------------------------------------------------------- service blocks

  const SERVICE_HEADER: nat := 3
  const END_ARCHIVE: nat := 5
  const ARCHIVE_HEADER: nat := 1

  const QUICK_OPEN_NAME: seq<byte> := [0x51, 0x4F]
  const RECOVERY_NAME: seq<byte> := [0x52, 0x52]

  function ServiceFlags(subdata: seq<byte>): nat {
    if subdata != [] then 7 else 6
  }

  /** What follows the data size in a service header. */
  function ServiceTail(name: seq<byte>, subdata: seq<byte>, dataSize: nat, hostOs: nat): seq<byte> {
    Encoded(0) + AtLeast(dataSize, 2) + Encoded(0) + AtLeast(0, 2) + Encoded(hostOs) + Encoded(|name|)
    + name + subdata
  }

  function ServiceStart(subdata: seq<byte>): seq<byte> {
    Encoded(SERVICE_HEADER) + (Encoded(ServiceFlags(subdata)) + (if subdata != [] then Encoded(|subdata|) else []))
  }

  /** The header of a service that may be skipped when unknown. */
  function ServiceBody(name: seq<byte>, subdata: seq<byte>, dataSize: nat, hostOs: nat): seq<byte> {
    ServiceStart(subdata) + (AtLeast(dataSize, 2) + ServiceTail(name, subdata, dataSize, hostOs))
  }

  /** The header in front of `dataSize` bytes of service data. */
  function ServiceBlock(crc: Checksum, name: seq<byte>, subdata: seq<byte>, dataSize: nat, hostOs: nat): seq<byte> {
    FrameBlock(crc, ServiceBody(name, subdata, dataSize, hostOs))
  }

  lemma ServiceFields(name: seq<byte>, subdata: seq<byte>, dataSize: nat, hostOs: nat)
    requires dataSize < U64 && |subdata| < 128
    ensures ParseFields(ServiceBody(name, subdata, dataSize, hostOs))
         == Some(Fields(SERVICE_HEADER, ServiceFlags(subdata), dataSize))
  {
    hide Decode; hide Encoded; hide Holds; hide AtLeast; hide ServiceTail;
    var body := ServiceBody(name, subdata, dataSize, hostOs);
    var start, size := ServiceStart(subdata), AtLeast(dataSize, 2);
    var tail := ServiceTail(name, subdata, dataSize, hostOs);
    HoldsSelf(body);
    HoldsParts(body, 0, start, size + tail);
    HoldsParts(body, |start|, size, tail);
    AtLeastDecodes(body, |start|, dataSize, 2);
    Small(SERVICE_HEADER);
    Small(ServiceFlags(subdata));
    var flags := Encoded(ServiceFlags(subdata));
    var extra := if subdata != [] then Encoded(|subdata|) else [];
    HoldsParts(body, 0, Encoded(SERVICE_HEADER), flags + extra);
    HoldsParts(body, 1, flags, extra);
    DecodeAt(body, 0, SERVICE_HEADER);
    DecodeAt(body, 1, ServiceFlags(subdata));
    if subdata != [] {
      Small(|subdata|);
      DecodeAt(body, 2, |subdata|);
    }
  }

  lemma HoldsSelf(bytes: seq<byte>)
    ensures Holds(bytes, 0, bytes)
  {
  }

  lemma ServiceSize(name: seq<byte>, subdata: seq<byte>, dataSize: nat, hostOs: nat)
    requires dataSize < U64 && |name| == 2 && |subdata| < 128 && hostOs < 128
    ensures 0 < |ServiceBody(name, subdata, dataSize, hostOs)| < 300
  {
    hide Encoded;
    Small(0);
    Small(SERVICE_HEADER);
    Small(ServiceFlags(subdata));
    Small(|subdata|);
    Small(hostOs);
    Small(2);
    U64Fits(dataSize);
  }

  /** A service block read where it stands announces exactly its data's length, and
      the data starts right behind it. */
  lemma ServiceReads(crc: Checksum, data: seq<byte>, pos: nat, name: seq<byte>, subdata: seq<byte>,
                     dataSize: nat, hostOs: nat)
    requires dataSize < U64 && |name| == 2 && |subdata| < 128 && hostOs < 128
    requires Holds(data, pos, ServiceBlock(crc, name, subdata, dataSize, hostOs))
    ensures var b := ReadBlock(crc, data, pos);
            b == Some(Block(ServiceBody(name, subdata, dataSize, hostOs), SERVICE_HEADER, ServiceFlags(subdata),
                            dataSize, pos + |ServiceBlock(crc, name, subdata, dataSize, hostOs)|))
  {
    hide ServiceBody; hide ParseFields; hide ReadBlock; hide Holds; hide FrameBlock;
    ServiceFields(name, subdata, dataSize, hostOs);
    ServiceSize(name, subdata, dataSize, hostOs);
    FramedReads(crc, data, pos, ServiceBody(name, subdata, dataSize, hostOs));
  }

  /** A service header spelled out: type 3, the flags of a block with a data area that may
      be skipped, 7 with an extra area whose size follows and 6 without one, the data size,
      no file flags, the data size again, no attributes, no method, the host and the name. */
  lemma ServiceSpelled(name: seq<byte>, subdata: seq<byte>, dataSize: nat, hostOs: nat)
    requires dataSize < U64 && |name| < U64 && |subdata| < U64 && hostOs < U64
    ensures var head := if subdata == [] then [3, 6] else [3, 7, |subdata|];
            Spells(ServiceBody(name, subdata, dataSize, hostOs),
                   head + [dataSize, 0, dataSize, 0, 0, hostOs, |name|], 0, name + subdata)
  {
    hide Encoded; hide Spells; hide AtLeast; hide ServiceTail; hide ServiceStart;
    var head := if subdata == [] then [3, 6] else [3, 7, |subdata|];
    var values := head + [dataSize, 0, dataSize, 0, 0, hostOs, |name|];
    TailSpelled(name, subdata, dataSize, hostOs, values, |head| + 1);
    var tail := ServiceTail(name, subdata, dataSize, hostOs);
    SpellsNext(dataSize, 2, tail, values, |head|, name + subdata);
    StartSpelled(subdata, AtLeast(dataSize, 2) + tail, values, name + subdata);
  }

  lemma TailSpelled(name: seq<byte>, subdata: seq<byte>, dataSize: nat, hostOs: nat, values: seq<nat>, k: nat)
    requires dataSize < U64 && |name| < U64 && hostOs < U64
    requires |values| == k + 6 && values[k] == 0 && values[k + 1] == dataSize && values[k + 2] == 0
    requires values[k + 3] == 0 && values[k + 4] == hostOs && values[k + 5] == |name|
    ensures Spells(ServiceTail(name, subdata, dataSize, hostOs), values, k, name + subdata)
  {
    hide Encoded; hide Spells; hide AtLeast;
    var all := name + subdata;
    var host := Encoded(hostOs) + (Encoded(|name|) + all);
    var unpacked := AtLeast(dataSize, 2) + (Encoded(0) + (AtLeast(0, 2) + host));
    SpellsTail(all, values);
    SpellsVint(|name|, all, values, k + 5, all);
    SpellsVint(hostOs, Encoded(|name|) + all, values, k + 4, all);
    SpellsNext(0, 2, host, values, k + 3, all);
    SpellsVint(0, AtLeast(0, 2) + host, values, k + 2, all);
    SpellsNext(dataSize, 2, Encoded(0) + (AtLeast(0, 2) + host), values, k + 1, all);
    SpellsVint(0, unpacked, values, k, all);
    assert ServiceTail(name, subdata, dataSize, hostOs) == Encoded(0) + unpacked;
  }

  lemma StartSpelled(subdata: seq<byte>, rest: seq<byte>, values: seq<nat>, tail: seq<byte>)
    requires |subdata| < U64 && |values| >= 3 && values[0] == 3
    requires if subdata == [] then values[1] == 6 && Spells(rest, values, 2, tail)
             else values[1] == 7 && values[2] == |subdata| && Spells(rest, values, 3, tail)
    ensures Spells(ServiceStart(subdata) + rest, values, 0, tail)
  {
    hide Encoded; hide Spells;
    if subdata == [] {
      SpellsVint(6, rest, values, 1, tail);
      SpellsVint(3, Encoded(6) + rest, values, 0, tail);
      assert ServiceStart(subdata) + rest == Encoded(3) + (Encoded(6) + rest);
    } else {
      var n := |subdata|;
      SpellsVint(n, rest, values, 2, tail);
      SpellsVint(7, Encoded(n) + rest, values, 1, tail);
      SpellsVint(3, Encoded(7) + (Encoded(n) + rest), values, 0, tail);
      assert ServiceStart(subdata) + rest == Encoded(3) + (Encoded(7) + (Encoded(n) + rest));
    }
  }

  // ---------------------------------------------------------------- the end block

  const NEXT_VOLUME: nat := 1

  function EndBody(flags: nat): seq<byte> {
    Encoded(END_ARCHIVE) + Encoded(SKIP_IF_UNKNOWN) + Encoded(flags)
  }

  /** The end block; its flag says whether another volume follows. */
  function EndBlock(crc: Checksum, nextVolume: bool): seq<byte> {
    FrameBlock(crc, EndBody(if nextVolume then NEXT_VOLUME else 0))
  }

  function EndFlags(b: Block): Option<nat> {
    match Decode(b.body, 0)
    case Decoded(_, n) =>
      (match Decode(b.body, n)
       case Decoded(_, m) =>
         if n + m >= |b.body| then Some(0)
         else (match Decode(b.body, n + m)
               case Decoded(flags, _) => Some(flags)
               case _ => None)
       case _ => None)
    case _ => None
  }

  /** An end block read where it stands says whether a volume follows; it is eight
      bytes long. */
  lemma EndReads(crc: Checksum, data: seq<byte>, pos: nat, nextVolume: bool)
    requires Holds(data, pos, EndBlock(crc, nextVolume))
    ensures var b := ReadBlock(crc, data, pos);
            && b.Some? && b.value.blockType == END_ARCHIVE && b.value.dataSize == 0
            && b.value.dataOffset == pos + 8
            && EndFlags(b.value) == Some(if nextVolume then NEXT_VOLUME else 0)
    ensures |EndBlock(crc, nextVolume)| == 8
  {
    hide Decode; hide Encoded; hide Holds; hide ReadBlock;
    var flag := if nextVolume then NEXT_VOLUME else 0;
    var body := EndBody(flag);
    Small(END_ARCHIVE);
    Small(SKIP_IF_UNKNOWN);
    Small(flag);
    Small(3);
    assert body == [END_ARCHIVE, SKIP_IF_UNKNOWN, flag];
    SmallBytes(body, 0);
    SmallBytes(body, 1);
    SmallBytes(body, 2);
    FramedReads(crc, data, pos, body);
  }

  /** A byte below 128 is a vint of its own. */
  lemma SmallBytes(data: seq<byte>, pos: nat)
    requires pos < |data| && data[pos] < 128
    ensures Decode(data, pos) == Decoded(data[pos], 1)
  {
    Small(data[pos]);
    assert data[pos..pos + 1] == [data[pos]];
    DecodeAt(data, pos, data[pos]);
  }

  /** The end block's body spelled out. */
  lemma EndSpelled(flags: nat)
    requires flags < U64
    ensures Spells(EndBody(flags), [5, 4, flags], 0, [])
  {
    hide Encoded; hide Spells;
    var values := [5, 4, flags];
    SpellsTail([], values);
    SpellsVint(flags, [], values, 2, []);
    SpellsVint(4, Encoded(flags) + [], values, 1, []);
    SpellsVint(5, Encoded(4) + (Encoded(flags) + []), values, 0, []);
    assert EndBody(flags) == Encoded(5) + (Encoded(4) + (Encoded(flags) + []));
  }

  // ---------------------------------------------------------------- the main header

  datatype ArchiveHeader = ArchiveHeader(flags: nat, extra: seq<byte>, volumeNumber: Option<nat>)

  /** The archive flags as stored: a numbered volume sets the two volume bits. */
  function StoredFlags(h: ArchiveHeader): nat {
    var low := h.flags % 0x1_0000;
    if h.volumeNumber.Some? then low / 4 * 4 + 3 else low
  }

  function MainStart(h: ArchiveHeader): seq<byte> {
    Encoded(ARCHIVE_HEADER)
    + (if h.extra != [] then Encoded(SKIP_IF_UNKNOWN + EXTRA_DATA) + Encoded(|h.extra|) else Encoded(SKIP_IF_UNKNOWN))
  }

  function MainMiddle(h: ArchiveHeader): seq<byte> {
    Encoded(StoredFlags(h)) + (if h.volumeNumber.Some? then Encoded(h.volumeNumber.value) else [])
  }

  function MainBody(h: ArchiveHeader): seq<byte> {
    MainStart(h) + (MainMiddle(h) + h.extra)
  }

  /** A main header spelled out: type 1, block flags 4, or 5 with the size of the extra area
      behind them, the archive flags, for a numbered volume with both volume bits, the
      number, and the extra area. */
  lemma MainSpelled(h: ArchiveHeader)
    requires |h.extra| < U64 && h.flags < 0x1_0000 && (h.volumeNumber.Some? ==> h.volumeNumber.value < U64)
    ensures var head := if h.extra == [] then [1, 4] else [1, 5, |h.extra|];
            var fields := if h.volumeNumber.Some? then [h.flags / 4 * 4 + 3, h.volumeNumber.value] else [h.flags];
            Spells(MainBody(h), head + fields, 0, h.extra)
  {
    hide Encoded; hide Spells; hide MainStart; hide MainMiddle;
    var head := if h.extra == [] then [1, 4] else [1, 5, |h.extra|];
    var fields := if h.volumeNumber.Some? then [h.flags / 4 * 4 + 3, h.volumeNumber.value] else [h.flags];
    MiddleSpelled(h, head + fields, |head|);
    MainStartSpelled(h, MainMiddle(h) + h.extra, head + fields);
  }

  lemma MiddleSpelled(h: ArchiveHeader, values: seq<nat>, k: nat)
    requires h.flags < 0x1_0000
    requires if h.volumeNumber.Some? then
               |values| == k + 2 && values[k] == h.flags / 4 * 4 + 3 && values[k + 1] == h.volumeNumber.value < U64
             else |values| == k + 1 && values[k] == h.flags
    ensures Spells(MainMiddle(h) + h.extra, values, k, h.extra)
  {
    hide Encoded; hide Spells;
    SpellsTail(h.extra, values);
    if h.volumeNumber.Some? {
      var number, flags := h.volumeNumber.value, h.flags / 4 * 4 + 3;
      SpellsVint(number, h.extra, values, k + 1, h.extra);
      SpellsVint(flags, Encoded(number) + h.extra, values, k, h.extra);
      assert MainMiddle(h) + h.extra == Encoded(flags) + (Encoded(number) + h.extra);
    } else {
      SpellsVint(h.flags, h.extra, values, k, h.extra);
      assert MainMiddle(h) + h.extra == Encoded(h.flags) + h.extra;
    }
  }

  lemma MainStartSpelled(h: ArchiveHeader, rest: seq<byte>, values: seq<nat>)
    requires |h.extra| < U64 && |values| >= 3 && values[0] == 1
    requires if h.extra == [] then values[1] == 4 && Spells(rest, values, 2, h.extra)
             else values[1] == 5 && values[2] == |h.extra| && Spells(rest, values, 3, h.extra)
    ensures Spells(MainStart(h) + rest, values, 0, h.extra)
  {
    hide Encoded; hide Spells;
    if h.extra == [] {
      SpellsVint(4, rest, values, 1, h.extra);
      SpellsVint(1, Encoded(4) + rest, values, 0, h.extra);
      assert MainStart(h) + rest == Encoded(1) + (Encoded(4) + rest);
    } else {
      var n := |h.extra|;
      SpellsVint(n, rest, values, 2, h.extra);
      SpellsVint(5, Encoded(n) + rest, values, 1, h.extra);
      SpellsVint(1, Encoded(5) + (Encoded(n) + rest), values, 0, h.extra);
      assert MainStart(h) + rest == Encoded(1) + (Encoded(5) + (Encoded(n) + rest));
    }
  }

  /** The reader's view of a main header body. */
  function ParseMain(body: seq<byte>): Option<ArchiveHeader> {
    match Decode(body, 0)
    case Decoded(_, n) =>
      (match Decode(body, n)
       case Decoded(blockFlags, m) =>
         if HasBit(blockFlags, EXTRA_DATA) then
           match Decode(body, n + m)
           case Decoded(extraSize, k) => ParseMainRest(body, n + m + k, extraSize)
           case _ => None
         else ParseMainRest(body, n + m, 0)
       case _ => None)
    case _ => None
  }

  function ParseMainRest(body: seq<byte>, pos: nat, extraSize: nat): Option<ArchiveHeader> {
    match Decode(body, pos)
    case Decoded(flags, n) =>
      if HasBit(flags, 2) then
        match Decode(body, pos + n)
        case Decoded(number, m) => ParseExtra(body, pos + n + m, extraSize, flags, Some(number))
        case _ => None
      else ParseExtra(body, pos + n, extraSize, flags, None)
    case _ => None
  }

  function ParseExtra(body: seq<byte>, pos: nat, extraSize: nat, flags: nat, number: Option<nat>): Option<ArchiveHeader> {
    if extraSize == 0 then Some(ArchiveHeader(flags, [], number))
    else if pos + extraSize > |body| then None
    else Some(ArchiveHeader(flags, body[pos..pos + extraSize], number))
  }

  /** The reader gets back what was serialized: flags as stored, extra area, number. */
  lemma MainParses(h: ArchiveHeader)
    requires |h.extra| < 128 && (h.volumeNumber.Some? ==> h.volumeNumber.value < U64)
    requires h.volumeNumber.None? ==> !HasBit(h.flags, 2)
    ensures ParseMain(MainBody(h)) == Some(ArchiveHeader(StoredFlags(h), h.extra, h.volumeNumber))
  {
    hide Decode; hide Encoded; hide Holds;
    var body := MainBody(h);
    var start, middle := MainStart(h), MainMiddle(h);
    HoldsSelf(body);
    HoldsParts(body, 0, start, middle + h.extra);
    HoldsParts(body, |start|, middle, h.extra);
    MainStartReads(h, body);
    MainMiddleReads(h, body, |start|);
    assert h.extra != [] ==> body[|start| + |middle|..|start| + |middle| + |h.extra|] == h.extra;
  }

  lemma MainStartReads(h: ArchiveHeader, body: seq<byte>)
    requires |h.extra| < 128 && Holds(body, 0, MainStart(h))
    ensures ParseMain(body) == ParseMainRest(body, |MainStart(h)|, |h.extra|)
    ensures |MainStart(h)| == if h.extra != [] then 3 else 2
    ensures |body| >= |MainStart(h)|
  {
    hide Decode; hide Encoded; hide ParseMainRest;
    Small(ARCHIVE_HEADER);
    Small(SKIP_IF_UNKNOWN);
    Small(SKIP_IF_UNKNOWN + EXTRA_DATA);
    Small(|h.extra|);
    SmallBytes(body, 0);
    SmallBytes(body, 1);
    if h.extra != [] {
      SmallBytes(body, 2);
    }
  }

  lemma MainMiddleReads(h: ArchiveHeader, body: seq<byte>, pos: nat)
    requires h.volumeNumber.Some? ==> h.volumeNumber.value < U64
    requires h.volumeNumber.None? ==> !HasBit(h.flags, 2)
    requires Holds(body, pos, MainMiddle(h))
    ensures ParseMainRest(body, pos, |h.extra|)
         == ParseExtra(body, pos + |MainMiddle(h)|, |h.extra|, StoredFlags(h), h.volumeNumber)
  {
    hide Decode; hide Encoded; hide Holds; hide ParseExtra; hide HasBit;
    var flags := Encoded(StoredFlags(h));
    var number := if h.volumeNumber.Some? then Encoded(h.volumeNumber.value) else [];
    HoldsParts(body, pos, flags, number);
    DecodeAt(body, pos, StoredFlags(h));
    NumberBit(h);
    if h.volumeNumber.Some? {
      DecodeAt(body, pos + |flags|, h.volumeNumber.value);
    }
  }

  lemma NumberBit(h: ArchiveHeader)
    requires h.volumeNumber.None? ==> !HasBit(h.flags, 2)
    ensures HasBit(StoredFlags(h), 2) == h.volumeNumber.Some?
    ensures StoredFlags(h) < 0x1_0000
  {
    if h.volumeNumber.Some? {
      BothBits(h.flags % 0x1_0000 / 4);
    } else {
      LowBit(h.flags);
    }
  }

  lemma BothBits(q: nat)
    ensures (4 * q + 3) / 2 % 2 == 1
  {
    assert (4 * q + 3) / 2 == 2 * q + 1;
  }

  lemma LowBit(flags: nat)
    ensures flags % 0x1_0000 / 2 % 2 == flags / 2 % 2
  {
    var high, low := flags / 0x1_0000, flags % 0x1_0000;
    assert flags == 2 * (0x8000 * high) + low;
    assert flags / 2 == 0x8000 * high + low / 2;
    assert flags / 2 == 2 * (0x4000 * high) + low / 2;
  }
}
