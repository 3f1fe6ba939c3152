/** The reader's view of a service header (format/rar5/headers/parse.rs): its name, by
    which the records of a volume are told apart, its fields, and the data record in its
    extra area. */
module Services {
  import opened Options
  import opened Vint
  import opened Blocks

  datatype Service = Service(
    dataSize: nat,
    fileFlags: nat,
    unpackedSize: nat,
    attributes: nat,
    compression: nat,
    hostOs: nat,
    name: seq<byte>)

  /** Three vints in a row, and where they end. */
  function Three(body: seq<byte>, pos: nat): Option<(nat, nat, nat, nat)> {
    match Decode(body, pos)
    case Decoded(a, n) =>
      (match Decode(body, pos + n)
       case Decoded(b, m) =>
         (match Decode(body, pos + n + m)
          case Decoded(c, k) => Some((a, b, c, pos + n + m + k))
          case _ => None)
       case _ => None)
    case _ => None
  }

  function ReadService(body: seq<byte>): Option<Service> {
    match Decode(body, 0)
    case Decoded(_, n) =>
      (match Decode(body, n)
       case Decoded(flags, m) =>
         if HasBit(flags, EXTRA_DATA) then
           match Decode(body, n + m)
           case Decoded(_, k) => ReadSized(body, n + m + k, flags)
           case _ => None
         else ReadSized(body, n + m, flags)
       case _ => None)
    case _ => None
  }

  function ReadSized(body: seq<byte>, pos: nat, flags: nat): Option<Service> {
    if !HasBit(flags, DATA_AREA) then ReadFile(body, pos, 0)
    else match Decode(body, pos)
         case Decoded(size, n) => ReadFile(body, pos + n, size)
         case _ => None
  }

  /** File flags, unpacked size and attributes, then time and checksum if the flags say
      so, then compression, host and name. */
  function ReadFile(body: seq<byte>, pos: nat, dataSize: nat): Option<Service> {
    match Three(body, pos)
    case None => None
    case Some((fileFlags, unpackedSize, attributes, next)) =>
      var behind := next + (if HasBit(fileFlags, 2) then 4 else 0) + (if HasBit(fileFlags, 4) then 4 else 0);
      if behind > |body| then None
      else match Three(body, behind)
           case None => None
           case Some((compression, hostOs, length, start)) =>
             if start + length > |body| then None
             else Some(Service(dataSize, fileFlags, unpackedSize, attributes, compression, hostOs,
                               body[start..start + length]))
  }

  /** The extra area: the last bytes of the body, as many as announced. */
  function ExtraArea(body: seq<byte>): Option<seq<byte>> {
    match Decode(body, 0)
    case Decoded(_, n) =>
      (match Decode(body, n)
       case Decoded(flags, m) =>
         if !HasBit(flags, EXTRA_DATA) then Some([])
         else (match Decode(body, n + m)
               case Decoded(size, _) => if size > |body| then None else Some(body[|body| - size..])
               case _ => None)
       case _ => None)
    case _ => None
  }

  const SERVICE_DATA: nat := 7

  /** The payload of the first service-data record at or behind `pos`. */
  function Subdata(extra: seq<byte>, pos: nat): Option<seq<byte>>
    decreases if pos <= |extra| then |extra| - pos else 0
  {
    if pos + 2 > |extra| then None
    else match Decode(extra, pos)
         case Decoded(size, n) =>
           if pos + n + size > |extra| then None
           else (match Decode(extra, pos + n)
                 case Decoded(kind, m) =>
                   if m > size then None
                   else if kind == SERVICE_DATA then Some(extra[pos + n + m..pos + n + size])
                   else Subdata(extra, pos + n + size)
                 case _ => None)
         case _ => None
  }

  /** The percentage a recovery record's header carries. */
  function RecoveryPercent(body: seq<byte>): Option<nat> {
    match ExtraArea(body)
    case None => None
    case Some(extra) =>
      match Subdata(extra, 0)
      case None => None
      case Some(payload) => if payload == [] then None else Some(payload[0])
  }

  // ---------------------------------------------------------------- what is read back

  lemma ThreeRead(body: seq<byte>, pos: nat, a: nat, first: seq<byte>, b: nat, second: seq<byte>, c: nat,
                  third: seq<byte>, rest: seq<byte>)
    requires Holds(body, pos, first + (second + (third + rest)))
    requires Decode(body, pos) == Decoded(a, |first|)
    requires Decode(body, pos + |first|) == Decoded(b, |second|)
    requires Decode(body, pos + |first| + |second|) == Decoded(c, |third|)
    ensures var next := pos + |first| + |second| + |third|;
            Three(body, pos) == Some((a, b, c, next)) && Holds(body, next, rest)
  {
    hide Decode;
    HoldsParts(body, pos, first, second + (third + rest));
    HoldsParts(body, pos + |first|, second, third + rest);
    HoldsParts(body, pos + |first| + |second|, third, rest);
  }

  /** Every field of a service header reads back as the writer meant it: the name, and an
      unpacked size that is the data size; and the extra area is what was put there. */
  lemma ServiceReadsBack(name: seq<byte>, subdata: seq<byte>, dataSize: nat, hostOs: nat)
    requires dataSize < U64 && |name| < 128 && |subdata| < 128 && hostOs < 128
    ensures var body := ServiceBody(name, subdata, dataSize, hostOs);
            && ReadService(body) == Some(Service(dataSize, 0, dataSize, 0, 0, hostOs, name))
            && ExtraArea(body) == Some(subdata)
  {
    hide Decode; hide Encoded; hide Holds; hide AtLeast; hide Three; hide ServiceStart; hide ServiceTail; hide ReadFile;
    var body := ServiceBody(name, subdata, dataSize, hostOs);
    var start, size := ServiceStart(subdata), AtLeast(dataSize, 2);
    HoldsSelf(body);
    HoldsParts(body, 0, start, size + ServiceTail(name, subdata, dataSize, hostOs));
    HoldsParts(body, |start|, size, ServiceTail(name, subdata, dataSize, hostOs));
    AtLeastDecodes(body, |start|, dataSize, 2);
    StartReads(body, subdata);
    TailReads(body, |start| + |size|, name, subdata, dataSize, hostOs);
  }

  lemma StartReads(body: seq<byte>, subdata: seq<byte>)
    requires |subdata| < 128 && Holds(body, 0, ServiceStart(subdata))
    ensures ReadService(body) == ReadSized(body, |ServiceStart(subdata)|, if subdata == [] then 6 else 7)
    ensures |subdata| <= |body| ==>
              ExtraArea(body) == Some(if subdata == [] then [] else body[|body| - |subdata|..])
  {
    hide Decode; hide Encoded; hide ReadSized;
    Small(SERVICE_HEADER);
    Small(ServiceFlags(subdata));
    Small(|subdata|);
    SmallBytes(body, 0);
    SmallBytes(body, 1);
    if subdata != [] {
      SmallBytes(body, 2);
    }
  }

  lemma TailReads(body: seq<byte>, pos: nat, name: seq<byte>, subdata: seq<byte>, dataSize: nat, hostOs: nat)
    requires dataSize < U64 && |name| < 128 && |subdata| < 128 && hostOs < 128
    requires Holds(body, pos, ServiceTail(name, subdata, dataSize, hostOs))
    requires pos + |ServiceTail(name, subdata, dataSize, hostOs)| == |body|
    ensures ReadFile(body, pos, dataSize) == Some(Service(dataSize, 0, dataSize, 0, 0, hostOs, name))
    ensures |subdata| <= |body| && body[|body| - |subdata|..] == subdata
  {
    hide Decode; hide Encoded; hide Holds; hide AtLeast; hide Three; hide ServiceTail;
    var zero, unpacked, compression := Encoded(0), AtLeast(dataSize, 2), AtLeast(0, 2);
    var host, length := Encoded(hostOs), Encoded(|name|);
    var second := compression + (host + (length + (name + subdata)));
    TailGroups(name, subdata, dataSize, hostOs);
    TailParts(body, pos, zero, unpacked, zero, second);
    var behind := pos + |zero| + |unpacked| + |zero|;
    TailParts(body, behind, compression, host, length, name + subdata);
    DecodeAt(body, pos, 0);
    AtLeastDecodes(body, pos + |zero|, dataSize, 2);
    DecodeAt(body, pos + |zero| + |unpacked|, 0);
    ThreeRead(body, pos, 0, zero, dataSize, unpacked, 0, zero, second);
    AtLeastDecodes(body, behind, 0, 2);
    DecodeAt(body, behind + |compression|, hostOs);
    DecodeAt(body, behind + |compression| + |host|, |name|);
    ThreeRead(body, behind, 0, compression, hostOs, host, |name|, length, name + subdata);
    NameStands(body, behind + |compression| + |host| + |length|, name, subdata);
  }

  lemma TailGroups(name: seq<byte>, subdata: seq<byte>, dataSize: nat, hostOs: nat)
    ensures ServiceTail(name, subdata, dataSize, hostOs)
         == Encoded(0) + (AtLeast(dataSize, 2) + (Encoded(0)
            + (AtLeast(0, 2) + (Encoded(hostOs) + (Encoded(|name|) + (name + subdata))))))
  {
    hide Encoded; hide AtLeast;
  }

  lemma TailParts(body: seq<byte>, pos: nat, a: seq<byte>, b: seq<byte>, c: seq<byte>, rest: seq<byte>)
    requires Holds(body, pos, a + (b + (c + rest)))
    ensures Holds(body, pos, a) && Holds(body, pos + |a|, b) && Holds(body, pos + |a| + |b|, c)
    ensures Holds(body, pos + |a| + |b| + |c|, rest)
  {
    hide Holds;
    HoldsParts(body, pos, a, b + (c + rest));
    HoldsParts(body, pos + |a|, b, c + rest);
    HoldsParts(body, pos + |a| + |b|, c, rest);
  }

  lemma NameStands(body: seq<byte>, pos: nat, name: seq<byte>, subdata: seq<byte>)
    requires Holds(body, pos, name + subdata) && pos + |name + subdata| == |body|
    ensures pos + |name| <= |body| && body[pos..pos + |name|] == name
    ensures |subdata| <= |body| && body[|body| - |subdata|..] == subdata
  {
    HoldsParts(body, pos, name, subdata);
  }
}
