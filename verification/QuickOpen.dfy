/** The quick-open catalog (format/rar5/headers/quick_open.rs): copies of member
    headers, each with its distance back from the record. */
module QuickOpen {
  import opened Vint
  import opened Blocks

  /** A cached header and how far it lies before the record. */
  datatype Entry = Entry(distance: nat, header: seq<byte>)

  datatype Error = TooManyEntries | TruncatedCrc | BadVint | TruncatedBody | CrcMismatch | TruncatedHeader

  datatype Result<T> = Ok(value: T) | Err(error: Error)

  function EntryBody(e: Entry): seq<byte> {
    Encoded(0) + (Encoded(e.distance) + (Encoded(|e.header|) + e.header))
  }

  /** [checksum][body size][body], like a block. */
  function EncodeEntry(crc: Checksum, e: Entry): seq<byte> {
    FrameBlock(crc, EntryBody(e))
  }

  function EncodePayload(crc: Checksum, entries: seq<Entry>): seq<byte> {
    if entries == [] then [] else EncodeEntry(crc, entries[0]) + EncodePayload(crc, entries[1..])
  }

  lemma {:induction false} PayloadAppend(crc: Checksum, a: seq<Entry>, b: seq<Entry>)
    ensures EncodePayload(crc, a + b) == EncodePayload(crc, a) + EncodePayload(crc, b)
  {
    hide EncodeEntry;
    if a == [] {
      assert a + b == b;
    } else {
      assert (a + b)[1..] == a[1..] + b;
      PayloadAppend(crc, a[1..], b);
    }
  }

  // ---------------------------------------------------------------- decoding

  datatype Step = Step(entry: Entry, next: nat)

  /** The three fields of an entry body and the header behind them. */
  function DecodeBody(payload: seq<byte>, off: nat, end: nat): Result<Step> {
    match Decode(payload, off)
    case Decoded(_, f) =>
      (match Decode(payload, off + f)
       case Decoded(distance, d) =>
         (match Decode(payload, off + f + d)
          case Decoded(size, s) =>
            var at := off + f + d + s;
            if at + size > end || end > |payload| then Err(TruncatedHeader)
            else Ok(Step(Entry(distance, payload[at..at + size]), end))
          case _ => Err(BadVint))
       case _ => Err(BadVint))
    case _ => Err(BadVint)
  }

  /** One entry at `off`: its checksum covers the size field and the body. */
  function DecodeEntry(crc: Checksum, payload: seq<byte>, off: nat): (r: Result<Step>)
    ensures r.Ok? ==> off < r.value.next <= |payload|
  {
    if off + 4 > |payload| then Err(TruncatedCrc)
    else match Decode(payload, off + 4)
         case Decoded(size, n) =>
           (var end := off + 4 + n + size;
            if end > |payload| then Err(TruncatedBody)
            else if LittleEndian(crc(payload[off + 4..end])) != payload[off..off + 4] then Err(CrcMismatch)
            else DecodeBody(payload, off + 4 + n, end))
         case _ => Err(BadVint)
  }

  /** All entries from `off` on, at most `left` of them. */
  function DecodeFrom(crc: Checksum, payload: seq<byte>, off: nat, left: nat): Result<seq<Entry>>
    decreases |payload| - off
  {
    if off >= |payload| then Ok([])
    else if left == 0 then Err(TooManyEntries)
    else match DecodeEntry(crc, payload, off)
         case Err(e) => Err(e)
         case Ok(step) =>
           (match DecodeFrom(crc, payload, step.next, left - 1)
            case Err(e) => Err(e)
            case Ok(rest) => Ok([step.entry] + rest))
  }

  function Prepend(entries: seq<Entry>, r: Result<seq<Entry>>): Result<seq<Entry>> {
    match r
    case Ok(rest) => Ok(entries + rest)
    case Err(e) => Err(e)
  }

  method DecodePayload(crc: Checksum, payload: seq<byte>, maxEntries: nat) returns (r: Result<seq<Entry>>)
    ensures r == DecodeFrom(crc, payload, 0, maxEntries)
  {
    hide DecodeEntry; hide DecodeFrom; hide Prepend;
    var entries := [];
    var off := 0;
    PrependNothing(DecodeFrom(crc, payload, 0, maxEntries));
    while off < |payload|
      invariant 0 <= off && |entries| <= maxEntries
      invariant Prepend(entries, DecodeFrom(crc, payload, off, maxEntries - |entries|))
             == DecodeFrom(crc, payload, 0, maxEntries)
      decreases |payload| - off
    {
      PrependNext(crc, payload, off, maxEntries - |entries|, entries);
      if |entries| >= maxEntries {
        return Err(TooManyEntries);
      }
      match DecodeEntry(crc, payload, off) {
        case Err(e) =>
          return Err(e);
        case Ok(step) =>
          entries := entries + [step.entry];
          off := step.next;
      }
    }
    PrependLast(crc, payload, off, maxEntries - |entries|, entries);
    r := Ok(entries);
  }

  lemma PrependNext(crc: Checksum, payload: seq<byte>, off: nat, left: nat, entries: seq<Entry>)
    requires off < |payload|
    ensures Prepend(entries, DecodeFrom(crc, payload, off, left))
         == if left == 0 then Err(TooManyEntries)
            else match DecodeEntry(crc, payload, off)
                 case Err(e) => Err(e)
                 case Ok(step) => Prepend(entries + [step.entry], DecodeFrom(crc, payload, step.next, left - 1))
  {
    hide DecodeEntry;
    if left > 0 && DecodeEntry(crc, payload, off).Ok? {
      var step := DecodeEntry(crc, payload, off).value;
      var rest := DecodeFrom(crc, payload, step.next, left - 1);
      if rest.Ok? {
        assert entries + ([step.entry] + rest.value) == entries + [step.entry] + rest.value;
      }
    }
  }

  lemma PrependLast(crc: Checksum, payload: seq<byte>, off: nat, left: nat, entries: seq<Entry>)
    requires off >= |payload|
    ensures Prepend(entries, DecodeFrom(crc, payload, off, left)) == Ok(entries)
  {
    assert entries + [] == entries;
  }

  lemma PrependNothing(r: Result<seq<Entry>>)
    ensures Prepend([], r) == r
  {
    if r.Ok? {
      assert [] + r.value == r.value;
    }
  }

  // ---------------------------------------------------------------- round trip

  predicate Encodable(e: Entry) {
    e.distance < U64 && |EntryBody(e)| < U64
  }

  /** An entry spelled out: no flags, the distance, the header's length and the header. */
  lemma EntrySpelled(e: Entry)
    requires Encodable(e)
    ensures Spells(EntryBody(e), [0, e.distance, |e.header|], 0, e.header)
  {
    hide Encoded; hide Spells;
    var values := [0, e.distance, |e.header|];
    SpellsTail(e.header, values);
    SpellsVint(|e.header|, e.header, values, 2, e.header);
    SpellsVint(e.distance, Encoded(|e.header|) + e.header, values, 1, e.header);
    SpellsVint(0, Encoded(e.distance) + (Encoded(|e.header|) + e.header), values, 0, e.header);
  }

  lemma EntryReads(crc: Checksum, payload: seq<byte>, off: nat, e: Entry)
    requires Encodable(e) && Holds(payload, off, EncodeEntry(crc, e))
    ensures DecodeEntry(crc, payload, off) == Ok(Step(e, off + |EncodeEntry(crc, e)|))
  {
    hide Decode; hide Encoded; hide DecodeBody; hide Holds; hide EntryBody;
    var body := EntryBody(e);
    var stamp, size := LittleEndian(crc(Content(body))), Encoded(|body|);
    HoldsParts(payload, off, stamp, Content(body));
    HoldsParts(payload, off + 4, size, body);
    DecodeAt(payload, off + 4, |body|);
    BodyReads(payload, off + 4 + |size|, e);
    Slices(payload, off, stamp);
    Slices(payload, off + 4, Content(body));
  }

  lemma Slices(data: seq<byte>, pos: nat, bytes: seq<byte>)
    requires Holds(data, pos, bytes)
    ensures pos + |bytes| <= |data| && data[pos..pos + |bytes|] == bytes
  {
  }

  lemma BodyReads(payload: seq<byte>, off: nat, e: Entry)
    requires Encodable(e) && Holds(payload, off, EntryBody(e))
    ensures DecodeBody(payload, off, off + |EntryBody(e)|) == Ok(Step(e, off + |EntryBody(e)|))
  {
    hide Decode; hide Encoded; hide Holds;
    var f, d, s := Encoded(0), Encoded(e.distance), Encoded(|e.header|);
    HoldsParts(payload, off, f, d + (s + e.header));
    HoldsParts(payload, off + |f|, d, s + e.header);
    HoldsParts(payload, off + |f| + |d|, s, e.header);
    DecodeAt(payload, off, 0);
    DecodeAt(payload, off + |f|, e.distance);
    DecodeAt(payload, off + |f| + |d|, |e.header|);
    Slices(payload, off + |f| + |d| + |s|, e.header);
    Slices(payload, off, EntryBody(e));
  }

  lemma {:induction false} PayloadFrom(crc: Checksum, payload: seq<byte>, off: nat, entries: seq<Entry>, left: nat)
    requires forall e :: e in entries ==> Encodable(e)
    requires Holds(payload, off, EncodePayload(crc, entries)) && off + |EncodePayload(crc, entries)| == |payload|
    ensures DecodeFrom(crc, payload, off, left) == if |entries| <= left then Ok(entries) else Err(TooManyEntries)
    decreases |entries|
  {
    hide EncodeEntry; hide DecodeEntry; hide Encodable; hide Holds;
    if entries != [] {
      var head, tail := EncodeEntry(crc, entries[0]), EncodePayload(crc, entries[1..]);
      assert entries[0] in entries;
      HoldsParts(payload, off, head, tail);
      EntryReads(crc, payload, off, entries[0]);
      EntryNotEmpty(crc, entries[0]);
      if left > 0 {
        forall e | e in entries[1..] ensures e in entries {
        }
        PayloadFrom(crc, payload, off + |head|, entries[1..], left - 1);
        assert entries == [entries[0]] + entries[1..];
      }
    }
  }

  lemma EntryNotEmpty(crc: Checksum, e: Entry)
    ensures |EncodeEntry(crc, e)| > 4
  {
  }

  /** What the writer puts into a catalog the reader takes out again, unless there are
      more entries than it admits. */
  lemma CatalogRoundTrip(crc: Checksum, entries: seq<Entry>, maxEntries: nat)
    requires forall e :: e in entries ==> Encodable(e)
    ensures DecodeFrom(crc, EncodePayload(crc, entries), 0, maxEntries)
         == if |entries| <= maxEntries then Ok(entries) else Err(TooManyEntries)
  {
    hide EncodePayload; hide DecodeFrom; hide Encodable;
    HoldsSelf(EncodePayload(crc, entries));
    PayloadFrom(crc, EncodePayload(crc, entries), 0, entries, maxEntries);
  }

  /** Whatever the reader accepts carries a right checksum: the entry's header bytes
      are a part of what its stored checksum covers. */
  lemma AcceptedIsChecked(crc: Checksum, payload: seq<byte>, off: nat)
    requires DecodeEntry(crc, payload, off).Ok?
    ensures var step := DecodeEntry(crc, payload, off).value;
            && off + 4 <= step.next
            && LittleEndian(crc(payload[off + 4..step.next])) == payload[off..off + 4]
            && exists at :: off + 4 <= at && Holds(payload, at, step.entry.header)
                            && at + |step.entry.header| <= step.next
  {
    hide Decode; hide LittleEndian;
    var n := Decode(payload, off + 4).consumed;
    var at := off + 4 + n;
    var f := Decode(payload, at).consumed;
    var d := Decode(payload, at + f).consumed;
    var s := Decode(payload, at + f + d).consumed;
    assert Holds(payload, at + f + d + s, DecodeEntry(crc, payload, off).value.entry.header);
  }

  // ---------------------------------------------------------------- room to reserve

  /** The most an entry can take in a volume of this size. */
  function EntryLenUpper(volumeSize: nat, headerLen: nat): nat {
    var body := 1 + |Encoded(volumeSize)| + |Encoded(headerLen)| + headerLen;
    4 + |Encoded(body)| + body
  }

  lemma {:induction false} SizeGrows(a: nat, b: nat)
    requires a <= b
    ensures |Encoded(a)| <= |Encoded(b)|
    decreases b
  {
    if a >= 128 {
      SizeGrows(a / 128, b / 128);
    }
  }

  lemma EntryFits(crc: Checksum, e: Entry, volumeSize: nat)
    requires e.distance <= volumeSize
    ensures |EncodeEntry(crc, e)| <= EntryLenUpper(volumeSize, |e.header|)
  {
    hide Encoded;
    Small(0);
    SizeGrows(e.distance, volumeSize);
    SizeGrows(|EntryBody(e)|, 1 + |Encoded(volumeSize)| + |Encoded(|e.header|)| + |e.header|);
  }

  /** The bound is no larger than need be: an entry for a header a whole volume back takes
      it up. */
  lemma EntryBoundReached(crc: Checksum, header: seq<byte>, volumeSize: nat)
    ensures |EncodeEntry(crc, Entry(volumeSize, header))| == EntryLenUpper(volumeSize, |header|)
  {
    hide Encoded;
    Small(0);
  }
}
