/** RAR5 variable-length integers (vint.rs): seven data bits a byte, least
    significant group first, the top bit set on every byte but the last. Words are
    natural numbers below 2^64, so an or of disjoint bits is written as a sum. */
module Vint {

  type byte = b: int | 0 <= b < 256

  const U64: nat := 0x1_0000_0000_0000_0000
  const MAX_BYTES: nat := 10

  datatype Decoding = Decoded(value: nat, consumed: nat) | UnexpectedEof | TooLong

  function Pow128(n: nat): (p: nat)
    ensures p > 0
  {
    if n == 0 then 1 else 128 * Pow128(n - 1)
  }

  // ---------------------------------------------------------------- the encoding

  function Encoded(v: nat): (bytes: seq<byte>)
    ensures bytes != []
  {
    if v < 128 then [v] else [v % 128 + 128] + Encoded(v / 128)
  }

  /** `v` in exactly `width` bytes; high bits that do not fit are dropped. */
  function Fixed(v: nat, width: nat): (bytes: seq<byte>)
    ensures |bytes| == width
  {
    if width == 0 then []
    else if width == 1 then [v % 128]
    else [v % 128 + 128] + Fixed(v / 128, width - 1)
  }

  // ---------------------------------------------------------------- the decoding

  /** Read a vint at `pos`, at most `left` bytes of it; nothing is cut to 64 bits. */
  function Scan(data: seq<byte>, pos: nat, left: nat): Decoding
    decreases left
  {
    if left == 0 then TooLong
    else if pos >= |data| then UnexpectedEof
    else if data[pos] < 128 then Decoded(data[pos], 1)
    else match Scan(data, pos + 1, left - 1)
      case Decoded(value, consumed) => Decoded(data[pos] % 128 + 128 * value, consumed + 1)
      case failure => failure
  }

  /** What a decoder makes of the bytes at `pos`: at most ten, and the bits past the
      64th ignored. */
  function Decode(data: seq<byte>, pos: nat): Decoding {
    match Scan(data, pos, MAX_BYTES)
    case Decoded(value, consumed) => Decoded(value % U64, consumed)
    case failure => failure
  }

  // ---------------------------------------------------------------- the loops

  method Encode(value: nat) returns (result: seq<byte>)
    requires value < U64
    ensures result == Encoded(value)
  {
    result := [];
    var v := value;
    while true
      invariant result + Encoded(v) == Encoded(value)
      decreases v
    {
      var byte := v % 128;
      var next := v / 128;
      if next != 0 {
        byte := byte + 128;
      }
      ghost var before := result;
      result := result + [byte];
      if next == 0 {
        assert Encoded(v) == [byte];
        break;
      }
      assert before + ([byte] + Encoded(next)) == result + Encoded(next);
      v := next;
    }
  }

  method EncodedSize(value: nat) returns (size: nat)
    requires value < U64
    ensures size == |Encoded(value)|
  {
    size := 0;
    var v := value;
    while true
      invariant size + |Encoded(v)| == |Encoded(value)|
      decreases v
    {
      size := size + 1;
      if v / 128 == 0 {
        return;
      }
      v := v / 128;
    }
  }

  /** The common body of the two decoders: bits gathered so far, and how the bytes
      still to come complete them. */
  ghost predicate Gathered(data: seq<byte>, offset: nat, i: nat, result: nat) {
    && i <= MAX_BYTES
    && result < Pow128(i) && result < U64
    && Decode(data, offset) ==
         match Scan(data, offset + i, MAX_BYTES - i)
         case Decoded(value, consumed) => Decoded((result + Pow128(i) * value) % U64, consumed + i)
         case failure => failure
  }

  method DecodeFromSlice(data: seq<byte>, offset: nat) returns (r: Decoding)
    ensures r == Decode(data, offset)
  {
    hide Gathered; hide Scan;
    var result: nat := 0;
    var pos := offset;
    var i := 0;
    GatheredNothing(data, offset);
    while i < 10
      invariant 0 <= i <= 10 && pos == offset + i
      invariant Gathered(data, offset, i, result)
    {
      if pos >= |data| {
        GatheredEof(data, offset, i, result);
        return UnexpectedEof;
      }
      var byte := data[pos];
      pos := pos + 1;
      GatheredByte(data, offset, i, result);
      if 7 * i < 64 {
        result := result + ShiftLeft(byte % 128, i);
      }
      if byte < 128 {
        return Decoded(result, pos - offset);
      }
      i := i + 1;
    }
    GatheredTooLong(data, offset, result);
    return TooLong;
  }

  /** A source of bytes read one at a time. */
  class Reader {
    const data: seq<byte>
    var pos: nat

    constructor (data: seq<byte>)
      ensures this.data == data && pos == 0
    {
      this.data, pos := data, 0;
    }

    method ReadByte() returns (ok: bool, byte: byte)
      modifies this
      ensures ok == (old(pos) < |data|)
      ensures ok ==> byte == data[old(pos)] && pos == old(pos) + 1
      ensures !ok ==> pos == old(pos)
    {
      ok := pos < |data|;
      byte := 0;
      if ok {
        byte := data[pos];
        pos := pos + 1;
      }
    }

    /** Decode from the reader; agrees with the slice decoder on every input. */
    method ReadVint() returns (r: Decoding)
      modifies this
      ensures r == Decode(data, old(pos))
      ensures r.Decoded? ==> pos == old(pos) + r.consumed
    {
      hide Gathered; hide Scan;
      var result: nat := 0;
      var i := 0;
      GatheredNothing(data, pos);
      while i < 10
        invariant 0 <= i <= 10 && pos == old(pos) + i
        invariant Gathered(data, old(pos), i, result)
      {
        var ok, byte := ReadByte();
        if !ok {
          GatheredEof(data, old(pos), i, result);
          return UnexpectedEof;
        }
        GatheredByte(data, old(pos), i, result);
        if 7 * i < 64 {
          result := result + ShiftLeft(byte % 128, i);
        }
        if byte < 128 {
          return Decoded(result, i + 1);
        }
        i := i + 1;
      }
      GatheredTooLong(data, old(pos), result);
      return TooLong;
    }
  }

  /** Seven bits shifted to the place of group `i`, in a 64-bit word. */
  function ShiftLeft(bits: nat, i: nat): nat {
    bits * Pow128(i) % U64
  }

  lemma GatheredNothing(data: seq<byte>, offset: nat)
    ensures Gathered(data, offset, 0, 0)
  {
  }

  lemma GatheredEof(data: seq<byte>, offset: nat, i: nat, result: nat)
    requires Gathered(data, offset, i, result) && i < MAX_BYTES && offset + i >= |data|
    ensures Decode(data, offset) == UnexpectedEof
  {
    assert Scan(data, offset + i, MAX_BYTES - i) == UnexpectedEof;
  }

  lemma GatheredTooLong(data: seq<byte>, offset: nat, result: nat)
    requires Gathered(data, offset, MAX_BYTES, result)
    ensures Decode(data, offset) == TooLong
  {
    assert Scan(data, offset + MAX_BYTES, 0) == TooLong;
  }

  const TOP: nat := 0x8000_0000_0000_0000

  lemma TopPower()
    ensures Pow128(9) == TOP
  {
    assert Pow128(3) == 0x20_0000;
    assert Pow128(6) == 128 * (128 * (128 * Pow128(3)));
    assert Pow128(9) == 128 * (128 * (128 * Pow128(6)));
  }

  lemma {:induction false} PowGrows(m: nat, n: nat)
    requires m <= n
    ensures Pow128(m) <= Pow128(n)
    decreases n - m
  {
    if m < n {
      PowGrows(m + 1, n);
    }
  }

  /** Below the tenth byte nothing is shifted out; of the tenth only its lowest bit
      stays in. */
  lemma ShiftFits(bits: nat, i: nat)
    requires bits < 128 && i < MAX_BYTES
    ensures i < 9 ==> ShiftLeft(bits, i) == bits * Pow128(i) && Pow128(i + 1) <= TOP
    ensures i == 9 ==> ShiftLeft(bits, i) == bits % 2 * TOP && Pow128(i) == TOP
  {
    TopPower();
    if i < 9 {
      PowGrows(i + 1, 9);
      Below(bits, Pow128(i));
    }
  }

  lemma Below(bits: nat, p: nat)
    requires bits < 128 && 128 * p <= TOP
    ensures bits * p <= 127 * p && bits * p % U64 == bits * p
  {
    Product(bits, p);
    SmallRemainder(bits * p);
  }

  lemma Product(bits: nat, p: nat)
    requires bits < 128
    ensures 0 <= bits * p <= 127 * p
  {
    assert (127 - bits) * p >= 0;
    assert (127 - bits) * p == 127 * p - bits * p;
  }

  lemma SmallRemainder(x: nat)
    requires x < U64
    ensures x % U64 == x
  {
  }

  /** One more byte. Its bits land above those gathered so far, so or-ing them in is
      adding them. */
  lemma GatheredByte(data: seq<byte>, offset: nat, i: nat, result: nat)
    requires Gathered(data, offset, i, result) && i < MAX_BYTES && offset + i < |data|
    ensures var byte := data[offset + i]; var sum := result + ShiftLeft(byte % 128, i);
            && (byte < 128 ==> Decode(data, offset) == Decoded(sum, i + 1))
            && (byte >= 128 ==> Gathered(data, offset, i + 1, sum))
  {
    hide Gathered; hide Decode; hide ShiftLeft;
    if i < 9 {
      if data[offset + i] < 128 {
        LowByteLast(data, offset, i, result);
      } else {
        LowByte(data, offset, i, result);
      }
    } else {
      TopByte(data, offset, result);
    }
  }

  lemma LowByteLast(data: seq<byte>, offset: nat, i: nat, result: nat)
    requires Gathered(data, offset, i, result) && i < 9 && offset + i < |data| && data[offset + i] < 128
    ensures Decode(data, offset) == Decoded(result + ShiftLeft(data[offset + i] % 128, i), i + 1)
  {
    hide Scan; hide Decode; hide ShiftLeft; hide Pow128;
    var bits := data[offset + i] % 128;
    ShiftFits(bits, i);
    PowStep(i);
    ScanStep(data, offset + i, MAX_BYTES - i);
    SumFits(bits, Pow128(i), result);
  }

  lemma LowByte(data: seq<byte>, offset: nat, i: nat, result: nat)
    requires Gathered(data, offset, i, result) && i < 9 && offset + i < |data| && data[offset + i] >= 128
    ensures Gathered(data, offset, i + 1, result + ShiftLeft(data[offset + i] % 128, i))
  {
    hide Scan; hide Decode; hide ShiftLeft; hide Pow128;
    var bits := data[offset + i] % 128;
    ShiftFits(bits, i);
    PowStep(i);
    ScanStep(data, offset + i, MAX_BYTES - i);
    SumFits(bits, Pow128(i), result);
    Continued(result, bits, Pow128(i), Pow128(i + 1), i, Scan(data, offset + i + 1, MAX_BYTES - i - 1));
  }

  /** A byte with its continuation bit set, in front of `rest`. */
  lemma Continued(result: nat, bits: nat, p: nat, next: nat, i: nat, rest: Decoding)
    requires next == 128 * p
    ensures match rest
            case Decoded(value, consumed) =>
              result + p * (bits + 128 * value) == result + bits * p + next * value
            case _ => true
  {
    if rest.Decoded? {
      Regroup(result, bits, p, rest.value);
    }
  }

  lemma TopByte(data: seq<byte>, offset: nat, result: nat)
    requires Gathered(data, offset, 9, result) && offset + 9 < |data|
    ensures var byte := data[offset + 9]; var sum := result + ShiftLeft(byte % 128, 9);
            && (byte < 128 ==> Decode(data, offset) == Decoded(sum, 10))
            && (byte >= 128 ==> Gathered(data, offset, 10, sum))
  {
    hide Scan; hide Decode; hide ShiftLeft; hide Pow128;
    var bits := data[offset + 9] % 128;
    ShiftFits(bits, 9);
    PowStep(9);
    ScanStep(data, offset + 9, 1);
    ScanNothing(data, offset + 10);
    LastByte(result, bits);
  }

  lemma PowStep(i: nat)
    ensures Pow128(i + 1) == 128 * Pow128(i)
  {
  }

  lemma SumFits(bits: nat, p: nat, result: nat)
    requires bits < 128 && result < p && 128 * p <= TOP
    ensures result + bits * p < 128 * p && (result + p * bits) % U64 == result + bits * p
  {
    Below(bits, p);
  }

  lemma Regroup(result: nat, bits: nat, p: nat, value: nat)
    ensures result + p * (bits + 128 * value) == result + bits * p + 128 * p * value
  {
  }

  lemma LastByte(result: nat, bits: nat)
    requires bits < 128 && result < TOP
    ensures (result + TOP * bits) % U64 == result + bits % 2 * TOP
  {
    assert result + TOP * bits == bits / 2 * U64 + (result + bits % 2 * TOP);
  }

  lemma ScanStep(data: seq<byte>, pos: nat, left: nat)
    requires left > 0 && pos < |data|
    ensures Scan(data, pos, left) ==
            if data[pos] < 128 then Decoded(data[pos], 1)
            else match Scan(data, pos + 1, left - 1)
                 case Decoded(value, consumed) => Decoded(data[pos] % 128 + 128 * value, consumed + 1)
                 case failure => failure
  {
  }

  lemma ScanNothing(data: seq<byte>, pos: nat)
    ensures Scan(data, pos, 0) == TooLong
  {
  }

  // ---------------------------------------------------------------- what the bytes mean

  /** The number that the low seven bits of some bytes add up to, byte `k` of them
      weighing 128 to the power `k`. */
  ghost function GroupSum(bytes: seq<byte>): nat {
    if bytes == [] then 0
    else GroupSum(bytes[..|bytes| - 1]) + bytes[|bytes| - 1] % 128 * Pow128(|bytes| - 1)
  }

  /** The top bit is set on all of `data[from..to]`. */
  ghost predicate GoesOn(data: seq<byte>, from: nat, to: nat) {
    to <= |data| && forall k :: from <= k < to ==> data[k] >= 128
  }

  lemma {:induction false} SumFromFront(b: byte, rest: seq<byte>)
    ensures GroupSum([b] + rest) == b % 128 + 128 * GroupSum(rest)
  {
    var all := [b] + rest;
    if rest == [] {
      OneGroup(b);
    } else {
      var n := |rest|;
      assert all[..n] == [b] + rest[..n - 1];
      SumFromFront(b, rest[..n - 1]);
      Weighed(rest[n - 1] % 128, Pow128(n - 1));
    }
  }

  lemma OneGroup(b: byte)
    ensures GroupSum([b]) == b % 128
  {
    assert [b][..0] == [];
  }

  lemma Weighed(bits: nat, p: nat)
    ensures bits * (128 * p) == 128 * (bits * p)
  {
  }

  /** An encoding adds up to its value, and every byte of it but the last goes on. */
  lemma {:induction false} EncodedSums(v: nat)
    ensures var bytes := Encoded(v);
            && GroupSum(bytes) == v && GoesOn(bytes, 0, |bytes| - 1) && bytes[|bytes| - 1] < 128
    decreases v
  {
    hide GroupSum;
    if v < 128 {
      OneGroup(v);
    } else {
      EncodedSums(v / 128);
      SumFromFront(v % 128 + 128, Encoded(v / 128));
      GoesOnBehind(v % 128 + 128, Encoded(v / 128));
    }
  }

  lemma GoesOnBehind(b: byte, rest: seq<byte>)
    requires b >= 128 && rest != [] && GoesOn(rest, 0, |rest| - 1)
    ensures GoesOn([b] + rest, 0, |rest|)
  {
  }

  ghost predicate Answers(d: Decoding, data: seq<byte>, pos: nat, left: nat) {
    match d
    case TooLong => GoesOn(data, pos, pos + left)
    case UnexpectedEof => |data| < pos + left && GoesOn(data, pos, |data|)
    case Decoded(value, n) =>
      && 0 < n <= left && GoesOn(data, pos, pos + n - 1) && pos + n <= |data|
      && data[pos + n - 1] < 128 && value == GroupSum(data[pos..pos + n])
  }

  lemma {:induction false} ScanSums(data: seq<byte>, pos: nat, left: nat)
    requires pos <= |data|
    ensures Answers(Scan(data, pos, left), data, pos, left)
    decreases left
  {
    hide Answers;
    if left == 0 || pos == |data| || data[pos] < 128 {
      LastAnswers(data, pos, left);
    } else {
      ScanSums(data, pos + 1, left - 1);
      NextAnswers(Scan(data, pos + 1, left - 1), data, pos, left);
    }
  }

  lemma LastAnswers(data: seq<byte>, pos: nat, left: nat)
    requires pos <= |data| && (left == 0 || pos == |data| || data[pos] < 128)
    ensures Answers(Scan(data, pos, left), data, pos, left)
  {
    if left > 0 && pos < |data| {
      assert data[pos..pos + 1] == [data[pos]];
      OneGroup(data[pos]);
    }
  }

  lemma NextAnswers(d: Decoding, data: seq<byte>, pos: nat, left: nat)
    requires left > 0 && pos < |data| && data[pos] >= 128 && Answers(d, data, pos + 1, left - 1)
    ensures Answers(match d
                    case Decoded(value, n) => Decoded(data[pos] % 128 + 128 * value, n + 1)
                    case failure => failure, data, pos, left)
  {
    hide GroupSum;
    match d
    case Decoded(_, n) =>
      var rest := data[pos + 1..pos + 1 + n];
      assert data[pos..pos + (n + 1)] == [data[pos]] + rest;
      SumFromFront(data[pos], rest);
    case TooLong =>
    case UnexpectedEof =>
  }

  /** Exactly what a decoder answers: the sum, in 64 bits, of the bytes up to the first
      that does not go on, if that is one of ten; an error that says too long when ten
      go on; and one that says the data ends when it does so before. */
  lemma DecodeSums(data: seq<byte>, pos: nat)
    ensures match Decode(data, pos)
            case TooLong => GoesOn(data, pos, pos + 10)
            case UnexpectedEof => |data| < pos + 10 && (pos <= |data| ==> GoesOn(data, pos, |data|))
            case Decoded(value, n) =>
              && 0 < n <= 10 && GoesOn(data, pos, pos + n - 1) && pos + n <= |data|
              && data[pos + n - 1] < 128
              && value == GroupSum(data[pos..pos + n]) % 0x1_0000_0000_0000_0000
  {
    if pos <= |data| {
      ScanSums(data, pos, MAX_BYTES);
    }
  }

  // ---------------------------------------------------------------- round trips

  lemma {:induction false} ScanEncoded(prefix: seq<byte>, v: nat, rest: seq<byte>, left: nat)
    requires |Encoded(v)| <= left
    ensures Scan(prefix + Encoded(v) + rest, |prefix|, left) == Decoded(v, |Encoded(v)|)
    decreases v
  {
    var data := prefix + Encoded(v) + rest;
    if v >= 128 {
      var head: byte := v % 128 + 128;
      assert data == (prefix + [head]) + Encoded(v / 128) + rest;
      ScanEncoded(prefix + [head], v / 128, rest, left - 1);
    }
  }

  lemma {:induction false} SizeBound(v: nat, k: nat)
    requires v < Pow128(k) && k > 0
    ensures |Encoded(v)| <= k
    decreases v
  {
    if v >= 128 {
      SizeBound(v / 128, k - 1);
    }
  }

  lemma {:induction false} SizeIsNeeded(v: nat)
    ensures v < Pow128(|Encoded(v)|)
    ensures |Encoded(v)| > 1 ==> Pow128(|Encoded(v)| - 1) <= v
    decreases v
  {
    if v >= 128 {
      SizeIsNeeded(v / 128);
    }
  }

  lemma U64Fits(v: nat)
    requires v < U64
    ensures |Encoded(v)| <= MAX_BYTES
  {
    TopPower();
    PowStep(9);
    SizeBound(v, MAX_BYTES);
  }

  /** Decoding what was encoded gives it back, from any place in any data, and takes
      exactly the encoded bytes, ten at most. */
  lemma RoundTrip(prefix: seq<byte>, v: nat, rest: seq<byte>)
    requires v < U64
    ensures Decode(prefix + Encoded(v) + rest, |prefix|) == Decoded(v, |Encoded(v)|)
    ensures |Encoded(v)| <= MAX_BYTES
  {
    U64Fits(v);
    ScanEncoded(prefix, v, rest, MAX_BYTES);
  }

  lemma {:induction false} ScanBound(data: seq<byte>, pos: nat, left: nat)
    requires Scan(data, pos, left).Decoded?
    ensures 0 < Scan(data, pos, left).consumed <= left
    ensures pos + Scan(data, pos, left).consumed <= |data|
    ensures Scan(data, pos, left).value < Pow128(Scan(data, pos, left).consumed)
    decreases left
  {
    if data[pos] >= 128 {
      ScanBound(data, pos + 1, left - 1);
    }
  }

  /** No shorter byte string decodes to `v`. */
  lemma EncodingIsShortest(data: seq<byte>, pos: nat)
    requires Decode(data, pos).Decoded?
    ensures Decode(data, pos).value < U64
    ensures |Encoded(Decode(data, pos).value)| <= Decode(data, pos).consumed <= MAX_BYTES
  {
    var scan := Scan(data, pos, MAX_BYTES);
    ScanBound(data, pos, MAX_BYTES);
    SizeBound(scan.value % U64, scan.consumed);
  }

  lemma {:induction false} ScanFixed(prefix: seq<byte>, v: nat, width: nat, rest: seq<byte>, left: nat)
    requires 0 < width <= left && v < Pow128(width)
    ensures Scan(prefix + Fixed(v, width) + rest, |prefix|, left) == Decoded(v, width)
    decreases width
  {
    var data := prefix + Fixed(v, width) + rest;
    if width > 1 {
      var head: byte := v % 128 + 128;
      assert data == (prefix + [head]) + Fixed(v / 128, width - 1) + rest;
      ScanFixed(prefix + [head], v / 128, width - 1, rest, left - 1);
    }
  }

  /** A zero-padded wider form, up to ten bytes, decodes to the same value. */
  lemma FixedRoundTrip(prefix: seq<byte>, v: nat, width: nat, rest: seq<byte>)
    requires v < U64 && 0 < width <= MAX_BYTES && v < Pow128(width)
    ensures Decode(prefix + Fixed(v, width) + rest, |prefix|) == Decoded(v, width)
  {
    hide Scan; hide Fixed;
    ScanFixed(prefix, v, width, rest, MAX_BYTES);
    SmallRemainder(v);
  }

  /** The bytes past a decoded vint, and those before it, play no part. */
  lemma {:induction false} ScanLocal(data: seq<byte>, other: seq<byte>, pos: nat, at: nat, left: nat)
    requires Scan(data, pos, left).Decoded?
    requires var n := Scan(data, pos, left).consumed;
             pos + n <= |data| && at + n <= |other| && data[pos..pos + n] == other[at..at + n]
    ensures Scan(other, at, left) == Scan(data, pos, left)
    decreases left
  {
    var n := Scan(data, pos, left).consumed;
    ScanBound(data, pos, left);
    assert data[pos] == data[pos..pos + n][0] == other[at..at + n][0] == other[at];
    if data[pos] >= 128 {
      assert data[pos + 1..pos + n] == data[pos..pos + n][1..];
      assert other[at + 1..at + n] == other[at..at + n][1..];
      ScanLocal(data, other, pos + 1, at + 1, left - 1);
    }
  }
}
