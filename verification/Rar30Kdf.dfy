/** The RAR 3.x key derivation (rar30.rs, lines 87-185). SHA-1 is a function of the
    bytes absorbed so far; everything around it is exact. The slow form rewrites
    its own password buffer wherever the hash input crosses a complete 64-byte
    block, and the fast form leaves that out. */
module Rar30Kdf {
  import Password
  import opened Options

  const HASH_ROUNDS: nat := 0x40000
  const SAMPLE: nat := 0x4000  // HASH_ROUNDS / 16
  const SHA_BLOCK: nat := 64
  const WORD_LIMIT: nat := 0x1_0000_0000

  type Hash = seq<bv8> -> seq<bv8>

  ghost predicate IsSha1(sha1: Hash) {
    forall absorbed :: |sha1(absorbed)| == 20
  }

  /** A derived key and IV. */
  datatype KeyIv = KeyIv(key: seq<bv8>, iv: seq<bv8>)

  datatype Result = Derived(keyIv: KeyIv) | NonUtf8Password

  function AsByte(i: int): bv8
    requires 0 <= i < 256
  {
    i as bv8
  }

  /** The three counter bytes of round `i`. */
  function Counter(i: nat): (r: seq<bv8>)
    ensures |r| == 3
  {
    [AsByte(i % 256), AsByte(i / 256 % 256), AsByte(i / 65536 % 256)]
  }

  // ---------------------------------------------------------------- the rewritten block

  function BigEndian(b0: bv8, b1: bv8, b2: bv8, b3: bv8): bv32 {
    ((b0 as bv32) << 24) | ((b1 as bv32) << 16) | ((b2 as bv32) << 8) | (b3 as bv32)
  }

  function LittleEndian(w: bv32): (r: seq<bv8>)
    ensures |r| == 4
  {
    [(w & 0xff) as bv8, ((w >> 8) & 0xff) as bv8, ((w >> 16) & 0xff) as bv8, ((w >> 24) & 0xff) as bv8]
  }

  function Mix(a: bv32, b: bv32, c: bv32, d: bv32): bv32 { (a ^ b ^ c ^ d).RotateLeft(1) }

  /** Word `t` of the SHA-1 message schedule of a block (section 6.1.2 of FIPS 180-4). */
  function ScheduleWord(block: seq<bv8>, t: nat): bv32
    requires |block| == SHA_BLOCK
  {
    if t < 16 then BigEndian(block[4 * t], block[4 * t + 1], block[4 * t + 2], block[4 * t + 3])
    else Mix(ScheduleWord(block, t - 3), ScheduleWord(block, t - 8),
             ScheduleWord(block, t - 14), ScheduleWord(block, t - 16))
  }

  /** What a block is replaced by: the last sixteen schedule words, little-endian. */
  function Expanded(block: seq<bv8>): (r: seq<bv8>)
    requires |block| == SHA_BLOCK
    ensures |r| == SHA_BLOCK
  {
    seq(SHA_BLOCK, k requires 0 <= k < SHA_BLOCK => LittleEndian(ScheduleWord(block, 64 + k / 4))[k % 4])
  }

  // ---------------------------------------------------------------- one update, declaratively

  /** The start, in the hash stream, of the aligned block that byte `k` of an update
      beginning at `pos` falls into. */
  function BlockStart(pos: nat, k: nat): nat {
    (pos + k) / SHA_BLOCK * SHA_BLOCK
  }

  /** Whether the aligned block at `c` lies wholly inside the update of `n` bytes at
      `pos` and begins strictly after its first byte. */
  predicate Inside(pos: nat, n: nat, c: nat) {
    c % SHA_BLOCK == 0 && pos < c && c + SHA_BLOCK <= pos + n
  }

  /** The buffer after the update at `pos`: every inside block replaced, the rest kept. */
  function Rewritten(buffer: seq<bv8>, pos: nat): (r: seq<bv8>)
    ensures |r| == |buffer|
  {
    seq(|buffer|, k requires 0 <= k < |buffer| => RewrittenAt(buffer, pos, k))
  }

  function RewrittenAt(buffer: seq<bv8>, pos: nat, k: nat): bv8
    requires k < |buffer|
  {
    var c := BlockStart(pos, k);
    if Inside(pos, |buffer|, c) then Expanded(buffer[c - pos..c - pos + SHA_BLOCK])[pos + k - c]
    else buffer[k]
  }

  /** Password buffer and hash input after some rounds. */
  datatype Kdf = Kdf(buffer: seq<bv8>, absorbed: seq<bv8>)

  function SlowRound(k: Kdf, i: nat): Kdf {
    Kdf(Rewritten(k.buffer, |k.absorbed|), k.absorbed + k.buffer + Counter(i))
  }

  function SlowAfter(raw: seq<bv8>, rounds: nat): (k: Kdf)
    ensures |k.buffer| == |raw| && |k.absorbed| == rounds * (|raw| + 3)
  {
    if rounds == 0 then Kdf(raw, []) else SlowRound(SlowAfter(raw, rounds - 1), rounds - 1)
  }

  function FastAfter(raw: seq<bv8>, rounds: nat): seq<bv8> {
    if rounds == 0 then [] else FastAfter(raw, rounds - 1) + raw + Counter(rounds - 1)
  }

  /** The key: the first four digest words, each with its bytes reversed. */
  function KeyBytes(digest: seq<bv8>): (r: seq<bv8>)
    requires |digest| == 20
    ensures |r| == 16
  {
    seq(16, k requires 0 <= k < 16 => digest[k / 4 * 4 + 3 - k % 4])
  }

  /** Key and IV from the hash input after each round: the IV takes the last digest
      byte of sixteen evenly spaced rounds, the key the final digest. */
  function Harvest(sha1: Hash, after: nat -> seq<bv8>): KeyIv
    requires IsSha1(sha1)
  {
    KeyIv(KeyBytes(sha1(after(HASH_ROUNDS))),
          seq(16, j requires 0 <= j < 16 => sha1(after(j * SAMPLE + 1))[19]))
  }

  /** The hash input after each round. */
  function SlowAbsorbed(raw: seq<bv8>): nat -> seq<bv8> {
    (rounds: nat) => SlowAfter(raw, rounds).absorbed
  }

  function FastAbsorbed(raw: seq<bv8>): nat -> seq<bv8> {
    (rounds: nat) => FastAfter(raw, rounds)
  }

  function SlowKeyIv(sha1: Hash, raw: seq<bv8>): KeyIv
    requires IsSha1(sha1)
  {
    Harvest(sha1, SlowAbsorbed(raw))
  }

  function FastKeyIv(sha1: Hash, raw: seq<bv8>): KeyIv
    requires IsSha1(sha1)
  {
    Harvest(sha1, FastAbsorbed(raw))
  }

  // ---------------------------------------------------------------- slow equals fast

  /** Up to 64 bytes of material leave no room for a block that starts after the
      first byte of an update, whatever its alignment. */
  lemma ShortUpdatesRewriteNothing(buffer: seq<bv8>, pos: nat)
    requires |buffer| <= SHA_BLOCK
    ensures Rewritten(buffer, pos) == buffer
  {
  }

  lemma {:induction false} SlowIsFastAfter(raw: seq<bv8>, rounds: nat)
    requires |raw| <= SHA_BLOCK
    ensures SlowAfter(raw, rounds) == Kdf(raw, FastAfter(raw, rounds))
  {
    if rounds > 0 {
      SlowIsFastAfter(raw, rounds - 1);
      ShortUpdatesRewriteNothing(raw, |SlowAfter(raw, rounds - 1).absorbed|);
    }
  }

  /** For material of at most 64 bytes (the code's guard asks for fewer) the two
      derivations agree, whatever the hash function. */
  lemma SlowEqualsFast(sha1: Hash, raw: seq<bv8>)
    requires IsSha1(sha1) && |raw| <= SHA_BLOCK
    ensures SlowKeyIv(sha1, raw) == FastKeyIv(sha1, raw)
  {
    hide SlowAfter; hide FastAfter; hide KeyBytes;
    SlowIsFastAfter(raw, HASH_ROUNDS);
    var slow, fast := SlowKeyIv(sha1, raw).iv, FastKeyIv(sha1, raw).iv;
    forall j | 0 <= j < 16 ensures slow[j] == fast[j] {
      SlowIsFastAfter(raw, j * SAMPLE + 1);
    }
    assert slow == fast;
  }

  /** What the rewriting means for the hash stream: each block of it that lies inside
      one update, past that update's first byte, is replaced in the password buffer
      by the tail of its own SHA-1 message schedule; every other byte stays. */
  lemma RewriteFollowsStream(k: Kdf, i: nat, c: nat)
    requires c % 64 == 0 && |k.absorbed| < c && c + 64 <= |k.absorbed| + |k.buffer|
    ensures var next := SlowRound(k, i); var at := c - |k.absorbed|;
            && next.absorbed == k.absorbed + k.buffer + Counter(i)
            && next.buffer[at..at + 64] == Expanded(next.absorbed[c..c + 64])
  {
    hide Expanded; hide Counter; hide BlockStart;
    var next, pos := SlowRound(k, i), |k.absorbed|;
    var at := c - pos;
    var block := k.buffer[at..at + SHA_BLOCK];
    assert next.absorbed[c..c + SHA_BLOCK] == block;
    forall j | 0 <= j < SHA_BLOCK ensures next.buffer[at + j] == Expanded(block)[j] {
      StartsAt(pos, at + j, c);
    }
  }

  lemma StartsAt(pos: nat, k: nat, c: nat)
    requires c % SHA_BLOCK == 0 && c <= pos + k < c + SHA_BLOCK
    ensures BlockStart(pos, k) == c
  {
  }

  lemma OutsideStays(k: Kdf, i: nat, j: nat)
    requires j < |k.buffer|
    requires var pos := |k.absorbed|; var c := (pos + j) / 64 * 64; c <= pos || pos + |k.buffer| < c + 64
    ensures SlowRound(k, i).buffer[j] == k.buffer[j]
  {
  }

  // ---------------------------------------------------------------- the loops

  /** The message schedule of a block, word by word. */
  method Schedule(block: seq<bv8>) returns (w: array<bv32>)
    requires |block| == SHA_BLOCK
    ensures fresh(w) && w.Length == 80
    ensures forall t: nat :: t < 80 ==> w[t] == ScheduleWord(block, t)
  {
    hide BigEndian; hide Mix;
    w := new bv32[80](_ => 0);
    var t := 0;
    while t < 16
      invariant 0 <= t <= 16
      invariant forall j: nat :: j < t ==> w[j] == ScheduleWord(block, j)
    {
      w[t] := BigEndian(block[4 * t], block[4 * t + 1], block[4 * t + 2], block[4 * t + 3]);
      t := t + 1;
    }
    while t < 80
      invariant 16 <= t <= 80
      invariant forall j: nat :: j < t ==> w[j] == ScheduleWord(block, j)
    {
      w[t] := Mix(w[t - 3], w[t - 8], w[t - 14], w[t - 16]);
      t := t + 1;
    }
  }

  /** The SHA-1 expansion of one slice of the buffer, in place. */
  method UpdatePasswordData(buffer: array<bv8>, offset: nat)
    requires offset + SHA_BLOCK <= buffer.Length
    modifies buffer
    ensures buffer[..] == Replaced(old(buffer[..]), offset)
  {
    hide ScheduleWord; hide LittleEndian;
    ghost var before := buffer[..];
    var block := buffer[offset..offset + SHA_BLOCK];
    assert block == before[offset..offset + SHA_BLOCK];
    var w := Schedule(block);
    var i := 0;
    while i < 16
      invariant 0 <= i <= 16
      invariant forall t: nat :: t < 80 ==> w[t] == ScheduleWord(block, t)
      invariant forall j: nat :: j < buffer.Length ==>
        buffer[j] == if offset <= j < offset + 4 * i then Expanded(block)[j - offset] else before[j]
    {
      forall m: nat | m < 4 {
        buffer[offset + 4 * i + m] := LittleEndian(w[64 + i])[m];
      }
      i := i + 1;
    }
  }

  /** `s` with the block at `offset` expanded. */
  function Replaced(s: seq<bv8>, offset: nat): (r: seq<bv8>)
    requires offset + SHA_BLOCK <= |s|
    ensures |r| == |s|
  {
    seq(|s|, j requires 0 <= j < |s| =>
      if offset <= j < offset + SHA_BLOCK then Expanded(s[offset..offset + SHA_BLOCK])[j - offset] else s[j])
  }

  /** The rewriting loop of one round. `pos` is the number of bytes absorbed before
      the update; the buffer is followed by 64 spare bytes, which it never reaches. */
  method RewriteBlocks(buffer: array<bv8>, rawSize: nat, pos: nat)
    requires buffer.Length == rawSize + 64
    requires pos + rawSize < WORD_LIMIT
    modifies buffer
    ensures buffer[..rawSize] == Rewritten(old(buffer[..rawSize]), pos)
    ensures buffer[rawSize..] == old(buffer[rawSize..])
  {
    hide Expanded; hide Rewritten; hide Progress; hide Replaced; hide RewrittenAt; hide BlockStart; hide Inside;
    ghost var before, spare := buffer[..rawSize], buffer[rawSize..];
    var endPos := (pos + rawSize) % WORD_LIMIT / 64 * 64;
    BlockEnd(pos, rawSize);
    if endPos > pos + 64 {
      var curPos := pos / 64 * 64 + 64;
      ProgressStarts(before, pos);
      while curPos != endPos
        invariant curPos % 64 == 0 && pos < curPos <= endPos
        invariant buffer[..] == Progress(before, pos, curPos) + spare
        decreases endPos - curPos
      {
        var offset := curPos - pos;
        BlockInside(pos, rawSize, curPos, endPos);
        UpdatePasswordData(buffer, offset);
        ProgressStep(before, spare, pos, curPos);
        curPos := curPos + 64;
      }
      ProgressEnds(before, pos);
    } else {
      NothingInside(before, pos);
      assert buffer[..] == before + spare;
    }
  }

  lemma BlockEnd(pos: nat, n: nat)
    requires pos + n < WORD_LIMIT
    ensures var end := (pos + n) % WORD_LIMIT / 64 * 64;
            end == (pos + n) / 64 * 64 && end % 64 == 0 && pos + n - 64 < end <= pos + n
    ensures var cur := pos / 64 * 64 + 64; cur % 64 == 0 && pos < cur <= pos + 64
  {
  }

  /** A block in front of the end lies inside the update, and the next one begins no
      later than the end. */
  lemma BlockInside(pos: nat, n: nat, cur: nat, end: nat)
    requires cur % 64 == 0 && end % 64 == 0 && pos < cur < end <= pos + n
    ensures cur + 64 <= end && Inside(pos, n, cur)
  {
  }

  /** The buffer once the blocks before stream position `cur` have been dealt with. */
  function Progress(before: seq<bv8>, pos: nat, cur: nat): (r: seq<bv8>)
    ensures |r| == |before|
  {
    seq(|before|, k requires 0 <= k < |before| =>
      if pos + k < cur then RewrittenAt(before, pos, k) else before[k])
  }

  lemma ProgressStarts(before: seq<bv8>, pos: nat)
    ensures Progress(before, pos, pos / 64 * 64 + 64) == before
  {
  }

  /** The slice rewritten by one iteration lies inside the password bytes and is one
      of the inside blocks, still unchanged. */
  lemma ProgressStep(before: seq<bv8>, spare: seq<bv8>, pos: nat, cur: nat)
    requires |spare| == 64 && Inside(pos, |before|, cur)
    ensures Replaced(Progress(before, pos, cur) + spare, cur - pos) == Progress(before, pos, cur + 64) + spare
  {
    hide Expanded;
    var at := cur - pos;
    var was := Progress(before, pos, cur) + spare;
    assert was[at..at + SHA_BLOCK] == before[at..at + SHA_BLOCK];
    forall k: nat | k < |was|
      ensures Replaced(was, at)[k] == (Progress(before, pos, cur + 64) + spare)[k]
    {
      if at <= k < at + 64 { StartsAt(pos, k, cur); }
    }
  }

  lemma ProgressEnds(before: seq<bv8>, pos: nat)
    ensures Progress(before, pos, (pos + |before|) / 64 * 64) == Rewritten(before, pos)
  {
  }

  /** When the code's guard fails no block is inside the update. */
  lemma NothingInside(before: seq<bv8>, pos: nat)
    requires (pos + |before|) / 64 * 64 <= pos + 64
    ensures Rewritten(before, pos) == before
  {
  }

  // ---------------------------------------------------------------- the two derivations

  method ReverseWords(digest: seq<bv8>) returns (key: seq<bv8>)
    requires |digest| == 20
    ensures key == KeyBytes(digest)
  {
    key := [];
    var word := 0;
    while word < 4
      invariant 0 <= word <= 4
      invariant key == KeyBytes(digest)[..4 * word]
    {
      var chunk := digest[4 * word..4 * word + 4];
      key := key + [chunk[3], chunk[2], chunk[1], chunk[0]];
      word := word + 1;
    }
  }

  /** The position counter is a 32-bit word; it equals the bytes absorbed as long as
      the whole hash input stays below 2^32 bytes, which `PositionNeverWraps` shows
      of every password. */
  method DeriveSlow(sha1: Hash, raw: seq<bv8>) returns (r: KeyIv)
    requires IsSha1(sha1)
    requires HASH_ROUNDS * (|raw| + 3) < WORD_LIMIT
    ensures r == SlowKeyIv(sha1, raw)
  {
    hide SlowAfter; hide Harvest; hide IsSha1; hide IvTaken; hide Taken; hide SlowRound; hide KeyBytes;
    var rawSize := |raw|;
    var buffer := new bv8[rawSize + 64](k requires 0 <= k < rawSize + 64 => if k < rawSize then raw[k] else 0);
    var absorbed: seq<bv8> := [];
    var iv := new bv8[16](_ => 0);
    var pos := 0;
    var i := 0;
    SlowStarts(raw);
    NothingTaken(sha1, SlowAbsorbed(raw), iv[..]);
    ghost var taken := 0;
    assert buffer[..rawSize] == raw;
    while i < HASH_ROUNDS
      invariant 0 <= i <= HASH_ROUNDS && pos == |absorbed|
      invariant SlowAfter(raw, i) == Kdf(buffer[..rawSize], absorbed)
      invariant Taken(i, taken) && IvTaken(sha1, SlowAbsorbed(raw), iv[..], taken)
    {
      SlowContinues(raw, i, Kdf(buffer[..rawSize], absorbed));
      absorbed, pos := SlowOnce(buffer, rawSize, absorbed, pos, i);
      taken := TakeSample(sha1, absorbed, iv, i, taken, SlowAbsorbed(raw));
      i := i + 1;
    }
    Digest20(sha1, absorbed);
    var key := ReverseWords(sha1(absorbed));
    r := KeyIv(key, iv[..]);
    Harvested(sha1, SlowAbsorbed(raw), key, iv[..], taken);
  }

  /** One round: the buffer is absorbed and rewritten, then the round number. */
  method SlowOnce(buffer: array<bv8>, rawSize: nat, absorbed: seq<bv8>, pos: nat, i: nat)
    returns (absorbed': seq<bv8>, pos': nat)
    requires buffer.Length == rawSize + 64 && i < HASH_ROUNDS
    requires pos == |absorbed| == i * (rawSize + 3) && HASH_ROUNDS * (rawSize + 3) < WORD_LIMIT
    modifies buffer
    ensures Kdf(buffer[..rawSize], absorbed') == SlowRound(Kdf(old(buffer[..rawSize]), absorbed), i)
    ensures pos' == |absorbed'|
  {
    hide Rewritten; hide Counter;
    PositionBound(i, rawSize);
    absorbed' := absorbed + buffer[..rawSize];
    RewriteBlocks(buffer, rawSize, pos);
    pos' := (pos + rawSize) % WORD_LIMIT;
    absorbed' := absorbed' + Counter(i);
    pos' := (pos' + 3) % WORD_LIMIT;
  }

  method DeriveFast(sha1: Hash, raw: seq<bv8>) returns (r: KeyIv)
    requires IsSha1(sha1)
    ensures r == FastKeyIv(sha1, raw)
  {
    hide FastAfter; hide Harvest; hide IsSha1; hide IvTaken; hide Taken; hide Counter; hide KeyBytes;
    var absorbed: seq<bv8> := [];
    var iv := new bv8[16](_ => 0);
    var i := 0;
    FastStarts(raw);
    NothingTaken(sha1, FastAbsorbed(raw), iv[..]);
    ghost var taken := 0;
    while i < HASH_ROUNDS
      invariant 0 <= i <= HASH_ROUNDS && FastAfter(raw, i) == absorbed
      invariant Taken(i, taken) && IvTaken(sha1, FastAbsorbed(raw), iv[..], taken)
    {
      FastContinues(raw, i);
      absorbed := absorbed + raw;
      absorbed := absorbed + Counter(i);
      taken := TakeSample(sha1, absorbed, iv, i, taken, FastAbsorbed(raw));
      i := i + 1;
    }
    Digest20(sha1, absorbed);
    var key := ReverseWords(sha1(absorbed));
    r := KeyIv(key, iv[..]);
    Harvested(sha1, FastAbsorbed(raw), key, iv[..], taken);
  }

  // ---------------------------------------------------------------- sampling the IV

  /** How many IV bytes have been taken before round `i`. */
  ghost predicate Taken(i: nat, taken: nat) {
    (taken - 1) * SAMPLE < i <= taken * SAMPLE && taken <= 16
  }

  ghost predicate IvTaken(sha1: Hash, after: nat -> seq<bv8>, iv: seq<bv8>, taken: nat)
    requires IsSha1(sha1)
  {
    taken <= |iv| && forall j: nat :: j < taken ==> iv[j] == LastByte(sha1, after(j * SAMPLE + 1))
  }

  /** In every `SAMPLE`-th round the last digest byte goes into the IV. */
  method TakeSample(sha1: Hash, absorbed: seq<bv8>, iv: array<bv8>, i: nat, ghost taken: nat, ghost after: nat -> seq<bv8>)
    returns (ghost taken': nat)
    requires IsSha1(sha1) && iv.Length == 16 && i < HASH_ROUNDS && after(i + 1) == absorbed
    requires Taken(i, taken) && IvTaken(sha1, after, iv[..], taken)
    modifies iv
    ensures Taken(i + 1, taken') && IvTaken(sha1, after, iv[..], taken')
  {
    hide IsSha1; hide LastByte;
    SampleRound(i, taken);
    taken' := taken;
    if i % SAMPLE == 0 {
      iv[i / SAMPLE] := LastByte(sha1, absorbed);
      taken' := taken + 1;
    }
  }

  lemma NothingTaken(sha1: Hash, after: nat -> seq<bv8>, iv: seq<bv8>)
    requires IsSha1(sha1)
    ensures Taken(0, 0) && IvTaken(sha1, after, iv, 0)
  {
  }

  /** With `taken` IV bytes taken before round `i`, round `i` takes the next one
      exactly when it is the multiple of `SAMPLE` numbered `taken`. */
  lemma SampleRound(i: nat, taken: nat)
    requires (taken - 1) * SAMPLE < i <= taken * SAMPLE
    ensures i % SAMPLE == 0 <==> i == taken * SAMPLE
    ensures i == taken * SAMPLE ==> i / SAMPLE == taken
  {
    if i == taken * SAMPLE {
      DivisionUnique(i, taken, 0);
    } else {
      DivisionUnique(i, taken - 1, i - (taken - 1) * SAMPLE);
    }
  }

  lemma DivisionUnique(i: int, q: int, r: int)
    requires i == q * SAMPLE + r && 0 <= r < SAMPLE
    ensures i / SAMPLE == q && i % SAMPLE == r
  {
  }

  function LastByte(sha1: Hash, absorbed: seq<bv8>): bv8
    requires IsSha1(sha1)
  {
    sha1(absorbed)[19]
  }

  lemma Digest20(sha1: Hash, absorbed: seq<bv8>)
    requires IsSha1(sha1)
    ensures |sha1(absorbed)| == 20
  {
  }

  lemma Harvested(sha1: Hash, after: nat -> seq<bv8>, key: seq<bv8>, iv: seq<bv8>, taken: nat)
    requires IsSha1(sha1) && |iv| == 16 && Taken(HASH_ROUNDS, taken) && IvTaken(sha1, after, iv, taken)
    requires |sha1(after(HASH_ROUNDS))| == 20 && key == KeyBytes(sha1(after(HASH_ROUNDS)))
    ensures Harvest(sha1, after) == KeyIv(key, iv)
  {
    hide KeyBytes;
    assert taken == 16;
    assert iv == Harvest(sha1, after).iv;
  }

  lemma SlowStarts(raw: seq<bv8>)
    ensures SlowAfter(raw, 0) == Kdf(raw, [])
  {
  }

  lemma SlowContinues(raw: seq<bv8>, i: nat, k: Kdf)
    requires SlowAfter(raw, i) == k
    ensures SlowAfter(raw, i + 1) == SlowRound(k, i) && |k.absorbed| == i * (|raw| + 3)
  {
    hide SlowRound;
  }

  lemma FastStarts(raw: seq<bv8>)
    ensures FastAfter(raw, 0) == []
  {
  }

  lemma FastContinues(raw: seq<bv8>, i: nat)
    ensures FastAfter(raw, i + 1) == FastAfter(raw, i) + raw + Counter(i)
  {
  }

  lemma PositionBound(i: nat, n: nat)
    requires i < HASH_ROUNDS && HASH_ROUNDS * (n + 3) < WORD_LIMIT
    ensures i * (n + 3) + (n + 3) == (i + 1) * (n + 3) < WORD_LIMIT
  {
    assert (i + 1) * (n + 3) <= HASH_ROUNDS * (n + 3);
  }

  // ---------------------------------------------------------------- what goes in and what comes out

  /** The message schedule of a block (section 6.1.2 of FIPS 180-4): its big-endian words,
      and from then on the exclusive or of four earlier ones, rotated left by one. */
  ghost predicate IsSchedule(w: seq<bv32>, block: seq<bv8>)
    requires |block| == 64
  {
    && |w| == 80
    && (forall t: nat :: t < 16 ==> Spelled(w[t], block[4 * t + 3], block[4 * t + 2], block[4 * t + 1], block[4 * t]))
    && (forall t: nat :: 16 <= t < 80 ==> Follows(w[t], w[t - 3], w[t - 8], w[t - 14], w[t - 16]))
  }

  /** The bytes of `w`, the lowest one first. */
  predicate Spelled(w: bv32, b0: bv8, b1: bv8, b2: bv8, b3: bv8) {
    && w & 0xff == b0 as bv32 && (w >> 8) & 0xff == b1 as bv32
    && (w >> 16) & 0xff == b2 as bv32 && w >> 24 == b3 as bv32
  }

  predicate Follows(w: bv32, a: bv32, b: bv32, c: bv32, d: bv32) {
    w & 1 == (a ^ b ^ c ^ d) >> 31 && w >> 1 == (a ^ b ^ c ^ d) & 0x7fff_ffff
  }

  /** The eighty words of the schedule. */
  ghost function Words(block: seq<bv8>): (w: seq<bv32>)
    requires |block| == 64
    ensures |w| == 80
  {
    seq(80, t requires 0 <= t < 80 => ScheduleWord(block, t))
  }

  /** A rewritten block is the last sixteen words of its own message schedule, the lowest
      byte of each first. */
  lemma ExpandedIs(block: seq<bv8>)
    requires |block| == 64
    ensures exists w ::
              && IsSchedule(w, block)
              && forall i: nat :: i < 16 ==>
                   Spelled(w[64 + i], Expanded(block)[4 * i], Expanded(block)[4 * i + 1],
                           Expanded(block)[4 * i + 2], Expanded(block)[4 * i + 3])
  {
    hide Words; hide Spelled; hide Expanded; hide IsSchedule;
    WordsAreSchedule(block);
    assert |Words(block)| == 80 && IsSchedule(Words(block), block);
    forall i: nat | i < 16
      ensures Spelled(Words(block)[64 + i], Expanded(block)[4 * i], Expanded(block)[4 * i + 1],
                      Expanded(block)[4 * i + 2], Expanded(block)[4 * i + 3])
    {
      ExpandedSpelled(block, i);
    }
  }

  lemma WordsAreSchedule(block: seq<bv8>)
    requires |block| == 64
    ensures IsSchedule(Words(block), block)
  {
    hide Spelled; hide Follows; hide Words;
    forall t: nat | t < 16
      ensures Spelled(Words(block)[t], block[4 * t + 3], block[4 * t + 2], block[4 * t + 1], block[4 * t])
    {
      WordSpelled(block, t);
    }
    forall t: nat | 16 <= t < 80
      ensures Follows(Words(block)[t], Words(block)[t - 3], Words(block)[t - 8], Words(block)[t - 14], Words(block)[t - 16])
    {
      WordFollows(block, t);
    }
  }

  lemma WordSpelled(block: seq<bv8>, t: nat)
    requires |block| == 64 && t < 16
    ensures Spelled(Words(block)[t], block[4 * t + 3], block[4 * t + 2], block[4 * t + 1], block[4 * t])
  {
    hide BigEndian; hide Spelled; hide ScheduleWord;
    FirstWords(block, t);
    BigEndianSpelled(block[4 * t], block[4 * t + 1], block[4 * t + 2], block[4 * t + 3]);
  }

  lemma WordFollows(block: seq<bv8>, t: nat)
    requires |block| == 64 && 16 <= t < 80
    ensures Follows(Words(block)[t], Words(block)[t - 3], Words(block)[t - 8], Words(block)[t - 14], Words(block)[t - 16])
  {
    hide Mix; hide Follows; hide ScheduleWord;
    LaterWords(block, t);
    MixFollows(Words(block)[t - 3], Words(block)[t - 8], Words(block)[t - 14], Words(block)[t - 16]);
  }

  lemma ExpandedSpelled(block: seq<bv8>, i: nat)
    requires |block| == 64 && i < 16
    ensures Spelled(Words(block)[64 + i], Expanded(block)[4 * i], Expanded(block)[4 * i + 1],
                    Expanded(block)[4 * i + 2], Expanded(block)[4 * i + 3])
  {
    hide ScheduleWord; hide LittleEndian; hide Spelled; hide Expanded;
    ExpandedAt(block, i);
    LittleEndianSpelled(Words(block)[64 + i]);
  }

  lemma FirstWords(block: seq<bv8>, t: nat)
    requires |block| == 64 && t < 16
    ensures ScheduleWord(block, t) == BigEndian(block[4 * t], block[4 * t + 1], block[4 * t + 2], block[4 * t + 3])
  {
    hide BigEndian;
  }

  lemma LaterWords(block: seq<bv8>, t: nat)
    requires |block| == 64 && t >= 16
    ensures ScheduleWord(block, t)
         == Mix(ScheduleWord(block, t - 3), ScheduleWord(block, t - 8),
                ScheduleWord(block, t - 14), ScheduleWord(block, t - 16))
  {
    hide Mix;
  }

  lemma ExpandedAt(block: seq<bv8>, i: nat)
    requires |block| == 64 && i < 16
    ensures var r := LittleEndian(ScheduleWord(block, 64 + i));
            && Expanded(block)[4 * i] == r[0] && Expanded(block)[4 * i + 1] == r[1]
            && Expanded(block)[4 * i + 2] == r[2] && Expanded(block)[4 * i + 3] == r[3]
  {
    hide ScheduleWord; hide LittleEndian;
    assert (4 * i) / 4 == i && (4 * i + 1) / 4 == i && (4 * i + 2) / 4 == i && (4 * i + 3) / 4 == i;
  }

  lemma BigEndianSpelled(b0: bv8, b1: bv8, b2: bv8, b3: bv8)
    ensures Spelled(BigEndian(b0, b1, b2, b3), b3, b2, b1, b0)
  {
  }

  lemma LittleEndianSpelled(w: bv32)
    ensures var r := LittleEndian(w); Spelled(w, r[0], r[1], r[2], r[3])
  {
  }

  lemma MixFollows(a: bv32, b: bv32, c: bv32, d: bv32)
    ensures Follows(Mix(a, b, c, d), a, b, c, d)
  {
  }

  /** The fast hash input is one stretch after the other: the material, then the number of
      the round in three bytes, the lowest first. */
  lemma {:induction false} RoundByRound(raw: seq<bv8>, rounds: nat, i: nat)
    requires i < rounds
    ensures StretchAt(FastAfter(raw, rounds), i * (|raw| + 3), raw, i)
  {
    hide StretchAt; hide Counter; hide FastAfter;
    FastContinues(raw, rounds - 1);
    var before := FastAfter(raw, rounds - 1);
    if i == rounds - 1 {
      FastLength(raw, i);
      LastStretch(before, raw, i);
    } else {
      RoundByRound(raw, rounds - 1, i);
      EarlierStretch(before, raw, i * (|raw| + 3), raw, i);
      EarlierStretch(before + raw, Counter(rounds - 1), i * (|raw| + 3), raw, i);
    }
  }

  ghost predicate StretchAt(s: seq<bv8>, at: nat, raw: seq<bv8>, number: nat) {
    && at + |raw| + 3 <= |s| && s[at..at + |raw|] == raw
    && s[at + |raw|..at + |raw| + 3]
       == [(number % 0x100) as bv8, (number / 0x100 % 0x100) as bv8, (number / 0x1_0000 % 0x100) as bv8]
  }

  lemma LastStretch(before: seq<bv8>, raw: seq<bv8>, number: nat)
    ensures StretchAt(before + raw + Counter(number), |before|, raw, number)
  {
    var all := before + raw + Counter(number);
    assert all[|before|..|before| + |raw|] == raw;
    assert all[|before| + |raw|..|before| + |raw| + 3] == Counter(number);
  }

  lemma EarlierStretch(s: seq<bv8>, more: seq<bv8>, at: nat, raw: seq<bv8>, number: nat)
    requires StretchAt(s, at, raw, number)
    ensures StretchAt(s + more, at, raw, number)
  {
    assert (s + more)[at..at + |raw|] == s[at..at + |raw|];
    assert (s + more)[at + |raw|..at + |raw| + 3] == s[at + |raw|..at + |raw| + 3];
  }

  lemma {:induction false} FastLength(raw: seq<bv8>, rounds: nat)
    ensures |FastAfter(raw, rounds)| == rounds * (|raw| + 3)
  {
    if rounds > 0 {
      FastLength(raw, rounds - 1);
      assert rounds * (|raw| + 3) == (rounds - 1) * (|raw| + 3) + (|raw| + 3);
    }
  }

  /** What is taken from the digests: after rounds 1, 16385, 32769 and so on the last byte,
      for the IV, and after all 262144 the first four words, the lowest byte of each first. */
  lemma KeyIvTaken(sha1: Hash, raw: seq<bv8>)
    requires IsSha1(sha1)
    ensures var r := SlowKeyIv(sha1, raw); var last := sha1(SlowAfter(raw, 262144).absorbed);
            && |r.key| == 16 && |r.iv| == 16 && |last| == 20
            && (forall w: nat :: w < 4 ==>
                  r.key[4 * w..4 * w + 4] == [last[4 * w + 3], last[4 * w + 2], last[4 * w + 1], last[4 * w]])
            && (forall j: nat :: j < 16 ==> sha1(SlowAfter(raw, 16384 * j + 1).absorbed)[19..] == [r.iv[j]])
  {
    hide SlowAfter;
    hide KeyBytes;
    KeyWords(sha1(SlowAfter(raw, 262144).absorbed));
  }

  lemma KeyWords(last: seq<bv8>)
    requires |last| == 20
    ensures forall w: nat :: w < 4 ==>
              KeyBytes(last)[4 * w..4 * w + 4] == [last[4 * w + 3], last[4 * w + 2], last[4 * w + 1], last[4 * w]]
  {
    forall w: nat | w < 4
      ensures KeyBytes(last)[4 * w..4 * w + 4] == [last[4 * w + 3], last[4 * w + 2], last[4 * w + 1], last[4 * w]]
    {
      assert (4 * w) / 4 == w && (4 * w + 1) / 4 == w && (4 * w + 2) / 4 == w && (4 * w + 3) / 4 == w;
    }
  }

  // ---------------------------------------------------------------- from the password

  /** The UTF-16 code units of one character, little-endian: two bytes, or four for a
      character that UTF-8 spells with four. */
  function Utf16(c: seq<bv8>): (r: seq<bv8>)
    requires Password.IsChar(c)
    ensures |r| == if |c| == 4 then 4 else 2
  {
    if |c| == 1 then Unit(c[0] as bv16)
    else if |c| == 2 then Unit((((c[0] & 0x1f) as bv16) << 6) | ((c[1] & 0x3f) as bv16))
    else if |c| == 3 then
      Unit((((c[0] & 0x0f) as bv16) << 12) | (((c[1] & 0x3f) as bv16) << 6) | ((c[2] & 0x3f) as bv16))
    else
      var scalar := (((c[0] & 0x07) as bv32) << 18) | (((c[1] & 0x3f) as bv32) << 12)
                  | (((c[2] & 0x3f) as bv32) << 6) | ((c[3] & 0x3f) as bv32);
      var above := scalar - 0x10000;
      Unit(0xd800 | (((above >> 10) & 0x3ff) as bv16)) + Unit(0xdc00 | ((above & 0x3ff) as bv16))
  }

  function Unit(u: bv16): (r: seq<bv8>)
    ensures |r| == 2
  {
    [(u & 0xff) as bv8, (u >> 8) as bv8]
  }

  /** The little-endian code unit at `i`. */
  function UnitAt(units: seq<bv8>, i: nat): int
    requires i + 1 < |units|
  {
    units[i] as int + 0x100 * units[i + 1] as int
  }

  /** `units` spells the scalar in UTF-16: in one unit that is no surrogate, or in a high
      and a low surrogate. */
  predicate Spells(units: seq<bv8>, scalar: int) {
    if |units| == 2 then
      var u := UnitAt(units, 0);
      u == scalar && !(0xd800 <= u <= 0xdfff)
    else
      && |units| == 4
      && var high, low := UnitAt(units, 0), UnitAt(units, 2);
         && 0xd800 <= high <= 0xdbff && 0xdc00 <= low <= 0xdfff
         && scalar == 0x10000 + (high - 0xd800) * 0x400 + (low - 0xdc00)
  }

  /** Little-endian: the low byte first. */
  lemma UnitReads(u: bv16)
    ensures UnitAt(Unit(u), 0) == u as int
  {
    LowByteFirst(u);
    UnitIs(u);
  }

  lemma UnitIs(u: bv16)
    ensures Unit(u)[0] == (u & 0xff) as bv8 && Unit(u)[1] == (u >> 8) as bv8
  {
  }

  lemma LowByteFirst(u: bv16)
    ensures (((u & 0xff) as bv8) as int) + 0x100 * (((u >> 8) as bv8) as int) == u as int
  {
    hide *;
  }

  lemma UnitsJoin(a: seq<bv8>, b: seq<bv8>)
    requires |a| == 2 && |b| == 2
    ensures UnitAt(a + b, 0) == UnitAt(a, 0) && UnitAt(a + b, 2) == UnitAt(b, 0)
  {
  }

  /** A character is spelled in UTF-16 as the scalar it is in UTF-8. */
  lemma Utf16Spells(c: seq<bv8>)
    requires Password.IsChar(c)
    ensures Spells(Utf16(c), Password.Scalar(c))
  {
    if |c| == 1 {
      OneSpells(c);
    } else if |c| == 2 {
      TwoSpell(c);
    } else if |c| == 3 {
      ThreeSpell(c);
    } else {
      FourSpell(c);
    }
  }

  lemma OneSpells(c: seq<bv8>)
    requires Password.IsChar(c) && |c| == 1
    ensures Spells(Utf16(c), Password.Scalar(c))
  {
    hide Unit; hide UnitAt;
    UnitReads(c[0] as bv16);
  }

  lemma TwoSpell(c: seq<bv8>)
    requires Password.IsChar(c) && |c| == 2
    ensures Spells(Utf16(c), Password.Scalar(c))
  {
    hide Unit; hide UnitAt;
    TwoByteScalar(c[0], c[1]);
    UnitReads((((c[0] & 0x1f) as bv16) << 6) | ((c[1] & 0x3f) as bv16));
  }

  lemma ThreeSpell(c: seq<bv8>)
    requires Password.IsChar(c) && |c| == 3
    ensures Spells(Utf16(c), Password.Scalar(c))
  {
    hide Unit; hide UnitAt;
    ThreeByteScalar(c[0], c[1], c[2]);
    UnitReads((((c[0] & 0x0f) as bv16) << 12) | (((c[1] & 0x3f) as bv16) << 6) | ((c[2] & 0x3f) as bv16));
  }

  lemma FourSpell(c: seq<bv8>)
    requires Password.IsChar(c) && |c| == 4
    ensures Spells(Utf16(c), Password.Scalar(c))
  {
    hide Unit; hide UnitAt; hide Above; hide High; hide Low; hide Wide; hide Plain; hide Utf16; hide Password.Scalar;
    ScalarOfFour(c);
    var above := Above(c[0], c[1], c[2], c[3]);
    FourUnits(c);
    FourByteScalar(c[0], c[1], c[2], c[3]);
    SurrogatesSplit(above);
    UnitReads(High(above));
    UnitReads(Low(above));
    UnitsJoin(Unit(High(above)), Unit(Low(above)));
    PlainIs(High(above));
    PlainIs(Low(above));
  }

  lemma ScalarOfFour(c: seq<bv8>)
    requires |c| == 4
    ensures Password.Scalar(c)
         == (c[0] as int - 0xf0) * 0x40000 + (c[1] as int - 0x80) * 0x1000 + (c[2] as int - 0x80) * 0x40
            + (c[3] as int - 0x80)
  {
  }

  function Above(a: bv8, b: bv8, c: bv8, d: bv8): bv32 {
    ((((a & 0x07) as bv32) << 18) | (((b & 0x3f) as bv32) << 12) | (((c & 0x3f) as bv32) << 6) | ((d & 0x3f) as bv32))
    - 0x10000
  }

  function High(above: bv32): bv16 {
    0xd800 | (((above >> 10) & 0x3ff) as bv16)
  }

  function Low(above: bv32): bv16 {
    0xdc00 | ((above & 0x3ff) as bv16)
  }

  lemma FourUnits(c: seq<bv8>)
    requires Password.IsChar(c) && |c| == 4
    ensures var above := Above(c[0], c[1], c[2], c[3]); Utf16(c) == Unit(High(above)) + Unit(Low(above))
  {
    hide Unit;
  }

  lemma TwoByteScalar(a: bv8, b: bv8)
    requires 0xc2 <= a <= 0xdf && 0x80 <= b <= 0xbf
    ensures ((((a & 0x1f) as bv16) << 6) | ((b & 0x3f) as bv16)) as int
         == (a as int - 0xc0) * 0x40 + (b as int - 0x80) < 0xd800
  {
  }

  lemma ThreeByteScalar(a: bv8, b: bv8, c: bv8)
    requires 0xe0 <= a <= 0xef && 0x80 <= b <= 0xbf && 0x80 <= c <= 0xbf
    ensures ((((a & 0x0f) as bv16) << 12) | (((b & 0x3f) as bv16) << 6) | ((c & 0x3f) as bv16)) as int
         == (a as int - 0xe0) * 0x1000 + (b as int - 0x80) * 0x40 + (c as int - 0x80)
  {
  }

  function Wide(x: bv32): int {
    x as int
  }

  function Plain(x: bv16): int {
    x as int
  }

  lemma PlainIs(x: bv16)
    ensures Plain(x) == x as int
  {
  }

  function LowThree(a: bv8): bv32 {
    (a & 0x07) as bv32
  }

  function LowSix(b: bv8): bv32 {
    (b & 0x3f) as bv32
  }

  function Six(p: bv32, q: bv32): bv32 {
    (p << 6) | q
  }

  function Twelve(p: bv32, q: bv32): bv32 {
    (p << 12) | q
  }

  function Ten(p: bv32, q: bv32): bv32 {
    (p << 10) | q
  }

  function Upper(above: bv32): bv32 {
    above >> 10
  }

  function Lower(above: bv32): bv32 {
    above & 0x3ff
  }

  predicate Below(x: bv32, limit: bv32) {
    x < limit
  }

  predicate FourByte(a: bv8, b: bv8, c: bv8, d: bv8) {
    && 0xf0 <= a <= 0xf4 && 0x80 <= b <= 0xbf && 0x80 <= c <= 0xbf && 0x80 <= d <= 0xbf
    && (a == 0xf0 ==> 0x90 <= b) && (a == 0xf4 ==> b <= 0x8f)
  }

  lemma FourByteScalar(a: bv8, b: bv8, c: bv8, d: bv8)
    requires FourByte(a, b, c, d)
    ensures Wide(Above(a, b, c, d)) + 0x10000
         == (a as int - 0xf0) * 0x40000 + (b as int - 0x80) * 0x1000 + (c as int - 0x80) * 0x40 + (d as int - 0x80)
    ensures Below(Above(a, b, c, d), 0x100000)
  {
    hide Wide; hide Above; hide LowThree; hide LowSix; hide Six; hide Twelve; hide Below; hide FourByte;
    MaskedParts(a, b, c, d);
    var p, q, u, v := LowThree(a), LowSix(b), LowSix(c), LowSix(d);
    ThreeAndSix(p, q);
    SixAndSix(u, v);
    NineAndTwelve(Six(p, q), Six(u, v));
    ScalarBits(a, b, c, d);
  }

  lemma MaskedParts(a: bv8, b: bv8, c: bv8, d: bv8)
    requires FourByte(a, b, c, d)
    ensures Wide(LowThree(a)) == a as int - 0xf0 && Below(LowThree(a), 8)
    ensures Wide(LowSix(b)) == b as int - 0x80 && Below(LowSix(b), 0x40)
    ensures Wide(LowSix(c)) == c as int - 0x80 && Below(LowSix(c), 0x40)
    ensures Wide(LowSix(d)) == d as int - 0x80 && Below(LowSix(d), 0x40)
  {
  }

  lemma ThreeAndSix(p: bv32, q: bv32)
    requires Below(p, 8) && Below(q, 0x40)
    ensures Wide(Six(p, q)) == Wide(p) * 0x40 + Wide(q) && Below(Six(p, q), 0x200)
  {
  }

  lemma SixAndSix(u: bv32, v: bv32)
    requires Below(u, 0x40) && Below(v, 0x40)
    ensures Wide(Six(u, v)) == Wide(u) * 0x40 + Wide(v) && Below(Six(u, v), 0x1000)
  {
  }

  lemma NineAndTwelve(p: bv32, q: bv32)
    requires Below(p, 0x200) && Below(q, 0x1000)
    ensures Wide(Twelve(p, q)) == Wide(p) * 0x1000 + Wide(q)
  {
  }

  /** The four parts put together, less the first plane. */
  lemma ScalarBits(a: bv8, b: bv8, c: bv8, d: bv8)
    requires FourByte(a, b, c, d)
    ensures var scalar := Twelve(Six(LowThree(a), LowSix(b)), Six(LowSix(c), LowSix(d)));
            Wide(Above(a, b, c, d)) == Wide(scalar) - 0x10000 && Below(Above(a, b, c, d), 0x100000)
  {
    hide Wide;
    var scalar := Twelve(Six(LowThree(a), LowSix(b)), Six(LowSix(c), LowSix(d)));
    assert Above(a, b, c, d) == scalar - 0x10000;
    assert 0x10000 <= scalar < 0x110000;
    LessPlane(scalar);
  }

  lemma LessPlane(x: bv32)
    requires 0x10000 <= x < 0x110000
    ensures Wide(x - 0x10000) == Wide(x) - 0x10000
  {
  }

  lemma SurrogatesSplit(above: bv32)
    requires Below(above, 0x100000)
    ensures 0xd800 <= Plain(High(above)) <= 0xdbff && 0xdc00 <= Plain(Low(above)) <= 0xdfff
    ensures Wide(above) == (Plain(High(above)) - 0xd800) * 0x400 + (Plain(Low(above)) - 0xdc00)
  {
    hide Wide; hide Plain; hide High; hide Low; hide Below; hide Ten; hide Upper; hide Lower;
    TenBits(above);
    TenAndTen(Upper(above), Lower(above));
    SurrogatesOf(above);
  }

  lemma TenBits(above: bv32)
    requires Below(above, 0x100000)
    ensures Below(Upper(above), 0x400) && Below(Lower(above), 0x400) && above == Ten(Upper(above), Lower(above))
  {
  }

  lemma TenAndTen(h: bv32, l: bv32)
    requires Below(h, 0x400) && Below(l, 0x400)
    ensures Wide(Ten(h, l)) == Wide(h) * 0x400 + Wide(l) && 0 <= Wide(h) < 0x400 && 0 <= Wide(l) < 0x400
  {
  }

  lemma SurrogatesOf(above: bv32)
    requires Below(above, 0x100000)
    ensures Plain(High(above)) == 0xd800 + Wide(Upper(above)) && Plain(Low(above)) == 0xdc00 + Wide(Lower(above))
  {
  }

  function Utf16All(chars: seq<seq<bv8>>): seq<bv8>
    requires forall c :: c in chars ==> Password.IsChar(c)
  {
    if chars == [] then [] else Utf16(chars[0]) + Utf16All(chars[1..])
  }

  /** The material the derivation hashes: the clamped password in UTF-16, then the
      salt; none when what the clamp leaves is not UTF-8. */
  function Material(password: seq<bv8>, salt: Option<seq<bv8>>): Option<seq<bv8>> {
    match Password.Chars(Password.ClampPassword(password))
    case None => None
    case Some(chars) =>
      Password.CharsAreChars(Password.ClampPassword(password));
      Some(Utf16All(chars) + if salt.Some? then salt.value else [])
  }

  predicate Ascii(p: seq<bv8>) {
    forall b :: b in p ==> b < 0x80
  }

  function Singles(p: seq<bv8>): (chars: seq<seq<bv8>>)
    ensures |chars| == |p| && forall i :: 0 <= i < |p| ==> chars[i] == [p[i]]
  {
    if p == [] then [] else [[p[0]]] + Singles(p[1..])
  }

  lemma {:induction false} AsciiChars(p: seq<bv8>)
    requires Ascii(p)
    ensures Password.Chars(p).Some? && Password.Chars(p).value == Singles(p)
  {
    if p != [] {
      assert p[0] in p && forall b :: b in p[1..] ==> b in p;
      AsciiChars(p[1..]);
      assert p[..1] == [p[0]];
    }
  }

  predicate Interleaved(units: seq<bv8>, p: seq<bv8>) {
    |units| == 2 * |p| && forall i :: 0 <= i < |p| ==> units[2 * i] == p[i] && units[2 * i + 1] == 0
  }

  lemma InterleavedNext(units: seq<bv8>, p: seq<bv8>)
    requires p != [] && Interleaved(units, p[1..])
    ensures Interleaved([p[0], 0] + units, p)
  {
    var all := [p[0], 0] + units;
    forall i | 0 < i < |p| ensures all[2 * i] == p[i] && all[2 * i + 1] == 0 {
      assert p[i] == p[1..][i - 1];
      assert all[2 * i] == units[2 * (i - 1)] && all[2 * i + 1] == units[2 * (i - 1) + 1];
    }
  }

  lemma {:induction false} AsciiUnits(p: seq<bv8>)
    requires Ascii(p)
    ensures (forall c :: c in Singles(p) ==> Password.IsChar(c)) && Interleaved(Utf16All(Singles(p)), p)
  {
    hide Utf16; hide Password.IsChar; hide Interleaved;
    if p != [] {
      assert p[0] in p && forall b :: b in p[1..] ==> b in p;
      AsciiUnits(p[1..]);
      AsciiUnit(p[0]);
      InterleavedNext(Utf16All(Singles(p[1..])), p);
      assert Singles(p)[1..] == Singles(p[1..]);
    } else {
      assert Interleaved([], p) by { NoneInterleaved(); }
    }
  }

  lemma NoneInterleaved()
    ensures Interleaved([], [])
  {
  }

  lemma AsciiUnit(b: bv8)
    requires b < 0x80
    ensures Password.IsChar([b]) && Utf16([b]) == [b, 0]
  {
  }

  /** What is hashed of an ASCII password of up to 127 characters: each one with a zero
      behind it, and then the salt. */
  lemma AsciiMaterial(p: seq<bv8>, salt: Option<seq<bv8>>)
    requires Ascii(p) && |p| <= 127
    ensures var m := Material(p, salt);
            && m.Some? && |m.value| == 2 * |p| + (if salt.Some? then |salt.value| else 0)
            && (forall i :: 0 <= i < |p| ==> m.value[2 * i] == p[i] && m.value[2 * i + 1] == 0)
            && (salt.Some? ==> m.value[2 * |p|..] == salt.value)
  {
    hide Utf16All; hide Utf16; hide Password.Chars;
    AsciiChars(p);
    Password.ClampKeepsPrefix(p);
    Password.CharsAreChars(p);
    AsciiUnits(p);
  }

  lemma {:induction false} Utf16Bound(chars: seq<seq<bv8>>)
    requires forall c :: c in chars ==> Password.IsChar(c)
    ensures |Utf16All(chars)| <= 4 * |chars|
  {
    hide Utf16;
    if chars != [] {
      assert chars[0] in chars;
      Utf16Bound(chars[1..]);
    }
  }

  /** The whole hash input of any password with an 8-byte salt stays far below 2^32
      bytes, so the 32-bit position never wraps. */
  lemma PositionNeverWraps(password: seq<bv8>, salt: Option<seq<bv8>>)
    requires salt.Some? ==> |salt.value| == 8
    requires Material(password, salt).Some?
    ensures |Material(password, salt).value| <= 4 * 127 + 8
    ensures HASH_ROUNDS * (|Material(password, salt).value| + 3) < WORD_LIMIT
  {
    Password.ClampKeepsPrefix(password);
    Password.CharsAreChars(Password.ClampPassword(password));
    Utf16Bound(Password.Chars(Password.ClampPassword(password)).value);
  }

  /** Key and IV for a password. The fast path is taken below 64 bytes of material,
      and the outcome is that of the slow derivation on either path. */
  method DeriveKeyIv(sha1: Hash, password: seq<bv8>, salt: Option<seq<bv8>>) returns (r: Result)
    requires IsSha1(sha1)
    requires salt.Some? ==> |salt.value| == 8
    ensures r == match Material(password, salt)
                 case None => NonUtf8Password
                 case Some(raw) => Derived(SlowKeyIv(sha1, raw))
  {
    hide Utf16; hide SlowKeyIv; hide FastKeyIv; hide IsSha1;
    var clamped := Password.ClampPassword(password);
    var decoded := Password.Chars(clamped);
    if decoded.None? {
      return NonUtf8Password;
    }
    Password.CharsAreChars(clamped);
    var chars := decoded.value;
    var raw := [];
    var i := 0;
    while i < |chars|
      invariant 0 <= i <= |chars|
      invariant raw + Utf16All(chars[i..]) == Utf16All(chars)
    {
      assert chars[i..][1..] == chars[i + 1..] && chars[i] in chars;
      raw := raw + Utf16(chars[i]);
      i := i + 1;
    }
    assert raw == Utf16All(chars);
    if salt.Some? {
      raw := raw + salt.value;
    } else {
      assert raw == raw + [];
    }
    assert Material(password, salt) == Some(raw);
    if |raw| < 64 {
      SlowEqualsFast(sha1, raw);
      var fast := DeriveFast(sha1, raw);
      return Derived(fast);
    }
    PositionNeverWraps(password, salt);
    var slow := DeriveSlow(sha1, raw);
    return Derived(slow);
  }
}
