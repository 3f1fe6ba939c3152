/** The RAR 2.x block cipher (rar20.rs): a 32-round network over four words whose
    key words move with every ciphertext block, and a key setup that shuffles the
    substitution table under a data-dependent loop. */
module Rar20 {
  import opened Chaining
  import Crc32
  import Password
  import Rar20Table

  function Xor(a: bv32, b: bv32): bv32 { a ^ b }

  datatype Key = Key(w0: bv32, w1: bv32, w2: bv32, w3: bv32) {
    function At(i: nat): bv32 {
      match i % 4 case 0 => w0 case 1 => w1 case 2 => w2 case _ => w3
    }
  }

  datatype Quad = Quad(a: bv32, b: bv32, c: bv32, d: bv32) {
    function Swapped(): Quad { Quad(c, d, a, b) }
    function Masked(key: Key): Quad { Quad(Xor(a, key.w0), Xor(b, key.w1), Xor(c, key.w2), Xor(d, key.w3)) }
  }

  datatype Result = Ok | UnalignedInput

  const INITIAL_KEY := Key(0xd3a3_b879, 0x3f6d_12f7, 0x7515_a235, 0xa4e7_f123)

  // ---------------------------------------------------------------- words and blocks

  function Byte0(w: bv32): bv8 { (w & 0xff) as bv8 }
  function Byte1(w: bv32): bv8 { ((w >> 8) & 0xff) as bv8 }
  function Byte2(w: bv32): bv8 { ((w >> 16) & 0xff) as bv8 }
  function Byte3(w: bv32): bv8 { ((w >> 24) & 0xff) as bv8 }

  function Pack(b0: bv8, b1: bv8, b2: bv8, b3: bv8): bv32 {
    (b0 as bv32) | ((b1 as bv32) << 8) | ((b2 as bv32) << 16) | ((b3 as bv32) << 24)
  }

  lemma PackBytes(w: bv32)
    ensures Pack(Byte0(w), Byte1(w), Byte2(w), Byte3(w)) == w
  {
  }

  lemma BytesPack(b0: bv8, b1: bv8, b2: bv8, b3: bv8)
    ensures Byte0(Pack(b0, b1, b2, b3)) == b0 && Byte1(Pack(b0, b1, b2, b3)) == b1
    ensures Byte2(Pack(b0, b1, b2, b3)) == b2 && Byte3(Pack(b0, b1, b2, b3)) == b3
  {
  }

  function WordAt(block: seq<bv8>, at: nat): bv32
    requires at + 4 <= |block|
  {
    Pack(block[at], block[at + 1], block[at + 2], block[at + 3])
  }

  function WordBytes(w: bv32): (r: seq<bv8>)
    ensures |r| == 4
  {
    [Byte0(w), Byte1(w), Byte2(w), Byte3(w)]
  }

  function LoadQuad(block: seq<bv8>): Quad
    requires |block| == BLOCK
  {
    Quad(WordAt(block, 0), WordAt(block, 4), WordAt(block, 8), WordAt(block, 12))
  }

  function StoreQuad(q: Quad): (r: seq<bv8>)
    ensures |r| == BLOCK
  {
    WordBytes(q.a) + WordBytes(q.b) + WordBytes(q.c) + WordBytes(q.d)
  }

  lemma LoadStore(q: Quad)
    ensures LoadQuad(StoreQuad(q)) == q
  {
    hide Pack; hide Byte0; hide Byte1; hide Byte2; hide Byte3;
    PackBytes(q.a);
    PackBytes(q.b);
    PackBytes(q.c);
    PackBytes(q.d);
  }

  lemma StoreLoadWord(block: seq<bv8>, at: nat)
    requires at + 4 <= |block|
    ensures WordBytes(WordAt(block, at)) == block[at..at + 4]
  {
    hide Pack; hide Byte0; hide Byte1; hide Byte2; hide Byte3;
    BytesPack(block[at], block[at + 1], block[at + 2], block[at + 3]);
  }

  lemma StoreLoad(block: seq<bv8>)
    requires |block| == BLOCK
    ensures StoreQuad(LoadQuad(block)) == block
  {
    hide WordAt; hide WordBytes;
    StoreLoadWord(block, 0);
    StoreLoadWord(block, 4);
    StoreLoadWord(block, 8);
    StoreLoadWord(block, 12);
    assert block == block[0..4] + block[4..8] + block[8..12] + block[12..16];
  }

  // ---------------------------------------------------------------- the substitution table

  predicate IsTable(subst: seq<bv8>) { |subst| == 256 }

  /** Every byte value occurs in the table, and exactly once. */
  ghost predicate IsPermutation(subst: seq<bv8>) {
    && |subst| == 256
    && (forall i, j :: 0 <= i < j < 256 ==> subst[i] != subst[j])
    && (forall v: bv8 :: v in subst)
  }

  function Substituted(subst: seq<bv8>, value: bv32): bv32
    requires IsTable(subst)
  {
    Pack(subst[Byte0(value) as int], subst[Byte1(value) as int],
         subst[Byte2(value) as int], subst[Byte3(value) as int])
  }

  function InitialSubst(): (r: seq<bv8>)
    ensures |r| == 256
  {
    seq(256, i requires 0 <= i < 256 =>
      (Rar20Table.InitialIsPermutation(i); AsByte(Rar20Table.InitialAt(i))))
  }

  function AsByte(i: int): bv8
    requires 0 <= i < 256
  {
    if i == 0 then 0 else AsByte(i - 1) + 1
  }

  lemma AsByteInjective(i: int, j: int)
    requires 0 <= i < 256 && 0 <= j < 256 && AsByte(i) == AsByte(j)
    ensures i == j
  {
    hide AsByte;
    AsByteIsInt(i);
    AsByteIsInt(j);
  }

  lemma {:induction false} AsByteIsInt(i: int)
    requires 0 <= i < 256
    ensures AsByte(i) as int == i
  {
    if i > 0 {
      AsByteIsInt(i - 1);
      Successor(AsByte(i - 1));
    }
  }

  lemma Successor(x: bv8)
    ensures x as int < 255 ==> (x + 1) as int == x as int + 1
  {
    hide *;
  }

  lemma AsByteOfInt(v: bv8)
    ensures AsByte(v as int) == v
  {
    hide AsByte;
    AsByteIsInt(v as int);
    SameByte(AsByte(v as int), v);
  }

  lemma SameByte(a: bv8, b: bv8)
    requires a as int == b as int
    ensures a == b
  {
    hide *;
  }

  lemma InitialSubstIsPermutation()
    ensures IsPermutation(InitialSubst())
  {
    hide AsByte;
    hide Rar20Table.InitialAt;
    hide Rar20Table.InitialPlace;
    var s := InitialSubst();
    forall i, j | 0 <= i < j < 256 ensures s[i] != s[j] {
      Rar20Table.InitialIsPermutation(i);
      Rar20Table.InitialIsPermutation(j);
      if s[i] == s[j] {
        AsByteInjective(Rar20Table.InitialAt(i), Rar20Table.InitialAt(j));
      }
    }
    forall v: bv8 ensures v in s {
      Rar20Table.InitialIsPermutation(v as int);
      AsByteOfInt(v);
      assert s[Rar20Table.InitialPlace(v as int)] == v;
    }
  }

  // ---------------------------------------------------------------- the network

  function Mix1(c: bv32, d: bv32, k: bv32): bv32 { (c + d.RotateLeft(11)) ^ k }
  function Mix2(c: bv32, d: bv32, k: bv32): bv32 { (d ^ c.RotateLeft(17)) + k }

  function Round(key: Key, subst: seq<bv8>, i: nat, q: Quad): Quad
    requires IsTable(subst)
  {
    Quad(q.c, q.d,
         Xor(q.a, Substituted(subst, Mix1(q.c, q.d, key.At(i)))),
         Xor(q.b, Substituted(subst, Mix2(q.c, q.d, key.At(i)))))
  }

  /** Rounds 0, 1, .., n - 1 in that order. */
  function Forward(key: Key, subst: seq<bv8>, n: nat, q: Quad): Quad
    requires IsTable(subst)
  {
    if n == 0 then q else Round(key, subst, n - 1, Forward(key, subst, n - 1, q))
  }

  /** Rounds n - 1, .., 1, 0 in that order. */
  function Backward(key: Key, subst: seq<bv8>, n: nat, q: Quad): Quad
    requires IsTable(subst)
  {
    if n == 0 then q else Backward(key, subst, n - 1, Round(key, subst, n - 1, q))
  }

  lemma XorTwice(x: bv32, y: bv32)
    ensures Xor(Xor(x, y), y) == x
  {
  }

  /** A round applied to the swapped outcome of the same round gives the swapped input. */
  lemma RoundUndoesItself(key: Key, subst: seq<bv8>, i: nat, q: Quad)
    requires IsTable(subst)
    ensures Round(key, subst, i, Round(key, subst, i, q).Swapped()) == q.Swapped()
  {
    hide Substituted; hide Mix1; hide Mix2; hide Xor; hide Key.At;
    XorTwice(q.a, Substituted(subst, Mix1(q.c, q.d, key.At(i))));
    XorTwice(q.b, Substituted(subst, Mix2(q.c, q.d, key.At(i))));
  }

  /** The rounds in reverse order, on swapped halves, invert the rounds. */
  lemma {:induction false} BackwardUndoesForward(key: Key, subst: seq<bv8>, n: nat, q: Quad)
    requires IsTable(subst)
    ensures Backward(key, subst, n, Forward(key, subst, n, q).Swapped()) == q.Swapped()
  {
    hide Round;
    if n > 0 {
      RoundUndoesItself(key, subst, n - 1, Forward(key, subst, n - 1, q));
      BackwardUndoesForward(key, subst, n - 1, q);
    }
  }

  // ---------------------------------------------------------------- one block

  const ROUNDS: nat := 32

  function EncryptedBlock(key: Key, subst: seq<bv8>, block: seq<bv8>): (r: seq<bv8>)
    requires IsTable(subst) && |block| == BLOCK
    ensures |r| == BLOCK
  {
    StoreQuad(Forward(key, subst, ROUNDS, LoadQuad(block).Masked(key)).Swapped().Masked(key))
  }

  function DecryptedBlock(key: Key, subst: seq<bv8>, block: seq<bv8>): (r: seq<bv8>)
    requires IsTable(subst) && |block| == BLOCK
    ensures |r| == BLOCK
  {
    StoreQuad(Backward(key, subst, ROUNDS, LoadQuad(block).Masked(key)).Swapped().Masked(key))
  }

  function FoldWord(key: Key, b0: bv8, b1: bv8, b2: bv8, b3: bv8): Key {
    Key(Xor(key.w0, Crc32.TableEntry(b0)), Xor(key.w1, Crc32.TableEntry(b1)),
        Xor(key.w2, Crc32.TableEntry(b2)), Xor(key.w3, Crc32.TableEntry(b3)))
  }

  /** The key words after the first `n` four-byte chunks of a ciphertext block. */
  function FoldChunks(key: Key, block: seq<bv8>, n: nat): Key
    requires 4 * n <= |block|
  {
    if n == 0 then key
    else FoldWord(FoldChunks(key, block, n - 1), block[4 * n - 4], block[4 * n - 3],
                  block[4 * n - 2], block[4 * n - 1])
  }

  function NextKey(key: Key, block: seq<bv8>): Key
    requires |block| == BLOCK
  {
    FoldChunks(key, block, 4)
  }

  lemma MaskTwice(q: Quad, key: Key)
    ensures q.Masked(key).Masked(key) == q
  {
    hide Xor;
    XorTwice(q.a, key.w0);
    XorTwice(q.b, key.w1);
    XorTwice(q.c, key.w2);
    XorTwice(q.d, key.w3);
  }

  lemma DecryptUndoesEncrypt(key: Key, subst: seq<bv8>, block: seq<bv8>)
    requires IsTable(subst) && |block| == BLOCK
    ensures DecryptedBlock(key, subst, EncryptedBlock(key, subst, block)) == block
  {
    hide Forward; hide Backward; hide StoreQuad; hide LoadQuad; hide Quad.Masked;
    var q := LoadQuad(block).Masked(key);
    var out := Forward(key, subst, ROUNDS, q).Swapped();
    LoadStore(out.Masked(key));
    MaskTwice(out, key);
    BackwardUndoesForward(key, subst, ROUNDS, q);
    MaskTwice(LoadQuad(block), key);
    StoreLoad(block);
  }

  function EncryptStep(subst: seq<bv8>): Step<Key>
    requires IsTable(subst)
  {
    (key: Key, block: seq<bv8>) =>
      if |block| == BLOCK then
        var out := EncryptedBlock(key, subst, block); (NextKey(key, out), out)
      else (key, block)
  }

  function DecryptStep(subst: seq<bv8>): Step<Key>
    requires IsTable(subst)
  {
    (key: Key, block: seq<bv8>) =>
      if |block| == BLOCK then (NextKey(key, block), DecryptedBlock(key, subst, block))
      else (key, block)
  }

  lemma StepsInvert(subst: seq<bv8>)
    requires IsTable(subst)
    ensures Inverts(EncryptStep(subst), DecryptStep(subst))
  {
    hide EncryptedBlock; hide DecryptedBlock; hide NextKey;
    forall key: Key, block: seq<bv8> | |block| == BLOCK
      ensures |EncryptStep(subst)(key, block).1| == BLOCK
      ensures DecryptStep(subst)(key, EncryptStep(subst)(key, block).1)
           == (EncryptStep(subst)(key, block).0, block)
    {
      DecryptUndoesEncrypt(key, subst, block);
    }
  }

  lemma StepKeepsSize(subst: seq<bv8>)
    requires IsTable(subst)
    ensures KeepsSize(EncryptStep(subst))
  {
    hide EncryptedBlock; hide NextKey;
  }

  /** Each block is encrypted under the key words that absorbed all ciphertext blocks in
      front of it. */
  lemma KeysFollow(key: Key, subst: seq<bv8>, data: seq<bv8>, k: nat)
    requires IsTable(subst) && Aligned(data) && 16 * k + 16 <= |data|
    ensures Aligned(data[..16 * k]) && Aligned(data[..16 * k + 16])
    ensures var out := Run(EncryptStep(subst), key, data).1;
            var before := Run(EncryptStep(subst), key, data[..16 * k]).0;
            && |out| == |data|
            && out[16 * k..16 * k + 16] == EncryptedBlock(before, subst, data[16 * k..16 * k + 16])
            && Run(EncryptStep(subst), key, data[..16 * k + 16]).0 == NextKey(before, out[16 * k..16 * k + 16])
  {
    hide EncryptedBlock; hide NextKey; hide Run; hide KeepsSize;
    StepKeepsSize(subst);
    BlockByBlock(EncryptStep(subst), key, data, k);
  }

  /** Decryption undoes encryption under any pair of aligned splittings into calls,
      although the key words move with every block, and both ciphers end with the
      same key words. */
  lemma CipherRoundTrip(key: Key, subst: seq<bv8>, plain: seq<seq<bv8>>, cipher: seq<seq<bv8>>)
    requires IsTable(subst)
    requires forall c :: c in plain ==> Aligned(c)
    requires forall c :: c in cipher ==> Aligned(c)
    requires Flat(cipher) == RunCalls(EncryptStep(subst), key, plain).1
    ensures RunCalls(DecryptStep(subst), key, cipher)
         == (RunCalls(EncryptStep(subst), key, plain).0, Flat(plain))
  {
    StepsInvert(subst);
    ChunkedRoundTrip(EncryptStep(subst), DecryptStep(subst), key, plain, cipher);
  }

  // ---------------------------------------------------------------- substitution is a bijection

  ghost function PlaceOf(subst: seq<bv8>, v: bv8): (p: bv8)
    requires IsPermutation(subst)
    ensures subst[p as int] == v
  {
    assert v in subst;
    var i: int :| 0 <= i < |subst| && subst[i] == v;
    AsByteIsInt(i);
    AsByte(i)
  }

  /** With a permutation for a table, substituting words is one-to-one .. */
  lemma SubstitutedInjective(subst: seq<bv8>, x: bv32, y: bv32)
    requires IsPermutation(subst) && Substituted(subst, x) == Substituted(subst, y)
    ensures x == y
  {
    hide Pack; hide Byte0; hide Byte1; hide Byte2; hide Byte3;
    BytesPack(subst[Byte0(x) as int], subst[Byte1(x) as int], subst[Byte2(x) as int], subst[Byte3(x) as int]);
    BytesPack(subst[Byte0(y) as int], subst[Byte1(y) as int], subst[Byte2(y) as int], subst[Byte3(y) as int]);
    EntryInjective(subst, Byte0(x), Byte0(y));
    EntryInjective(subst, Byte1(x), Byte1(y));
    EntryInjective(subst, Byte2(x), Byte2(y));
    EntryInjective(subst, Byte3(x), Byte3(y));
    PackBytes(x);
    PackBytes(y);
  }

  lemma EntryInjective(subst: seq<bv8>, a: bv8, b: bv8)
    requires IsPermutation(subst) && subst[a as int] == subst[b as int]
    ensures a == b
  {
    var i, j := a as int, b as int;
    assert i == j;
    assert (i as bv8) as int == i;
  }

  /** .. and onto. */
  lemma SubstitutedOnto(subst: seq<bv8>, y: bv32) returns (x: bv32)
    requires IsPermutation(subst)
    ensures Substituted(subst, x) == y
  {
    hide Pack; hide Byte0; hide Byte1; hide Byte2; hide Byte3;
    var p0, p1 := PlaceOf(subst, Byte0(y)), PlaceOf(subst, Byte1(y));
    var p2, p3 := PlaceOf(subst, Byte2(y)), PlaceOf(subst, Byte3(y));
    x := Pack(p0, p1, p2, p3);
    BytesPack(p0, p1, p2, p3);
    PackBytes(y);
  }

  // ---------------------------------------------------------------- the key setup

  function Exchanged(s: seq<bv8>, i: nat, j: nat): seq<bv8>
    requires i < |s| && j < |s|
  {
    s[i := s[j]][j := s[i]]
  }

  /** How many wrapping increments take `a` to `b`; at most 255. */
  function Distance(a: bv8, b: bv8): (d: nat)
    ensures d <= 255
  {
    (b - a) as int
  }

  lemma DistanceStep(a: bv8, b: bv8)
    requires a != b
    ensures Distance(a + 1, b) == Distance(a, b) - 1
  {
    var x := b - a;
    assert b - (a + 1) == x - 1;
    assert x != 0;
    Predecessor(x);
  }

  lemma Predecessor(x: bv8)
    requires x != 0
    ensures (x - 1) as int == x as int - 1
  {
  }

  /** The exchanges that walk the byte counter from `n1` up to `n2`. */
  function ExchangeRun(s: seq<bv8>, n1: bv8, n2: bv8, i: nat, k: nat): (r: seq<bv8>)
    requires IsTable(s)
    ensures IsTable(r)
    decreases Distance(n1, n2)
  {
    if n1 == n2 then s
    else
      DistanceStep(n1, n2);
      ExchangeRun(Exchanged(s, n1 as int, (n1 as int + i + k) % 256), n1 + 1, n2, i, k + 1)
  }

  lemma ExchangeRunNext(s: seq<bv8>, n1: bv8, n2: bv8, i: nat, k: nat)
    requires IsTable(s)
    ensures ExchangeRun(s, n1, n2, i, k)
         == if n1 == n2 then s
            else ExchangeRun(Exchanged(s, n1 as int, (n1 as int + i + k) % 256), n1 + 1, n2, i, k + 1)
  {
    hide Exchanged; hide Distance;
  }

  function From(password: seq<bv8>, i: nat, j: nat): bv8
    requires i < |password| && j < 256
  {
    Byte0(Crc32.TableEntry(password[i] - (j as bv8)))
  }

  function To(password: seq<bv8>, i: nat, j: nat): bv8
    requires i < |password| && j < 256
  {
    var next: bv8 := if i + 1 < |password| then password[i + 1] else 0;
    Byte0(Crc32.TableEntry(next + (j as bv8)))
  }

  /** The table after the first `pairs` password pairs of pass `j`. */
  function ShufflePairs(s: seq<bv8>, password: seq<bv8>, j: nat, pairs: nat): (r: seq<bv8>)
    requires IsTable(s) && j < 256 && 2 * pairs <= |password| + 1
    ensures IsTable(r)
  {
    if pairs == 0 then s
    else
      var i := 2 * (pairs - 1);
      ExchangeRun(ShufflePairs(s, password, j, pairs - 1), From(password, i, j), To(password, i, j), i, 1)
  }

  /** The table after the first `passes` passes over the password. */
  function Shuffle(s: seq<bv8>, password: seq<bv8>, passes: nat): (r: seq<bv8>)
    requires IsTable(s) && passes <= 256
    ensures IsTable(r)
  {
    if passes == 0 then s
    else ShufflePairs(Shuffle(s, password, passes - 1), password, passes - 1, (|password| + 1) / 2)
  }

  lemma ShuffleStarts(s: seq<bv8>, password: seq<bv8>)
    requires IsTable(s)
    ensures Shuffle(s, password, 0) == s
  {
  }

  lemma PairsStart(s: seq<bv8>, password: seq<bv8>, j: nat)
    requires IsTable(s) && j < 256
    ensures ShufflePairs(s, password, j, 0) == s
  {
  }

  lemma PairsContinue(s: seq<bv8>, password: seq<bv8>, j: nat, pairs: nat)
    requires IsTable(s) && j < 256 && 2 * pairs < |password|
    ensures ShufflePairs(s, password, j, pairs + 1)
         == ExchangeRun(ShufflePairs(s, password, j, pairs), From(password, 2 * pairs, j),
                        To(password, 2 * pairs, j), 2 * pairs, 1)
  {
    hide ExchangeRun;
  }

  lemma PassDone(s: seq<bv8>, password: seq<bv8>, j: nat, pairs: nat)
    requires IsTable(s) && j < 256 && pairs == (|password| + 1) / 2
    ensures Shuffle(s, password, j + 1) == ShufflePairs(Shuffle(s, password, j), password, j, pairs)
  {
    hide ShufflePairs;
  }

  lemma ExchangedPermutes(s: seq<bv8>, i: nat, j: nat)
    requires IsPermutation(s) && i < 256 && j < 256
    ensures IsPermutation(Exchanged(s, i, j))
  {
    var t := Exchanged(s, i, j);
    forall v: bv8 ensures v in t {
      assert v in s;
      var k :| 0 <= k < 256 && s[k] == v;
      assert t[if k == i then j else if k == j then i else k] == v;
    }
  }

  lemma {:induction false} ExchangeRunPermutes(s: seq<bv8>, n1: bv8, n2: bv8, i: nat, k: nat)
    requires IsPermutation(s)
    ensures IsPermutation(ExchangeRun(s, n1, n2, i, k))
    decreases Distance(n1, n2)
  {
    hide IsPermutation; hide Distance;
    PermutationIsTable(s);
    if n1 != n2 {
      DistanceStep(n1, n2);
      ExchangedPermutes(s, n1 as int, (n1 as int + i + k) % 256);
      ExchangeRunPermutes(Exchanged(s, n1 as int, (n1 as int + i + k) % 256), n1 + 1, n2, i, k + 1);
    }
  }

  lemma PermutationIsTable(s: seq<bv8>)
    requires IsPermutation(s)
    ensures IsTable(s)
  {
  }

  lemma {:induction false} ShufflePairsPermutes(s: seq<bv8>, password: seq<bv8>, j: nat, pairs: nat)
    requires IsPermutation(s) && j < 256 && 2 * pairs <= |password| + 1
    ensures IsPermutation(ShufflePairs(s, password, j, pairs))
  {
    hide IsPermutation; hide ExchangeRun; hide ShufflePairs; hide From; hide To; hide IsTable;
    PermutationIsTable(s);
    ShufflePairsNext(s, password, j, pairs);
    if pairs > 0 {
      var i := 2 * (pairs - 1);
      ShufflePairsPermutes(s, password, j, pairs - 1);
      ExchangeRunPermutes(ShufflePairs(s, password, j, pairs - 1), From(password, i, j), To(password, i, j), i, 1);
    }
  }

  lemma ShufflePairsNext(s: seq<bv8>, password: seq<bv8>, j: nat, pairs: nat)
    requires IsTable(s) && j < 256 && 2 * pairs <= |password| + 1
    ensures ShufflePairs(s, password, j, pairs)
         == if pairs == 0 then s
            else
              var i := 2 * (pairs - 1);
              ExchangeRun(ShufflePairs(s, password, j, pairs - 1), From(password, i, j), To(password, i, j), i, 1)
  {
    hide ExchangeRun; hide From; hide To; hide IsTable;
  }

  /** No password's key setup makes the table anything but a permutation. */
  lemma {:induction false} ShufflePermutes(s: seq<bv8>, password: seq<bv8>, passes: nat)
    requires IsPermutation(s) && passes <= 256
    ensures IsPermutation(Shuffle(s, password, passes))
  {
    hide IsPermutation; hide ShufflePairs;
    PermutationIsTable(s);
    if passes > 0 {
      ShufflePermutes(s, password, passes - 1);
      ShufflePairsPermutes(Shuffle(s, password, passes - 1), password, passes - 1, (|password| + 1) / 2);
    }
  }

  /** `password` filled up with zeros to whole blocks. */
  function Padded(password: seq<bv8>): (r: seq<bv8>)
    ensures Aligned(r) && password <= r && |r| < |password| + 16
    ensures forall i :: |password| <= i < |r| ==> r[i] == 0
  {
    password + seq((16 - |password| % 16) % 16, _ => 0)
  }

  // ---------------------------------------------------------------- the cipher object

  class Rar20Cipher {
    var key: Key
    const subst: array<bv8>

    ghost predicate Valid()
      reads subst
    {
      IsPermutation(subst[..])
    }

    constructor (password: seq<bv8>)
      ensures fresh(subst) && Valid()
      ensures subst[..] == Shuffle(InitialSubst(), Password.ClampPassword(password), 256)
      ensures key == Run(EncryptStep(subst[..]), INITIAL_KEY, Padded(Password.ClampPassword(password))).0
    {
      hide IsPermutation; hide Shuffle; hide EncryptStep;
      var table := new bv8[256](i requires 0 <= i < 256 => InitialSubst()[i]);
      key := INITIAL_KEY;
      subst := table;
      new;
      assert subst[..] == InitialSubst();
      InitialSubstIsPermutation();
      SetKey(password);
    }

    /** The key setup: shuffle the table under the password, then run the password
        through the cipher as data. */
    method SetKey(password: seq<bv8>)
      requires Valid()
      modifies this`key, subst
      ensures Valid()
      ensures subst[..] == Shuffle(old(subst[..]), Password.ClampPassword(password), 256)
      ensures key == Run(EncryptStep(subst[..]), old(key), Padded(Password.ClampPassword(password))).0
    {
      hide *;
      var clamped := Password.ClampPassword(password);
      ShuffleTable(clamped);
      var padding := (16 - |clamped| % 16) % 16;
      var padded := new bv8[|clamped| + padding](i requires 0 <= i < |clamped| + padding =>
        if i < |clamped| then clamped[i] else 0);
      PaddedIs(clamped, padded[..]);
      var result := EncryptInPlace(padded);
    }

    method ShuffleTable(password: seq<bv8>)
      requires Valid()
      modifies subst
      ensures Valid()
      ensures subst[..] == Shuffle(old(subst[..]), password, 256)
    {
      hide IsPermutation; hide ExchangeRun; hide From; hide To; hide Shuffle; hide ShufflePairs;
      hide Byte0; hide Crc32.TableEntry;
      ghost var start := subst[..];
      PermutationIsTable(start);
      ShuffleStarts(start, password);
      var j := 0;
      while j < 256
        invariant 0 <= j <= 256
        invariant Valid() && subst[..] == Shuffle(start, password, j)
      {
        var i := 0;
        PairsStart(Shuffle(start, password, j), password, j);
        while i < |password|
          invariant i % 2 == 0 && 0 <= i <= |password| + 1
          invariant Valid()
          invariant subst[..] == ShufflePairs(Shuffle(start, password, j), password, j, i / 2)
        {
          var n1 := Byte0(Crc32.TableEntry(password[i] - (j as bv8)));
          var next: bv8 := if i + 1 < |password| then password[i + 1] else 0;
          var n2 := Byte0(Crc32.TableEntry(next + (j as bv8)));
          FromToAre(password, i, j);
          PairsContinue(Shuffle(start, password, j), password, j, i / 2);
          ghost var exchanges := ExchangeUntil(n1, n2, i);
          i := i + 2;
        }
        PassDone(start, password, j, i / 2);
        j := j + 1;
      }
    }

    /** The data-dependent loop: it stops after `Distance(n1, n2)` exchanges, at
        most 255 of them, because the byte counter wraps around to `n2`. */
    method ExchangeUntil(from: bv8, n2: bv8, i: nat) returns (ghost exchanges: nat)
      requires Valid()
      modifies subst
      ensures Valid()
      ensures subst[..] == ExchangeRun(old(subst[..]), from, n2, i, 1)
      ensures exchanges == Distance(from, n2) <= 255
    {
      hide IsPermutation; hide Distance; hide ExchangeRun; hide Exchanged;
      PermutationIsTable(subst[..]);
      var n1 := from;
      var k := 1;
      while n1 != n2
        invariant 1 <= k
        invariant Valid()
        invariant ExchangeRun(subst[..], n1, n2, i, k) == ExchangeRun(old(subst[..]), from, n2, i, 1)
        invariant k - 1 + Distance(n1, n2) == Distance(from, n2)
        decreases Distance(n1, n2)
      {
        DistanceStep(n1, n2);
        var other := (n1 as int + i + k) % 256;
        ExchangedPermutes(subst[..], n1 as int, other);
        ExchangeRunNext(subst[..], n1, n2, i, k);
        Exchange(n1 as int, other);
        n1 := n1 + 1;
        k := k + 1;
      }
      DistanceZero(n1);
      ExchangeRunNext(subst[..], n1, n2, i, k);
      exchanges := k - 1;
    }

    method Exchange(i: nat, j: nat)
      requires subst.Length == 256 && i < 256 && j < 256
      modifies subst
      ensures subst[..] == Exchanged(old(subst[..]), i, j)
    {
      subst[i], subst[j] := subst[j], subst[i];
    }

    method EncryptInPlace(data: array<bv8>) returns (result: Result)
      requires Valid() && data != subst
      modifies this`key, data
      ensures result == if data.Length % 16 == 0 then Ok else UnalignedInput
      ensures result == UnalignedInput ==> key == old(key) && data[..] == old(data[..])
      ensures result == Ok ==> (key, data[..]) == Run(EncryptStep(subst[..]), old(key), old(data[..]))
    {
      hide IsPermutation; hide EncryptedBlock; hide NextKey; hide EncryptStep; hide Joined; hide Run;
      if data.Length % 16 != 0 {
        return UnalignedInput;
      }
      ghost var all := data[..];
      WholeBlocks(all);
      PermutationIsTable(subst[..]);
      ghost var step := EncryptStep(subst[..]);
      LoopEnds(step, key, all);
      var at := 0;
      while at < data.Length
        invariant 0 <= at <= data.Length && at % 16 == 0
        invariant data[at..] == all[at..]
        invariant Joined(data[..at], Run(step, key, all[at..])) == Run(step, old(key), all)
      {
        ghost var done := data[..at];
        LoopStep(step, key, all, at, done);
        EncryptStepIs(subst[..], key, all[at..at + 16]);
        assert data[at..at + 16] == all[at..at + 16];
        ghost var before := data[..];
        EncryptBlock(data, at);
        BlockReplaced(before, data[..], all, at);
        at := at + 16;
      }
      assert data[..at] == data[..];
      LoopEnds(step, key, data[..]);
      return Ok;
    }

    method DecryptInPlace(data: array<bv8>) returns (result: Result)
      requires Valid() && data != subst
      modifies this`key, data
      ensures result == if data.Length % 16 == 0 then Ok else UnalignedInput
      ensures result == UnalignedInput ==> key == old(key) && data[..] == old(data[..])
      ensures result == Ok ==> (key, data[..]) == Run(DecryptStep(subst[..]), old(key), old(data[..]))
    {
      hide IsPermutation; hide DecryptedBlock; hide NextKey; hide DecryptStep; hide Joined; hide Run;
      if data.Length % 16 != 0 {
        return UnalignedInput;
      }
      ghost var all := data[..];
      WholeBlocks(all);
      PermutationIsTable(subst[..]);
      ghost var step := DecryptStep(subst[..]);
      LoopEnds(step, key, all);
      var at := 0;
      while at < data.Length
        invariant 0 <= at <= data.Length && at % 16 == 0
        invariant data[at..] == all[at..]
        invariant Joined(data[..at], Run(step, key, all[at..])) == Run(step, old(key), all)
      {
        ghost var done := data[..at];
        LoopStep(step, key, all, at, done);
        DecryptStepIs(subst[..], key, all[at..at + 16]);
        assert data[at..at + 16] == all[at..at + 16];
        ghost var before := data[..];
        DecryptBlock(data, at);
        BlockReplaced(before, data[..], all, at);
        at := at + 16;
      }
      assert data[..at] == data[..];
      LoopEnds(step, key, data[..]);
      return Ok;
    }

    method EncryptBlock(data: array<bv8>, at: nat)
      requires Valid() && data != subst && at + 16 <= data.Length
      modifies this`key, data
      ensures data[at..at + 16] == EncryptedBlock(old(key), subst[..], old(data[at..at + 16]))
      ensures data[..at] == old(data[..at]) && data[at + 16..] == old(data[at + 16..])
      ensures key == NextKey(old(key), data[at..at + 16])
    {
      hide IsPermutation; hide Round; hide StoreQuad; hide LoadQuad; hide Quad.Masked; hide NextKey;
      PermutationIsTable(subst[..]);
      var block := data[at..at + 16];
      ghost var q0 := LoadQuad(block).Masked(key);
      var q := LoadQuad(block).Masked(key);
      var i := 0;
      while i < ROUNDS
        invariant 0 <= i <= ROUNDS
        invariant q == Forward(key, subst[..], i, q0)
      {
        q := Round(key, subst[..], i, q);
        i := i + 1;
      }
      WriteBlock(data, at, StoreQuad(q.Swapped().Masked(key)));
      UpdateKeys(data[at..at + 16]);
    }

    method DecryptBlock(data: array<bv8>, at: nat)
      requires Valid() && data != subst && at + 16 <= data.Length
      modifies this`key, data
      ensures data[at..at + 16] == DecryptedBlock(old(key), subst[..], old(data[at..at + 16]))
      ensures data[..at] == old(data[..at]) && data[at + 16..] == old(data[at + 16..])
      ensures key == NextKey(old(key), old(data[at..at + 16]))
    {
      hide IsPermutation; hide Round; hide StoreQuad; hide LoadQuad; hide Quad.Masked; hide NextKey;
      PermutationIsTable(subst[..]);
      var saved := data[at..at + 16];
      ghost var q0 := LoadQuad(saved).Masked(key);
      var q := LoadQuad(saved).Masked(key);
      var i := ROUNDS;
      while i > 0
        invariant 0 <= i <= ROUNDS
        invariant Backward(key, subst[..], i, q) == Backward(key, subst[..], ROUNDS, q0)
      {
        i := i - 1;
        q := Round(key, subst[..], i, q);
      }
      WriteBlock(data, at, StoreQuad(q.Swapped().Masked(key)));
      UpdateKeys(saved);
    }

    method WriteBlock(data: array<bv8>, at: nat, block: seq<bv8>)
      requires data != subst && at + 16 <= data.Length && |block| == 16
      modifies data
      ensures data[at..at + 16] == block
      ensures data[..at] == old(data[..at]) && data[at + 16..] == old(data[at + 16..])
    {
      forall k | 0 <= k < 16 {
        data[at + k] := block[k];
      }
    }

    method UpdateKeys(block: seq<bv8>)
      requires |block| == 16
      modifies this`key
      ensures key == NextKey(old(key), block)
    {
      hide FoldWord;
      var c := 0;
      while c < 4
        invariant 0 <= c <= 4
        invariant key == FoldChunks(old(key), block, c)
      {
        key := FoldWord(key, block[4 * c], block[4 * c + 1], block[4 * c + 2], block[4 * c + 3]);
        c := c + 1;
      }
    }
  }

  lemma EncryptStepIs(subst: seq<bv8>, key: Key, block: seq<bv8>)
    requires IsTable(subst) && |block| == BLOCK
    ensures EncryptStep(subst)(key, block)
         == (NextKey(key, EncryptedBlock(key, subst, block)), EncryptedBlock(key, subst, block))
  {
  }

  lemma DecryptStepIs(subst: seq<bv8>, key: Key, block: seq<bv8>)
    requires IsTable(subst) && |block| == BLOCK
    ensures DecryptStep(subst)(key, block) == (NextKey(key, block), DecryptedBlock(key, subst, block))
  {
  }

  lemma PaddedIs(password: seq<bv8>, padded: seq<bv8>)
    requires |padded| == |password| + (16 - |password| % 16) % 16
    requires forall i :: 0 <= i < |padded| ==> padded[i] == if i < |password| then password[i] else 0
    ensures padded == Padded(password)
  {
  }

  lemma FromToAre(password: seq<bv8>, i: nat, j: nat)
    requires i < |password| && j < 256
    ensures From(password, i, j) == Byte0(Crc32.TableEntry(password[i] - (j as bv8)))
    ensures To(password, i, j) == Byte0(Crc32.TableEntry(
              (if i + 1 < |password| then password[i + 1] else 0) + (j as bv8)))
  {
  }

  lemma DistanceZero(n: bv8)
    ensures Distance(n, n) == 0
  {
  }
}
