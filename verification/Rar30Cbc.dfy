/** The RAR 3.x member cipher (rar30.rs, lines 33-85): CBC over AES-128, the IV
    carried from call to call. AES is any pair of mutually inverse block functions. */
module Rar30Cbc {
  import opened Chaining

  datatype Result = Ok | UnalignedInput

  type Block = seq<bv8>

  /** `enc` and `dec` are a block permutation and its inverse. */
  ghost predicate Permutation(enc: Block -> Block, dec: Block -> Block) {
    forall b: Block :: |b| == BLOCK ==>
      |enc(b)| == BLOCK && |dec(b)| == BLOCK && dec(enc(b)) == b && enc(dec(b)) == b
  }

  function Xor(a: bv8, b: bv8): bv8 { a ^ b }

  /** `block` with the bytes of `iv` folded in, position by position. */
  function Mixed(block: Block, iv: Block): (r: Block)
    ensures |r| == |block|
  {
    seq(|block|, i requires 0 <= i < |block| => if i < |iv| then Xor(block[i], iv[i]) else block[i])
  }

  lemma MixedTwice(block: Block, iv: Block)
    ensures Mixed(Mixed(block, iv), iv) == block
  {
    hide Xor;
    forall i | 0 <= i < |block| ensures Mixed(Mixed(block, iv), iv)[i] == block[i] {
      if i < |iv| { XorTwice(block[i], iv[i]); }
    }
  }

  lemma XorTwice(a: bv8, b: bv8)
    ensures Xor(Xor(a, b), b) == a
  {
  }

  /** CBC encryption and decryption of one block (section 6.2 of NIST SP 800-38A):
      the chaining value is the ciphertext block either way. */
  function EncryptStep(enc: Block -> Block): Step<Block> {
    (iv: Block, block: Block) => (enc(Mixed(block, iv)), enc(Mixed(block, iv)))
  }

  function DecryptStep(dec: Block -> Block): Step<Block> {
    (iv: Block, block: Block) => (block, Mixed(dec(block), iv))
  }

  lemma EncryptStepIs(enc: Block -> Block, iv: Block, block: Block)
    ensures EncryptStep(enc)(iv, block) == (enc(Mixed(block, iv)), enc(Mixed(block, iv)))
  {
  }

  lemma DecryptStepIs(dec: Block -> Block, iv: Block, block: Block)
    ensures DecryptStep(dec)(iv, block) == (block, Mixed(dec(block), iv))
  {
  }

  lemma StepsInvert(enc: Block -> Block, dec: Block -> Block)
    requires Permutation(enc, dec)
    ensures Inverts(EncryptStep(enc), DecryptStep(dec))
  {
    forall iv: Block, block: Block | |block| == BLOCK
      ensures |EncryptStep(enc)(iv, block).1| == BLOCK
      ensures DecryptStep(dec)(iv, EncryptStep(enc)(iv, block).1) == (EncryptStep(enc)(iv, block).0, block)
    {
      MixedTwice(block, iv);
    }
  }

  /** CBC decryption undoes CBC encryption under any aligned chunking of either
      side, and both ciphers end with the same IV. */
  lemma CipherRoundTrip(enc: Block -> Block, dec: Block -> Block, iv: Block,
                        plain: seq<seq<bv8>>, cipher: seq<seq<bv8>>)
    requires Permutation(enc, dec)
    requires forall c :: c in plain ==> Aligned(c)
    requires forall c :: c in cipher ==> Aligned(c)
    requires Flat(cipher) == RunCalls(EncryptStep(enc), iv, plain).1
    ensures RunCalls(DecryptStep(dec), iv, cipher)
         == (RunCalls(EncryptStep(enc), iv, plain).0, Flat(plain))
  {
    StepsInvert(enc, dec);
    ChunkedRoundTrip(EncryptStep(enc), DecryptStep(dec), iv, plain, cipher);
  }

  function Xored(a: Block, b: Block): (r: Block)
    requires |a| == 16 && |b| == 16
    ensures |r| == 16
  {
    seq(16, m requires 0 <= m < 16 => a[m] ^ b[m])
  }

  lemma MixedIsXored(a: Block, b: Block)
    requires |a| == 16 && |b| == 16
    ensures Mixed(a, b) == Xored(a, b)
  {
  }

  lemma StepKeepsSize(enc: Block -> Block, dec: Block -> Block)
    requires Permutation(enc, dec)
    ensures KeepsSize(EncryptStep(enc))
  {
    hide Permutation; hide Mixed;
    forall iv: Block, block: Block | |block| == BLOCK ensures |EncryptStep(enc)(iv, block).1| == BLOCK {
      EncKeepsSize(enc, dec, Mixed(block, iv));
    }
  }

  lemma EncKeepsSize(enc: Block -> Block, dec: Block -> Block, b: Block)
    requires Permutation(enc, dec) && |b| == BLOCK
    ensures |enc(b)| == BLOCK
  {
  }

  /** Cipher block chaining: each ciphertext block encrypts its plaintext block folded into
      the ciphertext block in front of it, the first one into the IV; and the last
      ciphertext block is the IV that is carried on. */
  lemma {:induction false} CbcChains(enc: Block -> Block, dec: Block -> Block, iv: Block, data: seq<bv8>, k: nat)
    requires Permutation(enc, dec) && |iv| == 16 && Aligned(data) && 16 * k + 16 <= |data|
    ensures Aligned(data[..16 * k + 16])
    ensures var out := Run(EncryptStep(enc), iv, data).1;
            && |out| == |data|
            && out[16 * k..16 * k + 16]
               == enc(Xored(data[16 * k..16 * k + 16], if k == 0 then iv else out[16 * k - 16..16 * k]))
            && Run(EncryptStep(enc), iv, data[..16 * k + 16]).0 == out[16 * k..16 * k + 16]
  {
    hide Permutation; hide Mixed; hide Run; hide EncryptStep; hide Xored;
    StepKeepsSize(enc, dec);
    BlockByBlock(EncryptStep(enc), iv, data, k);
    var state, block := Run(EncryptStep(enc), iv, data[..16 * k]).0, data[16 * k..16 * k + 16];
    EncryptStepIs(enc, state, block);
    if k == 0 {
      NothingRun(EncryptStep(enc), iv);
      assert data[..0] == [];
    } else {
      CbcChains(enc, dec, iv, data, k - 1);
    }
    MixedIsXored(block, state);
  }

  lemma NothingRun(step: Step<Block>, iv: Block)
    ensures Run(step, iv, []).0 == iv
  {
  }

  class Rar30Cipher {
    const enc: Block -> Block
    const dec: Block -> Block
    var iv: Block

    ghost predicate Valid()
      reads this
    {
      Permutation(enc, dec) && |iv| == BLOCK
    }

    constructor (enc: Block -> Block, dec: Block -> Block, iv: Block)
      requires Permutation(enc, dec) && |iv| == BLOCK
      ensures Valid() && this.enc == enc && this.dec == dec && this.iv == iv
    {
      this.enc, this.dec, this.iv := enc, dec, iv;
    }

    method EncryptInPlace(data: array<bv8>) returns (result: Result)
      requires Valid()
      modifies this`iv, data
      ensures Valid()
      ensures result == if data.Length % 16 == 0 then Ok else UnalignedInput
      ensures result == UnalignedInput ==> iv == old(iv) && data[..] == old(data[..])
      ensures result == Ok ==> (iv, data[..]) == Run(EncryptStep(enc), old(iv), old(data[..]))
    {
      hide Permutation; hide EncryptStep; hide Joined; hide Run; hide Mixed;
      if data.Length % 16 != 0 {
        return UnalignedInput;
      }
      ghost var all := data[..];
      WholeBlocks(all);
      ghost var step := EncryptStep(enc);
      LoopEnds(step, iv, all);
      var at := 0;
      while at < data.Length
        invariant 0 <= at <= data.Length && at % 16 == 0
        invariant Valid()
        invariant data[at..] == all[at..]
        invariant Joined(data[..at], Run(step, iv, all[at..])) == Run(step, old(iv), all)
      {
        ghost var done := data[..at];
        LoopStep(step, iv, all, at, done);
        EncryptStepIs(enc, iv, all[at..at + 16]);
        assert data[at..at + 16] == all[at..at + 16];
        ghost var before := data[..];
        EncryptBlock(data, at);
        BlockReplaced(before, data[..], all, at);
        at := at + 16;
      }
      assert data[..at] == data[..];
      LoopEnds(step, iv, data[..]);
      return Ok;
    }

    method DecryptInPlace(data: array<bv8>) returns (result: Result)
      requires Valid()
      modifies this`iv, data
      ensures Valid()
      ensures result == if data.Length % 16 == 0 then Ok else UnalignedInput
      ensures result == UnalignedInput ==> iv == old(iv) && data[..] == old(data[..])
      ensures result == Ok ==> (iv, data[..]) == Run(DecryptStep(dec), old(iv), old(data[..]))
    {
      hide Permutation; hide DecryptStep; hide Joined; hide Run; hide Mixed;
      if data.Length % 16 != 0 {
        return UnalignedInput;
      }
      ghost var all := data[..];
      WholeBlocks(all);
      ghost var step := DecryptStep(dec);
      LoopEnds(step, iv, all);
      var at := 0;
      while at < data.Length
        invariant 0 <= at <= data.Length && at % 16 == 0
        invariant Valid()
        invariant data[at..] == all[at..]
        invariant Joined(data[..at], Run(step, iv, all[at..])) == Run(step, old(iv), all)
      {
        ghost var done := data[..at];
        LoopStep(step, iv, all, at, done);
        DecryptStepIs(dec, iv, all[at..at + 16]);
        assert data[at..at + 16] == all[at..at + 16];
        ghost var before := data[..];
        DecryptBlock(data, at);
        BlockReplaced(before, data[..], all, at);
        at := at + 16;
      }
      assert data[..at] == data[..];
      LoopEnds(step, iv, data[..]);
      return Ok;
    }

    method EncryptBlock(data: array<bv8>, at: nat)
      requires Valid() && at + 16 <= data.Length
      modifies this`iv, data
      ensures Valid()
      ensures data[at..at + 16] == enc(Mixed(old(data[at..at + 16]), old(iv))) == iv
      ensures data[..at] == old(data[..at]) && data[at + 16..] == old(data[at + 16..])
    {
      XorInto(data, at, data[at..at + 16]);
      var out := enc(data[at..at + 16]);
      WriteBlock(data, at, out);
      iv := out;
    }

    /** `block` xored with the IV, byte by byte. */
    method XorInto(data: array<bv8>, at: nat, block: seq<bv8>)
      requires |iv| == 16 == |block| && at + 16 <= data.Length
      modifies data
      ensures data[at..at + 16] == Mixed(block, iv)
      ensures data[..at] == old(data[..at]) && data[at + 16..] == old(data[at + 16..])
    {
      hide Permutation;
      forall k | 0 <= k < 16 {
        data[at + k] := XorByte(block[k], iv[k]);
      }
    }

    method WriteBlock(data: array<bv8>, at: nat, block: seq<bv8>)
      requires at + 16 <= data.Length && |block| == 16
      modifies data
      ensures data[at..at + 16] == block
      ensures data[..at] == old(data[..at]) && data[at + 16..] == old(data[at + 16..])
    {
      hide *;
      forall k | 0 <= k < 16 {
        data[at + k] := block[k];
      }
    }

    method DecryptBlock(data: array<bv8>, at: nat)
      requires Valid() && at + 16 <= data.Length
      modifies this`iv, data
      ensures Valid()
      ensures data[at..at + 16] == Mixed(dec(old(data[at..at + 16])), old(iv))
      ensures iv == old(data[at..at + 16])
      ensures data[..at] == old(data[..at]) && data[at + 16..] == old(data[at + 16..])
    {
      var ciphertext := data[at..at + 16];
      XorInto(data, at, dec(ciphertext));
      iv := ciphertext;
    }
  }

  function XorByte(a: bv8, b: bv8): (r: bv8)
    ensures r == Xor(a, b)
  {
    a ^ b
  }
}
