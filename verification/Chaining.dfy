/** Ciphers that carry a state from one 16-byte block to the next, and what it
    means to feed them a byte string in several calls. The RAR 2.x cipher (state:
    its key words) and the RAR 3.x CBC mode (state: the running IV) are both used
    this way, a call at a time over aligned slices. */
module Chaining {

  const BLOCK: nat := 16

  predicate Aligned(data: seq<bv8>) { |data| % BLOCK == 0 }

  /** One block: the state before and the block in, the state after and the block out. */
  type Step<!S> = (S, seq<bv8>) -> (S, seq<bv8>)

  /** The whole of `data` in one go. */
  function Run<S>(step: Step<S>, s: S, data: seq<bv8>): (S, seq<bv8>)
    requires Aligned(data)
    decreases |data|
  {
    if data == [] then (s, [])
    else
      var (s1, block) := step(s, data[..BLOCK]);
      var (s2, rest) := Run(step, s1, data[BLOCK..]);
      (s2, block + rest)
  }

  /** One call after another, the state carried over; outputs joined. */
  function RunCalls<S>(step: Step<S>, s: S, calls: seq<seq<bv8>>): (S, seq<bv8>)
    requires forall c :: c in calls ==> Aligned(c)
    decreases |calls|
  {
    if calls == [] then (s, [])
    else
      var (s1, out) := Run(step, s, calls[0]);
      var (s2, rest) := RunCalls(step, s1, calls[1..]);
      (s2, out + rest)
  }

  function Flat(calls: seq<seq<bv8>>): seq<bv8> {
    if calls == [] then [] else calls[0] + Flat(calls[1..])
  }

  /** `dec` undoes `enc` block by block and both leave the same state behind. */
  ghost predicate Inverts<S(!new)>(enc: Step<S>, dec: Step<S>) {
    forall s: S, block: seq<bv8> :: |block| == BLOCK ==>
      |enc(s, block).1| == BLOCK && dec(s, enc(s, block).1) == (enc(s, block).0, block)
  }

  /** What a loop over `all` has done after producing `done` and what `r` remains. */
  function Joined<S>(done: seq<bv8>, r: (S, seq<bv8>)): (S, seq<bv8>) {
    (r.0, done + r.1)
  }

  lemma LoopEnds<S>(step: Step<S>, s: S, all: seq<bv8>)
    requires Aligned(all)
    ensures all[0..] == all && Joined([], Run(step, s, all)) == Run(step, s, all)
    ensures Joined(all, Run(step, s, [])) == (s, all)
  {
    assert [] + Run(step, s, all).1 == Run(step, s, all).1;
    assert all + [] == all;
  }

  lemma WholeBlocks(data: seq<bv8>)
    ensures Aligned(data) <==> |data| % 16 == 0
  {
  }

  /** What replacing one block of a buffer leaves. */
  lemma BlockReplaced(before: seq<bv8>, after: seq<bv8>, all: seq<bv8>, at: nat)
    requires at + BLOCK <= |before| == |after| == |all| && before[at..] == all[at..]
    requires after[..at] == before[..at] && after[at + BLOCK..] == before[at + BLOCK..]
    ensures after[..at + BLOCK] == before[..at] + after[at..at + BLOCK]
    ensures after[at + BLOCK..] == all[at + BLOCK..]
  {
    assert before[at + BLOCK..] == before[at..][BLOCK..] && all[at + BLOCK..] == all[at..][BLOCK..];
  }

  /** One iteration of a loop over whole blocks. */
  lemma LoopStep<S>(step: Step<S>, s: S, all: seq<bv8>, at: nat, done: seq<bv8>)
    requires Aligned(all) && at % BLOCK == 0 && at < |all|
    ensures at + BLOCK <= |all| && Aligned(all[at..]) && Aligned(all[at + BLOCK..])
    ensures var (s1, block) := step(s, all[at..at + BLOCK]);
            Joined(done, Run(step, s, all[at..])) == Joined(done + block, Run(step, s1, all[at + BLOCK..]))
  {
    assert all[at..][..BLOCK] == all[at..at + BLOCK];
    assert all[at..][BLOCK..] == all[at + BLOCK..];
    var (s1, block) := step(s, all[at..at + BLOCK]);
    var rest := Run(step, s1, all[at + BLOCK..]).1;
    assert done + (block + rest) == done + block + rest;
  }

  lemma {:induction false} RunSplits<S>(step: Step<S>, s: S, a: seq<bv8>, b: seq<bv8>)
    requires Aligned(a) && Aligned(b)
    ensures Run(step, s, a + b)
         == (Run(step, Run(step, s, a).0, b).0, Run(step, s, a).1 + Run(step, Run(step, s, a).0, b).1)
    decreases |a|
  {
    if a == [] {
      assert a + b == b && [] + Run(step, s, b).1 == Run(step, s, b).1;
    } else {
      assert (a + b)[..BLOCK] == a[..BLOCK];
      assert (a + b)[BLOCK..] == a[BLOCK..] + b;
      var (s1, block) := step(s, a[..BLOCK]);
      RunSplits(step, s1, a[BLOCK..], b);
      var (s2, rest) := Run(step, s1, a[BLOCK..]);
      assert block + (rest + Run(step, s2, b).1) == (block + rest) + Run(step, s2, b).1;
    }
  }

  // ---------------------------------------------------------------- block by block

  ghost predicate KeepsSize<S(!new)>(step: Step<S>) {
    forall s: S, block: seq<bv8> :: |block| == BLOCK ==> |step(s, block).1| == BLOCK
  }

  lemma {:induction false} RunSize<S(!new)>(step: Step<S>, s: S, data: seq<bv8>)
    requires KeepsSize(step) && Aligned(data)
    ensures |Run(step, s, data).1| == |data|
    decreases |data|
  {
    if data != [] {
      RunSize(step, step(s, data[..BLOCK]).0, data[BLOCK..]);
    }
  }

  lemma BlocksAlign(data: seq<bv8>, k: nat)
    requires Aligned(data) && 16 * k + 16 <= |data|
    ensures Aligned(data[..16 * k]) && Aligned(data[..16 * k + 16])
    ensures Aligned(data[16 * k..16 * k + 16]) && Aligned(data[16 * k + 16..])
  {
    assert |data| % 16 == 0 && (16 * k) % 16 == 0;
  }

  /** Block `k` of the output is what the step makes of block `k` of the input in the state
      that the blocks in front leave, and so is the state behind it. */
  lemma BlockByBlock<S(!new)>(step: Step<S>, s: S, data: seq<bv8>, k: nat)
    requires KeepsSize(step) && Aligned(data) && 16 * k + 16 <= |data|
    ensures Aligned(data[..16 * k]) && Aligned(data[..16 * k + 16])
    ensures var (next, block) := step(Run(step, s, data[..16 * k]).0, data[16 * k..16 * k + 16]);
            && |Run(step, s, data).1| == |data|
            && Run(step, s, data).1[16 * k..16 * k + 16] == block
            && Run(step, s, data[..16 * k + 16]).0 == next
  {
    BlocksAlign(data, k);
    var front, here, behind := data[..16 * k], data[16 * k..16 * k + 16], data[16 * k + 16..];
    var state := Run(step, s, front).0;
    assert data == (front + here) + behind && data[..16 * k + 16] == front + here;
    RunSplits(step, s, front, here);
    RunSplits(step, s, front + here, behind);
    RunSize(step, s, front);
    RunSize(step, s, data);
    OneBlock(step, state, here);
  }

  lemma OneBlock<S>(step: Step<S>, s: S, block: seq<bv8>)
    requires |block| == BLOCK
    ensures Run(step, s, block) == step(s, block)
  {
    var (s1, out) := step(s, block);
    assert block[..BLOCK] == block && block[BLOCK..] == [] && out + [] == out;
  }

  lemma {:induction false} FlatAligned(calls: seq<seq<bv8>>)
    requires forall c :: c in calls ==> Aligned(c)
    ensures Aligned(Flat(calls))
  {
    if calls != [] {
      FlatAligned(calls[1..]);
      assert calls[0] in calls;
    }
  }

  /** However an input is cut into aligned calls, the outcome is that of one call. */
  lemma {:induction false} CallsAreOneRun<S>(step: Step<S>, s: S, calls: seq<seq<bv8>>)
    requires forall c :: c in calls ==> Aligned(c)
    ensures Aligned(Flat(calls)) && RunCalls(step, s, calls) == Run(step, s, Flat(calls))
    decreases |calls|
  {
    FlatAligned(calls);
    if calls != [] {
      FlatAligned(calls[1..]);
      CallsAreOneRun(step, Run(step, s, calls[0]).0, calls[1..]);
      RunSplits(step, s, calls[0], Flat(calls[1..]));
    }
  }

  lemma {:induction false} RunRoundTrip<S(!new)>(enc: Step<S>, dec: Step<S>, s: S, data: seq<bv8>)
    requires Inverts(enc, dec) && Aligned(data)
    ensures |Run(enc, s, data).1| == |data|
    ensures Run(dec, s, Run(enc, s, data).1) == (Run(enc, s, data).0, data)
    decreases |data|
  {
    if data != [] {
      var head, tail := data[..BLOCK], data[BLOCK..];
      var (s1, block) := enc(s, head);
      RunRoundTrip(enc, dec, s1, tail);
      var rest := Run(enc, s1, tail).1;
      assert (block + rest)[..BLOCK] == block && (block + rest)[BLOCK..] == rest;
      assert data == head + tail;
    }
  }

  /** Decryption undoes encryption under any pair of aligned splittings into calls,
      and the two ciphers end in the same state. */
  lemma ChunkedRoundTrip<S(!new)>(enc: Step<S>, dec: Step<S>, s: S,
                                  plain: seq<seq<bv8>>, cipher: seq<seq<bv8>>)
    requires Inverts(enc, dec)
    requires forall c :: c in plain ==> Aligned(c)
    requires forall c :: c in cipher ==> Aligned(c)
    requires Flat(cipher) == RunCalls(enc, s, plain).1
    ensures RunCalls(dec, s, cipher) == (RunCalls(enc, s, plain).0, Flat(plain))
  {
    CallsAreOneRun(enc, s, plain);
    CallsAreOneRun(dec, s, cipher);
    RunRoundTrip(enc, dec, s, Flat(plain));
  }
}
