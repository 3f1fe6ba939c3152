/** CRC-32 as the RAR4 container and the legacy ciphers use it (crc32.rs): a
    256-entry table driven one byte at a time, and the bit-serial register it
    stands for. Bytes are `bv8`, the register is `bv32`. */
module Crc32 {

  const POLYNOMIAL: bv32 := 0xedb8_8320
  const INITIAL: bv32 := 0xffff_ffff

  // ---------------------------------------------------------------- the bit-serial reference

  function Xor(a: bv32, b: bv32): bv32 { a ^ b }

  function Wide(byte: bv8): bv32 { byte as bv32 }

  /** One step of the reflected register: shift right, and fold the polynomial in
      when the bit shifted out was set. */
  function BitStep(r: bv32): bv32 {
    if r & 1 == 1 then (r >> 1) ^ POLYNOMIAL else r >> 1
  }

  function BitSteps(r: bv32, n: nat): bv32
    decreases n
  {
    if n == 0 then r else BitSteps(BitStep(r), n - 1)
  }

  /** Feed a byte string, least significant bit of each byte first. */
  function SerialFrom(r: bv32, input: seq<bv8>): bv32
    decreases |input|
  {
    if input == [] then r
    else SerialFrom(BitSteps(Xor(r, Wide(input[0])), 8), input[1..])
  }

  /** The bit-serial CRC of section 8 of RFC 1952, before its final inversion. */
  function Serial(input: seq<bv8>): bv32 {
    SerialFrom(INITIAL, input)
  }

  // ---------------------------------------------------------------- the table

  /** The `index`-th entry of the reflected lookup table. */
  function TableEntry(index: bv8): bv32 {
    BitSteps(Wide(index), 8)
  }

  function EntryAt(i: int): bv32
    requires 0 <= i < 256
  {
    BitSteps(i as bv32, 8)
  }

  /** Whether `table` holds, at every index, eight bit steps of that index. */
  ghost predicate IsTable(table: seq<bv32>) {
    |table| == 256 && forall i: int :: 0 <= i < 256 ==> table[i] == EntryAt(i)
  }

  method BuildTable() returns (table: array<bv32>)
    ensures fresh(table) && IsTable(table[..])
  {
    hide EntryAt;
    table := new bv32[256](_ => 0);
    var i := 0;
    while i < 256
      invariant 0 <= i <= 256
      invariant forall k: int :: 0 <= k < i ==> table[k] == EntryAt(k)
    {
      var value := BuildEntry(i);
      table[i] := value;
      i := i + 1;
    }
  }

  /** The inner loop of the table builder. */
  method BuildEntry(i: int) returns (value: bv32)
    requires 0 <= i < 256
    ensures value == EntryAt(i)
  {
    hide BitStep;
    value := i as bv32;
    var bit := 0;
    while bit < 8
      invariant 0 <= bit <= 8
      invariant BitSteps(value, 8 - bit) == EntryAt(i)
    {
      value := BuildStep(value);
      bit := bit + 1;
    }
  }

  /** The branch-free step of the table builder is the conditional one. */
  method BuildStep(value: bv32) returns (next: bv32)
    ensures next == BitStep(value)
  {
    var mask: bv32 := 0 - (value & 1);
    LowBit(value);
    if value & 1 == 0 { assert mask == 0; } else { assert mask == 0xffff_ffff; }
    next := (value >> 1) ^ (POLYNOMIAL & mask);
  }

  lemma Lookup(index: bv8)
    ensures EntryAt(index as int) == TableEntry(index)
  {
    WideOfInt(index as int);
  }

  lemma WideOfInt(i: int)
    requires 0 <= i < 256
    ensures (i as bv8) as bv32 == i as bv32
  {
  }

  /** The running CRC, one table lookup per byte. */
  method Crc32Raw(table: array<bv32>, input: seq<bv8>) returns (crc: bv32)
    requires IsTable(table[..])
    ensures crc == Serial(input)
  {
    hide EntryAt;
    hide TableEntry;
    hide BitSteps;
    hide Xor;
    hide Wide;
    hide Index;
    crc := INITIAL;
    var i := 0;
    while i < |input|
      invariant 0 <= i <= |input|
      invariant SerialFrom(crc, input[i..]) == Serial(input)
    {
      var byte := input[i];
      var index := ((crc & 0xff) as bv8) ^ byte;
      Lookup(index);
      LoopStep(crc, byte);
      assert table[..][index as int] == table[index as int];
      assert input[i..][1..] == input[i + 1..];
      crc := (crc >> 8) ^ table[index as int];
      i := i + 1;
    }
  }

  /** The table index a byte selects under a given register. */
  function Index(crc: bv32, byte: bv8): bv8 {
    ((crc & 0xff) as bv8) ^ byte
  }

  /** One table lookup does the work of eight bit steps. */
  lemma ByteStep(crc: bv32, byte: bv8)
    ensures Xor(crc >> 8, TableEntry(Index(crc, byte))) == BitSteps(Xor(crc, Wide(byte)), 8)
  {
    hide BitSteps;
    hide Xor;
    hide Wide;
    hide Index;
    var high := crc & 0xffff_ff00;
    SplitLowByte(crc, byte);
    StepsLinear(high, Wide(Index(crc, byte)), 8);
    HighBytesShift(high);
  }

  /** The same fact in the loop's own operators. */
  lemma LoopStep(crc: bv32, byte: bv8)
    ensures (crc >> 8) ^ TableEntry(((crc & 0xff) as bv8) ^ byte) == BitSteps(Xor(crc, Wide(byte)), 8)
  {
    hide BitSteps;
    hide TableEntry;
    hide Wide;
    ByteStep(crc, byte);
    XorIs(crc >> 8, TableEntry(Index(crc, byte)));
  }

  lemma SplitLowByte(crc: bv32, byte: bv8)
    ensures Xor(crc, Wide(byte)) == Xor(crc & 0xffff_ff00, Wide(Index(crc, byte)))
    ensures (crc & 0xffff_ff00) & 0xff == 0
    ensures (crc & 0xffff_ff00) >> 8 == crc >> 8
  {
  }

  lemma XorIs(a: bv32, b: bv32)
    ensures Xor(a, b) == a ^ b
  {
  }

  // ---------------------------------------------------------------- the step is linear

  /** The bit step is linear over exclusive or, and so is any run of them. */
  lemma {:induction false} StepsLinear(a: bv32, b: bv32, n: nat)
    ensures BitSteps(Xor(a, b), n) == Xor(BitSteps(a, n), BitSteps(b, n))
    decreases n
  {
    hide BitStep;
    hide Xor;
    if n > 0 {
      StepLinear(a, b);
      StepsLinear(BitStep(a), BitStep(b), n - 1);
    }
  }

  lemma StepLinear(a: bv32, b: bv32)
    ensures BitStep(Xor(a, b)) == Xor(BitStep(a), BitStep(b))
  {
    hide BitStep;
    LowBit(a);
    LowBit(b);
    if a & 1 == 0 {
      if b & 1 == 0 { StepLinearEvenEven(a, b); } else { StepLinearEvenOdd(a, b); }
    } else {
      if b & 1 == 0 { StepLinearEvenOdd(b, a); } else { StepLinearOddOdd(a, b); }
      XorCommutes(a, b);
    }
  }

  lemma LowBit(a: bv32)
    ensures a & 1 == 0 || a & 1 == 1
  {
  }

  lemma XorCommutes(a: bv32, b: bv32)
    ensures Xor(a, b) == Xor(b, a)
  {
  }

  lemma StepLinearEvenEven(a: bv32, b: bv32)
    requires a & 1 == 0 && b & 1 == 0
    ensures BitStep(Xor(a, b)) == Xor(BitStep(a), BitStep(b))
  {
  }

  lemma StepLinearEvenOdd(a: bv32, b: bv32)
    requires a & 1 == 0 && b & 1 == 1
    ensures BitStep(Xor(a, b)) == Xor(BitStep(a), BitStep(b)) == Xor(BitStep(b), BitStep(a))
  {
  }

  lemma StepLinearOddOdd(a: bv32, b: bv32)
    requires a & 1 == 1 && b & 1 == 1
    ensures BitStep(Xor(a, b)) == Xor(BitStep(a), BitStep(b))
  {
  }

  /** Eight steps merely shift a register whose low byte is clear. */
  lemma HighBytesShift(h: bv32)
    requires h & 0xff == 0
    ensures BitSteps(h, 8) == h >> 8
  {
  }

  // ---------------------------------------------------------------- the step is invertible

  lemma StepInjective(a: bv32, b: bv32)
    requires BitStep(a) == BitStep(b)
    ensures a == b
  {
    hide BitStep;
    LowBit(a);
    LowBit(b);
    if a & 1 == b & 1 {
      if a & 1 == 0 { StepInjectiveEven(a, b); } else { StepInjectiveOdd(a, b); }
    } else if a & 1 == 0 {
      StepSeparates(a, b);
    } else {
      StepSeparates(b, a);
    }
  }

  lemma StepInjectiveEven(a: bv32, b: bv32)
    requires a & 1 == 0 && b & 1 == 0 && BitStep(a) == BitStep(b)
    ensures a == b
  {
  }

  lemma StepInjectiveOdd(a: bv32, b: bv32)
    requires a & 1 == 1 && b & 1 == 1 && BitStep(a) == BitStep(b)
    ensures a == b
  {
  }

  /** The polynomial's top bit tells the two branches of a step apart. */
  lemma StepSeparates(even: bv32, odd: bv32)
    requires even & 1 == 0 && odd & 1 == 1
    ensures BitStep(even) != BitStep(odd)
  {
    assert BitStep(even) & 0x8000_0000 == 0;
    assert BitStep(odd) & 0x8000_0000 == 0x8000_0000;
  }

  lemma {:induction false} StepsInjective(a: bv32, b: bv32, n: nat)
    requires BitSteps(a, n) == BitSteps(b, n)
    ensures a == b
    decreases n
  {
    hide BitStep;
    if n > 0 {
      StepsInjective(BitStep(a), BitStep(b), n - 1);
      StepInjective(a, b);
    }
  }

  /** Feeding the same bytes keeps two registers apart. */
  lemma {:induction false} SuffixInjective(a: bv32, b: bv32, suffix: seq<bv8>)
    requires SerialFrom(a, suffix) == SerialFrom(b, suffix)
    ensures a == b
    decreases |suffix|
  {
    hide BitSteps;
    hide Xor;
    hide Wide;
    if suffix != [] {
      var w := Wide(suffix[0]);
      SuffixInjective(BitSteps(Xor(a, w), 8), BitSteps(Xor(b, w), 8), suffix[1..]);
      StepsInjective(Xor(a, w), Xor(b, w), 8);
      XorCancels(a, b, w);
    }
  }

  lemma XorCancels(a: bv32, b: bv32, w: bv32)
    requires Xor(a, w) == Xor(b, w)
    ensures a == b
  {
    assert Xor(Xor(a, w), w) == a && Xor(Xor(b, w), w) == b;
  }

  lemma {:induction false} SerialSplits(r: bv32, head: seq<bv8>, tail: seq<bv8>)
    ensures SerialFrom(r, head + tail) == SerialFrom(SerialFrom(r, head), tail)
    decreases |head|
  {
    hide BitSteps;
    hide Xor;
    hide Wide;
    if head == [] {
      assert head + tail == tail;
    } else {
      assert (head + tail)[1..] == head[1..] + tail;
      SerialSplits(BitSteps(Xor(r, Wide(head[0])), 8), head[1..], tail);
    }
  }

  // ---------------------------------------------------------------- bursts are detected

  /** Up to four bytes as one little-endian word. */
  function Word(bytes: seq<bv8>): bv32
    requires |bytes| <= 4
  {
    if bytes == [] then 0 else Join(bytes[0], Word(bytes[1..]))
  }

  function Join(low: bv8, high: bv32): bv32 {
    (low as bv32) ^ (high << 8)
  }

  lemma {:induction false} WordFits(bytes: seq<bv8>)
    requires |bytes| <= 3
    ensures Word(bytes) & 0xff00_0000 == 0
    ensures |bytes| <= 2 ==> Word(bytes) & 0xffff_0000 == 0
    ensures |bytes| <= 1 ==> Word(bytes) & 0xffff_ff00 == 0
    ensures |bytes| == 0 ==> Word(bytes) == 0
  {
    hide Join;
    if bytes != [] {
      WordFits(bytes[1..]);
      JoinFits(bytes[0], Word(bytes[1..]));
    }
  }

  lemma JoinFits(low: bv8, high: bv32)
    ensures high & 0xffff_0000 == 0 ==> Join(low, high) & 0xff00_0000 == 0
    ensures high & 0xffff_ff00 == 0 ==> Join(low, high) & 0xffff_0000 == 0
    ensures high == 0 ==> Join(low, high) & 0xffff_ff00 == 0
  {
  }

  lemma JoinInjective(a: bv8, x: bv32, b: bv8, y: bv32)
    requires x & 0xff00_0000 == 0 && y & 0xff00_0000 == 0
    requires Join(a, x) == Join(b, y)
    ensures a == b && x == y
  {
    hide Join;
    JoinSplits(a, x);
    JoinSplits(b, y);
  }

  lemma JoinSplits(low: bv8, high: bv32)
    requires high & 0xff00_0000 == 0
    ensures (Join(low, high) & 0xff) as bv8 == low && Join(low, high) >> 8 == high
  {
  }

  lemma {:induction false} WordInjective(a: seq<bv8>, b: seq<bv8>)
    requires |a| == |b| <= 4 && Word(a) == Word(b)
    ensures a == b
  {
    hide Join;
    if a != [] {
      WordFits(a[1..]);
      WordFits(b[1..]);
      JoinInjective(a[0], Word(a[1..]), b[0], Word(b[1..]));
      WordInjective(a[1..], b[1..]);
      assert a == [a[0]] + a[1..] && b == [b[0]] + b[1..];
    }
  }

  /** Feeding at most four bytes is folding their word in first and then running
      all the bit steps. */
  lemma {:induction false} WindowIsWord(r: bv32, bytes: seq<bv8>)
    requires |bytes| <= 4
    ensures SerialFrom(r, bytes) == BitSteps(Xor(r, Word(bytes)), 8 * |bytes|)
    decreases |bytes|
  {
    hide BitSteps;
    hide BitStep;
    hide Xor;
    hide Wide;
    hide Join;
    if bytes == [] {
      ZeroWord(r);
    } else {
      var rest := bytes[1..];
      var word := Word(rest);
      var fed := Xor(r, Wide(bytes[0]));
      WindowIsWord(BitSteps(fed, 8), rest);
      WordFits(rest);
      ByteThenWord(r, bytes[0], word);
      StepsCompose(Xor(r, Join(bytes[0], word)), 8, 8 * |rest|);
    }
  }

  lemma ZeroWord(r: bv32)
    ensures BitSteps(Xor(r, 0), 0) == r
  {
  }

  lemma ByteThenWord(r: bv32, byte: bv8, word: bv32)
    requires word & 0xff00_0000 == 0
    ensures Xor(BitSteps(Xor(r, Wide(byte)), 8), word) == BitSteps(Xor(r, Join(byte, word)), 8)
  {
    hide BitSteps;
    hide Xor;
    hide Wide;
    hide Join;
    var shifted := word << 8;
    ShiftedWord(word);
    JoinIsXor(r, byte, word);
    StepsLinear(Xor(r, Wide(byte)), shifted, 8);
    HighBytesShift(shifted);
  }

  lemma ShiftedWord(word: bv32)
    requires word & 0xff00_0000 == 0
    ensures (word << 8) & 0xff == 0 && (word << 8) >> 8 == word
  {
  }

  lemma JoinIsXor(r: bv32, byte: bv8, word: bv32)
    ensures Xor(r, Join(byte, word)) == Xor(Xor(r, Wide(byte)), word << 8)
  {
    JoinIs(byte, word);
    XorGroups(r, Wide(byte), word << 8);
    hide *;
  }

  lemma JoinIs(byte: bv8, word: bv32)
    ensures Join(byte, word) == Xor(Wide(byte), word << 8)
  {
  }

  lemma XorGroups(a: bv32, b: bv32, c: bv32)
    ensures Xor(a, Xor(b, c)) == Xor(Xor(a, b), c)
  {
  }

  lemma {:induction false} StepsCompose(r: bv32, m: nat, n: nat)
    ensures BitSteps(BitSteps(r, m), n) == BitSteps(r, m + n)
    decreases m
  {
    hide BitStep;
    if m > 0 {
      StepsCompose(BitStep(r), m - 1, n);
    }
  }

  /** Two different inputs of one length that differ only inside four consecutive
      bytes never have the same CRC. */
  lemma BurstDetected(a: seq<bv8>, b: seq<bv8>, start: nat)
    requires |a| == |b| && a != b
    requires forall i :: 0 <= i < |a| && !(start <= i < start + 4) ==> a[i] == b[i]
    ensures Serial(a) != Serial(b)
  {
    hide BitSteps;
    hide Xor;
    var lo := if start < |a| then start else |a|;
    var hi := if start + 4 < |a| then start + 4 else |a|;
    var p, s := a[..lo], a[hi..];
    assert b[..lo] == p && b[hi..] == s;
    var x, y := a[lo..hi], b[lo..hi];
    assert a == p + (x + s) && b == p + (y + s);
    var r := SerialFrom(INITIAL, p);
    SerialSplits(INITIAL, p, x + s);
    SerialSplits(INITIAL, p, y + s);
    SerialSplits(r, x, s);
    SerialSplits(r, y, s);
    if Serial(a) == Serial(b) {
      SuffixInjective(SerialFrom(r, x), SerialFrom(r, y), s);
      WindowIsWord(r, x);
      WindowIsWord(r, y);
      StepsInjective(Xor(r, Word(x)), Xor(r, Word(y)), 8 * |x|);
      XorCommutes(r, Word(x));
      XorCommutes(r, Word(y));
      XorCancels(Word(x), Word(y), r);
      WordInjective(x, y);
    }
  }

  // ---------------------------------------------------------------- known values

  /** One byte fed into the register. */
  function Fold(r: bv32, byte: bv8): bv32 {
    BitSteps(Xor(r, Wide(byte)), 8)
  }

  lemma Fed(r: bv32, input: seq<bv8>, k: nat, next: bv32)
    requires k < |input| && Fold(r, input[k]) == next
    ensures SerialFrom(r, input[k..]) == SerialFrom(next, input[k + 1..])
  {
    hide BitSteps;
    assert input[k..][1..] == input[k + 1..];
  }

  lemma AllFed(r: bv32, input: seq<bv8>)
    ensures SerialFrom(r, input[|input|..]) == r && input[0..] == input
  {
  }

  lemma KnownEntries()
    ensures TableEntry(0) == 0 && TableEntry(1) == 0x7707_3096 && TableEntry(0xff) == 0x2d02_ef8d
  {
  }

  const DIGITS: seq<bv8> := [0x31, 0x32, 0x33, 0x34, 0x35, 0x36, 0x37, 0x38, 0x39]

  lemma Digit1()
    ensures Fold(0xffff_ffff, 0x31) == 0x7c23_1048
    ensures Fold(0x7c23_1048, 0x32) == 0xb0ac_bb32
  {
  }

  lemma Digit2()
    ensures Fold(0xb0ac_bb32, 0x33) == 0x77b7_9c2d
    ensures Fold(0x77b7_9c2d, 0x34) == 0x641c_1f5c
  {
  }

  lemma Digit3()
    ensures Fold(0x641c_1f5c, 0x35) == 0x340a_c5e3
    ensures Fold(0x340a_c5e3, 0x36) == 0xf68d_2c9e
  {
  }

  lemma Digit4()
    ensures Fold(0xf68d_2c9e, 0x37) == 0xaffc_9660
    ensures Fold(0xaffc_9660, 0x38) == 0x651f_2550
  {
  }

  lemma Digit5()
    ensures Fold(0x651f_2550, 0x39) == 0x340b_c6d9
  {
  }

  /** The check value of the standard CRC-32, here finally inverted. */
  lemma CheckValue()
    ensures Serial([0x31, 0x32, 0x33, 0x34, 0x35, 0x36, 0x37, 0x38, 0x39]) ^ 0xffff_ffff == 0xcbf4_3926
  {
    DigitsFed();
  }

  lemma DigitsFed()
    ensures Serial(DIGITS) == 0x340b_c6d9
  {
    hide Fold; hide SerialFrom;
    AllFed(INITIAL, DIGITS);
    Digit1();
    Digit2();
    Digit3();
    Digit4();
    Digit5();
    Fed(0xffff_ffff, DIGITS, 0, 0x7c23_1048);
    Fed(0x7c23_1048, DIGITS, 1, 0xb0ac_bb32);
    Fed(0xb0ac_bb32, DIGITS, 2, 0x77b7_9c2d);
    Fed(0x77b7_9c2d, DIGITS, 3, 0x641c_1f5c);
    Fed(0x641c_1f5c, DIGITS, 4, 0x340a_c5e3);
    Fed(0x340a_c5e3, DIGITS, 5, 0xf68d_2c9e);
    Fed(0xf68d_2c9e, DIGITS, 6, 0xaffc_9660);
    Fed(0xaffc_9660, DIGITS, 7, 0x651f_2550);
    Fed(0x651f_2550, DIGITS, 8, 0x340b_c6d9);
    AllFed(0x340b_c6d9, DIGITS);
  }

  lemma Letter1()
    ensures Fold(0xffff_ffff, 0x70) == 0x7df8_614e
    ensures Fold(0x7df8_614e, 0x61) == 0xabac_c538
  {
  }

  lemma Letter2()
    ensures Fold(0xabac_c538, 0x73) == 0xe1a5_34dd
    ensures Fold(0xe1a5_34dd, 0x73) == 0x318f_2bdb
  {
  }

  lemma Letter3()
    ensures Fold(0x318f_2bdb, 0x77) == 0xdf51_60e8
    ensures Fold(0xdf51_60e8, 0x6f) == 0x7303_47e3
  {
  }

  lemma Letter4()
    ensures Fold(0x7303_47e3, 0x72) == 0x877b_a095
    ensures Fold(0x877b_a095, 0x64) == 0xca3d_b92a
  {
  }

  /** The raw value of "password". */
  lemma PasswordValue()
    ensures Serial([0x70, 0x61, 0x73, 0x73, 0x77, 0x6f, 0x72, 0x64]) == 0xca3d_b92a
  {
    hide Fold; hide SerialFrom;
    var input: seq<bv8> := [0x70, 0x61, 0x73, 0x73, 0x77, 0x6f, 0x72, 0x64];
    AllFed(INITIAL, input);
    Letter1();
    Letter2();
    Letter3();
    Letter4();
    Fed(0xffff_ffff, input, 0, 0x7df8_614e);
    Fed(0x7df8_614e, input, 1, 0xabac_c538);
    Fed(0xabac_c538, input, 2, 0xe1a5_34dd);
    Fed(0xe1a5_34dd, input, 3, 0x318f_2bdb);
    Fed(0x318f_2bdb, input, 4, 0xdf51_60e8);
    Fed(0xdf51_60e8, input, 5, 0x7303_47e3);
    Fed(0x7303_47e3, input, 6, 0x877b_a095);
    Fed(0x877b_a095, input, 7, 0xca3d_b92a);
    AllFed(0xca3d_b92a, input);
  }
}
