/** The RAR 1.5 stream cipher (rar15.rs): a keystream of masks drawn from four
    16-bit key words, XORed over the data in place. */
module Rar15 {
  import Crc32
  import Password

  datatype Key = Key(w0: bv16, w1: bv16, w2: bv16, w3: bv16)

  function Low16(w: bv32): bv16 { (w & 0xffff) as bv16 }
  function High16(w: bv32): bv16 { (w >> 16) as bv16 }

  // ---------------------------------------------------------------- the key schedule

  /** What is left of a password before its first zero byte. */
  function CString(s: seq<bv8>): seq<bv8> {
    if s == [] || s[0] == 0 then [] else [s[0]] + CString(s[1..])
  }

  /** The bytes of the password that reach the key. */
  function EffectivePassword(password: seq<bv8>): seq<bv8> {
    CString(Password.ClampPassword(password))
  }

  function AbsorbByte(key: Key, byte: bv8): Key {
    var crc := Crc32.TableEntry(byte);
    key.(w2 := key.w2 ^ ((byte as bv16) ^ Low16(crc)),
         w3 := key.w3 + ((byte as bv16) + High16(crc)))
  }

  function Absorb(key: Key, bytes: seq<bv8>): Key
    decreases |bytes|
  {
    if bytes == [] then key else Absorb(AbsorbByte(key, bytes[0]), bytes[1..])
  }

  function KeyFor(password: seq<bv8>): Key {
    var bytes := EffectivePassword(password);
    var crc := Crc32.Serial(bytes);
    Absorb(Key(Low16(crc), High16(crc), 0, 0), bytes)
  }

  // ---------------------------------------------------------------- the keystream

  function Bump(w: bv16): bv16 { w + 0x1234 }
  function Index(w: bv16): bv8 { ((w & 0x01fe) >> 1) as bv8 }
  function Minus(a: bv16, b: bv16): bv16 { a - b }
  function Xor16(a: bv16, b: bv16): bv16 { a ^ b }
  function Turn(w: bv16): bv16 { w.RotateRight(1) }
  function High8(w: bv16): bv8 { (w >> 8) as bv8 }

  /** One step of the key words; each new word draws on the ones before it. */
  function Advance(key: Key): Key {
    var k0 := Bump(key.w0);
    var crc := Crc32.TableEntry(Index(k0));
    var k1 := Xor16(key.w1, Low16(crc));
    var k2 := Minus(key.w2, High16(crc));
    var k3 := Turn(Xor16(Turn(key.w3), k1));
    Key(Xor16(Xor16(k0, k2), k3), k1, k2, k3)
  }

  function AdvanceBy(key: Key, n: nat): Key
    decreases n
  {
    if n == 0 then key else AdvanceBy(Advance(key), n - 1)
  }

  /** The mask drawn by a step is the high byte of the first new word. */
  function Mask(key: Key): bv8 { High8(Advance(key).w0) }

  function Xor(a: bv8, b: bv8): bv8 { a ^ b }

  function Crypted(key: Key, data: seq<bv8>): (r: seq<bv8>)
    ensures |r| == |data|
    decreases |data|
  {
    if data == [] then [] else [Xor(data[0], Mask(key))] + Crypted(Advance(key), data[1..])
  }

  class Rar15Cipher {
    var key: Key

    constructor (password: seq<bv8>)
      ensures key == KeyFor(password)
    {
      hide AbsorbByte; hide Low16; hide High16;
      var bytes := EffectivePassword(password);
      var crc := Crc32.Serial(bytes);
      var k := Key(Low16(crc), High16(crc), 0, 0);
      var i := 0;
      while i < |bytes|
        invariant 0 <= i <= |bytes|
        invariant Absorb(k, bytes[i..]) == KeyFor(password)
      {
        k := AbsorbByte(k, bytes[i]);
        assert bytes[i..][1..] == bytes[i + 1..];
        i := i + 1;
      }
      key := k;
    }

    method NextMask() returns (mask: bv8)
      modifies this
      ensures mask == Mask(old(key)) && key == Advance(old(key))
    {
      hide Crc32.TableEntry; hide Low16; hide High16; hide High8;
      hide Bump; hide Index; hide Minus; hide Xor16; hide Turn;
      key := key.(w0 := Bump(key.w0));
      var crc := Crc32.TableEntry(Index(key.w0));
      key := key.(w1 := Xor16(key.w1, Low16(crc)));
      key := key.(w2 := Minus(key.w2, High16(crc)));
      key := key.(w0 := Xor16(key.w0, key.w2));
      key := key.(w3 := Xor16(Turn(key.w3), key.w1));
      key := key.(w3 := Turn(key.w3));
      key := key.(w0 := Xor16(key.w0, key.w3));
      mask := High8(key.w0);
    }

    method CryptInPlace(data: array<bv8>)
      modifies this, data
      ensures data[..] == Crypted(old(key), old(data[..]))
      ensures key == AdvanceBy(old(key), data.Length)
    {
      hide Advance; hide Mask; hide Xor; hide Crypted; hide AdvanceBy;
      ghost var all := data[..];
      CryptedNothing(key, all);
      var i := 0;
      while i < data.Length
        invariant 0 <= i <= data.Length
        invariant data[i..] == all[i..]
        invariant data[..i] + Crypted(key, all[i..]) == Crypted(old(key), all)
        invariant AdvanceBy(key, data.Length - i) == AdvanceBy(old(key), data.Length)
      {
        CryptedNext(key, all, i, data[..i], data.Length - i);
        assert data[i] == all[i..][0];
        ghost var done := data[..i];
        var mask := NextMask();
        data[i] := XorByte(data[i], mask);
        assert data[..i + 1] == done + [data[i]];
        assert data[i + 1..] == all[i + 1..];
        i := i + 1;
      }
      assert data[..i] == data[..] && all[i..] == [];
      CryptedNothing(key, data[..]);
    }

    method Skip(n: nat)
      modifies this
      ensures key == AdvanceBy(old(key), n)
    {
      hide Advance; hide Mask;
      var i := 0;
      while i < n
        invariant 0 <= i <= n
        invariant AdvanceBy(key, n - i) == AdvanceBy(old(key), n)
      {
        var mask := NextMask();
        i := i + 1;
      }
    }
  }

  lemma CryptedNothing(key: Key, all: seq<bv8>)
    ensures all[..0] + Crypted(key, all[0..]) == Crypted(key, all)
    ensures all + Crypted(key, []) == all && AdvanceBy(key, 0) == key
  {
    assert all[0..] == all;
  }

  lemma CryptedNext(key: Key, all: seq<bv8>, i: nat, done: seq<bv8>, left: nat)
    requires i < |all| && left > 0
    ensures done + Crypted(key, all[i..]) == done + [Xor(all[i], Mask(key))] + Crypted(Advance(key), all[i + 1..])
    ensures AdvanceBy(key, left) == AdvanceBy(Advance(key), left - 1)
  {
    hide Xor; hide Mask; hide Advance;
    assert all[i..][1..] == all[i + 1..];
  }

  function XorByte(a: bv8, b: bv8): (r: bv8)
    ensures r == Xor(a, b)
  {
    a ^ b
  }

  // ---------------------------------------------------------------- properties of the keystream

  lemma XorTwice(a: bv8, b: bv8)
    ensures Xor(Xor(a, b), b) == a
  {
  }

  /** Crypting twice under the same key gives the data back. */
  lemma {:induction false} CryptedTwice(key: Key, data: seq<bv8>)
    ensures Crypted(key, Crypted(key, data)) == data
    decreases |data|
  {
    hide Advance; hide Mask; hide Xor;
    if data != [] {
      CryptedTwice(Advance(key), data[1..]);
      XorTwice(data[0], Mask(key));
      assert Crypted(key, data)[1..] == Crypted(Advance(key), data[1..]);
      assert data == [data[0]] + data[1..];
    }
  }

  /** Skipping `n` masks and crypting the rest yields exactly the suffix of crypting
      everything, and the key ends up the same. */
  lemma {:induction false} SkipThenCrypt(key: Key, data: seq<bv8>, n: nat)
    requires n <= |data|
    ensures Crypted(AdvanceBy(key, n), data[n..]) == Crypted(key, data)[n..]
    ensures AdvanceBy(AdvanceBy(key, n), |data| - n) == AdvanceBy(key, |data|)
    decreases n
  {
    hide Advance; hide Mask; hide Xor;
    if n == 0 {
      assert data[0..] == data;
    } else {
      SkipThenCrypt(Advance(key), data[1..], n - 1);
      assert data[1..][n - 1..] == data[n..];
      assert Crypted(key, data)[n..] == Crypted(Advance(key), data[1..])[n - 1..];
    }
  }

  // ---------------------------------------------------------------- the password as a C string

  lemma {:induction false} CStringCuts(p: seq<bv8>, q: seq<bv8>)
    requires 0 !in p
    ensures CString(p + [0] + q) == p && CString(p) == p
  {
    if p != [] {
      assert (p + [0] + q)[1..] == p[1..] + [0] + q;
      CStringCuts(p[1..], q);
    }
  }

  lemma CharsFirst(s: seq<bv8>)
    ensures s == [] ==> Password.Chars(s).Some? && Password.Chars(s).value == []
    ensures s != [] ==>
              var n := Password.CharLength(s);
              if n == 0 then Password.Chars(s).None?
              else
                && Password.Chars(s).Some? == Password.Chars(s[n..]).Some?
                && (Password.Chars(s).Some? ==>
                      Password.Chars(s).value == [s[..n]] + Password.Chars(s[n..]).value)
  {
    hide Password.CharLength;
  }

  lemma {:induction false} CharsAppend(a: seq<bv8>, b: seq<bv8>)
    requires Password.Chars(a).Some?
    ensures Password.Chars(a + b).Some? == Password.Chars(b).Some?
    ensures Password.Chars(b).Some? ==>
              Password.Chars(a + b).value == Password.Chars(a).value + Password.Chars(b).value
    decreases |a|
  {
    hide Password.CharLength; hide Password.Chars;
    CharsFirst(a);
    if a == [] {
      assert a + b == b;
    } else {
      var n := Password.CharLength(a);
      Password.CharLengthLocal(a, b);
      CharsFirst(a + b);
      assert (a + b)[n..] == a[n..] + b && (a + b)[..n] == a[..n];
      CharsAppend(a[n..], b);
    }
  }

  lemma {:induction false} IllFormedStays(a: seq<bv8>, q: seq<bv8>)
    requires Password.Chars(a).None?
    ensures Password.Chars(a + [0] + q).None?
    decreases |a|
  {
    var n := Password.CharLength(a);
    if n > 0 {
      Password.CharLengthLocal(a, [0] + q);
      assert a + [0] + q == a + ([0] + q);
      assert (a + [0] + q)[n..] == a[n..] + [0] + q;
      IllFormedStays(a[n..], q);
    }
  }

  lemma ZeroIsChar(q: seq<bv8>)
    ensures Password.Chars([0] + q).Some? == Password.Chars(q).Some?
    ensures Password.Chars(q).Some? ==> Password.Chars([0] + q).value == [[0]] + Password.Chars(q).value
  {
    assert ([0] + q)[1..] == q && ([0] + q)[..1] == [0];
  }

  /** Exactly when a password is the C string it promises to be: what follows its
      first zero byte is ignored unless those bytes make an otherwise well-formed
      password ill-formed, which switches the 127 limit from characters to bytes,
      and the part before the zero, clamped, is longer than 127 bytes. */
  lemma PasswordIsCString(p: seq<bv8>, q: seq<bv8>)
    requires 0 !in p
    ensures EffectivePassword(p + [0] + q) == EffectivePassword(p)
       <==> (Password.Chars(p).None? || Password.Chars(q).Some?
             || |Password.ClampPassword(p)| <= Password.MAX_PASSWORD_CHARS)
  {
    hide Password.Chars; hide Password.ClampPassword; hide EffectivePassword;
    EffectiveParts(p, q);
    if Password.Chars(p).None? {
      IllFormedPart(p, q);
    } else if Password.Chars(q).Some? {
      WholeClamp(p, q);
    } else {
      IllFormedTail(p, q);
    }
  }

  /** `n` times the two bytes of one character. */
  function TwoByteChars(n: nat): (s: seq<bv8>)
    ensures |s| == 2 * n
  {
    if n == 0 then [] else [0xc3, 0xa9] + TwoByteChars(n - 1)
  }

  lemma {:induction false} TwoByteCharsAre(n: nat)
    ensures Password.Chars(TwoByteChars(n)).Some? && |Password.Chars(TwoByteChars(n)).value| == n
    ensures 0 !in TwoByteChars(n)
  {
    if n > 0 {
      TwoByteCharsAre(n - 1);
      var s := TwoByteChars(n);
      assert s[..2] == [0xc3, 0xa9] && s[2..] == TwoByteChars(n - 1);
      assert Password.CharLength(s) == 2;
    }
  }

  /** A password whose bytes behind the zero do matter: 127 two-byte characters, the
      zero, and one byte that is no UTF-8. */
  lemma TailMatters()
    ensures EffectivePassword(TwoByteChars(127) + [0] + [0xff]) != EffectivePassword(TwoByteChars(127))
  {
    hide EffectivePassword; hide TwoByteChars;
    TwoByteCharsAre(127);
    Password.ClampKeepsPrefix(TwoByteChars(127));
    NoChar();
    PasswordIsCString(TwoByteChars(127), [0xff]);
  }

  lemma NoChar()
    ensures Password.Chars([0xff]).None?
  {
  }

  /** Both sides, as clamps. */
  lemma EffectiveParts(p: seq<bv8>, q: seq<bv8>)
    requires 0 !in p
    ensures EffectivePassword(p) == Password.ClampPassword(p)
    ensures var w := Password.ClampPassword(p + [0] + q);
            EffectivePassword(p + [0] + q) == (if |w| > |p| then p else w)
    ensures Password.ClampPassword(p) <= p && Password.ClampPassword(p + [0] + q) <= p + [0] + q
  {
    hide Password.Chars; hide Password.ClampPassword;
    var whole := p + [0] + q;
    var w := Password.ClampPassword(whole);
    Password.ClampKeepsPrefix(p);
    Password.ClampKeepsPrefix(whole);
    NoZeroPrefix(p, Password.ClampPassword(p));
    if |w| > |p| {
      assert w == whole[..|w|] == p + [0] + w[|p| + 1..];
      CStringCuts(p, w[|p| + 1..]);
    } else {
      assert w == whole[..|w|] == p[..|w|];
      NoZeroPrefix(p, w);
    }
  }

  /** An ill-formed part: both passwords are clamped by bytes. */
  lemma IllFormedPart(p: seq<bv8>, q: seq<bv8>)
    requires Password.Chars(p).None?
    ensures var w := Password.ClampPassword(p + [0] + q);
            Password.ClampPassword(p) == if |w| > |p| then p else w
  {
    hide Password.Chars;
    IllFormedStays(p, q);
  }

  /** A well-formed part before an ill-formed tail: characters against bytes. */
  lemma IllFormedTail(p: seq<bv8>, q: seq<bv8>)
    requires Password.Chars(p).Some? && Password.Chars(q).None?
    ensures var w := Password.ClampPassword(p + [0] + q);
            Password.ClampPassword(p) == (if |w| > |p| then p else w)
            <==> |Password.ClampPassword(p)| <= Password.MAX_PASSWORD_CHARS
  {
    hide Password.Chars; hide Password.CharLength;
    var whole := p + [0] + q;
    assert whole == p + ([0] + q);
    ZeroIsChar(q);
    CharsAppend(p, [0] + q);
    var clamped := Password.ClampPassword(p);
    var chars := Password.Chars(p).value;
    Password.ClampKeepsPrefix(p);
    Password.CharsAreChars(p);
    Password.JoinSplits(chars);
    if |chars| > 127 {
      Password.JoinSplits(chars[..127]);
      assert clamped == p[..|clamped|];
    }
  }

  /** A prefix of a zero-free string is its own C string. */
  lemma NoZeroPrefix(p: seq<bv8>, prefix: seq<bv8>)
    requires 0 !in p && prefix <= p
    ensures CString(prefix) == prefix
  {
    CStringCuts(prefix, []);
  }

  /** Both well-formed: the whole is clamped to the same characters. */
  lemma WholeClamp(p: seq<bv8>, q: seq<bv8>)
    requires Password.Chars(p).Some? && Password.Chars(q).Some?
    ensures var w := Password.ClampPassword(p + [0] + q);
            Password.ClampPassword(p) == if |w| > |p| then p else w
  {
    hide Password.Chars; hide Password.CharLength; hide Password.Join;
    var whole := p + [0] + q;
    assert whole == p + ([0] + q);
    ZeroIsChar(q);
    CharsAppend(p, [0] + q);
    Password.CharsAreChars(p);
    Password.CharsAreChars(whole);
    var chars, all := Password.Chars(p).value, Password.Chars(whole).value;
    if |chars| >= 127 {
      assert all[..127] == chars[..127];
      assert |chars| == 127 ==> chars[..127] == chars;
      Password.JoinPrefix(chars, 127);
    } else {
      JoinAppend(chars, [[0]]);
      JoinOne();
      assert chars + [[0]] == all[..|chars| + 1];
      if |all| > 127 {
        assert all[..127][..|chars| + 1] == all[..|chars| + 1];
        Password.JoinPrefix(all[..127], |chars| + 1);
      }
    }
  }

  lemma JoinOne()
    ensures Password.Join([[0]]) == [0]
  {
  }

  lemma {:induction false} JoinAppend(a: seq<seq<bv8>>, b: seq<seq<bv8>>)
    ensures Password.Join(a + b) == Password.Join(a) + Password.Join(b)
  {
    if a == [] {
      assert a + b == b;
    } else {
      assert (a + b)[1..] == a[1..] + b;
      JoinAppend(a[1..], b);
    }
  }

  // ---------------------------------------------------------------- a known stream

  const PASSWORD: seq<bv8> := [0x70, 0x61, 0x73, 0x73, 0x77, 0x6f, 0x72, 0x64]
  const GREETING: seq<bv8> := [0x68, 0x65, 0x6c, 0x6c, 0x6f, 0x20, 0x77, 0x6f, 0x72, 0x6c, 0x64]

  lemma Absorbed(key: Key, bytes: seq<bv8>, i: nat, next: Key)
    requires i < |bytes| && AbsorbByte(key, bytes[i]) == next
    ensures Absorb(key, bytes[i..]) == Absorb(next, bytes[i + 1..])
  {
    hide AbsorbByte;
    assert bytes[i..][1..] == bytes[i + 1..];
  }

  lemma AbsorbsNothing(key: Key, bytes: seq<bv8>)
    ensures Absorb(key, bytes[|bytes|..]) == key && bytes[0..] == bytes
  {
  }

  /** The key words of "password". */
  lemma KnownKey()
    ensures KeyFor(PASSWORD) == Key(0xb92a, 0xca3d, 0x0dea, 0xd49d)
  {
    hide Absorb; hide Crc32.Serial; hide EffectivePassword;
    WholePassword();
    Crc32.PasswordValue();
    AbsorbsNothing(Key(0xb92a, 0xca3d, 0x0000, 0x0000), PASSWORD);
    Absorbed(Key(0xb92a, 0xca3d, 0x0000, 0x0000), PASSWORD, 0, Key(0xb92a, 0xca3d, 0x714c, 0x5075));
    Absorbed(Key(0xb92a, 0xca3d, 0x714c, 0x5075), PASSWORD, 1, Key(0xb92a, 0xca3d, 0x20e3, 0x8b8b));
    Absorbed(Key(0xb92a, 0xca3d, 0x20e3, 0x8b8b), PASSWORD, 2, Key(0xb92a, 0xca3d, 0x0016, 0x550a));
    Absorbed(Key(0xb92a, 0xca3d, 0x0016, 0x550a), PASSWORD, 3, Key(0xb92a, 0xca3d, 0x20e3, 0x1e89));
    Absorbed(Key(0xb92a, 0xca3d, 0x20e3, 0x1e89), PASSWORD, 4, Key(0xb92a, 0xca3d, 0xc40b, 0xed61));
    Absorbed(Key(0xb92a, 0xca3d, 0xc40b, 0xed61), PASSWORD, 5, Key(0xb92a, 0xca3d, 0xb8ad, 0xcadd));
    Absorbed(Key(0xb92a, 0xca3d, 0xb8ad, 0xcadd), PASSWORD, 6, Key(0xb92a, 0xca3d, 0xa8cf, 0x895a));
    Absorbed(Key(0xb92a, 0xca3d, 0xa8cf, 0x895a), PASSWORD, 7, Key(0xb92a, 0xca3d, 0x0dea, 0xd49d));
    AbsorbsNothing(Key(0xb92a, 0xca3d, 0x0dea, 0xd49d), PASSWORD);
  }

  lemma WholePassword()
    ensures EffectivePassword(PASSWORD) == PASSWORD
  {
    Password.ClampKeepsPrefix(PASSWORD);
    CStringCuts(PASSWORD, []);
  }

  lemma KnownByte(key: Key, data: seq<bv8>, i: nat, next: Key, byte: bv8)
    requires i < |data| && Advance(key) == next && Xor(data[i], High8(next.w0)) == byte
    ensures Crypted(key, data[i..]) == [byte] + Crypted(next, data[i + 1..])
  {
    hide Advance; hide Xor; hide High8;
    assert data[i..][1..] == data[i + 1..];
  }

  lemma FirstBytes(key: Key)
    requires key == Key(0xb92a, 0xca3d, 0x0dea, 0xd49d)
    ensures Crypted(key, GREETING) == [0x2b, 0xb9, 0xf3, 0x9c] + Crypted(Key(0xf06e, 0xf1b9, 0xb590, 0xf7e9), GREETING[4..])
  {
    hide Crypted;
    CryptedNothing(key, GREETING);
    KnownByte(Key(0xb92a, 0xca3d, 0x0dea, 0xd49d), GREETING, 0, Key(0x43da, 0x7444, 0xc781, 0x4f05), 0x2b);
    KnownByte(Key(0x43da, 0x7444, 0xc781, 0x4f05), GREETING, 1, Key(0xdc21, 0xe1e7, 0x291d, 0xa332), 0xb9);
    KnownByte(Key(0xdc21, 0xe1e7, 0x291d, 0xa332), GREETING, 2, Key(0x9fe3, 0x2831, 0x4d62, 0x3cd4), 0xf3);
    KnownByte(Key(0x9fe3, 0x2831, 0x4d62, 0x3cd4), GREETING, 3, Key(0xf06e, 0xf1b9, 0xb590, 0xf7e9), 0x9c);
  }

  lemma NextBytes(key: Key)
    requires key == Key(0xf06e, 0xf1b9, 0xb590, 0xf7e9)
    ensures Crypted(key, GREETING[4..]) == [0x41, 0xa6, 0xaa, 0xe7] + Crypted(Key(0x8873, 0x7444, 0xe0a7, 0x98d0), GREETING[8..])
  {
    hide Crypted;
    KnownByte(Key(0xf06e, 0xf1b9, 0xb590, 0xf7e9), GREETING, 4, Key(0x2e11, 0x90db, 0x9924, 0xb597), 0x41);
    KnownByte(Key(0x2e11, 0x90db, 0x9924, 0xb597), GREETING, 5, Key(0x867b, 0xd13f, 0xc3c4, 0x05fa), 0xa6);
    KnownByte(Key(0x867b, 0xd13f, 0xc3c4, 0x05fa), GREETING, 6, Key(0xddd0, 0x1568, 0xceb5, 0x8bca), 0xaa);
    KnownByte(Key(0xddd0, 0x1568, 0xceb5, 0x8bca), GREETING, 7, Key(0x8873, 0x7444, 0xe0a7, 0x98d0), 0xe7);
  }

  /** "hello world" under "password". */
  lemma KnownStream()
    ensures Crypted(KeyFor(PASSWORD), GREETING) == [0x2b, 0xb9, 0xf3, 0x9c, 0x41, 0xa6, 0xaa, 0xe7, 0x1a, 0x7a, 0x7b]
  {
    hide Crypted; hide KeyFor;
    KnownKey();
    FirstBytes(Key(0xb92a, 0xca3d, 0x0dea, 0xd49d));
    NextBytes(Key(0xf06e, 0xf1b9, 0xb590, 0xf7e9));
    KnownByte(Key(0x8873, 0x7444, 0xe0a7, 0x98d0), GREETING, 8, Key(0x68d3, 0x740a, 0xee45, 0x1c31), 0x1a);
    KnownByte(Key(0x68d3, 0x740a, 0xee45, 0x1c31), GREETING, 9, Key(0x16d7, 0xa690, 0x7994, 0x1444), 0x7a);
    KnownByte(Key(0x16d7, 0xa690, 0x7994, 0x1444), GREETING, 10, Key(0x1f47, 0xd13f, 0xdbc2, 0xed8e), 0x7b);
    CryptedNothing(Key(0x1f47, 0xd13f, 0xdbc2, 0xed8e), GREETING);
    assert GREETING[11..] == [];
  }
}
