/** The password as the key derivations see it (crypto/mod.rs): clamped to 127
    characters, where a character is a Unicode scalar of a UTF-8 password and a
    byte of any other. */
module Password {
  import opened Options

  const MAX_PASSWORD_CHARS: nat := 127

  predicate Continuation(b: bv8) { 0x80 <= b <= 0xbf }

  /** How many bytes the UTF-8 character at the head of `s` takes; 0 when `s` does
      not start with a well-formed one (table 3-7 of the Unicode Standard). */
  function CharLength(s: seq<bv8>): (n: nat)
    requires s != []
    ensures n <= 4 && n <= |s|
  {
    var b := s[0];
    if b <= 0x7f then 1
    else if 0xc2 <= b <= 0xdf then
      if |s| >= 2 && Continuation(s[1]) then 2 else 0
    else if 0xe0 <= b <= 0xef then
      if |s| >= 3 && Continuation(s[1]) && Continuation(s[2])
         && (b == 0xe0 ==> 0xa0 <= s[1]) && (b == 0xed ==> s[1] <= 0x9f) then 3 else 0
    else if 0xf0 <= b <= 0xf4 then
      if |s| >= 4 && Continuation(s[1]) && Continuation(s[2]) && Continuation(s[3])
         && (b == 0xf0 ==> 0x90 <= s[1]) && (b == 0xf4 ==> s[1] <= 0x8f) then 4 else 0
    else 0
  }

  /** The characters of a well-formed UTF-8 string, each as its own bytes. */
  function Chars(s: seq<bv8>): Option<seq<seq<bv8>>>
    decreases |s|
  {
    if s == [] then Some([])
    else
      var n := CharLength(s);
      if n == 0 then None
      else match Chars(s[n..])
        case None => None
        case Some(rest) => Some([s[..n]] + rest)
  }

  function Join(chars: seq<seq<bv8>>): seq<bv8> {
    if chars == [] then [] else chars[0] + Join(chars[1..])
  }

  function ClampPassword(password: seq<bv8>): seq<bv8> {
    match Chars(password)
    case Some(chars) =>
      if |chars| > MAX_PASSWORD_CHARS then Join(chars[..MAX_PASSWORD_CHARS]) else password
    case None =>
      if |password| > MAX_PASSWORD_CHARS then password[..MAX_PASSWORD_CHARS] else password
  }

  // ---------------------------------------------------------------- characters

  /** Whether `c` is exactly one well-formed character. */
  predicate IsChar(c: seq<bv8>) {
    c != [] && CharLength(c) == |c|
  }

  /** `c` is the Unicode scalar `x` in UTF-8 (section 3 of RFC 3629). */
  ghost predicate Encodes(c: seq<bv8>, x: int) {
    && 0 <= x <= 0x10_ffff && !(0xd800 <= x <= 0xdfff)
    && if x < 0x80 then |c| == 1 && Plain(c[0]) == x
       else if x < 0x800 then |c| == 2 && Plain(c[0]) == 0xc0 + x / 0x40 && Plain(c[1]) == 0x80 + x % 0x40
       else if x < 0x1_0000 then
         |c| == 3 && Plain(c[0]) == 0xe0 + x / 0x1000 && Plain(c[1]) == 0x80 + x / 0x40 % 0x40
         && Plain(c[2]) == 0x80 + x % 0x40
       else
         |c| == 4 && Plain(c[0]) == 0xf0 + x / 0x4_0000 && Plain(c[1]) == 0x80 + x / 0x1000 % 0x40
         && Plain(c[2]) == 0x80 + x / 0x40 % 0x40 && Plain(c[3]) == 0x80 + x % 0x40
  }

  function Plain(b: bv8): int {
    b as int
  }

  /** The scalar that UTF-8 spells with the bytes of a character. */
  function Scalar(c: seq<bv8>): int
    requires 0 < |c| <= 4
  {
    if |c| == 1 then Plain(c[0])
    else if |c| == 2 then (Plain(c[0]) - 0xc0) * 0x40 + (Plain(c[1]) - 0x80)
    else if |c| == 3 then (Plain(c[0]) - 0xe0) * 0x1000 + (Plain(c[1]) - 0x80) * 0x40 + (Plain(c[2]) - 0x80)
    else
      (Plain(c[0]) - 0xf0) * 0x4_0000 + (Plain(c[1]) - 0x80) * 0x1000 + (Plain(c[2]) - 0x80) * 0x40 + (Plain(c[3]) - 0x80)
  }

  lemma PlainOrder(a: bv8, b: bv8)
    ensures a <= b <==> Plain(a) <= Plain(b)
    ensures 0 <= Plain(a) < 256
  {
  }

  /** The bounds of table 3-7 of the Unicode Standard, in numbers. */
  lemma CharInNumbers(c: seq<bv8>)
    requires 0 < |c| <= 4
    ensures IsChar(c) <==>
              if |c| == 1 then Plain(c[0]) <= 0x7f
              else if |c| == 2 then 0xc2 <= Plain(c[0]) <= 0xdf && Follows(c[1])
              else if |c| == 3 then
                0xe0 <= Plain(c[0]) <= 0xef && Follows(c[1]) && Follows(c[2])
                && (Plain(c[0]) == 0xe0 ==> 0xa0 <= Plain(c[1])) && (Plain(c[0]) == 0xed ==> Plain(c[1]) <= 0x9f)
              else
                0xf0 <= Plain(c[0]) <= 0xf4 && Follows(c[1]) && Follows(c[2]) && Follows(c[3])
                && (Plain(c[0]) == 0xf0 ==> 0x90 <= Plain(c[1])) && (Plain(c[0]) == 0xf4 ==> Plain(c[1]) <= 0x8f)
  {
  }

  predicate Follows(b: bv8) { 0x80 <= Plain(b) <= 0xbf }

  /** A number by its digits to the base 64, the first one of any size. */
  function Number(a: int, b: int, c: int, d: int): int {
    a * 0x4_0000 + b * 0x1000 + c * 0x40 + d
  }

  lemma Digits(a: int, b: int, c: int, d: int)
    requires 0 <= a && 0 <= b < 0x40 && 0 <= c < 0x40 && 0 <= d < 0x40
    ensures var x := Number(a, b, c, d);
            && x % 0x40 == d && x / 0x40 % 0x40 == c && x / 0x1000 % 0x40 == b && x / 0x4_0000 == a
            && (a == 0 ==> x / 0x1000 == b) && (a == 0 && b == 0 ==> x / 0x40 == c)
  {
    var x := Number(a, b, c, d);
    assert x == 0x40 * (a * 0x1000 + b * 0x40 + c) + d;
    assert x / 0x40 == a * 0x1000 + b * 0x40 + c;
    assert x / 0x1000 == a * 0x40 + b;
  }

  lemma Numbered(x: int)
    requires 0 <= x
    ensures x == Number(x / 0x4_0000, x / 0x1000 % 0x40, x / 0x40 % 0x40, x % 0x40)
    ensures x < 0x4_0000 ==> x / 0x1000 % 0x40 == x / 0x1000
    ensures x < 0x1000 ==> x / 0x40 % 0x40 == x / 0x40
  {
    assert x / 0x40 == 0x40 * (x / 0x1000) + x / 0x40 % 0x40;
    assert x / 0x1000 == 0x40 * (x / 0x4_0000) + x / 0x1000 % 0x40;
  }

  /** Every character is the encoding of its scalar .. */
  lemma CharEncodes(c: seq<bv8>)
    requires IsChar(c)
    ensures Encodes(c, Scalar(c))
  {
    hide IsChar; hide Plain; hide Encodes; hide Scalar;
    CharHasBytes(c);
    if |c| <= 2 {
      ShortEncodes(c);
    } else if |c| == 3 {
      ThreeEncode(c);
    } else {
      FourEncode(c);
    }
  }

  lemma ShortEncodes(c: seq<bv8>)
    requires IsChar(c) && |c| <= 2
    ensures Encodes(c, Scalar(c))
  {
    hide IsChar; hide Plain;
    CharHasBytes(c);
    CharInNumbers(c);
    if |c| == 2 {
      Digits(0, 0, Plain(c[0]) - 0xc0, Plain(c[1]) - 0x80);
    } else {
      PlainOrder(c[0], 0);
    }
  }

  lemma ThreeEncode(c: seq<bv8>)
    requires IsChar(c) && |c| == 3
    ensures Encodes(c, Scalar(c))
  {
    hide IsChar; hide Plain;
    CharInNumbers(c);
    Digits(0, Plain(c[0]) - 0xe0, Plain(c[1]) - 0x80, Plain(c[2]) - 0x80);
  }

  lemma FourEncode(c: seq<bv8>)
    requires IsChar(c) && |c| == 4
    ensures Encodes(c, Scalar(c))
  {
    hide IsChar; hide Plain;
    CharInNumbers(c);
    Digits(Plain(c[0]) - 0xf0, Plain(c[1]) - 0x80, Plain(c[2]) - 0x80, Plain(c[3]) - 0x80);
  }

  lemma CharHasBytes(c: seq<bv8>)
    requires IsChar(c)
    ensures 0 < |c| <= 4
  {
  }

  /** .. and every encoding of a scalar is a character. */
  lemma EncodedIsChar(c: seq<bv8>, x: int)
    requires Encodes(c, x)
    ensures IsChar(c) && Scalar(c) == x
  {
    hide IsChar; hide Plain; hide Number;
    Numbered(x);
    CharInNumbers(c);
    EncodedScalar(c, x);
  }

  lemma EncodedScalar(c: seq<bv8>, x: int)
    requires Encodes(c, x)
    ensures Scalar(c) == x
  {
    hide Plain; hide Scalar; hide Encodes;
    EncodedLength(c, x);
    if |c| == 2 {
      TwoDigits(x);
    } else if |c| == 3 {
      ThreeDigits(x);
    } else if |c| == 4 {
      FourDigits(x);
    }
    ScalarInDigits(c, x);
  }

  lemma EncodedLength(c: seq<bv8>, x: int)
    requires Encodes(c, x)
    ensures 0 <= x && |c| == if x < 0x80 then 1 else if x < 0x800 then 2 else if x < 0x1_0000 then 3 else 4
  {
  }

  lemma ScalarInDigits(c: seq<bv8>, x: int)
    requires Encodes(c, x)
    ensures 0 < |c| <= 4 && Scalar(c)
         == if |c| == 1 then x
            else if |c| == 2 then x / 0x40 * 0x40 + x % 0x40
            else if |c| == 3 then x / 0x1000 * 0x1000 + x / 0x40 % 0x40 * 0x40 + x % 0x40
            else x / 0x4_0000 * 0x4_0000 + x / 0x1000 % 0x40 * 0x1000 + x / 0x40 % 0x40 * 0x40 + x % 0x40
  {
    hide Plain;
  }

  lemma TwoDigits(x: int)
    ensures x / 0x40 * 0x40 + x % 0x40 == x
  {
  }

  lemma ThreeDigits(x: int)
    ensures x / 0x1000 * 0x1000 + x / 0x40 % 0x40 * 0x40 + x % 0x40 == x
  {
    assert x / 0x1000 == x / 0x40 / 0x40;
  }

  lemma FourDigits(x: int)
    ensures x / 0x4_0000 * 0x4_0000 + x / 0x1000 % 0x40 * 0x1000 + x / 0x40 % 0x40 * 0x40 + x % 0x40 == x
  {
    assert x / 0x1000 == x / 0x40 / 0x40 && x / 0x4_0000 == x / 0x1000 / 0x40;
  }

  lemma CharLengthLocal(c: seq<bv8>, rest: seq<bv8>)
    requires c != [] && 0 < CharLength(c)
    ensures CharLength(c + rest) == CharLength(c)
  {
  }

  lemma CharPrefix(s: seq<bv8>)
    requires s != [] && 0 < CharLength(s)
    ensures IsChar(s[..CharLength(s)])
  {
  }

  lemma {:induction false} CharsAreChars(s: seq<bv8>)
    requires Chars(s).Some?
    ensures Join(Chars(s).value) == s
    ensures forall c :: c in Chars(s).value ==> IsChar(c)
    decreases |s|
  {
    if s != [] {
      var n := CharLength(s);
      CharsAreChars(s[n..]);
      CharPrefix(s);
      assert s == s[..n] + s[n..];
    }
  }

  /** Joined characters split again at the same places. */
  lemma {:induction false} JoinSplits(chars: seq<seq<bv8>>)
    requires forall c :: c in chars ==> IsChar(c)
    ensures Chars(Join(chars)) == Some(chars)
    ensures |chars| <= |Join(chars)|
  {
    if chars != [] {
      var c, rest := chars[0], Join(chars[1..]);
      assert c in chars;
      JoinSplits(chars[1..]);
      CharLengthLocal(c, rest);
      assert (c + rest)[..|c|] == c && (c + rest)[|c|..] == rest;
      assert chars == [c] + chars[1..];
    }
  }

  lemma {:induction false} JoinPrefix(chars: seq<seq<bv8>>, n: nat)
    requires n <= |chars|
    ensures Join(chars[..n]) <= Join(chars)
  {
    if n > 0 {
      JoinPrefix(chars[1..], n - 1);
      assert chars[..n][1..] == chars[1..][..n - 1];
    }
  }

  // ---------------------------------------------------------------- what clamping keeps

  /** The clamped password is a prefix: of a well-formed one the first 127 characters, of
      any other the first 127 bytes, and all of it when there are no more than that.
      Clamping it again changes nothing. */
  lemma ClampKeepsPrefix(password: seq<bv8>)
    ensures ClampPassword(password) <= password
    ensures Chars(password).Some? ==>
              var chars := Chars(password).value;
              Chars(ClampPassword(password)) == Some(if |chars| <= 127 then chars else chars[..127])
    ensures Chars(password).None? ==>
              ClampPassword(password) == if |password| <= 127 then password else password[..127]
    ensures |password| <= 127 || (Chars(password).Some? && |Chars(password).value| <= 127) ==>
              ClampPassword(password) == password
    ensures Chars(ClampPassword(password)).Some? ==> |Chars(ClampPassword(password)).value| <= 127
    ensures ClampPassword(ClampPassword(password)) == ClampPassword(password)
  {
    var clamped := ClampPassword(password);
    match Chars(password)
    case Some(chars) =>
      CharsAreChars(password);
      JoinSplits(chars);
      if |chars| > MAX_PASSWORD_CHARS {
        JoinPrefix(chars, MAX_PASSWORD_CHARS);
        JoinSplits(chars[..MAX_PASSWORD_CHARS]);
      }
    case None =>
      if Chars(clamped).Some? {
        CharsAreChars(clamped);
        JoinSplits(Chars(clamped).value);
      }
  }
}
