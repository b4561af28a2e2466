/** Base 64 as section 4 of RFC 4648 defines it: g_base64_encode and g_base64_decode. */
module Base64 {
  import opened Basics

  /** Table 1 of section 4 of RFC 4648. */
  function Letter(i: nat): (c: char)
    requires i < 64
    ensures Rank(c) == Some(i)
  {
    if i < 26 then ('A' as int + i) as char
    else if i < 52 then ('a' as int + i - 26) as char
    else if i < 62 then ('0' as int + i - 52) as char
    else if i == 62 then '+'
    else '/'
  }

  /** The value a character stands for, if it belongs to the alphabet. */
  function Rank(c: char): (i: Option<nat>)
    ensures i.Some? ==> i.value < 64
  {
    if 'A' <= c <= 'Z' then Some(c as int - 'A' as int)
    else if 'a' <= c <= 'z' then Some(c as int - 'a' as int + 26)
    else if '0' <= c <= '9' then Some(c as int - '0' as int + 52)
    else if c == '+' then Some(62)
    else if c == '/' then Some(63)
    else None
  }

  predicate IsLetter(c: char) { Rank(c).Some? || c == '=' }

  function Encode(b: Bytes): string {
    if |b| == 0 then ""
    else if |b| == 1 then
      [Letter(b[0] / 4), Letter(b[0] % 4 * 16), '=', '=']
    else if |b| == 2 then
      [Letter(b[0] / 4), Letter(b[0] % 4 * 16 + b[1] / 16), Letter(b[1] % 16 * 4), '=']
    else
      [Letter(b[0] / 4), Letter(b[0] % 4 * 16 + b[1] / 16),
       Letter(b[1] % 16 * 4 + b[2] / 64), Letter(b[2] % 64)] + Encode(b[3..])
  }

  /** A pad character counts as zero bits. */
  function Bits(c: char): (i: nat)
    ensures i < 64
  {
    match Rank(c) case Some(i) => i case None => 0
  }

  /** One group of four characters gives one, two or three bytes. */
  function DecodeGroup(g: string): Bytes
    requires |g| == 4
  {
    var x: Byte := Bits(g[0]) * 4 + Bits(g[1]) / 16;
    var y: Byte := Bits(g[1]) % 16 * 16 + Bits(g[2]) / 4;
    var z: Byte := Bits(g[2]) % 4 * 64 + Bits(g[3]);
    [x] + (if g[2] == '=' then [] else [y]) + (if g[3] == '=' then [] else [z])
  }

  function DecodeGroups(s: string): Bytes {
    if |s| < 4 then [] else DecodeGroup(s[..4]) + DecodeGroups(s[4..])
  }

  /** Characters outside the alphabet are skipped, an incomplete last group is dropped. */
  function Decode(s: string): Bytes {
    DecodeGroups(Letters(s))
  }

  function Letters(s: string): string {
    if s == [] then [] else (if IsLetter(s[0]) then [s[0]] else []) + Letters(s[1..])
  }

  lemma {:induction false} LettersOfLetters(s: string)
    requires forall i :: 0 <= i < |s| ==> IsLetter(s[i])
    ensures Letters(s) == s
  {
    if s != [] {
      LettersOfLetters(s[1..]);
      assert s == [s[0]] + s[1..];
    }
  }

  lemma {:induction false} EncodeAlphabet(b: Bytes)
    ensures forall i :: 0 <= i < |Encode(b)| ==> IsLetter(Encode(b)[i])
  {
    if |b| > 2 {
      EncodeAlphabet(b[3..]);
    }
  }

  lemma {:induction false} BitsOfLetter(i: nat)
    requires i < 64
    ensures Bits(Letter(i)) == i && Letter(i) != '='
  {
  }

  lemma {:induction false} DecodeTriple(x: Byte, y: Byte, z: Byte)
    ensures DecodeGroup([Letter(x / 4), Letter(x % 4 * 16 + y / 16), Letter(y % 16 * 4 + z / 64), Letter(z % 64)])
            == [x, y, z]
  {
    hide Letter, Rank, Bits;
    BitsOfLetter(x / 4);
    BitsOfLetter(x % 4 * 16 + y / 16);
    BitsOfLetter(y % 16 * 4 + z / 64);
    BitsOfLetter(z % 64);
  }

  lemma {:induction false} DecodeGroupsEncode(b: Bytes)
    ensures DecodeGroups(Encode(b)) == b
  {
    hide Letter, DecodeGroup;
    var s := Encode(b);
    if |b| > 2 {
      var g := [Letter(b[0] / 4), Letter(b[0] % 4 * 16 + b[1] / 16),
                Letter(b[1] % 16 * 4 + b[2] / 64), Letter(b[2] % 64)];
      assert s[..4] == g && s[4..] == Encode(b[3..]);
      DecodeGroupsEncode(b[3..]);
      assert DecodeGroup(g) == [b[0], b[1], b[2]] by {
        DecodeTriple(b[0], b[1], b[2]);
      }
      assert b == [b[0], b[1], b[2]] + b[3..];
    } else if |b| > 0 {
      DecodeRest(b);
      assert s[..4] == s && s[4..] == [];
    }
  }

  /** The padded last group. */
  lemma {:induction false} DecodeRest(b: Bytes)
    requires 1 <= |b| <= 2
    ensures |Encode(b)| == 4 && DecodeGroup(Encode(b)) == b
  {
    hide Letter, Rank, Bits;
    BitsOfLetter(b[0] / 4);
    if |b| == 1 {
      BitsOfLetter(b[0] % 4 * 16);
    } else {
      BitsOfLetter(b[0] % 4 * 16 + b[1] / 16);
      BitsOfLetter(b[1] % 16 * 4);
    }
  }

  /** Decoding undoes encoding for every byte string. */
  lemma {:induction false} DecodeEncode(b: Bytes)
    ensures Decode(Encode(b)) == b
  {
    EncodeAlphabet(b);
    LettersOfLetters(Encode(b));
    DecodeGroupsEncode(b);
  }

  lemma {:induction false} EncodeInjective(a: Bytes, b: Bytes)
    requires Encode(a) == Encode(b)
    ensures a == b
  {
    DecodeEncode(a);
    DecodeEncode(b);
  }

  /** The letters in the order of table 1 of RFC 4648. */
  lemma {:induction false} AlphabetOrder(i: nat)
    requires i < 64
    ensures i < 26 ==> Letter(i) as int == 'A' as int + i
    ensures 26 <= i < 52 ==> Letter(i) as int == 'a' as int + (i - 26)
    ensures 52 <= i < 62 ==> Letter(i) as int == '0' as int + (i - 52)
    ensures i == 62 ==> Letter(i) == '+'
    ensures i == 63 ==> Letter(i) == '/'
  {
  }

  /** Some of the test vectors of section 10 of RFC 4648. */
  lemma {:induction false} TestVectors()
    ensures Encode([]) == ""
    ensures Encode([0x66]) == "Zg=="
    ensures Encode([0x66, 0x6f]) == "Zm8="
    ensures Encode([0x66, 0x6f, 0x6f]) == "Zm9v"
  {
    assert Letter(25) == 'Z' && Letter(32) == 'g' && Letter(38) == 'm';
    assert Letter(60) == '8' && Letter(61) == '9' && Letter(47) == 'v';
    hide Letter;
    var foo: Bytes := [0x66, 0x6f, 0x6f];
    assert foo[3..] == [];
    assert Encode(foo) == [Letter(25), Letter(38), Letter(61), Letter(47)] + Encode([]);
  }
}
