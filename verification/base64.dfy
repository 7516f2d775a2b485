// Base64, as section 4 of RFC 4648 has it; the parser also takes the
// alternative characters of section 5.
module Base64 {
  import opened Bits

  function Alphabet(v: nat): char
    requires v < 64
  {
    if v < 26 then 'A' + v as char
    else if v < 52 then 'a' + (v - 26) as char
    else if v < 62 then '0' + (v - 52) as char
    else if v == 62 then '+' else '/'
  }

  const NO_VALUE := 255

  // The parser's reading of a character.
  function Value64(c: char): Byte {
    if 'A' <= c <= 'Z' then c as int - 'A' as int
    else if 'a' <= c <= 'z' then c as int - 'a' as int + 26
    else if '0' <= c <= '9' then c as int - '0' as int + 52
    else if c == '+' || c == '-' then 62
    else if c == '/' || c == '_' then 63
    else NO_VALUE
  }

  lemma AlphabetIsRead(v: nat)
    requires v < 64
    ensures Value64(Alphabet(v)) == v && Alphabet(v) !in {'=', '*', ' ', '\t', '\r', '\n'}
  {}

  // Nothing else is read as that value, except the alternative characters.
  lemma ReadingIsUnique(c: char)
    ensures Value64(c) < 64 || Value64(c) == NO_VALUE
    ensures Value64(c) < 62 ==> c == Alphabet(Value64(c))
    ensures Value64(c) == 62 <==> c in {'+', '-'}
    ensures Value64(c) == 63 <==> c in {'/', '_'}
  {}

  function OneByte(x: Byte): (s: string)
    ensures |s| == 4
  {
    [Alphabet(x / 4), Alphabet(x % 4 * 16), '=', '=']
  }

  function TwoBytes(x: Byte, y: Byte): (s: string)
    ensures |s| == 4
  {
    [Alphabet(x / 4), Alphabet(x % 4 * 16 + y / 16), Alphabet(y % 16 * 4), '=']
  }

  function ThreeBytes(x: Byte, y: Byte, z: Byte): (s: string)
    ensures |s| == 4
  {
    [Alphabet(x / 4), Alphabet(x % 4 * 16 + y / 16), Alphabet(y % 16 * 4 + z / 64), Alphabet(z % 64)]
  }

  // Groups of 24 bits; a last one of 8 or 16 bits is filled up with zeros.
  function Encode(s: seq<Byte>): string {
    if |s| == 0 then ""
    else if |s| == 1 then OneByte(s[0])
    else if |s| == 2 then TwoBytes(s[0], s[1])
    else ThreeBytes(s[0], s[1], s[2]) + Encode(s[3..])
  }

  predicate Character(c: char) { Value64(c) < 64 || c == '=' }

  predicate Characters(s: string) { forall i :: 0 <= i < |s| ==> Character(s[i]) }

  lemma GroupIsValid(x: Byte, y: Byte, z: Byte)
    ensures Characters(OneByte(x)) && Characters(TwoBytes(x, y)) && Characters(ThreeBytes(x, y, z))
  {
    var a, b0, b, c0, c, d := x / 4, x % 4 * 16, x % 4 * 16 + y / 16, y % 16 * 4, y % 16 * 4 + z / 64, z % 64;
    assert Character(Alphabet(a)) && Character(Alphabet(b0)) && Character(Alphabet(b)) by {
      AlphabetIsRead(a);
      AlphabetIsRead(b0);
      AlphabetIsRead(b);
    }
    assert Character(Alphabet(c0)) && Character(Alphabet(c)) && Character(Alphabet(d)) by {
      AlphabetIsRead(c0);
      AlphabetIsRead(c);
      AlphabetIsRead(d);
    }
    hide Alphabet, Value64;
  }

  lemma {:induction false} EncodedCharacters(s: seq<Byte>)
    ensures |Encode(s)| == (|s| + 2) / 3 * 4
    ensures Characters(Encode(s))
  {
    hide Alphabet, Value64, Character, OneByte, TwoBytes, ThreeBytes;
    if |s| > 0 {
      var y, z := if |s| > 1 then s[1] else 0, if |s| > 2 then s[2] else 0;
      GroupIsValid(s[0], y, z);
    }
    if |s| >= 3 {
      EncodedCharacters(s[3..]);
    }
  }
}
