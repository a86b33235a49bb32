/**
Which bytes are read as which characters. From UTF-8 a character is read exactly where its
encoding stands; from UTF-16 likewise, but for the characters whose low surrogate is 0xdfff,
which are refused.
*/
module Unicode {
  import opened Common
  import opened Utf8

  // ---------------------------------------------------------------- UTF-8

  /** Three more digits in base 64. */
  lemma Base64(x: nat, y: nat, z: nat, w: nat)
    requires y < 64 && z < 64 && w < 64
    ensures (x * 64 + w) / 64 == x && (x * 64 + w) % 64 == w
    ensures (x * 4096 + z * 64 + w) / 64 == x * 64 + z && (x * 4096 + z * 64 + w) / 4096 == x
    ensures var v := x * 262144 + y * 4096 + z * 64 + w;
      v / 64 == x * 4096 + y * 64 + z && v / 4096 == x * 64 + y && v / 262144 == x && v % 64 == w
  {
  }

  lemma LowBits(b: Byte)
    ensures 0x80 <= b < 0xc0 ==> b % 64 == b - 0x80
    ensures 0xc0 <= b < 0xe0 ==> b % 32 == b - 0xc0
    ensures 0xe0 <= b < 0xf0 ==> b % 16 == b - 0xe0
    ensures 0xf0 <= b < 0xf8 ==> b % 8 == b - 0xf0
  {
  }

  lemma TwoIsEncoding(a: Byte, b: Byte)
    requires 0xc0 <= a < 0xe0 && Continuation(b) && Join2(a, b) >= 0x80
    ensures Join2(a, b) < 0x800 && Encode(Join2(a, b)) == [a, b]
  {
    LowBits(a);
    LowBits(b);
    Base64(a - 0xc0, 0, 0, b - 0x80);
  }

  lemma ThreeIsEncoding(a: Byte, b: Byte, c: Byte)
    requires 0xe0 <= a < 0xf0 && Continuation(b) && Continuation(c) && Join3(a, b, c) >= 0x800
    ensures Join3(a, b, c) < 0x10000 && Encode(Join3(a, b, c)) == [a, b, c]
  {
    LowBits(a);
    LowBits(b);
    LowBits(c);
    Base64(0, a - 0xe0, b - 0x80, c - 0x80);
    Base64(0, 0, a - 0xe0, b - 0x80);
  }

  lemma EncodeDigits(x: nat, y: nat, z: nat, w: nat)
    requires x < 8 && y < 64 && z < 64 && w < 64
    ensures var v := x * 262144 + y * 4096 + z * 64 + w;
      v < 0x200000 && (v >= 0x10000 ==> Encode(v) == [0xf0 + x, 0x80 + y, 0x80 + z, 0x80 + w])
  {
    Base64(x, y, z, w);
    Base64(0, x, y, z);
    Base64(0, 0, x, y);
  }

  lemma FourIsEncoding(a: Byte, b: Byte, c: Byte, d: Byte)
    requires 0xf0 <= a < 0xf8 && Continuation(b) && Continuation(c) && Continuation(d) && Join4(a, b, c, d) >= 0x10000
    ensures Join4(a, b, c, d) < 0x200000 && Encode(Join4(a, b, c, d)) == [a, b, c, d]
  {
    LowBits(a);
    LowBits(b);
    LowBits(c);
    LowBits(d);
    EncodeDigits(a - 0xf0, b - 0x80, c - 0x80, d - 0x80);
    hide Encode;
  }

  lemma OneIsEncoding(a: Byte)
    requires a < 0x80
    ensures Encode(a) == [a]
  {
  }

  lemma ReadIsEncoding(input: seq<Byte>)
    requires input != [] && ReadUtf8(input).ch >= 0
    ensures var c := ReadUtf8(input).ch; Allowed(c) && Encode(c) <= input
  {
    hide Join2, Join3, Join4, Encode;
    var a := input[0];
    if a < 0x80 {
      OneIsEncoding(a);
    } else if 0xc0 <= a < 0xe0 {
      TwoIsEncoding(a, input[1]);
    } else if 0xe0 <= a < 0xf0 {
      ThreeIsEncoding(a, input[1], input[2]);
    } else {
      FourIsEncoding(a, input[1], input[2], input[3]);
    }
  }

  /**
  A character is read from UTF-8 exactly if its encoding is what the input begins with: no other
  bytes and no longer form stand for it.
  */
  lemma Utf8Exactly(input: seq<Byte>, c: nat)
    requires input != []
    ensures ReadOne(input, Utf8).ch == c <==> Allowed(c) && Encode(c) <= input
    ensures ReadOne(input, Utf8).ch == c ==> ReadOne(input, Utf8) == Read(c, |Encode(c)|, Utf8)
  {
    hide ReadUtf8, Encode;
    if ReadUtf8(input).ch == c {
      ReadIsEncoding(input);
    }
    if Allowed(c) && Encode(c) <= input {
      assert input[..|Encode(c)|] == Encode(c);
      ReadFront(c, input);
    }
  }

  // ---------------------------------------------------------------- UTF-16

  type Char = c: nat | c < 0x110000

  /** A number below 65536 as two bytes, in either order. */
  function Unit(v: nat, encoding: Encoding): seq<Byte>
    requires v < 0x10000
  {
    if encoding == Utf16BE then [v / 256, v % 256] else [v % 256, v / 256]
  }

  /** A character in UTF-16: one unit, or a high and a low surrogate. */
  function Encode16(c: Char, encoding: Encoding): (bytes: seq<Byte>)
    ensures |bytes| == if c < 0x10000 then 2 else 4
  {
    if c < 0x10000 then Unit(c, encoding)
    else Unit(0xd800 + (c - 0x10000) / 1024, encoding) + Unit(0xdc00 + (c - 0x10000) % 1024, encoding)
  }

  /** The characters that UTF-16 can write and XML allows. */
  predicate Writable16(c: Char) {
    !BadChar(c) && !(0xd800 <= c <= 0xdbff)
  }

  /** The low surrogate of the character is 0xdfff. */
  predicate LastLow(c: Char) {
    c >= 0x10000 && (c - 0x10000) % 1024 == 1023
  }

  function Encode16All(cs: seq<Char>, encoding: Encoding): seq<Byte> {
    if cs == [] then [] else Encode16(cs[0], encoding) + Encode16All(cs[1..], encoding)
  }

  lemma WordOfUnit(v: nat, encoding: Encoding, rest: seq<Byte>)
    requires v < 0x10000 && encoding != Utf8
    ensures var s := Unit(v, encoding) + rest; Word(s[0], s[1], encoding) == v && s[2..] == rest
  {
  }

  lemma WordIsUnit(a: Byte, b: Byte, encoding: Encoding)
    requires encoding != Utf8
    ensures Word(a, b, encoding) < 0x10000 && Unit(Word(a, b, encoding), encoding) == [a, b]
  {
  }

  /** What a pair of surrogates stands for, and which pair stands for a character. */
  lemma Surrogates(hi: nat, lo: nat, c: nat)
    requires 0xd800 <= hi <= 0xdbff && 0xdc00 <= lo <= 0xdfff
    ensures var d := hi % 1024 * 1024 + lo % 1024 + 0x10000;
      0x10000 <= d < 0x110000 && hi == 0xd800 + (d - 0x10000) / 1024 && lo == 0xdc00 + (d - 0x10000) % 1024
    ensures 0x10000 <= c < 0x110000 && hi == 0xd800 + (c - 0x10000) / 1024 && lo == 0xdc00 + (c - 0x10000) % 1024 ==>
      c == hi % 1024 * 1024 + lo % 1024 + 0x10000
  {
    assert hi % 1024 == hi - 0xd800 && lo % 1024 == lo - 0xdc00;
  }

  /** What is read where a character's encoding stands. */
  lemma Reads16(c: Char, encoding: Encoding, rest: seq<Byte>)
    requires Writable16(c) && encoding != Utf8
    ensures ReadOne(Encode16(c, encoding) + rest, encoding) ==
      Read(if LastLow(c) then EOF else c, |Encode16(c, encoding)|, encoding)
  {
    hide Unit, Word;
    if c < 0x10000 {
      WordOfUnit(c, encoding, rest);
    } else {
      var hi, lo := 0xd800 + (c - 0x10000) / 1024, 0xdc00 + (c - 0x10000) % 1024;
      assert Encode16(c, encoding) + rest == Unit(hi, encoding) + (Unit(lo, encoding) + rest);
      WordOfUnit(hi, encoding, Unit(lo, encoding) + rest);
      WordOfUnit(lo, encoding, rest);
      Surrogates(hi, lo, c);
    }
  }

  /** A character is read from UTF-16 exactly if its encoding is there, without the low surrogate 0xdfff. */
  lemma Utf16Exactly(input: seq<Byte>, encoding: Encoding, c: nat)
    requires input != [] && encoding != Utf8
    ensures ReadOne(input, encoding).ch == c <==>
      c < 0x110000 && Writable16(c) && Encode16(c, encoding) <= input && !LastLow(c)
  {
    if c < 0x110000 && Writable16(c) && Encode16(c, encoding) <= input {
      var rest := input[|Encode16(c, encoding)|..];
      assert input == Encode16(c, encoding) + rest;
      Reads16(c, encoding, rest);
    }
    if ReadOne(input, encoding).ch == c {
      hide Unit;
      WordIsUnit(input[0], input[1], encoding);
      assert |input| >= 4 ==> input[..4] == [input[0], input[1]] + [input[2], input[3]];
      if 0xd800 <= Word(input[0], input[1], encoding) <= 0xdbff {
        WordIsUnit(input[2], input[3], encoding);
        Surrogates(Word(input[0], input[1], encoding), Word(input[2], input[3], encoding), c);
      }
    }
  }

  /** What the reader makes of the characters one after the other. */
  function Seen16(cs: seq<Char>): seq<Item> {
    if cs == [] then [] else [if LastLow(cs[0]) then EOF else cs[0] as int] + Seen16(cs[1..])
  }

  lemma {:induction false} Stream16(cs: seq<Char>, encoding: Encoding)
    requires (forall c | c in cs :: Writable16(c)) && encoding != Utf8
    ensures Stream(Encode16All(cs, encoding), encoding) == Seen16(cs)
  {
    hide Encode16, Writable16, LastLow;
    if cs != [] {
      var c, rest := cs[0], cs[1..];
      assert c in cs;
      Reads16(c, encoding, Encode16All(rest, encoding));
      Stream16(rest, encoding);
      var first, more := Encode16(c, encoding), Encode16All(rest, encoding);
      assert (first + more)[|first|..] == more;
    }
  }

  /** The mark at the beginning tells the byte order. */
  function Mark(encoding: Encoding): seq<Byte>
    requires encoding != Utf8
  {
    Unit(0xfeff, encoding)
  }

  /** A text in UTF-16 behind its mark is read as its characters, exactly if none has the low surrogate 0xdfff. */
  lemma Utf16TextReads(cs: seq<Char>, encoding: Encoding)
    requires (forall c | c in cs :: Writable16(c)) && encoding != Utf8
    ensures Stream(Mark(encoding) + Encode16All(cs, encoding), Utf8) == Seen16(cs)
    ensures Seen16(cs) == cs <==> forall c | c in cs :: !LastLow(c)
  {
    Stream16(cs, encoding);
    SeenAll(cs);
    MarkReads(encoding, Encode16All(cs, encoding));
  }

  lemma MarkReads(encoding: Encoding, bytes: seq<Byte>)
    requires encoding != Utf8
    ensures Stream(Mark(encoding) + bytes, Utf8) == Stream(bytes, encoding)
  {
    var input := Mark(encoding) + bytes;
    assert ReadOne(input, Utf8) == Read(SKIP, 2, encoding);
    hide ReadOne;
    assert input[2..] == bytes;
    assert [] + Stream(bytes, encoding) == Stream(bytes, encoding);
  }

  lemma {:induction false} SeenAll(cs: seq<Char>)
    ensures |Seen16(cs)| == |cs|
    ensures Seen16(cs) == cs <==> forall c | c in cs :: !LastLow(c)
  {
    if cs != [] {
      SeenAll(cs[1..]);
      assert cs == [cs[0]] + cs[1..];
      assert Seen16(cs)[0] == cs[0] <==> !LastLow(cs[0]);
      assert Seen16(cs)[1..] == Seen16(cs[1..]);
    }
  }
}
