/**
The character codec of the XML library: one code point at a time into a growing buffer, and
out of a byte input that may announce UTF-16 by a byte order mark. Shifts and masks are
written as division and remainder.
*/
module Utf8 {
  import opened Common

  type Byte = b: int | 0 <= b < 256

  const EOF := -1

  /** What a reader returns: a character, or EOF. */
  type Item = i: int | EOF <= i

  datatype Encoding = Utf8 | Utf16BE | Utf16LE

  // ---------------------------------------------------------------- writing

  /** The bytes written for a code point; beyond 21 bits the first byte is cut to 8 bits. */
  function Encode(ch: nat): (bytes: seq<Byte>)
    ensures 1 <= |bytes| <= 4
  {
    if ch < 0x80 then [ch]
    else if ch < 0x800 then [0xc0 + ch / 64, 0x80 + ch % 64]
    else if ch < 0x10000 then [0xe0 + ch / 4096, 0x80 + ch / 64 % 64, 0x80 + ch % 64]
    else [0xf0 + ch / 262144 % 16, 0x80 + ch / 4096 % 64, 0x80 + ch / 64 % 64, 0x80 + ch % 64]
  }

  function EncodeAll(cs: seq<nat>): seq<Byte> {
    if cs == [] then [] else Encode(cs[0]) + EncodeAll(cs[1..])
  }

  lemma {:induction false} EncodeConcat(cs: seq<nat>, ds: seq<nat>)
    ensures EncodeAll(cs + ds) == EncodeAll(cs) + EncodeAll(ds)
  {
    hide Encode;
    if cs == [] {
      assert cs + ds == ds;
    } else {
      EncodeConcat(cs[1..], ds);
      assert (cs + ds)[0] == cs[0] && (cs + ds)[1..] == cs[1..] + ds;
      Assoc(Encode(cs[0]), EncodeAll(cs[1..]), EncodeAll(ds));
    }
  }

  lemma EncodeOne(c: nat)
    ensures EncodeAll([c]) == Encode(c)
  {
    assert [c][1..] == [];
    assert Encode(c) + [] == Encode(c);
  }

  /** A string buffer that grows while it is filled, and always has room for the final NUL. */
  class CharBuffer {
    var data: array<Byte>
    var used: nat

    ghost predicate Valid()
      reads this
    {
      64 <= data.Length && used < data.Length
    }

    ghost function Contents(): seq<Byte>
      requires Valid()
      reads this, data
    {
      data[..used]
    }

    constructor ()
      ensures Valid() && fresh(data) && Contents() == []
    {
      data := new Byte[64];
      used := 0;
    }

    /** Doubles the buffer up to 1024 bytes, then adds 1024. */
    method Grow()
      requires Valid()
      modifies this`data
      ensures Valid() && fresh(data) && used == old(used) && used < data.Length - 4
      ensures data.Length == old(data.Length) + if old(data.Length) < 1024 then old(data.Length) else 1024
      ensures Contents() == old(Contents())
    {
      var size := if data.Length < 1024 then data.Length * 2 else data.Length + 1024;
      var bigger := new Byte[size];
      var i := 0;
      while i < used
        invariant data == old(data) && i <= used < data.Length < bigger.Length && bigger[..i] == data[..i]
      {
        bigger[i] := data[i];
        i := i + 1;
      }
      data := bigger;
    }

    method Write(ch: nat)
      requires Valid() && used + 4 < data.Length
      modifies this`used, data
      ensures Valid() && Contents() == old(Contents()) + Encode(ch)
    {
      if ch < 0x80 {
        data[used] := ch;
        used := used + 1;
      } else if ch < 0x800 {
        data[used] := 0xc0 + ch / 64;
        data[used + 1] := 0x80 + ch % 64;
        used := used + 2;
      } else if ch < 0x10000 {
        data[used] := 0xe0 + ch / 4096;
        data[used + 1] := 0x80 + ch / 64 % 64;
        data[used + 2] := 0x80 + ch % 64;
        used := used + 3;
      } else {
        data[used] := 0xf0 + ch / 262144 % 16;
        data[used + 1] := 0x80 + ch / 4096 % 64;
        data[used + 2] := 0x80 + ch / 64 % 64;
        data[used + 3] := 0x80 + ch % 64;
        used := used + 4;
      }
    }

    /** Adds a character; afterwards there is still room for the final NUL. */
    method AddChar(ch: nat)
      requires Valid()
      modifies this, data
      ensures Valid() && (data == old(data) || fresh(data))
      ensures Contents() == old(Contents()) + Encode(ch)
    {
      if used >= data.Length - 4 {
        Grow();
      }
      Write(ch);
    }
  }

  // ---------------------------------------------------------------- reading

  predicate BadChar(ch: int) {
    ch < 0x20 && ch != 0x0a && ch != 0x0d && ch != 0x09
  }

  predicate Continuation(b: Byte) {
    0x80 <= b < 0xc0
  }

  /** What reading one character gives: the character or EOF, how many bytes it took, the encoding after. */
  datatype Read = Read(ch: int, taken: nat, encoding: Encoding)

  /** Reads as much as there is, up to n bytes. */
  function Take(input: seq<Byte>, n: nat): nat {
    if |input| < n then |input| else n
  }

  function Checked(ch: int, taken: nat, encoding: Encoding): Read {
    Read(if BadChar(ch) then EOF else ch, taken, encoding)
  }

  /** One character, or one byte order mark to be skipped (the ch is then -2). */
  const SKIP := -2

  function ReadOne(input: seq<Byte>, encoding: Encoding): (r: Read)
    ensures r.taken <= |input| && (r.ch == SKIP || r.ch >= EOF)
    ensures input != [] ==> 0 < r.taken
  {
    if input == [] then Read(EOF, 0, encoding)
    else match encoding
      case Utf8 => ReadUtf8(input)
      case Utf16BE => ReadUtf16(input, encoding)
      case Utf16LE => ReadUtf16(input, encoding)
  }

  function ReadUtf8(input: seq<Byte>): (r: Read)
    requires input != []
    ensures 0 < r.taken <= |input| && (r.ch == SKIP || r.ch >= EOF)
  {
    var b: int := input[0];
    if b < 0x80 then Checked(b, 1, Utf8)
    else if b == 0xfe || b == 0xff then
      if |input| < 2 then Read(EOF, 1, Utf8)
      else if input[1] != 0x1fd - b then Read(EOF, 2, Utf8)
      else Read(SKIP, 2, if b == 0xfe then Utf16BE else Utf16LE)
    else if 0xc0 <= b < 0xe0 then
      if |input| < 2 then Read(EOF, 1, Utf8)
      else if !Continuation(input[1]) then Read(EOF, 2, Utf8)
      else AtLeast(0x80, Join2(b, input[1]), 2)
    else if 0xe0 <= b < 0xf0 then
      if |input| < 3 then Read(EOF, |input|, Utf8)
      else if !Continuation(input[1]) || !Continuation(input[2]) then Read(EOF, 3, Utf8)
      else if Join3(b, input[1], input[2]) == 0xfeff then Read(SKIP, 3, Utf8)
      else AtLeast(0x800, Join3(b, input[1], input[2]), 3)
    else if 0xf0 <= b < 0xf8 then
      if |input| < 4 then Read(EOF, |input|, Utf8)
      else if !Continuation(input[1]) || !Continuation(input[2]) || !Continuation(input[3]) then Read(EOF, 4, Utf8)
      else AtLeast(0x10000, Join4(b, input[1], input[2], input[3]), 4)
    else Read(EOF, 1, Utf8)
  }

  /** An overlong form is malformed. */
  function AtLeast(least: int, ch: int, taken: nat): Read {
    if ch < least then Read(EOF, taken, Utf8) else Checked(ch, taken, Utf8)
  }

  function Join2(a: int, b: int): int {
    a % 32 * 64 + b % 64
  }

  function Join3(a: int, b: int, c: int): int {
    a % 16 * 4096 + b % 64 * 64 + c % 64
  }

  function Join4(a: int, b: int, c: int, d: int): int {
    a % 8 * 262144 + b % 64 * 4096 + c % 64 * 64 + d % 64
  }

  function Word(hi: Byte, lo: Byte, encoding: Encoding): nat {
    if encoding == Utf16BE then hi * 256 + lo else lo * 256 + hi
  }

  function ReadUtf16(input: seq<Byte>, encoding: Encoding): (r: Read)
    requires input != []
    ensures 0 < r.taken <= |input| && (r.ch == SKIP || r.ch >= EOF)
  {
    if |input| < 2 then Read(EOF, 1, encoding)
    else
      var ch := Word(input[0], input[1], encoding);
      if 0xd800 <= ch <= 0xdbff then
        if |input| < 4 then Read(EOF, |input|, encoding)
        else
          var lch := Word(input[2], input[3], encoding);
          if lch < 0xdc00 || lch >= 0xdfff then Read(EOF, 4, encoding)
          else Checked(ch % 1024 * 1024 + lch % 1024 + 0x10000, 4, encoding)
      else Checked(ch, 2, encoding)
  }

  /** The characters a reader sees, in order; a malformed piece reads as EOF and is skipped. */
  function Stream(input: seq<Byte>, encoding: Encoding): seq<Item>
    decreases |input|
  {
    if input == [] then []
    else
      var r := ReadOne(input, encoding);
      (if r.ch == SKIP then [] else [r.ch]) + Stream(input[r.taken..], r.encoding)
  }

  /** A byte source, read one character at a time. */
  class Reader {
    var input: seq<Byte>     // what has not been read yet
    var encoding: Encoding

    ghost function Rest(): seq<Item>
      reads this
    {
      Stream(input, encoding)
    }

    constructor (input: seq<Byte>)
      ensures Rest() == Stream(input, Utf8)
    {
      this.input := input;
      encoding := Utf8;
    }

    method Fetch(n: nat) returns (got: seq<Byte>)
      modifies this`input
      ensures got == old(input)[..Take(old(input), n)] && input == old(input)[Take(old(input), n)..]
    {
      var k := Take(input, n);
      got := input[..k];
      input := input[k..];
    }

    /** The rest of a character whose first byte is `first`, read as UTF-8. */
    method GetUtf8(first: Byte, ghost before: seq<Byte>) returns (ch: int)
      requires before == [first] + input && encoding == Utf8
      modifies this
      ensures var r := ReadUtf8(before); ch == r.ch && input == before[r.taken..] && encoding == r.encoding
    {
      ch := first;
      if ch < 0x80 {
      } else if ch == 0xfe || ch == 0xff {
        var more := Fetch(1);
        if |more| != 1 || more[0] != 0x1fd - ch {
          return EOF;
        }
        encoding := if ch == 0xfe then Utf16BE else Utf16LE;
        return SKIP;
      } else if 0xc0 <= ch < 0xe0 {
        var more := Fetch(1);
        if |more| != 1 || !Continuation(more[0]) {
          return EOF;
        }
        ch := Join2(ch, more[0]);
        if ch < 0x80 {
          return EOF;
        }
      } else if 0xe0 <= ch < 0xf0 {
        var more := Fetch(2);
        if |more| != 2 || !Continuation(more[0]) || !Continuation(more[1]) {
          return EOF;
        }
        ch := Join3(ch, more[0], more[1]);
        if ch < 0x800 {
          return EOF;
        }
        if ch == 0xfeff {
          return SKIP;
        }
      } else if 0xf0 <= ch < 0xf8 {
        var more := Fetch(3);
        if |more| != 3 || !Continuation(more[0]) || !Continuation(more[1]) || !Continuation(more[2]) {
          return EOF;
        }
        ch := Join4(ch, more[0], more[1], more[2]);
        if ch < 0x10000 {
          return EOF;
        }
      } else {
        return EOF;
      }
      ch := if BadChar(ch) then EOF else ch;
    }

    method GetUtf16(first: Byte, ghost before: seq<Byte>) returns (ch: int)
      requires before == [first] + input
      modifies this`input
      ensures var r := ReadUtf16(before, encoding); ch == r.ch && input == before[r.taken..] && encoding == r.encoding
    {
      var more := Fetch(1);
      if |more| != 1 {
        return EOF;
      }
      ch := Word(first, more[0], encoding);
      if 0xd800 <= ch <= 0xdbff {
        var low := Fetch(2);
        if |low| != 2 {
          return EOF;
        }
        var lch := Word(low[0], low[1], encoding);
        if lch < 0xdc00 || lch >= 0xdfff {
          return EOF;
        }
        ch := ch % 1024 * 1024 + lch % 1024 + 0x10000;
      }
      ch := if BadChar(ch) then EOF else ch;
    }

    /** The next character, or EOF at the end or where the input is malformed. */
    method Getc() returns (ch: Item)
      modifies this
      ensures if old(Rest()) == [] then ch == EOF && Rest() == []
              else ch == old(Rest())[0] && Rest() == old(Rest())[1..]
    {
      while true
        invariant Rest() == old(Rest())
        decreases |input|
      {
        ghost var before := input;
        var buffer := Fetch(1);
        if |buffer| != 1 {
          return EOF;
        }
        assert before == [buffer[0]] + input;
        var c;
        if encoding == Utf8 {
          c := GetUtf8(buffer[0], before);
        } else {
          c := GetUtf16(buffer[0], before);
        }
        if c != SKIP {
          return c;
        }
      }
    }
  }

  // ---------------------------------------------------------------- round trip

  /** The code points that text may hold: no control characters but tab, LF and CR, no U+FEFF. */
  predicate Allowed(ch: nat) {
    !BadChar(ch) && ch != 0xfeff && ch < 0x200000
  }

  /** The base-64 digits of a code point. */
  lemma Digits(ch: nat)
    ensures ch == ch / 262144 * 262144 + ch / 4096 % 64 * 4096 + ch / 64 % 64 * 64 + ch % 64
    ensures ch / 4096 == ch / 262144 * 64 + ch / 4096 % 64 && ch / 64 == ch / 4096 * 64 + ch / 64 % 64
  {
    var x, y := ch / 64, ch / 64 / 64;
    assert ch == 64 * x + ch % 64 && x == 64 * y + x % 64;
    assert ch == 4096 * y + (64 * (x % 64) + ch % 64);
    assert ch / 4096 == y;
    assert y == 64 * (y / 64) + y % 64;
    assert ch == 262144 * (y / 64) + (4096 * (y % 64) + 64 * (x % 64) + ch % 64);
    assert ch / 262144 == y / 64;
  }

  lemma LowDigit(v: nat)
    ensures (0x80 + v % 64) % 64 == v % 64
  {
  }

  lemma Lead(v: nat)
    ensures v < 32 ==> (0xc0 + v) % 32 == v
    ensures v < 16 ==> (0xe0 + v) % 16 == v
    ensures v < 8 ==> (0xf0 + v % 16) % 8 == v
  {
  }

  lemma JoinEncoded(ch: nat)
    ensures ch < 0x800 ==> Join2(0xc0 + ch / 64, 0x80 + ch % 64) == ch
    ensures ch < 0x10000 ==> Join3(0xe0 + ch / 4096, 0x80 + ch / 64 % 64, 0x80 + ch % 64) == ch
    ensures ch < 0x200000 ==>
      Join4(0xf0 + ch / 262144 % 16, 0x80 + ch / 4096 % 64, 0x80 + ch / 64 % 64, 0x80 + ch % 64) == ch
  {
    Digits(ch);
    LowDigit(ch);
    LowDigit(ch / 64);
    LowDigit(ch / 4096);
    Lead(ch / 64);
    Lead(ch / 4096);
    Lead(ch / 262144);
  }

  lemma ReadTwo(ch: nat, input: seq<Byte>)
    requires 0x80 <= ch < 0x800 && |input| >= 2 && input[..2] == Encode(ch)
    ensures ReadUtf8(input) == Read(ch, 2, Utf8)
  {
    JoinEncoded(ch);
    assert input[0] == input[..2][0] && input[1] == input[..2][1];
  }

  lemma ReadThree(ch: nat, input: seq<Byte>)
    requires 0x800 <= ch < 0x10000 && ch != 0xfeff && |input| >= 3 && input[..3] == Encode(ch)
    ensures ReadUtf8(input) == Read(ch, 3, Utf8)
  {
    JoinEncoded(ch);
    assert input[0] == input[..3][0] && input[1] == input[..3][1] && input[2] == input[..3][2];
  }

  lemma ReadFour(ch: nat, input: seq<Byte>, a: Byte, b: Byte, c: Byte, d: Byte)
    requires |input| >= 4 && input[0] == a && input[1] == b && input[2] == c && input[3] == d
    requires 0xf0 <= a < 0xf8 && Continuation(b) && Continuation(c) && Continuation(d)
    requires 0x10000 <= ch && Join4(a, b, c, d) == ch
    ensures ReadUtf8(input) == Read(ch, 4, Utf8)
  {
  }

  lemma ReadOneByte(ch: nat, input: seq<Byte>)
    requires Allowed(ch) && ch < 0x80 && input != [] && input[0] == ch
    ensures ReadUtf8(input) == Read(ch, 1, Utf8)
  {
  }

  lemma ReadFront(ch: nat, input: seq<Byte>)
    requires Allowed(ch) && |input| >= |Encode(ch)| && input[..|Encode(ch)|] == Encode(ch)
    ensures ReadUtf8(input) == Read(ch, |Encode(ch)|, Utf8)
  {
    if ch < 0x80 {
      assert input[..1][0] == input[0];
      ReadOneByte(ch, input);
    } else if ch < 0x800 {
      ReadTwo(ch, input);
    } else if ch < 0x10000 {
      ReadThree(ch, input);
    } else {
      assert input[..4][0] == input[0] && input[..4][1] == input[1] && input[..4][2] == input[2]
        && input[..4][3] == input[3];
      ReadBig(ch, input);
    }
  }

  lemma ReadBig(ch: nat, input: seq<Byte>)
    requires 0x10000 <= ch < 0x200000 && |input| >= 4
    requires input[0] == Encode(ch)[0] && input[1] == Encode(ch)[1] && input[2] == Encode(ch)[2]
      && input[3] == Encode(ch)[3]
    ensures ReadUtf8(input) == Read(ch, 4, Utf8)
  {
    JoinEncoded(ch);
    LeadsFour(ch);
    ReadFour(ch, input, 0xf0 + ch / 262144 % 16, 0x80 + ch / 4096 % 64, 0x80 + ch / 64 % 64, 0x80 + ch % 64);
  }

  lemma LeadsFour(ch: nat)
    requires ch < 0x200000
    ensures 0xf0 <= 0xf0 + ch / 262144 % 16 < 0xf8
  {
    Digits(ch);
  }

  lemma ReadEncoded(ch: nat, rest: seq<Byte>)
    requires Allowed(ch)
    ensures ReadOne(Encode(ch) + rest, Utf8) == Read(ch, |Encode(ch)|, Utf8)
  {
    var input := Encode(ch) + rest;
    assert input[..|Encode(ch)|] == Encode(ch);
    ReadFront(ch, input);
  }

  lemma StreamStep(ch: nat, tail: seq<Byte>)
    requires Allowed(ch)
    ensures Stream(Encode(ch) + tail, Utf8) == [ch] + Stream(tail, Utf8)
  {
    ReadEncoded(ch, tail);
    assert (Encode(ch) + tail)[|Encode(ch)|..] == tail;
  }

  /** What is written reads back as it was, followed by whatever follows. */
  lemma {:induction false} RoundTrip(cs: seq<nat>, rest: seq<Byte>)
    requires forall c | c in cs :: Allowed(c)
    ensures Stream(EncodeAll(cs) + rest, Utf8) == cs + Stream(rest, Utf8)
  {
    if cs == [] {
      assert EncodeAll(cs) + rest == rest;
    } else {
      var c, others := cs[0], cs[1..];
      assert c in cs && forall d | d in others :: d in cs;
      Assoc(Encode(c), EncodeAll(others), rest);
      StreamStep(c, EncodeAll(others) + rest);
      RoundTrip(others, rest);
      Front(cs, Stream(rest, Utf8));
    }
  }

  lemma Front(cs: seq<Item>, items: seq<Item>)
    requires cs != []
    ensures [cs[0]] + (cs[1..] + items) == cs + items
  {
  }

  /** The whole sequence reads back and then the input ends. */
  lemma RoundTripAll(cs: seq<nat>)
    requires forall c | c in cs :: Allowed(c)
    ensures Stream(EncodeAll(cs), Utf8) == cs
  {
    RoundTrip(cs, []);
    assert EncodeAll(cs) + [] == EncodeAll(cs);
  }
}
