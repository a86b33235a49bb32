/**
Entities. A numeric entity is read as the character whose number it writes, in decimal or
hexadecimal digits, as long as the number fits an int; the four named ones are read and written
as they are spelled.
*/
module XmlEntity {
  import opened Common
  import opened Utf8
  import opened XmlShape
  import opened XmlText
  import opened XmlParse
  import opened XmlRoundTrip

  const INT_MAX: nat := 0x7fff_ffff

  // ---------------------------------------------------------------- numerals

  /** The digit of a value below 16; letters are upper or lower case. */
  function DigitOf(d: nat, upper: bool): Byte
    requires d < 16
  {
    if d < 10 then 0x30 + d else if upper then 0x41 + (d - 10) else 0x61 + (d - 10)
  }

  function Base(hex: bool): nat {
    if hex then 16 else 10
  }

  /** A number without its last digit, and that digit. */
  function Short(n: nat, hex: bool): nat {
    if hex then n / 16 else n / 10
  }

  function LastOf(n: nat, hex: bool): (d: nat)
    ensures d < Base(hex) && n == Short(n, hex) * Base(hex) + d
  {
    if hex then n % 16 else n % 10
  }

  /** n in digits; upper says of each, the last first, whether a letter is upper case. */
  function Numeral(n: nat, hex: bool, upper: seq<bool>): (s: seq<Byte>)
    ensures s != []
  {
    var last := DigitOf(LastOf(n, hex), upper != [] && upper[0]);
    if Short(n, hex) == 0 then [last] else Numeral(Short(n, hex), hex, Fewer(upper)) + [last]
  }

  function Fewer(upper: seq<bool>): seq<bool> {
    if upper == [] then [] else upper[1..]
  }

  function Zeros(k: nat): (s: seq<Byte>)
    ensures |s| == k
  {
    seq(k, _ => 0x30)
  }

  function AtMost(v: nat): nat {
    if v > LONG_MAX then LONG_MAX else v
  }

  lemma DigitIs(d: nat, upper: bool)
    requires d < 16
    ensures Digit(DigitOf(d, upper)) == d && EntityChar(DigitOf(d, upper))
  {
  }

  /** One more digit behind. */
  lemma {:induction false} NumberMore(s: seq<nat>, d: nat, base: nat, acc: nat)
    requires (forall c | c in s :: Digit(c) < base) && Digit(d) < base && acc <= LONG_MAX
    ensures Number(s + [d], base, acc) == AtMost(Number(s, base, acc) * base + Digit(d))
    ensures Number(s, base, acc) <= LONG_MAX
  {
    if s == [] {
      assert s + [d] == [d] && [d][1..] == [];
    } else {
      assert s[0] in s;
      assert (s + [d])[0] == s[0] && (s + [d])[1..] == s[1..] + [d];
      NumberMore(s[1..], d, base, AtMost(acc * base + Digit(s[0])));
    }
  }

  lemma {:induction false} NumeralDigits(n: nat, hex: bool, upper: seq<bool>)
    ensures forall c | c in Numeral(n, hex, upper) :: Digit(c) < Base(hex) && EntityChar(c)
  {
    DigitIs(LastOf(n, hex), upper != [] && upper[0]);
    hide Digit, EntityChar, DigitOf;
    if Short(n, hex) != 0 {
      NumeralDigits(Short(n, hex), hex, Fewer(upper));
    }
  }

  lemma {:induction false} ZerosBefore(k: nat, s: seq<nat>, base: nat)
    requires base > 0
    ensures Number(Zeros(k) + s, base, 0) == Number(s, base, 0)
  {
    if k == 0 {
      assert Zeros(k) + s == s;
    } else {
      assert (Zeros(k) + s)[0] == 0x30 && (Zeros(k) + s)[1..] == Zeros(k - 1) + s;
      ZerosBefore(k - 1, s, base);
    }
  }

  lemma OneDigit(d: nat, hex: bool, upper: bool)
    requires d < Base(hex)
    ensures Number([DigitOf(d, upper)], Base(hex), 0) == d
  {
    DigitIs(d, upper);
    assert [DigitOf(d, upper)][1..] == [];
  }

  /** A numeral has its number as its value, up to the largest long. */
  lemma {:induction false} NumeralValue(n: nat, hex: bool, upper: seq<bool>)
    ensures Number(Numeral(n, hex, upper), Base(hex), 0) == AtMost(n)
  {
    var q, more, d, up := Short(n, hex), Fewer(upper), LastOf(n, hex), upper != [] && upper[0];
    hide Number, Digit, DigitOf, AtMost, Short, LastOf;
    OneDigit(d, hex, up);
    AtMostMore(n, hex);
    if q != 0 {
      NumeralDigits(q, hex, more);
      NumeralValue(q, hex, more);
      DigitIs(d, up);
      NumberMore(Numeral(q, hex, more), DigitOf(d, up), Base(hex), 0);
    }
  }

  lemma AtMostMore(n: nat, hex: bool)
    ensures AtMost(AtMost(Short(n, hex)) * Base(hex) + LastOf(n, hex)) == AtMost(n)
    ensures Short(n, hex) == 0 ==> AtMost(n) == LastOf(n, hex)
  {
    assert n == if hex then n / 16 * 16 + n % 16 else n / 10 * 10 + n % 10;
  }

  function Pow10(k: nat): nat {
    if k == 0 then 1 else 10 * Pow10(k - 1)
  }

  lemma {:induction false} NumeralLength(n: nat, hex: bool, upper: seq<bool>, k: nat)
    requires n < Pow10(k) && k > 0
    ensures |Numeral(n, hex, upper)| <= k
  {
    if Short(n, hex) != 0 {
      assert k > 1 && Short(n, hex) < Pow10(k - 1);
      NumeralLength(Short(n, hex), hex, Fewer(upper), k - 1);
    }
  }

  // ---------------------------------------------------------------- numeric entities

  /** The name of a numeric entity: a number sign, and an x when it is hexadecimal; zeros may come first. */
  function NumericName(n: nat, hex: bool, upper: seq<bool>, zeros: nat): seq<Byte> {
    (if hex then [0x23, 0x78] else [0x23]) + (Zeros(zeros) + Numeral(n, hex, upper))
  }

  lemma NumericDigits(n: nat, hex: bool, upper: seq<bool>, zeros: nat)
    ensures var all := Zeros(zeros) + Numeral(n, hex, upper);
      && (forall i | 0 <= i < |all| :: EntityChar(all[i]) && Digit(all[i]) < Base(hex))
      && Number(all, Base(hex), 0) == AtMost(n)
  {
    var digits := Numeral(n, hex, upper);
    NumeralDigits(n, hex, upper);
    NumeralValue(n, hex, upper);
    ZerosBefore(zeros, digits, Base(hex));
  }

  lemma NumericValue(n: nat, hex: bool, upper: seq<bool>, zeros: nat)
    ensures EntityValue(NumericName(n, hex, upper, zeros)) == ToInt(AtMost(n))
  {
    var name, all := NumericName(n, hex, upper, zeros), Zeros(zeros) + Numeral(n, hex, upper);
    NumericDigits(n, hex, upper, zeros);
    hide Number, Zeros, Numeral, ToInt;
    assert all[0] < 0x78 || hex;
    if hex {
      assert name[2..] == all;
      assert |all| >= 2 ==> Digit(all[1]) < 16;
    } else {
      assert name[1..] == all && name[1] == all[0];
    }
  }

  lemma NumericChars(n: nat, hex: bool, upper: seq<bool>, zeros: nat)
    ensures forall b | b in NumericName(n, hex, upper, zeros) :: EntityChar(b)
    ensures n <= INT_MAX ==> |NumericName(n, hex, upper, zeros)| <= zeros + 12
  {
    NumericDigits(n, hex, upper, zeros);
    if n <= INT_MAX {
      assert Pow10(10) == 10_000_000_000;
      NumeralLength(n, hex, upper, 10);
    }
  }

  /** No entity is read as more than the largest int. */
  lemma {:induction false} EntityAtMost(s: seq<Item>, name: seq<nat>)
    ensures Entity(s, name).ch <= INT_MAX
    decreases |s|
  {
    var g := Next(s);
    if EntityChar(g.ch) && |name| < ENTITY_MAX {
      EntityAtMost(g.rest, name + [g.ch]);
    }
  }

  /**
  A number sign, the digits of n in decimal, or an x and its digits in hexadecimal, in either case, and
  a semicolon are read as n exactly if n fits an int and is a character that XML allows.
  */
  lemma NumericReads(n: nat, hex: bool, upper: seq<bool>, zeros: nat, r: seq<Byte>)
    requires zeros <= 50
    ensures Entity(S(NumericName(n, hex, upper, zeros) + [SEMICOLON] + r), []) == Got(n, S(r)) <==>
      n <= INT_MAX && (n >= 0x20 || n == 0x09 || n == 0x0a || n == 0x0d)
    ensures n < 0x20 && n != 0x09 && n != 0x0a && n != 0x0d ==>
      Entity(S(NumericName(n, hex, upper, zeros) + [SEMICOLON] + r), []) == Got(EOF, S(r))
  {
    hide Stream, Entity, EntityValue, NumericName;
    var name := NumericName(n, hex, upper, zeros);
    EntityAtMost(S(name + [SEMICOLON] + r), []);
    if n <= INT_MAX {
      NumericChars(n, hex, upper, zeros);
      NumericValue(n, hex, upper, zeros);
      NamedReads(name, r);
    }
  }

  // ---------------------------------------------------------------- named entities

  predicate IsAscii(s: string) {
    forall i | 0 <= i < |s| :: s[i] as int < 0x80
  }

  /** The bytes of a text of ASCII characters. */
  function Ascii(s: string): (b: seq<Byte>)
    requires IsAscii(s)
    ensures |b| == |s| && forall i | 0 <= i < |s| :: b[i] == s[i] as int
  {
    if s == [] then [] else [s[0] as int] + Ascii(s[1..])
  }

  /** The special characters are written as their entities, all others as they are. */
  lemma WrittenEntities(b: Byte)
    ensures EscapeByte(b) ==
      if b == '&' as int then Ascii("&amp;") else if b == '<' as int then Ascii("&lt;")
      else if b == '>' as int then Ascii("&gt;") else if b == '"' as int then Ascii("&quot;") else [b]
  {
    hide Ascii;
    AsciiEntities();
    AsciiMoreEntities();
  }

  lemma AsciiEntities()
    ensures Ascii("&amp;") == [AMP] + NAME_AMP + [SEMICOLON] && Ascii("&lt;") == [AMP] + NAME_LT + [SEMICOLON]
  {
  }

  lemma AsciiMoreEntities()
    ensures Ascii("&gt;") == [AMP] + NAME_GT + [SEMICOLON] && Ascii("&quot;") == [AMP] + NAME_QUOT + [SEMICOLON]
  {
  }

  /** The named entities are read as the characters they stand for. */
  lemma NamedEntities(r: seq<Byte>)
    ensures Entity(S(Ascii("amp;") + r), []) == Got('&' as int, S(r))
    ensures Entity(S(Ascii("lt;") + r), []) == Got('<' as int, S(r))
    ensures Entity(S(Ascii("gt;") + r), []) == Got('>' as int, S(r))
    ensures Entity(S(Ascii("quot;") + r), []) == Got('"' as int, S(r))
  {
    AsciiNames();
    hide Stream, Entity, Ascii;
    NamedReads(NAME_AMP, r);
    NamedReads(NAME_LT, r);
    NamedReads(NAME_GT, r);
    NamedReads(NAME_QUOT, r);
  }

  lemma AsciiNames()
    ensures Ascii("amp;") == NAME_AMP + [SEMICOLON] && Ascii("lt;") == NAME_LT + [SEMICOLON]
    ensures Ascii("gt;") == NAME_GT + [SEMICOLON] && Ascii("quot;") == NAME_QUOT + [SEMICOLON]
  {
  }

  lemma NamedReads(name: seq<Byte>, r: seq<Byte>)
    requires |name| <= ENTITY_MAX && forall b | b in name :: EntityChar(b)
    ensures var v := EntityValue(name);
      Entity(S(name + [SEMICOLON] + r), []) == Got(if v < 0 || BadChar(v) then EOF else v, S(r))
  {
    EntityReads(name, r, []);
    assert [] + name == name;
  }

  // ---------------------------------------------------------------- what is refused

  /** A name of letters and digits that is none of the four is refused. */
  lemma OtherEntities(name: seq<Byte>, r: seq<Byte>)
    requires |name| <= ENTITY_MAX && (forall b | b in name :: EntityChar(b)) && (name != [] ==> name[0] != '#' as int)
    requires name != Ascii("amp") && name != Ascii("lt") && name != Ascii("gt") && name != Ascii("quot")
    ensures Entity(S(name + [SEMICOLON] + r), []) == Got(EOF, S(r))
  {
    hide Stream, Entity;
    NamedReads(name, r);
    assert Ascii("amp") == NAME_AMP && Ascii("lt") == NAME_LT;
    assert Ascii("gt") == NAME_GT && Ascii("quot") == NAME_QUOT;
  }

  /** An entity is refused when something other than a semicolon ends it, and when its name is longer than 63. */
  lemma {:induction false} EntityEndsBadly(name: seq<Byte>, b: Byte, r: seq<Byte>, got: seq<nat>)
    requires (forall c | c in name :: EntityChar(c)) && b < 0x80 && Allowed(b) && |got| <= 63
    requires |got| + |name| > 63 || (!EntityChar(b) && b != SEMICOLON)
    ensures Entity(S(name + ([b] + r)), got).ch == EOF
    decreases |name|
  {
    hide Stream, EntityValue;
    if name == [] {
      assert name + ([b] + r) == [b] + r;
      NextByte(b, r);
    } else {
      assert name[0] in name && name + ([b] + r) == [name[0]] + (name[1..] + ([b] + r));
      NextByte(name[0], name[1..] + ([b] + r));
      if |got| < 63 {
        EntityEndsBadly(name[1..], b, r, got + [name[0]]);
      }
    }
  }

  // ---------------------------------------------------------------- a text, character by character

  lemma EscapeLetter(b: Byte)
    requires 0x61 <= b <= 0x63
    ensures Escape([b]) == [b]
  {
    EscapeOne(b);
  }

  lemma SampleAttribute()
    ensures AttrsText([Attr([0x62], Some([0x3c]))]) == [0x20, 0x62, 0x3d, 0x22, 0x26, 0x6c, 0x74, 0x3b, 0x22]
  {
    var b := Attr([0x62], Some([0x3c]));
    EscapeLetter(0x62);
    EscapeOne(0x3c);
    assert AttrText(b) == [0x20, 0x62, 0x3d, 0x22, 0x26, 0x6c, 0x74, 0x3b, 0x22];
    assert [b][1..] == [] && AttrText(b) + AttrsText([]) == AttrText(b);
  }

  lemma SampleTags()
    ensures OpenTag([0x61], [Attr([0x62], Some([0x3c]))], false) ==
      [0x3c, 0x61, 0x20, 0x62, 0x3d, 0x22, 0x26, 0x6c, 0x74, 0x3b, 0x22, 0x3e]
    ensures OpenTag([0x63], [], true) == [0x3c, 0x63, 0x2f, 0x3e] && CloseTag([0x61]) == [0x3c, 0x2f, 0x61, 0x3e]
  {
    hide Escape, AttrsText;
    EscapeLetter(0x61);
    EscapeLetter(0x63);
    SampleAttribute();
    assert AttrsText([]) == [] by {
      NoAttributes();
    }
  }

  lemma NoAttributes()
    ensures AttrsText([]) == []
  {
  }

  /** The text of a small tree: <a b="&lt;"><c/></a>. */
  lemma SampleText()
    ensures TextOf(Elem([0x61], [Attr([0x62], Some([0x3c]))], [Elem([0x63], [], [])])) ==
      [0x3c, 0x61, 0x20, 0x62, 0x3d, 0x22, 0x26, 0x6c, 0x74, 0x3b, 0x22, 0x3e,
       0x3c, 0x63, 0x2f, 0x3e, 0x3c, 0x2f, 0x61, 0x3e]
  {
    hide OpenTag, CloseTag;
    SampleTags();
    var c := Elem([0x63], [], []);
    assert TextOf(c) == OpenTag([0x63], [], true) + [];
    assert [c][1..] == [] && TextAll([c]) == TextOf(c) + TextAll([]);
  }
}
