/**
Tags as people write them: attributes with white space around the equals sign, in either kind of
quotes or in none, and white space before the end of the tag.
*/
module XmlTags {
  import opened Common
  import opened Utf8
  import opened XmlShape
  import opened XmlText
  import opened XmlAttr
  import opened XmlParse
  import opened XmlRoundTrip
  import opened XmlEntity

  // ---------------------------------------------------------------- letters and white space

  /** A character of a word, as it is or as an entity where it has to be, or by its number. */
  datatype Letter = Plain(c: nat) | Numeric(c: nat, hex: bool, upper: seq<bool>, zeros: nat)

  /** Spaces, tabs, carriage returns and newlines. */
  predicate Blank(gap: seq<Byte>) {
    forall b | b in gap :: b in {0x20, 0x09, 0x0d, 0x0a}
  }

  predicate FineLetter(l: Letter) {
    match l
    case Plain(c) => Allowed(c) && c !in {0x20, 0x09, 0x0d, 0x0a}
    case Numeric(c, _, _, zeros) => !BadChar(c) && c <= INT_MAX && zeros <= 50
  }

  function Spelled(l: Letter): seq<Byte> {
    match l
    case Plain(c) => Escape(Encode(c))
    case Numeric(c, hex, upper, zeros) => [AMP] + (NumericName(c, hex, upper, zeros) + [SEMICOLON])
  }

  function SpelledAll(ls: seq<Letter>): seq<Byte> {
    if ls == [] then [] else Spelled(ls[0]) + SpelledAll(ls[1..])
  }

  function Letters(ls: seq<Letter>): seq<Byte> {
    if ls == [] then [] else Encode(ls[0].c) + Letters(ls[1..])
  }

  lemma SomeLetters(ls: seq<Letter>)
    requires ls != []
    ensures Letters(ls) != []
  {
  }

  lemma BlankTail(gap: seq<Byte>)
    requires gap != [] && Blank(gap)
    ensures IsSpace(gap[0]) && Blank(gap[1..])
  {
    assert gap[0] in gap;
    assert forall b | b in gap[1..] :: b in gap;
  }

  // ---------------------------------------------------------------- attributes

  datatype Quotes = Double | Single | Bare

  /** An attribute as it stands in a tag, from the white space before its name on. */
  datatype Setting = Setting(gap: seq<Byte>, name: seq<Byte>, left: seq<Byte>, right: seq<Byte>, quotes: Quotes,
    letters: seq<Letter>)

  /** A value in single quotes has none in it; one without quotes has nothing in it that would end it. */
  predicate FineIn(quotes: Quotes, l: Letter) {
    match quotes
    case Double => true
    case Single => l.Plain? ==> l.c != 0x27
    case Bare => l.Plain? && !Special(l.c) && l.c != 0x27 && l.c != EQUALS && l.c != SLASH
  }

  /** In quotes, white space may be part of a value. */
  predicate FineValueLetter(quotes: Quotes, l: Letter) {
    && FineIn(quotes, l)
    && match l
       case Plain(c) => Allowed(c) && (quotes.Bare? ==> c !in {0x20, 0x09, 0x0d, 0x0a})
       case Numeric(_, _, _, _) => FineLetter(l)
  }

  ghost predicate FineSetting(a: Setting) {
    && a.gap != [] && Blank(a.gap) && Blank(a.left) && Blank(a.right) && IsName(a.name)
    && (a.quotes.Bare? ==> a.letters != []) && forall l | l in a.letters :: FineValueLetter(a.quotes, l)
  }

  function AttrFor(a: Setting): Attr {
    Attr(a.name, Some(Letters(a.letters)))
  }

  function AttrsFor(settings: seq<Setting>): (attrs: seq<Attr>)
    ensures |attrs| == |settings| && forall i | 0 <= i < |attrs| :: attrs[i] == AttrFor(settings[i])
  {
    if settings == [] then [] else [AttrFor(settings[0])] + AttrsFor(settings[1..])
  }

  function QuoteOf(quotes: Quotes): seq<Byte> {
    match quotes
    case Double => [0x22]
    case Single => [0x27]
    case Bare => []
  }

  function ValueText(a: Setting): seq<Byte> {
    QuoteOf(a.quotes) + SpelledAll(a.letters) + QuoteOf(a.quotes)
  }

  function SettingText(a: Setting): seq<Byte> {
    a.gap + a.name + a.left + [EQUALS] + a.right + ValueText(a)
  }

  function SettingsText(settings: seq<Setting>): seq<Byte> {
    if settings == [] then [] else SettingText(settings[0]) + SettingsText(settings[1..])
  }

  lemma NameIsPlain(name: seq<Byte>)
    requires IsName(name)
    ensures Escape(name) == name && name != []
  {
    var cs :| NameOf(name, cs);
    NamePlain(cs);
    assert cs[0] in cs;
    FirstByte(cs);
  }

  function KindOf(quotes: Quotes): Kind {
    match quotes
    case Double => Quoted(0x22)
    case Single => Quoted(0x27)
    case Bare => PlainValue
  }

  lemma LetterGathers(l: Letter, quotes: Quotes, r: seq<Byte>, got: seq<Byte>)
    requires FineValueLetter(quotes, l)
    ensures Gather(S(Spelled(l) + r), KindOf(quotes), got) == Gather(S(r), KindOf(quotes), got + Encode(l.c))
  {
    hide Stream, Entity, NumericName, Encode;
    match l
    case Plain(c) =>
      EscapeChar(c);
      if Special(c) {
        SpecialReads(c, r);
      } else {
        NextChar(c, r);
      }
    case Numeric(c, hex, upper, zeros) =>
      var name := NumericName(c, hex, upper, zeros);
      Assoc([AMP], name + [SEMICOLON], r);
      NextByte(AMP, name + [SEMICOLON] + r);
      NumericReads(c, hex, upper, zeros, r);
  }

  lemma {:induction false} LettersGather(ls: seq<Letter>, quotes: Quotes, e: Byte, r: seq<Byte>, got: seq<Byte>)
    requires (forall l | l in ls :: FineValueLetter(quotes, l)) && e < 0x80 && Allowed(e) && Ends(KindOf(quotes), e)
    ensures Gather(S(SpelledAll(ls) + ([e] + r)), KindOf(quotes), got) == Word(got + Letters(ls), e, S(r))
  {
    hide Stream, Spelled, FineValueLetter, KindOf;
    if ls == [] {
      assert SpelledAll(ls) + ([e] + r) == [e] + r && got + Letters(ls) == got;
      NextByte(e, r);
    } else {
      assert ls[0] in ls;
      Assoc(Spelled(ls[0]), SpelledAll(ls[1..]), [e] + r);
      LetterGathers(ls[0], quotes, SpelledAll(ls[1..]) + ([e] + r), got);
      LettersGather(ls[1..], quotes, e, r, got + Encode(ls[0].c));
      Assoc(got, Encode(ls[0].c), Letters(ls[1..]));
    }
  }

  /** The bytes that may follow an attribute. */
  predicate Follows(e: Byte) {
    IsSpace(e) || e == SLASH || e == GT
  }

  /** Which character ends a value, and what is left behind it. */
  function EndOf(quotes: Quotes, e: Byte): Item {
    match quotes
    case Double => 0x22
    case Single => 0x27
    case Bare => e
  }

  function Behind(quotes: Quotes, e: Byte, r: seq<Byte>): seq<Byte> {
    if quotes.Bare? then r else [e] + r
  }

  lemma ValueIs(a: Setting, e: Byte, r: seq<Byte>)
    requires FineSetting(a) && Follows(e)
    ensures var g := Next(S(ValueText(a) + ([e] + r)));
      && g.ch != EOF && !IsSpace(g.ch)
      && AttrValue(g.ch, g.rest) == Word(Letters(a.letters), EndOf(a.quotes, e), S(Behind(a.quotes, e, r)))
  {
    hide Stream, Letters, Encode;
    if a.quotes.Bare? {
      BareIs(a, e, r);
    } else {
      var q := QuoteOf(a.quotes)[0];
      assert ValueText(a) + ([e] + r) == [q] + (SpelledAll(a.letters) + ([q] + ([e] + r)));
      NextByte(q, SpelledAll(a.letters) + ([q] + ([e] + r)));
      LettersGather(a.letters, a.quotes, q, [e] + r, []);
      assert [] + Letters(a.letters) == Letters(a.letters);
    }
  }

  lemma BareLetter(l: Letter)
    requires FineValueLetter(Bare, l)
    ensures Spelled(l) == Encode(l.c) && Allowed(l.c) && !IsSpace(l.c) && !IsQuote(l.c)
  {
    EscapeChar(l.c);
  }

  lemma BareIs(a: Setting, e: Byte, r: seq<Byte>)
    requires FineSetting(a) && Follows(e) && a.quotes.Bare?
    ensures var g := Next(S(ValueText(a) + ([e] + r)));
      g.ch != EOF && !IsSpace(g.ch) && AttrValue(g.ch, g.rest) == Word(Letters(a.letters), e, S(r))
  {
    hide Stream, Encode, Spelled, FineValueLetter, Gather;
    var l, rest := a.letters[0], a.letters[1..];
    assert l in a.letters;
    BareLetter(l);
    BareText(a);
    Assoc(Encode(l.c), SpelledAll(rest), [e] + r);
    NextChar(l.c, SpelledAll(rest) + ([e] + r));
    LettersGather(rest, Bare, e, r, Encode(l.c));
  }

  lemma BareText(a: Setting)
    requires a.quotes.Bare?
    ensures ValueText(a) == SpelledAll(a.letters)
  {
    assert [] + SpelledAll(a.letters) + [] == SpelledAll(a.letters);
  }

  /** White space is skipped up to a character. */
  lemma {:induction false} BlankSkipped(gap: seq<Byte>, r: seq<Byte>)
    requires Blank(gap) && !IsSpace(Next(S(r)).ch)
    ensures var g := Next(S(gap + r)); SkipSpace(g.ch, g.rest) == Next(S(r))
  {
    hide Stream;
    if gap == [] {
      assert gap + r == r;
    } else {
      BlankTail(gap);
      assert gap + r == [gap[0]] + (gap[1..] + r);
      NextByte(gap[0], gap[1..] + r);
      BlankSkipped(gap[1..], r);
    }
  }

  lemma {:induction false} BlankParsed(gap: seq<Byte>, r: seq<Byte>, got: seq<Attr>)
    requires Blank(gap)
    ensures ParseAttributes(S(gap + r), got) == ParseAttributes(S(r), got)
  {
    hide Stream;
    if gap == [] {
      assert gap + r == r;
    } else {
      BlankTail(gap);
      assert gap + r == [gap[0]] + (gap[1..] + r);
      NextByte(gap[0], gap[1..] + r);
      BlankParsed(gap[1..], r, got);
    }
  }

  /** From the end of a name, over the equals sign, to the first character of the value. */
  lemma ToValue(a: Setting, v: seq<Byte>) returns (end: Byte, tail: seq<Byte>)
    requires Blank(a.left) && Blank(a.right) && Next(S(v)).ch != EOF && !IsSpace(Next(S(v)).ch)
    ensures a.left + ([EQUALS] + (a.right + v)) == [end] + tail && (end == EQUALS || IsSpace(end))
    ensures AfterName(end, S(tail)) == Next(S(v))
  {
    hide Stream;
    var all := [EQUALS] + (a.right + v);
    NextByte(EQUALS, a.right + v);
    BlankSkipped(a.left, all);
    BlankSkipped(a.right, v);
    if a.left == [] {
      end, tail := EQUALS, a.right + v;
      assert a.left + all == all;
    } else {
      BlankTail(a.left);
      end, tail := a.left[0], a.left[1..] + all;
      NextByte(end, tail);
      assert a.left + all == [end] + tail;
    }
  }

  /** Reading a setting adds its attribute. */
  lemma SettingReads(a: Setting, e: Byte, r: seq<Byte>, got: seq<Attr>)
    requires FineSetting(a) && Follows(e) && IndexOf(got, a.name) == |got|
    ensures ParseAttributes(S(SettingText(a) + ([e] + r)), got) == ParseAttributes(S([e] + r), got + [AttrFor(a)])
  {
    hide Stream, ValueText, Letters, FineSetting;
    SettingFine(a);
    var v := ValueText(a) + ([e] + r);
    ValueIs(a, e, r);
    var end, tail := ToValue(a, v);
    SettingSplit(a, [e] + r);
    hide SettingText, AttrFor;
    BlankParsed(a.gap, a.name + ([end] + tail), got);
    NameIsPlain(a.name);
    Assoc(a.name, [end], tail);
    AttrNameIs(a.name, end, tail);
    OneIs(a, S(a.name + ([end] + tail)), Word(a.name, end, S(tail)), S(v), e, r, got);
    AttributeEnds(S(a.name + ([end] + tail)), got, AttrFor(a), a.quotes, e, r);
  }

  lemma SettingSplit(a: Setting, x: seq<Byte>)
    ensures SettingText(a) + x == a.gap + (a.name + (a.left + ([EQUALS] + (a.right + (ValueText(a) + x)))))
  {
    hide ValueText;
  }

  /** A name, an equals sign and a value make an attribute. */
  lemma OneIs(a: Setting, s: seq<Item>, name: Word, v: seq<Item>, e: Byte, r: seq<Byte>, got: seq<Attr>)
    requires IndexOf(got, a.name) == |got| && name.Word? && name.bytes == a.name && Next(s).ch != EOF
    requires AttrName(Next(s).ch, Next(s).rest) == name && AfterName(name.ch, name.rest) == Next(v)
    requires Next(v).ch != EOF
    requires AttrValue(Next(v).ch, Next(v).rest) ==
      Word(Letters(a.letters), EndOf(a.quotes, e), S(Behind(a.quotes, e, r)))
    ensures OneAttribute(Next(s).ch, Next(s).rest, got) ==
      Parsed(EndOf(a.quotes, e), got + [AttrFor(a)], S(Behind(a.quotes, e, r)))
  {
    hide Stream, AttrName, AttrValue, AfterName, Letters;
  }

  lemma SettingFine(a: Setting)
    requires FineSetting(a)
    ensures Blank(a.gap) && Blank(a.left) && Blank(a.right) && IsName(a.name)
  {
  }

  /** What ended the value is seen again as what follows the attribute. */
  lemma AttributeEnds(s: seq<Item>, got: seq<Attr>, a: Attr, quotes: Quotes, e: Byte, r: seq<Byte>)
    requires Follows(e) && StartsAttribute(Next(s).ch)
    requires OneAttribute(Next(s).ch, Next(s).rest, got) ==
      Parsed(EndOf(quotes, e), got + [a], S(Behind(quotes, e, r)))
    ensures ParseAttributes(s, got) == ParseAttributes(S([e] + r), got + [a])
  {
    hide Stream, OneAttribute;
    NextByte(e, r);
  }

  lemma {:induction false} SettingsRead(settings: seq<Setting>, i: nat, pad: seq<Byte>, short: bool, r: seq<Byte>)
    requires i <= |settings| && Distinct(AttrsFor(settings)) && Blank(pad)
    requires forall a | a in settings :: FineSetting(a)
    ensures ParseAttributes(S(SettingsText(settings[i..]) + (pad + (TagEnd(short) + r))), AttrsFor(settings)[..i]) ==
      Parsed(if short then SLASH else GT, AttrsFor(settings), S(r))
    decreases |settings| - i
  {
    hide Stream, SettingText, FineSetting, ParseAttributes, AttrFor, TagEnd, SettingsText, Distinct, Blank, Follows;
    var attrs, end := AttrsFor(settings), pad + (TagEnd(short) + r);
    if i == |settings| {
      assert settings[i..] == [] && attrs[..i] == attrs;
      TagEnds(attrs, pad, short, r);
    } else {
      var a, rest := settings[i], SettingsText(settings[i + 1..]);
      SettingsStep(settings, i);
      assert a in settings;
      Assoc(SettingText(a), rest, end);
      var e, tail := SomethingFollows(settings, i + 1, pad, short, r);
      AttrNext(attrs, i, a);
      SettingReads(a, e, tail, attrs[..i]);
      SettingsRead(settings, i + 1, pad, short, r);
    }
  }

  lemma TagEnds(attrs: seq<Attr>, pad: seq<Byte>, short: bool, r: seq<Byte>)
    requires Blank(pad)
    ensures ParseAttributes(S(SettingsText([]) + (pad + (TagEnd(short) + r))), attrs) ==
      Parsed(if short then SLASH else GT, attrs, S(r))
  {
    hide Stream, ParseAttributes, TagEnd;
    assert SettingsText([]) + (pad + (TagEnd(short) + r)) == pad + (TagEnd(short) + r);
    BlankParsed(pad, TagEnd(short) + r, attrs);
    TagEndReads(short, r, attrs);
  }

  lemma AttrNext(attrs: seq<Attr>, i: nat, a: Setting)
    requires i < |attrs| && Distinct(attrs) && attrs[i] == AttrFor(a)
    ensures attrs[..i] + [AttrFor(a)] == attrs[..i + 1] && IndexOf(attrs[..i], a.name) == i == |attrs[..i]|
  {
    NotYetThere(attrs, i);
  }

  lemma SettingsStep(settings: seq<Setting>, i: nat)
    requires i < |settings|
    ensures SettingsText(settings[i..]) == SettingText(settings[i]) + SettingsText(settings[i + 1..])
  {
    assert settings[i..][0] == settings[i] && settings[i..][1..] == settings[i + 1..];
  }

  /** An attribute is followed by white space or by the end of the tag. */
  lemma SomethingFollows(settings: seq<Setting>, i: nat, pad: seq<Byte>, short: bool, r: seq<Byte>)
    returns (e: Byte, tail: seq<Byte>)
    requires i <= |settings| && (forall a | a in settings :: FineSetting(a)) && Blank(pad)
    ensures SettingsText(settings[i..]) + (pad + (TagEnd(short) + r)) == [e] + tail && Follows(e)
  {
    var all := SettingsText(settings[i..]) + (pad + (TagEnd(short) + r));
    if i < |settings| {
      var a := settings[i];
      assert a in settings && settings[i..][0] == a;
      BlankTail(a.gap);
      assert SettingText(a)[0] == a.gap[0];
      assert all[0] == a.gap[0];
    } else if pad != [] {
      BlankTail(pad);
      assert all[0] == pad[0];
    } else {
      assert all == TagEnd(short) + r;
    }
    e, tail := all[0], all[1..];
  }

  // ---------------------------------------------------------------- tags

  /** A start tag, or the tag of an empty element. */
  function StartText(name: seq<Byte>, settings: seq<Setting>, pad: seq<Byte>, short: bool): seq<Byte> {
    [LT] + (name + (SettingsText(settings) + (pad + TagEnd(short))))
  }

  function EndText(name: seq<Byte>, pad: seq<Byte>): seq<Byte> {
    [LT] + ([SLASH] + (name + (pad + [GT])))
  }

  /** A start tag opens its element with the attributes that are set in it. */
  lemma StartReads(st: State, name: seq<Byte>, settings: seq<Setting>, pad: seq<Byte>, short: bool, r: seq<Byte>)
    requires Ready(st) && IsName(name) && Blank(pad)
    requires Distinct(AttrsFor(settings)) && forall a | a in settings :: FineSetting(a)
    ensures Run(st, S(StartText(name, settings, pad, short) + r)) ==
      Run(Entered(st, name, AttrsFor(settings), short), S(r))
  {
    hide Stream, Run, Tag, SettingsText, ParseAttributes, FineSetting;
    var rest := SettingsText(settings) + (pad + (TagEnd(short) + r));
    assert StartText(name, settings, pad, short) + r == [LT] + (name + rest);
    TagStep(st, name + rest);
    NameIsPlain(name);
    if settings == [] && pad == [] {
      NoSettings();
      assert rest == TagEnd(short) + r;
      Assoc(Escape(name), TagEnd(short), r);
      BareTagReads(st, name, short, r);
    } else {
      SpacedReads(st, name, settings, pad, short, r);
    }
  }

  lemma NoSettings()
    ensures SettingsText([]) == [] && AttrsFor([]) == []
  {
  }

  lemma SpacedReads(st: State, name: seq<Byte>, settings: seq<Setting>, pad: seq<Byte>, short: bool, r: seq<Byte>)
    requires Ready(st) && IsName(name) && Blank(pad) && !(settings == [] && pad == [])
    requires Distinct(AttrsFor(settings)) && forall a | a in settings :: FineSetting(a)
    ensures Tag(st, S(name + (SettingsText(settings) + (pad + (TagEnd(short) + r))))) ==
      Go(Entered(st, name, AttrsFor(settings), short), S(r))
  {
    hide Stream, ParseAttributes, TagName, SettingsText, AttrsFor, TagEnd;
    var rest := SettingsText(settings) + (pad + (TagEnd(short) + r));
    var e := FirstBlank(settings, pad, TagEnd(short) + r);
    var tail := rest[1..];
    assert rest == [e] + tail;
    NameIsPlain(name);
    Assoc(Escape(name), [e], tail);
    NameReads(name, e, tail);
    assert settings[0..] == settings && AttrsFor(settings)[..0] == [];
    SettingsRead(settings, 0, pad, short, r);
    assert Blank([e]);
    BlankParsed([e], tail, []);
  }

  lemma FirstBlank(settings: seq<Setting>, pad: seq<Byte>, x: seq<Byte>) returns (e: Byte)
    requires Blank(pad) && !(settings == [] && pad == []) && forall a | a in settings :: FineSetting(a)
    ensures var rest := SettingsText(settings) + (pad + x); rest != [] && rest[0] == e && e in {0x20, 0x09, 0x0d, 0x0a}
  {
    if settings == [] {
      e := pad[0];
      assert e in pad && SettingsText(settings) + (pad + x) == pad + x;
    } else {
      var a := settings[0];
      assert a in settings;
      e := a.gap[0];
      assert e in a.gap && SettingText(a)[0] == e;
    }
  }

  /** An end tag closes the parent; white space after its name is skipped. */
  lemma EndReads(st: State, name: seq<Byte>, pad: seq<Byte>, r: seq<Byte>)
    requires Ready(st) && IsName(name) && Blank(pad) && st.stack != [] && st.stack[|st.stack| - 1].name == name
    ensures var top := st.stack[|st.stack| - 1];
      Run(st, S(EndText(name, pad) + r)) ==
      Run(AddElement(st.(stack := st.stack[..|st.stack| - 1]), Elem(name, top.attrs, top.kids)), S(r))
  {
    hide Stream, Run, Tag, EndText;
    EndSplit(name, pad, r);
    TagStep(st, [SLASH] + (name + (pad + ([GT] + r))));
    EndIs(st, name, pad, r);
  }

  lemma EndSplit(name: seq<Byte>, pad: seq<Byte>, r: seq<Byte>)
    ensures EndText(name, pad) + r == [LT] + ([SLASH] + (name + (pad + ([GT] + r))))
  {
  }

  lemma EndIs(st: State, name: seq<Byte>, pad: seq<Byte>, r: seq<Byte>)
    requires IsName(name) && Blank(pad) && st.stack != [] && st.stack[|st.stack| - 1].name == name
    ensures var top := st.stack[|st.stack| - 1];
      Tag(st, S([SLASH] + (name + (pad + ([GT] + r))))) ==
      Go(AddElement(st.(stack := st.stack[..|st.stack| - 1]), Elem(name, top.attrs, top.kids)), S(r))
  {
    hide Stream, TagName, StartTag, SkipTag, AddElement;
    var e := EndNameIs(name, pad, r);
    assert ([SLASH] + name)[1..] == name;
  }

  /** The name in an end tag, and what is skipped behind it. */
  lemma EndNameIs(name: seq<Byte>, pad: seq<Byte>, r: seq<Byte>) returns (e: Byte)
    requires IsName(name) && Blank(pad)
    ensures var w := TagName(S([SLASH] + (name + (pad + ([GT] + r)))), []);
      w.Word? && w.bytes == [SLASH] + name && w.ch == e && SkipTag(w.ch, w.rest) == S(r)
  {
    hide Stream, SkipTag;
    var cs :| NameOf(name, cs);
    var rest := pad + ([GT] + r);
    e := if pad == [] then GT else pad[0];
    if pad != [] {
      BlankTail(pad);
    }
    var tail := rest[1..];
    assert rest == [e] + tail;
    Assoc(name, [e], tail);
    NextByte(SLASH, name + rest);
    assert Encode(SLASH) == [SLASH] && [] + Encode(SLASH) == [SLASH];
    TagNameReads(cs, e, tail, [SLASH]);
    BlankSkippedToEnd(pad, r);
    NextByte(e, tail);
  }

  lemma {:induction false} BlankSkippedToEnd(pad: seq<Byte>, r: seq<Byte>)
    requires Blank(pad)
    ensures var g := Next(S(pad + ([GT] + r))); SkipTag(g.ch, g.rest) == S(r)
  {
    hide Stream;
    if pad == [] {
      assert pad + ([GT] + r) == [GT] + r;
      NextByte(GT, r);
    } else {
      BlankTail(pad);
      assert pad + ([GT] + r) == [pad[0]] + (pad[1..] + ([GT] + r));
      NextByte(pad[0], pad[1..] + ([GT] + r));
      BlankSkippedToEnd(pad[1..], r);
    }
  }

  // ---------------------------------------------------------------- names in quotes

  /** An attribute name in quotes is read with its quotes, up to the closing one. */
  lemma {:induction false} QuotedNameReads(cs: seq<nat>, q: Byte, r: seq<Byte>, got: seq<Byte>)
    requires (q == 0x22 || q == 0x27) && forall c | c in cs :: Allowed(c) && c != q && c != '&' as int
    ensures GatherQuotedName(S(EncodeAll(cs) + ([q] + r)), q, got) == Word(got + EncodeAll(cs) + [q], q, S(r))
  {
    hide Stream;
    if cs == [] {
      assert EncodeAll(cs) + ([q] + r) == [q] + r && got + EncodeAll(cs) == got;
      assert Encode(q) == [q];
      NextByte(q, r);
    } else {
      var c, rest := cs[0], EncodeAll(cs[1..]);
      assert c in cs && forall d | d in cs[1..] :: d in cs;
      Assoc(Encode(c), rest, [q] + r);
      NextChar(c, rest + ([q] + r));
      QuotedNameReads(cs[1..], q, r, got + Encode(c));
      Assoc(got, Encode(c), rest);
    }
  }

  /** An entity may supply the closing quote of a name. */
  lemma EntityClosesName(r: seq<Byte>, got: seq<Byte>)
    ensures GatherQuotedName(S(Ascii("&quot;") + r), 0x22, got) == Word(got + [0x22], 0x22, S(r))
  {
    hide Stream, Entity, Ascii;
    AsciiMoreEntities();
    NamedReads(NAME_QUOT, r);
    assert Ascii("&quot;") + r == [AMP] + (NAME_QUOT + [SEMICOLON] + r);
    NextByte(AMP, NAME_QUOT + [SEMICOLON] + r);
    assert Encode(0x22) == [0x22];
  }

  // ---------------------------------------------------------------- what is refused

  /** An attribute that is set already is refused. */
  lemma SetTwice(a: Setting, e: Byte, r: seq<Byte>, got: seq<Attr>)
    requires FineSetting(a) && Follows(e) && AttrOf(got, a.name).Some?
    ensures ParseAttributes(S(SettingText(a) + ([e] + r)), got) == ParseError
  {
    hide Stream, ValueText, Letters, FineSetting, AttrOf;
    SettingFine(a);
    var v := ValueText(a) + ([e] + r);
    ValueIs(a, e, r);
    var end, tail := ToValue(a, v);
    SettingSplit(a, [e] + r);
    hide SettingText;
    BlankParsed(a.gap, a.name + ([end] + tail), got);
    NameIsPlain(a.name);
    Assoc(a.name, [end], tail);
    AttrNameIs(a.name, end, tail);
  }

  /** The characters that no name of a tag may hold. */
  predicate BadInName(b: Byte) {
    b == '<' as int || (0x21 < b < 0x30 && b !in {'&' as int, '-' as int, '.' as int, '/' as int})
  }

  lemma {:induction false} BadName(cs: seq<nat>, b: Byte, r: seq<Byte>, got: seq<Byte>)
    requires (forall c | c in cs :: NameChar(c)) && BadInName(b)
    requires got != [] ==> got[0] != 0x3f && got[0] != 0x21
    ensures TagName(S(EncodeAll(cs) + ([b] + r)), got) == WordError
  {
    hide Stream, Encode;
    if cs == [] {
      assert EncodeAll(cs) + ([b] + r) == [b] + r;
      NextByte(b, r);
    } else {
      var c, rest := cs[0], EncodeAll(cs[1..]);
      assert c in cs && NameChar(c);
      Assoc(Encode(c), rest, [b] + r);
      TagNameStep(c, rest + ([b] + r), got);
      BadName(cs[1..], b, r, got + Encode(c));
    }
  }

  /** Within a tag the input may not end, no other tag may begin, and only a bracket may follow a slash. */
  lemma BadEnds(b: Byte, r: seq<Byte>, got: seq<Attr>)
    requires b < 0x80 && Allowed(b) && b != '>' as int
    ensures ParseAttributes(S([]), got) == ParseError
    ensures ParseAttributes(S(['<' as int] + r), got) == ParseError
    ensures ParseAttributes(S(['/' as int] + ([b] + r)), got) == ParseError
    ensures ParseAttributes(S(['?' as int] + ([b] + r)), got) == ParseError
  {
    hide Stream;
    assert S([]) == [] by {
      RoundTripAll([]);
    }
    NextByte(LT, r);
    NextByte(SLASH, [b] + r);
    NextByte(0x3f, [b] + r);
    NextByte(b, r);
  }
}
