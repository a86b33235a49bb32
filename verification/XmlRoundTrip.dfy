/**
Loading undoes saving: the text of an element tree loads as that tree, with the same
attributes in the same order.
*/
module XmlRoundTrip {
  import opened Common
  import opened Utf8
  import opened XmlShape
  import opened XmlText
  import opened XmlAttr
  import opened XmlParse
  import opened XmlTree
  import opened XmlWrite
  import opened XmlBuild
  import opened XmlLoad

  // ---------------------------------------------------------------- which trees

  predicate NameChar(c: nat) {
    Allowed(c) && (c >= 0x30 || c == 0x2d || c == 0x2e) && c != LT && c != EQUALS && c != GT && c != 0x3f
  }

  /** The bytes spell a nonempty name. */
  ghost predicate IsName(b: seq<Byte>) {
    exists cs: seq<nat> :: NameOf(b, cs)
  }

  ghost predicate NameOf(b: seq<Byte>, cs: seq<nat>) {
    cs != [] && b == EncodeAll(cs) && forall c | c in cs :: NameChar(c)
  }

  /** The bytes spell a text of allowed characters. */
  ghost predicate IsValue(b: seq<Byte>) {
    exists cs: seq<nat> :: ValueOf(b, cs)
  }

  ghost predicate ValueOf(b: seq<Byte>, cs: seq<nat>) {
    b == EncodeAll(cs) && forall c | c in cs :: Allowed(c)
  }

  ghost predicate FineAttr(a: Attr) {
    IsName(a.name) && a.value.Some? && IsValue(a.value.value)
  }

  /** Element trees with names, distinct attribute names, and values for all attributes. */
  ghost predicate Fine(t: Tree) {
    match t
    case Elem(name, attrs, kids) =>
      && IsName(name) && Distinct(attrs) && (forall a | a in attrs :: FineAttr(a))
      && forall k | k in kids :: Fine(k)
    case Words(_, _) => false
  }

  // ---------------------------------------------------------------- characters

  lemma Front(a: seq<Byte>, b: seq<Byte>, c: seq<Byte>, r: seq<Byte>)
    ensures (a + b) + c + r == a + (b + c + r)
  {
  }

  function S(bytes: seq<Byte>): seq<Item> {
    Stream(bytes, Utf8)
  }

  lemma NextChar(c: nat, r: seq<Byte>)
    requires Allowed(c)
    ensures Next(S(Encode(c) + r)) == Got(c, S(r))
  {
    RoundTrip([c], r);
    EncodeOne(c);
    assert ([c] + S(r))[1..] == S(r);
  }

  lemma NextByte(b: Byte, r: seq<Byte>)
    requires b < 0x80 && Allowed(b)
    ensures Next(S([b] + r)) == Got(b, S(r))
  {
    NextChar(b, r);
    assert Encode(b) == [b];
  }

  lemma {:induction false} EntityReads(name: seq<Byte>, r: seq<Byte>, got: seq<nat>)
    requires forall b | b in name :: EntityChar(b)
    requires |got| + |name| <= ENTITY_MAX
    ensures var v := EntityValue(got + name);
      Entity(S(name + [SEMICOLON] + r), got) == Got(if v < 0 || BadChar(v) then EOF else v, S(r))
    decreases |name|
  {
    hide Stream, EntityValue;
    if name == [] {
      assert name + [SEMICOLON] + r == [SEMICOLON] + r;
      NextByte(SEMICOLON, r);
      assert got + name == got;
    } else {
      assert name[0] in name && EntityChar(name[0]);
      assert name + [SEMICOLON] + r == [name[0]] + (name[1..] + [SEMICOLON] + r);
      NextByte(name[0], name[1..] + [SEMICOLON] + r);
      EntityReads(name[1..], r, got + [name[0]]);
      assert got + [name[0]] + name[1..] == got + name;
    }
  }

  /** An escaped special character reads as an ampersand and its entity. */
  lemma SpecialReads(b: Byte, r: seq<Byte>)
    requires EntityString(b).Some?
    ensures Next(S(EscapeByte(b) + r)).ch == AMP
    ensures Entity(Next(S(EscapeByte(b) + r)).rest, []) == Got(b, S(r))
  {
    hide Entity, Stream;
    var name := if b == AMP then NAME_AMP else if b == LT then NAME_LT else if b == GT then NAME_GT else NAME_QUOT;
    assert EscapeByte(b) + r == [AMP] + (name + [SEMICOLON] + r);
    NextByte(AMP, name + [SEMICOLON] + r);
    EntityReads(name, r, []);
    assert [] + name == name;
  }

  lemma {:induction false} EscapePlain(s: seq<Byte>)
    requires forall b | b in s :: EntityString(b).None?
    ensures Escape(s) == s
  {
    if s != [] {
      EscapePlain(s[1..]);
      assert [s[0]] + s[1..] == s;
    }
  }

  predicate Special(c: nat) {
    c == AMP || c == LT || c == GT || c == QUOTE
  }

  lemma EscapeChar(c: nat)
    ensures Escape(Encode(c)) == if Special(c) then EscapeByte(c) else Encode(c)
  {
    if c < 0x80 {
      EscapeOne(c);
    } else {
      EscapePlain(Encode(c));
    }
  }

  // ---------------------------------------------------------------- words

  lemma ValueStep(c: nat, tail: seq<Byte>, got: seq<Byte>)
    requires Allowed(c)
    ensures Gather(S(Escape(Encode(c)) + tail), Quoted(QUOTE), got) == Gather(S(tail), Quoted(QUOTE), got + Encode(c))
  {
    EscapeChar(c);
    if Special(c) {
      SpecialReads(c, tail);
    } else {
      NextChar(c, tail);
    }
  }

  lemma {:induction false} ValueReads(cs: seq<nat>, r: seq<Byte>, got: seq<Byte>)
    requires forall c | c in cs :: Allowed(c)
    ensures Gather(S(Escape(EncodeAll(cs)) + [QUOTE] + r), Quoted(QUOTE), got) == Word(got + EncodeAll(cs), QUOTE, S(r))
  {
    if cs == [] {
      assert Escape([]) + [QUOTE] + r == [QUOTE] + r;
      NextByte(QUOTE, r);
      assert got + EncodeAll(cs) == got;
    } else {
      var c, tail := cs[0], Escape(EncodeAll(cs[1..])) + [QUOTE] + r;
      assert c in cs && Allowed(c);
      EscapeConcat(Encode(c), EncodeAll(cs[1..]));
      Front(Escape(Encode(c)), Escape(EncodeAll(cs[1..])), [QUOTE], r);
      ValueStep(c, tail, got);
      ValueReads(cs[1..], r, got + Encode(c));
      Assoc(got, Encode(c), EncodeAll(cs[1..]));
    }
  }

  lemma {:induction false} NamePlain(cs: seq<nat>)
    requires forall c | c in cs :: NameChar(c)
    ensures Escape(EncodeAll(cs)) == EncodeAll(cs)
  {
    if cs != [] {
      assert cs[0] in cs && NameChar(cs[0]);
      EscapeConcat(Encode(cs[0]), EncodeAll(cs[1..]));
      EscapeChar(cs[0]);
      NamePlain(cs[1..]);
    }
  }

  lemma {:induction false} AttrNameReads(cs: seq<nat>, end: Byte, r: seq<Byte>, got: seq<Byte>)
    requires forall c | c in cs :: NameChar(c)
    requires end == EQUALS || IsSpace(end) || end == SLASH || end == GT
    ensures Gather(S(EncodeAll(cs) + [end] + r), PlainName, got) == Word(got + EncodeAll(cs), end, S(r))
  {
    if cs == [] {
      assert EncodeAll(cs) + [end] + r == [end] + r;
      NextByte(end, r);
      assert got + EncodeAll(cs) == got;
    } else {
      assert cs[0] in cs && NameChar(cs[0]);
      var tail := EncodeAll(cs[1..]) + [end] + r;
      Front(Encode(cs[0]), EncodeAll(cs[1..]), [end], r);
      NextChar(cs[0], tail);
      AttrNameReads(cs[1..], end, r, got + Encode(cs[0]));
      Assoc(got, Encode(cs[0]), EncodeAll(cs[1..]));
    }
  }

  lemma TagNameStep(c: nat, tail: seq<Byte>, got: seq<Byte>)
    requires NameChar(c) && (got != [] ==> got[0] != 0x3f && got[0] != 0x21)
    ensures TagName(S(Encode(c) + tail), got) == TagName(S(tail), got + Encode(c))
    ensures (got + Encode(c))[0] != 0x3f && (got + Encode(c))[0] != 0x21
  {
    NextChar(c, tail);
    assert (got + Encode(c))[0] == if got == [] then Encode(c)[0] else got[0];
  }

  lemma TagNameEnds(end: Byte, r: seq<Byte>, got: seq<Byte>)
    requires IsSpace(end) || end == GT || (end == SLASH && got != [])
    ensures TagName(S([end] + r), got) == Word(got, end, S(r))
  {
    NextByte(end, r);
  }

  lemma {:induction false} TagNameReads(cs: seq<nat>, end: Byte, r: seq<Byte>, got: seq<Byte>)
    requires forall c | c in cs :: NameChar(c)
    requires IsSpace(end) || end == GT || (end == SLASH && got + EncodeAll(cs) != [])
    requires got != [] ==> got[0] != 0x3f && got[0] != 0x21
    ensures TagName(S(EncodeAll(cs) + [end] + r), got) == Word(got + EncodeAll(cs), end, S(r))
  {
    if cs == [] {
      assert EncodeAll(cs) + [end] + r == [end] + r && got + EncodeAll(cs) == got;
      TagNameEnds(end, r, got);
    } else {
      var c, rest := cs[0], EncodeAll(cs[1..]);
      assert c in cs && NameChar(c);
      Front(Encode(c), rest, [end], r);
      TagNameStep(c, rest + [end] + r, got);
      Assoc(got, Encode(c), rest);
      TagNameReads(cs[1..], end, r, got + Encode(c));
    }
  }

  // ---------------------------------------------------------------- attributes

  lemma AttrNameIs(name: seq<Byte>, end: Byte, r: seq<Byte>)
    requires IsName(name) && (end == EQUALS || IsSpace(end) || end == SLASH || end == GT)
    ensures var g := Next(S(Escape(name) + [end] + r));
      StartsAttribute(g.ch) && AttrName(g.ch, g.rest) == Word(name, end, S(r))
  {
    var cs :| NameOf(name, cs);
    NamePlain(cs);
    var c, tail := cs[0], EncodeAll(cs[1..]) + [end] + r;
    assert c in cs && NameChar(c);
    Front(Encode(c), EncodeAll(cs[1..]), [end], r);
    NextChar(c, tail);
    AttrNameReads(cs[1..], end, r, Encode(c));
  }

  lemma AttrValueIs(value: seq<Byte>, r: seq<Byte>)
    requires IsValue(value)
    ensures AttrValue(QUOTE, S(Escape(value) + [QUOTE] + r)) == Word(value, QUOTE, S(r))
  {
    var cs :| ValueOf(value, cs);
    ValueReads(cs, r, []);
    assert [] + EncodeAll(cs) == value;
  }

  lemma AfterNameIs(r: seq<Byte>)
    ensures AfterName(EQUALS, S([QUOTE] + r)) == Got(QUOTE, S(r))
  {
    NextByte(QUOTE, r);
  }

  /** The first character of a name starts an attribute. */
  predicate StartsAttribute(ch: Item) {
    ch != EOF && !IsSpace(ch) && ch != SLASH && ch != 0x3f && ch != LT && ch != GT && ch != EQUALS
  }

  lemma Regroup(sp: Byte, n: seq<Byte>, eq: Byte, q: Byte, e: seq<Byte>, r: seq<Byte>)
    ensures ([sp] + n + ([eq, q] + e + [q]))[1..] + r == n + [eq] + ([q] + (e + [q] + r))
  {
    assert ([sp] + n + ([eq, q] + e + [q]))[1..] == n + ([eq, q] + e + [q]);
    assert [eq, q] + e + [q] + r == [eq] + ([q] + (e + [q] + r));
  }

  lemma OneAttributeReads(a: Attr, r: seq<Byte>, got: seq<Attr>)
    requires FineAttr(a) && IndexOf(got, a.name) == |got|
    ensures var g := Next(S(AttrText(a)[1..] + r));
      StartsAttribute(g.ch) && OneAttribute(g.ch, g.rest, got) == Parsed(QUOTE, got + [a], S(r))
  {
    var v := a.value.value;
    var value := Escape(v) + [QUOTE] + r;
    Regroup(SPACE, Escape(a.name), EQUALS, QUOTE, Escape(v), r);
    assert a == Attr(a.name, Some(v));
    var s := S(AttrText(a)[1..] + r);
    assert s == S(Escape(a.name) + [EQUALS] + ([QUOTE] + value));
    AttrNameIs(a.name, EQUALS, [QUOTE] + value);
    AfterNameIs(value);
    AttrValueIs(v, r);
  }

  /** Reading one attribute's text adds that attribute. */
  lemma AttributeReads(a: Attr, r: seq<Byte>, got: seq<Attr>)
    requires FineAttr(a) && IndexOf(got, a.name) == |got|
    ensures ParseAttributes(S(AttrText(a)[1..] + r), got) == ParseAttributes(S(r), got + [a])
  {
    hide Stream, OneAttribute, Escape;
    OneAttributeReads(a, r, got);
    var g := Next(S(AttrText(a)[1..] + r));
    var p := OneAttribute(g.ch, g.rest, got);
    assert p.Parsed? && p.ch == QUOTE;
  }

  lemma SpaceFirst(a: Attr, r: seq<Byte>, got: seq<Attr>)
    ensures Next(S(AttrText(a) + r)) == Got(SPACE, S(AttrText(a)[1..] + r))
    ensures ParseAttributes(S(AttrText(a) + r), got) == ParseAttributes(S(AttrText(a)[1..] + r), got)
  {
    assert AttrText(a) + r == [SPACE] + (AttrText(a)[1..] + r);
    NextByte(SPACE, AttrText(a)[1..] + r);
  }

  lemma TagEndReads(empty: bool, r: seq<Byte>, attrs: seq<Attr>)
    ensures ParseAttributes(S(TagEnd(empty) + r), attrs) == Parsed(if empty then SLASH else GT, attrs, S(r))
  {
    if empty {
      assert TagEnd(empty) + r == [SLASH] + ([GT] + r);
      NextByte(SLASH, [GT] + r);
    }
    NextByte(GT, r);
  }

  lemma NotYetThere(attrs: seq<Attr>, i: nat)
    requires i < |attrs| && Distinct(attrs)
    ensures IndexOf(attrs[..i], attrs[i].name) == |attrs[..i]|
  {
    IndexIs(attrs[..i], attrs[i].name, i);
  }

  lemma {:induction false} AttributesRead(attrs: seq<Attr>, i: nat, empty: bool, r: seq<Byte>)
    requires i <= |attrs| && Distinct(attrs) && forall a | a in attrs :: FineAttr(a)
    ensures ParseAttributes(S(AttrsText(attrs[i..]) + TagEnd(empty) + r), attrs[..i]) ==
      Parsed(if empty then SLASH else GT, attrs, S(r))
    decreases |attrs| - i
  {
    if i == |attrs| {
      assert AttrsText(attrs[i..]) + TagEnd(empty) + r == TagEnd(empty) + r && attrs[..i] == attrs;
      TagEndReads(empty, r, attrs);
    } else {
      var a, rest := attrs[i], attrs[i + 1..];
      assert attrs[i..][0] == a && attrs[i..][1..] == rest && a in attrs && attrs[..i] + [a] == attrs[..i + 1];
      Front(AttrText(a), AttrsText(rest), TagEnd(empty), r);
      NotYetThere(attrs, i);
      var tail := AttrsText(rest) + TagEnd(empty) + r;
      SpaceFirst(a, tail, attrs[..i]);
      AttributeReads(a, tail, attrs[..i]);
      AttributesRead(attrs, i + 1, empty, r);
    }
  }

  // ---------------------------------------------------------------- tags

  /** Between tags nothing is being gathered, and a second root is not begun. */
  predicate Ready(st: State) {
    st.text == [] && !st.space && (st.stack == [] ==> st.root.None?)
  }

  /** What a start tag does to the state. */
  function Entered(st: State, name: seq<Byte>, attrs: seq<Attr>, empty: bool): State {
    if empty then AddElement(st, Elem(name, attrs, []))
    else st.(stack := st.stack + [Open(name, attrs, [])], typed := true)
  }

  lemma NameReads(name: seq<Byte>, end: Byte, r: seq<Byte>)
    requires IsName(name) && (IsSpace(end) || end == GT || end == SLASH)
    ensures TagName(S(Escape(name) + [end] + r), []) == Word(name, end, S(r))
    ensures name != [] && name[0] != 0x21 && name[0] != 0x3f && name[0] != SLASH
  {
    hide TagName, Stream, Encode;
    var cs :| NameOf(name, cs);
    assert cs[0] in cs && NameChar(cs[0]);
    NamePlain(cs);
    FirstByte(cs);
    assert [] + EncodeAll(cs) == name;
    TagNameReads(cs, end, r, []);
  }

  /** A name does not begin as another kind of markup does. */
  lemma FirstByte(cs: seq<nat>)
    requires cs != [] && NameChar(cs[0])
    ensures var name := EncodeAll(cs);
      name != [] && name[0] != 0x21 && name[0] != 0x3f && name[0] != SLASH
  {
  }

  /** A start tag without attributes. */
  lemma BareTagReads(st: State, name: seq<Byte>, empty: bool, r: seq<Byte>)
    requires Ready(st) && IsName(name)
    ensures Tag(st, S(Escape(name) + TagEnd(empty) + r)) == Go(Entered(st, name, [], empty), S(r))
  {
    hide TagName, Stream, Escape, ParseAttributes;
    if empty {
      assert Escape(name) + TagEnd(empty) + r == Escape(name) + [SLASH] + ([GT] + r);
      NameReads(name, SLASH, [GT] + r);
      NextByte(GT, r);
    } else {
      NameReads(name, GT, r);
    }
  }

  /** Reading the attributes may begin after the space that ended the tag's name. */
  lemma AfterSpace(attrs: seq<Attr>, empty: bool, r: seq<Byte>) returns (inner: seq<Byte>)
    requires attrs != [] && Distinct(attrs) && forall a | a in attrs :: FineAttr(a)
    ensures AttrsText(attrs) + TagEnd(empty) + r == [SPACE] + inner
    ensures ParseAttributes(S(inner), []) == Parsed(if empty then SLASH else GT, attrs, S(r))
  {
    var others := AttrsText(attrs[1..]) + TagEnd(empty) + r;
    inner := AttrText(attrs[0])[1..] + others;
    Front(AttrText(attrs[0]), AttrsText(attrs[1..]), TagEnd(empty), r);
    assert AttrText(attrs[0]) == [SPACE] + AttrText(attrs[0])[1..];
    Assoc([SPACE], AttrText(attrs[0])[1..], others);
    SpaceFirst(attrs[0], others, []);
    AttributesRead(attrs, 0, empty, r);
    assert attrs[0..] == attrs && attrs[..0] == [];
  }

  lemma FullTagReads(st: State, name: seq<Byte>, attrs: seq<Attr>, empty: bool, r: seq<Byte>)
    requires Ready(st) && IsName(name) && attrs != []
    requires Distinct(attrs) && forall a | a in attrs :: FineAttr(a)
    ensures Tag(st, S(Escape(name) + (AttrsText(attrs) + TagEnd(empty) + r)))
      == Go(Entered(st, name, attrs, empty), S(r))
  {
    var inner := AfterSpace(attrs, empty, r);
    Assoc(Escape(name), [SPACE], inner);
    NameReads(name, SPACE, inner);
  }

  lemma TagStep(st: State, s: seq<Byte>)
    requires Ready(st)
    ensures Run(st, S([LT] + s)) == match Tag(st, S(s)) case Stop(o) => o case Go(st', rest) => Run(st', rest)
  {
    NextByte(LT, s);
    assert Flush(st, LT) == st && LoneSpace(st) == st;
  }

  lemma StartTagReads(st: State, name: seq<Byte>, attrs: seq<Attr>, empty: bool, r: seq<Byte>)
    requires Ready(st) && IsName(name) && Distinct(attrs) && forall a | a in attrs :: FineAttr(a)
    ensures Run(st, S(OpenTag(name, attrs, empty) + r)) == Run(Entered(st, name, attrs, empty), S(r))
  {
    var rest := Escape(name) + (AttrsText(attrs) + TagEnd(empty) + r);
    Front4([LT], Escape(name), AttrsText(attrs), TagEnd(empty), r);
    TagStep(st, rest);
    if attrs == [] {
      assert AttrsText(attrs) + TagEnd(empty) + r == TagEnd(empty) + r;
      Assoc(Escape(name), TagEnd(empty), r);
      BareTagReads(st, name, empty, r);
    } else {
      FullTagReads(st, name, attrs, empty, r);
    }
  }

  lemma Front4(a: seq<Byte>, b: seq<Byte>, c: seq<Byte>, d: seq<Byte>, r: seq<Byte>)
    ensures (a + b + c + d) + r == a + (b + (c + d + r))
  {
  }

  lemma EndNameReads(name: seq<Byte>, r: seq<Byte>)
    requires IsName(name)
    ensures TagName(S([SLASH] + (Escape(name) + [GT] + r)), []) == Word([SLASH] + name, GT, S(r))
  {
    hide Stream, Escape;
    var cs :| NameOf(name, cs);
    NamePlain(cs);
    NextByte(SLASH, EncodeAll(cs) + [GT] + r);
    TagNameReads(cs, GT, r, [SLASH]);
    assert Encode(SLASH) == [SLASH] && [] + Encode(SLASH) == [SLASH];
  }

  lemma EndTagIs(st: State, name: seq<Byte>, r: seq<Byte>)
    requires IsName(name) && st.stack != [] && st.stack[|st.stack| - 1].name == name
    ensures var top := st.stack[|st.stack| - 1];
      Tag(st, S([SLASH] + (Escape(name) + [GT] + r))) ==
      Go(AddElement(st.(stack := st.stack[..|st.stack| - 1]), Elem(name, top.attrs, top.kids)), S(r))
  {
    hide TagName, Stream, Escape, StartTag;
    EndNameReads(name, r);
    assert ([SLASH] + name)[1..] == name;
  }

  lemma CloseTagIs(name: seq<Byte>, r: seq<Byte>)
    ensures CloseTag(name) + r == [LT] + ([SLASH] + (Escape(name) + [GT] + r))
  {
    hide Escape;
    assert [LT, SLASH] == [LT] + [SLASH];
  }

  lemma EndTagReads(st: State, name: seq<Byte>, r: seq<Byte>)
    requires Ready(st) && IsName(name) && st.stack != [] && st.stack[|st.stack| - 1].name == name
    ensures var top := st.stack[|st.stack| - 1];
      Run(st, S(CloseTag(name) + r)) ==
      Run(AddElement(st.(stack := st.stack[..|st.stack| - 1]), Elem(name, top.attrs, top.kids)), S(r))
  {
    CloseTagIs(name, r);
    TagStep(st, [SLASH] + (Escape(name) + [GT] + r));
    EndTagIs(st, name, r);
  }

  // ---------------------------------------------------------------- trees

  /** Reading a tree's text adds the tree; words count once an element has been entered. */
  function Added(st: State, t: Tree): State {
    AddElement(st, t).(typed := st.typed || (t.Elem? && t.kids != []))
  }

  function AddedAll(st: State, ts: seq<Tree>): State
    decreases |ts|
  {
    if ts == [] then st else AddedAll(Added(st, ts[0]), ts[1..])
  }

  /** Adding trees under the parent extends its list of children. */
  lemma {:induction false} AddedUnder(st: State, ts: seq<Tree>)
    requires st.stack != [] && st.typed
    ensures var top := st.stack[|st.stack| - 1];
      AddedAll(st, ts) == st.(stack := st.stack[..|st.stack| - 1] + [top.(kids := top.kids + ts)])
    decreases |ts|
  {
    var top := st.stack[|st.stack| - 1];
    if ts == [] {
      assert top.kids + ts == top.kids;
      assert st.stack == st.stack[..|st.stack| - 1] + [top];
    } else {
      var st1 := Added(st, ts[0]);
      AddedUnder(st1, ts[1..]);
      assert st1.stack[..|st1.stack| - 1] == st.stack[..|st.stack| - 1];
      assert top.kids + [ts[0]] + ts[1..] == top.kids + ts;
    }
  }

  lemma {:induction false} TreeReads(t: Tree, st: State, r: seq<Byte>)
    requires Fine(t) && Ready(st)
    ensures Run(st, S(TextOf(t) + r)) == Run(Added(st, t), S(r))
    decreases t, 1, 0
  {
    hide Run, StartTag, Escape, AttrsText, Stream;
    var tail := TextAll(t.kids) + (CloseTag(t.name) + r);
    if t.kids == [] {
      assert TextOf(t) == OpenTag(t.name, t.attrs, true);
      StartTagReads(st, t.name, t.attrs, true, r);
    } else {
      assert TextOf(t) + r == OpenTag(t.name, t.attrs, false) + tail;
      StartTagReads(st, t.name, t.attrs, false, tail);
      var inside := Entered(st, t.name, t.attrs, false);
      TreesRead(t, 0, inside, CloseTag(t.name) + r);
      assert t.kids[0..] == t.kids;
      AddedUnder(inside, t.kids);
      EndTagReads(AddedAll(inside, t.kids), t.name, r);
      assert inside.stack[..|inside.stack| - 1] == st.stack;
      assert [] + t.kids == t.kids;
    }
  }

  lemma {:induction false} TreesRead(t: Tree, i: nat, st: State, r: seq<Byte>)
    requires Fine(t) && i <= |t.kids| && Ready(st) && st.stack != []
    ensures Run(st, S(TextAll(t.kids[i..]) + r)) == Run(AddedAll(st, t.kids[i..]), S(r))
    decreases t, 0, |t.kids| - i
  {
    if i == |t.kids| {
      assert TextAll(t.kids[i..]) + r == r;
    } else {
      var k, rest := t.kids[i], t.kids[i + 1..];
      assert t.kids[i..][0] == k && t.kids[i..][1..] == rest && k in t.kids;
      Assoc(TextOf(k), TextAll(rest), r);
      TreeReads(k, st, TextAll(rest) + r);
      TreesRead(t, i + 1, Added(st, k), r);
    }
  }

  lemma {:induction false} SpacesEnd(st: State, ws: seq<Byte>)
    requires st.text == [] && forall b | b in ws :: IsSpace(b)
    ensures Run(st, S(ws)) == Finish(st)
    decreases |ws|
  {
    if ws != [] {
      assert ws[0] in ws;
      assert ws == [ws[0]] + ws[1..];
      NextByte(ws[0], ws[1..]);
      SpacesEnd(Flush(st, ws[0]), ws[1..]);
    }
  }

  lemma StartsWithTag(t: Tree, ws: seq<Byte>)
    requires t.Elem?
    ensures Next(S(TextOf(t) + ws)).ch == LT
  {
    var text := TextOf(t) + ws;
    assert OpenTag(t.name, t.attrs, t.kids == [])[0] == LT;
    assert text[0] == LT;
    assert text == [LT] + text[1..];
    NextByte(LT, text[1..]);
  }

  /** The text of a fine tree, and white space after it, loads as that tree. */
  lemma SavedLoads(t: Tree, ws: seq<Byte>)
    requires Fine(t) && forall b | b in ws :: IsSpace(b)
    ensures Load(S(TextOf(t) + ws)) == Loaded(t)
  {
    StartsWithTag(t, ws);
    TreeReads(t, START, ws);
    SpacesEnd(Added(START, t), ws);
  }

  /** Two fine trees with the same text are the same tree. */
  lemma TextIsInjective(t: Tree, u: Tree)
    requires Fine(t) && Fine(u) && TextOf(t) == TextOf(u)
    ensures t == u
  {
    SavedLoads(t, []);
    SavedLoads(u, []);
    assert Loaded(t) == Loaded(u);
  }

  // ---------------------------------------------------------------- from the heap and back

  lemma {:induction false} FineElements(sh: Shape, n: Node)
    requires Good(sh) && n in sh.kids && Fine(TreeOf(sh, n))
    ensures Elements(sh, n)
    decreases sh.rank[n]
  {
    forall m | m in Pre(sh, n) ensures m.value.Element? {
      if m != n {
        var i := UnderSomeKid(sh, n, 0, m);
        KidTree(sh, n, 0, i);
        FineElements(sh, sh.kids[n][i]);
      }
    }
  }

  /** Saves the tree under a node, with the newline that a file ends with. */
  method Save(doc: Document, node: Node) returns (bytes: seq<Byte>)
    requires doc.Valid() && node in doc.shape.kids && Elements(doc.shape, node)
    ensures bytes == TextOf(TreeOf(doc.shape, node)) + [0x0a]
  {
    var out := new Output();
    WriteFrom(node, out, doc.shape, doc.links);
    bytes := out.bytes + [0x0a];
  }

  method LoadBytes(bytes: seq<Byte>, doc: Document) returns (root: Node?)
    requires doc.Valid() && !Load(S(bytes)).OtherMarkup?
    modifies doc, doc.shape.kids.Keys
    ensures doc.Valid() && Delivers(Load(S(bytes)), old(doc.shape), doc.shape, root)
  {
    hide Linked, Delivers, Load;
    var r := new Reader(bytes);
    var foreign;
    root, foreign := LoadData(r, doc);
  }

  /** Saves the tree under a node and loads the result into a new document. */
  method SaveAndLoad(doc: Document, node: Node) returns (copy: Document, root: Node?)
    requires doc.Valid() && node in doc.shape.kids && Fine(TreeOf(doc.shape, node))
    ensures copy.Valid() && fresh(copy) && NewTree(Shape(map[], map[]), copy.shape, root, TreeOf(doc.shape, node))
  {
    hide ChildLinks, SiblingLinks, RootLinks, Matches, Load, Good, Elements, Fine, Extends, HasParent;
    FineElements(doc.shape, node);
    SavedLoads(TreeOf(doc.shape, node), [0x0a]);
    var bytes := Save(doc, node);
    copy := new Document();
    root := LoadBytes(bytes, copy);
  }
}
