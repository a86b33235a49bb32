/**
When loading does not undo saving: the printer writes an attribute that has no value as its
name alone, and the loader takes no such attribute. A tree with fine names and values comes
back exactly if every attribute in it has a value.
*/
module XmlNoValue {
  import opened Common
  import opened Utf8
  import opened XmlShape
  import opened XmlText
  import opened XmlAttr
  import opened XmlParse
  import opened XmlRoundTrip

  ghost predicate NamedAttr(a: Attr) {
    IsName(a.name) && (a.value.Some? ==> IsValue(a.value.value))
  }

  /** Element trees as in the round trip, but attributes may be without a value. */
  ghost predicate Named(t: Tree) {
    match t
    case Elem(name, attrs, kids) =>
      && IsName(name) && Distinct(attrs) && (forall a | a in attrs :: NamedAttr(a))
      && forall k | k in kids :: Named(k)
    case Words(_, _) => false
  }

  predicate HasValues(attrs: seq<Attr>) {
    forall a | a in attrs :: a.value.Some?
  }

  /** Every attribute in the tree has a value. */
  predicate Valued(t: Tree) {
    match t
    case Elem(_, attrs, kids) => HasValues(attrs) && forall k | k in kids :: Valued(k)
    case Words(_, _) => true
  }

  lemma {:induction false} FineIs(t: Tree)
    ensures Fine(t) <==> Named(t) && Valued(t)
  {
    if t.Elem? {
      forall k | k in t.kids ensures Fine(k) <==> Named(k) && Valued(k) {
        FineIs(k);
      }
      assert forall a | a in t.attrs :: FineAttr(a) <==> NamedAttr(a) && a.value.Some?;
    }
  }

  // ---------------------------------------------------------------- attributes

  lemma NameFirst(name: seq<Byte>, r: seq<Byte>)
    requires IsName(name)
    ensures StartsAttribute(Next(S(Escape(name) + r)).ch)
  {
    var cs :| NameOf(name, cs);
    assert cs[0] in cs && NameChar(cs[0]);
    NamePlain(cs);
    Assoc(Encode(cs[0]), EncodeAll(cs[1..]), r);
    NextChar(cs[0], EncodeAll(cs[1..]) + r);
  }

  lemma AttrFirst(a: Attr, r: seq<Byte>)
    requires IsName(a.name)
    ensures StartsAttribute(Next(S(AttrText(a)[1..] + r)).ch)
  {
    hide Stream, Escape, StartsAttribute;
    var rest := if a.value.Some? then [EQUALS, QUOTE] + Escape(a.value.value) + [QUOTE] else [];
    assert AttrText(a)[1..] == Escape(a.name) + rest;
    Assoc(Escape(a.name), rest, r);
    NameFirst(a.name, rest + r);
  }

  lemma BareEnd(end: Byte, tail: seq<Byte>)
    requires end == SLASH || end == GT || (end == SPACE && StartsAttribute(Next(S(tail)).ch))
    ensures AfterName(end, S(tail)).ch == EOF
  {
    if end == SPACE {
      var g := Next(S(tail));
      assert SkipSpace(g.ch, g.rest) == g;
    }
  }

  /** What follows the name of an attribute without a value: another attribute, or the end of the tag. */
  lemma AfterBare(attrs: seq<Attr>, empty: bool, r: seq<Byte>) returns (end: Byte, tail: seq<Byte>)
    requires forall a | a in attrs :: NamedAttr(a)
    ensures AttrsText(attrs) + TagEnd(empty) + r == [end] + tail
    ensures end == SPACE || end == SLASH || end == GT
    ensures AfterName(end, S(tail)).ch == EOF
  {
    hide Stream, Escape, AfterName;
    if attrs == [] {
      assert AttrsText(attrs) + TagEnd(empty) + r == TagEnd(empty) + r;
      end, tail := EndOfTag(empty, r);
    } else {
      assert attrs[0] in attrs && NamedAttr(attrs[0]);
      end := SPACE;
      tail := NextAttr(attrs[0], AttrsText(attrs[1..]), TagEnd(empty), r);
    }
    BareEnd(end, tail);
  }

  lemma EndOfTag(empty: bool, r: seq<Byte>) returns (end: Byte, tail: seq<Byte>)
    ensures TagEnd(empty) + r == [end] + tail && (end == SLASH || end == GT)
  {
    end, tail := TagEnd(empty)[0], TagEnd(empty)[1..] + r;
    assert TagEnd(empty) == [end] + TagEnd(empty)[1..];
  }

  lemma NextAttr(a: Attr, more: seq<Byte>, close: seq<Byte>, r: seq<Byte>) returns (tail: seq<Byte>)
    requires IsName(a.name)
    ensures AttrText(a) + more + close + r == [SPACE] + tail && StartsAttribute(Next(S(tail)).ch)
  {
    hide Stream, Escape, StartsAttribute;
    var others := more + close + r;
    tail := AttrText(a)[1..] + others;
    XmlRoundTrip.Front(AttrText(a), more, close, r);
    assert AttrText(a) == [SPACE] + AttrText(a)[1..];
    Assoc([SPACE], AttrText(a)[1..], others);
    AttrFirst(a, others);
  }

  lemma BareFails(a: Attr, attrs: seq<Attr>, empty: bool, r: seq<Byte>, got: seq<Attr>)
    requires IsName(a.name) && a.value.None? && forall b | b in attrs :: NamedAttr(b)
    ensures ParseAttributes(S(AttrText(a) + (AttrsText(attrs) + TagEnd(empty) + r)), got) == ParseError
  {
    hide Stream, Escape, AttrsText, AttrName;
    var end, tail := AfterBare(attrs, empty, r);
    var rest := AttrsText(attrs) + TagEnd(empty) + r;
    SpaceFirst(a, rest, got);
    assert AttrText(a)[1..] == Escape(a.name);
    Assoc(Escape(a.name), [end], tail);
    AttrNameIs(a.name, end, tail);
  }

  lemma {:induction false} AttributesFail(attrs: seq<Attr>, i: nat, empty: bool, r: seq<Byte>)
    requires i <= |attrs| && Distinct(attrs) && !HasValues(attrs[i..]) && forall a | a in attrs :: NamedAttr(a)
    ensures ParseAttributes(S(AttrsText(attrs[i..]) + TagEnd(empty) + r), attrs[..i]) == ParseError
    decreases |attrs| - i
  {
    var a, rest := attrs[i], attrs[i + 1..];
    assert attrs[i..] == [a] + rest && attrs[i..][1..] == rest && a in attrs && attrs[..i] + [a] == attrs[..i + 1];
    assert forall b | b in rest :: b in attrs;
    XmlRoundTrip.Front(AttrText(a), AttrsText(rest), TagEnd(empty), r);
    if a.value.None? {
      BareFails(a, rest, empty, r, attrs[..i]);
    } else {
      var tail := AttrsText(rest) + TagEnd(empty) + r;
      NotYetThere(attrs, i);
      SpaceFirst(a, tail, attrs[..i]);
      AttributeReads(a, tail, attrs[..i]);
      AttributesFail(attrs, i + 1, empty, r);
    }
  }

  // ---------------------------------------------------------------- tags and trees

  lemma StartTagFails(st: State, name: seq<Byte>, attrs: seq<Attr>, empty: bool, r: seq<Byte>)
    requires Ready(st) && IsName(name) && Distinct(attrs) && !HasValues(attrs) && forall a | a in attrs :: NamedAttr(a)
    ensures Run(st, S(OpenTag(name, attrs, empty) + r)) == Failed
  {
    hide Run, Stream, Escape, TagName, ParseAttributes;
    var text := AttrsText(attrs) + TagEnd(empty) + r;
    Front4([LT], Escape(name), AttrsText(attrs), TagEnd(empty), r);
    TagStep(st, Escape(name) + text);
    var others := AttrsText(attrs[1..]) + TagEnd(empty) + r;
    var inner := AttrText(attrs[0])[1..] + others;
    XmlRoundTrip.Front(AttrText(attrs[0]), AttrsText(attrs[1..]), TagEnd(empty), r);
    assert AttrText(attrs[0]) == [SPACE] + AttrText(attrs[0])[1..];
    Assoc([SPACE], AttrText(attrs[0])[1..], others);
    assert attrs[0..] == attrs && attrs[..0] == [];
    AttributesFail(attrs, 0, empty, r);
    SpaceFirst(attrs[0], others, []);
    Assoc(Escape(name), [SPACE], inner);
    NameReads(name, SPACE, inner);
  }

  lemma {:induction false} TreeFails(t: Tree, st: State, r: seq<Byte>)
    requires Named(t) && !Valued(t) && Ready(st)
    ensures Run(st, S(TextOf(t) + r)) == Failed
    decreases t, 1, 0
  {
    var after := if t.kids == [] then [] else TextAll(t.kids) + CloseTag(t.name);
    assert TextOf(t) == OpenTag(t.name, t.attrs, t.kids == []) + after;
    Assoc(OpenTag(t.name, t.attrs, t.kids == []), after, r);
    if !HasValues(t.attrs) {
      StartTagFails(st, t.name, t.attrs, t.kids == [], after + r);
    } else {
      assert forall a | a in t.attrs :: FineAttr(a);
      StartTagReads(st, t.name, t.attrs, false, after + r);
      Assoc(TextAll(t.kids), CloseTag(t.name), r);
      assert t.kids[0..] == t.kids;
      TreesFail(t, 0, Entered(st, t.name, t.attrs, false), CloseTag(t.name) + r);
    }
  }

  ghost predicate AllValued(ts: seq<Tree>) {
    forall k | k in ts :: Valued(k)
  }

  lemma ValuedRest(ts: seq<Tree>)
    requires !AllValued(ts)
    ensures ts != [] && (!Valued(ts[0]) || !AllValued(ts[1..]))
  {
    if ts != [] {
      assert ts == [ts[0]] + ts[1..];
    }
  }

  lemma {:induction false} TreesFail(t: Tree, i: nat, st: State, r: seq<Byte>)
    requires Named(t) && i <= |t.kids| && Ready(st) && st.stack != []
    requires !AllValued(t.kids[i..])
    ensures Run(st, S(TextAll(t.kids[i..]) + r)) == Failed
    decreases t, 0, |t.kids| - i
  {
    ValuedRest(t.kids[i..]);
    var k, rest := t.kids[i], t.kids[i + 1..];
    assert t.kids[i..][0] == k && t.kids[i..][1..] == rest && k in t.kids;
    Assoc(TextOf(k), TextAll(rest), r);
    if !Valued(k) {
      TreeFails(k, st, TextAll(rest) + r);
    } else {
      FineIs(k);
      TreeReads(k, st, TextAll(rest) + r);
      TreesFail(t, i + 1, Added(st, k), r);
    }
  }

  /** A tree with fine names and values comes back exactly if every attribute has a value. */
  lemma LoadsBackExactly(t: Tree, ws: seq<Byte>)
    requires Named(t) && forall b | b in ws :: IsSpace(b)
    ensures Load(S(TextOf(t) + ws)) == if Valued(t) then Loaded(t) else Failed
  {
    FineIs(t);
    if Valued(t) {
      SavedLoads(t, ws);
    } else {
      StartsWithTag(t, ws);
      TreeFails(t, START, ws);
    }
  }

  lemma OneLetter(c: nat)
    requires NameChar(c) && c < 0x80
    ensures IsName([c])
  {
    EncodeOne(c);
    assert NameOf([c], [c]);
  }

  /** An element a with an attribute b that has no value is saved, and its text is refused. */
  lemma BareAttributeIsRefused()
    ensures var t := Elem([0x61], [Attr([0x62], None)], []);
      Named(t) && !Valued(t) && Load(S(TextOf(t))) == Failed
  {
    var t := Elem([0x61], [Attr([0x62], None)], []);
    OneLetter(0x61);
    OneLetter(0x62);
    assert t.attrs[0] in t.attrs;
    LoadsBackExactly(t, []);
    assert TextOf(t) + [] == TextOf(t);
  }
}
