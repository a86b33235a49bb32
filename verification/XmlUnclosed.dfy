/**
Texts that end too early. When only the root element is still open, the loader closes it
without a word; when more are, it refuses the text.
*/
module XmlUnclosed {
  import opened Common
  import opened Utf8
  import opened XmlShape
  import opened XmlText
  import opened XmlAttr
  import opened XmlParse
  import opened XmlRoundTrip

  /** The text of elements each of which stays open after its children, the next one inside it. */
  function Unclosed(ts: seq<Tree>): seq<Byte>
    requires forall t | t in ts :: t.Elem?
  {
    if ts == [] then [] else OpenTag(ts[0].name, ts[0].attrs, false) + TextAll(ts[0].kids) + Unclosed(ts[1..])
  }

  function OpenOf(t: Tree): Open
    requires t.Elem?
  {
    Open(t.name, t.attrs, t.kids)
  }

  /** The state in which these elements are open. */
  function Inside(st: State, ts: seq<Tree>): State
    requires forall t | t in ts :: t.Elem?
    decreases |ts|
  {
    if ts == [] then st else Inside(st.(stack := st.stack + [OpenOf(ts[0])], typed := true), ts[1..])
  }

  lemma {:induction false} InsideIs(st: State, ts: seq<Tree>)
    requires forall t | t in ts :: t.Elem?
    ensures |Inside(st, ts).stack| == |st.stack| + |ts|
    decreases |ts|
  {
    if ts != [] {
      InsideIs(st.(stack := st.stack + [OpenOf(ts[0])], typed := true), ts[1..]);
    }
  }

  /** A start tag and the children behind it leave the element open with those children. */
  lemma OpenReads(st: State, t: Tree, r: seq<Byte>)
    requires Ready(st) && Fine(t)
    ensures var st' := st.(stack := st.stack + [OpenOf(t)], typed := true);
      Ready(st') && Run(st, S(OpenTag(t.name, t.attrs, false) + TextAll(t.kids) + r)) == Run(st', S(r))
  {
    hide Run, StartTag, Escape, AttrsText, Stream;
    Assoc(OpenTag(t.name, t.attrs, false), TextAll(t.kids), r);
    StartTagReads(st, t.name, t.attrs, false, TextAll(t.kids) + r);
    var inside := Entered(st, t.name, t.attrs, false);
    TreesRead(t, 0, inside, r);
    assert t.kids[0..] == t.kids;
    AddedUnder(inside, t.kids);
    assert inside.stack[..|inside.stack| - 1] == st.stack;
    assert [] + t.kids == t.kids;
  }

  lemma {:induction false} UnclosedReads(st: State, ts: seq<Tree>, ws: seq<Byte>)
    requires Ready(st) && (forall t | t in ts :: t.Elem? && Fine(t)) && forall b | b in ws :: IsSpace(b)
    ensures Run(st, S(Unclosed(ts) + ws)) == Finish(Inside(st, ts))
    decreases |ts|
  {
    hide Run, Finish, Stream, Fine, OpenTag, TextAll;
    if ts == [] {
      assert Unclosed(ts) + ws == ws;
      SpacesEnd(st, ws);
    } else {
      assert ts[0] in ts;
      var front, rest := OpenTag(ts[0].name, ts[0].attrs, false) + TextAll(ts[0].kids), Unclosed(ts[1..]);
      Assoc(front, rest, ws);
      OpenReads(st, ts[0], rest + ws);
      UnclosedReads(st.(stack := st.stack + [OpenOf(ts[0])], typed := true), ts[1..], ws);
    }
  }

  lemma UnclosedStarts(ts: seq<Tree>, ws: seq<Byte>)
    requires ts != [] && forall t | t in ts :: t.Elem?
    ensures Next(S(Unclosed(ts) + ws)).ch == LT
  {
    hide Stream, Escape, AttrsText, TagEnd, TextAll;
    var text := Unclosed(ts) + ws;
    var tag, rest := OpenTag(ts[0].name, ts[0].attrs, false), TextAll(ts[0].kids) + Unclosed(ts[1..]);
    assert tag[0] == LT;
    Assoc(tag, TextAll(ts[0].kids), Unclosed(ts[1..]));
    hide Unclosed, OpenTag;
    assert text[0] == LT by {
      assert text == (tag + rest) + ws;
    }
    assert text == [LT] + text[1..];
    NextByte(LT, text[1..]);
  }

  lemma RootInside(t: Tree)
    requires t.Elem?
    ensures Inside(START, [t]).stack == [OpenOf(t)]
  {
    var st := START.(stack := START.stack + [OpenOf(t)], typed := true);
    assert Inside(st, []) == st && [t][1..] == [];
  }

  /**
  A text that ends with elements open is loaded, as if the end tag were there, exactly if only
  the root is open.
  */
  lemma UnclosedLoads(ts: seq<Tree>, ws: seq<Byte>)
    requires ts != [] && (forall t | t in ts :: t.Elem? && Fine(t)) && forall b | b in ws :: IsSpace(b)
    ensures Load(S(Unclosed(ts) + ws)) == if |ts| == 1 then Loaded(ts[0]) else Failed
  {
    hide Run, Unclosed, Stream, Fine;
    UnclosedStarts(ts, ws);
    UnclosedReads(START, ts, ws);
    InsideIs(START, ts);
    if |ts| == 1 {
      RootInside(ts[0]);
      assert ts == [ts[0]];
    }
    hide Inside;
  }
}
