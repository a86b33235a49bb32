/**
Documents as people write them: elements, words, and white space between them. Every word
becomes a text node that remembers whether white space came before it, and white space alone
before a tag becomes a text node of its own.
*/
module XmlMixed {
  import opened Common
  import opened Utf8
  import opened XmlShape
  import opened XmlText
  import opened XmlAttr
  import opened XmlParse
  import opened XmlRoundTrip
  import opened XmlEntity
  import opened XmlTags
  import opened XmlTree
  import opened XmlBuild
  import opened XmlLoad

  // ---------------------------------------------------------------- documents

  /**
  A word or an element, and the white space before it. pad is the white space before the end of the start
  tag, tail that before the end tag, and shut that within it.
  */
  datatype Piece =
    | Lettered(gap: seq<Byte>, letters: seq<Letter>)
    | Nested(gap: seq<Byte>, name: seq<Byte>, settings: seq<Setting>, pad: seq<Byte>, short: bool,
        inside: seq<Piece>, tail: seq<Byte>, shut: seq<Byte>)

  /** White space stands between two words; an element without an end tag is empty. */
  ghost predicate FinePiece(p: Piece) {
    && Blank(p.gap)
    && match p
       case Lettered(_, letters) => letters != [] && forall l | l in letters :: FineLetter(l)
       case Nested(_, name, settings, pad, short, inside, tail, shut) =>
         && IsName(name) && Distinct(AttrsFor(settings)) && (forall a | a in settings :: FineSetting(a))
         && Blank(pad) && Blank(tail) && Blank(shut) && (short ==> inside == [] && tail == [])
         && (forall q | q in inside :: FinePiece(q))
         && forall i | 0 < i < |inside| :: inside[i - 1].Lettered? && inside[i].Lettered? ==> inside[i].gap != []
  }

  function StartOf(p: Piece): seq<Byte>
    requires p.Nested?
  {
    StartText(p.name, p.settings, p.pad, p.short)
  }

  /** An element from its start tag on. */
  function Tagged(p: Piece): seq<Byte>
    requires p.Nested?
    decreases p, 0
  {
    StartOf(p) + if p.short then [] else Written(p.inside) + (p.tail + EndText(p.name, p.shut))
  }

  function WrittenOne(p: Piece): seq<Byte>
    decreases p, 1
  {
    p.gap + if p.Lettered? then SpelledAll(p.letters) else Tagged(p)
  }

  function Written(ps: seq<Piece>): seq<Byte>
    decreases ps
  {
    if ps == [] then [] else Written(ps[..|ps| - 1]) + WrittenOne(ps[|ps| - 1])
  }

  // ---------------------------------------------------------------- what they mean

  /** White space alone before a tag. */
  function Lone(gap: seq<Byte>): seq<Tree> {
    if gap == [] then [] else [Words(true, [])]
  }

  function ElementOf(p: Piece): Tree
    requires p.Nested?
    decreases p, 0
  {
    Elem(p.name, AttrsFor(p.settings), MeantAll(p.inside) + Lone(p.tail))
  }

  /** The nodes that a piece adds to its element. */
  function Meant(p: Piece): seq<Tree>
    decreases p, 1
  {
    if p.Lettered? then [Words(p.gap != [], Letters(p.letters))] else Lone(p.gap) + [ElementOf(p)]
  }

  function MeantAll(ps: seq<Piece>): seq<Tree>
    decreases ps
  {
    if ps == [] then [] else MeantAll(ps[..|ps| - 1]) + Meant(ps[|ps| - 1])
  }

  // ---------------------------------------------------------------- words

  lemma LetterReads(l: Letter, st: State, r: seq<Byte>)
    requires FineLetter(l)
    ensures Run(st, S(Spelled(l) + r)) == Run(st.(text := st.text + Encode(l.c)), S(r))
  {
    hide Stream, Entity, NumericName, Encode;
    match l
    case Plain(c) =>
      EscapeChar(c);
      if Special(c) {
        SpecialReads(c, r);
      } else {
        NextChar(c, r);
      }
    case Numeric(c, hex, upper, zeros) =>
      var name := NumericName(c, hex, upper, zeros);
      Assoc([AMP], name + [SEMICOLON], r);
      NextByte(AMP, name + [SEMICOLON] + r);
      NumericReads(c, hex, upper, zeros, r);
  }

  lemma {:induction false} LettersRead(ls: seq<Letter>, st: State, r: seq<Byte>)
    requires forall l | l in ls :: FineLetter(l)
    ensures Run(st, S(SpelledAll(ls) + r)) == Run(st.(text := st.text + Letters(ls)), S(r))
    decreases |ls|
  {
    hide Run, Spelled, FineLetter;
    if ls == [] {
      assert SpelledAll(ls) + r == r && st.text + Letters(ls) == st.text;
    } else {
      assert ls[0] in ls;
      Assoc(Spelled(ls[0]), SpelledAll(ls[1..]), r);
      LetterReads(ls[0], st, SpelledAll(ls[1..]) + r);
      LettersRead(ls[1..], st.(text := st.text + Encode(ls[0].c)), r);
      Assoc(st.text, Encode(ls[0].c), Letters(ls[1..]));
    }
  }

  // ---------------------------------------------------------------- white space

  /** The word that is being gathered. */
  function Pending(st: State): seq<Tree> {
    if st.text == [] then [] else [Words(st.space, st.text)]
  }

  /** More children under the parent, and nothing being gathered. */
  function More(st: State, ts: seq<Tree>): State
    requires st.stack != []
  {
    var top := st.stack[|st.stack| - 1];
    st.(text := [], space := false, stack := st.stack[..|st.stack| - 1] + [top.(kids := top.kids + ts)])
  }

  lemma MoreMore(st: State, ts: seq<Tree>, us: seq<Tree>)
    requires st.stack != []
    ensures More(More(st, ts), us) == More(st, ts + us)
  {
    var top := st.stack[|st.stack| - 1];
    Assoc(top.kids, ts, us);
  }

  lemma {:induction false} BlankReads(gap: seq<Byte>, st: State, r: seq<Byte>)
    requires gap != [] && Blank(gap) && st.typed && st.stack != []
    ensures Run(st, S(gap + r)) == Run(More(st, Pending(st)).(space := true), S(r))
    decreases |gap|
  {
    hide Stream;
    var b, rest := gap[0], gap[1..];
    BlankTail(gap);
    assert gap + r == [b] + (rest + r);
    NextByte(b, rest + r);
    var st1 := More(st, Pending(st)).(space := true);
    FlushIs(st, b);
    assert Run(st, S(gap + r)) == Run(st1, S(rest + r));
    hide Run;
    if rest == [] {
      assert rest + r == r;
    } else {
      BlankReads(rest, st1, r);
      FlushIs(st1, b);
      MoreNothing(st1);
    }
  }

  lemma MoreNothing(st: State)
    requires st.stack != []
    ensures More(st, []) == st.(text := [], space := false)
  {
    var top := st.stack[|st.stack| - 1];
    assert top.kids + [] == top.kids;
    assert st.stack[..|st.stack| - 1] + [top] == st.stack;
  }

  lemma FlushIs(st: State, ch: nat)
    requires st.typed && st.stack != [] && (IsSpace(ch) || ch == LT)
    ensures Flush(st, ch) == More(st, Pending(st)).(space := IsSpace(ch) || (st.text == [] && st.space))
  {
    MoreNothing(st);
  }

  /** White space, and what was being gathered before it, is settled when a tag begins. */
  lemma TagSettles(st: State, gap: seq<Byte>, x: seq<Byte>)
    requires Blank(gap) && st.typed && st.stack != [] && (st.text == [] ==> !st.space)
    ensures Run(st, S(gap + ([LT] + x))) == Run(More(st, Pending(st) + Lone(gap)), S([LT] + x))
  {
    hide Stream, Tag;
    NextByte(LT, x);
    var st' := More(st, Pending(st) + Lone(gap));
    assert LoneSpace(Flush(st', LT)) == st';
    if gap == [] {
      assert gap + ([LT] + x) == [LT] + x && Pending(st) + Lone(gap) == Pending(st);
      FlushIs(st, LT);
    } else {
      BlankReads(gap, st, [LT] + x);
      var st1 := More(st, Pending(st)).(space := true);
      FlushIs(st1, LT);
      MoreNothing(st1);
      MoreMore(st, Pending(st), Lone(gap));
    }
  }

  // ---------------------------------------------------------------- elements

  /** What reading an element adds. */
  function WithElement(st: State, p: Piece): State
    requires p.Nested?
  {
    AddElement(st, ElementOf(p)).(typed := st.typed || !p.short)
  }

  /** Between pieces: what has been read is the pieces so far, the last word of them still being gathered. */
  ghost predicate Reached(st: State, ps: seq<Piece>, now: State)
    requires st.stack != []
  {
    && now.typed && now.stack != [] && (now.text == [] ==> !now.space)
    && (now.text != [] ==> ps != [] && ps[|ps| - 1].Lettered?)
    && More(now, Pending(now)) == More(st, MeantAll(ps))
  }

  /** The state within an element. */
  function Within(st: State, p: Piece): State
    requires p.Nested?
  {
    Entered(st, p.name, AttrsFor(p.settings), false)
  }

  lemma StartOfReads(p: Piece, st: State, r: seq<Byte>)
    requires p.Nested? && FinePiece(p) && Ready(st)
    ensures Run(st, S(StartOf(p) + r)) == Run(Entered(st, p.name, AttrsFor(p.settings), p.short), S(r))
  {
    StartReads(st, p.name, p.settings, p.pad, p.short, r);
  }

  lemma {:induction false} NestedReads(p: Piece, st: State, r: seq<Byte>)
    requires p.Nested? && FinePiece(p) && Ready(st)
    ensures Run(st, S(Tagged(p) + r)) == Run(WithElement(st, p), S(r))
    decreases p, 1, 0
  {
    hide Run, Stream, StartOf, AttrsFor;
    if p.short {
      assert Tagged(p) == StartOf(p);
      StartOfReads(p, st, r);
      assert MeantAll(p.inside) + Lone(p.tail) == [];
    } else {
      var close := p.tail + EndText(p.name, p.shut);
      Assoc(StartOf(p), Written(p.inside) + close, r);
      Assoc(Written(p.inside), close, r);
      StartOfReads(p, st, Written(p.inside) + (close + r));
      assert p.inside[..|p.inside|] == p.inside;
      var now := PiecesRead(p, |p.inside|, Within(st, p), close + r);
      CloseReads(p, st, now, r);
    }
  }

  /** The end tag, after white space, makes the element a child. */
  lemma CloseReads(p: Piece, st: State, now: State, r: seq<Byte>)
    requires p.Nested? && !p.short && IsName(p.name) && Blank(p.tail) && Blank(p.shut)
    requires Reached(Within(st, p), p.inside, now) && Ready(st)
    ensures Run(now, S(p.tail + EndText(p.name, p.shut) + r)) == Run(WithElement(st, p), S(r))
  {
    hide Run, Stream, MeantAll;
    EndSplit(p.name, p.shut, r);
    Assoc(p.tail, EndText(p.name, p.shut), r);
    var x := [SLASH] + (p.name + (p.shut + ([GT] + r)));
    TagSettles(now, p.tail, x);
    MoreMore(now, Pending(now), Lone(p.tail));
    MoreMore(Within(st, p), MeantAll(p.inside), Lone(p.tail));
    var done := More(now, Pending(now) + Lone(p.tail));
    EndReads(done, p.name, p.shut, r);
    assert [] + (MeantAll(p.inside) + Lone(p.tail)) == MeantAll(p.inside) + Lone(p.tail);
    assert done.stack[..|done.stack| - 1] == st.stack;
  }

  lemma {:induction false} PiecesRead(p: Piece, n: nat, st: State, r: seq<Byte>) returns (now: State)
    requires p.Nested? && FinePiece(p) && n <= |p.inside|
    requires st.typed && st.stack != [] && st.text == [] && !st.space
    ensures Reached(st, p.inside[..n], now)
    ensures Run(st, S(Written(p.inside[..n]) + r)) == Run(now, S(r))
    decreases p, 0, n
  {
    hide Run, Stream, More, Pending, Written, WrittenOne, Meant, MeantAll, FinePiece, Reached;
    if n == 0 {
      now := st;
      NoPieces(st, r);
      assert p.inside[..0] == [];
    } else {
      var q := p.inside[n - 1];
      assert p.inside[..n][..n - 1] == p.inside[..n - 1] && p.inside[..n][n - 1] == q;
      WrittenStep(p.inside[..n], r);
      var before := PiecesRead(p, n - 1, st, WrittenOne(q) + r);
      GapBetween(p, n - 1, st, before);
      FineInside(p, q);
      if q.Lettered? {
        now := WordRead(q, before, r);
      } else {
        now := ElementRead(q, before, r);
      }
      ReachedMore(st, p.inside[..n], before, now);
    }
  }

  lemma NoPieces(st: State, r: seq<Byte>)
    requires st.typed && st.stack != [] && st.text == [] && !st.space
    ensures Reached(st, [], st) && Written([]) + r == r
  {
    assert Written([]) == [];
  }

  lemma WrittenStep(ps: seq<Piece>, r: seq<Byte>)
    requires ps != []
    ensures Written(ps) + r == Written(ps[..|ps| - 1]) + (WrittenOne(ps[|ps| - 1]) + r)
  {
    Assoc(Written(ps[..|ps| - 1]), WrittenOne(ps[|ps| - 1]), r);
  }

  lemma FineInside(p: Piece, q: Piece)
    requires p.Nested? && FinePiece(p) && q in p.inside
    ensures FinePiece(q)
  {
  }

  /** A word is still being gathered only if white space or a tag follows. */
  lemma GapBetween(p: Piece, i: nat, st: State, before: State)
    requires p.Nested? && FinePiece(p) && i < |p.inside| && st.stack != [] && Reached(st, p.inside[..i], before)
    ensures before.typed && before.stack != [] && (before.text == [] ==> !before.space)
    ensures before.text != [] && p.inside[i].Lettered? ==> p.inside[i].gap != []
  {
    hide More, MeantAll;
    assert i > 0 ==> p.inside[..i][i - 1] == p.inside[i - 1];
  }

  lemma ReachedMore(st: State, ps: seq<Piece>, before: State, now: State)
    requires st.stack != [] && ps != [] && Reached(st, ps[..|ps| - 1], before)
    requires now.typed && now.stack != [] && (now.text == [] ==> !now.space)
    requires now.text != [] ==> ps[|ps| - 1].Lettered?
    requires More(now, Pending(now)) == More(before, Pending(before) + Meant(ps[|ps| - 1]))
    ensures Reached(st, ps, now)
  {
    MoreMore(before, Pending(before), Meant(ps[|ps| - 1]));
    MoreMore(st, MeantAll(ps[..|ps| - 1]), Meant(ps[|ps| - 1]));
    hide More, Pending, Meant;
  }

  lemma WordRead(q: Piece, before: State, r: seq<Byte>) returns (now: State)
    requires q.Lettered? && FinePiece(q) && before.typed && before.stack != [] && (before.text == [] ==> !before.space)
    requires before.text != [] ==> q.gap != []
    ensures now.typed && now.stack != [] && now.text != []
    ensures More(now, Pending(now)) == More(before, Pending(before) + Meant(q))
    ensures Run(before, S(WrittenOne(q) + r)) == Run(now, S(r))
  {
    hide Run, Stream, Letters, SpelledAll, FineLetter;
    Assoc(q.gap, SpelledAll(q.letters), r);
    var st := if q.gap == [] then before else More(before, Pending(before)).(space := true);
    if q.gap == [] {
      assert q.gap + (SpelledAll(q.letters) + r) == SpelledAll(q.letters) + r;
      MoreNothing(before);
    } else {
      BlankReads(q.gap, before, SpelledAll(q.letters) + r);
    }
    LettersRead(q.letters, st, r);
    SomeLetters(q.letters);
    assert st.text + Letters(q.letters) == Letters(q.letters);
    now := st.(text := Letters(q.letters));
    MoreMore(before, Pending(before), Meant(q));
  }

  lemma {:induction false} ElementRead(q: Piece, before: State, r: seq<Byte>) returns (now: State)
    requires q.Nested? && FinePiece(q) && before.typed && before.stack != [] && (before.text == [] ==> !before.space)
    ensures now.typed && now.stack != [] && now.text == [] && !now.space
    ensures More(now, Pending(now)) == More(before, Pending(before) + Meant(q))
    ensures Run(before, S(WrittenOne(q) + r)) == Run(now, S(r))
    decreases q, 2, 0
  {
    hide Run, Stream, ElementOf;
    Assoc(q.gap, Tagged(q), r);
    var st := More(before, Pending(before) + Lone(q.gap));
    BeginsWithTag(q, r);
    TagSettles(before, q.gap, (Tagged(q) + r)[1..]);
    NestedReads(q, st, r);
    now := WithElement(st, q);
    MoreMore(before, Pending(before) + Lone(q.gap), [ElementOf(q)]);
    Assoc(Pending(before), Lone(q.gap), [ElementOf(q)]);
    MoreNothing(now);
  }

  lemma BeginsWithTag(p: Piece, r: seq<Byte>)
    requires p.Nested?
    ensures Tagged(p) + r == [LT] + (Tagged(p) + r)[1..]
  {
    hide Written, SettingsText, TagEnd;
    assert StartOf(p)[0] == LT;
    assert (Tagged(p) + r)[0] == LT;
  }

  // ---------------------------------------------------------------- loading

  /** A document loads as exactly what its pieces mean. */
  lemma DocumentLoads(p: Piece, ws: seq<Byte>)
    requires p.Nested? && FinePiece(p) && Blank(ws)
    ensures Load(S(Tagged(p) + ws)) == Loaded(ElementOf(p))
  {
    hide Run, Stream, ElementOf, Tagged;
    BeginsWithTag(p, ws);
    NextByte(LT, (Tagged(p) + ws)[1..]);
    NestedReads(p, START, ws);
    SpacesEnd(WithElement(START, p), ws);
  }

  /** Loading a document makes new linked nodes whose tree is what its pieces mean. */
  method LoadDocument(bytes: seq<Byte>, doc: Document, ghost p: Piece, ghost ws: seq<Byte>) returns (root: Node?)
    requires doc.Valid() && p.Nested? && FinePiece(p) && Blank(ws) && bytes == Tagged(p) + ws
    modifies doc, doc.shape.kids.Keys
    ensures doc.Valid() && NewTree(old(doc.shape), doc.shape, root, ElementOf(p))
  {
    hide Document.Valid, Load, Good, Extends, HasParent, Accounted, FinePiece, Tagged, ElementOf;
    DocumentLoads(p, ws);
    root := LoadBytes(bytes, doc);
  }

  /** A text that ends within the name of its first tag loads as an empty element of that name. */
  lemma CutTagLoads(name: seq<Byte>)
    requires IsName(name)
    ensures Load(S([LT] + name)) == Loaded(Elem(name, [], []))
  {
    hide Stream, TagName;
    var cs :| NameOf(name, cs);
    NextByte(LT, name);
    CutName(cs, []);
    FirstByteOf(cs);
    assert [] + name == name;
  }

  lemma FirstByteOf(cs: seq<nat>)
    requires cs != [] && forall c | c in cs :: NameChar(c)
    ensures var name := EncodeAll(cs); name != [] && name[0] != 0x21 && name[0] != 0x3f && name[0] != SLASH
  {
    assert cs[0] in cs;
    FirstByte(cs);
  }

  lemma {:induction false} CutName(cs: seq<nat>, got: seq<Byte>)
    requires (forall c | c in cs :: NameChar(c)) && (got != [] ==> got[0] != 0x3f && got[0] != 0x21)
    ensures TagName(S(EncodeAll(cs)), got) == Word(got + EncodeAll(cs), EOF, [])
  {
    hide Encode;
    if cs == [] {
      assert got + EncodeAll(cs) == got;
    } else {
      assert cs[0] in cs && NameChar(cs[0]);
      TagNameStep(cs[0], EncodeAll(cs[1..]), got);
      CutName(cs[1..], got + Encode(cs[0]));
      Assoc(got, Encode(cs[0]), EncodeAll(cs[1..]));
    }
  }

  // ---------------------------------------------------------------- what is refused

  lemma TagBegins(st: State, s: seq<Byte>)
    ensures Run(st, S([LT] + s)) ==
      match Tag(LoneSpace(Flush(st, LT)), S(s)) case Stop(o) => o case Go(st', rest) => Run(st', rest)
  {
    NextByte(LT, s);
  }

  /** An end tag that does not close the parent is refused, whatever has been read. */
  lemma WrongEndTag(st: State, name: seq<Byte>, pad: seq<Byte>, r: seq<Byte>)
    requires IsName(name) && Blank(pad) && (st.stack != [] ==> st.stack[|st.stack| - 1].name != name)
    ensures Run(st, S(EndText(name, pad) + r)) == Failed
  {
    hide Run, Stream, TagName, SkipTag;
    EndSplit(name, pad, r);
    TagBegins(st, [SLASH] + (name + (pad + ([GT] + r))));
    var e := EndNameIs(name, pad, r);
    assert ([SLASH] + name)[1..] == name;
  }

  /** A second root is refused, whatever comes after its name. */
  lemma SecondRoot(st: State, p: Piece, r: seq<Byte>)
    requires p.Nested? && FinePiece(p) && st.stack == [] && st.root.Some?
    ensures Run(st, S(StartOf(p) + r)) == Failed
  {
    hide Run, Stream, Tag, StartOf, FinePiece;
    var e, tail := NameInTag(p, r);
    TagBegins(st, p.name + ([e] + tail));
    SecondTag(LoneSpace(Flush(st, LT)), p.name, e, tail);
  }

  lemma NameInTag(p: Piece, r: seq<Byte>) returns (e: Byte, tail: seq<Byte>)
    requires p.Nested? && FinePiece(p)
    ensures StartOf(p) + r == [LT] + (p.name + ([e] + tail)) && Follows(e) && IsName(p.name)
  {
    hide SettingsText, TagEnd;
    assert p.settings[0..] == p.settings;
    e, tail := SomethingFollows(p.settings, 0, p.pad, p.short, r);
    var rest := SettingsText(p.settings) + (p.pad + (TagEnd(p.short) + r));
    assert StartOf(p) + r == [LT] + (p.name + rest);
  }

  lemma SecondTag(st: State, name: seq<Byte>, e: Byte, tail: seq<Byte>)
    requires IsName(name) && Follows(e) && st.stack == [] && st.root.Some?
    ensures Tag(st, S(name + ([e] + tail))) == Stop(Failed)
  {
    hide Stream, TagName;
    NameIsPlain(name);
    Assoc(name, [e], tail);
    NameReads(name, e, tail);
  }

  /** A document whose root is closed by another name is refused. */
  lemma WrongEndIsRefused(p: Piece, other: seq<Byte>, pad: seq<Byte>, r: seq<Byte>)
    requires p.Nested? && FinePiece(p) && !p.short && IsName(other) && Blank(pad) && other != p.name
    ensures Load(S(StartOf(p) + (Written(p.inside) + (p.tail + (EndText(other, pad) + r))))) == Failed
  {
    hide Run, Stream, StartOf, MeantAll, Written, EndText, AttrsFor;
    var rest := p.tail + (EndText(other, pad) + r);
    TextBegins(p, Written(p.inside) + rest);
    StartOfReads(p, START, Written(p.inside) + rest);
    assert p.inside[..|p.inside|] == p.inside;
    var now := PiecesRead(p, |p.inside|, Within(START, p), rest);
    EndSplit(other, pad, r);
    TagSettles(now, p.tail, [SLASH] + (other + (pad + ([GT] + r))));
    var same := More(now, Pending(now));
    assert same.stack[|same.stack| - 1].name == p.name && |same.stack| == |now.stack|;
    WrongEndTag(More(now, Pending(now) + Lone(p.tail)), other, pad, r);
  }

  lemma TextBegins(p: Piece, r: seq<Byte>)
    requires p.Nested?
    ensures Next(S(StartOf(p) + r)).ch == LT
  {
    hide SettingsText, TagEnd, Stream;
    var text := StartOf(p) + r;
    assert StartOf(p)[0] == LT;
    assert text == [LT] + text[1..];
    NextByte(LT, text[1..]);
  }

  /** Two documents one after the other are refused. */
  lemma SecondRootIsRefused(p: Piece, gap: seq<Byte>, q: Piece, r: seq<Byte>)
    requires p.Nested? && FinePiece(p) && Blank(gap) && q.Nested? && FinePiece(q)
    ensures Load(S(Tagged(p) + (gap + (Tagged(q) + r)))) == Failed
  {
    hide Run, Stream, ElementOf, Tagged, StartOf, IsSpace;
    var rest := gap + (Tagged(q) + r);
    BeginsWithTag(p, rest);
    NextByte(LT, (Tagged(p) + rest)[1..]);
    NestedReads(p, START, rest);
    var st := WithElement(START, p);
    var st' := BlankOutside(gap, st, Tagged(q) + r);
    var more := TaggedBegins(q, r);
    SecondRoot(st', q, more);
  }

  lemma TaggedBegins(q: Piece, r: seq<Byte>) returns (more: seq<Byte>)
    requires q.Nested?
    ensures Tagged(q) + r == StartOf(q) + more
  {
    assert StartOf(q) <= Tagged(q);
    more := (Tagged(q) + r)[|StartOf(q)|..];
    assert (Tagged(q) + r)[..|StartOf(q)|] == StartOf(q);
  }

  /** White space outside the root adds nothing. */
  lemma {:induction false} BlankOutside(gap: seq<Byte>, st: State, r: seq<Byte>) returns (now: State)
    requires Blank(gap) && st.stack == [] && st.root.Some? && st.text == []
    ensures now.stack == [] && now.root == st.root && now.text == []
    ensures Run(st, S(gap + r)) == Run(now, S(r))
    decreases |gap|
  {
    hide Stream;
    now := st;
    if gap == [] {
      assert gap + r == r;
    } else {
      var b, rest := gap[0], gap[1..];
      BlankTail(gap);
      assert gap + r == [b] + (rest + r);
      NextByte(b, rest + r);
      now := BlankOutside(rest, Flush(st, b), r);
    }
  }

  /** A tag whose name holds a character that no name may hold is refused, whatever has been read. */
  lemma BadNameIsRefused(st: State, cs: seq<nat>, b: Byte, r: seq<Byte>)
    requires (forall c | c in cs :: NameChar(c)) && BadInName(b)
    ensures Run(st, S([LT] + (EncodeAll(cs) + ([b] + r)))) == Failed
  {
    hide Run, Stream, TagName;
    TagBegins(st, EncodeAll(cs) + ([b] + r));
    BadName(cs, b, r, []);
  }

  /** A text that does not begin with a tag is refused. */
  lemma NoTagIsRefused(c: nat, r: seq<Byte>)
    requires Allowed(c) && c != '<' as int
    ensures Load(S(Encode(c) + r)) == Failed && Load(S([])) == Failed
  {
    NextChar(c, r);
  }

  /** A start tag whose attributes are refused is refused, whatever has been read. */
  lemma BadAttributesAreRefused(st: State, name: seq<Byte>, b: Byte, r: seq<Byte>)
    requires IsName(name) && b in {0x20, 0x09, 0x0d, 0x0a} && ParseAttributes(S(r), []) == ParseError
    ensures Run(st, S([LT] + (name + ([b] + r)))) == Failed
  {
    hide Run, Stream, TagName, ParseAttributes;
    TagBegins(st, name + ([b] + r));
    NameIsPlain(name);
    Assoc(name, [b], r);
    NameReads(name, b, r);
  }

  /** So is one with a slash behind its name and no bracket behind the slash. */
  lemma LoneSlashIsRefused(st: State, name: seq<Byte>, b: Byte, r: seq<Byte>)
    requires IsName(name) && b < 0x80 && Allowed(b) && b != '>' as int
    ensures Run(st, S([LT] + (name + ([SLASH] + ([b] + r))))) == Failed
  {
    hide Run, Stream, TagName;
    TagBegins(st, name + ([SLASH] + ([b] + r)));
    NameIsPlain(name);
    Assoc(name, [SLASH], [b] + r);
    NameReads(name, SLASH, [b] + r);
    NextByte(b, r);
  }

  /** Processing instructions, and what begins with an exclamation mark, are other markup. */
  lemma OtherMarkupBegins(st: State, cs: seq<nat>, end: Byte, r: seq<Byte>)
    requires (forall c | c in cs :: NameChar(c) && c != '-' as int && c != '[' as int)
    requires end in {0x20, 0x09, 0x0d, 0x0a, 0x3e}
    ensures Run(st, S([LT] + ([0x3f] + r))) == OtherMarkup
    ensures Run(st, S([LT] + ([0x21] + ([0x2d] + ([0x2d] + r))))) == OtherMarkup
    ensures Run(st, S([LT] + ([0x21] + (EncodeAll(cs) + ([end] + r))))) == OtherMarkup
  {
    hide Run, Stream, TagName;
    TagBegins(st, [0x3f] + r);
    QuestionBegins(r);
    TagBegins(st, [0x21] + ([0x2d] + ([0x2d] + r)));
    ExclamationBegins([0x2d] + ([0x2d] + r));
    CommentBegins(r);
    TagBegins(st, [0x21] + (EncodeAll(cs) + ([end] + r)));
    ExclamationBegins(EncodeAll(cs) + ([end] + r));
    DeclarationName(cs, end, r, [0x21]);
  }

  lemma QuestionBegins(r: seq<Byte>)
    ensures TagName(S([0x3f] + r), []) == Word([0x3f], 0x3f, S(r))
  {
    hide Stream;
    NextByte(0x3f, r);
    assert [] + Encode(0x3f) == [0x3f];
  }

  lemma ExclamationBegins(x: seq<Byte>)
    ensures TagName(S([0x21] + x), []) == TagName(S(x), [0x21])
  {
    hide Stream;
    NextByte(0x21, x);
    assert [] + Encode(0x21) == [0x21];
  }

  lemma CommentBegins(r: seq<Byte>)
    ensures var w := TagName(S([0x2d] + ([0x2d] + r)), [0x21]); w.Word? && w.bytes == [0x21, 0x2d, 0x2d]
  {
    hide Stream;
    NextByte(0x2d, [0x2d] + r);
    NextByte(0x2d, r);
    assert [0x21] + Encode(0x2d) == [0x21, 0x2d] && [0x21, 0x2d] + Encode(0x2d) == [0x21, 0x2d, 0x2d];
    assert TagName(S([0x2d] + ([0x2d] + r)), [0x21]) == TagName(S([0x2d] + r), [0x21, 0x2d]);
  }

  /** The name of a declaration is read up to white space or a bracket. */
  lemma {:induction false} DeclarationName(cs: seq<nat>, end: Byte, r: seq<Byte>, got: seq<Byte>)
    requires forall c | c in cs :: NameChar(c) && c != '-' as int && c != '[' as int
    requires end in {0x20, 0x09, 0x0d, 0x0a, 0x3e} && got != [] && got[0] == 0x21
    requires |got| == 1 || (got[1] != 0x2d && got[1] != 0x5b)
    ensures var w := TagName(S(EncodeAll(cs) + ([end] + r)), got); w.Word? && w.bytes != [] && w.bytes[0] == 0x21
  {
    hide Stream;
    if cs == [] {
      assert EncodeAll(cs) + ([end] + r) == [end] + r;
      NextByte(end, r);
    } else {
      var c, rest := cs[0], EncodeAll(cs[1..]);
      assert c in cs && forall d | d in cs[1..] :: d in cs;
      Assoc(Encode(c), rest, [end] + r);
      NextChar(c, rest + ([end] + r));
      assert (got + Encode(c))[0] == 0x21 && (|got| > 1 ==> (got + Encode(c))[1] == got[1]);
      DeclarationName(cs[1..], end, r, got + Encode(c));
    }
  }
}
