/**
The loader's loops: they read the input one character at a time and gather names and values
in growing buffers, and come to what XmlParse says of the input.
*/
module XmlLoad {
  import opened Common
  import opened Utf8
  import opened XmlShape
  import opened XmlText
  import opened XmlAttr
  import opened XmlParse
  import opened XmlTree
  import opened XmlDelete
  import opened XmlBuild

  method Getc(r: Reader) returns (ch: Item)
    modifies r
    ensures Next(old(r.Rest())) == Got(ch, r.Rest())
  {
    ch := r.Getc();
  }

  /** Reads the rest of an entity, after its ampersand. */
  method GetEntity(r: Reader) returns (ch: Item)
    modifies r
    ensures Entity(old(r.Rest()), []) == Got(ch, r.Rest())
  {
    var name: seq<nat> := [];
    ghost var s := r.Rest();
    ch := Getc(r);
    while EntityChar(ch)
      invariant Entity(old(r.Rest()), []) == Entity(s, name) && Next(s) == Got(ch, r.Rest())
      decreases |s|
    {
      if |name| >= ENTITY_MAX {
        return EOF;
      }
      name := name + [ch];
      s := r.Rest();
      ch := Getc(r);
    }
    if ch != SEMICOLON {
      return EOF;
    }
    var v := EntityValue(name);
    ch := if v < 0 || BadChar(v) then EOF else v;
  }

  /** Gathers a word up to the character that ends it. */
  method GetWord(r: Reader, kind: Kind, buffer: CharBuffer) returns (ok: bool, ch: Item)
    requires buffer.Valid()
    modifies r, buffer, buffer.data
    ensures buffer.Valid() && (buffer.data == old(buffer.data) || fresh(buffer.data))
    ensures Gather(old(r.Rest()), kind, old(buffer.Contents())) ==
      if ok then Word(buffer.Contents(), ch, r.Rest()) else WordError
  {
    hide Encode, Stream, Entity, EntityChar;
    ghost var s := r.Rest();
    ch := Getc(r);
    while ch != EOF && !Ends(kind, ch)
      invariant buffer.Valid() && (buffer.data == old(buffer.data) || fresh(buffer.data))
      invariant Gather(old(r.Rest()), kind, old(buffer.Contents())) == Gather(s, kind, buffer.Contents())
      invariant Next(s) == Got(ch, r.Rest())
      decreases |s|
    {
      if ch == AMP {
        ch := GetEntity(r);
        if ch == EOF {
          return false, EOF;
        }
      }
      buffer.AddChar(ch);
      s := r.Rest();
      ch := Getc(r);
    }
    ok := true;
  }

  method GetQuotedName(r: Reader, quote: nat, buffer: CharBuffer) returns (ok: bool, ch: Item)
    requires buffer.Valid()
    modifies r, buffer, buffer.data
    ensures buffer.Valid() && (buffer.data == old(buffer.data) || fresh(buffer.data))
    ensures GatherQuotedName(old(r.Rest()), quote, old(buffer.Contents())) ==
      if ok then Word(buffer.Contents(), ch, r.Rest()) else WordError
  {
    hide Encode, Stream, Entity;
    ghost var s := r.Rest();
    ch := Getc(r);
    while ch != EOF
      invariant buffer.Valid() && (buffer.data == old(buffer.data) || fresh(buffer.data))
      invariant GatherQuotedName(old(r.Rest()), quote, old(buffer.Contents()))
        == GatherQuotedName(s, quote, buffer.Contents())
      invariant Next(s) == Got(ch, r.Rest())
      decreases |s|
    {
      if ch == AMP {
        ch := GetEntity(r);
        if ch == EOF {
          return false, EOF;
        }
      }
      buffer.AddChar(ch);
      if ch == quote {
        return true, ch;
      }
      s := r.Rest();
      ch := Getc(r);
    }
    ok := true;
  }

  method GetTagName(r: Reader, buffer: CharBuffer) returns (ok: bool, ch: Item)
    requires buffer.Valid() && buffer.used == 0
    modifies r, buffer, buffer.data
    ensures buffer.Valid() && (buffer.data == old(buffer.data) || fresh(buffer.data))
    ensures TagName(old(r.Rest()), []) == if ok then Word(buffer.Contents(), ch, r.Rest()) else WordError
  {
    hide Encode, Stream, Entity;
    ghost var s := r.Rest();
    ch := Getc(r);
    while ch != EOF
      invariant buffer.Valid() && (buffer.data == old(buffer.data) || fresh(buffer.data))
      invariant TagName(old(r.Rest()), []) == TagName(s, buffer.Contents())
      invariant Next(s) == Got(ch, r.Rest())
      decreases |s|
    {
      if IsSpace(ch) || ch == GT || (ch == SLASH && buffer.used > 0) {
        break;
      } else if ch == LT {
        return false, ch;
      } else if ch == AMP {
        ch := GetEntity(r);
        if ch == EOF {
          return false, ch;
        }
        buffer.AddChar(ch);
      } else if ch < 0x30 && ch != 0x21 && ch != 0x2d && ch != 0x2e && ch != SLASH {
        return false, ch;
      } else {
        buffer.AddChar(ch);
        if MarkupStart(buffer.data[..buffer.used]) {
          break;
        }
      }
      s := r.Rest();
      ch := Getc(r);
    }
    ok := true;
  }

  method SkipSpaces(r: Reader, from: Item) returns (ch: Item)
    modifies r
    ensures SkipSpace(from, old(r.Rest())) == Got(ch, r.Rest())
  {
    ch := from;
    while ch != EOF && IsSpace(ch)
      invariant SkipSpace(from, old(r.Rest())) == SkipSpace(ch, r.Rest())
      decreases |r.Rest()|, ch != EOF
    {
      ch := Getc(r);
    }
  }

  method GetAttrName(r: Reader, ch: nat) returns (ok: bool, end: Item, name: seq<Byte>)
    modifies r
    ensures AttrName(ch, old(r.Rest())) == if ok then Word(name, end, r.Rest()) else WordError
  {
    var buffer := new CharBuffer();
    buffer.AddChar(ch);
    assert buffer.Contents() == Encode(ch) && r.Rest() == old(r.Rest());
    if IsQuote(ch) {
      ok, end := GetQuotedName(r, ch, buffer);
    } else {
      ok, end := GetWord(r, PlainName, buffer);
    }
    name := buffer.data[..buffer.used];
  }

  method GetAttrValue(r: Reader, ch: nat) returns (ok: bool, end: Item, value: seq<Byte>)
    modifies r
    ensures AttrValue(ch, old(r.Rest())) == if ok then Word(value, end, r.Rest()) else WordError
  {
    var buffer := new CharBuffer();
    assert r.Rest() == old(r.Rest());
    if IsQuote(ch) {
      ok, end := GetWord(r, Quoted(ch), buffer);
    } else {
      buffer.AddChar(ch);
      assert buffer.Contents() == Encode(ch) && r.Rest() == old(r.Rest());
      ok, end := GetWord(r, PlainValue, buffer);
    }
    value := buffer.data[..buffer.used];
  }

  /** The attributes of a new element, none of which has been cleared. */
  ghost predicate Usable(attrs: Attributes)
    reads attrs
  {
    Fits(attrs.Value()) && !attrs.block.Freed?
  }

  /** Reads one attribute and sets it; returns what ended its value. */
  method GetAttribute(r: Reader, ch: nat, attrs: Attributes) returns (ok: bool, end: Item)
    requires Usable(attrs)
    modifies r, attrs
    ensures Usable(attrs)
    ensures OneAttribute(ch, old(r.Rest()), old(attrs.list)) == if ok then Parsed(end, attrs.list, r.Rest())
      else ParseError
  {
    var name, value;
    ok, end, name := GetAttrName(r, ch);
    if !ok {
      return;
    }
    var double := attrs.Get(name);
    if double.Some? {
      return false, EOF;
    }
    end := SkipSpaces(r, end);
    if end != EQUALS {
      return false, EOF;
    }
    end := Getc(r);
    end := SkipSpaces(r, end);
    if end == EOF {
      return false, EOF;
    }
    ok, end, value := GetAttrValue(r, end);
    if ok {
      ok := attrs.Set(name, Some(value));
    }
  }

  method GetEndSlash(r: Reader, ch: Item, ghost list: seq<Attr>) returns (end: Item)
    requires ch != EOF
    modifies r
    ensures EndSlash(ch, list, old(r.Rest())) == if end == EOF then ParseError else Parsed(end, list, r.Rest())
  {
    var quote := Getc(r);
    end := if quote == GT then ch else EOF;
  }

  /** Reads the attributes of a tag up to its end; EOF on error. */
  method ParseElement(r: Reader, attrs: Attributes) returns (end: Item)
    requires Usable(attrs)
    modifies r, attrs
    ensures Usable(attrs)
    ensures ParseAttributes(old(r.Rest()), old(attrs.list)) ==
      if end == EOF then ParseError else Parsed(end, attrs.list, r.Rest())
  {
    ghost var s := r.Rest();
    end := Getc(r);
    while end != EOF
      invariant ParseAttributes(old(r.Rest()), old(attrs.list)) == ParseAttributes(s, attrs.list)
      invariant Next(s) == Got(end, r.Rest()) && Usable(attrs)
      decreases |s|
    {
      if !IsSpace(end) {
        if end == SLASH || end == 0x3f {
          end := GetEndSlash(r, end, attrs.list);
          return;
        } else if end == LT {
          return EOF;
        } else if end == GT {
          return;
        }
        var ok;
        ok, end := GetAttribute(r, end, attrs);
        if !ok {
          return EOF;
        }
        if end == SLASH || end == 0x3f {
          end := GetEndSlash(r, end, attrs.list);
          return;
        } else if end == GT {
          return;
        }
      }
      s := r.Rest();
      end := Getc(r);
    }
  }

  method SkipToEnd(r: Reader, from: Item)
    modifies r
    ensures SkipTag(from, old(r.Rest())) == r.Rest()
  {
    var ch := from;
    while ch != GT && ch != EOF
      invariant SkipTag(from, old(r.Rest())) == SkipTag(ch, r.Rest())
      decreases |r.Rest()|, ch != EOF
    {
      ch := Getc(r);
    }
  }

  // ---------------------------------------------------------------- building the tree

  /** A new node, under parent if there is one. */
  method Make(doc: Document, parent: Node?, value: Value) returns (x: Node)
    requires doc.Valid() && (parent != null ==> parent in doc.shape.kids)
    modifies doc, doc.shape.kids.Keys
    ensures doc.Valid() && Made(old(doc.shape), doc.shape, parent, x) && x.value == value
    ensures fresh(doc.shape.kids.Keys - old(doc.shape.kids.Keys))
  {
    x := doc.Create(parent, value);
    GrownRoot(old(doc.shape), x);
  }

  method MakeLeaf(doc: Document, parent: Node?, value: Value, ghost w: Building) returns (ghost w': Building)
    requires doc.Valid() && doc.shape == w.sh && parent == Last(w.nodes) && value.Text?
    modifies doc, doc.shape.kids.Keys
    ensures doc.Valid() && w' == w.(sh := doc.shape, st := AddNode(w.st, LeafTree(value)))
    ensures fresh(doc.shape.kids.Keys - old(doc.shape.kids.Keys))
  {
    ParentKnown(w);
    var x := Make(doc, parent, value);
    w' := WithLeaf(w, doc.shape, x);
  }

  /** A new element under the parent, or a first one; open or empty. */
  method MakeElement(doc: Document, parent: Node?, name: seq<Byte>, attrs: seq<Attr>, open: bool, ghost w: Building)
    returns (x: Node, ghost w': Building)
    requires doc.Valid() && doc.shape == w.sh && parent == Last(w.nodes) && (parent == null ==> w.first == null)
    modifies doc, doc.shape.kids.Keys
    ensures doc.Valid() && doc.shape == w'.sh && w'.base == w.base && w'.first == FirstOr(w, x)
    ensures w'.nodes == if open then w.nodes + [x] else w.nodes
    ensures w'.st == if open then w.st.(stack := w.st.stack + [Open(name, attrs, [])], typed := true)
                     else AddElement(w.st, Elem(name, attrs, []))
    ensures fresh(doc.shape.kids.Keys - old(doc.shape.kids.Keys))
  {
    ParentKnown(w);
    x := Make(doc, parent, Element(name, attrs));
    w' := if open then WithOpen(w, doc.shape, x, Open(name, attrs, []))
          else WithElement(w, doc.shape, x, Open(name, attrs, []));
  }

  /** The parent of an open element, read from the heap. */
  method Above(doc: Document, node: Node, ghost w: Building, ghost j: nat) returns (above: Node?)
    requires doc.Valid() && doc.shape == w.sh && j < |w.nodes| && node == w.nodes[j]
    ensures above == if j == 0 then null else w.nodes[j - 1]
  {
    OpenLinks(w, doc.links, j);
    assert LinksOf(node) == doc.links[node];
    above := node.parent;
  }

  /** The loader's variables: buffer is the word being gathered, and typed says that words count. */
  datatype Locals = Locals(buffer: seq<Byte>, whitespace: bool, typed: bool, parent: Node?, first: Node?)

  const FRESH := Locals([], false, false, null, null)

  ghost predicate Stands(v: Locals, w: Building) {
    && v.buffer == w.st.text && v.whitespace == w.st.space && v.typed == w.st.typed
    && v.parent == Last(w.nodes) && v.first == w.first
  }

  /** Ends the current word at white space or at a tag. */
  method EndWord(doc: Document, v: Locals, ch: nat, ghost w: Building) returns (v': Locals, ghost w': Building)
    requires doc.Valid() && doc.shape == w.sh && Stands(v, w)
    modifies doc, doc.shape.kids.Keys
    ensures doc.Valid() && w' == w.(sh := doc.shape, st := Flush(w.st, ch)) && Stands(v', w')
    ensures fresh(doc.shape.kids.Keys - old(doc.shape.kids.Keys))
  {
    hide Built, Linked, Encode;
    v', w' := v, w;
    if (ch == LT || IsSpace(ch)) && v.buffer != [] {
      if v.typed {
        w' := MakeLeaf(doc, v.parent, Text(v.whitespace, v.buffer), w);
      }
      v' := v.(buffer := [], whitespace := IsSpace(ch) && v.typed);
      w' := Noted(w', [], v'.whitespace);
    } else if IsSpace(ch) && v.typed {
      v' := v.(whitespace := true);
      w' := Noted(w, w.st.text, true);
    }
  }

  /** White space alone before a tag is a node of its own, if it has a parent. */
  method AddWhitespace(doc: Document, v: Locals, ghost w: Building) returns (v': Locals, ghost w': Building)
    requires doc.Valid() && doc.shape == w.sh && Stands(v, w)
    modifies doc, doc.shape.kids.Keys
    ensures doc.Valid() && w' == w.(sh := doc.shape, st := LoneSpace(w.st)) && Stands(v', w')
    ensures fresh(doc.shape.kids.Keys - old(doc.shape.kids.Keys))
  {
    hide Built, Linked;
    v', w' := v, w;
    if v.whitespace && v.typed {
      Seen(w);
      if v.parent != null {
        w' := MakeLeaf(doc, v.parent, Text(v.whitespace, []), w);
      }
      v' := v.(whitespace := false);
      w' := Noted(w', w.st.text, false);
    }
  }

  /** An element, which is the parent from now on unless it is empty. */
  method AddTag(doc: Document, v: Locals, name: seq<Byte>, attrs: seq<Attr>, open: bool, ghost w: Building)
    returns (v': Locals, ghost w': Building)
    requires doc.Valid() && doc.shape == w.sh && Stands(v, w) && (v.parent == null ==> v.first == null)
    modifies doc, doc.shape.kids.Keys
    ensures doc.Valid() && doc.shape == w'.sh && w'.base == w.base && Stands(v', w')
    ensures w'.st == if open then w.st.(stack := w.st.stack + [Open(name, attrs, [])], typed := true)
                     else AddElement(w.st, Elem(name, attrs, []))
    ensures fresh(doc.shape.kids.Keys - old(doc.shape.kids.Keys))
  {
    hide Built, Linked;
    var x;
    x, w' := MakeElement(doc, v.parent, name, attrs, open, w);
    v' := v.(first := if v.first == null then x else v.first);
    if open {
      v' := v'.(parent := x, typed := true);
    }
  }

  /** Goes back from the parent to its own parent. */
  method Leave(doc: Document, v: Locals, ghost w: Building) returns (v': Locals, ghost w': Building)
    requires doc.Valid() && doc.shape == w.sh && Stands(v, w) && v.parent != null
    ensures w.st.stack != [] && w'.base == w.base && w'.sh == w.sh && w'.st == Closed(w.st) && Stands(v', w')
  {
    hide Built, Linked;
    var above := Above(doc, v.parent, w, |w.nodes| - 1);
    w' := WithClosed(w);
    v' := v.(parent := above);
  }

  // ---------------------------------------------------------------- one step of the loop

  /** What the input asks for: a tag, a character of a word, or just white space. */
  datatype Action = Start(name: seq<Byte>, attrs: seq<Attr>, end: Item) | End | Char(c: nat) | White | Bad | Markup

  datatype Asked = Asked(act: Action, rest: seq<Item>)

  /** A tag, under the parent with the name top, or outside when there is none. */
  function TagAsked(top: Option<seq<Byte>>, second: bool, s: seq<Item>): Asked {
    var w := TagName(s, []);
    if w.WordError? then Asked(Bad, [])
    else if w.bytes != [] && w.bytes[0] in {0x21, 0x3f} then Asked(Markup, [])
    else if w.bytes != [] && w.bytes[0] == SLASH then
      if top == Some(w.bytes[1..]) then Asked(End, SkipTag(w.ch, w.rest)) else Asked(Bad, [])
    else if second then Asked(Bad, [])
    else
      var p := RestOfTag(w.ch, w.rest);
      if p.ParseError? then Asked(Bad, []) else Asked(Start(w.bytes, p.attrs, p.ch), p.rest)
  }

  function StepAsked(top: Option<seq<Byte>>, second: bool, ch: nat, rest: seq<Item>): Asked {
    if ch == LT then TagAsked(top, second, rest)
    else if ch == AMP then
      var e := Entity(rest, []);
      if e.ch == EOF then Asked(Bad, []) else Asked(Char(e.ch), e.rest)
    else if IsSpace(ch) then Asked(White, rest)
    else Asked(Char(ch), rest)
  }

  /** What a step comes to, with the state it leaves. */
  datatype Signal = GoOn | Break | Fail | Foreign
  datatype Done = Done(signal: Signal, st: State)

  /** What an action does once the word before it is finished. */
  function Acted(st: State, act: Action): Done
    requires act.End? ==> st.stack != []
  {
    match act
    case Start(name, attrs, end) =>
      if end == EOF then Done(Break, AddElement(st, Elem(name, attrs, [])))
      else if end == SLASH then Done(GoOn, AddElement(st, Elem(name, attrs, [])))
      else Done(GoOn, st.(stack := st.stack + [Open(name, attrs, [])], typed := true))
    case End => Done(GoOn, Closed(st))
    case Char(c) => Done(GoOn, st.(text := st.text + Encode(c)))
    case White => Done(GoOn, st)
    case Bad => Done(Fail, st)
    case Markup => Done(Foreign, st)
  }

  function TopName(st: State): Option<seq<Byte>> {
    if st.stack == [] then None else Some(st.stack[|st.stack| - 1].name)
  }

  predicate HasRoot(st: State) {
    st.stack == [] && st.root.Some?
  }

  /** The state before an action: words end at white space and at tags. */
  function Before(st: State, ch: nat): (st': State)
    ensures TopName(st') == TopName(st) && HasRoot(st') == HasRoot(st) && (st'.stack == [] <==> st.stack == [])
  {
    if ch == LT then LoneSpace(Flush(st, ch)) else Flush(st, ch)
  }

  function TurnOf(done: Done, rest: seq<Item>): Turn {
    match done.signal
    case GoOn => Go(done.st, rest)
    case Break => Stop(Finish(done.st))
    case Fail => Stop(Failed)
    case Foreign => Stop(OtherMarkup)
  }

  /** A step of the loader is the action its input asks for. */
  lemma StepIsAction(st: State, ch: nat, rest: seq<Item>)
    ensures var a := StepAsked(TopName(st), HasRoot(st), ch, rest);
      (a.act.End? ==> st.stack != []) && Step(st, ch, rest) == TurnOf(Acted(Before(st, ch), a.act), a.rest)
  {
    assert Before(st, ch).stack == [] <==> st.stack == [];
  }

  /** What follows the name of a start tag. */
  method GetRestOfTag(r: Reader, ch: Item) returns (ok: bool, end: Item, attrs: seq<Attr>)
    modifies r
    ensures RestOfTag(ch, old(r.Rest())) == if ok then Parsed(end, attrs, r.Rest()) else ParseError
  {
    var list := new Attributes();
    end := ch;
    assert r.Rest() == old(r.Rest());
    if IsSpace(ch) {
      end := ParseElement(r, list);
      ok := end != EOF;
    } else if ch == SLASH {
      var gt := Getc(r);
      ok := gt == GT;
    } else {
      ok := true;
    }
    attrs := list.list;
  }

  method GetTagWord(r: Reader) returns (ok: bool, ch: Item, name: seq<Byte>)
    modifies r
    ensures TagName(old(r.Rest()), []) == if ok then Word(name, ch, r.Rest()) else WordError
  {
    var buffer := new CharBuffer();
    assert r.Rest() == old(r.Rest());
    ok, ch := GetTagName(r, buffer);
    name := buffer.data[..buffer.used];
  }

  /** Reads a tag, behind its less-than sign. */
  method GetTag(r: Reader, top: Option<seq<Byte>>, second: bool) returns (act: Action)
    modifies r
    ensures var a := TagAsked(top, second, old(r.Rest()));
      act == a.act && (!act.Bad? && !act.Markup? ==> r.Rest() == a.rest)
  {
    var ok, ch, name := GetTagWord(r);
    if !ok {
      return Bad;
    }
    if name != [] && name[0] in {0x21, 0x3f} {
      return Markup;
    } else if name != [] && name[0] == SLASH {
      if top != Some(name[1..]) {
        return Bad;
      }
      SkipToEnd(r, ch);
      return End;
    }
    if second {
      return Bad;
    }
    var fine, end, attrs := GetRestOfTag(r, ch);
    act := if fine then Start(name, attrs, end) else Bad;
  }

  /** Reads what belongs to a character: its tag, or its entity. */
  method GetAction(r: Reader, top: Option<seq<Byte>>, second: bool, ch: nat) returns (act: Action)
    modifies r
    ensures var a := StepAsked(top, second, ch, old(r.Rest()));
      act == a.act && (!act.Bad? && !act.Markup? ==> r.Rest() == a.rest)
  {
    if ch == LT {
      act := GetTag(r, top, second);
    } else if ch == AMP {
      var e := GetEntity(r);
      act := if e == EOF then Bad else Char(e);
    } else {
      act := if IsSpace(ch) then White else Char(ch);
    }
  }

  /** Ends the word before a character. */
  method Settle(doc: Document, v: Locals, ch: nat, ghost w: Building) returns (v': Locals, ghost w': Building)
    requires doc.Valid() && doc.shape == w.sh && Stands(v, w)
    modifies doc, doc.shape.kids.Keys
    ensures doc.Valid() && w' == w.(sh := doc.shape, st := Before(w.st, ch)) && Stands(v', w')
    ensures fresh(doc.shape.kids.Keys - old(doc.shape.kids.Keys))
  {
    hide Built, Linked, Flush, LoneSpace;
    v', w' := EndWord(doc, v, ch, w);
    if ch == LT {
      v', w' := AddWhitespace(doc, v', w');
    }
  }

  /** Does what the input asks for. */
  method Act(doc: Document, v: Locals, act: Action, ghost w: Building)
    returns (signal: Signal, v': Locals, ghost w': Building)
    requires doc.Valid() && doc.shape == w.sh && Stands(v, w)
    requires (act.End? ==> v.parent != null) && (act.Start? && v.parent == null ==> v.first == null)
    modifies doc, doc.shape.kids.Keys
    ensures doc.Valid() && doc.shape == w'.sh && w'.base == w.base && Stands(v', w')
    ensures (act.End? ==> w.st.stack != []) && Done(signal, w'.st) == Acted(w.st, act)
    ensures fresh(doc.shape.kids.Keys - old(doc.shape.kids.Keys))
  {
    signal, v', w' := GoOn, v, w;
    match act
    case Start(name, attrs, end) =>
      v', w' := AddTag(doc, v, name, attrs, end != EOF && end != SLASH, w);
      signal := if end == EOF then Break else GoOn;
    case End =>
      v', w' := Leave(doc, v, w);
    case Char(c) =>
      v' := v.(buffer := v.buffer + Encode(c));
      w' := Noted(w, v'.buffer, w.st.space);
    case White =>
    case Bad =>
      signal := Fail;
    case Markup =>
      signal := Foreign;
  }

  /** One turn of the loop. */
  method TakeStep(doc: Document, v: Locals, ch: nat, act: Action, ghost w: Building)
    returns (signal: Signal, v': Locals, ghost w': Building)
    requires doc.Valid() && doc.shape == w.sh && Stands(v, w)
    requires (act.End? ==> v.parent != null) && (act.Start? && v.parent == null ==> v.first == null)
    modifies doc, doc.shape.kids.Keys
    ensures doc.Valid() && doc.shape == w'.sh && w'.base == w.base && Stands(v', w')
    ensures (act.End? ==> w.st.stack != []) && Done(signal, w'.st) == Acted(Before(w.st, ch), act)
    ensures fresh(doc.shape.kids.Keys - old(doc.shape.kids.Keys))
  {
    hide Built, Acted, Before, Linked;
    v', w' := Settle(doc, v, ch, w);
    signal, v', w' := Act(doc, v', act, w');
  }

  // ---------------------------------------------------------------- the loader

  /** The root of the tree that has been built; nothing when more than it is still open. */
  method Conclude(doc: Document, v: Locals, ghost w: Building) returns (root: Node?)
    requires doc.Valid() && doc.shape == w.sh && Stands(v, w)
    ensures root == if |w.nodes| > 1 then null else v.first
  {
    hide Built, Linked;
    Seen(w);
    if v.parent == null {
      return v.first;
    }
    var top: Node := v.parent;
    ghost var j := |w.nodes| - 1;
    var above := Above(doc, top, w, j);
    while above != null
      invariant 0 <= j < |w.nodes| && top == w.nodes[j] && above == if j == 0 then null else w.nodes[j - 1]
      decreases j
    {
      top := above;
      j := j - 1;
      above := Above(doc, top, w, j);
    }
    root := if top == v.parent then top else null;
  }

  /** Deletes what has been built. */
  method Abandon(doc: Document, v: Locals, ghost w: Building)
    requires doc.Valid() && doc.shape == w.sh && Stands(v, w)
    modifies doc, doc.shape.kids.Keys
    ensures doc.Valid() && Extends(w.base, doc.shape) && OnlyWords(w.base, doc.shape)
    ensures v.first != null ==> v.first !in doc.shape.kids
  {
    WithoutFirst(w);
    Delete(doc, v.first);
  }

  lemma AskedFits(top: Option<seq<Byte>>, second: bool, ch: nat, rest: seq<Item>)
    ensures var act := StepAsked(top, second, ch, rest).act;
      (act.End? ==> top.Some?) && (act.Start? ==> !second)
  {
  }

  ghost predicate Shows(outcome: Outcome, signal: Signal, st: State) {
    match signal
    case GoOn | Break => outcome == Finish(st)
    case Fail => outcome == Failed
    case Foreign => outcome == OtherMarkup
  }

  /** What the loop has to know to read on: the parent's name, and whether there is a root already. */
  method Ask(r: Reader, doc: Document, v: Locals, ch: nat, ghost w: Building) returns (act: Action)
    requires Stands(v, w)
    modifies r
    ensures (act.End? ==> v.parent != null) && (act.Start? && v.parent == null ==> v.first == null)
    ensures act.End? ==> w.st.stack != []
    ensures var turn := TurnOf(Acted(Before(w.st, ch), act), r.Rest());
      Step(w.st, ch, old(r.Rest())) == turn
  {
    hide Built, Linked, Before, Step, StepAsked, TagAsked;
    Seen(w);
    StepIsAction(w.st, ch, r.Rest());
    AskedFits(TopName(w.st), HasRoot(w.st), ch, r.Rest());
    var top := if v.parent == null then None else Some(v.parent.value.name);
    act := GetAction(r, top, v.parent == null && v.first != null, ch);
  }

  lemma RunOn(st: State, s: seq<Item>, ch: Item, rest: seq<Item>, done: Done, rest': seq<Item>)
    requires Next(s) == Got(ch, rest) && ch != EOF && Step(st, ch, rest) == TurnOf(done, rest')
    ensures if done.signal.GoOn? then Run(st, s) == Run(done.st, rest') else Shows(Run(st, s), done.signal, done.st)
  {
  }

  /** One turn of the loop. */
  method ReadOn(r: Reader, doc: Document, v: Locals, ch: nat, ghost w: Building, ghost s: seq<Item>)
    returns (signal: Signal, v': Locals, ghost w': Building)
    requires doc.Valid() && doc.shape == w.sh && Stands(v, w) && Next(s) == Got(ch, r.Rest())
    modifies r, doc, doc.shape.kids.Keys
    ensures doc.Valid() && doc.shape == w'.sh && w'.base == w.base && Stands(v', w')
    ensures |r.Rest()| < |s| || !signal.GoOn?
    ensures if signal.GoOn? then Run(w.st, s) == Run(w'.st, r.Rest()) else Shows(Run(w.st, s), signal, w'.st)
    ensures fresh(doc.shape.kids.Keys - old(doc.shape.kids.Keys))
  {
    hide Built, Linked, Acted, Before, Step, Run;
    var act := Ask(r, doc, v, ch, w);
    signal, v', w' := TakeStep(doc, v, ch, act, w);
    RunOn(w.st, s, ch, old(r.Rest()), Done(signal, w'.st), r.Rest());
  }

  ghost function StartIn(doc: Document): (w: Building)
    requires doc.Valid()
    reads doc, doc.shape.kids.Keys
    ensures w == Work(doc.shape, doc.shape, START, [], null)
  {
    Begun(doc.shape)
  }

  /** The loop over the input, from its first character on. */
  method ReadAll(r: Reader, doc: Document, from: Item, ghost all: seq<Item>)
    returns (signal: Signal, v: Locals, ghost w: Building)
    requires doc.Valid() && Next(all) == Got(from, r.Rest())
    modifies r, doc, doc.shape.kids.Keys
    ensures doc.Valid() && doc.shape == w.sh && Stands(v, w) && w.base == old(doc.shape)
    ensures Shows(Run(START, all), signal, w.st)
    ensures fresh(doc.shape.kids.Keys - old(doc.shape.kids.Keys))
  {
    hide Built, Linked, Acted, Before, Step, Run;
    var ch := from;
    signal, v, w := GoOn, FRESH, StartIn(doc);
    ghost var s := all;
    while ch != EOF
      invariant doc.Valid() && doc.shape == w.sh && Stands(v, w) && w.base == old(doc.shape)
      invariant fresh(doc.shape.kids.Keys - old(doc.shape.kids.Keys))
      invariant signal.GoOn? && Run(START, all) == Run(w.st, s) && Next(s) == Got(ch, r.Rest())
      decreases |s|
    {
      signal, v, w := ReadOn(r, doc, v, ch, w, s);
      if !signal.GoOn? {
        return;
      }
      s := r.Rest();
      ch := Getc(r);
    }
    RunEnds(w.st, s);
  }

  lemma RunEnds(st: State, s: seq<Item>)
    requires Next(s).ch == EOF
    ensures Run(st, s) == Finish(st)
  {
  }

  /** root is the root of a new tree t; what was there before is as it was, and the rest that is new is stray words. */
  ghost predicate NewTree(before: Shape, after: Shape, root: Node?, t: Tree) {
    && Extends(before, after) && Good(after) && root != null
    && root in after.kids && root !in before.kids && !HasParent(after, root) && TreeOf(after, root) == t
    && Accounted(before, after, root)
  }

  ghost predicate Delivers(outcome: Outcome, before: Shape, after: Shape, root: Node?) {
    match outcome
    case Loaded(t) => NewTree(before, after, root, t)
    case Failed => root == null && Extends(before, after) && OnlyWords(before, after)
    case OtherMarkup => root == null && Extends(before, after)
  }

  lemma ForeignDelivers(w: Building)
    ensures Delivers(OtherMarkup, w.base, w.sh, null)
  {
    WithoutFirst(w);
  }

  lemma ShownIs(outcome: Outcome, signal: Signal, st: State)
    requires Shows(outcome, signal, st)
    ensures outcome == match signal case GoOn | Break => Finish(st) case Fail => Failed case Foreign => OtherMarkup
    ensures outcome == OtherMarkup <==> signal.Foreign?
  {
  }

  lemma NothingNew(sh: Shape)
    ensures Delivers(Failed, sh, sh, null)
  {
  }

  /** The end of the loader: the root, or nothing and what has been built deleted. */
  method Deliver(doc: Document, v: Locals, signal: Signal, ghost w: Building) returns (root: Node?)
    requires doc.Valid() && doc.shape == w.sh && Stands(v, w) && !signal.Foreign?
    modifies doc, doc.shape.kids.Keys
    ensures doc.Valid() && Delivers(if signal.Fail? then Failed else Finish(w.st), w.base, doc.shape, root)
  {
    root := null;
    Concluded(w);
    if !signal.Fail? {
      root := Conclude(doc, v, w);
    }
    if root == null {
      Abandon(doc, v, w);
    }
  }

  /** Loads a tree into the document, beside what is there. */
  method LoadData(r: Reader, doc: Document) returns (root: Node?, foreign: bool)
    requires doc.Valid()
    modifies r, doc, doc.shape.kids.Keys
    ensures doc.Valid()
    ensures Delivers(Load(old(r.Rest())), old(doc.shape), doc.shape, root)
    ensures foreign == Load(old(r.Rest())).OtherMarkup?
  {
    ghost var s := r.Rest();
    hide Built, Linked, Run, Finish, Delivers, Shows, Stands, Document.Valid;
    NothingNew(doc.shape);
    var ch := Getc(r);
    if ch != LT {
      return null, false;
    }
    var signal, v, w := ReadAll(r, doc, ch, s);
    ShownIs(Run(START, s), signal, w.st);
    if signal.Foreign? {
      ForeignDelivers(w);
      return null, true;
    }
    root := Deliver(doc, v, signal, w);
    foreign := false;
  }
}
