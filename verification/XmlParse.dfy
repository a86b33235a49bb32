/**
What the loader makes of a stream of characters, with no options given: element and text
nodes under one root. A comment, CDATA section, directive or declaration ends the model.
*/
module XmlParse {
  import opened Common
  import opened Utf8
  import opened XmlShape
  import opened XmlText
  import opened XmlAttr

  datatype Got = Got(ch: Item, rest: seq<Item>)

  function Next(s: seq<Item>): (g: Got)
    ensures |g.rest| <= |s| && (g.ch != EOF ==> |g.rest| < |s|)
  {
    if s == [] then Got(EOF, []) else Got(s[0], s[1..])
  }

  predicate IsSpace(ch: int) {
    ch == 0x20 || ch == 0x09 || ch == 0x0d || ch == 0x0a
  }

  // ---------------------------------------------------------------- entities

  predicate EntityChar(ch: int) {
    0x30 <= ch <= 0x39 || 0x41 <= ch <= 0x5a || 0x61 <= ch <= 0x7a || ch == 0x23
  }

  /** The value of a digit, in bases up to 36. */
  function Digit(ch: nat): nat {
    if 0x30 <= ch <= 0x39 then ch - 0x30
    else if 0x41 <= ch <= 0x5a then ch - 0x41 + 10
    else if 0x61 <= ch <= 0x7a then ch - 0x61 + 10
    else 36
  }

  const LONG_MAX: nat := 0x7fff_ffff_ffff_ffff

  /** The leading digits of s as a number, held at the largest long. */
  function Number(s: seq<nat>, base: nat, acc: nat): nat {
    if s == [] || Digit(s[0]) >= base then acc
    else
      var v := acc * base + Digit(s[0]);
      Number(s[1..], base, if v > LONG_MAX then LONG_MAX else v)
  }

  /** A long cut to an int. */
  function ToInt(v: nat): int {
    var w := v % 0x1_0000_0000;
    if w >= 0x8000_0000 then w - 0x1_0000_0000 else w
  }

  function EntityValue(name: seq<nat>): int {
    if name != [] && name[0] == 0x23 then
      if |name| > 1 && name[1] == 0x78 then
        var digits := name[2..];
        ToInt(Number(if |digits| >= 2 && digits[0] == 0x30 && digits[1] in {0x78, 0x58} then digits[2..]
          else digits, 16, 0))
      else ToInt(Number(name[1..], 10, 0))
    else if name == NAME_AMP then AMP
    else if name == NAME_GT then GT
    else if name == NAME_LT then LT
    else if name == NAME_QUOT then QUOTE
    else -1
  }

  const ENTITY_MAX: nat := 63

  /** The character an entity stands for, after its ampersand; EOF when it is malformed. */
  function Entity(s: seq<Item>, name: seq<nat>): (g: Got)
    ensures |g.rest| <= |s|
    decreases |s|
  {
    var g := Next(s);
    if EntityChar(g.ch) then
      if |name| < ENTITY_MAX then Entity(g.rest, name + [g.ch]) else Got(EOF, g.rest)
    else if g.ch != SEMICOLON then Got(EOF, g.rest)
    else
      var v := EntityValue(name);
      Got(if v < 0 || BadChar(v) then EOF else v, g.rest)
  }

  // ---------------------------------------------------------------- words

  /** Characters gathered into a string, and the one that ended it. */
  datatype Word = WordError | Word(bytes: seq<Byte>, ch: Item, rest: seq<Item>)

  datatype Kind = PlainName | PlainValue | Quoted(quote: nat)

  predicate Ends(kind: Kind, ch: int) {
    match kind
    case PlainName => IsSpace(ch) || ch == EQUALS || ch == SLASH || ch == GT || ch == 0x3f
    case PlainValue => IsSpace(ch) || ch == EQUALS || ch == SLASH || ch == GT
    case Quoted(quote) => ch == quote
  }

  function Gather(s: seq<Item>, kind: Kind, bytes: seq<Byte>): (w: Word)
    ensures w.Word? ==> |w.rest| <= |s|
    decreases |s|
  {
    var g := Next(s);
    if g.ch == EOF || Ends(kind, g.ch) then Word(bytes, g.ch, g.rest)
    else if g.ch == AMP then
      var e := Entity(g.rest, []);
      if e.ch == EOF then WordError else Gather(e.rest, kind, bytes + Encode(e.ch))
    else Gather(g.rest, kind, bytes + Encode(g.ch))
  }

  /** A quoted attribute name keeps its quotes, and an entity may supply the closing one. */
  function GatherQuotedName(s: seq<Item>, quote: nat, bytes: seq<Byte>): (w: Word)
    ensures w.Word? ==> |w.rest| <= |s|
    decreases |s|
  {
    var g := Next(s);
    if g.ch == EOF then Word(bytes, EOF, g.rest)
    else
      var e := if g.ch == AMP then Entity(g.rest, []) else g;
      if e.ch == EOF then WordError
      else if e.ch == quote then Word(bytes + Encode(e.ch), e.ch, e.rest)
      else GatherQuotedName(e.rest, quote, bytes + Encode(e.ch))
  }

  /** The first characters of other markup end the name at once. */
  predicate MarkupStart(bytes: seq<Byte>) {
    bytes == [0x3f] || bytes == [0x21, 0x2d, 0x2d] || bytes == [0x21, 0x5b, 0x43, 0x44, 0x41, 0x54, 0x41, 0x5b]
  }

  function TagName(s: seq<Item>, bytes: seq<Byte>): (w: Word)
    ensures w.Word? ==> |w.rest| <= |s|
    decreases |s|
  {
    var g := Next(s);
    if g.ch == EOF || IsSpace(g.ch) || g.ch == GT || (g.ch == SLASH && bytes != []) then Word(bytes, g.ch, g.rest)
    else if g.ch == LT then WordError
    else if g.ch == AMP then
      var e := Entity(g.rest, []);
      if e.ch == EOF then WordError else TagName(e.rest, bytes + Encode(e.ch))
    else if g.ch < 0x30 && g.ch != 0x21 && g.ch != 0x2d && g.ch != 0x2e && g.ch != SLASH then WordError
    else if MarkupStart(bytes + Encode(g.ch)) then Word(bytes + Encode(g.ch), g.ch, g.rest)
    else TagName(g.rest, bytes + Encode(g.ch))
  }

  function SkipSpace(ch: Item, s: seq<Item>): (g: Got)
    ensures |g.rest| <= |s|
    decreases |s|, ch != EOF
  {
    if IsSpace(ch) then var g := Next(s); SkipSpace(g.ch, g.rest) else Got(ch, s)
  }

  function SkipTag(ch: Item, s: seq<Item>): (rest: seq<Item>)
    ensures |rest| <= |s|
    decreases |s|, ch != EOF
  {
    if ch != GT && ch != EOF then var g := Next(s); SkipTag(g.ch, g.rest) else s
  }

  // ---------------------------------------------------------------- attributes

  datatype Parsed = ParseError | Parsed(ch: Item, attrs: seq<Attr>, rest: seq<Item>)

  predicate IsQuote(ch: int) {
    ch == 0x22 || ch == 0x27
  }

  /** A tag may end with a slash or a question mark before its bracket. */
  function EndSlash(ch: Item, attrs: seq<Attr>, s: seq<Item>): (p: Parsed)
    ensures p.Parsed? ==> |p.rest| <= |s|
  {
    var q := Next(s);
    if q.ch == GT then Parsed(ch, attrs, q.rest) else ParseError
  }

  function AttrName(ch: nat, s: seq<Item>): (w: Word)
    ensures w.Word? ==> |w.rest| <= |s|
  {
    if IsQuote(ch) then GatherQuotedName(s, ch, Encode(ch)) else Gather(s, PlainName, Encode(ch))
  }

  function AttrValue(ch: nat, s: seq<Item>): (w: Word)
    ensures w.Word? ==> |w.rest| <= |s|
  {
    if IsQuote(ch) then Gather(s, Quoted(ch), []) else Gather(s, PlainValue, Encode(ch))
  }

  /** The equals sign after an attribute's name, and the first character of its value. */
  function AfterName(ch: Item, s: seq<Item>): (g: Got)
    ensures |g.rest| <= |s|
  {
    var eq := SkipSpace(ch, s);
    if eq.ch != EQUALS then Got(EOF, eq.rest)
    else var g := Next(eq.rest); SkipSpace(g.ch, g.rest)
  }

  /** One attribute, from the first character of its name to the one that ended its value. */
  function OneAttribute(ch: nat, s: seq<Item>, attrs: seq<Attr>): (p: Parsed)
    ensures p.Parsed? ==> |p.rest| <= |s|
  {
    var name := AttrName(ch, s);
    if name.WordError? || AttrOf(attrs, name.bytes).Some? then ParseError
    else
      var v := AfterName(name.ch, name.rest);
      if v.ch == EOF then ParseError
      else
        var value := AttrValue(v.ch, v.rest);
        if value.WordError? then ParseError
        else Parsed(value.ch, SetAttr(attrs, name.bytes, Some(value.bytes)), value.rest)
  }

  function ParseAttributes(s: seq<Item>, attrs: seq<Attr>): (p: Parsed)
    ensures p.Parsed? ==> |p.rest| <= |s| && p.ch != EOF
    decreases |s|
  {
    var g := Next(s);
    if g.ch == EOF then ParseError
    else if IsSpace(g.ch) then ParseAttributes(g.rest, attrs)
    else if g.ch == SLASH || g.ch == 0x3f then EndSlash(g.ch, attrs, g.rest)
    else if g.ch == LT then ParseError
    else if g.ch == GT then Parsed(g.ch, attrs, g.rest)
    else
      var p := OneAttribute(g.ch, g.rest, attrs);
      if p.ParseError? then ParseError
      else if p.ch == SLASH || p.ch == 0x3f then EndSlash(p.ch, p.attrs, p.rest)
      else if p.ch == GT then p
      else ParseAttributes(p.rest, p.attrs)
  }

  // ---------------------------------------------------------------- the loader

  datatype Open = Open(name: seq<Byte>, attrs: seq<Attr>, kids: seq<Tree>)

  /**
  text is the word being gathered; space tells whether white space came before it; typed is set
  once an element has been entered, and words count from then on; stack holds the elements that
  are open, the parent last; root is the first element once it is closed.
  */
  datatype State = State(text: seq<Byte>, space: bool, typed: bool, stack: seq<Open>, root: Option<Tree>)

  datatype Outcome = Loaded(tree: Tree) | Failed | OtherMarkup

  const START := State([], false, false, [], None)

  /** A node under the parent; without a parent it is lost. */
  function AddNode(st: State, t: Tree): State {
    if st.stack == [] then st
    else
      var top := st.stack[|st.stack| - 1];
      st.(stack := st.stack[..|st.stack| - 1] + [top.(kids := top.kids + [t])])
  }

  /** A finished element: under the parent, or the root. */
  function AddElement(st: State, t: Tree): State {
    if st.stack == [] then st.(root := Some(t)) else AddNode(st, t)
  }

  /** Ends the current word at white space or at a tag. */
  function Flush(st: State, ch: nat): State {
    if (ch == LT || IsSpace(ch)) && st.text != [] then
      (if st.typed then AddNode(st, Words(st.space, st.text)) else st).(text := [], space := IsSpace(ch) && st.typed)
    else if IsSpace(ch) && st.typed then st.(space := true)
    else st
  }

  /** White space alone before a tag is a node of its own. */
  function LoneSpace(st: State): State {
    if st.space && st.typed then AddNode(st, Words(true, [])).(space := false) else st
  }

  /** The result at the end of the input: one element still open is closed silently. */
  function Finish(st: State): Outcome {
    if st.stack == [] then if st.root.Some? then Loaded(st.root.value) else Failed
    else if |st.stack| == 1 then Loaded(Elem(st.stack[0].name, st.stack[0].attrs, st.stack[0].kids))
    else Failed
  }

  datatype Turn = Stop(outcome: Outcome) | Go(st: State, rest: seq<Item>)

  /** A start tag that ended with ch. */
  function Opened(st: State, name: seq<Byte>, attrs: seq<Attr>, ch: Item, rest: seq<Item>): Turn {
    if ch == EOF then Stop(Finish(AddElement(st, Elem(name, attrs, []))))
    else if ch == SLASH then Go(AddElement(st, Elem(name, attrs, [])), rest)
    else Go(st.(stack := st.stack + [Open(name, attrs, [])], typed := true), rest)
  }

  /** What follows a name that ended with ch, up to the end of the start tag. */
  function RestOfTag(ch: Item, rest: seq<Item>): (p: Parsed)
    ensures p.Parsed? ==> |p.rest| <= |rest|
  {
    if IsSpace(ch) then ParseAttributes(rest, [])
    else if ch == SLASH then
      var g := Next(rest);
      if g.ch != GT then ParseError else Parsed(SLASH, [], g.rest)
    else Parsed(ch, [], rest)
  }

  function StartTag(st: State, name: seq<Byte>, ch: Item, rest: seq<Item>): (t: Turn)
    ensures t.Go? ==> |t.rest| <= |rest|
  {
    if st.stack == [] && st.root.Some? then Stop(Failed)
    else
      var p := RestOfTag(ch, rest);
      if p.ParseError? then Stop(Failed) else Opened(st, name, p.attrs, p.ch, p.rest)
  }

  function EndTag(st: State, name: seq<Byte>, ch: Item, rest: seq<Item>): (t: Turn)
    ensures t.Go? ==> |t.rest| <= |rest|
  {
    if st.stack == [] || name != st.stack[|st.stack| - 1].name then Stop(Failed)
    else
      var top := st.stack[|st.stack| - 1];
      Go(AddElement(st.(stack := st.stack[..|st.stack| - 1]), Elem(top.name, top.attrs, top.kids)), SkipTag(ch, rest))
  }

  function Tag(st: State, s: seq<Item>): (t: Turn)
    ensures t.Go? ==> |t.rest| <= |s|
  {
    var w := TagName(s, []);
    if w.WordError? then Stop(Failed)
    else if w.bytes != [] && w.bytes[0] in {0x21, 0x3f} then Stop(OtherMarkup)
    else if w.bytes != [] && w.bytes[0] == SLASH then EndTag(st, w.bytes[1..], w.ch, w.rest)
    else StartTag(st, w.bytes, w.ch, w.rest)
  }

  /** What the loader does with one character. */
  function Step(st: State, ch: nat, rest: seq<Item>): (t: Turn)
    ensures t.Go? ==> |t.rest| <= |rest|
  {
    var st1 := Flush(st, ch);
    if ch == LT then Tag(LoneSpace(st1), rest)
    else if ch == AMP then
      var e := Entity(rest, []);
      if e.ch == EOF then Stop(Failed) else Go(st1.(text := st1.text + Encode(e.ch)), e.rest)
    else if IsSpace(ch) then Go(st1, rest)
    else Go(st1.(text := st1.text + Encode(ch)), rest)
  }

  function Run(st: State, s: seq<Item>): Outcome
    decreases |s|
  {
    var g := Next(s);
    if g.ch == EOF then Finish(st)
    else
      match Step(st, g.ch, g.rest)
      case Stop(outcome) => outcome
      case Go(st', rest) => Run(st', rest)
  }

  /** The text must begin with a tag. */
  function Load(s: seq<Item>): Outcome {
    if Next(s).ch != LT then Failed else Run(START, s)
  }
}
