/**
The printer. An element tree has one text; the loop that walks the nodes by their pointers
and writes tags as it goes produces exactly that text.
*/
module XmlText {
  import opened Common
  import opened XmlShape
  import opened XmlPath

  datatype Tree =
    | Elem(name: seq<Byte>, attrs: seq<Attr>, kids: seq<Tree>)
    | Words(whitespace: bool, text: seq<Byte>)

  // ---------------------------------------------------------------- the text of a tree

  const LT: Byte := 0x3c
  const GT: Byte := 0x3e
  const AMP: Byte := 0x26
  const QUOTE: Byte := 0x22
  const SLASH: Byte := 0x2f
  const EQUALS: Byte := 0x3d
  const SPACE: Byte := 0x20
  const SEMICOLON: Byte := 0x3b

  /** The names of the entities: amp, lt, gt, quot. */
  const NAME_AMP: seq<Byte> := [0x61, 0x6d, 0x70]
  const NAME_LT: seq<Byte> := [0x6c, 0x74]
  const NAME_GT: seq<Byte> := [0x67, 0x74]
  const NAME_QUOT: seq<Byte> := [0x71, 0x75, 0x6f, 0x74]

  function EntityString(b: Byte): Option<seq<Byte>> {
    if b == AMP then Some([AMP] + NAME_AMP + [SEMICOLON])
    else if b == LT then Some([AMP] + NAME_LT + [SEMICOLON])
    else if b == GT then Some([AMP] + NAME_GT + [SEMICOLON])
    else if b == QUOTE then Some([AMP] + NAME_QUOT + [SEMICOLON])
    else None
  }

  function EscapeByte(b: Byte): seq<Byte> {
    if EntityString(b).Some? then EntityString(b).value else [b]
  }

  function Escape(s: seq<Byte>): seq<Byte> {
    if s == [] then [] else EscapeByte(s[0]) + Escape(s[1..])
  }

  lemma {:induction false} EscapeConcat(s: seq<Byte>, t: seq<Byte>)
    ensures Escape(s + t) == Escape(s) + Escape(t)
  {
    if s == [] {
      assert s + t == t;
    } else {
      EscapeConcat(s[1..], t);
      assert (s + t)[0] == s[0] && (s + t)[1..] == s[1..] + t;
      Assoc(EscapeByte(s[0]), Escape(s[1..]), Escape(t));
    }
  }

  lemma EscapeOne(b: Byte)
    ensures Escape([b]) == EscapeByte(b)
  {
    assert [b][1..] == [];
    assert EscapeByte(b) + [] == EscapeByte(b);
  }

  function AttrText(a: Attr): seq<Byte> {
    [SPACE] + Escape(a.name) + if a.value.Some? then [EQUALS, QUOTE] + Escape(a.value.value) + [QUOTE] else []
  }

  function AttrsText(attrs: seq<Attr>): seq<Byte> {
    if attrs == [] then [] else AttrText(attrs[0]) + AttrsText(attrs[1..])
  }

  function TagEnd(empty: bool): seq<Byte> {
    if empty then [SLASH, GT] else [GT]
  }

  function OpenTag(name: seq<Byte>, attrs: seq<Attr>, empty: bool): seq<Byte> {
    [LT] + Escape(name) + AttrsText(attrs) + TagEnd(empty)
  }

  function CloseTag(name: seq<Byte>): seq<Byte> {
    [LT, SLASH] + Escape(name) + [GT]
  }

  function TextOf(t: Tree): seq<Byte> {
    match t
    case Elem(name, attrs, kids) =>
      OpenTag(name, attrs, kids == []) + if kids == [] then [] else TextAll(kids) + CloseTag(name)
    case Words(_, text) => Escape(text)
  }

  function TextAll(ts: seq<Tree>): seq<Byte> {
    if ts == [] then [] else TextOf(ts[0]) + TextAll(ts[1..])
  }

  // ---------------------------------------------------------------- the tree a node stands for

  ghost function TreeOf(sh: Shape, n: Node): Tree
    requires Good(sh) && n in sh.kids
    decreases sh.rank[n], 1, 0
  {
    match n.value
    case Element(name, attrs) => Elem(name, attrs, TreesFrom(sh, n, 0))
    case Text(whitespace, text) => Words(whitespace, text)
    case Other => Words(false, [])
  }

  ghost function TreesFrom(sh: Shape, n: Node, i: nat): (ts: seq<Tree>)
    requires Good(sh) && n in sh.kids && i <= |sh.kids[n]|
    ensures |ts| == |sh.kids[n]| - i
    decreases sh.rank[n], 0, |sh.kids[n]| - i
  {
    if i == |sh.kids[n]| then []
    else
      assert IsKid(sh, n, i, sh.kids[n][i]);
      [TreeOf(sh, sh.kids[n][i])] + TreesFrom(sh, n, i + 1)
  }

  lemma {:induction false} KidTree(sh: Shape, n: Node, i: nat, j: nat)
    requires Good(sh) && n in sh.kids && i <= j < |sh.kids[n]|
    ensures IsKid(sh, n, j, sh.kids[n][j]) && TreesFrom(sh, n, i)[j - i] == TreeOf(sh, sh.kids[n][j])
    decreases j - i
  {
    assert IsKid(sh, n, i, sh.kids[n][i]);
    if i < j {
      KidTree(sh, n, i + 1, j);
    }
  }

  ghost predicate Elements(sh: Shape, n: Node)
    requires Good(sh) && n in sh.kids
  {
    forall m | m in Pre(sh, n) :: m.value.Element?
  }

  /** What is still to be written after the current subtree: brothers, and the end tags of ancestors. */
  ghost function RestText(sh: Shape, path: seq<Frame>): seq<Byte>
    requires Good(sh) && Frames(sh, path) && forall k | 0 <= k < |path| :: path[k].node.value.Element?
    decreases |path|
  {
    if path == [] then []
    else
      var f := path[|path| - 1];
      TextAll(TreesFrom(sh, f.node, f.at + 1)) + CloseTag(f.node.value.name) + RestText(sh, path[..|path| - 1])
  }

  // ---------------------------------------------------------------- writing strings

  class Output {
    var bytes: seq<Byte>

    constructor ()
      ensures bytes == []
    {
      bytes := [];
    }

    method Write(s: seq<Byte>)
      modifies this
      ensures bytes == old(bytes) + s
    {
      bytes := bytes + s;
    }

    /** Writes a string in fragments, with its special characters replaced by entities if asked. */
    method WriteString(s: seq<Byte>, useEntities: bool)
      modifies this
      ensures bytes == old(bytes) + Written(s, useEntities)
    {
      var frag, ptr := 0, 0;
      ghost var start := bytes;
      while ptr < |s|
        invariant frag <= ptr <= |s| && bytes + s[frag..ptr] == start + Written(s[..ptr], useEntities)
      {
        WrittenStep(s, ptr, useEntities);
        var ent := if useEntities then EntityString(s[ptr]) else None;
        if ent.Some? {
          Assoc(start, Written(s[..ptr], useEntities), ent.value);
          if ptr > frag {
            Write(s[frag..ptr]);
          }
          assert bytes == start + Written(s[..ptr], useEntities);
          frag := ptr + 1;
          Write(ent.value);
          assert s[frag..ptr + 1] == [];
        } else {
          Assoc(start, Written(s[..ptr], useEntities), [s[ptr]]);
          Fragment(bytes, s, frag, ptr);
        }
        ptr := ptr + 1;
      }
      assert s[..ptr] == s;
      if ptr > frag {
        Write(s[frag..ptr]);
      }
    }
  }

  function Written(s: seq<Byte>, useEntities: bool): seq<Byte> {
    if useEntities then Escape(s) else s
  }

  lemma WrittenStep(s: seq<Byte>, ptr: nat, useEntities: bool)
    requires ptr < |s|
    ensures Written(s[..ptr + 1], useEntities) ==
      Written(s[..ptr], useEntities) + if useEntities then EscapeByte(s[ptr]) else [s[ptr]]
  {
    assert s[..ptr + 1] == s[..ptr] + [s[ptr]];
    EscapeConcat(s[..ptr], [s[ptr]]);
    EscapeOne(s[ptr]);
  }

  /** The fragment not written yet grows by one. */
  lemma Fragment(bytes: seq<Byte>, s: seq<Byte>, frag: nat, ptr: nat)
    requires frag <= ptr < |s|
    ensures bytes + s[frag..ptr + 1] == (bytes + s[frag..ptr]) + [s[ptr]]
  {
  }

  // ---------------------------------------------------------------- writing a tree

  lemma PathElements(sh: Shape, top: Node, path: seq<Frame>, c: Node)
    requires Good(sh) && IsPath(sh, top, path, c) && top in sh.kids && Elements(sh, top) && c in Pre(sh, top)
    ensures c.value.Element? && forall k | 0 <= k < |path| ::
      path[k].node.value.Element? && path[k].node in Pre(sh, top)
    decreases |path|
  {
    if path != [] {
      var f := path[|path| - 1];
      PathUp(sh, top, path, c);
      PathRanks(sh, top, path, c);
      ParentIsUnder(sh, top, f.node, f.at, c);
      PathElements(sh, top, path[..|path| - 1], f.node);
      forall k | 0 <= k < |path| ensures path[k].node.value.Element? && path[k].node in Pre(sh, top) {
        assert k < |path| - 1 ==> path[..|path| - 1][k] == path[k];
      }
    }
  }

  /** Where the writing stands: what is written, and what the current place still asks for. */
  ghost predicate Standing(sh: Shape, top: Node, path: seq<Frame>, c: Node) {
    && Good(sh) && top in sh.kids && Elements(sh, top) && IsPath(sh, top, path, c) && c in Pre(sh, top)
    && c.value.Element? && forall k | 0 <= k < |path| :: path[k].node.value.Element?
  }

  lemma TextDown(sh: Shape, top: Node, path: seq<Frame>, c: Node)
    requires Standing(sh, top, path, c) && sh.kids[c] != []
    ensures Standing(sh, top, Down(path, c), sh.kids[c][0])
    ensures TextOf(TreeOf(sh, c)) + RestText(sh, path) ==
      OpenTag(c.value.name, c.value.attrs, false) + (TextOf(TreeOf(sh, sh.kids[c][0])) + RestText(sh, Down(path, c)))
  {
    var k := sh.kids[c][0];
    PathDown(sh, top, path, c);
    KidsUnder(sh, top, c, 0, k);
    PathElements(sh, top, Down(path, c), k);
    assert Down(path, c)[..|path|] == path;
    var ks := TreesFrom(sh, c, 0);
    assert ks[0] == TreeOf(sh, k) && ks[1..] == TreesFrom(sh, c, 1);
    Regroup(OpenTag(c.value.name, c.value.attrs, false), TextOf(ks[0]), TextAll(ks[1..]), CloseTag(c.value.name),
      RestText(sh, path));
  }

  lemma Regroup(a: seq<Byte>, b: seq<Byte>, c: seq<Byte>, d: seq<Byte>, e: seq<Byte>)
    ensures a + ((b + c) + d) + e == a + (b + ((c + d) + e))
  {
  }

  lemma TextLeaf(sh: Shape, c: Node)
    requires Good(sh) && c in sh.kids && c.value.Element? && sh.kids[c] == []
    ensures TextOf(TreeOf(sh, c)) == OpenTag(c.value.name, c.value.attrs, true)
  {
    assert TreesFrom(sh, c, 0) == [];
  }

  lemma BrotherStands(sh: Shape, top: Node, path: seq<Frame>, c: Node)
    requires Standing(sh, top, path, c) && path != []
    requires path[|path| - 1].at + 1 < |sh.kids[path[|path| - 1].node]|
    ensures Standing(sh, top, Across(path), sh.kids[path[|path| - 1].node][path[|path| - 1].at + 1])
  {
    var f := path[|path| - 1];
    var s := sh.kids[f.node][f.at + 1];
    AcrossIsPath(sh, top, path, c);
    PathRanks(sh, top, path, c);
    ParentIsUnder(sh, top, f.node, f.at, c);
    assert IsKid(sh, f.node, f.at + 1, s);
    KidsUnder(sh, top, f.node, f.at + 1, s);
    assert forall k | 0 <= k < |path| :: Across(path)[k].node == path[k].node;
  }

  lemma NextBrother(sh: Shape, n: Node, i: nat)
    requires Good(sh) && n in sh.kids && i < |sh.kids[n]|
    ensures sh.kids[n][i] in sh.kids
    ensures TextAll(TreesFrom(sh, n, i)) == TextOf(TreeOf(sh, sh.kids[n][i])) + TextAll(TreesFrom(sh, n, i + 1))
  {
    assert IsKid(sh, n, i, sh.kids[n][i]);
    var ks := TreesFrom(sh, n, i);
    assert ks[0] == TreeOf(sh, sh.kids[n][i]) && ks[1..] == TreesFrom(sh, n, i + 1);
  }

  /** What a path leaves to write, by its last frame. */
  lemma RestTextIs(sh: Shape, up: seq<Frame>, f: Frame)
    requires Good(sh) && Frames(sh, up) && forall k | 0 <= k < |up| :: up[k].node.value.Element?
    requires f.node in sh.kids && f.at < |sh.kids[f.node]| && f.node.value.Element?
    ensures Frames(sh, up + [f]) && forall k | 0 <= k < |up + [f]| :: (up + [f])[k].node.value.Element?
    ensures RestText(sh, up + [f])
      == TextAll(TreesFrom(sh, f.node, f.at + 1)) + CloseTag(f.node.value.name) + RestText(sh, up)
  {
    var path := up + [f];
    assert path[|path| - 1] == f && path[..|path| - 1] == up;
  }

  /** Going on to the next brother writes what the path left to write. */
  lemma AcrossText(sh: Shape, up: seq<Frame>, f: Frame, s: Node)
    requires Good(sh) && Frames(sh, up) && forall k | 0 <= k < |up| :: up[k].node.value.Element?
    requires f.node in sh.kids && f.at + 1 < |sh.kids[f.node]| && f.node.value.Element?
    requires s == sh.kids[f.node][f.at + 1] && s in sh.kids
    ensures var path, across := up + [f], up + [Frame(f.node, f.at + 1)];
      && Frames(sh, path) && (forall k | 0 <= k < |path| :: path[k].node.value.Element?)
      && Frames(sh, across) && (forall k | 0 <= k < |across| :: across[k].node.value.Element?)
      && RestText(sh, path) == TextOf(TreeOf(sh, s)) + RestText(sh, across)
  {
    hide TextOf, RestText, CloseTag;
    RestTextIs(sh, up, f);
    RestTextIs(sh, up, Frame(f.node, f.at + 1));
    NextBrother(sh, f.node, f.at + 1);
    Shift(TextOf(TreeOf(sh, s)), TextAll(TreesFrom(sh, f.node, f.at + 2)), CloseTag(f.node.value.name),
      RestText(sh, up));
  }

  lemma Shift(b: seq<Byte>, c: seq<Byte>, d: seq<Byte>, e: seq<Byte>)
    ensures ((b + c) + d) + e == b + ((c + d) + e)
  {
  }

  lemma TextAcross(sh: Shape, top: Node, path: seq<Frame>, c: Node)
    requires Standing(sh, top, path, c) && path != []
    requires path[|path| - 1].at + 1 < |sh.kids[path[|path| - 1].node]|
    ensures var s := sh.kids[path[|path| - 1].node][path[|path| - 1].at + 1];
      && Standing(sh, top, Across(path), s)
      && RestText(sh, path) == TextOf(TreeOf(sh, s)) + RestText(sh, Across(path))
  {
    BrotherStands(sh, top, path, c);
    var up, f := path[..|path| - 1], path[|path| - 1];
    assert path == up + [f] && Across(path) == up + [Frame(f.node, f.at + 1)];
    AcrossText(sh, up, f, sh.kids[f.node][f.at + 1]);
  }

  lemma TextUp(sh: Shape, top: Node, path: seq<Frame>, c: Node)
    requires Standing(sh, top, path, c) && path != []
    requires path[|path| - 1].at + 1 == |sh.kids[path[|path| - 1].node]|
    ensures var f := path[|path| - 1];
      && Standing(sh, top, path[..|path| - 1], f.node)
      && RestText(sh, path) == CloseTag(f.node.value.name) + RestText(sh, path[..|path| - 1])
  {
    hide TextOf, CloseTag, Elements, Good, TreeOf;
    var f := path[|path| - 1];
    PathUp(sh, top, path, c);
    PathRanks(sh, top, path, c);
    ParentIsUnder(sh, top, f.node, f.at, c);
    PathElements(sh, top, path[..|path| - 1], f.node);
    assert TreesFrom(sh, f.node, f.at + 1) == [];
  }
}
