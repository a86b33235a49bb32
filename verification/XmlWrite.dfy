/**
The printing loop over the nodes in the heap, for trees of elements.
*/
module XmlWrite {
  import opened Common
  import opened XmlShape
  import opened XmlPath
  import opened XmlTree
  import opened XmlText

  lemma {:induction false} AttrsTextLast(attrs: seq<Attr>, a: Attr)
    ensures AttrsText(attrs + [a]) == AttrsText(attrs) + AttrText(a)
  {
    if attrs == [] {
      assert [a][1..] == [] && attrs + [a] == [a];
    } else {
      AttrsTextLast(attrs[1..], a);
      assert (attrs + [a])[0] == attrs[0] && (attrs + [a])[1..] == attrs[1..] + [a];
      Assoc(AttrText(attrs[0]), AttrsText(attrs[1..]), AttrText(a));
    }
  }

  lemma Chain(start: seq<Byte>, a: seq<Byte>, b: seq<Byte>, c: seq<Byte>)
    ensures ((start + a) + b) + c == start + (a + b + c)
  {
  }

  method WriteAttr(attr: Attr, out: Output)
    modifies out
    ensures out.bytes == old(out.bytes) + AttrText(attr)
  {
    hide Escape;
    ghost var value := if attr.value.Some? then [EQUALS, QUOTE] + Escape(attr.value.value) + [QUOTE] else [];
    Chain(out.bytes, [SPACE], Escape(attr.name), value);
    assert AttrText(attr) == [SPACE] + Escape(attr.name) + value;
    out.WriteString([SPACE], false);
    out.WriteString(attr.name, true);
    if attr.value.Some? {
      WriteValue(attr.value.value, out);
    }
  }

  method WriteValue(value: seq<Byte>, out: Output)
    modifies out
    ensures out.bytes == old(out.bytes) + ([EQUALS, QUOTE] + Escape(value) + [QUOTE])
  {
    Chain(out.bytes, [EQUALS, QUOTE], Escape(value), [QUOTE]);
    out.WriteString([EQUALS, QUOTE], false);
    out.WriteString(value, true);
    out.WriteString([QUOTE], false);
  }

  method WriteAttrs(attrs: seq<Attr>, out: Output)
    modifies out
    ensures out.bytes == old(out.bytes) + AttrsText(attrs)
  {
    ghost var head := out.bytes;
    var i := 0;
    while i < |attrs|
      invariant i <= |attrs| && out.bytes == head + AttrsText(attrs[..i])
    {
      AttrsTextLast(attrs[..i], attrs[i]);
      assert attrs[..i + 1] == attrs[..i] + [attrs[i]];
      Assoc(head, AttrsText(attrs[..i]), AttrText(attrs[i]));
      WriteAttr(attrs[i], out);
      i := i + 1;
    }
    assert attrs[..i] == attrs;
  }

  method WriteOpen(name: seq<Byte>, attrs: seq<Attr>, empty: bool, out: Output)
    modifies out
    ensures out.bytes == old(out.bytes) + OpenTag(name, attrs, empty)
  {
    Chain4(out.bytes, [LT], Escape(name), AttrsText(attrs), TagEnd(empty));
    out.WriteString([LT], false);
    out.WriteString(name, true);
    WriteAttrs(attrs, out);
    out.WriteString(if empty then [SLASH, GT] else [GT], false);
  }

  lemma Chain4(start: seq<Byte>, a: seq<Byte>, b: seq<Byte>, c: seq<Byte>, d: seq<Byte>)
    ensures (((start + a) + b) + c) + d == start + (a + b + c + d)
  {
  }

  method WriteClose(name: seq<Byte>, out: Output)
    modifies out
    ensures out.bytes == old(out.bytes) + CloseTag(name)
  {
    Chain(out.bytes, [LT, SLASH], Escape(name), [GT]);
    out.WriteString([LT, SLASH], false);
    out.WriteString(name, true);
    out.WriteString([GT], false);
  }

  /** What the pointers say at a place of the walk. */
  lemma LinksHere(sh: Shape, ls: map<Node, Links>, top: Node, path: seq<Frame>, c: Node)
    requires Linked(sh, ls) && Standing(sh, top, path, c)
    ensures c in ls && ls[c].child == First(sh.kids[c])
    ensures c == top <==> path == []
    ensures path != [] ==>
      && ls[c].next == At(sh.kids[path[|path| - 1].node], path[|path| - 1].at + 1)
      && ls[c].parent == path[|path| - 1].node
  {
    PathRanks(sh, top, path, c);
    if path != [] {
      KidPointers(sh, ls, path[|path| - 1].node, path[|path| - 1].at, c);
    }
  }

  /** The pointers at the current node, read from the heap. */
  lemma ReadHere(sh: Shape, ls: map<Node, Links>, c: Node)
    requires Matches(sh.kids.Keys, ls) && c in sh.kids && c in ls
    ensures c.next == ls[c].next && c.parent == ls[c].parent && c.child == ls[c].child
  {
    assert LinksOf(c) == ls[c];
  }

  /** What the pointers say where a node has no younger brother. */
  lemma UpHere(sh: Shape, ls: map<Node, Links>, node: Node, path: seq<Frame>, current: Node)
    requires Linked(sh, ls) && Standing(sh, node, path, current) && current != node && current in ls
      && ls[current].next == null
    ensures path != [] && current in ls && ls[current].parent == path[|path| - 1].node
    ensures Standing(sh, node, path[..|path| - 1], path[|path| - 1].node)
    ensures RestText(sh, path) == CloseTag(path[|path| - 1].node.value.name) + RestText(sh, path[..|path| - 1])
    ensures path[|path| - 1].node == node ==> RestText(sh, path[..|path| - 1]) == []
  {
    LinksHere(sh, ls, node, path, current);
    TextUp(sh, node, path, current);
    LinksHere(sh, ls, node, path[..|path| - 1], path[|path| - 1].node);
  }

  /** Writes the parent's end tag and goes there. */
  method StepUp(current: Node, node: Node, out: Output, ghost sh: Shape, ghost ls: map<Node, Links>,
      ghost path: seq<Frame>)
    returns (parent: Node)
    requires Matches(sh.kids.Keys, ls) && Linked(sh, ls)
    requires Standing(sh, node, path, current) && current != node && ls[current].next == null
    modifies out
    ensures Matches(sh.kids.Keys, ls)
    ensures path != [] && Standing(sh, node, path[..|path| - 1], parent)
    ensures old(out.bytes) + RestText(sh, path) == out.bytes + RestText(sh, path[..|path| - 1])
    ensures parent == node ==> RestText(sh, path[..|path| - 1]) == []
    ensures |out.bytes| >= |old(out.bytes)|
  {
    UpHere(sh, ls, node, path, current);
    ReadHere(sh, ls, current);
    parent := current.parent;
    Assoc(out.bytes, CloseTag(parent.value.name), RestText(sh, path[..|path| - 1]));
    WriteClose(parent.value.name, out);
  }

  /** What is left to write once next is the node to go on with, or nothing is. */
  ghost function Left(sh: Shape, node: Node, path: seq<Frame>, next: Node?): seq<Byte>
    requires next != null ==> Standing(sh, node, path, next)
  {
    if next == null then [] else TextOf(TreeOf(sh, next)) + RestText(sh, path)
  }

  /**
  After a node without children: climbs, writing end tags, to the first ancestor with a
  younger brother, which is written next.
  */
  method Ascend(node: Node, from: Node, out: Output, ghost sh: Shape, ghost ls: map<Node, Links>,
      ghost start: seq<Frame>)
    returns (next: Node?, ghost path: seq<Frame>)
    requires Matches(sh.kids.Keys, ls) && Linked(sh, ls)
    requires Standing(sh, node, start, from) && from != node
    modifies out
    ensures Matches(sh.kids.Keys, ls)
    ensures next != null ==> Standing(sh, node, path, next)
    ensures |out.bytes| >= |old(out.bytes)|
    ensures old(out.bytes) + RestText(sh, start) == out.bytes + Left(sh, node, path, next)
  {
    var current := from;
    path := start;
    next := current.next;
    while next == null
      invariant Matches(sh.kids.Keys, ls)
      invariant Standing(sh, node, path, current) && current != node && next == current.next
      invariant |out.bytes| >= |old(out.bytes)|
      invariant old(out.bytes) + RestText(sh, start) == out.bytes + RestText(sh, path)
      decreases |path|
    {
      ReadHere(sh, ls, current);
      current := StepUp(current, node, out, sh, ls, path);
      path := path[..|path| - 1];
      if current == node {
        return;
      }
      next := current.next;
    }
    LinksHere(sh, ls, node, path, current);
    ReadHere(sh, ls, current);
    TextAcross(sh, node, path, current);
    path := Across(path);
  }

  /** What is left to write once the current node's start tag is written. */
  ghost function Inside(sh: Shape, node: Node, path: seq<Frame>, c: Node): seq<Byte>
    requires Standing(sh, node, path, c)
  {
    if sh.kids[c] == [] then RestText(sh, path)
    else TextDown(sh, node, path, c); Left(sh, node, Down(path, c), sh.kids[c][0])
  }

  lemma StartTagFirst(sh: Shape, node: Node, path: seq<Frame>, c: Node)
    requires Standing(sh, node, path, c)
    ensures Left(sh, node, path, c) ==
      OpenTag(c.value.name, c.value.attrs, sh.kids[c] == []) + Inside(sh, node, path, c)
  {
    if sh.kids[c] == [] {
      TextLeaf(sh, c);
    } else {
      TextDown(sh, node, path, c);
    }
  }

  /** Finds the node to go on with, writing the end tags in between. */
  method Choose(current: Node, node: Node, out: Output, ghost sh: Shape, ghost ls: map<Node, Links>,
      ghost path: seq<Frame>)
    returns (next: Node?, ghost path': seq<Frame>)
    requires Matches(sh.kids.Keys, ls) && Linked(sh, ls) && Standing(sh, node, path, current)
    modifies out
    ensures Matches(sh.kids.Keys, ls)
    ensures next != null ==> Standing(sh, node, path', next)
    ensures |out.bytes| >= |old(out.bytes)|
    ensures old(out.bytes) + Inside(sh, node, path, current) == out.bytes + Left(sh, node, path', next)
  {
    LinksHere(sh, ls, node, path, current);
    ReadHere(sh, ls, current);
    path' := path;
    next := current.child;
    if next != null {
      TextDown(sh, node, path, current);
      path' := Down(path, current);
    } else if current == node {
      next := null;
    } else {
      next, path' := Ascend(node, current, out, sh, ls, path);
    }
  }

  method WriteStart(current: Node, out: Output, ghost sh: Shape, ghost ls: map<Node, Links>, ghost node: Node,
      ghost path: seq<Frame>)
    requires Matches(sh.kids.Keys, ls) && Linked(sh, ls) && Standing(sh, node, path, current)
    modifies out
    ensures Matches(sh.kids.Keys, ls) && |out.bytes| > |old(out.bytes)|
    ensures old(out.bytes) + Left(sh, node, path, current) == out.bytes + Inside(sh, node, path, current)
  {
    LinksHere(sh, ls, node, path, current);
    ReadHere(sh, ls, current);
    StartTagFirst(sh, node, path, current);
    Assoc(out.bytes, OpenTag(current.value.name, current.value.attrs, sh.kids[current] == []),
      Inside(sh, node, path, current));
    WriteOpen(current.value.name, current.value.attrs, current.child == null, out);
  }

  method WriteOne(current: Node, node: Node, out: Output, ghost sh: Shape, ghost ls: map<Node, Links>,
      ghost path: seq<Frame>)
    returns (next: Node?, ghost path': seq<Frame>)
    requires Matches(sh.kids.Keys, ls) && Linked(sh, ls) && Standing(sh, node, path, current)
    modifies out
    ensures Matches(sh.kids.Keys, ls) && |out.bytes| > |old(out.bytes)|
    ensures next != null ==> Standing(sh, node, path', next)
    ensures old(out.bytes) + Left(sh, node, path, current) == out.bytes + Left(sh, node, path', next)
  {
    WriteStart(current, out, sh, ls, node, path);
    next, path' := Choose(current, node, out, sh, ls, path);
  }

  lemma AtTop(sh: Shape, node: Node)
    requires Good(sh) && node in sh.kids && Elements(sh, node)
    ensures Standing(sh, node, [], node) && Left(sh, node, [], node) == TextOf(TreeOf(sh, node))
  {
    assert node in Pre(sh, node);
  }

  method WriteFrom(node: Node, out: Output, ghost sh: Shape, ghost ls: map<Node, Links>)
    requires Matches(sh.kids.Keys, ls) && Linked(sh, ls) && node in sh.kids && Elements(sh, node)
    modifies out
    ensures out.bytes == old(out.bytes) + TextOf(TreeOf(sh, node))
  {
    var current: Node? := node;
    ghost var path: seq<Frame> := [];
    AtTop(sh, node);
    ghost var all := out.bytes + Left(sh, node, path, current);
    while current != null
      invariant Matches(sh.kids.Keys, ls)
      invariant current != null ==> Standing(sh, node, path, current)
      invariant out.bytes + Left(sh, node, path, current) == all
      decreases |all| - |out.bytes|
    {
      current, path := WriteOne(current, node, out, sh, ls, path);
    }
  }

  /** Writes the text of the element tree under node. */
  method WriteNode(doc: Document, node: Node, out: Output)
    requires doc.Valid() && node in doc.shape.kids && Elements(doc.shape, node)
    modifies out
    ensures out.bytes == old(out.bytes) + TextOf(TreeOf(doc.shape, node))
  {
    WriteFrom(node, out, doc.shape, doc.links);
  }
}
