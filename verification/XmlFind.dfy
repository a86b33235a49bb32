/**
Searching a tree for elements by name and attribute. Repeating the search enumerates exactly
the fitting nodes under top, in the order of the list Pre, and top itself is never one of them.
*/
module XmlFind {
  import opened Common
  import opened XmlShape
  import opened XmlTree
  import opened XmlAttr
  import opened XmlWalk

  method GetAttr(value: Value, name: seq<Byte>) returns (r: Option<seq<Byte>>)
    ensures r == if value.Element? then AttrOf(value.attrs, name) else None
  {
    if !value.Element? {
      return None;
    }
    var i := 0;
    while i < |value.attrs|
      invariant i <= |value.attrs| && forall j | 0 <= j < i :: value.attrs[j].name != name
    {
      if value.attrs[i].name == name {
        IndexIs(value.attrs, name, i);
        return value.attrs[i].value;
      }
      i := i + 1;
    }
    IndexIs(value.attrs, name, i);
    return None;
  }

  /** What is searched for; a missing part is a wildcard. */
  datatype Query = Query(element: Option<seq<Byte>>, attr: Option<seq<Byte>>, value: Option<seq<Byte>>)

  predicate Fits(v: Value, q: Query) {
    && v.Element?
    && (q.element.Some? ==> v.name == q.element.value)
    && (q.attr.Some? ==> var a := AttrOf(v.attrs, q.attr.value); a.Some? && (q.value.Some? ==> a == q.value))
  }

  ghost function AllFit(xs: seq<Node>, q: Query): seq<Node> {
    if xs == [] then []
    else (if Fits(xs[0].value, q) then [xs[0]] else []) + AllFit(xs[1..], q)
  }

  /** The attribute of that name is the i-th; it has a value, and the one asked for if one is asked for. */
  predicate IsSet(attrs: seq<Attr>, i: nat, name: seq<Byte>, value: Option<seq<Byte>>)
    requires i < |attrs|
  {
    && attrs[i].name == name && (forall j | 0 <= j < i :: attrs[j].name != name)
    && attrs[i].value.Some? && (value.Some? ==> attrs[i].value == value)
  }

  lemma AttrOfIsSet(attrs: seq<Attr>, name: seq<Byte>, value: Option<seq<Byte>>)
    ensures (AttrOf(attrs, name).Some? && (value.Some? ==> AttrOf(attrs, name) == value)) <==>
      exists i :: 0 <= i < |attrs| && IsSet(attrs, i, name, value)
  {
    if i :| 0 <= i < |attrs| && IsSet(attrs, i, name, value) {
      IndexIs(attrs, name, i);
    }
    var k := IndexOf(attrs, name);
    if AttrOf(attrs, name).Some? && (value.Some? ==> AttrOf(attrs, name) == value) {
      assert IsSet(attrs, k, name, value);
    }
  }

  method Matches(node: Node, q: Query) returns (fits: bool)
    ensures fits == Fits(node.value, q)
    ensures fits <==>
      && node.value.Element?
      && (q.element.None? || node.value.name == q.element.value)
      && (q.attr.None? || exists i :: 0 <= i < |node.value.attrs| && IsSet(node.value.attrs, i, q.attr.value, q.value))
  {
    if node.value.Element? && q.attr.Some? {
      AttrOfIsSet(node.value.attrs, q.attr.value, q.value);
    }
    if !node.value.Element? || (q.element.Some? && node.value.name != q.element.value) {
      return false;
    }
    if q.attr.None? {
      return true;
    }
    var temp := GetAttr(node.value, q.attr.value);
    return temp.Some? && (q.value.None? || q.value.value == temp.value);
  }

  lemma SkipOne(xs: seq<Node>, k: nat, q: Query)
    requires k < |xs|
    ensures AllFit(xs[k..], q) == (if Fits(xs[k].value, q) then [xs[k]] else []) + AllFit(xs[k + 1..], q)
  {
    assert xs[k..][1..] == xs[k + 1..];
  }

  method NextBelow(doc: Document, node: Node, top: Node, ghost k: nat) returns (next: Node?)
    requires doc.Valid() && top in doc.shape.kids && k < |Pre(doc.shape, top)| && Pre(doc.shape, top)[k] == node
    ensures next == At(Pre(doc.shape, top), k + 1)
  {
    InLimits(doc.shape, top, top, k);
    next := WalkNext(doc, node, top, DescendAll, top, k);
  }

  /** found, the at-th of the list, is the first that fits after the k-th. */
  ghost predicate FirstAfter(all: seq<Node>, k: nat, q: Query, found: Node?, at: nat) {
    k < |all| &&
    if found == null then AllFit(all[k + 1..], q) == []
    else k < at < |all| && all[at] == found && AllFit(all[k + 1..], q) == [found] + AllFit(all[at + 1..], q)
  }

  /** The search over the whole subtree, from the node after the k-th of the list. */
  method FindBelow(doc: Document, node: Node, top: Node, q: Query, ghost k: nat) returns (found: Node?, ghost at: nat)
    requires doc.Valid() && top in doc.shape.kids && k < |Pre(doc.shape, top)| && Pre(doc.shape, top)[k] == node
    ensures found == HeadOf(AllFit(Pre(doc.shape, top)[k + 1..], q))
    ensures FirstAfter(Pre(doc.shape, top), k, q, found, at)
  {
    ghost var all := Pre(doc.shape, top);
    found := NextBelow(doc, node, top, k);
    at := k + 1;
    while found != null
      invariant k < at <= |all| && found == At(all, at)
      invariant AllFit(all[k + 1..], q) == AllFit(all[at..], q)
      decreases |all| - at
    {
      SkipOne(all, at, q);
      var fits := Matches(found, q);
      if fits {
        return;
      }
      found := NextBelow(doc, found, top, at);
      at := at + 1;
    }
  }

  /** The next pointers along a list of brothers. */
  ghost predicate Chained(ks: seq<Node>)
    reads ks
  {
    forall j | 0 <= j < |ks| :: ks[j].next == At(ks, j + 1)
  }

  lemma BrothersChained(doc: Document, p: Node)
    requires doc.Valid() && p in doc.shape.kids
    ensures Chained(doc.shape.kids[p])
  {
    var ks := doc.shape.kids[p];
    forall j | 0 <= j < |ks| ensures ks[j].next == At(ks, j + 1) {
      KidLinks(doc.shape, doc.links, p, j);
      assert LinksOf(ks[j]) == doc.links[ks[j]];
    }
  }

  /** The search along the younger brothers of a node, itself included. */
  method FindAmong(first: Node, q: Query, ghost ks: seq<Node>, ghost i: nat) returns (found: Node?)
    requires i < |ks| && ks[i] == first && Chained(ks)
    ensures found == HeadOf(AllFit(ks[i..], q))
  {
    ghost var j: nat := i;
    found := first;
    while found != null
      invariant i <= j <= |ks| && found == At(ks, j)
      invariant AllFit(ks[i..], q) == AllFit(ks[j..], q)
      decreases |ks| - j
    {
      SkipOne(ks, j, q);
      var fits := Matches(found, q);
      if fits {
        return;
      }
      found := found.next;
      j := j + 1;
    }
  }

  /** A node of the list that is not its first has a parent. */
  lemma LaterHasParent(sh: Shape, top: Node, j: nat) returns (p: Node, i: nat)
    requires Good(sh) && top in sh.kids && 0 < j < |Pre(sh, top)|
    ensures p in sh.kids && IsKid(sh, p, i, Pre(sh, top)[j])
  {
    PreNoDup(sh, top);
    p, i := ParentUnder(sh, top, Pre(sh, top)[j]);
  }

  /** found is the first that fits from the node `next` on, along its younger brothers. */
  ghost predicate FirstBeside(sh: Shape, next: Node?, q: Query, found: Node?) {
    if next == null then found == null
    else forall p, i | p in sh.kids && IsKid(sh, p, i, next) :: found == HeadOf(AllFit(sh.kids[p][i..], q))
  }

  lemma FollowerHasParent(sh: Shape, top: Node, k: nat, descend: Descend) returns (p: Node, i: nat)
    requires Good(sh) && top in sh.kids && k < |Pre(sh, top)| && Pre(sh, top)[k] in sh.kids
    requires Following(sh, top, k, descend) != null
    ensures p in sh.kids && IsKid(sh, p, i, Following(sh, top, k, descend))
  {
    p, i := LaterHasParent(sh, top, if descend == DescendNone then k + |Pre(sh, Pre(sh, top)[k])| else k + 1);
  }

  method FindFrom(doc: Document, next: Node, q: Query, ghost p: Node, ghost i: nat) returns (found: Node?)
    requires doc.Valid() && p in doc.shape.kids && IsKid(doc.shape, p, i, next)
    ensures FirstBeside(doc.shape, next, q, found)
  {
    BrothersChained(doc, p);
    found := FindAmong(next, q, doc.shape.kids[p], i);
  }

  /** The search among the younger brothers of the node the walk reaches first. */
  method FindNear(doc: Document, node: Node, top: Node, q: Query, descend: Descend, ghost k: nat) returns (found: Node?)
    requires doc.Valid() && top in doc.shape.kids && node in doc.shape.kids
    requires k < |Pre(doc.shape, top)| && Pre(doc.shape, top)[k] == node
    ensures FirstBeside(doc.shape, Following(doc.shape, top, k, descend), q, found)
  {
    InLimits(doc.shape, top, top, k);
    found := WalkNext(doc, node, top, descend, top, k);
    if found != null {
      ghost var p, i := FollowerHasParent(doc.shape, top, k, descend);
      found := FindFrom(doc, found, q, p, i);
    }
  }

  /**
  Finds an element after node: in the whole subtree of top, or among the younger brothers of
  the node the walk reaches first.
  */
  method FindElement(doc: Document, node: Node?, top: Node?, q: Query, descend: Descend, ghost k: nat)
    returns (found: Node?, ghost at: nat)
    requires doc.Valid() && (top != null ==> top in doc.shape.kids) && (node != null ==> node in doc.shape.kids)
    requires node != null && top != null ==> k < |Pre(doc.shape, top)| && Pre(doc.shape, top)[k] == node
    ensures node == null || top == null || (q.attr.None? && q.value.Some?) ==> found == null
    ensures node != null && top != null && !(q.attr.None? && q.value.Some?) ==>
      if descend == DescendAll then
        found == HeadOf(AllFit(Pre(doc.shape, top)[k + 1..], q)) && FirstAfter(Pre(doc.shape, top), k, q, found, at)
      else FirstBeside(doc.shape, Following(doc.shape, top, k, descend), q, found)
  {
    at := 0;
    if node == null || top == null || (q.attr.None? && q.value.Some?) {
      return null, 0;
    }
    if descend == DescendAll {
      found, at := FindBelow(doc, node, top, q, k);
      return;
    }
    found := FindNear(doc, node, top, q, descend, k);
  }

  method FindNext(doc: Document, node: Node, top: Node, q: Query, ghost k: nat) returns (found: Node?, ghost at: nat)
    requires doc.Valid() && top in doc.shape.kids && (q.attr.None? ==> q.value.None?)
    requires k < |Pre(doc.shape, top)| && Pre(doc.shape, top)[k] == node
    ensures FirstAfter(Pre(doc.shape, top), k, q, found, at)
  {
    InLimits(doc.shape, top, top, k);
    found, at := FindElement(doc, node, top, q, DescendAll, k);
  }

  /** What the search still has to return, from the node it has found at k. */
  ghost function Coming(all: seq<Node>, node: Node?, k: nat, q: Query): seq<Node>
    requires node != null ==> k < |all|
  {
    if node == null then [] else [node] + AllFit(all[k + 1..], q)
  }

  /** The loop that looks up every element of one kind under top, as the configuration loader does. */
  method FindEach(doc: Document, top: Node, q: Query) returns (found: seq<Node>)
    requires doc.Valid() && top in doc.shape.kids && (q.attr.None? ==> q.value.None?)
    ensures found == AllFit(Pre(doc.shape, top)[1..], q)
  {
    ghost var all := Pre(doc.shape, top);
    ghost var k: nat := 0;
    var node;
    node, k := FindNext(doc, top, top, q, 0);
    found := [];
    while node != null
      invariant node != null ==> 0 < k < |all| && all[k] == node
      invariant AllFit(all[1..], q) == found + Coming(all, node, k, q)
      decreases node != null, |all| - k
    {
      var element: Node := node;
      Assoc(found, [element], AllFit(all[k + 1..], q));
      found := found + [element];
      node, k := FindNext(doc, element, top, q, k);
    }
  }
}
