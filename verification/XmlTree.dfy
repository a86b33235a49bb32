/**
The pointer-linked XML tree: next, prev, parent, child and lastChild of every node agree
with one shape. Adding and removing are insertion into and deletion from the parent's
list of children.
*/
module XmlTree {
  import opened Common
  import opened XmlShape

  datatype Where = Before | After

  ghost function First(ks: seq<Node>): Node? {
    if ks == [] then null else ks[0]
  }

  ghost function Last(ks: seq<Node>): Node? {
    if ks == [] then null else ks[|ks| - 1]
  }

  /** The links of one node, as a value. */
  datatype Links = Links(next: Node?, prev: Node?, parent: Node?, child: Node?, lastChild: Node?)

  const NO_LINKS := Links(null, null, null, null, null)

  ghost function LinksOf(n: Node): Links
    reads n`next, n`prev, n`parent, n`child, n`lastChild
  {
    Links(n.next, n.prev, n.parent, n.child, n.lastChild)
  }

  /** The first and last child pointers of every node. */
  ghost predicate ChildLinks(sh: Shape, ls: map<Node, Links>)
    requires ls.Keys == sh.kids.Keys
  {
    forall n | n in sh.kids :: ls[n].child == First(sh.kids[n]) && ls[n].lastChild == Last(sh.kids[n])
  }

  ghost predicate SiblingLinksOf(sh: Shape, p: Node, i: int, x: Node, l: Links)
    requires IsKid(sh, p, i, x)
  {
    && l.parent == p
    && l.prev == (if i == 0 then null else sh.kids[p][i - 1])
    && l.next == (if i == |sh.kids[p]| - 1 then null else sh.kids[p][i + 1])
  }

  /** The parent, prev and next pointers of every node that has a parent. */
  ghost predicate SiblingLinks(sh: Shape, ls: map<Node, Links>)
    requires Good(sh) && ls.Keys == sh.kids.Keys
  {
    forall p, i, x | IsKid(sh, p, i, x) :: SiblingLinksOf(sh, p, i, x, ls[x])
  }

  ghost predicate HasParent(sh: Shape, x: Node) {
    exists p, i :: p in sh.kids && IsKid(sh, p, i, x)
  }

  /** A node that is nobody's child has no parent and no siblings. */
  ghost predicate RootLinks(sh: Shape, ls: map<Node, Links>)
    requires ls.Keys == sh.kids.Keys
  {
    forall n | n in sh.kids && !HasParent(sh, n) :: ls[n].parent == ls[n].prev == ls[n].next == null
  }

  ghost predicate Linked(sh: Shape, ls: map<Node, Links>) {
    Good(sh) && ls.Keys == sh.kids.Keys && ChildLinks(sh, ls) && SiblingLinks(sh, ls) && RootLinks(sh, ls)
  }

  ghost function IndexIn(ks: seq<Node>, x: Node?): (i: nat)
    ensures i <= |ks|
    ensures if x in ks then i < |ks| && ks[i] == x else i == |ks|
  {
    if ks == [] || ks[0] == x then 0 else IndexIn(ks[1..], x) + 1
  }

  /** Where a new child goes: next to `child`, or at the end asked for when that is no child here. */
  ghost function Position(ks: seq<Node>, add: Where, child: Node?): (pos: nat)
    ensures pos <= |ks|
  {
    match add
    case Before => if child in ks then IndexIn(ks, child) else 0
    case After => if child in ks then IndexIn(ks, child) + 1 else |ks|
  }

  /** The children before and after x is added: next to child, or first or last when that is none of them. */
  ghost predicate Placed(was: seq<Node>, now: seq<Node>, add: Where, child: Node?, x: Node) {
    && (child !in was ==> now == if add.Before? then [x] + was else was + [x])
    && (forall i | 0 <= i < |was| && was[i] == child ::
          now == if add.Before? then was[..i] + [x] + was[i..] else was[..i + 1] + [x] + was[i + 1..])
  }

  ghost function Inserted(ks: seq<Node>, pos: nat, x: Node): seq<Node>
    requires pos <= |ks|
  {
    ks[..pos] + [x] + ks[pos..]
  }

  ghost function Deleted(ks: seq<Node>, i: nat): seq<Node>
    requires i < |ks|
  {
    ks[..i] + ks[i + 1..]
  }

  // ---------------------------------------------------------------- shapes

  ghost function Detach(sh: Shape, p: Node, i: nat): Shape
    requires p in sh.kids && i < |sh.kids[p]|
  {
    sh.(kids := sh.kids[p := Deleted(sh.kids[p], i)])
  }

  lemma DetachKid(sh: Shape, p: Node, i: nat, q: Node, j: int, x: Node)
    requires p in sh.kids && i < |sh.kids[p]|
    ensures IsKid(Detach(sh, p, i), q, j, x) <==> j >= 0 && IsKid(sh, q, if q == p && j >= i then j + 1 else j, x)
  {
  }

  lemma DetachGood(sh: Shape, p: Node, i: nat)
    requires Good(sh) && p in sh.kids && i < |sh.kids[p]|
    ensures Good(Detach(sh, p, i))
    ensures !HasParent(Detach(sh, p, i), sh.kids[p][i])
  {
    var sh' := Detach(sh, p, i);
    assert IsKid(sh, p, i, sh.kids[p][i]);
    forall q, j, x | q in sh.kids && IsKid(sh', q, j, x)
      ensures x in sh.kids && sh.rank[x] < sh.rank[q] && x != sh.kids[p][i]
    {
      DetachKid(sh, p, i, q, j, x);
    }
    forall q, j, r, k, x | q in sh.kids && r in sh.kids && IsKid(sh', q, j, x) && IsKid(sh', r, k, x)
      ensures q == r && j == k
    {
      DetachKid(sh, p, i, q, j, x);
      DetachKid(sh, p, i, r, k, x);
    }
  }

  ghost function Attach(sh: Shape, p: Node, pos: nat, x: Node): Shape
    requires Good(sh) && p in sh.kids && pos <= |sh.kids[p]| && x in sh.kids
  {
    Shape(sh.kids[p := Inserted(sh.kids[p], pos, x)],
          map n | n in sh.rank :: if n in Pre(sh, x) then sh.rank[n] else sh.rank[n] + sh.rank[x] + 1)
  }

  lemma AttachKid(sh: Shape, p: Node, pos: nat, x: Node, q: Node, j: int, y: Node)
    requires Good(sh) && p in sh.kids && pos <= |sh.kids[p]| && x in sh.kids
    ensures IsKid(Attach(sh, p, pos, x), q, j, y) <==>
      if q == p && j == pos then y == x
      else j >= 0 && IsKid(sh, q, if q == p && j > pos then j - 1 else j, y)
  {
  }

  lemma AttachGood(sh: Shape, p: Node, pos: nat, x: Node)
    requires Good(sh) && p in sh.kids && pos <= |sh.kids[p]| && x in sh.kids
    requires !HasParent(sh, x) && p !in Pre(sh, x)
    ensures Good(Attach(sh, p, pos, x))
  {
    var sh' := Attach(sh, p, pos, x);
    forall q, j, y | q in sh.kids && IsKid(sh', q, j, y)
      ensures y in sh.kids && sh'.rank[y] < sh'.rank[q]
    {
      AttachKid(sh, p, pos, x, q, j, y);
      if q != p || j != pos {
        var j' := if q == p && j > pos then j - 1 else j;
        assert IsKid(sh, q, j', y);
        assert y != x;
        if q in Pre(sh, x) {
          KidsUnder(sh, x, q, j', y);
        } else if y in Pre(sh, x) {
          ParentIsUnder(sh, x, q, j', y);
        }
      }
    }
    forall q, j, r, k, y | q in sh.kids && r in sh.kids && IsKid(sh', q, j, y) && IsKid(sh', r, k, y)
      ensures q == r && j == k
    {
      AttachKid(sh, p, pos, x, q, j, y);
      AttachKid(sh, p, pos, x, r, k, y);
    }
  }

  // ---------------------------------------------------------------- links as values

  lemma KidLinks(sh: Shape, ls: map<Node, Links>, p: Node, i: nat)
    requires Linked(sh, ls) && p in sh.kids && i < |sh.kids[p]|
    ensures IsKid(sh, p, i, sh.kids[p][i]) && SiblingLinksOf(sh, p, i, sh.kids[p][i], ls[sh.kids[p][i]])
  {
    assert IsKid(sh, p, i, sh.kids[p][i]);
  }

  lemma KidPointers(sh: Shape, ls: map<Node, Links>, p: Node, i: nat, c: Node)
    requires Linked(sh, ls) && p in sh.kids && IsKid(sh, p, i, c)
    ensures c in ls && ls[c].parent == p && ls[c].next == At(sh.kids[p], i + 1)
  {
    KidLinks(sh, ls, p, i);
  }

  /** A node whose parent pointer is set is that parent's child, at one place. */
  lemma OwnPlace(sh: Shape, ls: map<Node, Links>, x: Node) returns (i: nat)
    requires Linked(sh, ls) && x in sh.kids && ls[x].parent != null
    ensures ls[x].parent in sh.kids && IsKid(sh, ls[x].parent, i, x) && SiblingLinksOf(sh, ls[x].parent, i, x, ls[x])
  {
    var p, j :| p in sh.kids && IsKid(sh, p, j, x);
    assert SiblingLinksOf(sh, p, j, x, ls[x]);
    i := j;
  }

  /** The pointers that a node's own children give, and those of a node without a parent. */
  lemma OwnPointers(sh: Shape, ls: map<Node, Links>, x: Node)
    requires Linked(sh, ls) && x in sh.kids
    ensures x in ls && ls[x].child == First(sh.kids[x]) && ls[x].lastChild == Last(sh.kids[x])
    ensures !HasParent(sh, x) ==> ls[x].parent == null && ls[x].prev == null && ls[x].next == null
  {
  }

  lemma ParentPointer(sh: Shape, ls: map<Node, Links>, x: Node)
    requires Linked(sh, ls) && x in sh.kids
    ensures HasParent(sh, x) <==> ls[x].parent != null
  {
    if HasParent(sh, x) {
      var p, i :| p in sh.kids && IsKid(sh, p, i, x);
      assert SiblingLinksOf(sh, p, i, x, ls[x]);
    }
  }

  ghost function PrevIn(ks: seq<Node>, i: int): Node? {
    if 0 < i <= |ks| then ks[i - 1] else null
  }

  ghost function NextIn(ks: seq<Node>, i: int): Node? {
    if 0 <= i < |ks| - 1 then ks[i + 1] else null
  }

  ghost function At(ks: seq<Node>, i: int): Node? {
    if 0 <= i < |ks| then ks[i] else null
  }

  /** What taking the i-th of p's children ks out does to the links of n. */
  ghost function UnlinkedAt(ks: seq<Node>, p: Node, i: nat, n: Node, l: Links): Links
    requires i < |ks|
  {
    if n == ks[i] then l.(parent := null, prev := null, next := null)
    else if n == p then l.(child := First(Deleted(ks, i)), lastChild := Last(Deleted(ks, i)))
    else if n == PrevIn(ks, i) then l.(next := NextIn(ks, i))
    else if n == NextIn(ks, i) then l.(prev := PrevIn(ks, i))
    else l
  }

  ghost predicate Unlinked(ks: seq<Node>, ls: map<Node, Links>, ls': map<Node, Links>, p: Node, i: nat)
    requires i < |ks|
  {
    ls.Keys == ls'.Keys && forall n | n in ls :: ls'[n] == UnlinkedAt(ks, p, i, n, ls[n])
  }

  /** The links agree with the i-th child of p having the neighbours that p's children ks give it. */
  ghost predicate ReadyToUnlink(ks: seq<Node>, ls: map<Node, Links>, p: Node, i: nat)
    requires i < |ks|
  {
    && p in ls && (forall k | k in ks :: k in ls && k != p)
    && PrevIn(ks, i) != ks[i] && NextIn(ks, i) != ks[i]
    && (PrevIn(ks, i) == null || PrevIn(ks, i) != NextIn(ks, i))
    && ls[ks[i]].parent == p && ls[ks[i]].prev == PrevIn(ks, i) && ls[ks[i]].next == NextIn(ks, i)
    && ls[p].child == First(ks) && ls[p].lastChild == Last(ks)
  }

  /** Neighbours in a list are different nodes, and none is the parent. */
  lemma Neighbours(sh: Shape, p: Node, i: nat, q: Node, j: int, x: Node)
    requires Good(sh) && p in sh.kids && i < |sh.kids[p]| && IsKid(sh, q, j, x)
    ensures x == sh.kids[p][i] <==> q == p && j == i
    ensures x == PrevIn(sh.kids[p], i) <==> q == p && j == i - 1
    ensures x == NextIn(sh.kids[p], i) <==> q == p && j == i + 1
    ensures q == p ==> x != p
  {
    assert IsKid(sh, p, i, sh.kids[p][i]);
    assert i > 0 ==> IsKid(sh, p, i - 1, sh.kids[p][i - 1]);
    assert i < |sh.kids[p]| - 1 ==> IsKid(sh, p, i + 1, sh.kids[p][i + 1]);
  }

  lemma DetachSibling(sh: Shape, p: Node, i: nat, q: Node, j: int, x: Node, l: Links)
    requires Good(sh) && p in sh.kids && i < |sh.kids[p]| && j >= 0
    requires IsKid(Detach(sh, p, i), q, j, x)
    requires var j' := if q == p && j >= i then j + 1 else j; IsKid(sh, q, j', x) && SiblingLinksOf(sh, q, j', x, l)
    ensures SiblingLinksOf(Detach(sh, p, i), q, j, x, UnlinkedAt(sh.kids[p], p, i, x, l))
  {
    Neighbours(sh, p, i, q, if q == p && j >= i then j + 1 else j, x);
  }

  lemma DetachParents(sh: Shape, p: Node, i: nat, n: Node)
    requires p in sh.kids && i < |sh.kids[p]| && n != sh.kids[p][i]
    ensures HasParent(sh, n) ==> HasParent(Detach(sh, p, i), n)
  {
    if HasParent(sh, n) {
      var q, j :| q in sh.kids && IsKid(sh, q, j, n);
      DetachKid(sh, p, i, q, if q == p && j > i then j - 1 else j, n);
    }
  }

  lemma RootHasNoPlace(sh: Shape, p: Node, i: nat, n: Node)
    requires Good(sh) && p in sh.kids && i < |sh.kids[p]| && !HasParent(sh, n)
    ensures n != sh.kids[p][i] && n != PrevIn(sh.kids[p], i) && n != NextIn(sh.kids[p], i)
  {
    assert !IsKid(sh, p, i, n) && !IsKid(sh, p, i - 1, n) && !IsKid(sh, p, i + 1, n);
  }

  lemma DetachRoot(sh: Shape, p: Node, i: nat, n: Node, l: Links)
    requires Good(sh) && p in sh.kids && i < |sh.kids[p]|
    requires !HasParent(Detach(sh, p, i), n)
    requires !HasParent(sh, n) ==> l.parent == l.prev == l.next == null
    ensures var l' := UnlinkedAt(sh.kids[p], p, i, n, l); l'.parent == l'.prev == l'.next == null
  {
    if n != sh.kids[p][i] {
      DetachParents(sh, p, i, n);
      RootHasNoPlace(sh, p, i, n);
    }
  }

  lemma DetachSiblings(sh: Shape, ls: map<Node, Links>, ls': map<Node, Links>, p: Node, i: nat)
    requires Good(sh) && ls.Keys == sh.kids.Keys && SiblingLinks(sh, ls)
    requires p in sh.kids && i < |sh.kids[p]| && Unlinked(sh.kids[p], ls, ls', p, i) && Good(Detach(sh, p, i))
    ensures SiblingLinks(Detach(sh, p, i), ls')
  {
    var sh' := Detach(sh, p, i);
    forall q, j, x | q in sh.kids && IsKid(sh', q, j, x) ensures SiblingLinksOf(sh', q, j, x, ls'[x]) {
      DetachKid(sh, p, i, q, j, x);
      DetachSibling(sh, p, i, q, j, x, ls[x]);
    }
  }

  lemma DetachRoots(sh: Shape, ls: map<Node, Links>, ls': map<Node, Links>, p: Node, i: nat)
    requires Good(sh) && ls.Keys == sh.kids.Keys && RootLinks(sh, ls)
    requires p in sh.kids && i < |sh.kids[p]| && Unlinked(sh.kids[p], ls, ls', p, i)
    ensures RootLinks(Detach(sh, p, i), ls')
  {
    var sh' := Detach(sh, p, i);
    forall n | n in sh.kids && !HasParent(sh', n) ensures ls'[n].parent == ls'[n].prev == ls'[n].next == null {
      DetachRoot(sh, p, i, n, ls[n]);
    }
  }

  lemma DetachChildren(sh: Shape, ls: map<Node, Links>, ls': map<Node, Links>, p: Node, i: nat)
    requires Good(sh) && ls.Keys == sh.kids.Keys && ChildLinks(sh, ls)
    requires p in sh.kids && i < |sh.kids[p]| && Unlinked(sh.kids[p], ls, ls', p, i)
    ensures ChildLinks(Detach(sh, p, i), ls')
  {
    assert IsKid(sh, p, i, sh.kids[p][i]);
    assert sh.kids[p][i] != p;
  }

  lemma DetachLinked(sh: Shape, ls: map<Node, Links>, ls': map<Node, Links>, p: Node, i: nat)
    requires Linked(sh, ls) && p in sh.kids && i < |sh.kids[p]| && Unlinked(sh.kids[p], ls, ls', p, i)
    ensures Linked(Detach(sh, p, i), ls')
  {
    DetachGood(sh, p, i);
    DetachSiblings(sh, ls, ls', p, i);
    DetachRoots(sh, ls, ls', p, i);
    DetachChildren(sh, ls, ls', p, i);
  }

  /** What inserting x before position pos of p's children ks does to the links of n. */
  ghost function LinkedAt(ks: seq<Node>, p: Node, pos: nat, x: Node, n: Node, l: Links): Links
    requires pos <= |ks|
  {
    if n == x then l.(parent := p, prev := PrevIn(ks, pos), next := if pos < |ks| then ks[pos] else null)
    else if n == p then l.(child := First(Inserted(ks, pos, x)), lastChild := Last(Inserted(ks, pos, x)))
    else if pos > 0 && n == ks[pos - 1] then l.(next := x)
    else if pos < |ks| && n == ks[pos] then l.(prev := x)
    else l
  }

  ghost predicate LinkedIn(ks: seq<Node>, ls: map<Node, Links>, ls': map<Node, Links>, p: Node, pos: nat, x: Node)
    requires pos <= |ks|
  {
    ls.Keys == ls'.Keys && forall n | n in ls :: ls'[n] == LinkedAt(ks, p, pos, x, n, ls[n])
  }

  /** The links of p and of its children agree with ks, and x stands alone. */
  ghost predicate ReadyToLink(ks: seq<Node>, ls: map<Node, Links>, p: Node, x: Node) {
    && p in ls && x in ls && p != x
    && NoDup(ks) && (forall k | k in ks :: k in ls && k != p && k != x)
    && (forall i | 0 <= i < |ks| :: ls[ks[i]].prev == PrevIn(ks, i) && ls[ks[i]].next == NextIn(ks, i))
    && (forall k | k in ls :: ls[k].parent == p <==> k in ks)
    && ls[p].child == First(ks) && ls[p].lastChild == Last(ks)
    && ls[x].prev == ls[x].next == null
  }

  lemma AttachNeighbours(sh: Shape, p: Node, pos: nat, q: Node, j: int, y: Node)
    requires Good(sh) && p in sh.kids && pos <= |sh.kids[p]| && IsKid(sh, q, j, y)
    ensures pos > 0 ==> (y == sh.kids[p][pos - 1] <==> q == p && j == pos - 1)
    ensures pos < |sh.kids[p]| ==> (y == sh.kids[p][pos] <==> q == p && j == pos)
    ensures q == p ==> y != p
  {
    assert pos > 0 ==> IsKid(sh, p, pos - 1, sh.kids[p][pos - 1]);
    assert pos < |sh.kids[p]| ==> IsKid(sh, p, pos, sh.kids[p][pos]);
  }

  lemma AttachSibling(sh: Shape, p: Node, pos: nat, x: Node, q: Node, j: int, y: Node, l: Links)
    requires Good(sh) && p in sh.kids && pos <= |sh.kids[p]| && x in sh.kids && j >= 0 && y != x
    requires IsKid(Attach(sh, p, pos, x), q, j, y)
    requires var j' := if q == p && j > pos then j - 1 else j; IsKid(sh, q, j', y) && SiblingLinksOf(sh, q, j', y, l)
    ensures SiblingLinksOf(Attach(sh, p, pos, x), q, j, y, LinkedAt(sh.kids[p], p, pos, x, y, l))
  {
    AttachNeighbours(sh, p, pos, q, if q == p && j > pos then j - 1 else j, y);
  }

  lemma AttachSiblings(sh: Shape, ls: map<Node, Links>, ls': map<Node, Links>, p: Node, pos: nat, x: Node)
    requires Good(sh) && ls.Keys == sh.kids.Keys && SiblingLinks(sh, ls)
    requires p in sh.kids && pos <= |sh.kids[p]| && x in sh.kids && !HasParent(sh, x)
    requires LinkedIn(sh.kids[p], ls, ls', p, pos, x) && Good(Attach(sh, p, pos, x))
    ensures SiblingLinks(Attach(sh, p, pos, x), ls')
  {
    var sh' := Attach(sh, p, pos, x);
    forall q, j, y | q in sh.kids && IsKid(sh', q, j, y) ensures SiblingLinksOf(sh', q, j, y, ls'[y]) {
      AttachKid(sh, p, pos, x, q, j, y);
      if q != p || j != pos {
        AttachSibling(sh, p, pos, x, q, j, y, ls[y]);
      }
    }
  }

  lemma AttachParents(sh: Shape, p: Node, pos: nat, x: Node, n: Node)
    requires Good(sh) && p in sh.kids && pos <= |sh.kids[p]| && x in sh.kids
    ensures HasParent(sh, n) || n == x ==> HasParent(Attach(sh, p, pos, x), n)
  {
    if n == x {
      AttachKid(sh, p, pos, x, p, pos, x);
    } else if HasParent(sh, n) {
      var q, j :| q in sh.kids && IsKid(sh, q, j, n);
      AttachKid(sh, p, pos, x, q, if q == p && j >= pos then j + 1 else j, n);
    }
  }

  lemma AttachRoots(sh: Shape, ls: map<Node, Links>, ls': map<Node, Links>, p: Node, pos: nat, x: Node)
    requires Good(sh) && ls.Keys == sh.kids.Keys && RootLinks(sh, ls)
    requires p in sh.kids && pos <= |sh.kids[p]| && x in sh.kids && LinkedIn(sh.kids[p], ls, ls', p, pos, x)
    ensures RootLinks(Attach(sh, p, pos, x), ls')
  {
    hide Good, Pre;
    var sh' := Attach(sh, p, pos, x);
    forall n | n in sh.kids && !HasParent(sh', n) ensures ls'[n].parent == ls'[n].prev == ls'[n].next == null {
      AttachParents(sh, p, pos, x, n);
      assert !HasParent(sh, n) && n != x;
      assert pos > 0 ==> IsKid(sh, p, pos - 1, sh.kids[p][pos - 1]);
      assert pos < |sh.kids[p]| ==> IsKid(sh, p, pos, sh.kids[p][pos]);
    }
  }

  lemma AttachChildren(sh: Shape, sh': Shape, ls: map<Node, Links>, ls': map<Node, Links>, p: Node, pos: nat, x: Node)
    requires ls.Keys == sh.kids.Keys && ChildLinks(sh, ls)
    requires p in sh.kids && pos <= |sh.kids[p]| && x != p && LinkedIn(sh.kids[p], ls, ls', p, pos, x)
    requires sh'.kids == sh.kids[p := Inserted(sh.kids[p], pos, x)]
    ensures ChildLinks(sh', ls')
  {
    forall n | n in sh'.kids
      ensures n in ls' && ls'[n].child == First(sh'.kids[n]) && ls'[n].lastChild == Last(sh'.kids[n]) {
      if n != p && n != x {
        assert sh'.kids[n] == sh.kids[n];
      }
    }
  }

  lemma AttachLinked(sh: Shape, ls: map<Node, Links>, ls': map<Node, Links>, p: Node, pos: nat, x: Node)
    requires Linked(sh, ls) && p in sh.kids && pos <= |sh.kids[p]| && x in sh.kids
    requires !HasParent(sh, x) && p !in Pre(sh, x) && LinkedIn(sh.kids[p], ls, ls', p, pos, x)
    ensures Linked(Attach(sh, p, pos, x), ls')
  {
    hide ChildLinks, SiblingLinks, RootLinks, Good;
    AttachGood(sh, p, pos, x);
    AttachSiblings(sh, ls, ls', p, pos, x);
    AttachRoots(sh, ls, ls', p, pos, x);
    AttachChildren(sh, Attach(sh, p, pos, x), ls, ls', p, pos, x);
  }

  // ---------------------------------------------------------------- the tree in the heap

  /** What taking node out from between pr and nx, children of p, writes to the links of n. */
  ghost function CutOut(node: Node, p: Node, pr: Node?, nx: Node?, n: Node, l: Links): Links {
    if n == node then l.(parent := null, prev := null, next := null)
    else if n == p then
      l.(child := if pr == null then nx else l.child, lastChild := if nx == null then pr else l.lastChild)
    else if n == pr then l.(next := nx)
    else if n == nx then l.(prev := pr)
    else l
  }

  /** What putting node in between pr and nx, children of p, writes to the links of n. */
  ghost function PutBetween(node: Node, p: Node, pr: Node?, nx: Node?, n: Node, l: Links): Links {
    if n == node then l.(parent := p, prev := pr, next := nx)
    else if n == p then
      l.(child := if pr == null then node else l.child, lastChild := if nx == null then node else l.lastChild)
    else if n == pr then l.(next := node)
    else if n == nx then l.(prev := node)
    else l
  }

  ghost function CutAll(node: Node, p: Node, pr: Node?, nx: Node?, ls: map<Node, Links>): map<Node, Links> {
    map n | n in ls :: CutOut(node, p, pr, nx, n, ls[n])
  }

  ghost function PutAll(node: Node, p: Node, pr: Node?, nx: Node?, ls: map<Node, Links>): map<Node, Links> {
    map n | n in ls :: PutBetween(node, p, pr, nx, n, ls[n])
  }

  /** Four different nodes, of which the neighbours may be missing. */
  ghost predicate Apart(node: Node, p: Node, pr: Node?, nx: Node?) {
    && p != node && pr != node && nx != node && pr != p && nx != p
    && (pr == null || pr != nx)
  }

  lemma CutReady(ks: seq<Node>, ls: map<Node, Links>, p: Node, i: nat)
    requires i < |ks| && ReadyToUnlink(ks, ls, p, i)
    ensures Apart(ks[i], p, PrevIn(ks, i), NextIn(ks, i)) && p in ls && ks[i] in ls
    ensures (i > 0 ==> ks[i - 1] in ls) && (i + 1 < |ks| ==> ks[i + 1] in ls)
    ensures ls[ks[i]].parent == p && ls[ks[i]].prev == PrevIn(ks, i) && ls[ks[i]].next == NextIn(ks, i)
  {
    assert i > 0 ==> ks[i - 1] in ks;
    assert i + 1 < |ks| ==> ks[i + 1] in ks;
  }

  lemma CutIsUnlinked(ks: seq<Node>, p: Node, i: nat, n: Node, l: Links)
    requires i < |ks| && (n == p ==> l.child == First(ks) && l.lastChild == Last(ks))
    ensures CutOut(ks[i], p, PrevIn(ks, i), NextIn(ks, i), n, l) == UnlinkedAt(ks, p, i, n, l)
  {
  }

  lemma PutIsLinked(ks: seq<Node>, p: Node, pos: nat, x: Node, n: Node, l: Links)
    requires pos <= |ks| && (n == p ==> l.child == First(ks) && l.lastChild == Last(ks))
    ensures PutBetween(x, p, PrevIn(ks, pos), At(ks, pos), n, l) == LinkedAt(ks, p, pos, x, n, l)
  {
  }

  /** Cutting a child out of its place turns a linked tree into the tree without it. */
  lemma CutLinked(sh: Shape, ls: map<Node, Links>, p: Node, i: nat)
    requires Linked(sh, ls) && p in sh.kids && i < |sh.kids[p]|
    ensures var ks := sh.kids[p];
      Linked(Detach(sh, p, i), CutAll(ks[i], p, PrevIn(ks, i), NextIn(ks, i), ls))
  {
    hide Linked;
    OwnPointers(sh, ls, p);
    var ks := sh.kids[p];
    var ls' := CutAll(ks[i], p, PrevIn(ks, i), NextIn(ks, i), ls);
    forall n | n in ls ensures ls'[n] == UnlinkedAt(ks, p, i, n, ls[n]) {
      CutIsUnlinked(ks, p, i, n, ls[n]);
    }
    DetachLinked(sh, ls, ls', p, i);
  }

  lemma PutLinked(sh: Shape, ls: map<Node, Links>, p: Node, pos: nat, x: Node)
    requires Linked(sh, ls) && p in sh.kids && pos <= |sh.kids[p]| && x in sh.kids
    requires !HasParent(sh, x) && p !in Pre(sh, x)
    ensures var ks := sh.kids[p];
      Linked(Attach(sh, p, pos, x), PutAll(x, p, PrevIn(ks, pos), At(ks, pos), ls))
  {
    hide Linked, HasParent, Pre;
    OwnPointers(sh, ls, p);
    var ks := sh.kids[p];
    var ls' := PutAll(x, p, PrevIn(ks, pos), At(ks, pos), ls);
    forall n | n in ls ensures ls'[n] == LinkedAt(ks, p, pos, x, n, ls[n]) {
      PutIsLinked(ks, p, pos, x, n, ls[n]);
    }
    AttachLinked(sh, ls, ls', p, pos, x);
  }

  // ---------------------------------------------------------------- the pointer updates

  /** The pointers in the heap are these link values. */
  ghost predicate Matches(ns: set<Node>, ls: map<Node, Links>)
    reads ns`next, ns`prev, ns`parent, ns`child, ns`lastChild
  {
    ls.Keys == ns && forall n | n in ns :: LinksOf(n) == ls[n]
  }

  /** Takes node out from between its neighbours. */
  method Unlink(node: Node, ghost ns: set<Node>, ghost p: Node, ghost pr: Node?, ghost nx: Node?)
    requires node in ns && p in ns && (pr != null ==> pr in ns) && (nx != null ==> nx in ns)
    requires Apart(node, p, pr, nx) && node.parent == p && node.prev == pr && node.next == nx
    modifies ns`next, ns`prev, ns`parent, ns`child, ns`lastChild
    ensures forall n | n in ns :: LinksOf(n) == CutOut(node, p, pr, nx, n, old(LinksOf(n)))
  {
    if node.prev != null {
      node.prev.next := node.next;
    } else {
      node.parent.child := node.next;
    }
    if node.next != null {
      node.next.prev := node.prev;
    } else {
      node.parent.lastChild := node.prev;
    }
    node.parent := null;
    node.prev := null;
    node.next := null;
  }

  method LinkFirst(parent: Node, node: Node, ghost ns: set<Node>)
    requires node in ns && parent in ns && (parent.child != null ==> parent.child in ns)
    requires Apart(node, parent, null, parent.child) && node.prev == null
    requires parent.child == null <==> parent.lastChild == null
    modifies ns`next, ns`prev, ns`parent, ns`child, ns`lastChild
    ensures forall n | n in ns :: LinksOf(n) == PutBetween(node, parent, null, old(parent.child), n, old(LinksOf(n)))
  {
    node.parent := parent;
    node.next := parent.child;
    if parent.child != null {
      parent.child.prev := node;
    } else {
      parent.lastChild := node;
    }
    parent.child := node;
  }

  method LinkBefore(parent: Node, child: Node, node: Node, ghost ns: set<Node>)
    requires node in ns && parent in ns && child in ns && (child.prev != null ==> child.prev in ns)
    requires Apart(node, parent, child.prev, child)
    modifies ns`next, ns`prev, ns`parent, ns`child, ns`lastChild
    ensures forall n | n in ns :: LinksOf(n) == PutBetween(node, parent, old(child.prev), child, n, old(LinksOf(n)))
  {
    node.parent := parent;
    node.next := child;
    node.prev := child.prev;
    if child.prev != null {
      child.prev.next := node;
    } else {
      parent.child := node;
    }
    child.prev := node;
  }

  method LinkLast(parent: Node, node: Node, ghost ns: set<Node>)
    requires node in ns && parent in ns && (parent.lastChild != null ==> parent.lastChild in ns)
    requires Apart(node, parent, parent.lastChild, null) && node.next == null
    requires parent.child == null <==> parent.lastChild == null
    modifies ns`next, ns`prev, ns`parent, ns`child, ns`lastChild
    ensures forall n | n in ns ::
      LinksOf(n) == PutBetween(node, parent, old(parent.lastChild), null, n, old(LinksOf(n)))
  {
    node.parent := parent;
    node.prev := parent.lastChild;
    if parent.lastChild != null {
      parent.lastChild.next := node;
    } else {
      parent.child := node;
    }
    parent.lastChild := node;
  }

  method LinkAfter(parent: Node, child: Node, node: Node, ghost ns: set<Node>)
    requires node in ns && parent in ns && child in ns && (child.next != null ==> child.next in ns)
    requires Apart(node, parent, child, child.next)
    modifies ns`next, ns`prev, ns`parent, ns`child, ns`lastChild
    ensures forall n | n in ns :: LinksOf(n) == PutBetween(node, parent, child, old(child.next), n, old(LinksOf(n)))
  {
    node.parent := parent;
    node.prev := child;
    node.next := child.next;
    if child.next != null {
      child.next.prev := node;
    } else {
      parent.lastChild := node;
    }
    child.next := node;
  }

  /** What the children's list says about the links a new child is put between. */
  ghost predicate Surroundings(ks: seq<Node>, ls: map<Node, Links>, add: Where, p: Node, child: Node?, x: Node)
  {
    var pos := Position(ks, add, child);
    var pr, nx := PrevIn(ks, pos), At(ks, pos);
    && p in ls && x in ls && (pr != null ==> pr in ls) && (nx != null ==> nx in ls) && (child != null ==> child in ls)
    && Apart(x, p, pr, nx) && ls[x].prev == ls[x].next == null
    && (ls[p].child == null <==> ls[p].lastChild == null)
    && match add
      case Before =>
        if child == null || child == ls[p].child || ls[child].parent != p then pr == null && nx == ls[p].child
        else pr == ls[child].prev && nx == child
      case After =>
        if child == null || child == ls[p].lastChild || ls[child].parent != p then pr == ls[p].lastChild && nx == null
        else pr == child && nx == ls[child].next
  }

  lemma PositionPlaces(sh: Shape, p: Node, add: Where, child: Node?, x: Node)
    requires Good(sh) && p in sh.kids
    ensures Placed(sh.kids[p], Inserted(sh.kids[p], Position(sh.kids[p], add, child), x), add, child, x)
  {
    var ks := sh.kids[p];
    forall i | 0 <= i < |ks| && ks[i] == child ensures i == IndexIn(ks, child) {
      assert IsKid(sh, p, i, ks[i]) && IsKid(sh, p, IndexIn(ks, child), ks[IndexIn(ks, child)]);
    }
  }

  lemma SurroundingsReady(ks: seq<Node>, ls: map<Node, Links>, add: Where, p: Node, child: Node?, x: Node)
    requires ReadyToLink(ks, ls, p, x) && (child != null ==> child in ls)
    ensures Surroundings(ks, ls, add, p, child, x)
  {
    var pos := Position(ks, add, child);
    assert pos > 0 ==> ks[pos - 1] in ks;
    assert pos < |ks| ==> ks[pos] in ks;
  }

  /** Puts node among the children of parent, next to child when that is one of them. */
  method Link(parent: Node, add: Where, child: Node?, node: Node, ghost ns: set<Node>, ghost ls: map<Node, Links>,
      ghost ks: seq<Node>)
    requires parent in ns && node in ns && (child != null ==> child in ns)
    requires Matches(ns, ls) && Surroundings(ks, ls, add, parent, child, node)
    modifies ns`next, ns`prev, ns`parent, ns`child, ns`lastChild
    ensures var pos := Position(ks, add, child);
      forall n | n in ns :: LinksOf(n) == PutBetween(node, parent, PrevIn(ks, pos), At(ks, pos), n, old(LinksOf(n)))
  {
    assert LinksOf(parent) == ls[parent] && LinksOf(node) == ls[node]
      && (child != null ==> LinksOf(child) == ls[child]);
    match add
    case Before =>
      if child == null || child == parent.child || child.parent != parent {
        LinkFirst(parent, node, ns);
      } else {
        LinkBefore(parent, child, node, ns);
      }
    case After =>
      if child == null || child == parent.lastChild || child.parent != parent {
        LinkLast(parent, node, ns);
      } else {
        LinkAfter(parent, child, node, ns);
      }
  }

  /** The shape once x is nobody's child. */
  ghost function Orphaned(sh: Shape, x: Node): (sh': Shape)
    requires Good(sh)
    ensures sh'.kids.Keys == sh.kids.Keys
  {
    if HasParent(sh, x) then
      var p, i :| p in sh.kids && IsKid(sh, p, i, x);
      Detach(sh, p, i)
    else sh
  }

  /** What is below a node depends only on the children lists there. */
  lemma {:induction false} SameBelow(sh: Shape, sh': Shape, n: Node)
    requires Good(sh) && Good(sh') && n in sh.kids
    requires forall m | m in Pre(sh, n) :: m in sh.kids && m in sh'.kids && sh'.kids[m] == sh.kids[m]
    ensures n in sh'.kids && Pre(sh', n) == Pre(sh, n) && Post(sh', n) == Post(sh, n)
    decreases sh.rank[n], 1, 0
  {
    assert n in Pre(sh, n);
    SameBelowFrom(sh, sh', n, 0);
  }

  lemma {:induction false} SameBelowFrom(sh: Shape, sh': Shape, n: Node, i: nat)
    requires Good(sh) && Good(sh') && n in sh.kids && i <= |sh.kids[n]|
    requires n in sh'.kids && sh'.kids[n] == sh.kids[n]
    requires forall m | m in PreFrom(sh, n, i) :: m in sh.kids && m in sh'.kids && sh'.kids[m] == sh.kids[m]
    ensures PreFrom(sh', n, i) == PreFrom(sh, n, i) && PostFrom(sh', n, i) == PostFrom(sh, n, i)
    decreases sh.rank[n], 0, |sh.kids[n]| - i
  {
    if i < |sh.kids[n]| {
      assert IsKid(sh, n, i, sh.kids[n][i]);
      SameBelow(sh, sh', sh.kids[n][i]);
      SameBelowFrom(sh, sh', n, i + 1);
    }
  }

  lemma DetachBelow(sh: Shape, p: Node, i: nat)
    requires Good(sh) && p in sh.kids && i < |sh.kids[p]|
    ensures sh.kids[p][i] in sh.kids && Good(Detach(sh, p, i))
    ensures Pre(Detach(sh, p, i), sh.kids[p][i]) == Pre(sh, sh.kids[p][i])
    ensures Post(Detach(sh, p, i), sh.kids[p][i]) == Post(sh, sh.kids[p][i])
  {
    var x := sh.kids[p][i];
    assert IsKid(sh, p, i, x);
    DetachGood(sh, p, i);
    forall m | m in Pre(sh, x) ensures m in sh.kids && m != p {
      UnderRank(sh, x, m);
    }
    SameBelow(sh, Detach(sh, p, i), x);
  }

  lemma OrphanedBelow(sh: Shape, x: Node)
    requires Good(sh) && x in sh.kids
    ensures Good(Orphaned(sh, x)) && !HasParent(Orphaned(sh, x), x)
    ensures Pre(Orphaned(sh, x), x) == Pre(sh, x) && Post(Orphaned(sh, x), x) == Post(sh, x)
  {
    if HasParent(sh, x) {
      var p, i :| p in sh.kids && IsKid(sh, p, i, x) && Orphaned(sh, x) == Detach(sh, p, i);
      DetachGood(sh, p, i);
      DetachBelow(sh, p, i);
    }
  }

  lemma ChildrenLinks(sh: Shape, ls: map<Node, Links>, p: Node)
    requires Linked(sh, ls) && p in sh.kids
    ensures var ks := sh.kids[p];
      && NoDup(ks) && (forall k | k in ks :: k in ls && k != p && HasParent(sh, k))
      && (forall i | 0 <= i < |ks| :: ls[ks[i]].prev == PrevIn(ks, i) && ls[ks[i]].next == NextIn(ks, i))
      && (forall k | k in ls :: ls[k].parent == p <==> k in ks)
      && ls[p].child == First(ks) && ls[p].lastChild == Last(ks)
  {
    var ks := sh.kids[p];
    forall i | 0 <= i < |ks| ensures IsKid(sh, p, i, ks[i]) {
    }
    forall i | 0 <= i < |ks|
      ensures ks[i] in ls && ls[ks[i]].prev == PrevIn(ks, i) && ls[ks[i]].next == NextIn(ks, i) && ls[ks[i]].parent == p
    {
      KidLinks(sh, ls, p, i);
    }
    forall k | k in sh.kids && ls[k].parent == p ensures k in ks {
      var i := OwnPlace(sh, ls, k);
    }
  }

  lemma UnlinkReady(sh: Shape, ls: map<Node, Links>, p: Node, i: nat)
    requires Linked(sh, ls) && p in sh.kids && i < |sh.kids[p]|
    ensures ReadyToUnlink(sh.kids[p], ls, p, i)
  {
    ChildrenLinks(sh, ls, p);
    KidLinks(sh, ls, p, i);
  }

  lemma LinkReady(sh: Shape, ls: map<Node, Links>, p: Node, x: Node)
    requires Linked(sh, ls) && p in sh.kids && x in sh.kids && p != x && !HasParent(sh, x)
    ensures ReadyToLink(sh.kids[p], ls, p, x)
  {
    ChildrenLinks(sh, ls, p);
  }

  /** The shape with one more node, that has no parent and no children. */
  ghost function Grown(sh: Shape, x: Node): Shape {
    Shape(sh.kids[x := []], sh.rank[x := 0])
  }

  lemma GrownRoot(sh: Shape, x: Node)
    requires Good(sh) && x !in sh.kids
    ensures Good(Grown(sh, x)) && !HasParent(Grown(sh, x), x) && Pre(Grown(sh, x), x) == [x]
  {
    var sh' := Grown(sh, x);
    forall p, i, y | p in sh'.kids && IsKid(sh', p, i, y) ensures y in sh.kids && IsKid(sh, p, i, y) {
      assert IsKid(sh, p, i, y);
    }
    assert PreFrom(sh', x, 0) == [];
  }

  /** A new node is added to its parent as the last child. */
  lemma GrownPlace(sh: Shape, p: Node, x: Node)
    requires Good(sh) && x !in sh.kids && p in sh.kids
    ensures Good(Grown(sh, x)) && p in Grown(sh, x).kids && p !in Pre(Grown(sh, x), x)
      && Orphaned(Grown(sh, x), x) == Grown(sh, x)
    ensures Position(Grown(sh, x).kids[p], After, null) == |sh.kids[p]|
  {
    GrownRoot(sh, x);
  }

  lemma GrownLinked(sh: Shape, ls: map<Node, Links>, x: Node)
    requires Linked(sh, ls) && x !in sh.kids
    ensures Linked(Grown(sh, x), ls[x := NO_LINKS])
  {
    var sh', ls' := Grown(sh, x), ls[x := NO_LINKS];
    GrownRoot(sh, x);
    forall p, i, y | p in sh'.kids && IsKid(sh', p, i, y) ensures SiblingLinksOf(sh', p, i, y, ls'[y]) {
      assert IsKid(sh, p, i, y);
      assert SiblingLinksOf(sh, p, i, y, ls[y]);
    }
    forall n | n in sh.kids && !HasParent(sh', n) ensures !HasParent(sh, n) {
      if HasParent(sh, n) {
        var p, i :| p in sh.kids && IsKid(sh, p, i, n);
        assert IsKid(sh', p, i, n);
      }
    }
  }

  /** Linking and unlinking, with the links of all nodes as a value. */
  method LinkAll(parent: Node, add: Where, child: Node?, node: Node, ghost ns: set<Node>, ghost ls: map<Node, Links>,
      ghost ks: seq<Node>)
    returns (ghost ls': map<Node, Links>)
    requires Matches(ns, ls) && Surroundings(ks, ls, add, parent, child, node)
    modifies ns`next, ns`prev, ns`parent, ns`child, ns`lastChild
    ensures var pos := Position(ks, add, child);
      ls' == PutAll(node, parent, PrevIn(ks, pos), At(ks, pos), ls) && Matches(ns, ls')
  {
    hide PutBetween, Position;
    Link(parent, add, child, node, ns, ls, ks);
    ghost var pos := Position(ks, add, child);
    ls' := PutAll(node, parent, PrevIn(ks, pos), At(ks, pos), ls);
  }

  method UnlinkAll(node: Node, ghost ns: set<Node>, ghost p: Node, ghost pr: Node?, ghost nx: Node?,
      ghost ls: map<Node, Links>)
    returns (ghost ls': map<Node, Links>)
    requires Matches(ns, ls)
    requires node in ls && p in ls && (pr != null ==> pr in ls) && (nx != null ==> nx in ls)
    requires Apart(node, p, pr, nx) && ls[node].parent == p && ls[node].prev == pr && ls[node].next == nx
    modifies ns`next, ns`prev, ns`parent, ns`child, ns`lastChild
    ensures ls' == CutAll(node, p, pr, nx, ls) && Matches(ns, ls')
  {
    hide CutOut;
    assert LinksOf(node) == ls[node];
    Unlink(node, ns, p, pr, nx);
    ls' := CutAll(node, p, pr, nx, ls);
  }

  class Document {
    ghost var shape: Shape
    ghost var links: map<Node, Links>
    ghost var freed: seq<Node>     // in the order they were freed

    /** Every node of the document is alive, and its pointers are the ones the shape gives it. */
    ghost predicate Valid()
      reads this, shape.kids.Keys
    {
      && (forall n | n in shape.kids :: n.live)
      && Matches(shape.kids.Keys, links) && Linked(shape, links)
    }

    constructor ()
      ensures Valid() && shape == Shape(map[], map[]) && freed == []
    {
      shape := Shape(map[], map[]);
      links := map[];
      freed := [];
    }

    /** Records what the document has become. */
    ghost method Become(sh: Shape, ls: map<Node, Links>, fr: seq<Node>)
      requires Linked(sh, ls) && Matches(sh.kids.Keys, ls) && forall n | n in sh.kids :: n.live
      modifies `shape, `links, `freed
      ensures Valid() && shape == sh && links == ls && freed == fr
    {
      shape, links, freed := sh, ls, fr;
    }

    method Cut(node: Node, ghost p: Node, ghost pr: Node?, ghost nx: Node?, ghost sh: Shape)
      requires Matches(shape.kids.Keys, links) && sh.kids.Keys == shape.kids.Keys
      requires node in links && p in links && (pr != null ==> pr in links) && (nx != null ==> nx in links)
      requires Apart(node, p, pr, nx) && links[node].parent == p && links[node].prev == pr && links[node].next == nx
      modifies this`shape, this`links
      modifies shape.kids.Keys`next, shape.kids.Keys`prev, shape.kids.Keys`parent, shape.kids.Keys`child,
        shape.kids.Keys`lastChild
      ensures shape == sh && links == CutAll(node, p, pr, nx, old(links)) && Matches(shape.kids.Keys, links)
    {
      hide Matches, CutAll, PutAll, Surroundings, Apart;
      ghost var ls := UnlinkAll(node, shape.kids.Keys, p, pr, nx, links);
      links, shape := ls, sh;
    }

    method Put(parent: Node, add: Where, child: Node?, node: Node, ghost ks: seq<Node>, ghost sh: Shape)
      requires Matches(shape.kids.Keys, links) && sh.kids.Keys == shape.kids.Keys
      requires Surroundings(ks, links, add, parent, child, node)
      modifies this`shape, this`links
      modifies shape.kids.Keys`next, shape.kids.Keys`prev, shape.kids.Keys`parent, shape.kids.Keys`child,
        shape.kids.Keys`lastChild
      ensures var pos := Position(ks, add, child);
        links == PutAll(node, parent, PrevIn(ks, pos), At(ks, pos), old(links))
      ensures shape == sh && Matches(shape.kids.Keys, links)
    {
      hide Matches, CutAll, PutAll, Surroundings, Apart;
      ghost var ls := LinkAll(parent, add, child, node, shape.kids.Keys, links, ks);
      links, shape := ls, sh;
    }

    method TakeOut(node: Node, ghost p: Node, ghost i: nat)
      requires Valid() && IsKid(shape, p, i, node)
      modifies this`shape, this`links
      modifies shape.kids.Keys`next, shape.kids.Keys`prev, shape.kids.Keys`parent, shape.kids.Keys`child,
        shape.kids.Keys`lastChild
      ensures Valid() && shape == Detach(old(shape), p, i)
    {
      hide ChildLinks, SiblingLinks, RootLinks, Good, Detach;
      ghost var ks := shape.kids[p];
      UnlinkReady(shape, links, p, i);
      CutReady(ks, links, p, i);
      CutLinked(shape, links, p, i);
      Cut(node, p, PrevIn(ks, i), NextIn(ks, i), Detach(shape, p, i));
    }

    /** Takes a node out of its parent's list; does nothing when it has no parent. */
    method Remove(node: Node?)
      requires Valid() && (node != null ==> node in shape.kids)
      modifies this`shape, this`links
      modifies shape.kids.Keys`next, shape.kids.Keys`prev, shape.kids.Keys`parent, shape.kids.Keys`child,
        shape.kids.Keys`lastChild
      ensures Valid()
      ensures shape == if node == null then old(shape) else Orphaned(old(shape), node)
    {
      if node == null {
        return;
      }
      assert LinksOf(node) == links[node];
      ParentPointer(shape, links, node);
      if node.parent == null {
        return;
      }
      ghost var p, i :| p in shape.kids && IsKid(shape, p, i, node) && Orphaned(shape, node) == Detach(shape, p, i);
      TakeOut(node, p, i);
    }

    method PutIn(parent: Node, add: Where, child: Node?, node: Node)
      requires Valid() && parent in shape.kids && node in shape.kids && (child != null ==> child in shape.kids)
      requires child != node && !HasParent(shape, node) && parent !in Pre(shape, node)
      modifies this`shape, this`links
      modifies shape.kids.Keys`next, shape.kids.Keys`prev, shape.kids.Keys`parent, shape.kids.Keys`child,
        shape.kids.Keys`lastChild
      ensures Valid()
      ensures shape == Attach(old(shape), parent, Position(old(shape).kids[parent], add, child), node)
    {
      hide ChildLinks, SiblingLinks, RootLinks, Good, Attach;
      ghost var ks := shape.kids[parent];
      ghost var pos := Position(ks, add, child);
      assert node in Pre(shape, node);
      LinkReady(shape, links, parent, node);
      SurroundingsReady(ks, links, add, parent, child, node);
      PutLinked(shape, links, parent, pos, node);
      Put(parent, add, child, node, ks, Attach(shape, parent, pos, node));
    }

    /**
    Adds a node, with everything under it, to the children of parent: next to child, or at the
    end asked for when child is null or is no child of parent. A node that has a parent is
    taken out of that parent's list first.
    */
    method Add(parent: Node?, add: Where, child: Node?, node: Node?)
      requires Valid() && (parent != null ==> parent in shape.kids)
      requires (node != null ==> node in shape.kids) && (child != null ==> child in shape.kids)
      requires parent != null && node != null ==> child != node && parent !in Pre(shape, node)
      modifies this`shape, this`links
      modifies shape.kids.Keys`next, shape.kids.Keys`prev, shape.kids.Keys`parent, shape.kids.Keys`child,
        shape.kids.Keys`lastChild
      ensures Valid()
      ensures if parent == null || node == null then shape == old(shape)
              else var sh := Orphaned(old(shape), node);
                Good(sh) && shape == Attach(sh, parent, Position(sh.kids[parent], add, child), node)
      ensures parent != null && node != null ==>
        Placed(Orphaned(old(shape), node).kids[parent], shape.kids[parent], add, child, node)
    {
      if parent == null || node == null {
        return;
      }
      OrphanedBelow(shape, node);
      assert LinksOf(node) == links[node];
      ParentPointer(shape, links, node);
      if node.parent != null {
        Remove(node);
      }
      PositionPlaces(shape, parent, add, child, node);
      PutIn(parent, add, child, node);
    }

    /** A new node that has no parent. */
    method Allocate(value: Value) returns (node: Node)
      requires Valid()
      modifies this
      ensures Valid() && freed == old(freed) && fresh(node) && node.value == value && node !in old(shape).kids
      ensures shape == Grown(old(shape), node)
    {
      node := new Node(value);
      GrownLinked(shape, links, node);
      assert LinksOf(node) == NO_LINKS;
      Become(Grown(shape, node), links[node := NO_LINKS], freed);
    }

    /** A new node, at the end of the parent's children when a parent is given. */
    method Create(parent: Node?, value: Value) returns (node: Node)
      requires Valid() && (parent != null ==> parent in shape.kids)
      modifies this
      modifies shape.kids.Keys`next, shape.kids.Keys`prev, shape.kids.Keys`parent, shape.kids.Keys`child,
        shape.kids.Keys`lastChild
      ensures Valid() && freed == old(freed) && fresh(node) && node.value == value && node !in old(shape).kids
      ensures parent == null ==> shape == Grown(old(shape), node)
      ensures parent != null ==>
        var sh := Grown(old(shape), node);
        Good(sh) && shape == Attach(sh, parent, |old(shape).kids[parent]|, node)
    {
      ghost var start := shape;
      node := Allocate(value);
      if parent != null {
        GrownPlace(start, parent, node);
        Add(parent, After, null, node);
      }
    }
  }
}
