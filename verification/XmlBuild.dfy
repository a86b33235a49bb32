/**
What the loader has built so far, as a value: the elements that are open, from the root down to
the parent, each with its finished children, and how adding a node changes that.
*/
module XmlBuild {
  import opened Common
  import opened XmlShape
  import opened XmlTree
  import opened XmlText
  import opened XmlParse
  import opened XmlDelete

  // ---------------------------------------------------------------- trees that do not change

  lemma {:induction false} SameTree(sh: Shape, sh': Shape, n: Node)
    requires Good(sh) && Good(sh') && n in sh.kids
    requires forall m | m in Pre(sh, n) :: m in sh.kids && m in sh'.kids && sh'.kids[m] == sh.kids[m]
    ensures n in sh'.kids && TreeOf(sh', n) == TreeOf(sh, n)
    decreases sh.rank[n], 1, 0
  {
    assert n in Pre(sh, n);
    SameTreesFrom(sh, sh', n, 0);
  }

  lemma {:induction false} SameTreesFrom(sh: Shape, sh': Shape, n: Node, i: nat)
    requires Good(sh) && Good(sh') && n in sh.kids && i <= |sh.kids[n]|
    requires n in sh'.kids && sh'.kids[n] == sh.kids[n]
    requires forall m | m in PreFrom(sh, n, i) :: m in sh.kids && m in sh'.kids && sh'.kids[m] == sh.kids[m]
    ensures TreesFrom(sh', n, i) == TreesFrom(sh, n, i)
    decreases sh.rank[n], 0, |sh.kids[n]| - i
  {
    if i < |sh.kids[n]| {
      assert IsKid(sh, n, i, sh.kids[n][i]);
      SameTree(sh, sh', sh.kids[n][i]);
      SameTreesFrom(sh, sh', n, i + 1);
    }
  }

  // ---------------------------------------------------------------- the open elements

  ghost predicate Finished(sh: Shape, n: Node, i: nat, t: Tree)
    requires Good(sh) && n in sh.kids && i < |sh.kids[n]|
  {
    IsKid(sh, n, i, sh.kids[n][i]) && TreeOf(sh, sh.kids[n][i]) == t
  }

  /** n is an open element: its finished children, and then the next open element, if there is one. */
  ghost predicate OpenHere(sh: Shape, n: Node, o: Open, next: Node?)
    requires Good(sh) && n in sh.kids
  {
    && n.value == Element(o.name, o.attrs)
    && |sh.kids[n]| == |o.kids| + (if next == null then 0 else 1)
    && (next != null ==> sh.kids[n][|o.kids|] == next)
    && forall i | 0 <= i < |o.kids| :: Finished(sh, n, i, o.kids[i])
  }

  /** The open elements from the root to the parent. */
  ghost predicate Spine(sh: Shape, nodes: seq<Node>, stack: seq<Open>) {
    && Good(sh) && |nodes| == |stack| && NoDup(nodes)
    && (forall k | 0 <= k < |nodes| :: nodes[k] in sh.kids && OpenHere(sh, nodes[k], stack[k], At(nodes, k + 1)))
    && (nodes != [] ==> !HasParent(sh, nodes[0]))
  }

  /** No open element lies under a finished child. */
  lemma {:induction false} SpineApart(sh: Shape, nodes: seq<Node>, stack: seq<Open>, k: nat, i: nat, j: nat)
    requires Spine(sh, nodes, stack) && k < |nodes| && i < |stack[k].kids| && j < |nodes|
    ensures IsKid(sh, nodes[k], i, sh.kids[nodes[k]][i]) && sh.kids[nodes[k]][i] in sh.kids
    ensures nodes[j] !in Pre(sh, sh.kids[nodes[k]][i])
    decreases j
  {
    var kid := sh.kids[nodes[k]][i];
    assert OpenHere(sh, nodes[k], stack[k], At(nodes, k + 1)) && Finished(sh, nodes[k], i, stack[k].kids[i]);
    if nodes[j] in Pre(sh, kid) {
      if j == 0 {
        if nodes[0] != kid {
          var p, l := ParentUnder(sh, kid, nodes[0]);
        }
        assert HasParent(sh, nodes[0]);
        assert false;
      } else {
        assert OpenHere(sh, nodes[j - 1], stack[j - 1], At(nodes, j));
        assert IsKid(sh, nodes[j - 1], |stack[j - 1].kids|, nodes[j]);
        if nodes[j] == kid {
          assert false;
        } else {
          ParentIsUnder(sh, kid, nodes[j - 1], |stack[j - 1].kids|, nodes[j]);
          SpineApart(sh, nodes, stack, k, i, j - 1);
          assert false;
        }
      }
    }
  }

  // ---------------------------------------------------------------- adding a node

  /** sh' is sh with the new node x as the last child of p. */
  ghost predicate NewKid(sh: Shape, sh': Shape, p: Node, x: Node) {
    && Good(sh) && Good(sh') && p in sh.kids && x !in sh.kids
    && sh'.kids == sh.kids[p := sh.kids[p] + [x]][x := []]
  }

  /** The tree of a node that has no children. */
  ghost function LeafTree(v: Value): Tree {
    match v
    case Element(name, attrs) => Elem(name, attrs, [])
    case Text(whitespace, text) => Words(whitespace, text)
    case Other => Words(false, [])
  }

  lemma LeafIs(sh: Shape, x: Node)
    requires Good(sh) && x in sh.kids && sh.kids[x] == []
    ensures TreeOf(sh, x) == LeafTree(x.value)
  {
    assert TreesFrom(sh, x, 0) == [];
  }

  lemma AttachedIsNewKid(sh: Shape, p: Node, x: Node)
    requires Good(sh) && p in sh.kids && x !in sh.kids && Good(Grown(sh, x))
    requires Good(Attach(Grown(sh, x), p, |sh.kids[p]|, x))
    ensures NewKid(sh, Attach(Grown(sh, x), p, |sh.kids[p]|, x), p, x)
  {
    var sh' := Attach(Grown(sh, x), p, |sh.kids[p]|, x);
    assert Inserted(sh.kids[p], |sh.kids[p]|, x) == sh.kids[p] + [x];
    assert sh'.kids == sh.kids[p := sh.kids[p] + [x]][x := []];
  }

  lemma NewKidParents(sh: Shape, sh': Shape, p: Node, x: Node, q: Node, i: int, y: Node)
    requires NewKid(sh, sh', p, x) && IsKid(sh', q, i, y)
    ensures q in sh.kids && (IsKid(sh, q, i, y) || (y == x && q == p && i == |sh.kids[p]|))
  {
  }

  /** A new child elsewhere does not change a finished child. */
  lemma FinishedElsewhere(sh: Shape, sh': Shape, p: Node, x: Node, n: Node, i: nat, t: Tree)
    requires NewKid(sh, sh', p, x) && n in sh.kids && i < |sh.kids[n]| && Finished(sh, n, i, t)
    requires sh.kids[n][i] in sh.kids && p !in Pre(sh, sh.kids[n][i])
    ensures n in sh'.kids && i < |sh'.kids[n]| && Finished(sh', n, i, t)
  {
    var kid := sh.kids[n][i];
    forall m | m in Pre(sh, kid) ensures m in sh.kids && m in sh'.kids && sh'.kids[m] == sh.kids[m] {
      UnderRank(sh, kid, m);
    }
    SameTree(sh, sh', kid);
    assert IsKid(sh', n, i, kid);
  }

  lemma FinishedStays(sh: Shape, sh': Shape, nodes: seq<Node>, stack: seq<Open>, x: Node, k: nat, i: nat)
    requires Spine(sh, nodes, stack) && nodes != [] && NewKid(sh, sh', nodes[|nodes| - 1], x)
    requires k < |nodes| && i < |stack[k].kids|
    ensures nodes[k] in sh'.kids && i < |sh'.kids[nodes[k]]| && Finished(sh', nodes[k], i, stack[k].kids[i])
  {
    hide Good, HasParent;
    var p, n, t := nodes[|nodes| - 1], nodes[k], stack[k].kids[i];
    assert n in sh.kids && OpenHere(sh, n, stack[k], At(nodes, k + 1));
    assert Finished(sh, n, i, t);
    SpineApart(sh, nodes, stack, k, i, |nodes| - 1);
    FinishedElsewhere(sh, sh', p, x, n, i, t);
  }

  lemma RootStays(sh: Shape, sh': Shape, p: Node, x: Node, n: Node)
    requires NewKid(sh, sh', p, x) && n in sh.kids && !HasParent(sh, n)
    ensures !HasParent(sh', n)
  {
    if HasParent(sh', n) {
      var q, i :| q in sh'.kids && IsKid(sh', q, i, n);
      NewKidParents(sh, sh', p, x, q, i, n);
      assert false;
    }
  }

  /** The stack with one more finished child under the parent. */
  function MoreKids(stack: seq<Open>, t: Tree): seq<Open>
    requires stack != []
  {
    var top := stack[|stack| - 1];
    stack[..|stack| - 1] + [top.(kids := top.kids + [t])]
  }

  /** A childless node added under the parent is one more finished child. */
  lemma AddedSpine(sh: Shape, sh': Shape, nodes: seq<Node>, stack: seq<Open>, x: Node)
    requires Spine(sh, nodes, stack) && nodes != [] && NewKid(sh, sh', nodes[|nodes| - 1], x)
    ensures Spine(sh', nodes, MoreKids(stack, LeafTree(x.value)))
  {
    var last, stack' := |nodes| - 1, MoreKids(stack, LeafTree(x.value));
    var p := nodes[last];
    assert OpenHere(sh, p, stack[last], null);
    LeafIs(sh', x);
    assert IsKid(sh', p, |sh.kids[p]|, x);
    forall k | 0 <= k < |nodes| ensures nodes[k] in sh'.kids && OpenHere(sh', nodes[k], stack'[k], At(nodes, k + 1)) {
      assert OpenHere(sh, nodes[k], stack[k], At(nodes, k + 1));
      forall i | 0 <= i < |stack'[k].kids| ensures Finished(sh', nodes[k], i, stack'[k].kids[i]) {
        if i < |stack[k].kids| {
          FinishedStays(sh, sh', nodes, stack, x, k, i);
        }
      }
    }
    RootStays(sh, sh', p, x, nodes[0]);
  }

  /** An element opened under the parent is the new parent. */
  lemma OpenedSpine(sh: Shape, sh': Shape, nodes: seq<Node>, stack: seq<Open>, x: Node, o: Open)
    requires Spine(sh, nodes, stack) && nodes != [] && NewKid(sh, sh', nodes[|nodes| - 1], x)
    requires x.value == Element(o.name, o.attrs) && o.kids == []
    ensures Spine(sh', nodes + [x], stack + [o])
  {
    var nodes', stack' := nodes + [x], stack + [o];
    forall k | 0 <= k < |nodes'|
      ensures nodes'[k] in sh'.kids && OpenHere(sh', nodes'[k], stack'[k], At(nodes', k + 1)) {
      if k < |nodes| {
        assert OpenHere(sh, nodes[k], stack[k], At(nodes, k + 1));
        forall i | 0 <= i < |stack'[k].kids| ensures Finished(sh', nodes[k], i, stack'[k].kids[i]) {
          FinishedStays(sh, sh', nodes, stack, x, k, i);
        }
      }
    }
    RootStays(sh, sh', nodes[|nodes| - 1], x, nodes[0]);
  }

  /** A new root that is open. */
  lemma RootSpine(sh: Shape, x: Node, o: Open)
    requires Good(sh) && x !in sh.kids && x.value == Element(o.name, o.attrs) && o.kids == []
    ensures Spine(Grown(sh, x), [x], [o])
  {
    GrownRoot(sh, x);
  }

  // ---------------------------------------------------------------- closing the parent

  lemma AllFinished(sh: Shape, n: Node, o: Open)
    requires Good(sh) && n in sh.kids && OpenHere(sh, n, o, null)
    ensures TreeOf(sh, n) == Elem(o.name, o.attrs, o.kids)
  {
    forall i | 0 <= i < |o.kids| ensures TreesFrom(sh, n, 0)[i] == o.kids[i] {
      assert Finished(sh, n, i, o.kids[i]);
      KidTree(sh, n, 0, i);
    }
    assert TreesFrom(sh, n, 0) == o.kids;
  }

  /** The next open element, once its tree is finished, is a finished child. */
  lemma LastFinished(sh: Shape, n: Node, o: Open, next: Node, t: Tree)
    requires Good(sh) && n in sh.kids && OpenHere(sh, n, o, next) && next in sh.kids && TreeOf(sh, next) == t
    ensures OpenHere(sh, n, o.(kids := o.kids + [t]), null)
  {
    hide Good, TreeOf;
    var kids := o.kids + [t];
    forall i | 0 <= i < |kids| ensures Finished(sh, n, i, kids[i]) {
      assert i < |o.kids| ==> Finished(sh, n, i, o.kids[i]);
      assert i == |o.kids| ==> IsKid(sh, n, i, next);
    }
  }

  /** Closing the parent makes it a finished child of the element above it. */
  lemma ClosedSpine(sh: Shape, nodes: seq<Node>, stack: seq<Open>)
    requires Spine(sh, nodes, stack) && nodes != []
    ensures var last := |nodes| - 1; var top := stack[last];
      && nodes[last] in sh.kids && TreeOf(sh, nodes[last]) == Elem(top.name, top.attrs, top.kids)
      && (last > 0 ==> Spine(sh, nodes[..last], MoreKids(stack[..last], Elem(top.name, top.attrs, top.kids))))
  {
    hide Good, HasParent, TreeOf;
    var last := |nodes| - 1;
    var top := stack[last];
    assert OpenHere(sh, nodes[last], top, null);
    AllFinished(sh, nodes[last], top);
    if last > 0 {
      var nodes', stack' := nodes[..last], MoreKids(stack[..last], Elem(top.name, top.attrs, top.kids));
      forall k | 0 <= k < last ensures OpenHere(sh, nodes'[k], stack'[k], At(nodes', k + 1)) {
        assert OpenHere(sh, nodes[k], stack[k], At(nodes, k + 1));
        if k == last - 1 {
          LastFinished(sh, nodes[k], stack[k], nodes[last], Elem(top.name, top.attrs, top.kids));
        }
      }
    }
  }

  // ---------------------------------------------------------------- what was there before

  /** sh has the nodes of base, with the same children, and none of them under a node of its own. */
  ghost predicate Extends(base: Shape, sh: Shape) {
    && (forall n | n in base.kids :: n in sh.kids && sh.kids[n] == base.kids[n])
    && forall p, i, x | IsKid(sh, p, i, x) && x in base.kids :: p in base.kids
  }

  lemma ExtendsKid(base: Shape, sh: Shape, sh': Shape, p: Node, x: Node)
    requires Extends(base, sh) && NewKid(sh, sh', p, x) && p !in base.kids
    ensures Extends(base, sh')
  {
    forall q, i, y | q in sh'.kids && IsKid(sh', q, i, y) && y in base.kids ensures q in base.kids {
      NewKidParents(sh, sh', p, x, q, i, y);
    }
  }

  lemma ExtendsRoot(base: Shape, sh: Shape, x: Node)
    requires Extends(base, sh) && Good(sh) && x !in sh.kids
    ensures Extends(base, Grown(sh, x))
  {
    forall q, i, y | q in Grown(sh, x).kids && IsKid(Grown(sh, x), q, i, y) && y in base.kids ensures q in base.kids {
      assert IsKid(sh, q, i, y);
    }
  }

  lemma {:induction false} NewBelow(base: Shape, sh: Shape, n: Node, y: Node)
    requires Good(sh) && Extends(base, sh) && n in sh.kids && n !in base.kids && y in Pre(sh, n)
    ensures y !in base.kids
    decreases if y in sh.rank && sh.rank[y] <= sh.rank[n] then sh.rank[n] - sh.rank[y] else 0
  {
    UnderRank(sh, n, y);
    if y != n {
      var p, i := ParentUnder(sh, n, y);
      UnderRank(sh, n, p);
      NewBelow(base, sh, n, p);
    }
  }

  /** Deleting a new tree leaves what was there before. */
  lemma ExtendsPruned(base: Shape, sh: Shape, n: Node)
    requires Good(sh) && Extends(base, sh) && n in sh.kids && n !in base.kids
    ensures Extends(base, Pruned(sh, n))
  {
    forall y | y in base.kids ensures y in Pruned(sh, n).kids && Pruned(sh, n).kids[y] == base.kids[y] {
      if y in Pre(sh, n) {
        NewBelow(base, sh, n, y);
      }
    }
    forall q, i, y | q in sh.kids && IsKid(Pruned(sh, n), q, i, y) && y in base.kids ensures q in base.kids {
      assert IsKid(sh, q, i, y);
    }
  }

  // ---------------------------------------------------------------- what else is new

  /** A word that is nobody's child. */
  ghost predicate Stray(sh: Shape, n: Node) {
    n in sh.kids && sh.kids[n] == [] && n.value.Text? && !HasParent(sh, n)
  }

  /** Every new node is under first, or is a stray word. */
  ghost predicate Accounted(base: Shape, sh: Shape, first: Node?)
    requires Good(sh) && (first != null ==> first in sh.kids)
  {
    forall n | n in sh.kids && n !in base.kids :: Stray(sh, n) || (first != null && n in Pre(sh, first))
  }

  /** No children are taken away. */
  ghost predicate Grows(sh: Shape, sh': Shape) {
    forall p, i, x | IsKid(sh, p, i, x) :: IsKid(sh', p, i, x)
  }

  lemma {:induction false} UnderStays(sh: Shape, sh': Shape, top: Node, n: Node)
    requires Good(sh) && Good(sh') && Grows(sh, sh') && top in sh.kids && top in sh'.kids && n in Pre(sh, top)
    ensures n in Pre(sh', top)
    decreases if n in sh.rank && sh.rank[n] <= sh.rank[top] then sh.rank[top] - sh.rank[n] else 0
  {
    UnderRank(sh, top, n);
    if n != top {
      var p, i := ParentUnder(sh, top, n);
      UnderRank(sh, top, p);
      UnderStays(sh, sh', top, p);
      assert IsKid(sh', p, i, n);
      KidsUnder(sh', top, p, i, n);
    }
  }

  lemma {:induction false} SpineUnder(sh: Shape, nodes: seq<Node>, stack: seq<Open>, k: nat)
    requires Spine(sh, nodes, stack) && k < |nodes|
    ensures nodes[0] in sh.kids && nodes[k] in Pre(sh, nodes[0])
  {
    assert nodes[0] in sh.kids;
    if k > 0 {
      SpineUnder(sh, nodes, stack, k - 1);
      assert OpenHere(sh, nodes[k - 1], stack[k - 1], At(nodes, k));
      KidsUnder(sh, nodes[0], nodes[k - 1], |stack[k - 1].kids|, nodes[k]);
    }
  }

  lemma NewKidGrows(sh: Shape, sh': Shape, p: Node, x: Node)
    requires NewKid(sh, sh', p, x)
    ensures Grows(sh, sh') && IsKid(sh', p, |sh.kids[p]|, x)
  {
  }

  lemma StrayStays(sh: Shape, sh': Shape, p: Node, x: Node, n: Node)
    requires NewKid(sh, sh', p, x) && Stray(sh, n) && p != n
    ensures Stray(sh', n)
  {
    RootStays(sh, sh', p, x, n);
  }

  /** A node added under the parent is under the root. */
  lemma AccountedKid(base: Shape, sh: Shape, sh': Shape, nodes: seq<Node>, stack: seq<Open>, x: Node)
    requires Spine(sh, nodes, stack) && nodes != [] && NewKid(sh, sh', nodes[|nodes| - 1], x)
    requires nodes[0] in sh.kids && Accounted(base, sh, nodes[0])
    ensures nodes[0] in sh'.kids && Accounted(base, sh', nodes[0])
  {
    hide Good, HasParent, Spine, NewKid;
    var last := |nodes| - 1;
    var p := nodes[last];
    ParentOpen(sh, sh', nodes, stack, x);
    NewKidGrows(sh, sh', p, x);
    SpineUnder(sh, nodes, stack, last);
    UnderStays(sh, sh', nodes[0], p);
    KidsUnder(sh', nodes[0], p, |sh.kids[p]|, x);
    forall n | n in sh'.kids && n !in base.kids ensures Stray(sh', n) || n in Pre(sh', nodes[0]) {
      if n in sh.kids && Stray(sh, n) {
        StrayStays(sh, sh', p, x, n);
      } else if n in sh.kids {
        UnderStays(sh, sh', nodes[0], n);
      }
    }
  }

  lemma ParentOpen(sh: Shape, sh': Shape, nodes: seq<Node>, stack: seq<Open>, x: Node)
    requires Spine(sh, nodes, stack) && nodes != [] && NewKid(sh, sh', nodes[|nodes| - 1], x)
    ensures Good(sh) && Good(sh') && nodes[|nodes| - 1].value.Element?
    ensures nodes[|nodes| - 1] in sh.kids && nodes[0] in sh.kids && sh'.kids.Keys == sh.kids.Keys + {x}
  {
    assert OpenHere(sh, nodes[|nodes| - 1], stack[|nodes| - 1], null);
    assert nodes[0] in sh.kids;
  }

  lemma StrayAlone(sh: Shape, x: Node, n: Node)
    requires Good(sh) && x !in sh.kids && Stray(sh, n)
    ensures Stray(Grown(sh, x), n)
  {
    GrownRootStays(sh, x, n);
  }

  lemma AccountedStray(base: Shape, sh: Shape, first: Node?, x: Node)
    requires Good(sh) && x !in sh.kids && (first != null ==> first in sh.kids) && Good(Grown(sh, x))
    requires Accounted(base, sh, first) && x.value.Text?
    ensures Accounted(base, Grown(sh, x), first)
  {
    GrownRoot(sh, x);
    forall n | n in Grown(sh, x).kids && n !in base.kids
      ensures Stray(Grown(sh, x), n) || (first != null && n in Pre(Grown(sh, x), first))
    {
      if n in sh.kids && Stray(sh, n) {
        StrayAlone(sh, x, n);
      } else if n in sh.kids {
        GrownGrows(sh, x);
        UnderStays(sh, Grown(sh, x), first, n);
      }
    }
  }

  lemma GrownGrows(sh: Shape, x: Node)
    requires Good(sh) && x !in sh.kids
    ensures Grows(sh, Grown(sh, x))
  {
  }

  lemma AccountedRoot(base: Shape, sh: Shape, x: Node)
    requires Good(sh) && x !in sh.kids && Good(Grown(sh, x)) && Accounted(base, sh, null)
    ensures Accounted(base, Grown(sh, x), x)
  {
    GrownRoot(sh, x);
    forall n | n in sh.kids && n !in base.kids ensures Stray(Grown(sh, x), n) {
      StrayAlone(sh, x, n);
    }
  }

  /** Once the tree of first is gone, only stray words are new. */
  lemma AccountedPruned(base: Shape, sh: Shape, first: Node)
    requires Good(sh) && first in sh.kids && !HasParent(sh, first) && Accounted(base, sh, first)
    ensures OnlyWords(base, Pruned(sh, first))
  {
    forall n | n in Pruned(sh, first).kids && n !in base.kids ensures Stray(Pruned(sh, first), n) {
      assert Stray(sh, n);
      if HasParent(Pruned(sh, first), n) {
        var q, i :| q in Pruned(sh, first).kids && IsKid(Pruned(sh, first), q, i, n);
        assert IsKid(sh, q, i, n);
        assert false;
      }
    }
  }

  /** All that is new is words that nothing refers to. */
  ghost predicate OnlyWords(base: Shape, sh: Shape) {
    forall n | n in sh.kids && n !in base.kids :: Stray(sh, n)
  }

  // ---------------------------------------------------------------- the loader's state

  /**
  The nodes are those of the open elements; first is the root, open or finished. Everything
  that was there before is as it was, and all that is new is under the root but for stray words.
  */
  ghost predicate Built(base: Shape, sh: Shape, stack: seq<Open>, root: Option<Tree>, nodes: seq<Node>, first: Node?) {
    && Spine(sh, nodes, stack) && Extends(base, sh)
    && (forall n | n in nodes :: n !in base.kids)
    && (nodes != [] ==> root.None? && first == nodes[0])
    && (first == null <==> nodes == [] && root.None?)
    && (first != null ==> first in sh.kids && first !in base.kids && !HasParent(sh, first))
    && (root.Some? ==> TreeOf(sh, first) == root.value)
    && Accounted(base, sh, first)
  }

  lemma BuiltLeaf(base: Shape, sh: Shape, sh': Shape, stack: seq<Open>, nodes: seq<Node>, first: Node?, x: Node)
    requires Built(base, sh, stack, None, nodes, first) && nodes != [] && NewKid(sh, sh', nodes[|nodes| - 1], x)
    ensures Built(base, sh', MoreKids(stack, LeafTree(x.value)), None, nodes, first)
  {
    var p := nodes[|nodes| - 1];
    assert p in nodes;
    AddedSpine(sh, sh', nodes, stack, x);
    ExtendsKid(base, sh, sh', p, x);
    RootStays(sh, sh', p, x, first);
    AccountedKid(base, sh, sh', nodes, stack, x);
  }

  lemma BuiltOpen(base: Shape, sh: Shape, sh': Shape, stack: seq<Open>, nodes: seq<Node>, first: Node?, x: Node,
      o: Open)
    requires Built(base, sh, stack, None, nodes, first) && nodes != [] && NewKid(sh, sh', nodes[|nodes| - 1], x)
    requires x.value == Element(o.name, o.attrs) && o.kids == []
    ensures Built(base, sh', stack + [o], None, nodes + [x], first)
  {
    var p := nodes[|nodes| - 1];
    assert p in nodes;
    OpenedSpine(sh, sh', nodes, stack, x, o);
    ExtendsKid(base, sh, sh', p, x);
    RootStays(sh, sh', p, x, first);
    AccountedKid(base, sh, sh', nodes, stack, x);
  }

  /** A word outside the root: a node that nothing refers to. */
  lemma BuiltLost(base: Shape, sh: Shape, root: Option<Tree>, first: Node?, x: Node)
    requires Built(base, sh, [], root, [], first) && x !in sh.kids && x.value.Text?
    ensures Built(base, Grown(sh, x), [], root, [], first)
  {
    GrownRoot(sh, x);
    AccountedStray(base, sh, first, x);
    ExtendsRoot(base, sh, x);
    if first != null {
      GrownRootStays(sh, x, first);
      forall m | m in Pre(sh, first)
        ensures m in sh.kids && m in Grown(sh, x).kids && Grown(sh, x).kids[m] == sh.kids[m] {
        UnderRank(sh, first, m);
      }
      SameTree(sh, Grown(sh, x), first);
    }
  }

  lemma GrownRootStays(sh: Shape, x: Node, n: Node)
    requires Good(sh) && x !in sh.kids && n in sh.kids && !HasParent(sh, n)
    ensures !HasParent(Grown(sh, x), n)
  {
    if HasParent(Grown(sh, x), n) {
      var q, i :| q in Grown(sh, x).kids && IsKid(Grown(sh, x), q, i, n);
      assert IsKid(sh, q, i, n);
      assert false;
    }
  }

  /** The first element, finished at once or open. */
  lemma BuiltRoot(base: Shape, sh: Shape, x: Node, o: Open, open: bool)
    requires Built(base, sh, [], None, [], null) && x !in sh.kids
    requires x.value == Element(o.name, o.attrs) && o.kids == []
    ensures if open then Built(base, Grown(sh, x), [o], None, [x], x)
      else Built(base, Grown(sh, x), [], Some(LeafTree(x.value)), [], x)
  {
    GrownRoot(sh, x);
    ExtendsRoot(base, sh, x);
    RootSpine(sh, x, o);
    AccountedRoot(base, sh, x);
    LeafIs(Grown(sh, x), x);
  }

  lemma BuiltClose(base: Shape, sh: Shape, stack: seq<Open>, nodes: seq<Node>, first: Node?)
    requires Built(base, sh, stack, None, nodes, first) && nodes != []
    ensures var last := |nodes| - 1; var top := stack[last]; var t := Elem(top.name, top.attrs, top.kids);
      if last == 0 then Built(base, sh, [], Some(t), [], first)
      else Built(base, sh, MoreKids(stack[..last], t), None, nodes[..last], first)
  {
    ClosedSpine(sh, nodes, stack);
  }

  // ---------------------------------------------------------------- the loader's operations

  /** What creating x, under parent if there is one, makes of the shape. */
  ghost predicate Made(sh: Shape, sh': Shape, parent: Node?, x: Node) {
    && Good(sh) && x !in sh.kids && Good(Grown(sh, x)) && Good(sh')
    && if parent == null then sh' == Grown(sh, x)
       else parent in sh.kids && sh' == Attach(Grown(sh, x), parent, |sh.kids[parent]|, x)
  }

  datatype Work = Work(base: Shape, sh: Shape, st: State, nodes: seq<Node>, first: Node?)

  /** A document being built: its shape, the loader's state it stands for, and the nodes that are open. */
  type Building = w: Work | Built(w.base, w.sh, w.st.stack, w.st.root, w.nodes, w.first)
    ghost witness Work(Shape(map[], map[]), Shape(map[], map[]), START, [], null)

  ghost function Begun(sh: Shape): (w: Building)
    requires Good(sh)
    ensures w == Work(sh, sh, START, [], null)
  {
    Work(sh, sh, START, [], null)
  }

  /** Something has been gathered, or used up. */
  ghost function Noted(w: Building, text: seq<Byte>, space: bool): (w': Building)
    ensures w' == w.(st := w.st.(text := text, space := space))
  {
    w.(st := w.st.(text := text, space := space))
  }

  /** A word. */
  ghost function WithLeaf(w: Building, sh': Shape, x: Node): (w': Building)
    requires Made(w.sh, sh', Last(w.nodes), x) && x.value.Text?
    ensures w' == w.(sh := sh', st := AddNode(w.st, LeafTree(x.value)))
  {
    LeafAdded(w, sh', x);
    w.(sh := sh', st := AddNode(w.st, LeafTree(x.value)))
  }

  lemma LeafAdded(w: Building, sh': Shape, x: Node)
    requires Made(w.sh, sh', Last(w.nodes), x) && x.value.Text?
    ensures var st' := AddNode(w.st, LeafTree(x.value)); Built(w.base, sh', st'.stack, st'.root, w.nodes, w.first)
  {
    if w.nodes == [] {
      BuiltLost(w.base, w.sh, w.st.root, w.first, x);
    } else {
      AttachedIsNewKid(w.sh, w.nodes[|w.nodes| - 1], x);
      BuiltLeaf(w.base, w.sh, sh', w.st.stack, w.nodes, w.first, x);
    }
  }

  ghost function FirstOr(w: Building, x: Node): Node {
    if w.first == null then x else w.first
  }

  /** An element that is empty. */
  ghost function WithElement(w: Building, sh': Shape, x: Node, o: Open): (w': Building)
    requires Made(w.sh, sh', Last(w.nodes), x) && (w.nodes == [] ==> w.first == null)
    requires x.value == Element(o.name, o.attrs) && o.kids == []
    ensures w' == w.(sh := sh', st := AddElement(w.st, Elem(o.name, o.attrs, [])), first := FirstOr(w, x))
  {
    ElementAdded(w, sh', x, o);
    w.(sh := sh', st := AddElement(w.st, Elem(o.name, o.attrs, [])), first := FirstOr(w, x))
  }

  lemma ElementAdded(w: Building, sh': Shape, x: Node, o: Open)
    requires Made(w.sh, sh', Last(w.nodes), x) && (w.nodes == [] ==> w.first == null)
    requires x.value == Element(o.name, o.attrs) && o.kids == []
    ensures var st' := AddElement(w.st, Elem(o.name, o.attrs, []));
      Built(w.base, sh', st'.stack, st'.root, w.nodes, FirstOr(w, x))
  {
    if w.nodes == [] {
      BuiltRoot(w.base, w.sh, x, o, false);
    } else {
      AttachedIsNewKid(w.sh, w.nodes[|w.nodes| - 1], x);
      BuiltLeaf(w.base, w.sh, sh', w.st.stack, w.nodes, w.first, x);
    }
  }

  /** An element that is the parent from now on. */
  ghost function WithOpen(w: Building, sh': Shape, x: Node, o: Open): (w': Building)
    requires Made(w.sh, sh', Last(w.nodes), x) && (w.nodes == [] ==> w.first == null)
    requires x.value == Element(o.name, o.attrs) && o.kids == []
    ensures w' == Work(w.base, sh', w.st.(stack := w.st.stack + [o], typed := true), w.nodes + [x], FirstOr(w, x))
  {
    ElementOpened(w, sh', x, o);
    Work(w.base, sh', w.st.(stack := w.st.stack + [o], typed := true), w.nodes + [x], FirstOr(w, x))
  }

  lemma ElementOpened(w: Building, sh': Shape, x: Node, o: Open)
    requires Made(w.sh, sh', Last(w.nodes), x) && (w.nodes == [] ==> w.first == null)
    requires x.value == Element(o.name, o.attrs) && o.kids == []
    ensures Built(w.base, sh', w.st.stack + [o], w.st.root, w.nodes + [x], FirstOr(w, x))
  {
    hide Attach, Grown, Extends, Accounted, TreeOf, HasParent;
    if w.nodes == [] {
      BuiltRoot(w.base, w.sh, x, o, true);
      assert [] + [x] == [x] && w.st.stack + [o] == [o];
    } else {
      AttachedIsNewKid(w.sh, w.nodes[|w.nodes| - 1], x);
      BuiltOpen(w.base, w.sh, sh', w.st.stack, w.nodes, w.first, x, o);
    }
  }

  /** The state once the parent is closed. */
  function Closed(st: State): State
    requires st.stack != []
  {
    var top := st.stack[|st.stack| - 1];
    AddElement(st.(stack := st.stack[..|st.stack| - 1]), Elem(top.name, top.attrs, top.kids))
  }

  ghost function WithClosed(w: Building): (w': Building)
    requires w.nodes != []
    ensures w.st.stack != [] && w' == w.(st := Closed(w.st), nodes := w.nodes[..|w.nodes| - 1])
  {
    BuiltClose(w.base, w.sh, w.st.stack, w.nodes, w.first);
    w.(st := Closed(w.st), nodes := w.nodes[..|w.nodes| - 1])
  }

  /** What the loader sees of its state: how many elements are open, and what they are. */
  lemma Seen(w: Building)
    ensures |w.nodes| == |w.st.stack| && NoDup(w.nodes) && (w.first == null <==> w.nodes == [] && w.st.root.None?)
    ensures w.nodes != [] ==> w.st.root.None? && w.first == w.nodes[0]
    ensures forall j | 0 <= j < |w.nodes| :: w.nodes[j].value == Element(w.st.stack[j].name, w.st.stack[j].attrs)
  {
    forall j | 0 <= j < |w.nodes| ensures w.nodes[j].value == Element(w.st.stack[j].name, w.st.stack[j].attrs) {
      assert OpenHere(w.sh, w.nodes[j], w.st.stack[j], At(w.nodes, j + 1));
    }
  }

  lemma ParentKnown(w: Building)
    ensures Last(w.nodes) != null ==> Last(w.nodes) in w.sh.kids
  {
    if w.nodes != [] {
      assert OpenHere(w.sh, w.nodes[|w.nodes| - 1], w.st.stack[|w.nodes| - 1], null);
    }
  }

  /** The parent pointer of an open element. */
  lemma OpenLinks(w: Building, ls: map<Node, Links>, j: nat)
    requires Linked(w.sh, ls) && j < |w.nodes|
    ensures w.nodes[j] in ls && ls[w.nodes[j]].parent == if j == 0 then null else w.nodes[j - 1]
  {
    assert OpenHere(w.sh, w.nodes[j], w.st.stack[j], At(w.nodes, j + 1));
    ParentPointer(w.sh, ls, w.nodes[j]);
    if j > 0 {
      assert OpenHere(w.sh, w.nodes[j - 1], w.st.stack[j - 1], At(w.nodes, j));
      KidPointers(w.sh, ls, w.nodes[j - 1], |w.st.stack[j - 1].kids|, w.nodes[j]);
    }
  }

  /** Deleting the first node leaves what was there before. */
  lemma WithoutFirst(w: Building)
    ensures Extends(w.base, w.sh) && (w.first == null ==> OnlyWords(w.base, w.sh))
    ensures w.first != null ==>
      && w.first in w.sh.kids && Good(w.sh) && Orphaned(w.sh, w.first) == w.sh
      && Extends(w.base, Pruned(w.sh, w.first)) && w.first !in Pruned(w.sh, w.first).kids
      && OnlyWords(w.base, Pruned(w.sh, w.first))
  {
    if w.first != null {
      AccountedPruned(w.base, w.sh, w.first);
      ExtendsPruned(w.base, w.sh, w.first);
    }
  }

  /** What a finished tree is, at the end of the input. */
  lemma Concluded(w: Building)
    ensures Extends(w.base, w.sh)
    ensures match Finish(w.st)
      case Loaded(t) =>
        && |w.nodes| <= 1 && w.first != null && w.first in w.sh.kids && w.first !in w.base.kids
        && Good(w.sh) && !HasParent(w.sh, w.first) && TreeOf(w.sh, w.first) == t && Accounted(w.base, w.sh, w.first)
      case Failed => |w.nodes| > 1 || w.first == null
      case OtherMarkup => false
  {
    if |w.nodes| == 1 {
      ClosedSpine(w.sh, w.nodes, w.st.stack);
    }
  }
}
