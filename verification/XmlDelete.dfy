/**
Deleting a subtree without a stack. The walk clears a node's child pointer on its way down,
so that it finds the node childless when it comes back, and frees it then.
*/
module XmlDelete {
  import opened Common
  import opened XmlShape
  import opened XmlPath
  import opened XmlTree

  // ---------------------------------------------------------------- what is left of the document

  /** The shape without the subtree of top. */
  ghost function Pruned(sh: Shape, top: Node): Shape
    requires Good(sh) && top in sh.kids
  {
    Shape(map n | n in sh.kids && n !in Pre(sh, top) :: sh.kids[n],
          map n | n in sh.rank && n !in Pre(sh, top) :: sh.rank[n])
  }

  ghost function Restricted(ls: map<Node, Links>, ns: set<Node>): map<Node, Links> {
    map n | n in ls && n in ns :: ls[n]
  }

  lemma PrunedKid(sh: Shape, top: Node, p: Node, i: int, x: Node)
    requires Good(sh) && top in sh.kids && !HasParent(sh, top)
    requires IsKid(sh, p, i, x)
    ensures p in Pre(sh, top) <==> x in Pre(sh, top)
  {
    if p in Pre(sh, top) {
      KidsUnder(sh, top, p, i, x);
    } else if x in Pre(sh, top) {
      assert x != top;
      ParentIsUnder(sh, top, p, i, x);
    }
  }

  lemma PrunedGood(sh: Shape, top: Node)
    requires Good(sh) && top in sh.kids && !HasParent(sh, top)
    ensures Good(Pruned(sh, top))
  {
    var sh' := Pruned(sh, top);
    forall p, i, x | p in sh.kids && IsKid(sh', p, i, x) ensures x in sh'.kids && IsKid(sh, p, i, x) {
      assert IsKid(sh, p, i, x);
      PrunedKid(sh, top, p, i, x);
    }
  }

  lemma PrunedLinked(sh: Shape, ls: map<Node, Links>, top: Node)
    requires Linked(sh, ls) && top in sh.kids && !HasParent(sh, top)
    ensures var sh' := Pruned(sh, top); Linked(sh', Restricted(ls, sh'.kids.Keys))
  {
    var sh' := Pruned(sh, top);
    var ls' := Restricted(ls, sh'.kids.Keys);
    PrunedGood(sh, top);
    forall p, i, x | p in sh.kids && IsKid(sh', p, i, x) ensures SiblingLinksOf(sh', p, i, x, ls'[x]) {
      assert IsKid(sh, p, i, x);
    }
    forall n | n in sh'.kids && !HasParent(sh', n) ensures !HasParent(sh, n) {
      if HasParent(sh, n) {
        var p, i :| p in sh.kids && IsKid(sh, p, i, n);
        PrunedKid(sh, top, p, i, n);
        assert IsKid(sh', p, i, n);
      }
    }
  }

  // ---------------------------------------------------------------- the walk

  /**
  The walk has freed done and stands at c: with all of c's subtree to free, or (back) with
  everything under c freed already. Nodes it went into have a cleared child pointer.
  */
  datatype Walk = Walk(top: Node, path: seq<Frame>, c: Node, back: bool, done: seq<Node>, cleared: set<Node>)

  ghost predicate OrderOK(sh: Shape, w: Walk) {
    && Good(sh) && w.top in sh.kids && IsPath(sh, w.top, w.path, w.c) && w.path != []
    && w.done + Here(sh, w) + RestPost(sh, w.path) == Post(sh, w.top)
  }

  ghost predicate OnPath(path: seq<Frame>, n: Node) {
    exists k :: 0 < k < |path| && path[k].node == n
  }

  ghost predicate ClearedOK(w: Walk) {
    && (w.back <==> w.c in w.cleared)
    && (forall k | 0 < k < |w.path| :: w.path[k].node in w.cleared)
    && (forall n | n in w.cleared :: n in w.done || (w.back && n == w.c) || OnPath(w.path, n))
  }

  ghost predicate WalkOK(sh: Shape, w: Walk) {
    OrderOK(sh, w) && ClearedOK(w)
  }

  /** What is to be freed at the current node. */
  ghost function Here(sh: Shape, w: Walk): seq<Node>
    requires Good(sh) && w.c in sh.kids
  {
    if w.back then [w.c] else Post(sh, w.c)
  }

  ghost function LastFrame(w: Walk): Frame
    requires w.path != []
  {
    w.path[|w.path| - 1]
  }

  /** The heap agrees with the walk: only the freed nodes are dead, only the entered ones are cleared. */
  ghost predicate HeapOK(sh: Shape, done: seq<Node>, cleared: set<Node>)
    reads sh.kids.Keys`live, sh.kids.Keys`child
  {
    && (forall n | n in sh.kids :: n.live <==> n !in done)
    && (forall n | n in sh.kids :: n.child == if n in cleared then null else First(sh.kids[n]))
  }

  lemma TailNoDup(a: seq<Node>, b: seq<Node>)
    requires NoDup(a + b)
    ensures forall x | x in b :: x !in a && x in a + b
    ensures b != [] ==> b[0] !in b[1..]
  {
    forall i | 0 <= i < |b| ensures (a + b)[|a| + i] == b[i] && b[i] !in a {
      assert forall j | 0 <= j < |a| :: (a + b)[j] == a[j];
    }
  }

  /** Everything not freed yet is listed after done, once. */
  lemma Pending(sh: Shape, w: Walk, xs: seq<Node>)
    requires OrderOK(sh, w) && w.done + xs == Post(sh, w.top)
    ensures forall x | x in xs :: x !in w.done && x in sh.kids && x in Pre(sh, w.top)
    ensures xs != [] ==> xs[0] !in xs[1..]
  {
    PostNoDup(sh, w.top);
    TailNoDup(w.done, xs);
    forall x | x in xs ensures x in sh.kids {
      UnderRank(sh, w.top, x);
    }
  }

  lemma FreshPending(sh: Shape, w: Walk)
    requires OrderOK(sh, w)
    ensures w.c !in w.done && w.c in Pre(sh, w.top)
  {
    var xs := Here(sh, w) + RestPost(sh, w.path);
    assert w.done + xs == w.done + Here(sh, w) + RestPost(sh, w.path);
    Pending(sh, w, xs);
    assert w.c in xs;
  }

  lemma HereIsLeaf(sh: Shape, w: Walk)
    requires Good(sh) && w.c in sh.kids && (w.back || sh.kids[w.c] == [])
    ensures Here(sh, w) == [w.c]
  {
    assert sh.kids[w.c] == [] ==> PostFrom(sh, w.c, 0) == [];
  }

  lemma CurrentLinks(sh: Shape, ls: map<Node, Links>, w: Walk)
    requires Linked(sh, ls) && IsPath(sh, w.top, w.path, w.c) && w.path != []
    ensures w.c in ls && ls[w.c].parent == LastFrame(w).node
    ensures ls[w.c].next == At(sh.kids[LastFrame(w).node], LastFrame(w).at + 1)
  {
    hide ChildLinks, SiblingLinks, RootLinks, Good, RestPost;
    var f := LastFrame(w);
    KidPointers(sh, ls, f.node, f.at, w.c);
  }

  // ---------------------------------------------------------------- its steps

  ghost function GoDown(sh: Shape, w: Walk): Walk
    requires w.c in sh.kids && sh.kids[w.c] != []
  {
    w.(path := Down(w.path, w.c), c := sh.kids[w.c][0], cleared := w.cleared + {w.c})
  }

  lemma GoDownOrder(sh: Shape, w: Walk)
    requires OrderOK(sh, w) && !w.back && sh.kids[w.c] != []
    ensures OrderOK(sh, GoDown(sh, w)) && sh.rank[sh.kids[w.c][0]] < sh.rank[w.c]
  {
    var k := sh.kids[w.c][0];
    var w' := GoDown(sh, w);
    assert IsKid(sh, w.c, 0, k);
    PathDown(sh, w.top, w.path, w.c);
    assert w.done + (Post(sh, w.c) + RestPost(sh, w.path)) == w.done + Post(sh, w.c) + RestPost(sh, w.path);
    assert w'.done + Here(sh, w') + RestPost(sh, w'.path) == w.done + (Post(sh, k) + RestPost(sh, w'.path));
  }

  lemma GoDownOK(sh: Shape, w: Walk)
    requires WalkOK(sh, w) && !w.back && sh.kids[w.c] != []
    ensures WalkOK(sh, GoDown(sh, w)) && sh.rank[sh.kids[w.c][0]] < sh.rank[w.c]
  {
    var w' := GoDown(sh, w);
    GoDownOrder(sh, w);
    FreshPending(sh, w');
    PathRanks(sh, w.top, w'.path, w'.c);
    assert forall j | 0 <= j < |w.path| :: w'.path[j] == w.path[j];
    assert w'.path[|w.path|].node == w.c;
  }

  /** Freeing a node that has a younger brother: that one is next. */
  ghost function GoAcross(sh: Shape, w: Walk): Walk
    requires w.path != [] && Frames(sh, w.path) && LastFrame(w).at + 1 < |sh.kids[LastFrame(w).node]|
  {
    w.(path := Across(w.path), c := sh.kids[LastFrame(w).node][LastFrame(w).at + 1], back := false,
      done := w.done + [w.c])
  }

  lemma GoAcrossOrder(sh: Shape, w: Walk)
    requires OrderOK(sh, w) && (w.back || sh.kids[w.c] == [])
    requires LastFrame(w).at + 1 < |sh.kids[LastFrame(w).node]|
    ensures OrderOK(sh, GoAcross(sh, w))
  {
    var w' := GoAcross(sh, w);
    PathAcross(sh, w.top, w.path, w.c);
    HereIsLeaf(sh, w);
    assert w'.done + Here(sh, w') + RestPost(sh, w'.path) == w'.done + (Post(sh, w'.c) + RestPost(sh, w'.path));
  }

  lemma GoAcrossOK(sh: Shape, w: Walk)
    requires WalkOK(sh, w) && (w.back || sh.kids[w.c] == [])
    requires LastFrame(w).at + 1 < |sh.kids[LastFrame(w).node]|
    ensures WalkOK(sh, GoAcross(sh, w))
  {
    var w' := GoAcross(sh, w);
    GoAcrossOrder(sh, w);
    FreshPending(sh, w');
    PathRanks(sh, w.top, w'.path, w'.c);
    assert forall j | 0 <= j < |w.path| :: w'.path[j].node == w.path[j].node;
  }

  /** Freeing the youngest child: the parent is next, and has nothing left under it. */
  ghost function GoUp(w: Walk): Walk
    requires w.path != []
  {
    w.(path := w.path[..|w.path| - 1], c := LastFrame(w).node, back := true, done := w.done + [w.c])
  }

  lemma GoUpOrder(sh: Shape, w: Walk)
    requires OrderOK(sh, w) && (w.back || sh.kids[w.c] == []) && |w.path| > 1
    requires LastFrame(w).at + 1 == |sh.kids[LastFrame(w).node]|
    ensures OrderOK(sh, GoUp(w))
  {
    var w' := GoUp(w);
    PathUp(sh, w.top, w.path, w.c);
    HereIsLeaf(sh, w);
    assert w'.done + Here(sh, w') + RestPost(sh, w'.path) == w.done + [w.c] + RestPost(sh, w.path);
  }

  lemma GoUpOK(sh: Shape, w: Walk)
    requires WalkOK(sh, w) && (w.back || sh.kids[w.c] == []) && |w.path| > 1
    requires LastFrame(w).at + 1 == |sh.kids[LastFrame(w).node]|
    ensures WalkOK(sh, GoUp(w))
  {
    var w' := GoUp(w);
    GoUpOrder(sh, w);
    assert forall j | 0 <= j < |w'.path| :: w'.path[j] == w.path[j];
    forall n | n in w'.cleared ensures n in w'.done || n == w'.c || OnPath(w'.path, n) {
      if n !in w'.done {
        assert OnPath(w.path, n);
        var k :| 0 < k < |w.path| && w.path[k].node == n;
        assert k < |w'.path| ==> w'.path[k].node == n;
      }
    }
  }

  /** Freeing the youngest child of top itself: only top is left. */
  lemma GoHome(sh: Shape, w: Walk)
    requires OrderOK(sh, w) && (w.back || sh.kids[w.c] == [])
    requires LastFrame(w).at + 1 == |sh.kids[LastFrame(w).node]|
    ensures LastFrame(w).node == w.top <==> |w.path| == 1
    ensures |w.path| == 1 ==> w.done + [w.c] + [w.top] == Post(sh, w.top)
  {
    PathUp(sh, w.top, w.path, w.c);
    PathRanks(sh, w.top, w.path, w.c);
    HereIsLeaf(sh, w);
    if |w.path| == 1 {
      assert w.path[..0] == [];
      assert RestPost(sh, w.path) == [w.top];
    }
  }

  // ---------------------------------------------------------------- the loop

  ghost predicate SideLinks(ns: set<Node>, ls: map<Node, Links>)
    reads ns`next, ns`parent
  {
    forall n | n in ns && n in ls :: n.next == ls[n].next && n.parent == ls[n].parent
  }

  ghost function Start(sh: Shape, top: Node): Walk
    requires top in sh.kids && sh.kids[top] != []
  {
    Walk(top, Down([], top), sh.kids[top][0], false, [], {})
  }

  lemma StartOK(sh: Shape, top: Node)
    requires Good(sh) && top in sh.kids && sh.kids[top] != []
    ensures WalkOK(sh, Start(sh, top))
  {
    PathDown(sh, top, [], top);
    var w := Start(sh, top);
    assert w.done + Here(sh, w) + RestPost(sh, w.path) == Post(sh, w.c) + RestPost(sh, w.path);
    assert Post(sh, top) + RestPost(sh, []) == Post(sh, top);
  }

  method EnterChild(current: Node, ghost sh: Shape, ghost w: Walk)
    requires HeapOK(sh, w.done, w.cleared) && current == w.c && current in sh.kids && current.live
    modifies current`child
    ensures HeapOK(sh, w.done, w.cleared + {w.c})
  {
    current.ClearChild();
  }

  method FreeCurrent(current: Node, ghost sh: Shape, ghost w: Walk)
    requires HeapOK(sh, w.done, w.cleared) && current == w.c && current in sh.kids && current.live
    modifies current`live
    ensures HeapOK(sh, w.done + [w.c], w.cleared)
  {
    current.Free();
  }

  /** One freeing step, with its choice of the next node, as the code makes it. */
  ghost function Freed(sh: Shape, w: Walk): Walk
    requires w.path != [] && Frames(sh, w.path)
  {
    if LastFrame(w).at + 1 < |sh.kids[LastFrame(w).node]| then GoAcross(sh, w)
    else if |w.path| > 1 then GoUp(w)
    else w.(done := w.done + [w.c])
  }

  lemma FreedOK(sh: Shape, w: Walk)
    requires WalkOK(sh, w) && (w.back || sh.kids[w.c] == [])
    ensures var w' := Freed(sh, w);
      && w'.done == w.done + [w.c] && w'.cleared == w.cleared && w'.top == w.top
      && if LastFrame(w).at + 1 < |sh.kids[LastFrame(w).node]| || |w.path| > 1 then WalkOK(sh, w') else Finished(sh, w')
    ensures LastFrame(w).at + 1 == |sh.kids[LastFrame(w).node]| ==> (LastFrame(w).node == w.top <==> |w.path| == 1)
  {
    if LastFrame(w).at + 1 < |sh.kids[LastFrame(w).node]| {
      GoAcrossOK(sh, w);
    } else {
      GoHome(sh, w);
      if |w.path| > 1 {
        GoUpOK(sh, w);
      } else {
        PostNoDup(sh, w.top);
        var all := Post(sh, w.top);
        assert forall k | 0 <= k < |all| - 1 :: (w.done + [w.c])[k] == all[k];
      }
    }
  }

  /** Only top is left to free. */
  ghost predicate Finished(sh: Shape, w: Walk) {
    && Good(sh) && w.top in sh.kids && w.done + [w.top] == Post(sh, w.top) && w.top !in w.done
    && forall n | n in w.cleared :: n in w.done
  }

  /** The walk stands at current (or has ended), and the heap is as it has left it. */
  ghost predicate Standing(sh: Shape, ls: map<Node, Links>, w: Walk, current: Node?)
    reads sh.kids.Keys`live, sh.kids.Keys`child, sh.kids.Keys`next, sh.kids.Keys`parent
  {
    && HeapOK(sh, w.done, w.cleared) && SideLinks(sh.kids.Keys, ls)
    && if current != null then current == w.c && WalkOK(sh, w) else Finished(sh, w)
  }

  lemma Measure(sh: Shape, w: Walk)
    requires WalkOK(sh, w)
    ensures |w.done| < |Post(sh, w.top)|
  {
    assert |w.done + Here(sh, w) + RestPost(sh, w.path)| == |Post(sh, w.top)|;
  }

  method GoIn(current: Node, ghost sh: Shape, ghost ls: map<Node, Links>, ghost w: Walk) returns (next: Node?)
    requires HeapOK(sh, w.done, w.cleared) && SideLinks(sh.kids.Keys, ls)
    requires current == w.c && current in sh.kids && current !in w.done && current.child != null
    modifies current`child
    ensures HeapOK(sh, w.done, w.cleared + {w.c}) && SideLinks(sh.kids.Keys, ls)
    ensures next == old(current.child)
  {
    next := current.ReadChild();
    EnterChild(current, sh, w);
  }

  /** Frees the current node and picks the next: its younger brother, or else its parent unless that is top. */
  method FreeAndGoOn(node: Node, current: Node, ghost sh: Shape, ghost ls: map<Node, Links>, ghost w: Walk)
    returns (next: Node?)
    requires HeapOK(sh, w.done, w.cleared) && SideLinks(sh.kids.Keys, ls)
    requires current == w.c && current in sh.kids && current !in w.done && current.child == null
    requires current in ls
    modifies current`live
    ensures HeapOK(sh, w.done + [w.c], w.cleared) && SideLinks(sh.kids.Keys, ls)
    ensures next == if ls[w.c].next != null then ls[w.c].next else if ls[w.c].parent == node then null
      else ls[w.c].parent
  {
    next := current.ReadNext();
    if next == null {
      next := current.ReadParent();
      if next == node {
        next := null;
      }
    }
    FreeCurrent(current, sh, w);
  }

  /** The links the loop follows at w, and where they lead. */
  lemma NextNode(sh: Shape, ls: map<Node, Links>, w: Walk)
    requires Linked(sh, ls) && WalkOK(sh, w)
    ensures w.c in sh.kids && w.c in ls && w.c !in w.done
    ensures sh.kids[w.c] != [] && !w.back ==> WalkOK(sh, GoDown(sh, w)) && sh.rank[GoDown(sh, w).c] < sh.rank[w.c]
    ensures w.c in w.cleared || sh.kids[w.c] == [] ==>
      var next := if ls[w.c].next != null then ls[w.c].next else if ls[w.c].parent == w.top then null
        else ls[w.c].parent;
      var w' := Freed(sh, w);
      && w'.done == w.done + [w.c] && w'.cleared == w.cleared && w'.top == w.top
      && if next != null then next == w'.c && WalkOK(sh, w') else Finished(sh, w')
    ensures w.c in w.cleared <==> w.back
    ensures |w.done| < |Post(sh, w.top)|
  {
    hide ChildLinks, SiblingLinks, RootLinks, Good;
    FreshPending(sh, w);
    CurrentLinks(sh, ls, w);
    Measure(sh, w);
    if sh.kids[w.c] != [] && !w.back {
      GoDownOK(sh, w);
    } else {
      FreedOK(sh, w);
    }
  }

  /** One turn of the loop: goes down, or frees the current node and goes on. */
  method Turn(node: Node, current: Node, ghost sh: Shape, ghost ls: map<Node, Links>, ghost w: Walk)
    returns (next: Node?, ghost w': Walk)
    requires Linked(sh, ls) && Standing(sh, ls, w, current) && w.top == node
    modifies sh.kids.Keys`child, sh.kids.Keys`live
    ensures Standing(sh, ls, w', next) && w'.top == node
    ensures |w.done| < |Post(sh, node)|
    ensures |w'.done| > |w.done|
      || (w'.done == w.done && w'.c in sh.rank && w.c in sh.rank && sh.rank[w'.c] < sh.rank[w.c])
  {
    NextNode(sh, ls, w);
    if current.ReadChild() != null {
      next := GoIn(current, sh, ls, w);
      w' := GoDown(sh, w);
    } else {
      next := FreeAndGoOn(node, current, sh, ls, w);
      w' := Freed(sh, w);
    }
  }

  /** Where the walk begins: at the first child, or finished when there is none. */
  lemma Begin(sh: Shape, ls: map<Node, Links>, node: Node) returns (w: Walk)
    requires Linked(sh, ls) && Matches(sh.kids.Keys, ls) && node in sh.kids && HeapOK(sh, [], {})
    ensures w.top == node && Standing(sh, ls, w, node.child)
  {
    assert node.child == First(sh.kids[node]);
    forall n | n in sh.kids ensures n.next == ls[n].next && n.parent == ls[n].parent {
      assert LinksOf(n) == ls[n];
    }
    if sh.kids[node] != [] {
      StartOK(sh, node);
      w := Start(sh, node);
    } else {
      w := Walk(node, [], node, false, [], {});
      assert PostFrom(sh, node, 0) == [];
    }
  }

  method FreeUnder(node: Node, first: Node?, ghost sh: Shape, ghost ls: map<Node, Links>, ghost start: Walk)
    returns (ghost w: Walk)
    requires Linked(sh, ls) && Standing(sh, ls, start, first) && start.top == node
    modifies sh.kids.Keys`child, sh.kids.Keys`live
    ensures Standing(sh, ls, w, null) && w.top == node
  {
    var current := first;
    w := start;
    while current != null
      invariant Standing(sh, ls, w, current) && w.top == node
      decreases |Post(sh, node)| - |w.done|, if w.c in sh.rank then sh.rank[w.c] else 0
    {
      current, w := Turn(node, current, sh, ls, w);
    }
  }

  /** Frees the tree under a node that has no parent, and the node, without a stack. */
  method FreeTree(node: Node, ghost sh: Shape, ghost ls: map<Node, Links>) returns (ghost done: seq<Node>)
    requires Linked(sh, ls) && Matches(sh.kids.Keys, ls) && node in sh.kids
    requires HeapOK(sh, [], {})
    modifies sh.kids.Keys`child, sh.kids.Keys`live
    ensures done == Post(sh, node)
    ensures forall n | n in sh.kids :: n.live <==> n !in done
    ensures forall n | n in sh.kids && n !in done :: n.child == First(sh.kids[n])
  {
    hide ChildLinks, SiblingLinks, RootLinks, Good;
    ghost var w := Begin(sh, ls, node);
    w := FreeUnder(node, node.ReadChild(), sh, ls, w);
    node.Free();
    done := w.done + [node];
  }

  // ---------------------------------------------------------------- deleting from a document

  /** Once the walk is over, what is left agrees with the shape without the subtree. */
  lemma Leftover(sh: Shape, top: Node, done: seq<Node>)
    requires Good(sh) && top in sh.kids && done == Post(sh, top)
    ensures forall n | n in sh.kids :: n in Pruned(sh, top).kids <==> n !in done
    ensures NoDup(done)
  {
    PostNoDup(sh, top);
  }

  lemma BeforeFree(doc: Document)
    requires doc.Valid()
    ensures HeapOK(doc.shape, [], {})
  {
    forall n | n in doc.shape.kids ensures n.child == First(doc.shape.kids[n]) {
      assert LinksOf(n) == doc.links[n];
    }
  }

  lemma AfterFree(sh: Shape, ls: map<Node, Links>, top: Node, done: seq<Node>)
    requires Good(sh) && ls.Keys == sh.kids.Keys && ChildLinks(sh, ls) && top in sh.kids && done == Post(sh, top)
    requires forall n | n in sh.kids :: n.live <==> n !in done
    requires forall n | n in sh.kids && n !in done :: n.child == First(sh.kids[n])
    requires forall n | n in sh.kids :: LinksOf(n).(child := ls[n].child) == ls[n]
    ensures forall n | n in Pruned(sh, top).kids :: n.live
    ensures Matches(Pruned(sh, top).kids.Keys, Restricted(ls, Pruned(sh, top).kids.Keys))
  {
    Leftover(sh, top, done);
    var sh' := Pruned(sh, top);
    forall n | n in sh'.kids ensures n.live && LinksOf(n) == ls[n] {
      assert n !in done && n.child == ls[n].child;
      assert LinksOf(n).(child := ls[n].child) == ls[n];
    }
  }

  method FreeFrom(doc: Document, node: Node)
    requires doc.Valid() && node in doc.shape.kids && !HasParent(doc.shape, node)
    modifies doc, doc.shape.kids.Keys`child, doc.shape.kids.Keys`live
    ensures doc.Valid() && doc.shape == Pruned(old(doc.shape), node)
    ensures doc.freed == old(doc.freed) + Post(old(doc.shape), node)
    ensures forall n | n in Post(old(doc.shape), node) :: n in old(doc.shape.kids) && !n.live
  {
    hide ChildLinks, SiblingLinks, RootLinks, Good, Pruned, Restricted;
    ghost var sh, ls := doc.shape, doc.links;
    BeforeFree(doc);
    PrunedLinked(sh, ls, node);
    ghost var done := FreeTree(node, sh, ls);
    AfterFree(sh, ls, node, done);
    doc.Become(Pruned(sh, node), Restricted(ls, Pruned(sh, node).kids.Keys), doc.freed + done);
    PostInside(sh, node);
  }

  lemma PostInside(sh: Shape, top: Node)
    requires Good(sh) && top in sh.kids
    ensures forall n | n in Post(sh, top) :: n in sh.kids
  {
    PostNoDup(sh, top);
    forall n | n in Post(sh, top) ensures n in sh.kids {
      UnderRank(sh, top, n);
    }
  }

  /**
  Takes a node out of its parent's list and frees it with everything under it: every node of
  the subtree once, children before parents. The rest of the document stays as it was.
  */
  method Delete(doc: Document, node: Node?)
    requires doc.Valid() && (node != null ==> node in doc.shape.kids)
    modifies doc, doc.shape.kids.Keys
    ensures doc.Valid()
    ensures node == null ==> doc.shape == old(doc.shape) && doc.freed == old(doc.freed)
    ensures node != null ==>
      var sh := Orphaned(old(doc.shape), node);
      && Good(sh) && doc.shape == Pruned(sh, node)
      && doc.freed == old(doc.freed) + Post(old(doc.shape), node)
      && forall n | n in Post(old(doc.shape), node) :: n in old(doc.shape.kids) && !n.live
  {
    if node == null {
      return;
    }
    OrphanedBelow(doc.shape, node);
    doc.Remove(node);
    FreeFrom(doc, node);
  }
}
