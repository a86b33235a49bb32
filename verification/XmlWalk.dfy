/**
Walking a tree by its pointers: the next and previous node, and the search for elements.
The reference is the list Pre of the subtree of a top node, parents before children.
*/
module XmlWalk {
  import opened Common
  import opened XmlShape
  import opened XmlPath
  import opened XmlTree

  datatype Descend = DescendFirst | DescendAll | DescendNone

  /**
  The node whose subtree a walk from node, limited by top, stays in: top when node is under it,
  and otherwise, or without a top, the root that node is under.
  */
  ghost predicate Limits(sh: Shape, node: Node, top: Node?, t: Node) {
    && Good(sh) && t in sh.kids && node in sh.kids && node in Pre(sh, t)
    && if top != null && top in sh.kids && node in Pre(sh, top) then t == top else !HasParent(sh, t)
  }

  // ---------------------------------------------------------------- the way to a node

  /** Every node under top has a path, and a place in the list after what comes before it. */
  lemma {:induction false} WayTo(sh: Shape, top: Node, x: Node) returns (path: seq<Frame>, before: seq<Node>)
    requires Good(sh) && top in sh.kids && x in Pre(sh, top)
    ensures IsPath(sh, top, path, x)
    ensures Pre(sh, top) == before + Pre(sh, x) + RestPre(sh, path)
    decreases if x in sh.rank && sh.rank[x] <= sh.rank[top] then sh.rank[top] - sh.rank[x] else 0
  {
    UnderRank(sh, top, x);
    if x == top {
      path, before := [], [];
    } else {
      var p, i := ParentUnder(sh, top, x);
      UnderRank(sh, top, p);
      var up, before' := WayTo(sh, top, p);
      var upto := SplitKids(sh, p, 0, i);
      path, before := StepInto(sh, top, up, before', p, i, upto);
    }
  }

  lemma StepInto(sh: Shape, top: Node, up: seq<Frame>, before: seq<Node>, p: Node, i: nat, upto: seq<Node>)
    returns (path: seq<Frame>, before': seq<Node>)
    requires Good(sh) && top in sh.kids && IsPath(sh, top, up, p) && i < |sh.kids[p]|
    requires Pre(sh, top) == before + Pre(sh, p) + RestPre(sh, up)
    requires IsKid(sh, p, i, sh.kids[p][i])
    requires PreFrom(sh, p, 0) == upto + Pre(sh, sh.kids[p][i]) + PreFrom(sh, p, i + 1)
    ensures IsPath(sh, top, path, sh.kids[p][i])
    ensures Pre(sh, top) == before' + Pre(sh, sh.kids[p][i]) + RestPre(sh, path)
  {
    path := up + [Frame(p, i)];
    before' := before + [p] + upto;
    assert path[..|path| - 1] == up;
    assert RestPre(sh, path) == PreFrom(sh, p, i + 1) + RestPre(sh, up);
    Regroup(before, p, upto, Pre(sh, sh.kids[p][i]), PreFrom(sh, p, i + 1), RestPre(sh, up));
  }

  lemma Regroup(a: seq<Node>, p: Node, b: seq<Node>, c: seq<Node>, d: seq<Node>, e: seq<Node>)
    ensures a + ([p] + (b + c + d)) + e == (a + [p] + b) + c + (d + e)
  {
  }

  lemma {:induction false} SplitKids(sh: Shape, p: Node, i: nat, j: nat) returns (upto: seq<Node>)
    requires Good(sh) && p in sh.kids && i <= j < |sh.kids[p]|
    ensures IsKid(sh, p, j, sh.kids[p][j])
    ensures PreFrom(sh, p, i) == upto + Pre(sh, sh.kids[p][j]) + PreFrom(sh, p, j + 1)
    decreases j - i
  {
    assert IsKid(sh, p, i, sh.kids[p][i]);
    if i == j {
      upto := [];
    } else {
      upto := SplitKids(sh, p, i + 1, j);
      upto := Pre(sh, sh.kids[p][i]) + upto;
    }
  }

  /** The place of x in the list is where what comes before it ends. */
  lemma PlaceOf(sh: Shape, top: Node, x: Node, k: nat, path: seq<Frame>, before: seq<Node>)
    requires Good(sh) && top in sh.kids && x in sh.kids && Frames(sh, path)
    requires k < |Pre(sh, top)| && Pre(sh, top)[k] == x
    requires Pre(sh, top) == before + Pre(sh, x) + RestPre(sh, path)
    ensures k == |before|
  {
    PreNoDup(sh, top);
    assert Pre(sh, top)[|before|] == x;
  }

  /** With no next sibling, what is left to visit is left at the parent. */
  lemma ClimbsTo(sh: Shape, top: Node, path: seq<Frame>, x: Node)
    requires Good(sh) && IsPath(sh, top, path, x)
    ensures path == [] ==> RestPre(sh, path) == []
    ensures path != [] ==>
      var f := path[|path| - 1];
      if f.at + 1 < |sh.kids[f.node]| then RestPre(sh, path) != [] && RestPre(sh, path)[0] == sh.kids[f.node][f.at + 1]
      else IsPath(sh, top, path[..|path| - 1], f.node) && RestPre(sh, path) == RestPre(sh, path[..|path| - 1])
  {
    if path != [] {
      var f := path[|path| - 1];
      if f.at + 1 < |sh.kids[f.node]| {
        PathAcross(sh, top, path, x);
        assert Pre(sh, sh.kids[f.node][f.at + 1]) + RestPre(sh, Across(path)) == RestPre(sh, path);
      } else {
        PathUp(sh, top, path, x);
      }
    }
  }

  ghost function HeadOf(xs: seq<Node>): Node? {
    if xs == [] then null else xs[0]
  }

  /** The pointers a climbing walk reads at x. */
  lemma ClimbLinks(sh: Shape, ls: map<Node, Links>, top: Node?, t: Node, path: seq<Frame>, x: Node)
    requires Linked(sh, ls) && IsPath(sh, t, path, x) && Limits(sh, x, top, t)
    ensures x in ls && ls[x].child == First(sh.kids[x])
    ensures path == [] ==> x == t && (x == top || (ls[x].next == null && ls[x].parent == null && ls[x].prev == null))
    ensures path != [] ==>
      var f := path[|path| - 1];
      && x != top && ls[x].parent == f.node
      && ls[x].next == At(sh.kids[f.node], f.at + 1) && ls[x].prev == PrevIn(sh.kids[f.node], f.at)
      && Limits(sh, f.node, top, t) && (f.node == top ==> |path| == 1)
  {
    hide ChildLinks, SiblingLinks, RootLinks;
    OwnPointers(sh, ls, x);
    if path != [] {
      var f := path[|path| - 1];
      KidLinks(sh, ls, f.node, f.at);
      PathRanks(sh, t, path, x);
      PathUp(sh, t, path, x);
      assert sh.rank[x] < sh.rank[path[0].node];
      ParentIsUnder(sh, t, f.node, f.at, x);
      if f.node == top && |path| > 1 {
        assert path[|path| - 1].node != t;
      }
      if top != null && top in sh.kids && t != top && f.node in Pre(sh, top) {
        KidsUnder(sh, top, f.node, f.at, x);
      }
    }
  }

  // ---------------------------------------------------------------- one step forward

  /** Where a walk goes from the k-th node of the list, and past its subtree when it does not descend. */
  ghost function Following(sh: Shape, t: Node, k: nat, descend: Descend): Node?
    requires Good(sh) && t in sh.kids && k < |Pre(sh, t)| && Pre(sh, t)[k] in sh.kids
  {
    var j := if descend == DescendNone then k + |Pre(sh, Pre(sh, t)[k])| else k + 1;
    At(Pre(sh, t), j)
  }

  /** The next node in the list, in terms of the children and of what the path leaves. */
  lemma FollowingIs(sh: Shape, t: Node, x: Node, k: nat, descend: Descend, path: seq<Frame>, before: seq<Node>)
    requires Good(sh) && t in sh.kids && k < |Pre(sh, t)| && Pre(sh, t)[k] == x && x in sh.kids
    requires Frames(sh, path) && Pre(sh, t) == before + Pre(sh, x) + RestPre(sh, path)
    ensures Following(sh, t, k, descend) ==
      if sh.kids[x] != [] && descend != DescendNone then sh.kids[x][0] else HeadOf(RestPre(sh, path))
  {
    PlaceOf(sh, t, x, k, path, before);
    if sh.kids[x] != [] {
      assert IsKid(sh, x, 0, sh.kids[x][0]);
      assert PreFrom(sh, x, 0) == Pre(sh, sh.kids[x][0]) + PreFrom(sh, x, 1);
      assert Pre(sh, x)[1] == sh.kids[x][0];
    } else {
      assert Pre(sh, x) == [x];
    }
  }

  /** What the pointers at a node say about the node that follows. */
  lemma NextByLinks(sh: Shape, ls: map<Node, Links>, node: Node, top: Node?, t: Node, k: nat, descend: Descend)
    returns (up: seq<Frame>)
    requires Linked(sh, ls) && Limits(sh, node, top, t) && k < |Pre(sh, t)| && Pre(sh, t)[k] == node
    ensures node in ls && node in sh.kids
    ensures var l, next := ls[node], Following(sh, t, k, descend);
      if l.child != null && descend != DescendNone then next == l.child
      else if node == top then next == null
      else if l.next != null then next == l.next
      else if l.parent != null && l.parent != top then
        l.parent in sh.kids && IsPath(sh, t, up, l.parent) && Limits(sh, l.parent, top, t)
          && next == HeadOf(RestPre(sh, up))
      else next == null
  {
    var path, before := WayTo(sh, t, node);
    UnderRank(sh, t, node);
    FollowingIs(sh, t, node, k, descend, path, before);
    ClimbsTo(sh, t, path, node);
    ClimbLinks(sh, ls, top, t, path, node);
    up := if path == [] then [] else path[..|path| - 1];
    if |path| == 1 {
      assert up == [] && RestPre(sh, up) == [];
    }
  }

  /** Walks to the next node, staying under top. */
  method WalkNext(doc: Document, node: Node?, top: Node?, descend: Descend, ghost t: Node, ghost k: nat)
    returns (next: Node?)
    requires doc.Valid()
    requires node != null ==> Limits(doc.shape, node, top, t) && k < |Pre(doc.shape, t)| && Pre(doc.shape, t)[k] == node
    ensures node == null ==> next == null
    ensures node != null ==> next == Following(doc.shape, t, k, descend)
  {
    if node == null {
      return null;
    }
    ghost var up := NextByLinks(doc.shape, doc.links, node, top, t, k, descend);
    assert LinksOf(node) == doc.links[node];
    if node.child != null && descend != DescendNone {
      return node.child;
    } else if node == top {
      return null;
    } else if node.next != null {
      return node.next;
    } else if node.parent != null && node.parent != top {
      next := Climb(doc, node.parent, top, t, up);
    } else {
      return null;
    }
  }

  /** Climbs to the nearest ancestor that has a younger brother, and goes there. */
  method Climb(doc: Document, from: Node, top: Node?, ghost t: Node, ghost start: seq<Frame>) returns (next: Node?)
    requires doc.Valid() && from in doc.shape.kids && from != top
    requires IsPath(doc.shape, t, start, from) && Limits(doc.shape, from, top, t)
    ensures next == HeadOf(RestPre(doc.shape, start))
  {
    var node := from;
    ghost var sh, path := doc.shape, start;
    ClimbLinks(sh, doc.links, top, t, path, node);
    ClimbsTo(sh, t, path, node);
    assert LinksOf(node) == doc.links[node];
    while node.next == null
      invariant node in sh.kids && LinksOf(node) == doc.links[node] && node != top
      invariant IsPath(sh, t, path, node) && Limits(sh, node, top, t)
      invariant RestPre(sh, path) == RestPre(sh, start)
      decreases |path|
    {
      ClimbLinks(sh, doc.links, top, t, path, node);
      ClimbsTo(sh, t, path, node);
      if node.parent == top || node.parent == null {
        return null;
      }
      node := node.parent;
      path := path[..|path| - 1];
    }
    ClimbLinks(sh, doc.links, top, t, path, node);
    ClimbsTo(sh, t, path, node);
    next := node.next;
  }

  // ---------------------------------------------------------------- one step back

  /** The node before the k-th of the list; the walk never goes back to top. */
  ghost function Preceding(sh: Shape, top: Node?, t: Node, k: nat): Node?
    requires Good(sh) && t in sh.kids && k < |Pre(sh, t)|
  {
    if k == 0 || (k == 1 && t == top) then null else Pre(sh, t)[k - 1]
  }

  lemma JustBefore(all: seq<Node>, head: seq<Node>, xs: seq<Node>, rest: seq<Node>, k: nat)
    requires NoDup(all) && all == head + xs + rest && head != [] && xs != []
    requires k < |all| && all[k] == xs[0]
    ensures k == |head| && all[k - 1] == Last(head)
  {
    assert all[|head|] == xs[0];
    assert all[|head| - 1] == head[|head| - 1];
  }

  /** The list up to a child ends with its elder brother's subtree, or with its parent. */
  lemma HeadOfKid(sh: Shape, t: Node, p: Node, i: nat) returns (head: seq<Node>, rest: seq<Node>)
    requires Good(sh) && t in sh.kids && p in sh.kids && p in Pre(sh, t) && i < |sh.kids[p]|
    requires IsKid(sh, p, i, sh.kids[p][i])
    ensures Pre(sh, t) == head + Pre(sh, sh.kids[p][i]) + rest && head != []
    ensures i > 0 ==> IsKid(sh, p, i - 1, sh.kids[p][i - 1])
    ensures Last(head) == if i == 0 then p else Last(Pre(sh, sh.kids[p][i - 1]))
  {
    var path, before := WayTo(sh, t, p);
    var xs := Pre(sh, sh.kids[p][i]);
    if i == 0 {
      head, rest := before + [p], PreFrom(sh, p, 1) + RestPre(sh, path);
      assert PreFrom(sh, p, 0) == [] + xs + PreFrom(sh, p, 1);
      Regroup(before, p, [], xs, PreFrom(sh, p, 1), RestPre(sh, path));
      assert before + [p] + [] == head;
    } else {
      var upto := SplitKids(sh, p, 0, i - 1);
      var elder := Pre(sh, sh.kids[p][i - 1]);
      head, rest := before + [p] + upto + elder, PreFrom(sh, p, i + 1) + RestPre(sh, path);
      Regroup(before, p, upto, elder, PreFrom(sh, p, i), RestPre(sh, path));
      Reassociate(before + [p] + upto, elder, xs, PreFrom(sh, p, i + 1), RestPre(sh, path));
    }
  }

  lemma Reassociate(a: seq<Node>, b: seq<Node>, c: seq<Node>, d: seq<Node>, e: seq<Node>)
    ensures a + b + ((c + d) + e) == (a + b) + c + (d + e)
  {
  }

  /** The node before a child in the list: the last one under its elder brother, or its parent. */
  lemma BeforeKid(sh: Shape, t: Node, p: Node, i: nat, x: Node, k: nat)
    requires Good(sh) && t in sh.kids && k < |Pre(sh, t)| && Pre(sh, t)[k] == x
    requires IsKid(sh, p, i, x) && x != t
    ensures k > 0 && i > 0 ==> IsKid(sh, p, i - 1, sh.kids[p][i - 1])
    ensures k > 0 && Pre(sh, t)[k - 1] == if i == 0 then p else Last(Pre(sh, sh.kids[p][i - 1]))
  {
    ParentIsUnder(sh, t, p, i, x);
    PreNoDup(sh, t);
    var head, rest := HeadOfKid(sh, t, p, i);
    JustBefore(Pre(sh, t), head, Pre(sh, x), rest, k);
    if i > 0 {
      assert IsKid(sh, p, i - 1, sh.kids[p][i - 1]);
    }
  }

  /** The walk stops at the first child of top, and only there. */
  lemma FirstUnderTop(sh: Shape, t: Node, p: Node, i: nat, x: Node, k: nat)
    requires Good(sh) && t in sh.kids && k < |Pre(sh, t)| && Pre(sh, t)[k] == x
    requires IsKid(sh, p, i, x) && x != t
    ensures k == 1 <==> p == t && i == 0
  {
    BeforeKid(sh, t, p, i, x, k);
    PreNoDup(sh, t);
    ParentIsUnder(sh, t, p, i, x);
    UnderRank(sh, t, p);
    if i > 0 {
      var s := sh.kids[p][i - 1];
      assert IsKid(sh, p, i - 1, s);
      UnderRank(sh, s, Last(Pre(sh, s)));
    }
  }

  lemma LastUnder(sh: Shape, n: Node)
    requires Good(sh) && n in sh.kids
    ensures sh.kids[n] == [] ==> Last(Pre(sh, n)) == n
    ensures sh.kids[n] != [] ==>
      Last(sh.kids[n]) in sh.kids && sh.rank[Last(sh.kids[n])] < sh.rank[n]
        && Last(Pre(sh, n)) == Last(Pre(sh, Last(sh.kids[n])))
  {
    var ks := sh.kids[n];
    if ks != [] {
      var upto := SplitKids(sh, n, 0, |ks| - 1);
      assert PreFrom(sh, n, |ks|) == [];
      assert PreFrom(sh, n, 0) == upto + Pre(sh, Last(ks));
    }
  }

  method LastLeaf(doc: Document, from: Node) returns (node: Node)
    requires doc.Valid() && from in doc.shape.kids
    ensures node == Last(Pre(doc.shape, from))
  {
    node := from;
    ghost var sh := doc.shape;
    assert LinksOf(node) == doc.links[node];
    LastUnder(sh, node);
    while node.lastChild != null
      invariant node in sh.kids && LinksOf(node) == doc.links[node]
      invariant Last(Pre(sh, node)) == Last(Pre(sh, from))
      decreases sh.rank[node]
    {
      LastUnder(sh, node);
      node := node.lastChild;
    }
    LastUnder(sh, node);
  }

  /** What the pointers at a node say about the node before it. */
  lemma PrevByLinks(sh: Shape, ls: map<Node, Links>, node: Node, top: Node?, t: Node, k: nat)
    requires Linked(sh, ls) && Limits(sh, node, top, t) && k < |Pre(sh, t)| && Pre(sh, t)[k] == node
    ensures var l := ls[node];
      if node == top then Preceding(sh, top, t, k) == null
      else if l.prev != null then l.prev in sh.kids && Preceding(sh, top, t, k) == Last(Pre(sh, l.prev))
      else if l.parent != top then Preceding(sh, top, t, k) == l.parent
      else Preceding(sh, top, t, k) == null
  {
    hide ChildLinks, SiblingLinks, RootLinks;
    var path, before := WayTo(sh, t, node);
    ClimbLinks(sh, ls, top, t, path, node);
    PreNoDup(sh, t);
    if path != [] {
      var f := path[|path| - 1];
      PathRanks(sh, t, path, node);
      BeforeKid(sh, t, f.node, f.at, node, k);
      FirstUnderTop(sh, t, f.node, f.at, node, k);
    }
  }

  /** Walks to the previous node, staying under top and never returning it. */
  method WalkPrev(doc: Document, node: Node?, top: Node?, descend: Descend, ghost t: Node, ghost k: nat)
    returns (prev: Node?)
    requires doc.Valid()
    requires node != null ==> Limits(doc.shape, node, top, t) && k < |Pre(doc.shape, t)| && Pre(doc.shape, t)[k] == node
    ensures node == null ==> prev == null
    ensures node != null && descend != DescendNone ==> prev == Preceding(doc.shape, top, t, k)
    ensures node != null && node != top && descend == DescendNone ==>
      forall p, i | p in doc.shape.kids && IsKid(doc.shape, p, i, node) ::
        prev == if i > 0 then doc.shape.kids[p][i - 1] else if p != top then p else null
    ensures node != null && (node == top || (descend == DescendNone && !HasParent(doc.shape, node))) ==> prev == null
  {
    if node == null || node == top {
      if node != null {
        PrevByLinks(doc.shape, doc.links, node, top, t, k);
      }
      return null;
    }
    ghost var sh := doc.shape;
    PrevByLinks(sh, doc.links, node, top, t, k);
    assert LinksOf(node) == doc.links[node];
    if node.prev != null {
      assert LinksOf(node.prev) == doc.links[node.prev];
      LastUnder(sh, node.prev);
      if node.prev.lastChild != null && descend != DescendNone {
        prev := LastLeaf(doc, node.prev.lastChild);
      } else {
        prev := node.prev;
      }
    } else if node.parent != top {
      prev := node.parent;
    } else {
      prev := null;
    }
  }

  /** Every node of the list is within the limits that a node under top, or any node without a top, has. */
  lemma InLimits(sh: Shape, top: Node?, t: Node, k: nat)
    requires Good(sh) && t in sh.kids && k < |Pre(sh, t)| && if top == null then !HasParent(sh, t) else t == top
    ensures Limits(sh, Pre(sh, t)[k], top, t)
  {
    assert Pre(sh, t)[k] in Pre(sh, t);
    UnderRank(sh, t, Pre(sh, t)[k]);
  }

  /** Walking on and back again under top, or in the whole tree without a top. */
  method NextAndBack(doc: Document, node: Node, top: Node?, ghost t: Node, ghost k: nat)
    returns (next: Node?, back: Node?)
    requires doc.Valid() && t in doc.shape.kids && k < |Pre(doc.shape, t)| && Pre(doc.shape, t)[k] == node
    requires if top == null then !HasParent(doc.shape, t) else t == top
    ensures next == At(Pre(doc.shape, t), k + 1)
    ensures back == if next == null || node == top then null else node
  {
    hide ChildLinks, SiblingLinks, RootLinks, Matches, Limits, Good, HasParent;
    InLimits(doc.shape, top, t, k);
    next := WalkNext(doc, node, top, DescendAll, t, k);
    if next == null {
      return null, null;
    }
    InLimits(doc.shape, top, t, k + 1);
    back := WalkPrev(doc, next, top, DescendAll, t, k + 1);
    OnlyTopFirst(doc.shape, t, k);
  }

  /** Only the first of the list is its top. */
  lemma OnlyTopFirst(sh: Shape, t: Node, k: nat)
    requires Good(sh) && t in sh.kids && k < |Pre(sh, t)|
    ensures Pre(sh, t)[k] == t <==> k == 0
  {
    PreNoDup(sh, t);
  }

  /** Walking on from top until there is nothing more visits the whole subtree, in order, each node once. */
  method WalkAll(doc: Document, top: Node) returns (visited: seq<Node>)
    requires doc.Valid() && top in doc.shape.kids
    ensures visited == Pre(doc.shape, top) && NoDup(visited)
  {
    hide ChildLinks, SiblingLinks, RootLinks, Matches, Limits, Good;
    ghost var all := Pre(doc.shape, top);
    visited := [];
    var node: Node? := top;
    while node != null
      invariant |visited| <= |all| && visited == all[..|visited|] && node == At(all, |visited|)
      decreases |all| - |visited|
    {
      ghost var k := |visited|;
      visited := visited + [node];
      InLimits(doc.shape, top, top, k);
      node := WalkNext(doc, node, top, DescendAll, top, k);
    }
    PreNoDup(doc.shape, top);
  }
}
