/**
Where a stackless walk stands. A path holds, from the top down, an ancestor and the index of
the child the walk went into; what it still has to visit is a function of the path.
*/
module XmlPath {
  import opened XmlShape

  datatype Frame = Frame(node: Node, at: nat)

  ghost predicate Frames(sh: Shape, path: seq<Frame>) {
    forall k | 0 <= k < |path| :: path[k].node in sh.kids && path[k].at < |sh.kids[path[k].node]|
  }

  /** The path starts at top, each frame's child is the next frame's node, and the last one's is c. */
  ghost predicate IsPath(sh: Shape, top: Node, path: seq<Frame>, c: Node) {
    && Frames(sh, path)
    && c in sh.kids
    && (path == [] ==> c == top)
    && (path != [] ==>
        && path[0].node == top
        && IsKid(sh, path[|path| - 1].node, path[|path| - 1].at, c))
    && forall k | 0 <= k < |path| - 1 :: IsKid(sh, path[k].node, path[k].at, path[k + 1].node)
  }

  /** What comes after the current subtree, children before parents. */
  ghost function RestPost(sh: Shape, path: seq<Frame>): seq<Node>
    requires Good(sh) && Frames(sh, path)
    decreases |path|
  {
    if path == [] then []
    else
      var f := path[|path| - 1];
      PostFrom(sh, f.node, f.at + 1) + [f.node] + RestPost(sh, path[..|path| - 1])
  }

  /** What comes after the current subtree, parents before children. */
  ghost function RestPre(sh: Shape, path: seq<Frame>): seq<Node>
    requires Good(sh) && Frames(sh, path)
    decreases |path|
  {
    if path == [] then []
    else
      var f := path[|path| - 1];
      PreFrom(sh, f.node, f.at + 1) + RestPre(sh, path[..|path| - 1])
  }

  ghost function Down(path: seq<Frame>, c: Node): seq<Frame> {
    path + [Frame(c, 0)]
  }

  ghost function Across(path: seq<Frame>): seq<Frame>
    requires path != []
  {
    path[..|path| - 1] + [Frame(path[|path| - 1].node, path[|path| - 1].at + 1)]
  }

  /** The nodes of a path are its ancestors: ranks fall along it. */
  lemma {:induction false} PathRanks(sh: Shape, top: Node, path: seq<Frame>, c: Node)
    requires Good(sh) && IsPath(sh, top, path, c)
    ensures forall k | 0 <= k < |path| :: sh.rank[c] < sh.rank[path[k].node]
    ensures forall k | 0 < k < |path| :: path[k].node != top
    decreases |path|
  {
    if path != [] {
      var f := path[|path| - 1];
      PathUp(sh, top, path, c);
      PathRanks(sh, top, path[..|path| - 1], f.node);
      assert IsKid(sh, f.node, f.at, c);
      if |path| > 1 {
        assert path[..|path| - 1][0].node == top;
      }
    }
  }

  lemma DownIsPath(sh: Shape, top: Node, path: seq<Frame>, c: Node)
    requires Good(sh) && IsPath(sh, top, path, c) && sh.kids[c] != []
    ensures IsPath(sh, top, Down(path, c), sh.kids[c][0])
  {
    assert IsKid(sh, c, 0, sh.kids[c][0]);
  }

  lemma DownRest(sh: Shape, path: seq<Frame>, c: Node)
    requires Good(sh) && c in sh.kids && sh.kids[c] != [] && Frames(sh, path)
    ensures Frames(sh, Down(path, c))
    ensures RestPost(sh, Down(path, c)) == PostFrom(sh, c, 1) + [c] + RestPost(sh, path)
    ensures RestPre(sh, Down(path, c)) == PreFrom(sh, c, 1) + RestPre(sh, path)
  {
    assert Down(path, c)[..|path|] == path && Down(path, c)[|path|] == Frame(c, 0);
  }

  lemma Join(a: seq<Node>, b: seq<Node>, c: seq<Node>, d: seq<Node>)
    ensures a + (b + c + d) == (a + b) + c + d && a + (b + d) == (a + b) + d
  {
  }

  lemma PathDown(sh: Shape, top: Node, path: seq<Frame>, c: Node)
    requires Good(sh) && IsPath(sh, top, path, c) && sh.kids[c] != []
    ensures IsPath(sh, top, Down(path, c), sh.kids[c][0])
    ensures Post(sh, sh.kids[c][0]) + RestPost(sh, Down(path, c)) == Post(sh, c) + RestPost(sh, path)
    ensures Pre(sh, sh.kids[c][0]) + RestPre(sh, Down(path, c)) == PreFrom(sh, c, 0) + RestPre(sh, path)
  {
    var k := sh.kids[c][0];
    DownIsPath(sh, top, path, c);
    DownRest(sh, path, c);
    assert PostFrom(sh, c, 0) == Post(sh, k) + PostFrom(sh, c, 1);
    assert PreFrom(sh, c, 0) == Pre(sh, k) + PreFrom(sh, c, 1);
    Join(Post(sh, k), PostFrom(sh, c, 1), [c], RestPost(sh, path));
    Join(Pre(sh, k), PreFrom(sh, c, 1), [], RestPre(sh, path));
  }

  lemma AcrossIsPath(sh: Shape, top: Node, path: seq<Frame>, c: Node)
    requires Good(sh) && IsPath(sh, top, path, c) && path != []
    requires path[|path| - 1].at + 1 < |sh.kids[path[|path| - 1].node]|
    ensures IsPath(sh, top, Across(path), sh.kids[path[|path| - 1].node][path[|path| - 1].at + 1])
  {
    var f := path[|path| - 1];
    assert IsKid(sh, f.node, f.at + 1, sh.kids[f.node][f.at + 1]);
  }

  lemma PathAcross(sh: Shape, top: Node, path: seq<Frame>, c: Node)
    requires Good(sh) && IsPath(sh, top, path, c) && path != []
    requires path[|path| - 1].at + 1 < |sh.kids[path[|path| - 1].node]|
    ensures var s := sh.kids[path[|path| - 1].node][path[|path| - 1].at + 1];
      && IsPath(sh, top, Across(path), s)
      && Post(sh, s) + RestPost(sh, Across(path)) == RestPost(sh, path)
      && Pre(sh, s) + RestPre(sh, Across(path)) == RestPre(sh, path)
  {
    hide RestPost, RestPre, Good, PostFrom, PreFrom;
    var f, up := path[|path| - 1], path[..|path| - 1];
    AcrossIsPath(sh, top, path, c);
    assert path == up + [f] && Across(path) == up + [Frame(f.node, f.at + 1)];
    AcrossRest(sh, up, f);
  }

  lemma AcrossRest(sh: Shape, up: seq<Frame>, f: Frame)
    requires Good(sh) && Frames(sh, up + [f]) && Frames(sh, up + [Frame(f.node, f.at + 1)])
    requires f.node in sh.kids && f.at + 1 < |sh.kids[f.node]|
    ensures var s := sh.kids[f.node][f.at + 1];
      && s in sh.kids
      && Post(sh, s) + RestPost(sh, up + [Frame(f.node, f.at + 1)]) == RestPost(sh, up + [f])
      && Pre(sh, s) + RestPre(sh, up + [Frame(f.node, f.at + 1)]) == RestPre(sh, up + [f])
  {
    hide RestPost, RestPre, Frames;
    var s := sh.kids[f.node][f.at + 1];
    assert IsKid(sh, f.node, f.at + 1, s);
    LastRest(sh, up, f);
    LastRest(sh, up, Frame(f.node, f.at + 1));
    Join(Post(sh, s), PostFrom(sh, f.node, f.at + 2), [f.node], RestPost(sh, up));
    Join(Pre(sh, s), PreFrom(sh, f.node, f.at + 2), [], RestPre(sh, up));
  }

  /** What a path leaves, by its last frame. */
  lemma LastRest(sh: Shape, up: seq<Frame>, f: Frame)
    requires Good(sh) && Frames(sh, up + [f])
    ensures Frames(sh, up) && f.node in sh.kids && f.at < |sh.kids[f.node]|
    ensures RestPost(sh, up + [f]) == PostFrom(sh, f.node, f.at + 1) + [f.node] + RestPost(sh, up)
    ensures RestPre(sh, up + [f]) == PreFrom(sh, f.node, f.at + 1) + RestPre(sh, up)
  {
    var path := up + [f];
    assert path[|up|] == f && path[..|up|] == up;
    forall k | 0 <= k < |up| ensures up[k] == path[k] {
    }
  }

  lemma PathUp(sh: Shape, top: Node, path: seq<Frame>, c: Node)
    requires Good(sh) && IsPath(sh, top, path, c) && path != []
    ensures IsPath(sh, top, path[..|path| - 1], path[|path| - 1].node)
    ensures path[|path| - 1].at + 1 == |sh.kids[path[|path| - 1].node]| ==>
      && RestPost(sh, path) == [path[|path| - 1].node] + RestPost(sh, path[..|path| - 1])
      && RestPre(sh, path) == RestPre(sh, path[..|path| - 1])
  {
    var f := path[|path| - 1];
    if |path| > 1 {
      assert IsKid(sh, path[|path| - 2].node, path[|path| - 2].at, f.node);
    }
  }
}
