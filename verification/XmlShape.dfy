/**
The nodes of an XML tree, and the mathematics of its shape. A Shape says which children
each node has, in order; `rank` falls from parent to child, so there are no cycles.
Everything here is about shapes as values; XmlTree ties them to the nodes' pointers.
*/
module XmlShape {
  import opened Common
  import Bytes = Utf8

  type Byte = Bytes.Byte

  datatype Attr = Attr(name: seq<Byte>, value: Option<seq<Byte>>)

  /** What a node carries besides its links. */
  datatype Value =
    | Element(name: seq<Byte>, attrs: seq<Attr>)
    | Text(whitespace: bool, text: seq<Byte>)
    | Other

  class Node {
    var next: Node?
    var prev: Node?
    var parent: Node?
    var child: Node?
    var lastChild: Node?
    const value: Value
    ghost var live: bool     // allocated and not freed yet

    /** Fresh memory is zeroed: no links. */
    constructor (value: Value)
      ensures this.value == value && live
      ensures next == prev == parent == child == lastChild == null
    {
      next, prev, parent, child, lastChild := null, null, null, null, null;
      this.value := value;
      live := true;
    }

    function ReadChild(): Node?
      requires live
      reads this
    {
      child
    }

    function ReadNext(): Node?
      requires live
      reads this
    {
      next
    }

    function ReadParent(): Node?
      requires live
      reads this
    {
      parent
    }

    method ClearChild()
      requires live
      modifies this`child
      ensures child == null
    {
      child := null;
    }

    method Free()
      requires live
      modifies this`live
      ensures !live
    {
      live := false;
    }
  }

  datatype Shape = Shape(kids: map<Node, seq<Node>>, rank: map<Node, nat>)

  ghost predicate IsKid(sh: Shape, older p: Node, i: int, older x: Node) {
    p in sh.kids && 0 <= i < |sh.kids[p]| && sh.kids[p][i] == x
  }

  ghost predicate Good(sh: Shape) {
    && sh.kids.Keys == sh.rank.Keys
    && (forall p, i, x | IsKid(sh, p, i, x) :: x in sh.kids && sh.rank[x] < sh.rank[p])
    && (forall p, i, q, j, x | IsKid(sh, p, i, x) && IsKid(sh, q, j, x) :: p == q && i == j)
  }

  // ---------------------------------------------------------------- orders

  /** n and everything under it, parents before children. */
  ghost function Pre(sh: Shape, n: Node): (xs: seq<Node>)
    requires Good(sh) && n in sh.kids
    ensures xs != [] && xs[0] == n
    decreases sh.rank[n], 1, 0
  {
    [n] + PreFrom(sh, n, 0)
  }

  /** Everything under the children of n from the i-th on. */
  ghost function PreFrom(sh: Shape, n: Node, i: nat): seq<Node>
    requires Good(sh) && n in sh.kids && i <= |sh.kids[n]|
    decreases sh.rank[n], 0, |sh.kids[n]| - i
  {
    if i == |sh.kids[n]| then []
    else
      assert IsKid(sh, n, i, sh.kids[n][i]);
      Pre(sh, sh.kids[n][i]) + PreFrom(sh, n, i + 1)
  }

  /** Children before parents. */
  ghost function Post(sh: Shape, n: Node): (xs: seq<Node>)
    requires Good(sh) && n in sh.kids
    ensures xs != [] && xs[|xs| - 1] == n
    decreases sh.rank[n], 1, 0
  {
    PostFrom(sh, n, 0) + [n]
  }

  ghost function PostFrom(sh: Shape, n: Node, i: nat): seq<Node>
    requires Good(sh) && n in sh.kids && i <= |sh.kids[n]|
    decreases sh.rank[n], 0, |sh.kids[n]| - i
  {
    if i == |sh.kids[n]| then []
    else
      assert IsKid(sh, n, i, sh.kids[n][i]);
      Post(sh, sh.kids[n][i]) + PostFrom(sh, n, i + 1)
  }

  // ---------------------------------------------------------------- who is under whom

  /** Nodes under n are nodes of the shape, of lower rank unless they are n. */
  lemma {:induction false} UnderRank(sh: Shape, n: Node, x: Node)
    requires Good(sh) && n in sh.kids && x in Pre(sh, n)
    ensures x in sh.kids && (x == n || sh.rank[x] < sh.rank[n])
    decreases sh.rank[n], 1, 0
  {
    if x != n {
      assert x in PreFrom(sh, n, 0);
      var i := UnderSomeKid(sh, n, 0, x);
      UnderRank(sh, sh.kids[n][i], x);
    }
  }

  lemma {:induction false} UnderSomeKid(sh: Shape, n: Node, i: nat, x: Node) returns (j: nat)
    requires Good(sh) && n in sh.kids && i <= |sh.kids[n]| && x in PreFrom(sh, n, i)
    ensures i <= j < |sh.kids[n]| && IsKid(sh, n, j, sh.kids[n][j])
    ensures x in Pre(sh, sh.kids[n][j])
    decreases |sh.kids[n]| - i
  {
    assert i < |sh.kids[n]|;
    assert IsKid(sh, n, i, sh.kids[n][i]);
    if x in Pre(sh, sh.kids[n][i]) {
      j := i;
    } else {
      assert x in PreFrom(sh, n, i + 1);
      j := UnderSomeKid(sh, n, i + 1, x);
    }
  }

  lemma {:induction false} KidUnderFrom(sh: Shape, n: Node, i: nat, j: nat, x: Node)
    requires Good(sh) && n in sh.kids && i <= j < |sh.kids[n]|
    requires IsKid(sh, n, j, sh.kids[n][j]) && x in Pre(sh, sh.kids[n][j])
    ensures x in PreFrom(sh, n, i)
    decreases j - i
  {
    assert IsKid(sh, n, i, sh.kids[n][i]);
    if i < j {
      KidUnderFrom(sh, n, i + 1, j, x);
    }
  }

  /** What is under a node is closed under taking children. */
  lemma {:induction false} KidsUnder(sh: Shape, n: Node, p: Node, i: int, x: Node)
    requires Good(sh) && n in sh.kids && p in Pre(sh, n) && IsKid(sh, p, i, x)
    ensures x in Pre(sh, n)
    decreases sh.rank[n]
  {
    if p == n {
      KidUnderFrom(sh, n, 0, i, x);
    } else {
      var j := UnderSomeKid(sh, n, 0, p);
      KidsUnder(sh, sh.kids[n][j], p, i, x);
      KidUnderFrom(sh, n, 0, j, x);
    }
  }

  /** ... and, but for n itself, under taking parents. */
  lemma {:induction false} ParentUnder(sh: Shape, n: Node, x: Node) returns (p: Node, i: nat)
    requires Good(sh) && n in sh.kids && x in Pre(sh, n) && x != n
    ensures p in Pre(sh, n) && IsKid(sh, p, i, x)
    decreases sh.rank[n]
  {
    var j := UnderSomeKid(sh, n, 0, x);
    var k := sh.kids[n][j];
    if x == k {
      p, i := n, j;
    } else {
      p, i := ParentUnder(sh, k, x);
      KidUnderFrom(sh, n, 0, j, p);
    }
  }

  lemma ParentIsUnder(sh: Shape, n: Node, p: Node, i: int, x: Node)
    requires Good(sh) && n in sh.kids && x in Pre(sh, n) && x != n && IsKid(sh, p, i, x)
    ensures p in Pre(sh, n)
  {
    var q, j := ParentUnder(sh, n, x);
  }

  /** Two subtrees that share a node are nested. */
  lemma {:induction false} Nested(sh: Shape, a: Node, b: Node, x: Node)
    requires Good(sh) && a in sh.kids && b in sh.kids
    requires x in Pre(sh, a) && x in Pre(sh, b)
    ensures a in Pre(sh, b) || b in Pre(sh, a)
    decreases if x in sh.rank && sh.rank[x] <= sh.rank[a] then sh.rank[a] - sh.rank[x] else 0
  {
    UnderRank(sh, a, x);
    if x != a && x != b {
      var p, i := ParentUnder(sh, a, x);
      ParentIsUnder(sh, b, p, i, x);
      UnderRank(sh, a, p);
      Nested(sh, a, b, p);
    }
  }

  lemma SiblingsApart(sh: Shape, n: Node, i: nat, j: nat, x: Node)
    requires Good(sh) && n in sh.kids && i < |sh.kids[n]| && j < |sh.kids[n]| && i != j
    requires IsKid(sh, n, i, sh.kids[n][i]) && IsKid(sh, n, j, sh.kids[n][j])
    requires x in Pre(sh, sh.kids[n][i])
    ensures x !in Pre(sh, sh.kids[n][j])
  {
    var a, b := sh.kids[n][i], sh.kids[n][j];
    if x in Pre(sh, b) {
      Nested(sh, a, b, x);
      if a in Pre(sh, b) {
        ParentIsUnder(sh, b, n, i, a);
        UnderRank(sh, b, n);
      } else {
        ParentIsUnder(sh, a, n, j, b);
        UnderRank(sh, a, n);
      }
    }
  }

  // ---------------------------------------------------------------- no node twice

  lemma NoDupConcat(xs: seq<Node>, ys: seq<Node>)
    requires NoDup(xs) && NoDup(ys) && forall x | x in xs :: x !in ys
    ensures NoDup(xs + ys)
  {
    var zs := xs + ys;
    forall i, j | 0 <= i < j < |zs| ensures zs[i] != zs[j] {
      if i < |xs| <= j {
        assert zs[i] in xs && zs[j] in ys;
      }
    }
  }

  lemma {:induction false} PreNoDup(sh: Shape, n: Node)
    requires Good(sh) && n in sh.kids
    ensures NoDup(Pre(sh, n))
    decreases sh.rank[n], 1, 0
  {
    PreFromNoDup(sh, n, 0);
    forall x | x in PreFrom(sh, n, 0) ensures x != n {
      var j := UnderSomeKid(sh, n, 0, x);
      UnderRank(sh, sh.kids[n][j], x);
    }
    NoDupConcat([n], PreFrom(sh, n, 0));
  }

  lemma {:induction false} PreFromNoDup(sh: Shape, n: Node, i: nat)
    requires Good(sh) && n in sh.kids && i <= |sh.kids[n]|
    ensures NoDup(PreFrom(sh, n, i))
    decreases sh.rank[n], 0, |sh.kids[n]| - i
  {
    if i < |sh.kids[n]| {
      assert IsKid(sh, n, i, sh.kids[n][i]);
      PreNoDup(sh, sh.kids[n][i]);
      PreFromNoDup(sh, n, i + 1);
      forall x | x in Pre(sh, sh.kids[n][i]) ensures x !in PreFrom(sh, n, i + 1) {
        if x in PreFrom(sh, n, i + 1) {
          var j := UnderSomeKid(sh, n, i + 1, x);
          SiblingsApart(sh, n, i, j, x);
        }
      }
      NoDupConcat(Pre(sh, sh.kids[n][i]), PreFrom(sh, n, i + 1));
    }
  }

  /** Both orders list the same nodes. */
  lemma {:induction false} PostIsPre(sh: Shape, n: Node)
    requires Good(sh) && n in sh.kids
    ensures multiset(Post(sh, n)) == multiset(Pre(sh, n))
    decreases sh.rank[n], 1, 0
  {
    PostFromIsPre(sh, n, 0);
  }

  lemma {:induction false} PostFromIsPre(sh: Shape, n: Node, i: nat)
    requires Good(sh) && n in sh.kids && i <= |sh.kids[n]|
    ensures multiset(PostFrom(sh, n, i)) == multiset(PreFrom(sh, n, i))
    decreases sh.rank[n], 0, |sh.kids[n]| - i
  {
    if i < |sh.kids[n]| {
      assert IsKid(sh, n, i, sh.kids[n][i]);
      PostIsPre(sh, sh.kids[n][i]);
      PostFromIsPre(sh, n, i + 1);
    }
  }

  lemma {:induction false} NoDupMultiset(xs: seq<Node>)
    ensures NoDup(xs) <==> forall x | x in xs :: multiset(xs)[x] == 1
  {
    if xs != [] {
      var rest := xs[1..];
      assert xs == [xs[0]] + rest;
      NoDupMultiset(rest);
      if forall x | x in xs :: multiset(xs)[x] == 1 {
        forall x | x in rest ensures multiset(rest)[x] == 1 {
          assert multiset(xs)[x] == 1;
        }
        assert multiset(xs)[xs[0]] == 1;
        assert xs[0] !in rest;
      }
      if NoDup(xs) {
        assert xs[0] !in rest;
      }
    }
  }

  lemma PostNoDup(sh: Shape, n: Node)
    requires Good(sh) && n in sh.kids
    ensures NoDup(Post(sh, n)) && (forall x | x in Post(sh, n) :: x in Pre(sh, n))
      && forall x | x in Pre(sh, n) :: x in Post(sh, n)
  {
    PostIsPre(sh, n);
    PreNoDup(sh, n);
    NoDupMultiset(Pre(sh, n));
    NoDupMultiset(Post(sh, n));
    forall x | x in Post(sh, n) ensures x in Pre(sh, n) {
      assert x in multiset(Post(sh, n));
    }
    forall x | x in Pre(sh, n) ensures x in Post(sh, n) {
      assert x in multiset(Pre(sh, n));
    }
  }
}
