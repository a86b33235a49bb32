/**
The sorted index of elements. A find by name (and attribute value) lands by binary search
somewhere in the run of matching nodes and moves back to its beginning; repeated, it returns
the whole run in order and then nothing.
*/
module XmlIndex {
  import opened Common
  import opened XmlShape
  import opened XmlAttr

  /** The sign of the comparison of two strings by their bytes. */
  function Compare(a: seq<Byte>, b: seq<Byte>): (sign: int)
    ensures -1 <= sign <= 1
  {
    if a == [] then if b == [] then 0 else -1
    else if b == [] then 1
    else if a[0] < b[0] then -1
    else if a[0] > b[0] then 1
    else Compare(a[1..], b[1..])
  }

  lemma {:induction false} CompareZero(a: seq<Byte>, b: seq<Byte>)
    ensures Compare(a, b) == 0 <==> a == b
  {
    if a != [] && b != [] {
      CompareZero(a[1..], b[1..]);
      assert a == [a[0]] + a[1..] && b == [b[0]] + b[1..];
    }
  }

  /** A query compares with a greater string as with a smaller one, or falls lower. */
  lemma {:induction false} CompareFalls(q: seq<Byte>, a: seq<Byte>, b: seq<Byte>)
    requires Compare(a, b) <= 0
    ensures Compare(q, b) <= Compare(q, a)
  {
    if q != [] && a != [] && b != [] && a[0] == b[0] {
      CompareFalls(q[1..], a[1..], b[1..]);
    }
  }

  lemma {:induction false} CompareTwice(a: seq<Byte>, b: seq<Byte>)
    ensures Compare(a, b) == -Compare(b, a)
  {
    if a != [] && b != [] {
      CompareTwice(a[1..], b[1..]);
    }
  }

  /** Nodes that the index can compare: elements, with the attribute when there is one. */
  predicate Indexable(n: Node, attr: Option<seq<Byte>>) {
    n.value.Element? && (attr.Some? ==> AttrOf(n.value.attrs, attr.value).Some?)
  }

  function Name(n: Node): seq<Byte>
    requires n.value.Element?
  {
    n.value.name
  }

  function AttrValue(n: Node, attr: seq<Byte>): seq<Byte>
    requires Indexable(n, Some(attr))
  {
    AttrOf(n.value.attrs, attr).value
  }

  /** How the index orders two nodes. */
  function CompareNodes(a: Node, b: Node, attr: Option<seq<Byte>>): int
    requires Indexable(a, attr) && Indexable(b, attr)
  {
    var diff := Compare(Name(a), Name(b));
    if diff != 0 || attr.None? then diff else Compare(AttrValue(a, attr.value), AttrValue(b, attr.value))
  }

  /** How a query compares with a node. */
  function CompareQuery(element: Option<seq<Byte>>, value: Option<seq<Byte>>, n: Node,
      attr: Option<seq<Byte>>): (sign: int)
    requires Indexable(n, attr) && (value.Some? ==> attr.Some?)
    ensures -1 <= sign <= 1
  {
    var diff := if element.Some? then Compare(element.value, Name(n)) else 0;
    if diff != 0 || value.None? then diff else Compare(value.value, AttrValue(n, attr.value))
  }

  predicate AllIndexable(nodes: seq<Node>, attr: Option<seq<Byte>>) {
    forall i {:trigger Indexable(nodes[i], attr)} | 0 <= i < |nodes| :: Indexable(nodes[i], attr)
  }

  predicate Sorted(nodes: seq<Node>, attr: Option<seq<Byte>>) {
    && AllIndexable(nodes, attr)
    && forall i, j {:trigger CompareNodes(nodes[i], nodes[j], attr)} | 0 <= i < j < |nodes| ::
      CompareNodes(nodes[i], nodes[j], attr) <= 0
  }

  /** Along a sorted index, a query with a name compares lower and lower. */
  lemma QueryFalls(nodes: seq<Node>, attr: Option<seq<Byte>>, element: Option<seq<Byte>>, value: Option<seq<Byte>>,
      i: nat, j: nat)
    requires Sorted(nodes, attr) && element.Some? && (value.Some? ==> attr.Some?) && i <= j < |nodes|
    ensures CompareQuery(element, value, nodes[j], attr) <= CompareQuery(element, value, nodes[i], attr)
  {
    if i < j {
      var a, b := nodes[i], nodes[j];
      assert Indexable(a, attr) && Indexable(b, attr);
      assert CompareNodes(a, b, attr) <= 0;
      CompareFalls(element.value, Name(a), Name(b));
      if Compare(element.value, Name(a)) == 0 && Compare(element.value, Name(b)) == 0 && value.Some? {
        CompareZero(element.value, Name(a));
        CompareZero(element.value, Name(b));
        CompareZero(Name(a), Name(b));
        CompareFalls(value.value, AttrValue(a, attr.value), AttrValue(b, attr.value));
      }
    }
  }

  /** How a query compares with each node of the index. */
  ghost function Signs(nodes: seq<Node>, attr: Option<seq<Byte>>, element: Option<seq<Byte>>,
      value: Option<seq<Byte>>): (signs: seq<int>)
    requires AllIndexable(nodes, attr) && (value.Some? ==> attr.Some?)
    ensures |signs| == |nodes|
      && forall i | 0 <= i < |nodes| :: signs[i] == CompareQuery(element, value, nodes[i], attr)
  {
    seq(|nodes|, i requires 0 <= i < |nodes| => CompareQuery(element, value, nodes[i], attr))
  }

  ghost predicate Falling(signs: seq<int>) {
    forall i, j | 0 <= i <= j < |signs| :: signs[j] <= signs[i]
  }

  lemma SignsFall(nodes: seq<Node>, attr: Option<seq<Byte>>, element: Option<seq<Byte>>, value: Option<seq<Byte>>)
    requires Sorted(nodes, attr) && element.Some? && (value.Some? ==> attr.Some?)
    ensures Falling(Signs(nodes, attr, element, value))
  {
    forall i, j | 0 <= i <= j < |nodes|
      ensures CompareQuery(element, value, nodes[j], attr) <= CompareQuery(element, value, nodes[i], attr)
    {
      QueryFalls(nodes, attr, element, value, i, j);
    }
  }

  /** When all nodes have the same name, a query with a value alone falls as well. */
  lemma OneNameFalls(nodes: seq<Node>, attr: Option<seq<Byte>>, value: Option<seq<Byte>>, name: seq<Byte>)
    requires Sorted(nodes, attr) && value.Some? && attr.Some?
    requires forall i | 0 <= i < |nodes| :: Indexable(nodes[i], attr) && Name(nodes[i]) == name
    ensures Falling(Signs(nodes, attr, None, value))
  {
    forall i, j | 0 <= i <= j < |nodes|
      ensures CompareQuery(None, value, nodes[j], attr) <= CompareQuery(None, value, nodes[i], attr)
    {
      var a, b := nodes[i], nodes[j];
      assert Indexable(a, attr) && Indexable(b, attr);
      if i < j {
        assert CompareNodes(a, b, attr) <= 0;
        CompareZero(name, name);
        CompareFalls(value.value, AttrValue(a, attr.value), AttrValue(b, attr.value));
      }
    }
  }

  // ---------------------------------------------------------------- where the search lands

  /** The first place of the run of matches that ends before place k + 1. */
  ghost function Back(signs: seq<int>, k: nat): (j: nat)
    requires k < |signs|
    ensures j <= k
  {
    if k > 0 && signs[k - 1] == 0 then Back(signs, k - 1) else k
  }

  /** The first match from place i to place last, or the end. */
  ghost function Scan(signs: seq<int>, i: nat, last: nat): (k: nat)
    requires i <= last + 1 <= |signs|
    ensures k == |signs| || i <= k <= last
    decreases last + 1 - i
  {
    if i > last then |signs| else if signs[i] == 0 then i else Scan(signs, i + 1, last)
  }

  /** Where the halving search between two places ends. */
  ghost function Probe(signs: seq<int>, first: nat, last: nat): (k: nat)
    requires first <= last < |signs|
    ensures k <= |signs|
    decreases last - first
  {
    if last - first <= 1 then Scan(signs, first, last)
    else
      var c := (first + last) / 2;
      if signs[c] == 0 then Back(signs, c)
      else if signs[c] < 0 then Probe(signs, first, c)
      else Probe(signs, c, last)
  }

  ghost function Landing(signs: seq<int>): (k: nat)
    ensures k <= |signs|
  {
    if signs == [] then 0 else Probe(signs, 0, |signs| - 1)
  }

  /** The nodes from place k on as long as they match. */
  ghost function RunOf(nodes: seq<Node>, signs: seq<int>, k: nat): seq<Node>
    requires |signs| == |nodes| && k <= |nodes|
    decreases |nodes| - k
  {
    if k < |nodes| && signs[k] == 0 then [nodes[k]] + RunOf(nodes, signs, k + 1) else []
  }

  lemma RunStep(nodes: seq<Node>, signs: seq<int>, k: nat)
    requires |signs| == |nodes| && k <= |nodes|
    ensures RunOf(nodes, signs, k) ==
      if k < |nodes| && signs[k] == 0 then [nodes[k]] + RunOf(nodes, signs, k + 1) else []
  {
  }

  class Index {
    const attr: Option<seq<Byte>>
    const nodes: seq<Node>
    var cur: nat

    constructor (nodes: seq<Node>, attr: Option<seq<Byte>>)
      requires AllIndexable(nodes, attr)
      ensures this.nodes == nodes && this.attr == attr && cur == 0
    {
      this.nodes, this.attr := nodes, attr;
      cur := 0;
    }

    method Reset() returns (first: Node?)
      modifies this
      ensures cur == 0 && first == if nodes == [] then null else nodes[0]
    {
      cur := 0;
      first := if |nodes| > 0 then nodes[0] else null;
    }

    method Enum() returns (node: Node?)
      modifies this
      ensures if old(cur) < |nodes| then node == nodes[old(cur)] && cur == old(cur) + 1
        else node == null && cur == old(cur)
    {
      if cur < |nodes| {
        node := nodes[cur];
        cur := cur + 1;
      } else {
        node := null;
      }
    }

    /** The place where the binary search ends; the number of nodes when it finds nothing. */
    method Search(element: Option<seq<Byte>>, value: Option<seq<Byte>>) returns (k: nat)
      requires AllIndexable(nodes, attr) && (value.Some? ==> attr.Some?) && nodes != []
      ensures k == Landing(Signs(nodes, attr, element, value))
    {
      ghost var signs := Signs(nodes, attr, element, value);
      var first, last := 0, |nodes| - 1;
      while last - first > 1
        invariant 0 <= first <= last < |nodes|
        invariant Landing(signs) == Probe(signs, first, last)
      {
        var current := (first + last) / 2;
        var diff := CompareQuery(element, value, nodes[current], attr);
        if diff == 0 {
          k := BackToFirst(element, value, current);
          return;
        } else if diff < 0 {
          last := current;
        } else {
          first := current;
        }
      }
      var current := first;
      while current <= last
        invariant first <= current <= last + 1
        invariant Landing(signs) == Scan(signs, current, last)
      {
        if CompareQuery(element, value, nodes[current], attr) == 0 {
          return current;
        }
        current := current + 1;
      }
      k := |nodes|;
    }

    /** Moves back from a match over the matches before it. */
    method BackToFirst(element: Option<seq<Byte>>, value: Option<seq<Byte>>, from: nat) returns (k: nat)
      requires AllIndexable(nodes, attr) && (value.Some? ==> attr.Some?) && from < |nodes|
      ensures k == Back(Signs(nodes, attr, element, value), from)
    {
      k := from;
      while k > 0 && CompareQuery(element, value, nodes[k - 1], attr) == 0
        invariant k <= from
        invariant Back(Signs(nodes, attr, element, value), k) == Back(Signs(nodes, attr, element, value), from)
      {
        k := k - 1;
      }
    }

    /** The next match, starting over when nothing has been returned since the reset; without a query, the next node. */
    method Find(element: Option<seq<Byte>>, value: Option<seq<Byte>>) returns (node: Node?)
      requires AllIndexable(nodes, attr)
      modifies this
      ensures element.None? && value.None? ==>
        if old(cur) < |nodes| then node == nodes[old(cur)] && cur == old(cur) + 1 else node == null && cur == old(cur)
      ensures element.Some? || value.Some? ==>
        if (attr.None? && value.Some?) || nodes == [] then node == null && cur == old(cur)
        else
          var signs := Signs(nodes, attr, element, value);
          var k := if old(cur) == 0 then Landing(signs) else old(cur);
          if k < |nodes| && signs[k] == 0 then node == nodes[k] && cur == k + 1 else node == null && cur == |nodes|
    {
      if attr.None? && value.Some? {
        return null;
      }
      if element.None? && value.None? {
        node := Enum();
        return;
      }
      if |nodes| == 0 {
        return null;
      }
      if cur == 0 {
        LandsOnMatch(Signs(nodes, attr, element, value));
        var k := Search(element, value);
        if k < |nodes| {
          cur := k + 1;
          node := nodes[k];
        } else {
          cur := |nodes|;
          node := null;
        }
      } else if cur < |nodes| && CompareQuery(element, value, nodes[cur], attr) == 0 {
        node := nodes[cur];
        cur := cur + 1;
      } else {
        cur := |nodes|;
        node := null;
      }
    }

    /** Finding again and again after a reset returns the matches from where the search lands, one after the other. */
    method FindAll(element: Option<seq<Byte>>, value: Option<seq<Byte>>) returns (found: seq<Node>)
      requires AllIndexable(nodes, attr) && (element.Some? || value.Some?) && (value.Some? ==> attr.Some?)
      modifies this
      ensures var signs := Signs(nodes, attr, element, value); found == RunOf(nodes, signs, Landing(signs))
      ensures nodes != [] ==> cur == |nodes|
    {
      hide Landing, RunOf, Signs, CompareQuery, AllIndexable;
      ghost var signs := Signs(nodes, attr, element, value);
      ghost var all := RunOf(nodes, signs, Landing(signs));
      found := [];
      var node := Reset();
      RunStep(nodes, signs, Landing(signs));
      node := Find(element, value);
      while node != null
        invariant node != null ==> 0 < cur <= |nodes|
        invariant node == null && nodes != [] ==> cur == |nodes|
        invariant all == found + if node == null then [] else [node] + RunOf(nodes, signs, cur)
        decreases node != null, |nodes| - cur
      {
        var hit: Node := node;
        Assoc(found, [hit], RunOf(nodes, signs, cur));
        found := found + [hit];
        RunStep(nodes, signs, cur);
        node := Find(element, value);
      }
    }

    /** With an element named, those are all the nodes with the name, and the value if there is one, in index order. */
    method FindAllNamed(element: seq<Byte>, value: Option<seq<Byte>>) returns (found: seq<Node>)
      requires Sorted(nodes, attr) && (value.Some? ==> attr.Some?)
      modifies this
      ensures found == Wanted(nodes, attr, element, value, 0)
      ensures nodes != [] ==> cur == |nodes|
    {
      ghost var signs := Signs(nodes, attr, Some(element), value);
      SignsFall(nodes, attr, Some(element), value);
      FallingIsComplete(signs);
      RunIsAll(nodes, signs);
      WantedIsMatching(nodes, attr, element, value, 0);
      found := FindAll(Some(element), value);
    }
  }

  /** The nodes from place i on that have the name, and the attribute value if one is asked for. */
  ghost function Wanted(nodes: seq<Node>, attr: Option<seq<Byte>>, element: seq<Byte>, value: Option<seq<Byte>>,
      i: nat): seq<Node>
    requires AllIndexable(nodes, attr) && (value.Some? ==> attr.Some?) && i <= |nodes|
    decreases |nodes| - i
  {
    if i == |nodes| then []
    else
      assert Indexable(nodes[i], attr);
      (if Name(nodes[i]) == element && (value.Some? ==> AttrValue(nodes[i], attr.value) == value.value) then [nodes[i]]
       else []) + Wanted(nodes, attr, element, value, i + 1)
  }

  /** A query compares as equal exactly with the nodes that have its name and its value. */
  lemma QueryIsZero(element: Option<seq<Byte>>, value: Option<seq<Byte>>, n: Node, attr: Option<seq<Byte>>)
    requires Indexable(n, attr) && (value.Some? ==> attr.Some?)
    ensures CompareQuery(element, value, n, attr) == 0 <==>
      && (element.Some? ==> Name(n) == element.value)
      && (value.Some? ==> AttrValue(n, attr.value) == value.value)
  {
    if element.Some? {
      CompareZero(element.value, Name(n));
    }
    if value.Some? {
      CompareZero(value.value, AttrValue(n, attr.value));
    }
  }

  lemma {:induction false} WantedIsMatching(nodes: seq<Node>, attr: Option<seq<Byte>>, element: seq<Byte>,
      value: Option<seq<Byte>>, i: nat)
    requires AllIndexable(nodes, attr) && (value.Some? ==> attr.Some?) && i <= |nodes|
    ensures Wanted(nodes, attr, element, value, i) == Matching(nodes, Signs(nodes, attr, Some(element), value), i)
    decreases |nodes| - i
  {
    hide CompareQuery, Signs, Name, AttrValue;
    if i < |nodes| {
      assert Indexable(nodes[i], attr);
      QueryIsZero(Some(element), value, nodes[i], attr);
      WantedIsMatching(nodes, attr, element, value, i + 1);
    }
  }

  /** The matching nodes from place i on. */
  ghost function Matching(nodes: seq<Node>, signs: seq<int>, i: nat): seq<Node>
    requires |signs| == |nodes| && i <= |nodes|
    decreases |nodes| - i
  {
    if i == |nodes| then [] else (if signs[i] == 0 then [nodes[i]] else []) + Matching(nodes, signs, i + 1)
  }

  // ---------------------------------------------------------------- when every match is found

  ghost predicate ZeroBetween(signs: seq<int>, i: nat, j: nat) {
    forall l | i <= l <= j && l < |signs| :: signs[l] == 0
  }

  /** Every match is on the run that the search lands on. */
  ghost predicate Complete(signs: seq<int>) {
    forall i | 0 <= i < |signs| && signs[i] == 0 :: Landing(signs) <= i && ZeroBetween(signs, Landing(signs), i)
  }

  lemma {:induction false} BackIs(signs: seq<int>, k: nat)
    requires k < |signs| && signs[k] == 0
    ensures var j := Back(signs, k); ZeroBetween(signs, j, k) && (j > 0 ==> signs[j - 1] != 0)
  {
    if k > 0 && signs[k - 1] == 0 {
      BackIs(signs, k - 1);
    }
  }

  lemma {:induction false} ScanIs(signs: seq<int>, i: nat, last: nat)
    requires i <= last + 1 <= |signs|
    ensures var k := Scan(signs, i, last);
      (k < |signs| ==> signs[k] == 0) && forall l | i <= l < k && l <= last :: signs[l] != 0
    decreases last + 1 - i
  {
    if i <= last {
      ScanIs(signs, i + 1, last);
    }
  }

  lemma {:induction false} ProbeIsMatch(signs: seq<int>, first: nat, last: nat)
    requires first <= last < |signs|
    ensures var k := Probe(signs, first, last); k < |signs| ==> signs[k] == 0
    decreases last - first
  {
    if last - first <= 1 {
      ScanIs(signs, first, last);
    } else {
      var c := (first + last) / 2;
      if signs[c] == 0 {
        BackIs(signs, c);
      } else if signs[c] < 0 {
        ProbeIsMatch(signs, first, c);
      } else {
        ProbeIsMatch(signs, c, last);
      }
    }
  }

  lemma LandsOnMatch(signs: seq<int>)
    ensures Landing(signs) < |signs| ==> signs[Landing(signs)] == 0
  {
    if signs != [] {
      ProbeIsMatch(signs, 0, |signs| - 1);
    }
  }

  /** The run is all there is when every match is on it. */
  lemma RunIsAll(nodes: seq<Node>, signs: seq<int>)
    requires |signs| == |nodes| && Complete(signs)
    ensures RunOf(nodes, signs, Landing(signs)) == Matching(nodes, signs, 0)
  {
    NoneBefore(nodes, signs, 0, Landing(signs));
    RunGoesOn(nodes, signs, Landing(signs));
  }

  lemma {:induction false} NoneBefore(nodes: seq<Node>, signs: seq<int>, i: nat, k: nat)
    requires |signs| == |nodes| && i <= k <= |nodes| && forall l | i <= l < k :: signs[l] != 0
    ensures Matching(nodes, signs, i) == Matching(nodes, signs, k)
    decreases k - i
  {
    if i < k {
      NoneBefore(nodes, signs, i + 1, k);
    }
  }

  lemma {:induction false} RunGoesOn(nodes: seq<Node>, signs: seq<int>, k: nat)
    requires |signs| == |nodes| && k <= |nodes|
    requires forall i | k <= i < |signs| && signs[i] == 0 :: ZeroBetween(signs, k, i)
    ensures RunOf(nodes, signs, k) == Matching(nodes, signs, k)
    decreases |nodes| - k
  {
    if k < |nodes| {
      if signs[k] == 0 {
        RunGoesOn(nodes, signs, k + 1);
      } else {
        NoneBefore(nodes, signs, k, |nodes|);
      }
    }
  }

  /** Where the comparison falls along the index the search lands on the first match. */
  lemma {:induction false} FallingLands(signs: seq<int>, first: nat, last: nat)
    requires Falling(signs) && first <= last < |signs|
    requires (first == 0 || signs[first] > 0) && (last == |signs| - 1 || signs[last] < 0)
    ensures var k := Probe(signs, first, last); forall i | 0 <= i < k :: signs[i] != 0
    decreases last - first
  {
    if last - first <= 1 {
      ScanIs(signs, first, last);
    } else {
      var c := (first + last) / 2;
      if signs[c] == 0 {
        BackIs(signs, c);
      } else if signs[c] < 0 {
        FallingLands(signs, first, c);
      } else {
        FallingLands(signs, c, last);
      }
    }
  }

  lemma FallingIsComplete(signs: seq<int>)
    requires Falling(signs)
    ensures Complete(signs)
  {
    if signs != [] {
      FallingLands(signs, 0, |signs| - 1);
      LandsOnMatch(signs);
    }
  }
}
