/**
Finds that give an attribute value and no element. The index is sorted by name first, so its
values may rise and fall along it, and the binary search is not justified. It finds every match,
whatever the value, exactly if the values never fall along the index or there are at most two.
*/
module XmlIndexValue {
  import opened Common
  import opened XmlShape
  import opened XmlAttr
  import opened XmlIndex

  /** How a value compares with each of those along the index. */
  ghost function ValueSigns(q: seq<Byte>, vals: seq<seq<Byte>>): (signs: seq<int>)
    ensures |signs| == |vals| && forall i | 0 <= i < |vals| :: signs[i] == Compare(q, vals[i])
  {
    seq(|vals|, i requires 0 <= i < |vals| => Compare(q, vals[i]))
  }

  /** Whatever value is asked for, every node with it is found. */
  ghost predicate AllFound(vals: seq<seq<Byte>>) {
    forall q :: Complete(ValueSigns(q, vals))
  }

  predicate AtMost(a: seq<Byte>, b: seq<Byte>) {
    Compare(a, b) <= 0
  }

  ghost predicate Rising(vals: seq<seq<Byte>>, first: nat, last: nat)
    requires last < |vals|
  {
    forall x, y | first <= x <= y <= last :: AtMost(vals[x], vals[y])
  }

  ghost predicate NeverFall(vals: seq<seq<Byte>>) {
    forall x, y | 0 <= x <= y < |vals| :: AtMost(vals[x], vals[y])
  }

  lemma Chain(a: seq<Byte>, b: seq<Byte>, c: seq<Byte>)
    requires AtMost(a, b) && AtMost(b, c)
    ensures AtMost(a, c)
  {
    CompareFalls(a, b, c);
  }

  // ---------------------------------------------------------------- the search stays on its side

  lemma {:induction false} BackStops(signs: seq<int>, k: nat, stop: nat)
    requires stop < k < |signs| && signs[stop] != 0
    ensures Back(signs, k) > stop
  {
    if k > 0 && signs[k - 1] == 0 {
      BackStops(signs, k - 1, stop);
    }
  }

  lemma {:induction false} StaysRight(signs: seq<int>, first: nat, last: nat)
    requires first <= last < |signs| && signs[first] != 0
    ensures Probe(signs, first, last) > first
    decreases last - first
  {
    ProbeIsMatch(signs, first, last);
    if last - first <= 1 {
      ScanIs(signs, first, last);
    } else {
      var c := (first + last) / 2;
      if signs[c] == 0 {
        BackStops(signs, c, first);
      } else if signs[c] < 0 {
        StaysRight(signs, first, c);
      } else {
        StaysRight(signs, c, last);
      }
    }
  }

  lemma {:induction false} StaysLeft(signs: seq<int>, first: nat, last: nat)
    requires first <= last < |signs| && signs[last] != 0
    ensures var k := Probe(signs, first, last); k == |signs| || k < last
    decreases last - first
  {
    ProbeIsMatch(signs, first, last);
    if last - first > 1 {
      var c := (first + last) / 2;
      if signs[c] < 0 {
        StaysLeft(signs, first, c);
      } else if signs[c] > 0 {
        StaysLeft(signs, c, last);
      }
    }
  }

  /** Equal values stand together when every match is found. */
  lemma Together(vals: seq<seq<Byte>>, x: nat, z: nat, y: nat)
    requires AllFound(vals) && x <= z <= y < |vals| && vals[x] == vals[y]
    ensures vals[z] == vals[x]
  {
    var signs := ValueSigns(vals[x], vals);
    assert Complete(signs);
    CompareZero(vals[x], vals[x]);
    assert signs[x] == 0 && signs[y] == 0;
    assert ZeroBetween(signs, Landing(signs), y);
    CompareZero(vals[x], vals[z]);
  }

  // ---------------------------------------------------------------- only rising values are all found

  /** The values that the search looks for between two places. */
  predicate Between(q: seq<Byte>, vals: seq<seq<Byte>>, first: nat, last: nat)
    requires first <= last < |vals|
  {
    (first == 0 || Compare(q, vals[first]) > 0) && (last == |vals| - 1 || Compare(q, vals[last]) < 0)
  }

  ghost predicate Reached(vals: seq<seq<Byte>>, first: nat, last: nat)
    requires first <= last < |vals|
  {
    forall q | Between(q, vals, first, last) ::
      Landing(ValueSigns(q, vals)) == Probe(ValueSigns(q, vals), first, last)
  }

  /** The values between two places are between the values there, at those places that have been probed. */
  ghost predicate Framed(vals: seq<seq<Byte>>, first: nat, last: nat)
    requires first <= last < |vals|
  {
    && (first > 0 ==> forall x | first <= x <= last :: AtMost(vals[first], vals[x]))
    && (last < |vals| - 1 ==> forall x | first <= x <= last :: AtMost(vals[x], vals[last]))
  }

  /** A value between the frame's, but not equal to one of them, is looked for here. */
  lemma InFrame(vals: seq<seq<Byte>>, first: nat, last: nat, x: nat)
    requires first <= x <= last < |vals| && Framed(vals, first, last)
    requires first > 0 ==> vals[x] != vals[first]
    requires last < |vals| - 1 ==> vals[x] != vals[last]
    ensures Between(vals[x], vals, first, last)
  {
    CompareTwice(vals[x], vals[first]);
    CompareZero(vals[x], vals[first]);
    CompareZero(vals[x], vals[last]);
    assert first > 0 ==> AtMost(vals[first], vals[x]);
    assert last < |vals| - 1 ==> AtMost(vals[x], vals[last]);
  }

  /** A search that goes right of the middle misses what is on its left. */
  lemma RightMisses(vals: seq<seq<Byte>>, first: nat, last: nat, c: nat, x: nat)
    requires first <= x < c < last < |vals| && c == (first + last) / 2 && Compare(vals[x], vals[c]) > 0
    requires Between(vals[x], vals, first, last) && Reached(vals, first, last)
    ensures !Complete(ValueSigns(vals[x], vals))
  {
    var signs := ValueSigns(vals[x], vals);
    CompareZero(vals[x], vals[x]);
    assert Landing(signs) == Probe(signs, first, last);
    StaysRight(signs, c, last);
    assert signs[x] == 0 && Landing(signs) > x;
  }

  /** A search that goes left of the middle misses what is on its right. */
  lemma LeftMisses(vals: seq<seq<Byte>>, first: nat, last: nat, c: nat, x: nat)
    requires first < c < x <= last < |vals| && c == (first + last) / 2 && Compare(vals[x], vals[c]) < 0
    requires Between(vals[x], vals, first, last) && Reached(vals, first, last)
    ensures !Complete(ValueSigns(vals[x], vals))
  {
    var signs := ValueSigns(vals[x], vals);
    CompareZero(vals[x], vals[x]);
    assert Landing(signs) == Probe(signs, first, last);
    StaysLeft(signs, first, c);
    assert signs[x] == 0 && (Landing(signs) > x || !ZeroBetween(signs, Landing(signs), x)) by {
      assert signs[c] != 0;
    }
  }

  /** No value on the left of the middle is greater than the middle's. */
  lemma LeftAtMost(vals: seq<seq<Byte>>, first: nat, last: nat, c: nat, x: nat)
    requires AllFound(vals) && first <= x < c < last < |vals| && c == (first + last) / 2
    requires Framed(vals, first, last) && Reached(vals, first, last)
    ensures AtMost(vals[x], vals[c])
  {
    var q := vals[x];
    CompareTwice(q, vals[c]);
    CompareZero(q, vals[c]);
    assert first > 0 ==> AtMost(vals[first], vals[c]);
    if last < |vals| - 1 && q == vals[last] {
      Together(vals, x, c, last);
    } else if (first == 0 || q != vals[first]) && !AtMost(q, vals[c]) {
      InFrame(vals, first, last, x);
      RightMisses(vals, first, last, c, x);
      assert false;
    }
  }

  /** No value on the right of the middle is smaller than the middle's. */
  lemma RightAtLeast(vals: seq<seq<Byte>>, first: nat, last: nat, c: nat, x: nat)
    requires AllFound(vals) && first < c < x <= last < |vals| && c == (first + last) / 2
    requires Framed(vals, first, last) && Reached(vals, first, last)
    ensures AtMost(vals[c], vals[x])
  {
    var q := vals[x];
    CompareTwice(vals[c], q);
    CompareZero(q, vals[c]);
    assert last < |vals| - 1 ==> AtMost(vals[c], vals[last]);
    if first > 0 && q == vals[first] {
      Together(vals, first, c, x);
    } else if (last == |vals| - 1 || q != vals[last]) && !AtMost(vals[c], q) {
      InFrame(vals, first, last, x);
      LeftMisses(vals, first, last, c, x);
      assert false;
    }
  }

  lemma LeftHalf(vals: seq<seq<Byte>>, first: nat, last: nat, c: nat)
    requires first < c < last < |vals| && c == (first + last) / 2
    requires Framed(vals, first, last) && Reached(vals, first, last)
    requires forall x | first <= x <= c :: AtMost(vals[x], vals[c])
    requires forall x | c <= x <= last :: AtMost(vals[c], vals[x])
    ensures Framed(vals, first, c) && Reached(vals, first, c)
  {
    forall q | Between(q, vals, first, c)
      ensures Landing(ValueSigns(q, vals)) == Probe(ValueSigns(q, vals), first, c)
    {
      CompareFalls(q, vals[c], vals[last]);
      assert Between(q, vals, first, last);
    }
  }

  lemma RightHalf(vals: seq<seq<Byte>>, first: nat, last: nat, c: nat)
    requires first < c < last < |vals| && c == (first + last) / 2
    requires Framed(vals, first, last) && Reached(vals, first, last)
    requires forall x | first <= x <= c :: AtMost(vals[x], vals[c])
    requires forall x | c <= x <= last :: AtMost(vals[c], vals[x])
    ensures Framed(vals, c, last) && Reached(vals, c, last)
  {
    forall q | Between(q, vals, c, last)
      ensures Landing(ValueSigns(q, vals)) == Probe(ValueSigns(q, vals), c, last)
    {
      CompareFalls(q, vals[first], vals[c]);
      assert Between(q, vals, first, last);
    }
  }

  lemma {:induction false} FoundIsRising(vals: seq<seq<Byte>>, first: nat, last: nat)
    requires AllFound(vals) && first < last < |vals| && (first > 0 || last < |vals| - 1 || last - first > 1)
    requires Framed(vals, first, last) && Reached(vals, first, last)
    ensures Rising(vals, first, last)
    decreases last - first
  {
    if last - first > 1 {
      var c := (first + last) / 2;
      CompareZero(vals[c], vals[c]);
      forall x | first <= x <= c ensures AtMost(vals[x], vals[c]) {
        if x < c {
          LeftAtMost(vals, first, last, c, x);
        }
      }
      forall x | c <= x <= last ensures AtMost(vals[c], vals[x]) {
        if c < x {
          RightAtLeast(vals, first, last, c, x);
        }
      }
      LeftHalf(vals, first, last, c);
      RightHalf(vals, first, last, c);
      FoundIsRising(vals, first, c);
      FoundIsRising(vals, c, last);
      forall x, y | first <= x <= y <= last ensures AtMost(vals[x], vals[y]) {
        if x <= c <= y {
          Chain(vals[x], vals[c], vals[y]);
        }
      }
    } else {
      CompareZero(vals[first], vals[first]);
      CompareZero(vals[last], vals[last]);
    }
  }

  // ---------------------------------------------------------------- the exact condition

  lemma RisingIsFound(vals: seq<seq<Byte>>)
    requires NeverFall(vals)
    ensures AllFound(vals)
  {
    forall q ensures Complete(ValueSigns(q, vals)) {
      forall i, j | 0 <= i <= j < |vals| ensures Compare(q, vals[j]) <= Compare(q, vals[i]) {
        assert AtMost(vals[i], vals[j]);
        CompareFalls(q, vals[i], vals[j]);
      }
      FallingIsComplete(ValueSigns(q, vals));
    }
  }

  lemma FewAreFound(signs: seq<int>)
    requires |signs| <= 2
    ensures Complete(signs)
  {
    if signs != [] {
      ScanIs(signs, 0, |signs| - 1);
    }
  }

  /** All matches are found for every value exactly if there are at most two nodes or the values never fall. */
  lemma FoundExactly(vals: seq<seq<Byte>>)
    ensures AllFound(vals) <==> |vals| <= 2 || NeverFall(vals)
  {
    if |vals| <= 2 {
      forall q ensures Complete(ValueSigns(q, vals)) {
        FewAreFound(ValueSigns(q, vals));
      }
    } else {
      if NeverFall(vals) {
        RisingIsFound(vals);
      }
      if AllFound(vals) {
        FoundIsRising(vals, 0, |vals| - 1);
      }
    }
  }

  // ---------------------------------------------------------------- for an index

  function Values(nodes: seq<Node>, attr: seq<Byte>): (vals: seq<seq<Byte>>)
    requires AllIndexable(nodes, Some(attr))
    ensures |vals| == |nodes|
    ensures forall i | 0 <= i < |nodes| :: Indexable(nodes[i], Some(attr)) && vals[i] == AttrValue(nodes[i], attr)
  {
    seq(|nodes|, i requires 0 <= i < |nodes| => assert Indexable(nodes[i], Some(attr)); AttrValue(nodes[i], attr))
  }

  lemma SignsAreValueSigns(nodes: seq<Node>, attr: seq<Byte>, q: seq<Byte>)
    requires AllIndexable(nodes, Some(attr))
    ensures Signs(nodes, Some(attr), None, Some(q)) == ValueSigns(q, Values(nodes, attr))
  {
  }

  /** A reset and repeated finds with the value alone return the nodes that have it, in the order of the index. */
  ghost predicate FindsAll(nodes: seq<Node>, attr: seq<Byte>, q: seq<Byte>)
    requires AllIndexable(nodes, Some(attr))
  {
    var signs := Signs(nodes, Some(attr), None, Some(q));
    RunOf(nodes, signs, Landing(signs)) == Matching(nodes, signs, 0)
  }

  lemma {:induction false} RunLength(nodes: seq<Node>, signs: seq<int>, k: nat)
    requires |signs| == |nodes| && k <= |nodes|
    ensures var n := |RunOf(nodes, signs, k)|;
      k + n <= |nodes| && (forall i | k <= i < k + n :: signs[i] == 0) && (k + n < |nodes| ==> signs[k + n] != 0)
    decreases |nodes| - k
  {
    if k < |nodes| && signs[k] == 0 {
      RunLength(nodes, signs, k + 1);
    }
  }

  lemma {:induction false} MatchingCounts(nodes: seq<Node>, signs: seq<int>, i: nat, a: nat, b: nat)
    requires |signs| == |nodes| && i <= a <= b <= |nodes| && forall l | a <= l < b :: signs[l] == 0
    ensures |Matching(nodes, signs, i)| >= b - a
    decreases |nodes| - i
  {
    if i < a {
      MatchingCounts(nodes, signs, i + 1, a, b);
    } else if i < b {
      MatchingCounts(nodes, signs, i + 1, i + 1, b);
    }
  }

  /** A match at place x outside the places from a to b - 1 counts beside those. */
  lemma {:induction false} MatchingCountsOneMore(nodes: seq<Node>, signs: seq<int>, i: nat, a: nat, b: nat, x: nat)
    requires |signs| == |nodes| && i <= a <= b <= |nodes| && forall l | a <= l < b :: signs[l] == 0
    requires i <= x < |nodes| && signs[x] == 0 && !(a <= x < b)
    ensures |Matching(nodes, signs, i)| > b - a
    decreases |nodes| - i
  {
    if i == x {
      MatchingCounts(nodes, signs, i + 1, if a == i then i + 1 else a, if b == i then i + 1 else b);
    } else if i < a {
      MatchingCountsOneMore(nodes, signs, i + 1, a, b, x);
    } else if i < b {
      MatchingCountsOneMore(nodes, signs, i + 1, i + 1, b, x);
    } else {
      MatchingCountsOneMore(nodes, signs, i + 1, i + 1, i + 1, x);
    }
  }

  lemma CompleteExactly(nodes: seq<Node>, signs: seq<int>)
    requires |signs| == |nodes|
    ensures RunOf(nodes, signs, Landing(signs)) == Matching(nodes, signs, 0) <==> Complete(signs)
  {
    if Complete(signs) {
      RunIsAll(nodes, signs);
    } else {
      var k := Landing(signs);
      RunLength(nodes, signs, k);
      var n := |RunOf(nodes, signs, k)|;
      var i :| 0 <= i < |signs| && signs[i] == 0 && !(k <= i && ZeroBetween(signs, k, i));
      assert !(k <= i < k + n);
      MatchingCountsOneMore(nodes, signs, 0, k, k + n, i);
    }
  }

  /**
  A value without an element: all nodes that have it are found, whatever the value, exactly if the
  index has at most two nodes or the attribute's values never fall along it.
  */
  lemma ValueAloneExactly(nodes: seq<Node>, attr: seq<Byte>)
    requires AllIndexable(nodes, Some(attr))
    ensures (forall q :: FindsAll(nodes, attr, q)) <==> |nodes| <= 2 || NeverFall(Values(nodes, attr))
  {
    var vals := Values(nodes, attr);
    forall q ensures FindsAll(nodes, attr, q) <==> Complete(ValueSigns(q, vals)) {
      SignsAreValueSigns(nodes, attr, q);
      CompleteExactly(nodes, ValueSigns(q, vals));
    }
    FoundExactly(vals);
  }

  /** A find of b among the values b, a and c goes right of the middle and finds nothing. */
  lemma BacIsMissed()
    ensures var signs := ValueSigns([0x62], [[0x62], [0x61], [0x63]]);
      signs == [0, 1, -1] && Landing(signs) == 3
  {
    assert Compare([0x62], [0x62]) == Compare([], []) == 0;
    assert Compare([0x62], [0x61]) == 1 && Compare([0x62], [0x63]) == -1;
    var signs := ValueSigns([0x62], [[0x62], [0x61], [0x63]]);
    assert signs == [0, 1, -1];
    assert Probe(signs, 1, 2) == Scan(signs, 1, 2) == Scan(signs, 2, 2) == Scan(signs, 3, 2) == 3;
    assert Landing(signs) == Probe(signs, 0, 2) == 3;
  }

  lemma HasValue(n: Node, attr: seq<Byte>, value: seq<Byte>)
    requires n.value.Element? && n.value.attrs == [Attr(attr, Some(value))]
    ensures Indexable(n, Some(attr)) && AttrValue(n, attr) == value
  {
  }

  /** Three nodes m, n and n with the values b, a and c, in the order of the index: a find of b returns nothing. */
  lemma ValueAloneMisses(x: Node, y: Node, z: Node, attr: seq<Byte>)
    requires x.value == Element([0x6d], [Attr(attr, Some([0x62]))])
    requires y.value == Element([0x6e], [Attr(attr, Some([0x61]))])
    requires z.value == Element([0x6e], [Attr(attr, Some([0x63]))])
    ensures Sorted([x, y, z], Some(attr)) && !FindsAll([x, y, z], attr, [0x62])
    ensures var signs := Signs([x, y, z], Some(attr), None, Some([0x62]));
      signs == [0, 1, -1] && RunOf([x, y, z], signs, Landing(signs)) == []
  {
    var nodes := [x, y, z];
    HasValue(x, attr, [0x62]);
    HasValue(y, attr, [0x61]);
    HasValue(z, attr, [0x63]);
    assert Sorted(nodes, Some(attr)) by {
      hide AttrOf;
      assert Compare([0x6d], [0x6e]) == -1 && Compare([0x6e], [0x6e]) == Compare([], []) == 0;
      assert Compare([0x61], [0x63]) == -1;
    }
    assert Values(nodes, attr) == [[0x62], [0x61], [0x63]];
    SignsAreValueSigns(nodes, attr, [0x62]);
    BacIsMissed();
    hide Landing, CompareQuery;
    assert Matching(nodes, [0, 1, -1], 0) == [x] + Matching(nodes, [0, 1, -1], 1);
  }
}
