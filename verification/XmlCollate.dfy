/**
The order of the index. Names and values are compared byte by byte, a proper beginning coming
first; for text in UTF-8 that is the order of its characters.
*/
module XmlCollate {
  import opened Common
  import opened Utf8
  import opened XmlIndex

  /** a comes before b: it is a proper beginning, or smaller at the first place where they differ. */
  ghost predicate Less(a: seq<int>, b: seq<int>) {
    exists k | 0 <= k <= |a| :: LessAt(a, b, k)
  }

  predicate LessAt(a: seq<int>, b: seq<int>, k: int)
    requires 0 <= k <= |a|
  {
    k < |b| && a[..k] == b[..k] && (k == |a| || a[k] < b[k])
  }

  /** The same first number makes no difference. */
  lemma LessTail(a: seq<int>, b: seq<int>)
    requires a != [] && b != [] && a[0] == b[0]
    ensures Less(a, b) <==> Less(a[1..], b[1..])
  {
    if k :| 0 <= k <= |a| && LessAt(a, b, k) {
      assert k > 0;
      assert a[1..][..k - 1] == a[..k][1..] && b[1..][..k - 1] == b[..k][1..];
      assert LessAt(a[1..], b[1..], k - 1);
    }
    if k :| 0 <= k <= |a[1..]| && LessAt(a[1..], b[1..], k) {
      assert a[..k + 1] == [a[0]] + a[1..][..k] && b[..k + 1] == [b[0]] + b[1..][..k];
      assert LessAt(a, b, k + 1);
    }
  }

  lemma LessHead(a: seq<int>, b: seq<int>)
    requires a == [] || b == [] || a[0] != b[0]
    ensures Less(a, b) <==> b != [] && (a == [] || a[0] < b[0])
  {
    if b != [] && (a == [] || a[0] < b[0]) {
      assert LessAt(a, b, 0);
    }
    if Less(a, b) {
      LessFirst(a, b);
    }
  }

  lemma LessFirst(a: seq<int>, b: seq<int>)
    requires Less(a, b)
    ensures b != [] && (a != [] ==> a[0] <= b[0])
  {
    var k :| 0 <= k <= |a| && LessAt(a, b, k);
    if k > 0 {
      assert a[..k][0] == b[..k][0];
    }
  }

  /** The comparison is negative exactly if the first comes before the second, and positive the other way round. */
  lemma {:induction false} CompareIsLess(a: seq<Byte>, b: seq<Byte>)
    ensures Compare(a, b) < 0 <==> Less(a, b)
    ensures Compare(a, b) > 0 <==> Less(b, a)
  {
    if a != [] && b != [] && a[0] == b[0] {
      CompareIsLess(a[1..], b[1..]);
      LessTail(a, b);
      LessTail(b, a);
    } else {
      LessHead(a, b);
      LessHead(b, a);
    }
  }

  // ---------------------------------------------------------------- characters

  /** a begins with something that differs from what b begins with, and is smaller. */
  ghost predicate FirstLess(a: seq<Byte>, b: seq<Byte>) {
    exists k :: 0 <= k < |a| && k < |b| && a[..k] == b[..k] && a[k] < b[k]
  }

  lemma {:induction false} FirstLessCompares(a: seq<Byte>, b: seq<Byte>, x: seq<Byte>, y: seq<Byte>)
    requires FirstLess(a, b)
    ensures Compare(a + x, b + y) == -1
  {
    var k :| 0 <= k < |a| && k < |b| && a[..k] == b[..k] && a[k] < b[k];
    CommonFront(a + x, b + y, k);
  }

  lemma {:induction false} CommonFront(a: seq<Byte>, b: seq<Byte>, k: nat)
    requires k < |a| && k < |b| && a[..k] == b[..k] && a[k] < b[k]
    ensures Compare(a, b) == -1
  {
    if k > 0 {
      assert a[..k][0] == b[..k][0];
      assert a[1..][..k - 1] == a[..k][1..] && b[1..][..k - 1] == b[..k][1..];
      CommonFront(a[1..], b[1..], k - 1);
    }
  }

  lemma Differ(a: seq<Byte>, b: seq<Byte>, k: nat)
    requires k < |a| && k < |b| && a[..k] == b[..k] && a[k] < b[k]
    ensures FirstLess(a, b)
  {
  }

  lemma Divisions(c: nat)
    ensures c / 4096 == c / 64 / 64 && c / 262144 == c / 64 / 64 / 64
  {
  }

  lemma Lower(c: nat, d: nat)
    requires c <= d
    ensures c / 64 <= d / 64 && (c / 64 == d / 64 ==> c % 64 <= d % 64 && (c < d ==> c % 64 < d % 64))
  {
  }

  /** The last two digits in base 64 are the same before the last, or smaller. */
  lemma SmallerTwo(c: nat, d: nat)
    requires 0x80 <= c < d < 0x800
    ensures FirstLess(Encode(c), Encode(d))
  {
    Lower(c, d);
    Differ(Encode(c), Encode(d), if c / 64 < d / 64 then 0 else 1);
  }

  lemma SmallerThree(c: nat, d: nat)
    requires 0x800 <= c < d < 0x10000
    ensures FirstLess(Encode(c), Encode(d))
  {
    Divisions(c);
    Divisions(d);
    Lower(c, d);
    Lower(c / 64, d / 64);
    var a, b := Encode(c), Encode(d);
    var k := if c / 4096 < d / 4096 then 0 else if c / 64 < d / 64 then 1 else 2;
    assert a[..k] == b[..k];
    Differ(a, b, k);
  }

  lemma FourDigits(c: nat)
    requires 0x10000 <= c < 0x200000
    ensures var b := c / 64;
      Encode(c) == [0xf0 + b / 64 / 64, 0x80 + b / 64 % 64, 0x80 + b % 64, 0x80 + c % 64]
  {
    Divisions(c);
    assert c / 262144 % 16 == c / 262144;
  }

  lemma SmallerFour(c: nat, d: nat)
    requires 0x10000 <= c < d < 0x200000
    ensures FirstLess(Encode(c), Encode(d))
  {
    FourDigits(c);
    FourDigits(d);
    Lower(c, d);
    Lower(c / 64, d / 64);
    Lower(c / 64 / 64, d / 64 / 64);
    hide Encode, FirstLess;
    var a, b := Encode(c), Encode(d);
    var k := if c / 64 / 64 / 64 < d / 64 / 64 / 64 then 0 else if c / 64 / 64 < d / 64 / 64 then 1
      else if c / 64 < d / 64 then 2 else 3;
    assert a[..k] == b[..k];
    Differ(a, b, k);
  }

  /** The encoding of a smaller character is smaller at the first byte where the two differ. */
  lemma SmallerEncodes(c: nat, d: nat)
    requires c < d < 0x200000
    ensures FirstLess(Encode(c), Encode(d))
  {
    if d < 0x80 || |Encode(c)| < |Encode(d)| {
      LongerIsGreater(c, d);
      Differ(Encode(c), Encode(d), 0);
    } else if d < 0x800 {
      SmallerTwo(c, d);
    } else if d < 0x10000 {
      SmallerThree(c, d);
    } else {
      SmallerFour(c, d);
    }
  }

  lemma LongerIsGreater(c: nat, d: nat)
    requires c < d < 0x200000 && (d < 0x80 || |Encode(c)| < |Encode(d)|)
    ensures Encode(c)[0] < Encode(d)[0]
  {
  }

  /** Texts in UTF-8 are in the order of their characters. */
  lemma {:induction false} CollatesByCharacter(cs: seq<nat>, ds: seq<nat>)
    requires (forall c | c in cs :: Allowed(c)) && (forall d | d in ds :: Allowed(d))
    ensures Compare(EncodeAll(cs), EncodeAll(ds)) < 0 <==> Less(cs, ds)
    ensures Compare(EncodeAll(cs), EncodeAll(ds)) > 0 <==> Less(ds, cs)
    decreases |cs|
  {
    hide Encode, Compare;
    if cs == [] || ds == [] {
      LessHead(cs, ds);
      LessHead(ds, cs);
      EmptyCompares(EncodeAll(cs), EncodeAll(ds));
      assert cs != [] ==> EncodeAll(cs) != [];
      assert ds != [] ==> EncodeAll(ds) != [];
    } else {
      var c, d := cs[0], ds[0];
      assert c in cs && d in ds;
      if c == d {
        LessTail(cs, ds);
        LessTail(ds, cs);
        SameFront(Encode(c), EncodeAll(cs[1..]), EncodeAll(ds[1..]));
        CollatesByCharacter(cs[1..], ds[1..]);
      } else {
        LessHead(cs, ds);
        LessHead(ds, cs);
        CompareTwice(EncodeAll(cs), EncodeAll(ds));
        if c < d {
          SmallerEncodes(c, d);
          FirstLessCompares(Encode(c), Encode(d), EncodeAll(cs[1..]), EncodeAll(ds[1..]));
        } else {
          SmallerEncodes(d, c);
          FirstLessCompares(Encode(d), Encode(c), EncodeAll(ds[1..]), EncodeAll(cs[1..]));
        }
      }
    }
  }

  lemma EmptyCompares(a: seq<Byte>, b: seq<Byte>)
    requires a == [] || b == []
    ensures Compare(a, b) < 0 <==> a == [] && b != []
    ensures Compare(a, b) > 0 <==> b == [] && a != []
  {
  }

  lemma {:induction false} SameFront(a: seq<Byte>, x: seq<Byte>, y: seq<Byte>)
    ensures Compare(a + x, a + y) == Compare(x, y)
  {
    if a == [] {
      assert a + x == x && a + y == y;
    } else {
      SameFront(a[1..], x, y);
      assert (a + x)[1..] == a[1..] + x && (a + y)[1..] == a[1..] + y;
    }
  }
}
