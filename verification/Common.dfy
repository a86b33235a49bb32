/** What several modules share: optional values, and facts about sequences. */
module Common {
  datatype Option<+T> = None | Some(value: T)

  /** No element occurs twice. */
  predicate NoDup<T(==)>(xs: seq<T>) {
    forall i, j | 0 <= i < j < |xs| :: xs[i] != xs[j]
  }

  lemma Assoc<T>(a: seq<T>, b: seq<T>, c: seq<T>)
    ensures (a + b) + c == a + (b + c)
  {
  }

  /** x comes before y. */
  ghost predicate Before<T>(xs: seq<T>, x: T, y: T) {
    exists i, j | 0 <= i < j < |xs| :: xs[i] == x && xs[j] == y
  }

  lemma BeforeConcat<T>(xs: seq<T>, ys: seq<T>, x: T, y: T)
    ensures Before(ys, x, y) ==> Before(xs + ys, x, y)
    ensures x in xs && y in ys ==> Before(xs + ys, x, y)
  {
    var zs := xs + ys;
    if i, j :| 0 <= i < j < |ys| && ys[i] == x && ys[j] == y {
      assert zs[|xs| + i] == x && zs[|xs| + j] == y;
    }
    if x in xs && y in ys {
      var i :| 0 <= i < |xs| && xs[i] == x;
      var j :| 0 <= j < |ys| && ys[j] == y;
      assert zs[i] == x && zs[|xs| + j] == y;
    }
  }
}
