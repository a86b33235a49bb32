/**
The growable pointer array, here holding archive files, with insertion that keeps it sorted.
*/
module ArrayList {
  /** A slot of the array: empty, or the number in an archive file's name. */
  datatype Slot = Null | File(index: int)

  /** The comparison the archive list is sorted with. */
  function Compare(a: Slot, b: Slot): int {
    if a.File? && b.File? && a.index > b.index then 1 else 0
  }

  const DEFAULT_SIZE := 32

  /** The place of the first element greater than f. */
  function PlaceFor(s: seq<Slot>, f: Slot): (i: nat)
    ensures i <= |s| && (forall j | 0 <= j < i :: Compare(s[j], f) == 0) && (i < |s| ==> Compare(s[i], f) > 0)
  {
    if s == [] || Compare(s[0], f) > 0 then 0 else PlaceFor(s[1..], f) + 1
  }

  function Inserted(s: seq<Slot>, i: nat, f: Slot): seq<Slot>
    requires i <= |s|
  {
    s[..i] + [f] + s[i..]
  }

  predicate Filled(s: seq<Slot>) {
    forall i | 0 <= i < |s| :: s[i].File?
  }

  predicate Sorted(s: seq<Slot>) {
    Filled(s) && forall i, j | 0 <= i < j < |s| :: s[i].index <= s[j].index
  }

  lemma InsertedAt(s: seq<Slot>, i: nat, f: Slot, j: nat)
    requires i <= |s| && j <= |s|
    ensures Inserted(s, i, f)[j] == if j < i then s[j] else if j == i then f else s[j - 1]
  {
  }

  lemma InsertedAll(s: seq<Slot>, i: nat, f: Slot)
    requires i <= |s|
    ensures multiset(Inserted(s, i, f)) == multiset(s) + multiset{f}
  {
    assert s == s[..i] + s[i..];
  }

  /** Inserting at that place keeps the list sorted and adds the element. */
  lemma SortedInsert(s: seq<Slot>, f: Slot)
    requires Sorted(s) && f.File?
    ensures Sorted(Inserted(s, PlaceFor(s, f), f))
    ensures multiset(Inserted(s, PlaceFor(s, f), f)) == multiset(s) + multiset{f}
  {
    var i := PlaceFor(s, f);
    var t := Inserted(s, i, f);
    InsertedAll(s, i, f);
    forall j | 0 <= j < |t| ensures t[j].File? {
      InsertedAt(s, i, f, j);
    }
    forall j, k | 0 <= j < k < |t| ensures t[j].index <= t[k].index {
      InsertedAt(s, i, f, j);
      InsertedAt(s, i, f, k);
    }
  }

  /** From place i on, up to n, the elements stand one place further on than they were. */
  ghost predicate MovedUp(was: seq<Slot>, now: seq<Slot>, i: nat, n: nat)
    requires i <= n < |was| == |now|
  {
    (forall j | 0 <= j <= i :: now[j] == was[j]) && forall j | i < j <= n :: now[j] == was[j - 1]
  }

  lemma MovedIsInserted(was: seq<Slot>, now: seq<Slot>, idx: nat, n: nat, f: Slot)
    requires idx <= n < |was| == |now| && MovedUp(was, now, idx, n)
    ensures now[idx := f][..n + 1] == Inserted(was[..n], idx, f)
  {
    forall j | 0 <= j < n + 1 ensures now[idx := f][..n + 1][j] == Inserted(was[..n], idx, f)[j] {
      InsertedAt(was[..n], idx, f, j);
    }
  }

  class List {
    var data: array<Slot>
    var len: nat

    ghost predicate Valid()
      reads this, data
    {
      len <= data.Length && data.Length > 0
    }

    ghost function Contents(): seq<Slot>
      requires Valid()
      reads this, data
    {
      data[..len]
    }

    constructor ()
      ensures Valid() && fresh(data) && Contents() == []
    {
      data := new Slot[DEFAULT_SIZE](_ => Null);
      len := 0;
    }

    method Expand(max: nat)
      requires Valid()
      modifies `data
      ensures Valid() && fresh(data) && data.Length > old(data.Length) && Contents() == old(Contents())
      ensures data.Length == if 2 * old(data.Length) > max then 2 * old(data.Length) else max
    {
      var size := if data.Length * 2 > max then data.Length * 2 else max;
      var bigger := new Slot[size](_ => Null);
      var i := 0;
      while i < data.Length
        invariant i <= data.Length && data == old(data) && bigger[..i] == data[..i]
      {
        bigger[i] := data[i];
        i := i + 1;
      }
      assert bigger[..len] == bigger[..i][..len];
      data := bigger;
    }

    method Add(f: Slot)
      requires Valid()
      modifies this, data
      ensures Valid() && (data == old(data) || fresh(data)) && Contents() == old(Contents()) + [f]
    {
      if len > data.Length - 1 {
        Expand(len);
      }
      data[len] := f;
      len := len + 1;
    }

    /** Shifts the elements from place idx on by one, and puts f there. */
    method Shift(idx: nat, f: Slot)
      requires Valid() && idx < len < data.Length
      modifies `len, data
      ensures Valid() && Contents() == Inserted(old(Contents()), idx, f)
    {
      ghost var was := data[..];
      var i := len;
      while i > idx
        invariant len == old(len) && data == old(data) && idx <= i <= len < data.Length == |was|
        invariant MovedUp(was, data[..], i, len)
      {
        data[i] := data[i - 1];
        i := i - 1;
      }
      MovedIsInserted(was, data[..], idx, len, f);
      data[idx] := f;
      len := len + 1;
    }

    /** Puts f into the slot at a place before the end if that is empty, and otherwise in front of it. */
    method Insert(idx: nat, f: Slot)
      requires Valid() && idx < len
      modifies this, data
      ensures Valid() && (data == old(data) || fresh(data))
      ensures Contents() == if old(Contents()[idx]).Null? then old(Contents())[idx := f]
        else Inserted(old(Contents()), idx, f)
    {
      if data[idx].Null? {
        data[idx] := f;
        return;
      }
      if len > data.Length - 1 {
        Expand(0);
      }
      Shift(idx, f);
    }

    /** Adds f before the first element that is greater. */
    method SortAdd(f: Slot)
      requires Valid() && Filled(Contents()) && f.File?
      modifies this, data
      ensures Valid() && (data == old(data) || fresh(data))
      ensures Contents() == Inserted(old(Contents()), PlaceFor(old(Contents()), f), f)
    {
      ghost var was := Contents();
      var i := 0;
      while i < len && Compare(data[i], f) <= 0
        invariant i <= len && forall j | 0 <= j < i :: Compare(was[j], f) == 0
      {
        i := i + 1;
      }
      assert i == PlaceFor(was, f);
      if i == len {
        Add(f);
        assert Inserted(was, i, f) == was + [f];
      } else {
        Insert(i, f);
      }
    }
  }
}
