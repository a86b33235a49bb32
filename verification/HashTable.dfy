/**
The chained hash table. Each bucket's chain is doubly linked and holds the entries whose hash
falls into it; the table as a whole is a finite map.
*/
module HashTable {
  import opened Common

  /** Keys are compared by what they spell; a value is a handle the table does not look into. */
  datatype Key = Key(text: string)
  type Value = int

  class Entry {
    var hashKey: nat
    var key: Key
    var value: Value
    var prev: Entry?
    var next: Entry?

    constructor (hashKey: nat, key: Key, value: Value)
      ensures CellOf(this) == Cell(hashKey, key, value, null, null)
    {
      this.hashKey, this.key, this.value := hashKey, key, value;
      prev, next := null, null;
    }
  }

  // ---------------------------------------------------------------- the table as a value

  /** The fields of one entry. */
  datatype Cell = Cell(hashKey: nat, key: Key, value: Value, prev: Entry?, next: Entry?)

  ghost function CellOf(e: Entry): Cell
    reads e
  {
    Cell(e.hashKey, e.key, e.value, e.prev, e.next)
  }

  ghost predicate Matches(tab: array<Entry?>, slots: seq<Entry?>, cells: map<Entry, Cell>)
    reads tab, cells.Keys
  {
    tab[..] == slots && forall e | e in cells :: CellOf(e) == cells[e]
  }

  ghost function At(c: seq<Entry>, i: int): Entry? {
    if 0 <= i < |c| then c[i] else null
  }

  /** The links along a chain. */
  ghost predicate Chained(c: seq<Entry>, cells: map<Entry, Cell>) {
    && NoDup(c)
    && (forall k | 0 <= k < |c| :: c[k] in cells)
    && forall k {:trigger cells[c[k]]} | 0 <= k < |c| ::
         cells[c[k]].next == At(c, k + 1) && cells[c[k]].prev == At(c, k - 1)
  }

  /** The bucket that a hash falls into. */
  function Bucket(hashKey: nat, n: nat): (i: nat)
    requires n > 0
    ensures i < n
  {
    hashKey % n
  }

  ghost predicate IsHome(chains: seq<seq<Entry>>, e: Entry, hashKey: nat)
    requires |chains| > 0
  {
    e in chains[Bucket(hashKey, |chains|)]
  }

  /** Each entry is in the chain of its hash, and in no other. */
  ghost predicate Homed(chains: seq<seq<Entry>>, cells: map<Entry, Cell>) {
    && |chains| > 0
    && (forall i, e | 0 <= i < |chains| && e in chains[i] :: e in cells && Bucket(cells[e].hashKey, |chains|) == i)
    && forall e {:trigger IsHome(chains, e, cells[e].hashKey)} | e in cells :: IsHome(chains, e, cells[e].hashKey)
  }

  /** The buckets begin the chains. */
  ghost predicate Rooted(slots: seq<Entry?>, chains: seq<seq<Entry>>, cells: map<Entry, Cell>) {
    && |slots| == |chains|
    && forall i | 0 <= i < |chains| :: slots[i] == At(chains[i], 0) && Chained(chains[i], cells)
  }

  ghost predicate Built(slots: seq<Entry?>, chains: seq<seq<Entry>>, cells: map<Entry, Cell>) {
    Homed(chains, cells) && Rooted(slots, chains, cells)
  }

  lemma HomedApart(chains: seq<seq<Entry>>, cells: map<Entry, Cell>, i: nat, j: nat)
    requires Homed(chains, cells) && i < |chains| && j < |chains| && i != j
    ensures forall e | e in chains[i] :: e !in chains[j]
  {
    forall e | e in chains[i] ensures e !in chains[j] {
      assert Bucket(cells[e].hashKey, |chains|) == i;
    }
  }

  /** A chain none of whose entries changes its links stays a chain. */
  lemma SameChain(c: seq<Entry>, cells: map<Entry, Cell>, cells': map<Entry, Cell>)
    requires Chained(c, cells)
    requires forall e | e in c :: e in cells' && cells'[e] == cells[e]
    ensures Chained(c, cells')
  {
    forall k | 0 <= k < |c|
      ensures c[k] in cells' && cells'[c[k]].next == At(c, k + 1) && cells'[c[k]].prev == At(c, k - 1)
    {
      assert c[k] in c;
    }
  }

  // ---------------------------------------------------------------- putting an entry in front

  /** What pushing p before `first` writes. */
  ghost function Pushed(cells: map<Entry, Cell>, p: Entry, cell: Cell, first: Entry?): (cells': map<Entry, Cell>)
    requires first != null ==> first in cells
    ensures cells'.Keys == cells.Keys + {p}
  {
    if first == null then cells[p := cell.(prev := null, next := null)]
    else cells[first := cells[first].(prev := p)][p := cell.(prev := null, next := first)]
  }

  ghost predicate SameData(a: Cell, b: Cell) {
    a.hashKey == b.hashKey && a.key == b.key && a.value == b.value
  }

  lemma PushedData(cells: map<Entry, Cell>, p: Entry, cell: Cell, first: Entry?)
    requires first != null ==> first in cells
    ensures forall e | e in Pushed(cells, p, cell, first) ::
      SameData(Pushed(cells, p, cell, first)[e], if e == p then cell else cells[e])
  {
  }

  lemma PushedChain(c: seq<Entry>, cells: map<Entry, Cell>, p: Entry, cell: Cell)
    requires Chained(c, cells) && p !in cells
    ensures At(c, 0) != null ==> At(c, 0) in cells
    ensures Chained([p] + c, Pushed(cells, p, cell, At(c, 0)))
  {
    var d, cells' := [p] + c, Pushed(cells, p, cell, At(c, 0));
    forall k | 0 <= k < |d|
      ensures d[k] in cells' && cells'[d[k]].next == At(d, k + 1) && cells'[d[k]].prev == At(d, k - 1)
    {
      assert k > 0 ==> d[k] == c[k - 1] && c[k - 1] in cells;
    }
  }

  lemma PushedHomed(chains: seq<seq<Entry>>, cells: map<Entry, Cell>, p: Entry, cell: Cell, first: Entry?)
    requires Homed(chains, cells) && p !in cells && (first != null ==> first in cells)
    ensures var j := Bucket(cell.hashKey, |chains|); Homed(chains[j := [p] + chains[j]], Pushed(cells, p, cell, first))
  {
    var j := Bucket(cell.hashKey, |chains|);
    var chains', cells' := chains[j := [p] + chains[j]], Pushed(cells, p, cell, first);
    PushedData(cells, p, cell, first);
    forall i, e | 0 <= i < |chains'| && e in chains'[i]
      ensures e in cells' && Bucket(cells'[e].hashKey, |chains'|) == i {
      if e != p {
        assert e in chains[i];
      } else {
        assert p !in chains[i];
      }
    }
    forall e | e in cells' ensures IsHome(chains', e, cells'[e].hashKey) {
      if e != p {
        assert IsHome(chains, e, cells[e].hashKey);
      }
    }
  }

  lemma PushedBuilt(slots: seq<Entry?>, chains: seq<seq<Entry>>, cells: map<Entry, Cell>, p: Entry, cell: Cell)
    requires Built(slots, chains, cells) && p !in cells
    ensures var j := Bucket(cell.hashKey, |chains|);
      && (slots[j] != null ==> slots[j] in cells)
      && Built(slots[j := p], chains[j := [p] + chains[j]], Pushed(cells, p, cell, slots[j]))
  {
    var j := Bucket(cell.hashKey, |chains|);
    var first := slots[j];
    var chains', cells' := chains[j := [p] + chains[j]], Pushed(cells, p, cell, first);
    PushedChain(chains[j], cells, p, cell);
    PushedHomed(chains, cells, p, cell, first);
    forall i | 0 <= i < |chains'| ensures slots[j := p][i] == At(chains'[i], 0) && Chained(chains'[i], cells') {
      if i != j {
        HomedApart(chains, cells, i, j);
        assert first != null ==> first in chains[j];
        SameChain(chains[i], cells, cells');
      }
    }
  }

  /** Puts an entry that stands alone at the front of the bucket of its hash. */
  method Insert(tab: array<Entry?>, p: Entry, ghost slots: seq<Entry?>, ghost cells: map<Entry, Cell>)
    requires Matches(tab, slots, cells) && tab.Length > 0 && p !in cells && p.next == null && p.prev == null
    requires tab[Bucket(p.hashKey, tab.Length)] != null ==> tab[Bucket(p.hashKey, tab.Length)] in cells
    modifies tab, p`next, cells.Keys`prev
    ensures var j := Bucket(p.hashKey, tab.Length);
      Matches(tab, slots[j := p], Pushed(cells, p, old(CellOf(p)), slots[j]))
  {
    var j := Bucket(p.hashKey, tab.Length);
    if tab[j] != null {
      tab[j].prev := p;
      p.next := tab[j];
    }
    tab[j] := p;
  }

  // ---------------------------------------------------------------- taking an entry out

  ghost function Without(c: seq<Entry>, k: nat): seq<Entry>
    requires k < |c|
  {
    c[..k] + c[k + 1..]
  }

  /** What cutting p out from between its neighbours writes; p itself is forgotten. */
  ghost function Cut(cells: map<Entry, Cell>, p: Entry, pr: Entry?, nx: Entry?): map<Entry, Cell> {
    map e | e in cells && e != p ::
      cells[e].(next := if e == pr then nx else cells[e].next, prev := if e == nx then pr else cells[e].prev)
  }

  /** Entries of a chain are where they are, and nowhere else in it. */
  lemma OnlyAt(c: seq<Entry>, l: nat, m: int)
    requires l < |c| && NoDup(c)
    ensures c[l] == At(c, m) <==> l == m
  {
  }

  /** The neighbours in a chain without its k-th entry, in terms of the chain with it. */
  lemma WithoutAt(c: seq<Entry>, k: nat, l: nat)
    requires k < |c| && l < |c| - 1
    ensures var m := if l < k then l else l + 1;
      && Without(c, k)[l] == c[m]
      && At(Without(c, k), l + 1) == At(c, if m == k - 1 then k + 1 else m + 1)
      && At(Without(c, k), l - 1) == At(c, if m == k + 1 then k - 1 else m - 1)
  {
  }

  lemma WithoutIn(c: seq<Entry>, k: nat, e: Entry)
    requires k < |c| && NoDup(c)
    ensures e in Without(c, k) <==> e in c && e != c[k]
  {
    var d := Without(c, k);
    if e in d {
      var l :| 0 <= l < |d| && d[l] == e;
      OnlyAt(c, if l < k then l else l + 1, k);
    }
    if e in c && e != c[k] {
      var m :| 0 <= m < |c| && c[m] == e;
      assert d[if m < k then m else m - 1] == e;
    }
  }

  lemma WithoutDistinct(c: seq<Entry>, k: nat)
    requires k < |c| && NoDup(c)
    ensures NoDup(Without(c, k))
  {
    var d := Without(c, k);
    assert forall l | 0 <= l < |d| :: d[l] == c[if l < k then l else l + 1];
  }

  lemma CutChain(c: seq<Entry>, cells: map<Entry, Cell>, k: nat)
    requires Chained(c, cells) && k < |c|
    ensures Chained(Without(c, k), Cut(cells, c[k], At(c, k - 1), At(c, k + 1)))
  {
    var d, cells' := Without(c, k), Cut(cells, c[k], At(c, k - 1), At(c, k + 1));
    WithoutDistinct(c, k);
    forall l | 0 <= l < |d|
      ensures d[l] in cells' && cells'[d[l]].next == At(d, l + 1) && cells'[d[l]].prev == At(d, l - 1)
    {
      WithoutAt(c, k, l);
      var m := if l < k then l else l + 1;
      OnlyAt(c, m, k);
      OnlyAt(c, m, k - 1);
      OnlyAt(c, m, k + 1);
    }
  }

  lemma CutHomed(chains: seq<seq<Entry>>, cells: map<Entry, Cell>, j: nat, k: nat, pr: Entry?, nx: Entry?)
    requires Homed(chains, cells) && j < |chains| && k < |chains[j]| && NoDup(chains[j])
    ensures Homed(chains[j := Without(chains[j], k)], Cut(cells, chains[j][k], pr, nx))
  {
    var p := chains[j][k];
    assert p in chains[j];
    var chains', cells' := chains[j := Without(chains[j], k)], Cut(cells, p, pr, nx);
    forall i, e | 0 <= i < |chains'| && e in chains'[i]
      ensures e in cells' && Bucket(cells'[e].hashKey, |chains'|) == i {
      WithoutIn(chains[j], k, e);
      assert e in chains[i];
      assert Bucket(cells[p].hashKey, |chains|) == j && Bucket(cells[e].hashKey, |chains|) == i;
    }
    forall e | e in cells' ensures IsHome(chains', e, cells'[e].hashKey) {
      WithoutIn(chains[j], k, e);
      assert IsHome(chains, e, cells[e].hashKey);
    }
  }

  /** Where an entry is, and what its links are. */
  lemma PlaceOf(slots: seq<Entry?>, chains: seq<seq<Entry>>, cells: map<Entry, Cell>, p: Entry) returns (k: nat)
    requires Built(slots, chains, cells) && p in cells
    ensures var c := chains[Bucket(cells[p].hashKey, |chains|)];
      k < |c| && c[k] == p && cells[p].prev == At(c, k - 1) && cells[p].next == At(c, k + 1)
  {
    var c := chains[Bucket(cells[p].hashKey, |chains|)];
    assert IsHome(chains, p, cells[p].hashKey);
    k :| 0 <= k < |c| && c[k] == p;
  }

  ghost function SlotsWithout(slots: seq<Entry?>, j: nat, cell: Cell): seq<Entry?>
    requires j < |slots|
  {
    if cell.prev == null then slots[j := cell.next] else slots
  }

  /** Cutting an entry out of one chain does not touch another. */
  lemma CutOther(c: seq<Entry>, d: seq<Entry>, cells: map<Entry, Cell>, k: nat)
    requires Chained(d, cells) && k < |c| && forall e | e in d :: e !in c
    ensures Chained(d, Cut(cells, c[k], At(c, k - 1), At(c, k + 1)))
  {
    assert c[k] in c && (At(c, k - 1) != null ==> At(c, k - 1) in c) && (At(c, k + 1) != null ==> At(c, k + 1) in c);
    SameChain(d, cells, Cut(cells, c[k], At(c, k - 1), At(c, k + 1)));
  }

  lemma CutBuilt(slots: seq<Entry?>, chains: seq<seq<Entry>>, cells: map<Entry, Cell>, p: Entry)
    returns (chains': seq<seq<Entry>>)
    requires Built(slots, chains, cells) && p in cells
    ensures Built(SlotsWithout(slots, Bucket(cells[p].hashKey, |chains|), cells[p]), chains',
      Cut(cells, p, cells[p].prev, cells[p].next))
    ensures |chains'| == |chains|
  {
    var j := Bucket(cells[p].hashKey, |chains|);
    var k := PlaceOf(slots, chains, cells, p);
    var c := chains[j];
    chains' := chains[j := Without(c, k)];
    CutHomed(chains, cells, j, k, cells[p].prev, cells[p].next);
    CutRooted(slots, chains, cells, j, k);
  }

  lemma CutRooted(slots: seq<Entry?>, chains: seq<seq<Entry>>, cells: map<Entry, Cell>, j: nat, k: nat)
    requires Built(slots, chains, cells) && j < |chains| && k < |chains[j]|
    ensures chains[j][k] in cells
    ensures var c := chains[j];
      Rooted(SlotsWithout(slots, j, cells[c[k]]), chains[j := Without(c, k)],
        Cut(cells, c[k], At(c, k - 1), At(c, k + 1)))
  {
    var c := chains[j];
    var cells' := Cut(cells, c[k], At(c, k - 1), At(c, k + 1));
    CutChain(c, cells, k);
    forall i | 0 <= i < |chains| && i != j ensures Chained(chains[i], cells') {
      HomedApart(chains, cells, i, j);
      CutOther(c, chains[i], cells, k);
    }
  }

  /** Takes an entry out of its bucket. */
  method Extract(tab: array<Entry?>, p: Entry, ghost slots: seq<Entry?>, ghost cells: map<Entry, Cell>)
    requires Matches(tab, slots, cells) && tab.Length > 0 && p in cells
    requires p.next != null ==> p.next in cells && p.next != p
    requires p.prev != null ==> p.prev in cells && p.prev != p
    modifies tab, cells.Keys`next, cells.Keys`prev
    ensures Matches(tab, SlotsWithout(slots, Bucket(cells[p].hashKey, tab.Length), cells[p]),
      Cut(cells, p, cells[p].prev, cells[p].next))
  {
    assert CellOf(p) == cells[p];
    if p.next != null {
      p.next.prev := p.prev;
    }
    if p.prev != null {
      p.prev.next := p.next;
    } else {
      var i := Bucket(p.hashKey, tab.Length);
      tab[i] := p.next;
    }
  }

  // ---------------------------------------------------------------- moving to a larger table

  /** A table as a value: buckets, chains and the fields of its entries. */
  datatype Layout = Layout(slots: seq<Entry?>, chains: seq<seq<Entry>>, cells: map<Entry, Cell>)

  type Table = l: Layout | Built(l.slots, l.chains, l.cells) ghost witness Layout([null], [[]], map[])

  /** The entries of a table are some of those in `all`. */
  ghost predicate Copied(cells: map<Entry, Cell>, all: map<Entry, Cell>) {
    forall e | e in cells :: e in all && SameData(cells[e], all[e])
  }

  lemma PushedCopied(cells: map<Entry, Cell>, all: map<Entry, Cell>, p: Entry, cell: Cell, first: Entry?)
    requires Copied(cells, all) && p in all && SameData(cell, all[p]) && (first != null ==> first in cells)
    ensures Copied(Pushed(cells, p, cell, first), all)
  {
  }

  lemma PushTable(h: Table, p: Entry, cell: Cell) returns (h': Table)
    requires p !in h.cells
    ensures |h.slots| > 0 && h'.cells.Keys == h.cells.Keys + {p}
    ensures var j := Bucket(cell.hashKey, |h.slots|);
      && (h.slots[j] != null ==> h.slots[j] in h.cells)
      && h'.slots == h.slots[j := p] && h'.cells == Pushed(h.cells, p, cell, h.slots[j])
  {
    var j := Bucket(cell.hashKey, |h.chains|);
    PushedBuilt(h.slots, h.chains, h.cells, p, cell);
    h' := Layout(h.slots[j := p], h.chains[j := [p] + h.chains[j]], Pushed(h.cells, p, cell, h.slots[j]));
  }

  /** The entries not moved yet are as they were. */
  ghost predicate Untouched(all: map<Entry, Cell>, moved: set<Entry>)
    reads all.Keys
  {
    forall e | e in all && e !in moved :: CellOf(e) == all[e]
  }

  /** Moves an entry to the front of its new bucket, and returns the one that followed it. */
  method MoveOne(p: Entry, tab2: array<Entry?>, ghost h: Table, ghost all: map<Entry, Cell>)
    returns (q: Entry?, ghost h': Table)
    requires Matches(tab2, h.slots, h.cells) && Copied(h.cells, all) && Untouched(all, h.cells.Keys)
    requires p !in h.cells && p in all
    modifies tab2, p`next, p`prev, h.cells.Keys`prev
    ensures Matches(tab2, h'.slots, h'.cells) && Copied(h'.cells, all) && Untouched(all, h'.cells.Keys)
    ensures h'.cells.Keys == h.cells.Keys + {p} && |h'.slots| == |h.slots| && q == all[p].next
  {
    assert CellOf(p) == all[p];
    q := p.next;
    ghost var cell := all[p].(prev := null, next := null);
    h' := PushTable(h, p, cell);
    PushedCopied(h.cells, all, p, cell, h.slots[Bucket(cell.hashKey, |h.slots|)]);
    Reinsert(p, tab2, h.slots, h.cells, all);
  }

  method Reinsert(p: Entry, tab2: array<Entry?>, ghost slots: seq<Entry?>, ghost cells: map<Entry, Cell>,
      ghost all: map<Entry, Cell>)
    requires Matches(tab2, slots, cells) && p !in cells && p in all && Untouched(all, cells.Keys) && tab2.Length > 0
    requires tab2[Bucket(all[p].hashKey, tab2.Length)] != null ==> tab2[Bucket(all[p].hashKey, tab2.Length)] in cells
    modifies tab2, p`next, p`prev, cells.Keys`prev
    ensures var j := Bucket(all[p].hashKey, tab2.Length);
      Matches(tab2, slots[j := p], Pushed(cells, p, all[p].(prev := null, next := null), slots[j]))
    ensures Untouched(all, cells.Keys + {p})
  {
    assert CellOf(p) == all[p];
    p.next := null;
    p.prev := null;
    Insert(tab2, p, slots, cells);
  }

  ghost function Prefix(c: seq<Entry>, k: nat): set<Entry>
    requires k <= |c|
  {
    if k == 0 then {} else Prefix(c, k - 1) + {c[k - 1]}
  }

  lemma {:induction false} InPrefix(c: seq<Entry>, k: nat, e: Entry)
    requires k <= |c|
    ensures e in Prefix(c, k) <==> exists l :: 0 <= l < k && c[l] == e
  {
    if k > 0 {
      InPrefix(c, k - 1, e);
    }
  }

  lemma PrefixStep(c: seq<Entry>, k: nat)
    requires k < |c| && NoDup(c)
    ensures c[k] !in Prefix(c, k) && Prefix(c, k + 1) == Prefix(c, k) + {c[k]}
  {
    InPrefix(c, k, c[k]);
  }

  lemma ChainEntry(c: seq<Entry>, cells: map<Entry, Cell>, k: nat)
    requires Chained(c, cells) && k < |c|
    ensures NoDup(c) && At(c, k) == c[k] && c[k] in cells && cells[c[k]].next == At(c, k + 1)
  {
  }

  lemma WholePrefix(c: seq<Entry>, k: nat)
    requires k <= |c| && At(c, k) == null
    ensures forall e :: e in c <==> e in Prefix(c, k)
  {
    assert k == |c|;
    forall e | e in c ensures e in Prefix(c, |c|) {
      InPrefix(c, |c|, e);
    }
    forall e | e in Prefix(c, |c|) ensures e in c {
      InPrefix(c, |c|, e);
    }
  }

  method MoveStep(p: Entry, tab2: array<Entry?>, ghost c: seq<Entry>, ghost k: nat, ghost before: set<Entry>,
      ghost h: Table, ghost all: map<Entry, Cell>)
    returns (q: Entry?, ghost h': Table)
    requires Matches(tab2, h.slots, h.cells) && Copied(h.cells, all) && Untouched(all, h.cells.Keys)
    requires k < |c| && c[k] == p && NoDup(c) && p in all && p !in before && all[p].next == At(c, k + 1)
    requires h.cells.Keys == before + Prefix(c, k)
    modifies tab2, p`next, p`prev, h.cells.Keys`prev
    ensures Matches(tab2, h'.slots, h'.cells) && Copied(h'.cells, all) && Untouched(all, h'.cells.Keys)
    ensures h'.cells.Keys == before + Prefix(c, k + 1) && |h'.slots| == |h.slots| && q == At(c, k + 1)
  {
    PrefixStep(c, k);
    q, h' := MoveOne(p, tab2, h, all);
  }

  /** Moves the entries of a chain, from the first on, to the front of their new buckets. */
  method MoveChain(first: Entry?, tab2: array<Entry?>, ghost c: seq<Entry>, ghost h: Table, ghost all: map<Entry, Cell>)
    returns (ghost h': Table)
    requires Matches(tab2, h.slots, h.cells) && Copied(h.cells, all) && Untouched(all, h.cells.Keys)
    requires first == At(c, 0) && Chained(c, all) && forall k | 0 <= k < |c| :: c[k] !in h.cells
    modifies tab2, all.Keys`next, all.Keys`prev
    ensures Matches(tab2, h'.slots, h'.cells) && Copied(h'.cells, all) && Untouched(all, h'.cells.Keys)
    ensures |h'.slots| == |h.slots| && forall e | e in all :: e in h'.cells <==> e in h.cells || e in c
  {
    hide Built;
    ghost var k := 0;
    var p := first;
    h' := h;
    while p != null
      invariant 0 <= k <= |c| && p == At(c, k) && |h'.slots| == |h.slots|
      invariant h'.cells.Keys == h.cells.Keys + Prefix(c, k)
      invariant Matches(tab2, h'.slots, h'.cells) && Copied(h'.cells, all) && Untouched(all, h'.cells.Keys)
      decreases |c| - k
    {
      ChainEntry(c, all, k);
      p, h' := MoveStep(p, tab2, c, k, h.cells.Keys, h', all);
      k := k + 1;
    }
    WholePrefix(c, k);
  }

  /** Moves every entry, bucket by bucket, to an empty table. */
  method MoveAll(tab: array<Entry?>, tab2: array<Entry?>, ghost t: Table) returns (ghost h: Table)
    requires Matches(tab, t.slots, t.cells) && tab2.Length > 0 && tab2 != tab
    requires forall i | 0 <= i < tab2.Length :: tab2[i] == null
    modifies tab2, t.cells.Keys`next, t.cells.Keys`prev
    ensures Matches(tab2, h.slots, h.cells) && Copied(h.cells, t.cells) && h.cells.Keys == t.cells.Keys
  {
    var i := 0;
    h := Empty(tab2.Length);
    assert tab2[..] == h.slots;
    while i < tab.Length
      invariant i <= tab.Length && tab[..] == t.slots && |h.slots| == tab2.Length
      invariant forall e | e in t.cells :: e in h.cells <==> Bucket(t.cells[e].hashKey, tab.Length) < i
      invariant Matches(tab2, h.slots, h.cells) && Copied(h.cells, t.cells) && Untouched(t.cells, h.cells.Keys)
    {
      ghost var c := ChainFacts(t, h, i);
      ghost var h0 := h;
      h := MoveChain(tab[i], tab2, c, h, t.cells);
      forall e | e in t.cells ensures e in h.cells <==> Bucket(t.cells[e].hashKey, tab.Length) < i + 1 {
        InChain(t, e, i);
      }
      i := i + 1;
    }
  }

  ghost function Empty(n: nat): (h: Table)
    requires n > 0
    ensures |h.slots| == n && (forall i | 0 <= i < n :: h.slots[i] == null) && h.cells == map[]
  {
    Layout(seq(n, _ => null), seq(n, _ => []), map[])
  }

  /** An entry is in the i-th chain exactly when its hash falls into bucket i. */
  lemma InChain(t: Table, e: Entry, i: nat)
    requires e in t.cells && i < |t.slots|
    ensures e in t.chains[i] <==> Bucket(t.cells[e].hashKey, |t.slots|) == i
  {
    assert IsHome(t.chains, e, t.cells[e].hashKey);
  }

  lemma ChainFacts(t: Table, h: Table, i: nat) returns (c: seq<Entry>)
    requires i < |t.slots| && Copied(h.cells, t.cells)
    requires forall e | e in t.cells :: e in h.cells <==> Bucket(t.cells[e].hashKey, |t.slots|) < i
    ensures c == t.chains[i] && t.slots[i] == At(c, 0) && Chained(c, t.cells)
      && forall k | 0 <= k < |c| :: c[k] !in h.cells
  {
    c := t.chains[i];
    forall k | 0 <= k < |c| ensures c[k] !in h.cells {
      assert c[k] in t.cells;
      InChain(t, c[k], i);
    }
  }

  // ---------------------------------------------------------------- the map

  /** Each entry holds one binding of the map, and each binding has its entry. */
  ghost predicate Represents(cells: map<Entry, Cell>, holder: map<Key, Entry>, contents: map<Key, Value>,
      hash: Key -> nat) {
    && holder.Keys == contents.Keys
    && (forall k | k in holder ::
          holder[k] in cells && cells[holder[k]].key == k && cells[holder[k]].value == contents[k])
    && forall e | e in cells ::
         cells[e].hashKey == hash(cells[e].key) && cells[e].key in holder && holder[cells[e].key] == e
  }

  lemma CopiedRepresents(cells: map<Entry, Cell>, cells': map<Entry, Cell>, holder: map<Key, Entry>,
      contents: map<Key, Value>, hash: Key -> nat)
    requires Represents(cells, holder, contents, hash) && Copied(cells', cells) && cells'.Keys == cells.Keys
    ensures Represents(cells', holder, contents, hash)
  {
  }

  lemma AddedRepresents(cells: map<Entry, Cell>, p: Entry, cell: Cell, first: Entry?, holder: map<Key, Entry>,
      contents: map<Key, Value>, hash: Key -> nat)
    requires Represents(cells, holder, contents, hash) && p !in cells && cell.key !in contents
      && cell.hashKey == hash(cell.key)
    requires first != null ==> first in cells
    ensures Represents(Pushed(cells, p, cell, first), holder[cell.key := p], contents[cell.key := cell.value], hash)
  {
    PushedData(cells, p, cell, first);
  }

  lemma CutRepresents(cells: map<Entry, Cell>, p: Entry, pr: Entry?, nx: Entry?, holder: map<Key, Entry>,
      contents: map<Key, Value>, hash: Key -> nat)
    requires Represents(cells, holder, contents, hash) && p in cells
    ensures Represents(Cut(cells, p, pr, nx), holder - {cells[p].key}, contents - {cells[p].key}, hash)
  {
  }

  /** The whole of the table as a value: its layout, and the map it stands for. */
  datatype Model = Model(table: Table, holder: map<Key, Entry>, contents: map<Key, Value>, hash: Key -> nat)

  type Store = m: Model | Represents(m.table.cells, m.holder, m.contents, m.hash)
    ghost witness Model(Empty(1), map[], map[], _ => 0)

  ghost function Unbound(n: nat, hash: Key -> nat): (m: Store)
    requires n > 0
    ensures m == Model(Empty(n), map[], map[], hash)
  {
    Model(Empty(n), map[], map[], hash)
  }

  lemma HasSlots(m: Store)
    ensures |m.table.slots| > 0
  {
  }

  /** The entry of a key is in the key's bucket, and no other entry there has that key. */
  lemma Holder(m: Store, key: Key) returns (c: seq<Entry>)
    ensures |m.table.slots| > 0 && c == m.table.chains[Bucket(m.hash(key), |m.table.slots|)]
      && Chained(c, m.table.cells)
    ensures m.table.slots[Bucket(m.hash(key), |m.table.slots|)] == At(c, 0)
    ensures key in m.contents ==> key in m.holder && m.holder[key] in c
    ensures forall k | 0 <= k < |c| && m.table.cells[c[k]].key == key :: key in m.contents && c[k] == m.holder[key]
  {
    c := m.table.chains[Bucket(m.hash(key), |m.table.slots|)];
    if key in m.contents {
      assert IsHome(m.table.chains, m.holder[key], m.table.cells[m.holder[key]].hashKey);
    }
  }

  lemma RevaluedBuilt(t: Table, p: Entry, value: Value)
    requires p in t.cells
    ensures Built(t.slots, t.chains, t.cells[p := t.cells[p].(value := value)])
  {
    var cells' := t.cells[p := t.cells[p].(value := value)];
    forall e | e in cells' ensures IsHome(t.chains, e, cells'[e].hashKey) {
      assert IsHome(t.chains, e, t.cells[e].hashKey);
    }
  }

  lemma RevaluedRepresents(cells: map<Entry, Cell>, p: Entry, value: Value, holder: map<Key, Entry>,
      contents: map<Key, Value>, hash: Key -> nat)
    requires Represents(cells, holder, contents, hash) && p in cells
    ensures Represents(cells[p := cells[p].(value := value)], holder, contents[cells[p].key := value], hash)
  {
  }

  /** A new value in an entry changes no chain. */
  lemma Revalued(m: Store, p: Entry, value: Value) returns (m': Store)
    requires p in m.table.cells
    ensures m'.contents == m.contents[m.table.cells[p].key := value] && m'.hash == m.hash && m'.holder == m.holder
    ensures m'.table.slots == m.table.slots
    ensures m'.table.cells == m.table.cells[p := m.table.cells[p].(value := value)]
  {
    var t := m.table;
    RevaluedBuilt(t, p, value);
    RevaluedRepresents(t.cells, p, value, m.holder, m.contents, m.hash);
    var h: Table := Layout(t.slots, t.chains, t.cells[p := t.cells[p].(value := value)]);
    m' := Model(h, m.holder, m.contents[t.cells[p].key := value], m.hash);
  }

  lemma Rehashed(m: Store, h: Table) returns (m': Store)
    requires Copied(h.cells, m.table.cells) && h.cells.Keys == m.table.cells.Keys
    ensures m' == m.(table := h)
  {
    CopiedRepresents(m.table.cells, h.cells, m.holder, m.contents, m.hash);
    m' := m.(table := h);
  }

  lemma Added(m: Store, p: Entry, key: Key, value: Value) returns (m': Store)
    requires p !in m.table.cells && key !in m.contents
    ensures m'.contents == m.contents[key := value] && |m'.contents| == |m.contents| + 1
    ensures m'.hash == m.hash && |m.table.slots| > 0
    ensures var j := Bucket(m.hash(key), |m.table.slots|);
      && (m.table.slots[j] != null ==> m.table.slots[j] in m.table.cells)
      && m'.table.slots == m.table.slots[j := p]
      && m'.table.cells == Pushed(m.table.cells, p, Cell(m.hash(key), key, value, null, null), m.table.slots[j])
  {
    hide Built, Homed, Rooted, Represents, Pushed;
    var cell := Cell(m.hash(key), key, value, null, null);
    var h := PushTable(m.table, p, cell);
    AddedRepresents(m.table.cells, p, cell, m.table.slots[Bucket(cell.hashKey, |m.table.slots|)], m.holder, m.contents,
      m.hash);
    m' := Model(h, m.holder[key := p], m.contents[key := value], m.hash);
    OneBinding(m.contents, key, value);
  }

  lemma OneBinding(c: map<Key, Value>, key: Key, value: Value)
    ensures |c[key := value]| == |c| + if key in c then 0 else 1
  {
    assert c[key := value].Keys == c.Keys + {key};
  }

  lemma Removed(m: Store, p: Entry) returns (m': Store)
    requires p in m.table.cells
    ensures |m.table.slots| > 0 && m.table.cells[p].key in m.contents
    ensures m'.contents == m.contents - {m.table.cells[p].key} && m'.hash == m.hash
    ensures var cell := m.table.cells[p];
      && m'.table.slots == SlotsWithout(m.table.slots, Bucket(cell.hashKey, |m.table.slots|), cell)
      && m'.table.cells == Cut(m.table.cells, p, cell.prev, cell.next)
      && (cell.next != null ==> cell.next in m.table.cells && cell.next != p)
      && (cell.prev != null ==> cell.prev in m.table.cells && cell.prev != p)
  {
    var t, cell := m.table, m.table.cells[p];
    NeighboursApart(t, p);
    var chains' := CutBuilt(t.slots, t.chains, t.cells, p);
    CutRepresents(t.cells, p, cell.prev, cell.next, m.holder, m.contents, m.hash);
    var h := Layout(SlotsWithout(t.slots, Bucket(cell.hashKey, |t.slots|), cell), chains',
      Cut(t.cells, p, cell.prev, cell.next));
    m' := Model(h, m.holder - {cell.key}, m.contents - {cell.key}, m.hash);
  }

  lemma NeighboursApart(t: Table, p: Entry)
    requires p in t.cells
    ensures t.cells[p].next != null ==> t.cells[p].next in t.cells && t.cells[p].next != p
    ensures t.cells[p].prev != null ==> t.cells[p].prev in t.cells && t.cells[p].prev != p
  {
    var k: int := PlaceOf(t.slots, t.chains, t.cells, p);
    var c := t.chains[Bucket(t.cells[p].hashKey, |t.slots|)];
    OnlyAt(c, k, k - 1);
    OnlyAt(c, k, k + 1);
  }

  method SetEntry(tab: array<Entry?>, p: Entry, key: Key, value: Value, ghost slots: seq<Entry?>,
      ghost cells: map<Entry, Cell>)
    requires Matches(tab, slots, cells) && p in cells && cells[p].key == key
    modifies p`key, p`value
    ensures Matches(tab, slots, cells[p := cells[p].(value := value)])
  {
    assert CellOf(p) == cells[p];
    p.key := key;
    p.value := value;
  }

  method ReplaceIn(tab: array<Entry?>, p: Entry, key: Key, value: Value, ghost m: Store) returns (ghost m': Store)
    requires Matches(tab, m.table.slots, m.table.cells) && p in m.table.cells && p.key == key
    modifies p`key, p`value
    ensures Matches(tab, m'.table.slots, m'.table.cells) && m'.table.cells.Keys == m.table.cells.Keys
    ensures m'.contents == m.contents[key := value] && |m'.contents| == |m.contents| && m'.hash == m.hash
  {
    hide Built;
    assert CellOf(p) == m.table.cells[p];
    m' := Revalued(m, p, value);
    SetEntry(tab, p, key, value, m.table.slots, m.table.cells);
    assert m'.contents.Keys == m.contents.Keys;
  }

  /** Doubles the number of buckets. */
  method RehashInto(tab: array<Entry?>, ghost m: Store) returns (tab2: array<Entry?>, ghost m': Store)
    requires Matches(tab, m.table.slots, m.table.cells)
    modifies m.table.cells.Keys`next, m.table.cells.Keys`prev
    ensures fresh(tab2) && tab2.Length == 2 * tab.Length > 0
    ensures Matches(tab2, m'.table.slots, m'.table.cells) && m'.table.cells.Keys == m.table.cells.Keys
    ensures m' == m.(table := m'.table)
  {
    tab2 := new Entry?[2 * tab.Length](_ => null);
    ghost var h := MoveAll(tab, tab2, m.table);
    m' := Rehashed(m, h);
  }

  method AddTo(tab: array<Entry?>, p: Entry, ghost m: Store) returns (ghost m': Store)
    requires Matches(tab, m.table.slots, m.table.cells) && p !in m.table.cells && p.key !in m.contents
    requires p.hashKey == m.hash(p.key) && p.next == null && p.prev == null
    modifies tab, p`next, m.table.cells.Keys`prev
    ensures Matches(tab, m'.table.slots, m'.table.cells) && m'.table.cells.Keys == m.table.cells.Keys + {p}
    ensures m'.contents == m.contents[p.key := p.value] && |m'.contents| == |m.contents| + 1 && m'.hash == m.hash
  {
    hide Built, Represents;
    m' := Added(m, p, p.key, p.value);
    Insert(tab, p, m.table.slots, m.table.cells);
  }

  method AddNew(tab: array<Entry?>, hashKey: nat, key: Key, value: Value, ghost m: Store) returns (ghost m': Store)
    requires Matches(tab, m.table.slots, m.table.cells) && key !in m.contents && hashKey == m.hash(key)
    modifies tab, m.table.cells.Keys`prev
    ensures Matches(tab, m'.table.slots, m'.table.cells) && fresh(m'.table.cells.Keys - m.table.cells.Keys)
    ensures m'.contents == m.contents[key := value] && |m'.contents| == |m.contents| + 1 && m'.hash == m.hash
  {
    hide Built, Represents;
    var p := new Entry(hashKey, key, value);
    m' := AddTo(tab, p, m);
  }

  method RehashAndAdd(tab: array<Entry?>, hashKey: nat, key: Key, value: Value, ghost m: Store)
    returns (tab2: array<Entry?>, ghost m': Store)
    requires Matches(tab, m.table.slots, m.table.cells) && key !in m.contents && hashKey == m.hash(key)
    modifies m.table.cells.Keys`next, m.table.cells.Keys`prev
    ensures Matches(tab2, m'.table.slots, m'.table.cells) && fresh(m'.table.cells.Keys - m.table.cells.Keys)
    ensures m'.contents == m.contents[key := value] && |m'.contents| == |m.contents| + 1 && m'.hash == m.hash
    ensures fresh(tab2) && tab2.Length == 2 * tab.Length > 0
  {
    hide Built, Represents;
    ghost var grown;
    tab2, grown := RehashInto(tab, m);
    m' := AddNew(tab2, hashKey, key, value, grown);
  }

  /** Rehashes a table of n entries that has become too full, and adds an entry. */
  method GrowAndAdd(tab: array<Entry?>, n: nat, hashKey: nat, key: Key, value: Value, ghost m: Store)
    returns (tab2: array<Entry?>, ghost m': Store)
    requires Matches(tab, m.table.slots, m.table.cells) && key !in m.contents && hashKey == m.hash(key)
    requires 10 * n <= 13 * tab.Length + 10
    modifies tab, m.table.cells.Keys`next, m.table.cells.Keys`prev
    ensures Matches(tab2, m'.table.slots, m'.table.cells) && fresh(m'.table.cells.Keys - m.table.cells.Keys)
    ensures m'.contents == m.contents[key := value] && |m'.contents| == |m.contents| + 1 && m'.hash == m.hash
    ensures (tab2 == tab || fresh(tab2)) && 10 * (n + 1) <= 13 * tab2.Length + 10
    ensures if 10 * n > 13 * tab.Length then fresh(tab2) && tab2.Length == 2 * tab.Length else tab2 == tab
  {
    if n as real > tab.Length as real * 1.3 {
      tab2, m' := RehashAndAdd(tab, hashKey, key, value, m);
    } else {
      tab2 := tab;
      m' := AddNew(tab, hashKey, key, value, m);
    }
  }

  method RemoveFrom(tab: array<Entry?>, p: Entry, ghost m: Store) returns (ghost m': Store)
    requires Matches(tab, m.table.slots, m.table.cells) && p in m.table.cells
    modifies tab, m.table.cells.Keys`next, m.table.cells.Keys`prev
    ensures Matches(tab, m'.table.slots, m'.table.cells) && m'.table.cells.Keys <= m.table.cells.Keys
    ensures p.key in m.contents && m'.contents == m.contents - {p.key} && |m'.contents| == |m.contents| - 1
      && m'.hash == m.hash
  {
    hide Built, Homed, Rooted;
    assert CellOf(p) == m.table.cells[p];
    m' := Removed(m, p);
    Extract(tab, p, m.table.slots, m.table.cells);
    assert m.contents.Keys == m'.contents.Keys + {p.key};
  }

  // ---------------------------------------------------------------- the table

  /** All entries, bucket by bucket from the i-th on. */
  ghost function Flat(chains: seq<seq<Entry>>, i: nat): seq<Entry>
    requires i <= |chains|
    decreases |chains| - i
  {
    if i == |chains| then [] else chains[i] + Flat(chains, i + 1)
  }

  /** Each entry of the table is listed, once. */
  lemma {:induction false} FlatIn(t: Table, i: nat)
    requires i <= |t.chains|
    ensures forall e | e in Flat(t.chains, i) :: e in t.cells && Bucket(t.cells[e].hashKey, |t.chains|) >= i
    ensures forall e | e in t.cells && Bucket(t.cells[e].hashKey, |t.chains|) >= i :: e in Flat(t.chains, i)
    decreases |t.chains| - i
  {
    if i < |t.chains| {
      FlatIn(t, i + 1);
      forall e | e in t.cells && Bucket(t.cells[e].hashKey, |t.chains|) >= i ensures e in Flat(t.chains, i) {
        InChain(t, e, i);
      }
    }
  }

  lemma {:induction false} FlatDistinct(t: Table, i: nat)
    requires i <= |t.chains|
    ensures NoDup(Flat(t.chains, i))
    decreases |t.chains| - i
  {
    if i < |t.chains| {
      FlatDistinct(t, i + 1);
      FlatIn(t, i + 1);
      var c, d := t.chains[i], Flat(t.chains, i + 1);
      assert Chained(c, t.cells);
      forall e | e in c ensures e !in d {
        assert Bucket(t.cells[e].hashKey, |t.chains|) == i;
      }
      forall k, l | 0 <= k < l < |c + d| ensures (c + d)[k] != (c + d)[l] {
        if k < |c| <= l {
          assert (c + d)[k] in c && (c + d)[l] in d;
        }
      }
    }
  }

  /** The first entry from bucket i on. */
  method FirstFrom(tab: array<Entry?>, i: nat, ghost t: Table) returns (p: Entry?)
    requires tab[..] == t.slots && i <= tab.Length
    ensures p == At(Flat(t.chains, i), 0)
  {
    var j := i;
    while j < tab.Length
      invariant i <= j <= tab.Length && Flat(t.chains, i) == Flat(t.chains, j)
    {
      assert tab[j] == t.slots[j];
      if tab[j] != null {
        return tab[j];
      }
      j := j + 1;
    }
    p := null;
  }

  lemma AfterPlace(c: seq<Entry>, rest: seq<Entry>, l: nat)
    requires l < |c|
    ensures At(c[l + 1..] + rest, 0) == if l + 1 < |c| then c[l + 1] else At(rest, 0)
  {
  }

  lemma ChainsHold(t: Table)
    ensures |t.chains| == |t.slots| > 0 && forall i | 0 <= i < |t.chains| :: Chained(t.chains[i], t.cells)
  {
  }

  /** The entry after the l-th of bucket i. */
  method Next(tab: array<Entry?>, p: Entry, ghost t: Table, ghost l: nat) returns (q: Entry?)
    requires Matches(tab, t.slots, t.cells) && p in t.cells
    requires var c := t.chains[Bucket(t.cells[p].hashKey, |t.slots|)]; l < |c| && c[l] == p
    ensures var i := Bucket(t.cells[p].hashKey, |t.slots|);
      q == At(t.chains[i][l + 1..] + Flat(t.chains, i + 1), 0)
  {
    hide Flat, Built, Homed, Rooted;
    assert CellOf(p) == t.cells[p];
    ChainsHold(t);
    var i := Bucket(p.hashKey, tab.Length);
    ChainEntry(t.chains[i], t.cells, l);
    AfterPlace(t.chains[i], Flat(t.chains, i + 1), l);
    if p.next != null {
      return p.next;
    }
    q := FirstFrom(tab, i + 1, t);
  }

  /** Where the listing of the buckets from the i-th on begins. */
  lemma {:induction false} FirstPlace(chains: seq<seq<Entry>>, i: nat) returns (j: nat)
    requires i <= |chains| && Flat(chains, i) != []
    ensures i <= j < |chains| && chains[j] != [] && Flat(chains, i) == From(chains, j, 0)
    decreases |chains| - i
  {
    if chains[i] != [] {
      j := i;
      assert chains[j][0..] == chains[j];
    } else {
      j := FirstPlace(chains, i + 1);
      assert [] + Flat(chains, i + 1) == Flat(chains, i + 1);
    }
  }

  /** What is listed from the l-th entry of bucket i on. */
  ghost function From(chains: seq<seq<Entry>>, i: nat, l: nat): seq<Entry>
    requires i < |chains| && l <= |chains[i]|
  {
    chains[i][l..] + Flat(chains, i + 1)
  }

  /** The next place in the listing, if there is one. */
  lemma NextPlace(chains: seq<seq<Entry>>, i: nat, l: nat) returns (i': nat, l': nat)
    requires i < |chains| && l < |chains[i]| && From(chains, i, l + 1) != []
    ensures i' < |chains| && l' < |chains[i']| && From(chains, i', l') == From(chains, i, l + 1)
  {
    if l + 1 < |chains[i]| {
      i', l' := i, l + 1;
    } else {
      assert From(chains, i, l + 1) == Flat(chains, i + 1);
      i' := FirstPlace(chains, i + 1);
      l' := 0;
    }
  }

  lemma Here(chains: seq<seq<Entry>>, i: nat, l: nat)
    requires i < |chains| && l < |chains[i]|
    ensures From(chains, i, l) == [chains[i][l]] + From(chains, i, l + 1)
  {
    assert chains[i][l..] == [chains[i][l]] + chains[i][l + 1..];
  }

  lemma PlaceIsHome(t: Table, i: nat, l: nat)
    requires i < |t.chains| && l < |t.chains[i]|
    ensures t.chains[i][l] in t.cells && Bucket(t.cells[t.chains[i][l]].hashKey, |t.slots|) == i
  {
    assert t.chains[i][l] in t.chains[i];
  }

  /** What is still to be listed, from p at a place on. */
  ghost function Coming(chains: seq<seq<Entry>>, p: Entry?, i: nat, l: nat): seq<Entry>
    requires p != null ==> i < |chains| && l <= |chains[i]|
  {
    if p == null then [] else From(chains, i, l)
  }

  /** The place of the entry that follows, if there is one. */
  lemma GoOn(chains: seq<seq<Entry>>, i: nat, l: nat, q: Entry?) returns (i': nat, l': nat)
    requires i < |chains| && l < |chains[i]| && q == At(From(chains, i, l + 1), 0)
    ensures q != null ==> i' < |chains| && l' < |chains[i']| && q == chains[i'][l']
    ensures From(chains, i, l) == [chains[i][l]] + Coming(chains, q, i', l')
  {
    Here(chains, i, l);
    i', l' := i, l;
    if q != null {
      i', l' := NextPlace(chains, i, l);
      Here(chains, i', l');
    }
  }

  /** Goes on from the entry at a place of the listing. */
  method Advance(tab: array<Entry?>, p: Entry, ghost t: Table, ghost i: nat, ghost l: nat)
    returns (q: Entry?, ghost i': nat, ghost l': nat)
    requires Matches(tab, t.slots, t.cells) && i < |t.chains| && l < |t.chains[i]| && p == t.chains[i][l]
    ensures q != null ==> i' < |t.chains| && l' < |t.chains[i']| && q == t.chains[i'][l']
    ensures From(t.chains, i, l) == [p] + Coming(t.chains, q, i', l')
  {
    PlaceIsHome(t, i, l);
    q := Next(tab, p, t, l);
    i', l' := GoOn(t.chains, i, l, q);
  }

  /** The entries one after the other, as begin and next give them. */
  method ForEach(tab: array<Entry?>, ghost t: Table) returns (visited: seq<Entry>)
    requires Matches(tab, t.slots, t.cells)
    ensures visited == Flat(t.chains, 0)
  {
    visited := [];
    ghost var all := Flat(t.chains, 0);
    var p := FirstFrom(tab, 0, t);
    ghost var i: nat, l: nat := 0, 0;
    if p != null {
      i := FirstPlace(t.chains, 0);
      Here(t.chains, i, 0);
    }
    while p != null
      invariant p != null ==> i < |t.chains| && l < |t.chains[i]| && p == t.chains[i][l]
      invariant all == visited + Coming(t.chains, p, i, l)
      decreases |all| - |visited|
    {
      var e: Entry := p;
      p, i, l := Advance(tab, e, t, i, l);
      Assoc(visited, [e], Coming(t.chains, p, i, l));
      visited := visited + [e];
    }
  }

  lemma {:induction false} SizeOf(ks: seq<Key>, s: set<Key>)
    requires forall i, j | 0 <= i < j < |ks| :: ks[i] != ks[j]
    requires (forall k | k in ks :: k in s) && forall k | k in s :: k in ks
    ensures |ks| == |s|
  {
    if ks == [] {
      assert s == {};
    } else {
      var rest := ks[1..];
      assert ks == [ks[0]] + rest;
      SizeOf(rest, s - {ks[0]});
    }
  }

  lemma ListedKeys(m: Store, list: seq<Entry>)
    requires forall e | e in list :: e in m.table.cells
    requires (forall e | e in m.table.cells :: e in list) && NoDup(list)
    ensures |list| == |m.contents|
    ensures forall i, j | 0 <= i < j < |list| :: m.table.cells[list[i]].key != m.table.cells[list[j]].key
  {
    var cells := m.table.cells;
    forall i | 0 <= i < |list|
      ensures list[i] in cells && cells[list[i]].key in m.contents && m.holder[cells[list[i]].key] == list[i] {
      assert list[i] in list;
    }
    var ks := seq(|list|, i requires 0 <= i < |list| => cells[list[i]].key);
    forall i, j | 0 <= i < j < |ks| ensures ks[i] != ks[j] {
      assert list[i] != list[j];
    }
    forall k | k in m.contents ensures k in ks {
      var e := m.holder[k];
      assert e in cells && e in list;
      var i :| 0 <= i < |list| && list[i] == e;
      assert ks[i] == k;
    }
    SizeOf(ks, m.contents.Keys);
  }

  /** The listing holds each binding of the map, and each once. */
  lemma Listing(m: Store)
    ensures var list := Flat(m.table.chains, 0);
      && |list| == |m.contents|
      && (forall e | e in list :: e in m.table.cells && m.table.cells[e].key in m.contents
            && m.table.cells[e].value == m.contents[m.table.cells[e].key])
      && forall i, j | 0 <= i < j < |list| :: m.table.cells[list[i]].key != m.table.cells[list[j]].key
  {
    FlatIn(m.table, 0);
    FlatDistinct(m.table, 0);
    ListedKeys(m, Flat(m.table.chains, 0));
  }

  class HashTable {
    const hash: Key -> nat
    var tab: array<Entry?>
    var nelem: nat
    ghost var m: Store

    /** The bindings the table holds. */
    ghost function Contents(): map<Key, Value>
      reads this
    {
      m.contents
    }

    ghost predicate Valid()
      reads this, tab, m.table.cells.Keys
    {
      && Matches(tab, m.table.slots, m.table.cells) && m.hash == hash
      && nelem == |m.contents| && 10 * nelem <= 13 * tab.Length + 10
    }

    constructor (size: nat, hash: Key -> nat)
      requires size > 0
      ensures Valid() && fresh(tab) && Contents() == map[] && m.table.cells == map[] && this.hash == hash
    {
      this.hash := hash;
      tab := new Entry?[size](_ => null);
      nelem := 0;
      m := Model(Empty(size), map[], map[], hash);
    }

    /** The entry that holds a key. */
    method GetEntry(key: Key) returns (p: Entry?)
      requires Valid()
      ensures p == null <==> key !in Contents()
      ensures p != null ==> p in m.table.cells && p.key == key && p.value == Contents()[key]
    {
      ghost var c := Holder(m, key);
      p := Search(key, tab[Bucket(hash(key), tab.Length)], c, m.table.cells);
      assert p != null ==> CellOf(p) == m.table.cells[p];
    }

    method Get(key: Key) returns (r: Option<Value>)
      requires Valid()
      ensures r == if key in Contents() then Some(Contents()[key]) else None
    {
      var p := GetEntry(key);
      r := if p != null then Some(p.value) else None;
    }

    /** Lists the table: each binding once. */
    method Entries() returns (list: seq<Entry>)
      requires Valid()
      ensures |list| == |Contents()|
      ensures forall i, j | 0 <= i < j < |list| :: list[i].key != list[j].key
      ensures forall e | e in list :: e.key in Contents() && e.value == Contents()[e.key]
    {
      list := ForEach(tab, m.table);
      Listing(m);
      forall e | e in list
        ensures e in m.table.cells && e.key == m.table.cells[e].key && e.value == m.table.cells[e].value {
        assert CellOf(e) == m.table.cells[e];
      }
    }

    /** Takes note of what the table has become. */
    method Record(tab2: array<Entry?>, ghost m': Store, n: nat)
      requires Matches(tab2, m'.table.slots, m'.table.cells) && m'.hash == hash
      requires n == |m'.contents| && 10 * n <= 13 * tab2.Length + 10
      modifies `tab, `m, `nelem
      ensures Valid() && tab == tab2 && m == m' && nelem == n
    {
      hide Built, Represents;
      tab := tab2;
      m := m';
      nelem := n;
    }

    /** Gives the entry of a key a new value. */
    method Replace(p: Entry, key: Key, value: Value)
      requires Valid() && p in m.table.cells && p.key == key
      modifies `tab, `m, `nelem, p`key, p`value
      ensures Valid() && tab == old(tab) && Contents() == old(Contents())[key := value]
        && m.table.cells.Keys == old(m.table.cells.Keys)
    {
      hide Built, Represents, Homed, Rooted;
      ghost var m' := ReplaceIn(tab, p, key, value, m);
      Record(tab, m', nelem);
    }

    method PutNew(key: Key, value: Value)
      requires Valid() && key !in Contents()
      modifies this, tab, m.table.cells.Keys`next, m.table.cells.Keys`prev
      ensures Valid() && Contents() == old(Contents())[key := value]
      ensures (tab == old(tab) || fresh(tab)) && fresh(m.table.cells.Keys - old(m.table.cells.Keys))
    {
      hide Built, Represents, Homed, Rooted;
      var tab2, m' := GrowAndAdd(tab, nelem, hash(key), key, value, m);
      Record(tab2, m', nelem + 1);
    }

    /** Binds a key to a value; the table grows when it has become too full. */
    method Put(key: Key, value: Value)
      requires Valid()
      modifies this, tab, m.table.cells.Keys
      ensures Valid() && Contents() == old(Contents())[key := value]
      ensures (tab == old(tab) || fresh(tab)) && fresh(m.table.cells.Keys - old(m.table.cells.Keys))
    {
      hide Built, Represents, Homed, Rooted;
      var p := GetEntry(key);
      if p != null {
        Replace(p, key, value);
      } else {
        PutNew(key, value);
      }
    }

    /** Takes an entry out of the table. */
    method Drop(p: Entry, key: Key)
      requires Valid() && p in m.table.cells && p.key == key
      modifies this, tab, m.table.cells.Keys`next, m.table.cells.Keys`prev
      ensures Valid() && Contents() == old(Contents()) - {key} && tab == old(tab)
      ensures m.table.cells.Keys <= old(m.table.cells.Keys)
    {
      hide Built, Represents, Homed, Rooted;
      ghost var m' := RemoveFrom(tab, p, m);
      Record(tab, m', nelem - 1);
    }

    /** Removes a key's binding, if it has one. */
    method Remove(key: Key)
      requires Valid()
      modifies this, tab, m.table.cells.Keys
      ensures Valid() && Contents() == old(Contents()) - {key} && tab == old(tab)
      ensures m.table.cells.Keys <= old(m.table.cells.Keys)
    {
      hide Built, Represents, Homed, Rooted, Matches;
      var p := GetEntry(key);
      if p != null {
        Drop(p, key);
      } else {
        assert m.contents - {key} == m.contents;
      }
    }

    /** Empties every bucket. */
    method Clean()
      requires Valid()
      modifies this, tab
      ensures Valid() && Contents() == map[] && tab == old(tab) && m.table.cells == map[]
    {
      hide Built, Represents;
      HasSlots(m);
      ClearBuckets(tab);
      Record(tab, Unbound(tab.Length, hash), 0);
    }
  }

  method ClearBuckets(tab: array<Entry?>)
    modifies tab
    ensures forall i | 0 <= i < tab.Length :: tab[i] == null
  {
    var i := 0;
    while i < tab.Length
      invariant i <= tab.Length && forall j | 0 <= j < i :: tab[j] == null
    {
      tab[i] := null;
      i := i + 1;
    }
  }

  /** Walks a chain to the first entry with the key. */
  method Search(key: Key, first: Entry?, ghost c: seq<Entry>, ghost cells: map<Entry, Cell>) returns (p: Entry?)
    requires Chained(c, cells) && first == At(c, 0) && forall k | 0 <= k < |c| :: CellOf(c[k]) == cells[c[k]]
    ensures if p != null then p in c && p.key == key else forall k | 0 <= k < |c| :: cells[c[k]].key != key
  {
    ghost var k := 0;
    p := first;
    while p != null
      invariant 0 <= k <= |c| && p == At(c, k)
      invariant forall l | 0 <= l < k :: cells[c[l]].key != key
      decreases |c| - k
    {
      assert CellOf(c[k]) == cells[c[k]];
      if key == p.key {
        return;
      }
      p := p.next;
      k := k + 1;
    }
  }
}
