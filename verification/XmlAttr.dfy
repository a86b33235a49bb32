/**
The attributes of an element: a list of name and value pairs in which no name occurs twice, in
an array that grows by sixteen. Clearing the last attribute frees the array and leaves the
element pointing to it; an attribute set after that is given to a freed array.
*/
module XmlAttr {
  import opened Common
  import opened XmlShape

  predicate Distinct(attrs: seq<Attr>) {
    forall i, j | 0 <= i < j < |attrs| :: attrs[i].name != attrs[j].name
  }

  /** The place of the attribute of that name, or the end of the list. */
  function IndexOf(attrs: seq<Attr>, name: seq<Byte>): (i: nat)
    ensures i <= |attrs| && (i < |attrs| ==> attrs[i].name == name)
    ensures forall j | 0 <= j < i :: attrs[j].name != name
  {
    if attrs == [] || attrs[0].name == name then 0 else 1 + IndexOf(attrs[1..], name)
  }

  /** The value of the first attribute of that name. */
  function AttrOf(attrs: seq<Attr>, name: seq<Byte>): Option<seq<Byte>> {
    var i := IndexOf(attrs, name);
    if i < |attrs| then attrs[i].value else None
  }

  /** Replaces the value of the attribute of that name, or adds one. */
  function SetAttr(attrs: seq<Attr>, name: seq<Byte>, value: Option<seq<Byte>>): seq<Attr> {
    var i := IndexOf(attrs, name);
    if i < |attrs| then attrs[i := Attr(name, value)] else attrs + [Attr(name, value)]
  }

  function ClearAttr(attrs: seq<Attr>, name: seq<Byte>): seq<Attr> {
    var i := IndexOf(attrs, name);
    if i < |attrs| then attrs[..i] + attrs[i + 1..] else attrs
  }

  /** In a list without double names, a place whose name fits is the place looked up. */
  lemma IndexIs(attrs: seq<Attr>, name: seq<Byte>, i: nat)
    requires i <= |attrs| && (i < |attrs| ==> attrs[i].name == name)
    requires forall j | 0 <= j < i :: attrs[j].name != name
    ensures IndexOf(attrs, name) == i
  {
    var k := IndexOf(attrs, name);
    assert k < |attrs| ==> attrs[k].name == name;
  }

  /** Setting an attribute changes that attribute and no other, and keeps the names distinct. */
  lemma SetIsRead(attrs: seq<Attr>, name: seq<Byte>, value: Option<seq<Byte>>, other: seq<Byte>)
    requires Distinct(attrs)
    ensures Distinct(SetAttr(attrs, name, value))
    ensures AttrOf(SetAttr(attrs, name, value), other) == if other == name then value else AttrOf(attrs, other)
  {
    var after := SetAttr(attrs, name, value);
    var i := IndexOf(attrs, name);
    if other == name {
      IndexIs(after, name, i);
    } else {
      var j := IndexOf(attrs, other);
      IndexIs(after, other, if j == |attrs| then |after| else j);
    }
  }

  /** Clearing an attribute removes it and leaves the others as they were. */
  lemma ClearIsRead(attrs: seq<Attr>, name: seq<Byte>, other: seq<Byte>)
    requires Distinct(attrs)
    ensures Distinct(ClearAttr(attrs, name))
    ensures AttrOf(ClearAttr(attrs, name), other) == if other == name then None else AttrOf(attrs, other)
  {
    hide Distinct, IndexOf;
    var after := ClearAttr(attrs, name);
    var i := IndexOf(attrs, name);
    if i < |attrs| {
      ClearedDistinct(attrs, i);
      ClearedIndex(attrs, i, other);
    }
  }

  lemma ClearedDistinct(attrs: seq<Attr>, i: nat)
    requires Distinct(attrs) && i < |attrs|
    ensures Distinct(attrs[..i] + attrs[i + 1..])
  {
    var after := attrs[..i] + attrs[i + 1..];
    assert forall k | 0 <= k < |after| :: after[k] == attrs[if k < i then k else k + 1];
  }

  lemma ClearedIndex(attrs: seq<Attr>, i: nat, other: seq<Byte>)
    requires Distinct(attrs) && i < |attrs|
    ensures var after, j := attrs[..i] + attrs[i + 1..], IndexOf(attrs, other);
      IndexOf(after, other) == if other == attrs[i].name then |after| else if j <= i then j else j - 1
  {
    var after, j := attrs[..i] + attrs[i + 1..], IndexOf(attrs, other);
    assert forall k | 0 <= k < |after| :: after[k] == attrs[if k < i then k else k + 1];
    IndexIs(after, other, if other == attrs[i].name then |after| else if j <= i then j else j - 1);
  }

  // ---------------------------------------------------------------- the array

  const ALLOC_SIZE: nat := 16

  /** The array that an element points to: none yet, one with room for so many, or one that has been freed. */
  datatype Block = Unset | Held(room: nat) | Freed

  datatype Store = Store(list: seq<Attr>, block: Block)

  predicate Fits(s: Store) {
    if s.block.Held? then s.list != [] && s.block.room % ALLOC_SIZE == 0 && |s.list| <= s.block.room else s.list == []
  }

  /** Sets an attribute; nothing when that would reallocate a freed array. */
  function StoreSet(s: Store, name: seq<Byte>, value: Option<seq<Byte>>): Option<Store> {
    var i := IndexOf(s.list, name);
    if i < |s.list| then Some(Store(s.list[i := Attr(name, value)], s.block))
    else if |s.list| % ALLOC_SIZE != 0 then Some(Store(s.list + [Attr(name, value)], s.block))
    else if s.block.Freed? then None
    else Some(Store(s.list + [Attr(name, value)], Held(|s.list| + ALLOC_SIZE)))
  }

  function StoreClear(s: Store, name: seq<Byte>): Store {
    var i := IndexOf(s.list, name);
    if i == |s.list| then s
    else
      var list := s.list[..i] + s.list[i + 1..];
      Store(list, if list == [] then Freed else s.block)
  }

  /**
  An attribute can be set exactly if the array has not been freed; then it fits in the array,
  it is read back, and the other attributes are as they were.
  */
  lemma SetIsStored(s: Store, name: seq<Byte>, value: Option<seq<Byte>>, other: seq<Byte>)
    requires Fits(s) && Distinct(s.list)
    ensures StoreSet(s, name, value).Some? <==> !s.block.Freed?
    ensures StoreSet(s, name, value).Some? ==>
      var after := StoreSet(s, name, value).value;
      && Fits(after) && after.block.Held? && after.list == SetAttr(s.list, name, value) && Distinct(after.list)
      && AttrOf(after.list, other) == if other == name then value else AttrOf(s.list, other)
  {
    SetIsRead(s.list, name, value, other);
  }

  /** Clearing removes that attribute only, and frees the array exactly if it was the last. */
  lemma ClearIsStored(s: Store, name: seq<Byte>, other: seq<Byte>)
    requires Fits(s) && Distinct(s.list)
    ensures var after := StoreClear(s, name);
      && Fits(after) && after.list == ClearAttr(s.list, name) && Distinct(after.list)
      && AttrOf(after.list, other) == (if other == name then None else AttrOf(s.list, other))
      && (after.block.Freed? <==> s.block.Freed? || (|s.list| == 1 && s.list[0].name == name))
  {
    ClearIsRead(s.list, name, other);
  }

  datatype Op = SetOp(name: seq<Byte>, value: Option<seq<Byte>>) | ClearOp(name: seq<Byte>)

  /** What an operation makes of a store. */
  function Applied(s: Store, op: Op): Option<Store> {
    match op
    case SetOp(name, value) => StoreSet(s, name, value)
    case ClearOp(name) => Some(StoreClear(s, name))
  }

  function AppliedToList(attrs: seq<Attr>, op: Op): seq<Attr> {
    match op
    case SetOp(name, value) => SetAttr(attrs, name, value)
    case ClearOp(name) => ClearAttr(attrs, name)
  }

  /** The attributes after some operations on a new element, were there no array. */
  function Listed(ops: seq<Op>): seq<Attr> {
    if ops == [] then [] else AppliedToList(Listed(ops[..|ops| - 1]), ops[|ops| - 1])
  }

  /** The element after some operations on a new one, as far as they are defined. */
  function Outcome(ops: seq<Op>): Option<Store> {
    if ops == [] then Some(Store([], Unset))
    else
      match Outcome(ops[..|ops| - 1])
      case None => None
      case Some(s) => Applied(s, ops[|ops| - 1])
  }

  ghost predicate AnySet(ops: seq<Op>) {
    exists i | 0 <= i < |ops| :: ops[i].SetOp?
  }

  /** Operation n sets an attribute of an element that has had one and has none. */
  ghost predicate SetsAnew(ops: seq<Op>, n: nat) {
    n < |ops| && ops[n].SetOp? && AnySet(ops[..n]) && Listed(ops[..n]) == []
  }

  /** As long as the operations are defined, the array is freed exactly if there are no attributes any more. */
  ghost predicate AsListed(ops: seq<Op>, s: Store) {
    && Fits(s) && Distinct(s.list) && s.list == Listed(ops)
    && (s.block.Unset? <==> !AnySet(ops)) && (s.block.Freed? <==> AnySet(ops) && Listed(ops) == [])
  }

  lemma AnySetStep(ops: seq<Op>)
    requires ops != []
    ensures AnySet(ops) <==> AnySet(ops[..|ops| - 1]) || ops[|ops| - 1].SetOp?
  {
    var n := |ops| - 1;
    assert forall i | 0 <= i < n :: ops[..n][i] == ops[i];
    assert ops[n].SetOp? ==> AnySet(ops);
  }

  lemma AppliedIsStored(s: Store, op: Op)
    requires Fits(s) && Distinct(s.list)
    ensures Applied(s, op).None? <==> op.SetOp? && s.block.Freed?
    ensures Applied(s, op).Some? ==>
      var after := Applied(s, op).value;
      && Fits(after) && Distinct(after.list) && after.list == AppliedToList(s.list, op)
      && (op.SetOp? ==> after.block.Held? && after.list != [])
      && (op.ClearOp? ==> (after.block.Unset? <==> s.block.Unset?))
  {
    match op
    case SetOp(name, value) => SetIsStored(s, name, value, name);
    case ClearOp(name) => ClearIsStored(s, name, name);
  }

  lemma OutcomeStep(ops: seq<Op>, s: Store)
    requires ops != [] && AsListed(ops[..|ops| - 1], s) && Outcome(ops[..|ops| - 1]) == Some(s)
    ensures Outcome(ops).None? <==> SetsAnew(ops, |ops| - 1)
    ensures Outcome(ops).Some? ==> AsListed(ops, Outcome(ops).value)
  {
    hide Outcome, Listed, Applied, AppliedToList, Distinct, AnySet;
    OutcomeUnfolds(ops);
    AnySetStep(ops);
    AppliedIsStored(s, ops[|ops| - 1]);
  }

  lemma OutcomeUnfolds(ops: seq<Op>)
    requires ops != []
    ensures var before, op := ops[..|ops| - 1], ops[|ops| - 1];
      && Listed(ops) == AppliedToList(Listed(before), op)
      && Outcome(ops) == if Outcome(before).None? then None else Applied(Outcome(before).value, op)
  {
  }

  /**
  A run of operations on a new element is defined exactly if none of them sets an attribute when
  the element has had one and has none; then the list is as if there were no array.
  */
  lemma {:induction false} DefinedExactly(ops: seq<Op>)
    ensures Outcome(ops).Some? <==> forall n: nat :: !SetsAnew(ops, n)
    ensures Outcome(ops).Some? ==> AsListed(ops, Outcome(ops).value)
  {
    if ops == [] {
      NoOps();
      return;
    }
    hide Outcome, Listed, AnySet, SetsAnew, AsListed;
    var n := |ops| - 1;
    DefinedExactly(ops[..n]);
    OutcomeUnfolds(ops);
    SetsAnewWithin(ops, n);
    if Outcome(ops[..n]).Some? {
      OutcomeStep(ops, Outcome(ops[..n]).value);
    }
  }

  lemma NoOps()
    ensures Outcome([]).Some? && AsListed([], Outcome([]).value) && forall n: nat :: !SetsAnew([], n)
  {
  }

  /** What an operation is, is seen from those up to it. */
  lemma SetsAnewWithin(ops: seq<Op>, n: nat)
    requires n + 1 == |ops|
    ensures forall k: nat :: SetsAnew(ops, k) <==> SetsAnew(ops[..n], k) || (k == n && SetsAnew(ops, k))
  {
    hide Listed, AnySet;
    forall k: nat | k < n ensures SetsAnew(ops, k) <==> SetsAnew(ops[..n], k) {
      assert ops[..n][..k] == ops[..k];
    }
  }

  /** Setting x, clearing it and setting another: the last is given to the freed array. */
  lemma ClearedThenSet(x: seq<Byte>, y: seq<Byte>, a: Option<seq<Byte>>, b: Option<seq<Byte>>)
    ensures Outcome([SetOp(x, a), ClearOp(x)]) == Some(Store([], Freed))
    ensures Outcome([SetOp(x, a), ClearOp(x), SetOp(y, b)]) == None
  {
    var ops := [SetOp(x, a), ClearOp(x), SetOp(y, b)];
    var two, one := [SetOp(x, a), ClearOp(x)], [SetOp(x, a)];
    assert ops[..2] == two && two[..1] == one && one[..0] == [];
    assert IndexOf([], x) == 0 && IndexOf([], y) == 0;
    assert [] + [Attr(x, a)] == [Attr(x, a)];
    assert StoreSet(Store([], Unset), x, a) == Some(Store([Attr(x, a)], Held(16)));
    assert Outcome(one) == Applied(Store([], Unset), one[0]) == Some(Store([Attr(x, a)], Held(16)));
    assert Outcome(two) == Applied(Store([Attr(x, a)], Held(16)), two[1]) == Some(Store([], Freed));
  }

  // ---------------------------------------------------------------- the loops

  class Attributes {
    var list: seq<Attr>
    var block: Block

    ghost function Value(): Store
      reads this
    {
      Store(list, block)
    }

    constructor ()
      ensures Value() == Store([], Unset)
    {
      list, block := [], Unset;
    }

    method Find(name: seq<Byte>) returns (i: nat)
      ensures i == IndexOf(list, name)
    {
      i := 0;
      while i < |list|
        invariant i <= |list| && forall j | 0 <= j < i :: list[j].name != name
      {
        if list[i].name == name {
          break;
        }
        i := i + 1;
      }
      IndexIs(list, name, i);
    }

    method Get(name: seq<Byte>) returns (value: Option<seq<Byte>>)
      ensures value == AttrOf(list, name)
    {
      var i := Find(name);
      value := if i < |list| then list[i].value else None;
    }

    /** Sets an attribute; not defined when the array has been freed. */
    method Set(name: seq<Byte>, value: Option<seq<Byte>>) returns (defined: bool)
      requires Fits(Value())
      modifies this
      ensures Fits(Value()) && (defined <==> !old(block).Freed?)
      ensures if defined then StoreSet(old(Value()), name, value) == Some(Value()) else Value() == old(Value())
      ensures defined ==> list == SetAttr(old(list), name, value) && block.Held?
    {
      var i := Find(name);
      if i < |list| {
        list := list[i := Attr(name, value)];
        return true;
      }
      if |list| % ALLOC_SIZE == 0 {
        if block.Freed? {
          return false;
        }
        block := Held(|list| + ALLOC_SIZE);
      }
      list := list + [Attr(name, value)];
      defined := true;
    }

    /** Takes an attribute out; the array is freed with the last. */
    method Clear(name: seq<Byte>)
      requires Fits(Value())
      modifies this
      ensures Fits(Value()) && Value() == StoreClear(old(Value()), name) && list == ClearAttr(old(list), name)
      ensures block.Freed? <==> old(block).Freed? || (|old(list)| == 1 && old(list)[0].name == name)
    {
      var i := Find(name);
      if i < |list| {
        list := list[..i] + list[i + 1..];
        if |list| == 0 {
          block := Freed;
        }
      }
    }
  }
}
