/**
The network proxy's rings and transmit loop, updated in place. Ring is one bounded priority
queue over a fixed array; NetProxy holds eight of them. Every operation is proved to make
the change of state that ProxyProtocol gives for it.
*/
module ProxyObjects {
  import opened Common
  import opened ProxyProtocol

  /** The place in the array of the i-th node, when the first is at head. */
  function Slot(head: nat, i: nat): (j: nat)
    ensures j < CAPACITY
  {
    (head + i) % CAPACITY
  }

  lemma SlotsApart(head: nat, i: nat, j: nat)
    requires i < j < i + CAPACITY
    ensures Slot(head, i) != Slot(head, j)
  {
  }

  lemma SlotOn(head: nat, i: nat)
    ensures Slot(Slot(head, 1), i) == Slot(head, i + 1)
  {
  }

  /** The queued nodes, oldest first. */
  function Read(nodes: seq<Node>, head: nat, count: nat): (xs: seq<Node>)
    requires |nodes| == CAPACITY
    ensures |xs| == count && forall i | 0 <= i < count :: xs[i] == nodes[Slot(head, i)]
  {
    seq(count, i requires 0 <= i < count => nodes[Slot(head, i)])
  }

  lemma ReadPushed(nodes: seq<Node>, head: nat, count: nat, x: Node)
    requires |nodes| == CAPACITY && count < CAPACITY
    ensures Read(nodes[Slot(head, count) := x], head, count + 1) == Read(nodes, head, count) + [x]
  {
    hide Slot, Read;
    var all := Read(nodes, head, count) + [x];
    forall i | 0 <= i < count + 1 ensures Read(nodes[Slot(head, count) := x], head, count + 1)[i] == all[i] {
      if i < count {
        SlotsApart(head, i, count);
      }
    }
  }

  lemma ReadPopped(nodes: seq<Node>, head: nat, count: nat)
    requires |nodes| == CAPACITY && head < CAPACITY && count > 0
    ensures Read(nodes, head, count) == [nodes[head]] + Read(nodes, Slot(head, 1), count - 1)
  {
    assert Slot(head, 0) == head;
    forall i | 0 < i < count ensures Read(nodes, head, count)[i] == Read(nodes, Slot(head, 1), count - 1)[i - 1] {
      hide Slot, Read;
      SlotOn(head, i - 1);
    }
  }

  class Ring {
    const nodes: array<Node>
    var head: nat
    var tail: nat
    var count: nat

    ghost predicate Valid()
      reads this
    {
      && nodes.Length == CAPACITY
      && head < CAPACITY && count <= CAPACITY
      && tail == Slot(head, count)
    }

    ghost function Contents(): (xs: seq<Node>)
      requires Valid()
      reads this, nodes
      ensures |xs| == count
    {
      Read(nodes[..], head, count)
    }

    constructor ()
      ensures Valid() && Contents() == [] && fresh(nodes)
    {
      nodes := new Node[CAPACITY](_ => Node(0, 0));
      head, tail, count := 0, 0, 0;
    }

    method Push(x: Node) returns (ok: bool)
      requires Valid()
      modifies this, nodes
      ensures Valid()
      ensures ok == (old(count) < CAPACITY)
      ensures Contents() == if ok then old(Contents()) + [x] else old(Contents())
    {
      ok := false;
      if count < CAPACITY {
        ReadPushed(nodes[..], head, count, x);
        ghost var after := nodes[..][tail := x];
        nodes[tail] := x;
        assert nodes[..] == after;
        tail := (tail + 1) % CAPACITY;
        count := count + 1;
        ok := true;
      }
    }

    method Pop() returns (ok: bool, x: Node)
      requires Valid()
      modifies this
      ensures Valid()
      ensures ok == (old(Contents()) != [])
      ensures ok ==> old(Contents()) == [x] + Contents()
      ensures !ok ==> Contents() == []
    {
      ok := false;
      x := nodes[head];
      if count > 0 {
        ReadPopped(nodes[..], head, count);
        SlotOn(head, count - 1);
        head := (head + 1) % CAPACITY;
        count := count - 1;
        ok := true;
      }
    }
  }

  lemma {:induction false} ReachableStep(s: State, step: Step)
    requires Reachable(s) && Shaped(s) && Enabled(s, step)
    ensures Reachable(Apply(s, step))
  {
    var steps :| Possible(INIT, steps) && Execute(INIT, steps) == s;
    ExecuteMore(INIT, steps, step);
  }

  lemma {:induction false} ExecuteMore(s: State, steps: seq<Step>, step: Step)
    requires Shaped(s) && Possible(s, steps) && Enabled(Execute(s, steps), step)
    ensures Possible(s, steps + [step]) && Execute(s, steps + [step]) == Apply(Execute(s, steps), step)
    decreases |steps|
  {
    if steps == [] {
      assert steps + [step] == [step];
      assert Possible(Apply(s, step), [step][1..]);
    } else {
      ExecuteMore(Apply(s, steps[0]), steps[1..], step);
      assert (steps + [step])[1..] == steps[1..] + [step];
    }
  }

  class NetProxy {
    const rings: seq<Ring>
    ghost var state: State

    ghost function Repr(): set<object>
      reads this
    {
      {this} + (set r: Ring | r in rings) + (set r: Ring | r in rings :: r.nodes)
    }

    ghost predicate Valid()
      reads this, Repr()
    {
      && |rings| == LEVELS && Shaped(state) && Reachable(state)
      && (forall p, q | 0 <= p < q < LEVELS :: rings[p] != rings[q] && rings[p].nodes != rings[q].nodes)
      && (forall p | 0 <= p < LEVELS :: rings[p].Valid() && rings[p].Contents() == state.rings[p])
    }

    constructor ()
      ensures Valid() && state == INIT && fresh(Repr())
    {
      var rs: seq<Ring> := [];
      while |rs| < LEVELS
        invariant |rs| <= LEVELS
        invariant forall p | 0 <= p < |rs| ::
          fresh(rs[p]) && fresh(rs[p].nodes) && rs[p].Valid() && rs[p].Contents() == []
        invariant forall p, q | 0 <= p < q < |rs| :: rs[p] != rs[q] && rs[p].nodes != rs[q].nodes
      {
        var r := new Ring();
        rs := rs + [r];
      }
      rings := rs;
      state := INIT;
      assert Possible(INIT, []) && Execute(INIT, []) == INIT;
    }

    method PushNode(x: Node, ghost priority: nat) returns (ok: bool)
      requires Valid() && x == Node(|state.accepted|, Clamp(priority))
      modifies Repr()
      ensures Valid() && state == Apply(old(state), Submit(priority))
      ensures ok == (|old(state).rings[x.level]| < CAPACITY)
    {
      hide Reachable;
      ReachableStep(state, Submit(priority));
      ok := rings[x.level].Push(x);
      state := Apply(state, Submit(priority));
    }

    /**
    `id` numbers the submission; an out-of-range priority counts as 0. Nothing is done without an
    address, a URL and data.
    */
    method PushToPrioQueue(id: nat, destIp: Option<string>, priority: nat, url: Option<string>, data: Option<string>)
      returns (ok: bool)
      requires Valid() && id == |state.accepted|
      modifies Repr()
      ensures Valid()
      ensures forall p: Level | p == priority || (priority >= LEVELS && p == 0) ::
        && ok == (destIp.Some? && url.Some? && data.Some? && |old(state).rings[p]| < CAPACITY)
        && state.rings == (if ok then old(state).rings[p := old(state).rings[p] + [Node(id, p)]] else old(state).rings)
        && state.accepted == old(state).accepted + if ok then [Node(id, p)] else []
      ensures |state.accepted| == |old(state).accepted| + if ok then 1 else 0
      ensures state == if destIp.Some? && url.Some? && data.Some? then Apply(old(state), Submit(priority))
        else old(state)
    {
      if destIp.None? || url.None? || data.None? {
        return false;
      }
      ok := PushNode(Node(id, if priority >= LEVELS then 0 else priority), priority);
    }

    /** One turn of the loop that looks for a node, at level p. */
    method PopFrom(p: Level) returns (popped: bool, x: Node)
      requires Valid() && state.transmitter == Looking(p)
      modifies this, rings
      ensures Valid() && state == Apply(old(state), Look)
      ensures popped == (old(state).rings[p] != [])
      ensures popped ==> x == old(state).rings[p][0]
    {
      hide Reachable;
      ReachableStep(state, Look);
      popped, x := rings[p].Pop();
      state := Apply(state, Look);
    }

    /** One look at a ring above the level of the node in hand. */
    method LookInto(p: Level) returns (waiting: bool)
      requires Valid() && state.transmitter.Checking? && state.transmitter.level == p > state.transmitter.node.level
      modifies this
      ensures Valid() && state == Apply(old(state), Check)
      ensures waiting == (old(state).rings[p] != [])
    {
      hide Reachable;
      ReachableStep(state, Check);
      assert rings[p].Contents() == state.rings[p];
      waiting := rings[p].count > 0;
      state := Apply(state, Check);
    }

    method PutBackNode(x: Node)
      requires Valid() && state.transmitter == PuttingBack(x)
      modifies Repr()
      ensures Valid() && state == Apply(old(state), PutBack)
    {
      hide Reachable;
      ReachableStep(state, PutBack);
      var kept := rings[x.level].Push(x);
      state := Apply(state, PutBack);
    }

    method SendNode()
      requires Valid() && Enabled(state, Send)
      modifies this
      ensures Valid() && state == Apply(old(state), Send)
    {
      hide Reachable;
      ReachableStep(state, Send);
      state := Apply(state, Send);
    }

    /** Looks for a node from the highest ring down; takes the head of the first ring that has one. */
    method TakeHighest() returns (popped: bool, x: Node, ghost from: Level)
      requires Valid() && AtTop(state)
      modifies this, rings
      ensures Valid()
      ensures popped ==> Highest(old(state).rings, from) && x == old(state).rings[from][0]
      ensures popped ==> state == Apply(old(state).(transmitter := Looking(from)), Look)
      ensures !popped ==> state == Restart(old(state)) && EmptyBetween(old(state).rings, -1, LEVELS - 1)
    {
      hide Reachable;
      ghost var start := state;
      var i := LEVELS - 1;
      x, from := Node(0, 0), 0;
      while i >= 0
        invariant -1 <= i < LEVELS
        invariant Valid()
        invariant state == LookedDownTo(start, i)
        invariant EmptyBetween(start.rings, i, LEVELS - 1)
      {
        popped, x := PopFrom(i);
        if popped {
          from := i;
          return;
        }
        i := i - 1;
      }
      popped := false;
    }

    /** With x in hand, looks into each ring above x's own, highest first. */
    method CheckHigherPriorityWaiting(x: Node) returns (waiting: bool, ghost above: Level)
      requires Valid() && state.transmitter == Checking(x, LEVELS - 1)
      modifies this
      ensures Valid()
      ensures waiting ==> above > x.level && Highest(old(state).rings, above)
      ensures waiting ==> state == Apply(old(state).(transmitter := Checking(x, above)), Check)
      ensures !waiting ==> EmptyBetween(old(state).rings, x.level, LEVELS - 1)
      ensures !waiting ==> state == old(state).(transmitter := Checking(x, x.level))
    {
      hide Reachable;
      ghost var start := state;
      var i := LEVELS - 1;
      above := 0;
      while i > x.level
        invariant x.level <= i < LEVELS
        invariant Valid()
        invariant state == start.(transmitter := Checking(x, i))
        invariant EmptyBetween(start.rings, i, LEVELS - 1)
      {
        waiting := LookInto(i);
        if waiting {
          above := i;
          return;
        }
        i := i - 1;
      }
      waiting := false;
    }

    /** With x in hand: sends it, or puts it back when something higher waits. */
    method SendOrPutBack(x: Node) returns (ghost preempted: bool, ghost above: Level)
      requires Valid() && state.transmitter == Checking(x, LEVELS - 1)
      modifies Repr()
      ensures Valid()
      ensures preempted <==> !EmptyBetween(old(state).rings, x.level, LEVELS - 1)
      ensures preempted ==>
        above > x.level && Highest(old(state).rings, above) && state == PreemptedBy(old(state), x, above)
      ensures !preempted ==> state == SentNow(old(state), x)
    {
      hide Reachable;
      ghost var start := state;
      var waiting;
      waiting, above := CheckHigherPriorityWaiting(x);
      preempted := waiting;
      if waiting {
        PutBackNode(x);
      } else {
        SendNode();
      }
    }

    /** One turn of the transmit loop. With producers idle it sends the head of the highest non-empty ring. */
    method TransmitTurn() returns (popped: bool, ghost from: Level)
      requires Valid() && AtTop(state)
      modifies Repr()
      ensures Valid() && AtTop(state)
      ensures !popped ==> state == Restart(old(state)) && EmptyBetween(old(state).rings, -1, LEVELS - 1)
      ensures popped ==> Highest(old(state).rings, from) && state == Turn(old(state), from)
    {
      hide Reachable;
      ghost var start := state;
      var x;
      popped, x, from := TakeHighest();
      if popped {
        HeadIsHomed(start, from);
        ghost var preempted, above := SendOrPutBack(x);
        assert EmptyBetween(start.rings[from := start.rings[from][1..]], from, LEVELS - 1);
        assert state == Turn(start, from);
      }
    }

    /** What one turn of the loop sends is the first node there is to send. */
    method TransmitNext() returns (popped: bool)
      requires Valid() && AtTop(state)
      modifies Repr()
      ensures Valid() && AtTop(state) && SameHistory(state, old(state))
      ensures state.sent + SendOrderOf(state.rings, LEVELS - 1)
        == old(state.sent) + SendOrderOf(old(state.rings), LEVELS - 1)
      ensures state.pops + |SendOrderOf(state.rings, LEVELS - 1)|
        == old(state.pops) + |SendOrderOf(old(state.rings), LEVELS - 1)|
      ensures popped ==> |SendOrderOf(state.rings, LEVELS - 1)| < |SendOrderOf(old(state.rings), LEVELS - 1)|
      ensures !popped ==> EmptyBetween(state.rings, -1, LEVELS - 1)
    {
      hide Reachable, SendOrderOf;
      ghost var s := state;
      ghost var p;
      popped, p := TransmitTurn();
      if popped {
        TurnSends(s, p);
      }
    }

    /** The transmit loop until it finds every ring empty, with producers idle. */
    method TransmitAll()
      requires Valid() && AtTop(state)
      modifies Repr()
      ensures Valid() && AtTop(state)
      ensures state.sent == old(state).sent + SendOrderOf(old(state).rings, LEVELS - 1)
      ensures EmptyBetween(state.rings, -1, LEVELS - 1)
      ensures state.charges == old(state).charges && state.dropped == old(state).dropped
      ensures state.accepted == old(state).accepted
      ensures state.pops == old(state).pops + |SendOrderOf(old(state).rings, LEVELS - 1)|
    {
      hide Reachable, SendOrderOf;
      ghost var start := state;
      var popped := true;
      while popped
        invariant Valid() && AtTop(state)
        invariant state.sent + SendOrderOf(state.rings, LEVELS - 1) == start.sent + SendOrderOf(start.rings, LEVELS - 1)
        invariant state.pops + |SendOrderOf(state.rings, LEVELS - 1)|
          == start.pops + |SendOrderOf(start.rings, LEVELS - 1)|
        invariant SameHistory(state, start)
        invariant !popped ==> EmptyBetween(state.rings, -1, LEVELS - 1)
        decreases popped, |SendOrderOf(state.rings, LEVELS - 1)|
      {
        popped := TransmitNext();
      }
      NothingLeft(state.rings, LEVELS - 1);
    }

    /**
    Two submissions one after the other, and then the transmit loop with producers idle: of two that are
    accepted, the one of higher priority is sent first.
    */
    method SubmitTwo(id: nat, first: nat, second: nat, destIp: Option<string>, url: Option<string>,
        data: Option<string>) returns (ok1: bool, ok2: bool)
      requires Valid() && AtTop(state) && id == |state.accepted|
      modifies Repr()
      ensures Valid() && AtTop(state)
      ensures ok1 && ok2 && first < LEVELS && second < LEVELS ==>
        var x, y := Node(id, first), Node(id + 1, second);
        && (first > second ==> Before(state.sent, x, y))
        && (first < second ==> Before(state.sent, y, x))
    {
      hide Reachable, SendOrderOf, Before;
      ghost var start := state;
      ok1 := PushToPrioQueue(id, destIp, first, url, data);
      ok2 := PushToPrioQueue(if ok1 then id + 1 else id, destIp, second, url, data);
      ghost var loaded := state;
      TransmitAll();
      if ok1 && ok2 && first < LEVELS && second < LEVELS && first != second {
        ByPriority(start, first, second);
        ghost var x, y := Node(id, first), Node(id + 1, second);
        BeforeConcat(loaded.sent, SendOrderOf(loaded.rings, LEVELS - 1), x, y);
        BeforeConcat(loaded.sent, SendOrderOf(loaded.rings, LEVELS - 1), y, x);
      }
    }
  }

  /** The state after rings 7 down to i + 1 have been found empty. */
  function LookedDownTo(s: State, i: int): State
    requires i < LEVELS
  {
    if i >= 0 then s.(transmitter := Looking(i)) else Restart(s)
  }

  ghost predicate SameHistory(s: State, t: State) {
    s.charges == t.charges && s.dropped == t.dropped && s.accepted == t.accepted
  }

  /** The highest ring with anything in it. */
  predicate Highest(rings: seq<seq<Node>>, p: nat) {
    |rings| == LEVELS && p < LEVELS && rings[p] != [] && EmptyBetween(rings, p, LEVELS - 1)
  }

  /** The end of a turn that sends. */
  function SentNow(s: State, x: Node): State
    requires Shaped(s)
  {
    Apply(s.(transmitter := Checking(x, x.level)), Send)
  }

  /** The end of a turn whose check finds ring p occupied. */
  function PreemptedBy(s: State, x: Node, p: Level): State
    requires Shaped(s) && p > x.level && s.rings[p] != []
  {
    Apply(Apply(s.(transmitter := Checking(x, p)), Check), PutBack)
  }

  lemma HeadIsHomed(s: State, p: Level)
    requires Reachable(s) && Shaped(s) && s.rings[p] != []
    ensures s.rings[p][0].level == p
  {
    ReachableInv(s);
    assert s.rings[p][0] in s.rings[p];
  }

  lemma {:induction false} NothingLeft(rings: seq<seq<Node>>, p: nat)
    requires p < |rings| && EmptyBetween(rings, -1, p)
    ensures SendOrderOf(rings, p) == []
  {
    if p > 0 {
      NothingLeft(rings, p - 1);
    }
  }
}
