/**
The network proxy's transmit scheduler as a system of interleaved atomic regions: eight
bounded rings, any number of submitters, and one transmitter that takes a node from the
highest non-empty ring, looks again at the rings above it one lock at a time, and then
either sends the node or puts it back at the tail of its own ring.

A node carries the number of its accepted submission, so nodes are told apart and "since
then" can be said by comparing numbers. The fields iterationStart, popStart, checkStart,
charges and pops only keep history; no step depends on them.
*/
module ProxyProtocol {
  import opened Common

  const LEVELS: nat := 8
  const CAPACITY: nat := 256

  type Level = n: nat | n < LEVELS

  datatype Node = Node(id: nat, level: Level)

  datatype Transmitter =
    | Looking(level: Level)                // about to look for a node in this ring
    | Checking(node: Node, level: Level)   // holds a node, about to look into this ring
    | PuttingBack(node: Node)              // preempted

  /** One preemption: the node put back and the submission it is charged to. */
  datatype Charge = Charge(preempted: Node, push: nat)

  datatype State = State(
    rings: seq<seq<Node>>,
    transmitter: Transmitter,
    accepted: seq<Node>,
    sent: seq<Node>,
    dropped: seq<Node>,
    iterationStart: nat,
    popStart: nat,
    checkStart: nat,
    charges: seq<Charge>,
    pops: nat
  )

  datatype Step =
    | Submit(priority: nat)   // any priority byte; out of range means level 0
    | Look
    | Check
    | Send
    | PutBack

  const INIT := State([[], [], [], [], [], [], [], []], Looking(LEVELS - 1), [], [], [], 0, 0, 0, [], 0)

  function Clamp(priority: nat): Level {
    if priority >= LEVELS then 0 else priority
  }

  predicate Shaped(s: State) {
    |s.rings| == LEVELS
  }

  predicate Enabled(s: State, step: Step) {
    match step
    case Submit(_) => true
    case Look => s.transmitter.Looking?
    case Check => s.transmitter.Checking? && s.transmitter.level > s.transmitter.node.level
    case Send => s.transmitter.Checking? && s.transmitter.level <= s.transmitter.node.level
    case PutBack => s.transmitter.PuttingBack?
  }

  /** The next turn of the transmitter's outer loop. */
  function Restart(s: State): State {
    s.(transmitter := Looking(LEVELS - 1), iterationStart := |s.accepted|)
  }

  function Apply(s: State, step: Step): (s': State)
    requires Shaped(s) && Enabled(s, step)
    ensures Shaped(s')
  {
    match step
    case Submit(priority) =>
      var p := Clamp(priority);
      var x := Node(|s.accepted|, p);
      if |s.rings[p]| < CAPACITY then s.(rings := s.rings[p := s.rings[p] + [x]], accepted := s.accepted + [x])
      else s
    case Look =>
      var p := s.transmitter.level;
      if s.rings[p] != [] then
        s.(rings := s.rings[p := s.rings[p][1..]], transmitter := Checking(s.rings[p][0], LEVELS - 1),
           popStart := |s.accepted|, checkStart := |s.accepted|, pops := s.pops + 1)
      else if p > 0 then s.(transmitter := Looking(p - 1))
      else Restart(s)
    case Check =>
      var x, p := s.transmitter.node, s.transmitter.level;
      if s.rings[p] != [] then
        s.(transmitter := PuttingBack(x), charges := s.charges + [Charge(x, s.rings[p][0].id)])
      else s.(transmitter := Checking(x, p - 1))
    case Send =>
      Restart(s.(sent := s.sent + [s.transmitter.node]))
    case PutBack =>
      var x := s.transmitter.node;
      Restart(if |s.rings[x.level]| < CAPACITY then s.(rings := s.rings[x.level := s.rings[x.level] + [x]])
              else s.(dropped := s.dropped + [x]))
  }

  predicate Possible(s: State, steps: seq<Step>)
    requires Shaped(s)
    decreases |steps|
  {
    steps == [] || (Enabled(s, steps[0]) && Possible(Apply(s, steps[0]), steps[1..]))
  }

  function Execute(s: State, steps: seq<Step>): (s': State)
    requires Shaped(s) && Possible(s, steps)
    ensures Shaped(s')
    decreases |steps|
  {
    if steps == [] then s else Execute(Apply(s, steps[0]), steps[1..])
  }

  ghost predicate Reachable(s: State) {
    exists steps :: Possible(INIT, steps) && Execute(INIT, steps) == s
  }

  // ---------------------------------------------------------------- the invariant

  function InHand(t: Transmitter): seq<Node> {
    if t.Looking? then [] else [t.node]
  }

  function Queued(rings: seq<seq<Node>>): seq<Node> {
    if rings == [] then [] else rings[0] + Queued(rings[1..])
  }

  ghost predicate Conserved(s: State)
    requires Shaped(s)
  {
    multiset(s.accepted) ==
      multiset(Queued(s.rings)) + multiset(InHand(s.transmitter)) + multiset(s.sent) + multiset(s.dropped)
  }

  ghost predicate Numbered(s: State) {
    forall i | 0 <= i < |s.accepted| :: s.accepted[i].id == i
  }

  ghost predicate Homed(s: State)
    requires Shaped(s)
  {
    forall p, x | 0 <= p < LEVELS && x in s.rings[p] :: x.level == p && x.id < |s.accepted| && s.accepted[x.id] == x
  }

  ghost predicate Bounded(s: State)
    requires Shaped(s)
  {
    forall p | 0 <= p < LEVELS :: |s.rings[p]| <= CAPACITY
  }

  /** Every node above level p was accepted since the given submission. */
  ghost predicate NewAbove(s: State, p: nat, start: nat)
    requires Shaped(s)
  {
    forall q, x | p < q < LEVELS && x in s.rings[q] :: x.id >= start
  }

  /** What the transmitter has seen empty in this turn holds only newer nodes. */
  ghost predicate SeenEmpty(s: State)
    requires Shaped(s)
  {
    match s.transmitter
    case Looking(p) => NewAbove(s, p, s.iterationStart)
    case Checking(x, p) => NewAbove(s, x.level, s.iterationStart) && NewAbove(s, p, s.checkStart)
    case PuttingBack(_) => true
  }

  ghost predicate RoomUnlessPushed(s: State)
    requires Shaped(s)
  {
    !s.transmitter.Looking? ==>
      var ring := s.rings[s.transmitter.node.level];
      |ring| < CAPACITY || ring[|ring| - 1].id >= s.popStart
  }

  ghost predicate HandKnown(s: State) {
    !s.transmitter.Looking? ==>
      s.transmitter.node.id < |s.accepted| && s.accepted[s.transmitter.node.id] == s.transmitter.node
  }

  /** Each preemption has its own later submission, at a higher level than the node put back. */
  ghost predicate Charged(s: State) {
    && (forall k | 0 <= k < |s.charges| ::
          s.charges[k].push < |s.accepted| && s.accepted[s.charges[k].push].level > s.charges[k].preempted.level)
    && (forall j, k | 0 <= j < k < |s.charges| :: s.charges[j].push < s.charges[k].push)
    && s.iterationStart <= |s.accepted| && s.popStart <= |s.accepted| && s.checkStart <= |s.accepted|
    && (!s.transmitter.PuttingBack? ==> forall k | 0 <= k < |s.charges| :: s.charges[k].push < s.iterationStart)
  }

  ghost predicate PopsCounted(s: State) {
    s.pops == |s.sent| + |s.charges| + if s.transmitter.Checking? then 1 else 0
  }

  ghost predicate Inv(s: State) {
    && Shaped(s)
    && Conserved(s)
    && Numbered(s)
    && Homed(s)
    && Bounded(s)
    && SeenEmpty(s)
    && RoomUnlessPushed(s)
    && HandKnown(s)
    && Charged(s)
    && PopsCounted(s)
  }

  lemma Cancel(a: multiset<Node>, b: multiset<Node>, c: multiset<Node>)
    requires a + b == c + b
    ensures a == c
  {
    forall x ensures a[x] == c[x] {
      assert (a + b)[x] == (c + b)[x];
    }
  }

  lemma {:induction false} QueuedUpdate(rings: seq<seq<Node>>, p: nat, ring: seq<Node>)
    requires p < |rings|
    ensures multiset(Queued(rings[p := ring])) + multiset(rings[p]) == multiset(Queued(rings)) + multiset(ring)
  {
    var rings' := rings[p := ring];
    assert multiset(Queued(rings')) == multiset(rings'[0]) + multiset(Queued(rings'[1..]));
    assert multiset(Queued(rings)) == multiset(rings[0]) + multiset(Queued(rings[1..]));
    if p == 0 {
      assert rings'[1..] == rings[1..];
    } else {
      assert rings'[1..] == rings[1..][p - 1 := ring];
      QueuedUpdate(rings[1..], p - 1, ring);
      var head := multiset(rings[0]);
      assert multiset(Queued(rings')) + multiset(rings[p])
        == head + (multiset(Queued(rings'[1..])) + multiset(rings[1..][p - 1]));
      assert multiset(Queued(rings)) + multiset(ring) == head + (multiset(Queued(rings[1..])) + multiset(ring));
    }
  }

  lemma QueuedAppend(rings: seq<seq<Node>>, p: nat, x: Node)
    requires p < |rings|
    ensures multiset(Queued(rings[p := rings[p] + [x]])) == multiset(Queued(rings)) + multiset{x}
  {
    QueuedUpdate(rings, p, rings[p] + [x]);
    assert multiset(rings[p] + [x]) == multiset(rings[p]) + multiset{x};
    Cancel(multiset(Queued(rings[p := rings[p] + [x]])), multiset(rings[p]), multiset(Queued(rings)) + multiset{x});
  }

  lemma QueuedPop(rings: seq<seq<Node>>, p: nat)
    requires p < |rings| && rings[p] != []
    ensures multiset(Queued(rings[p := rings[p][1..]])) + multiset{rings[p][0]} == multiset(Queued(rings))
  {
    var rest := rings[p][1..];
    QueuedUpdate(rings, p, rest);
    assert rings[p] == [rings[p][0]] + rest;
    assert multiset(rings[p]) == multiset{rings[p][0]} + multiset(rest);
    Cancel(multiset(Queued(rings[p := rest])) + multiset{rings[p][0]}, multiset(rest), multiset(Queued(rings)));
  }

  lemma ConservedStep(s: State, step: Step)
    requires Shaped(s) && Conserved(s) && Enabled(s, step)
    ensures Conserved(Apply(s, step))
  {
    var s' := Apply(s, step);
    if step.Submit? {
      ConservedSubmit(s, step);
    } else if step.Look? && s.rings[s.transmitter.level] != [] {
      QueuedPop(s.rings, s.transmitter.level);
    } else if step.Send? {
      assert multiset(s'.sent) == multiset(s.sent) + multiset{s.transmitter.node};
    } else if step.PutBack? {
      ConservedPutBack(s);
    }
  }

  lemma ConservedSubmit(s: State, step: Step)
    requires Shaped(s) && Conserved(s) && step.Submit?
    ensures Conserved(Apply(s, step))
  {
    var p := Clamp(step.priority);
    var x := Node(|s.accepted|, p);
    QueuedAppend(s.rings, p, x);
    assert multiset(s.accepted + [x]) == multiset(s.accepted) + multiset{x};
  }

  lemma ConservedPutBack(s: State)
    requires Shaped(s) && Conserved(s) && s.transmitter.PuttingBack?
    ensures Conserved(Apply(s, PutBack))
  {
    var x := s.transmitter.node;
    QueuedAppend(s.rings, x.level, x);
    assert multiset(s.dropped + [x]) == multiset(s.dropped) + multiset{x};
  }

  lemma RingStep(s: State, step: Step)
    requires Inv(s) && Enabled(s, step)
    ensures Homed(Apply(s, step)) && Bounded(Apply(s, step)) && HandKnown(Apply(s, step)) && Numbered(Apply(s, step))
  {
    hide Conserved, SeenEmpty, RoomUnlessPushed, Charged, PopsCounted;
    var s' := Apply(s, step);
    if step.Look? && s.rings[s.transmitter.level] != [] {
      assert s.rings[s.transmitter.level][0] in s.rings[s.transmitter.level];
    }
    forall p, x | 0 <= p < LEVELS && x in s'.rings[p]
      ensures x.level == p && x.id < |s'.accepted| && s'.accepted[x.id] == x
    {
      if x in s.rings[p] {
      } else {
        assert step.Submit? || step.PutBack?;
      }
    }
  }

  lemma NewAboveSubmit(s: State, step: Step, p: nat, start: nat)
    requires Shaped(s) && step.Submit? && NewAbove(s, p, start) && start <= |s.accepted|
    ensures NewAbove(Apply(s, step), p, start)
  {
  }

  lemma SeenEmptyStep(s: State, step: Step)
    requires Inv(s) && Enabled(s, step)
    ensures SeenEmpty(Apply(s, step))
  {
    hide Conserved, RoomUnlessPushed, Bounded, Numbered, HandKnown, PopsCounted;
    if step.Submit? {
      match s.transmitter
      case Looking(p) => NewAboveSubmit(s, step, p, s.iterationStart);
      case Checking(x, p) =>
        NewAboveSubmit(s, step, x.level, s.iterationStart);
        NewAboveSubmit(s, step, p, s.checkStart);
      case PuttingBack(_) =>
    } else if step.Look? && s.rings[s.transmitter.level] != [] {
      assert s.rings[s.transmitter.level][0] in s.rings[s.transmitter.level];
    }
  }

  lemma RoomStep(s: State, step: Step)
    requires Inv(s) && Enabled(s, step)
    ensures RoomUnlessPushed(Apply(s, step))
  {
    hide Conserved, SeenEmpty, PopsCounted, Numbered;
  }

  lemma ChargedStep(s: State, step: Step)
    requires Inv(s) && Enabled(s, step)
    ensures Charged(Apply(s, step)) && PopsCounted(Apply(s, step))
  {
    hide Conserved, RoomUnlessPushed, Bounded, Numbered;
    if step.Check? && s.rings[s.transmitter.level] != [] {
      assert s.rings[s.transmitter.level][0] in s.rings[s.transmitter.level];
    }
  }

  lemma InvStep(s: State, step: Step)
    requires Inv(s) && Enabled(s, step)
    ensures Inv(Apply(s, step))
  {
    hide Conserved, Numbered, Homed, Bounded, SeenEmpty, RoomUnlessPushed, HandKnown, Charged, PopsCounted;
    ConservedStep(s, step);
    RingStep(s, step);
    SeenEmptyStep(s, step);
    RoomStep(s, step);
    ChargedStep(s, step);
  }

  lemma {:induction false} InvExecute(s: State, steps: seq<Step>)
    requires Inv(s) && Possible(s, steps)
    ensures Inv(Execute(s, steps))
    decreases |steps|
  {
    hide Conserved, Numbered, Homed, Bounded, SeenEmpty, RoomUnlessPushed, HandKnown, Charged, PopsCounted;
    if steps != [] {
      InvStep(s, steps[0]);
      InvExecute(Apply(s, steps[0]), steps[1..]);
    }
  }

  lemma InitInv()
    ensures Inv(INIT)
  {
    assert forall p | 0 <= p < LEVELS :: INIT.rings[p] == [];
    assert Conserved(INIT);
  }

  lemma ReachableInv(s: State)
    requires Reachable(s)
    ensures Inv(s)
  {
    hide Inv;
    InitInv();
    var steps :| Possible(INIT, steps) && Execute(INIT, steps) == s;
    InvExecute(INIT, steps);
  }

  // ---------------------------------------------------------------- safety over all runs

  lemma {:induction false} NumberedOnce(xs: seq<Node>, x: Node, offset: nat)
    requires forall i | 0 <= i < |xs| :: xs[i].id == offset + i
    ensures multiset(xs)[x] == if x in xs then 1 else 0
    decreases |xs|
  {
    if xs != [] {
      assert xs == [xs[0]] + xs[1..];
      NumberedOnce(xs[1..], x, offset + 1);
      assert x == xs[0] ==> x !in xs[1..];
    }
  }

  lemma {:induction false} OnlyOwnRing(rings: seq<seq<Node>>, x: Node, p: nat)
    requires p < |rings|
    requires forall q | 0 <= q < |rings| && q != p :: x !in rings[q]
    ensures multiset(Queued(rings))[x] == multiset(rings[p])[x]
  {
    assert forall q | 0 <= q < |rings| - 1 :: rings[1..][q] == rings[q + 1];
    if p == 0 {
      NotQueued(rings[1..], x);
    } else {
      OnlyOwnRing(rings[1..], x, p - 1);
    }
  }

  lemma {:induction false} NotQueued(rings: seq<seq<Node>>, x: Node)
    requires forall q | 0 <= q < |rings| :: x !in rings[q]
    ensures x !in Queued(rings)
  {
    if rings != [] {
      NotQueued(rings[1..], x);
    }
  }

  /**
  Conservation: every accepted node is in exactly one place, exactly once: the ring of its
  own level, the transmitter's hand, the nodes sent, or the nodes dropped.
  */
  lemma ExactlyOnePlace(s: State, x: Node)
    requires Reachable(s)
    ensures Shaped(s)
    ensures forall p | 0 <= p < LEVELS && p != x.level :: x !in s.rings[p]
    ensures multiset(s.rings[x.level])[x] + multiset(InHand(s.transmitter))[x] + multiset(s.sent)[x]
      + multiset(s.dropped)[x]
         == if x in s.accepted then 1 else 0
  {
    ReachableInv(s);
    NumberedOnce(s.accepted, x, 0);
    OnlyOwnRing(s.rings, x, x.level);
    assert multiset(s.accepted)[x] ==
      multiset(Queued(s.rings))[x] + multiset(InHand(s.transmitter))[x] + multiset(s.sent)[x] + multiset(s.dropped)[x];
  }

  /**
  The only loss: a node is dropped only when it is put back into a full ring, and then a
  submission to that same ring has been accepted since the node was taken from it.
  */
  lemma OnlyLoss(s: State, step: Step)
    requires Reachable(s) && Shaped(s) && Enabled(s, step)
    requires Apply(s, step).dropped != s.dropped
    ensures step.PutBack? && Apply(s, step).dropped == s.dropped + [s.transmitter.node]
    ensures |s.rings[s.transmitter.node.level]| == CAPACITY
    ensures exists i :: s.popStart <= i < |s.accepted| && s.accepted[i].level == s.transmitter.node.level
  {
    hide Conserved, SeenEmpty, Charged, PopsCounted, Numbered, Reachable;
    ReachableInv(s);
    var ring := s.rings[s.transmitter.node.level];
    var last := ring[|ring| - 1];
    assert last in ring;
    assert s.popStart <= last.id < |s.accepted| && s.accepted[last.id].level == s.transmitter.node.level;
  }

  lemma {:induction false} IncreasingBelow(charges: seq<Charge>, n: nat)
    requires forall k | 0 <= k < |charges| :: charges[k].push < n
    requires forall j, k | 0 <= j < k < |charges| :: charges[j].push < charges[k].push
    ensures |charges| <= n
  {
    if charges != [] {
      var last := charges[|charges| - 1];
      IncreasingBelow(charges[..|charges| - 1], last.push);
    }
  }

  /**
  The amortised bound: each preemption is charged to a submission of its own, accepted at a
  higher level than the node put back. So there are no more preemptions than accepted
  submissions, and no more than two pops for each of them.
  */
  lemma PreemptionBound(s: State)
    requires Reachable(s)
    ensures forall k | 0 <= k < |s.charges| ::
      s.charges[k].push < |s.accepted| && s.accepted[s.charges[k].push].level > s.charges[k].preempted.level
    ensures forall j, k | 0 <= j < k < |s.charges| :: s.charges[j].push < s.charges[k].push
    ensures |s.charges| <= |s.accepted|
    ensures s.pops <= 2 * |s.accepted|
  {
    ReachableInv(s);
    IncreasingBelow(s.charges, |s.accepted|);
    assert |multiset(s.accepted)| == |s.accepted|;
    assert |multiset(s.sent)| == |s.sent| && |multiset(InHand(s.transmitter))| == |InHand(s.transmitter)|;
  }

  /** The charged submission came during the turn that ends with the preemption. */
  lemma ChargedInTurn(s: State)
    requires Reachable(s) && Shaped(s) && Enabled(s, Check)
    requires s.rings[s.transmitter.level] != []
    ensures var charge := Apply(s, Check).charges[|s.charges|];
      && charge.preempted == s.transmitter.node
      && s.iterationStart <= charge.push < |s.accepted|
      && s.accepted[charge.push].level == s.transmitter.level > s.transmitter.node.level
  {
    hide Conserved, RoomUnlessPushed, Bounded, Numbered, PopsCounted, Reachable;
    ReachableInv(s);
    assert s.rings[s.transmitter.level][0] in s.rings[s.transmitter.level];
  }

  /**
  When a node is sent, no node of a higher level is queued that had been accepted
  before the check that let it pass began.
  */
  lemma SendOrder(s: State, p: Level, x: Node)
    requires Reachable(s) && Shaped(s) && Enabled(s, Send)
    requires p > s.transmitter.node.level && x in s.rings[p]
    ensures x.id >= s.checkStart && x.level == p
  {
    hide Conserved, RoomUnlessPushed, Bounded, Numbered, Charged, PopsCounted, Reachable;
    ReachableInv(s);
  }

  // ---------------------------------------------------------------- the transmitter on its own

  function TransmitterStep(t: Transmitter): Step {
    match t
    case Looking(_) => Look
    case Checking(x, p) => if p > x.level then Check else Send
    case PuttingBack(_) => PutBack
  }

  /** n steps of the transmitter with no submission in between; it is never blocked. */
  function Alone(s: State, n: nat): (s': State)
    requires Shaped(s)
    ensures Shaped(s')
    decreases n
  {
    if n == 0 then s else Alone(Apply(s, TransmitterStep(s.transmitter)), n - 1)
  }

  lemma AloneNext(s: State, n: nat)
    requires Shaped(s) && n > 0
    ensures Alone(s, n) == Alone(Apply(s, TransmitterStep(s.transmitter)), n - 1)
  {
  }

  predicate EmptyBetween(rings: seq<seq<Node>>, p: int, q: int) {
    forall i | p < i <= q && 0 <= i < |rings| :: rings[i] == []
  }

  lemma {:induction false} LooksDown(s: State, p: Level, n: nat)
    requires Shaped(s) && s.transmitter.Looking? && p <= s.transmitter.level
    requires EmptyBetween(s.rings, p, s.transmitter.level)
    ensures Alone(s, s.transmitter.level - p + n) == Alone(s.(transmitter := Looking(p)), n)
    decreases s.transmitter.level
  {
    if p < s.transmitter.level {
      LooksDown(Apply(s, Look), p, n);
    } else {
      assert s.(transmitter := Looking(p)) == s;
    }
  }

  lemma {:induction false} ChecksDown(s: State, n: nat)
    requires Shaped(s) && s.transmitter.Checking? && s.transmitter.node.level <= s.transmitter.level
    requires EmptyBetween(s.rings, s.transmitter.node.level, s.transmitter.level)
    ensures var x := s.transmitter.node;
      Alone(s, s.transmitter.level - x.level + n) == Alone(s.(transmitter := Checking(x, x.level)), n)
    decreases s.transmitter.level
  {
    if s.transmitter.node.level < s.transmitter.level {
      ChecksDown(Apply(s, Check), n);
    } else {
      assert s.(transmitter := Checking(s.transmitter.node, s.transmitter.node.level)) == s;
    }
  }

  predicate AtTop(s: State) {
    Shaped(s) && s.transmitter == Looking(LEVELS - 1)
  }

  /** A whole turn with producers idle: the head of ring p, the highest with anything in it, is sent. */
  function Turn(s: State, p: Level): (s': State)
    requires AtTop(s) && s.rings[p] != []
    ensures AtTop(s')
  {
    s.(rings := s.rings[p := s.rings[p][1..]], sent := s.sent + [s.rings[p][0]],
       iterationStart := |s.accepted|, popStart := |s.accepted|, checkStart := |s.accepted|, pops := s.pops + 1)
  }

  lemma TurnIsTransmitterSteps(s: State, p: Level)
    requires AtTop(s) && s.rings[p] != [] && EmptyBetween(s.rings, p, LEVELS - 1)
    requires s.rings[p][0].level == p
    ensures Alone(s, 2 * (LEVELS - p)) == Turn(s, p)
  {
    hide Alone, Turn, EmptyBetween;
    LooksThenSends(s, p, LEVELS - 1 - p, LEVELS - p + 1);
  }

  lemma LooksThenSends(s: State, p: Level, looks: nat, sends: nat)
    requires AtTop(s) && s.rings[p] != [] && EmptyBetween(s.rings, p, LEVELS - 1)
    requires s.rings[p][0].level == p && looks == LEVELS - 1 - p && sends == LEVELS - p + 1
    ensures Alone(s, looks + sends) == Turn(s, p)
  {
    LooksDown(s, p, sends);
    TakeAndSend(s.(transmitter := Looking(p)), p);
  }

  lemma TakeAndSend(s: State, p: Level)
    requires Shaped(s) && s.transmitter == Looking(p)
    requires s.rings[p] != [] && s.rings[p][0].level == p && EmptyBetween(s.rings, p, LEVELS - 1)
    ensures Alone(s, LEVELS - p + 1) == Turn(s.(transmitter := Looking(LEVELS - 1)), p)
  {
    hide Alone;
    var popped := Apply(s, Look);
    AloneNext(s, LEVELS - p + 1);
    ChecksDown(popped, 1);
    JustSend(popped.(transmitter := Checking(s.rings[p][0], p)));
  }

  lemma JustSend(s: State)
    requires Shaped(s) && Enabled(s, Send)
    ensures Alone(s, 1) == Apply(s, Send)
  {
    AloneNext(s, 1);
  }

  /** The rings from level p down, highest first. */
  function SendOrderOf(rings: seq<seq<Node>>, p: nat): seq<Node>
    requires p < |rings|
  {
    rings[p] + if p == 0 then [] else SendOrderOf(rings, p - 1)
  }

  lemma {:induction false} SendOrderSame(rings: seq<seq<Node>>, rings': seq<seq<Node>>, q: nat)
    requires q < |rings| == |rings'|
    requires forall i | 0 <= i <= q :: rings[i] == rings'[i]
    ensures SendOrderOf(rings, q) == SendOrderOf(rings', q)
  {
    if q > 0 {
      SendOrderSame(rings, rings', q - 1);
    }
  }

  lemma {:induction false} SendOrderEmptyAbove(rings: seq<seq<Node>>, p: nat, q: nat)
    requires p <= q < |rings| && EmptyBetween(rings, p, q)
    ensures SendOrderOf(rings, q) == SendOrderOf(rings, p)
  {
    hide SendOrderOf;
    if p < q {
      SendOrderEmptyAbove(rings, p, q - 1);
      assert rings[q] == [];
      EmptyRing(rings, q);
    }
  }

  lemma EmptyRing(rings: seq<seq<Node>>, q: nat)
    requires 0 < q < |rings| && rings[q] == []
    ensures SendOrderOf(rings, q) == SendOrderOf(rings, q - 1)
  {
    assert [] + SendOrderOf(rings, q - 1) == SendOrderOf(rings, q - 1);
  }

  lemma SendOrderHead(rings: seq<seq<Node>>, rings': seq<seq<Node>>, p: nat)
    requires p < |rings| == |rings'| && rings[p] != [] && rings'[p] == rings[p][1..]
    requires forall i | 0 <= i < p :: rings[i] == rings'[i]
    ensures SendOrderOf(rings, p) == [rings[p][0]] + SendOrderOf(rings', p)
  {
    var lower := if p == 0 then [] else SendOrderOf(rings, p - 1);
    if p > 0 {
      SendOrderSame(rings, rings', p - 1);
    }
    assert SendOrderOf(rings, p) == rings[p] + lower && SendOrderOf(rings', p) == rings'[p] + lower;
    HeadFirst(rings[p], lower);
  }

  lemma HeadFirst(xs: seq<Node>, ys: seq<Node>)
    requires xs != []
    ensures xs + ys == [xs[0]] + (xs[1..] + ys)
  {
  }

  /** A turn sends the first node there is to send, and leaves the others to send. */
  lemma TurnSends(s: State, p: Level)
    requires AtTop(s) && s.rings[p] != [] && EmptyBetween(s.rings, p, LEVELS - 1)
    ensures var s' := Turn(s, p);
      && s'.sent + SendOrderOf(s'.rings, LEVELS - 1) == s.sent + SendOrderOf(s.rings, LEVELS - 1)
      && |SendOrderOf(s.rings, LEVELS - 1)| == |SendOrderOf(s'.rings, LEVELS - 1)| + 1
  {
    SendOrderPop(s.rings, p, LEVELS - 1);
    Assoc(s.sent, [s.rings[p][0]], SendOrderOf(Turn(s, p).rings, LEVELS - 1));
  }

  /** Taking the first node of the highest non-empty ring takes the first node to send. */
  lemma SendOrderPop(rings: seq<seq<Node>>, p: nat, top: nat)
    requires p <= top < |rings| && rings[p] != [] && EmptyBetween(rings, p, top)
    ensures SendOrderOf(rings, top) == [rings[p][0]] + SendOrderOf(rings[p := rings[p][1..]], top)
  {
    var rings' := rings[p := rings[p][1..]];
    SendOrderEmptyAbove(rings, p, top);
    assert EmptyBetween(rings', p, top);
    SendOrderEmptyAbove(rings', p, top);
    SendOrderHead(rings, rings', p);
  }

  // ---------------------------------------------------------------- by priority

  /** A submission goes to the end of the ring of its priority, or of ring 0 when out of range, unless that is full. */
  lemma SubmitGoesTo(s: State, priority: nat, p: Level)
    requires Shaped(s) && (p == priority || (priority >= LEVELS && p == 0))
    ensures var s' := Apply(s, Submit(priority));
      if |s.rings[p]| >= CAPACITY then s' == s
      else
        && s'.accepted == s.accepted + [Node(|s.accepted|, p)]
        && s'.rings[p] == s.rings[p] + [Node(|s.accepted|, p)]
        && forall q: Level | q != p :: s'.rings[q] == s.rings[q]
  {
  }

  /** A preempted node goes behind all others of its level, or is dropped when its ring is full. */
  lemma PutBackGoesTo(s: State)
    requires Shaped(s) && s.transmitter.PuttingBack?
    ensures var s', x := Apply(s, PutBack), s.transmitter.node;
      && s'.accepted == s.accepted && s'.sent == s.sent
      && (forall q: Level | q != x.level :: s'.rings[q] == s.rings[q])
      && if |s.rings[x.level]| < CAPACITY then s'.rings[x.level] == s.rings[x.level] + [x] && s'.dropped == s.dropped
         else s'.rings[x.level] == s.rings[x.level] && s'.dropped == s.dropped + [x]
  {
  }

  lemma {:induction false} InSendOrder(rings: seq<seq<Node>>, q: nat, top: nat, y: Node)
    requires q <= top < |rings| && y in rings[q]
    ensures y in SendOrderOf(rings, top)
  {
    if q < top {
      InSendOrder(rings, q, top - 1, y);
    }
  }

  /** What waits in a higher ring is sent before what waits in a lower one. */
  lemma {:induction false} HigherFirst(rings: seq<seq<Node>>, p: nat, q: nat, top: nat, x: Node, y: Node)
    requires q < p <= top < |rings| && x in rings[p] && y in rings[q]
    ensures Before(SendOrderOf(rings, top), x, y)
  {
    BeforeConcat(rings[top], SendOrderOf(rings, top - 1), x, y);
    if p == top {
      InSendOrder(rings, q, top - 1, y);
    } else {
      HigherFirst(rings, p, q, top - 1, x, y);
    }
  }

  /** Of two submissions that are accepted, the one of higher priority is sent first, whichever came first. */
  lemma ByPriority(s: State, first: Level, second: Level)
    requires Shaped(s) && first != second && |s.rings[first]| < CAPACITY && |s.rings[second]| < CAPACITY
    ensures var s2 := Apply(Apply(s, Submit(first)), Submit(second));
      var x, y := Node(|s.accepted|, first), Node(|s.accepted| + 1, second);
      && s2.accepted == s.accepted + [x] + [y]
      && if first > second then Before(SendOrderOf(s2.rings, LEVELS - 1), x, y)
         else Before(SendOrderOf(s2.rings, LEVELS - 1), y, x)
  {
    hide SendOrderOf, Before;
    SubmitGoesTo(s, first, first);
    var s1 := Apply(s, Submit(first));
    SubmitGoesTo(s1, second, second);
    var s2 := Apply(s1, Submit(second));
    var x, y := Node(|s.accepted|, first), Node(|s.accepted| + 1, second);
    assert x in s2.rings[first] && y in s2.rings[second];
    if first > second {
      HigherFirst(s2.rings, first, second, LEVELS - 1, x, y);
    } else {
      HigherFirst(s2.rings, second, first, LEVELS - 1, y, x);
    }
  }
}
