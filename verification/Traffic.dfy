/**
The transmit scheduler and the buffer pools as one system. A push appends a buffer that its
caller holds, the worker takes the buffer from the same list, and once it has transmitted it
gives it back to its pool. Each step is one locked region of the whole, which is a region of the
scheduler, of the pools, or of both at once; sending is under no lock that matters here, and is
one step with the release that follows it.
*/
module Traffic {
  import T = TransmitProtocol
  import B = BuffPool

  const LEVELS := B.LEVELS

  /** carried says which buffer each push has brought. */
  datatype State = State(tx: T.State, pool: B.State, carried: map<nat, B.Buff>)

  datatype Step =
    | Hold(use: B.Step)                    // an acquire or a release outside the scheduler
    | Append(item: T.Item, buff: B.Buff)
    | Schedule(step: T.Step)               // a step that no buffer takes part in
    | Pop
    | Transmit

  predicate Shaped(s: State) {
    T.Shaped(s.tx) && B.Shaped(s.pool)
  }

  /** The buffer that the worker has taken and not given back. */
  function WorkerHolds(s: State): set<B.Buff> {
    if s.tx.worker.Popped? && s.tx.worker.item.push in s.carried then {s.carried[s.tx.worker.item.push]} else {}
  }

  predicate Enabled(s: State, step: Step)
    requires Shaped(s)
  {
    match step
    case Hold(p) =>
      B.Enabled(s.pool, p) && !p.Push? && !p.Pop? && (p.Release? ==> p.b !in WorkerHolds(s))
    case Append(x, b) =>
      T.Enabled(s.tx, T.Append(x)) && B.Enabled(s.pool, B.Push(b)) && s.pool.levels[b] == x.level
        && b !in WorkerHolds(s)
    case Schedule(p) => T.Enabled(s.tx, p) && !p.Append? && !p.Pop? && !p.Transmit?
    case Pop =>
      T.Enabled(s.tx, T.Pop) && (s.tx.queues[s.tx.cursor.level] != [] ==> B.Enabled(s.pool, B.Pop(s.tx.cursor.level)))
    case Transmit =>
      T.Enabled(s.tx, T.Step.Transmit) && s.tx.worker.item.push in s.carried
      && B.Enabled(s.pool, B.Release(s.carried[s.tx.worker.item.push]))
  }

  /** The part of a step that the pools take. */
  function PoolPart(s: State, step: Step): (p: seq<B.Step>)
    requires Shaped(s) && Enabled(s, step)
    ensures |p| <= 1 && forall q | q in p :: B.Enabled(s.pool, q)
  {
    match step
    case Hold(p) => [p]
    case Append(_, b) => [B.Push(b)]
    case Schedule(_) => []
    case Pop => if s.tx.queues[s.tx.cursor.level] == [] then [] else [B.Pop(s.tx.cursor.level)]
    case Transmit => [B.Release(s.carried[s.tx.worker.item.push])]
  }

  /** The part of a step that the scheduler takes. */
  function TxPart(s: State, step: Step): (p: seq<T.Step>)
    requires Shaped(s) && Enabled(s, step)
    ensures |p| <= 1 && forall q | q in p :: T.Enabled(s.tx, q)
  {
    match step
    case Hold(_) => []
    case Append(x, _) => [T.Append(x)]
    case Schedule(p) => [p]
    case Pop => [T.Pop]
    case Transmit => [T.Step.Transmit]
  }

  function Apply(s: State, step: Step): (s': State)
    requires Shaped(s) && Enabled(s, step)
    ensures Shaped(s')
  {
    var tx, pool := TxPart(s, step), PoolPart(s, step);
    State(if tx == [] then s.tx else T.Apply(s.tx, tx[0]),
          if pool == [] then s.pool else B.Apply(s.pool, pool[0]),
          if step.Append? then s.carried[step.item.push := step.buff] else s.carried)
  }

  predicate Possible(s: State, steps: seq<Step>)
    requires Shaped(s)
    decreases |steps|
  {
    steps == [] || (Enabled(s, steps[0]) && Possible(Apply(s, steps[0]), steps[1..]))
  }

  function Execute(s: State, steps: seq<Step>): (s': State)
    requires Shaped(s) && Possible(s, steps)
    ensures Shaped(s')
    decreases |steps|
  {
    if steps == [] then s else Execute(Apply(s, steps[0]), steps[1..])
  }

  /** Everything is in the pools and the scheduler has just been set up. */
  ghost predicate Initial(s: State) {
    s.tx == T.INIT && B.Initial(s.pool) && s.carried == map[]
  }

  // ---------------------------------------------------------------- each part is a run of its own

  function PoolSteps(s: State, steps: seq<Step>): seq<B.Step>
    requires Shaped(s) && Possible(s, steps)
    decreases |steps|
  {
    if steps == [] then [] else PoolPart(s, steps[0]) + PoolSteps(Apply(s, steps[0]), steps[1..])
  }

  function TxSteps(s: State, steps: seq<Step>): seq<T.Step>
    requires Shaped(s) && Possible(s, steps)
    decreases |steps|
  {
    if steps == [] then [] else TxPart(s, steps[0]) + TxSteps(Apply(s, steps[0]), steps[1..])
  }

  /** What the pools go through in a run of the whole is a run of the pools. */
  lemma {:induction false} PoolRuns(s: State, steps: seq<Step>)
    requires Shaped(s) && Possible(s, steps)
    ensures B.Possible(s.pool, PoolSteps(s, steps)) && B.Execute(s.pool, PoolSteps(s, steps)) == Execute(s, steps).pool
    decreases |steps|
  {
    if steps != [] {
      var s', part := Apply(s, steps[0]), PoolPart(s, steps[0]);
      var rest := PoolSteps(s', steps[1..]);
      PoolRuns(s', steps[1..]);
      if part == [] {
        assert part + rest == rest;
      } else {
        assert part[0] in part && (part + rest)[0] == part[0] && (part + rest)[1..] == rest;
      }
    }
  }

  /** What the scheduler goes through in a run of the whole is a run of the scheduler. */
  lemma {:induction false} TxRuns(s: State, steps: seq<Step>)
    requires Shaped(s) && Possible(s, steps)
    ensures T.Possible(s.tx, TxSteps(s, steps)) && T.Execute(s.tx, TxSteps(s, steps)) == Execute(s, steps).tx
    decreases |steps|
  {
    if steps != [] {
      var s', part := Apply(s, steps[0]), TxPart(s, steps[0]);
      var rest := TxSteps(s', steps[1..]);
      TxRuns(s', steps[1..]);
      if part == [] {
        assert part + rest == rest;
      } else {
        assert part[0] in part && (part + rest)[0] == part[0] && (part + rest)[1..] == rest;
      }
    }
  }

  // ---------------------------------------------------------------- the lists are the same lists

  /** The pools' list holds the buffers that the scheduler's items have brought, in the same order. */
  ghost predicate SameList(carried: map<nat, B.Buff>, xs: seq<T.Item>, bs: seq<B.Buff>) {
    |xs| == |bs| && forall i | 0 <= i < |xs| :: xs[i].push in carried && carried[xs[i].push] == bs[i]
  }

  ghost predicate SameLists(s: State)
    requires Shaped(s)
  {
    forall p | 0 <= p < LEVELS :: SameList(s.carried, s.tx.queues[p], s.pool.queues[p])
  }

  ghost predicate WorkerKnown(s: State) {
    s.tx.worker.Popped? ==>
      var x := s.tx.worker.item;
      && x in s.tx.appended && x.push in s.carried && s.carried[x.push] in s.pool.hands
      && s.carried[x.push] < |s.pool.levels| && s.pool.levels[s.carried[x.push]] == x.level
  }

  ghost predicate Inv(s: State) {
    Shaped(s) && T.Inv(s.tx) && B.Inv(s.pool) && SameLists(s) && WorkerKnown(s)
  }

  lemma SameListGrows(carried: map<nat, B.Buff>, xs: seq<T.Item>, bs: seq<B.Buff>, x: T.Item, b: B.Buff)
    requires SameList(carried, xs, bs) && forall y | y in xs :: y.push != x.push
    ensures SameList(carried[x.push := b], xs, bs) && SameList(carried[x.push := b], xs + [x], bs + [b])
  {
  }

  lemma AppendSame(s: State, x: T.Item, b: B.Buff)
    requires Inv(s) && Enabled(s, Append(x, b))
    ensures SameLists(Apply(s, Append(x, b))) && WorkerKnown(Apply(s, Append(x, b)))
  {
    hide T.NoneBypassed, T.DrainedQueueUnraised, T.NoneForgotten, T.Fifo, B.Places, B.Bounded, B.Peaks;
    var s' := Apply(s, Append(x, b));
    forall p | 0 <= p < LEVELS ensures SameList(s'.carried, s'.tx.queues[p], s'.pool.queues[p]) {
      assert SameList(s.carried, s.tx.queues[p], s.pool.queues[p]);
      assert forall y | y in s.tx.queues[p] :: y.push != x.push;
      SameListGrows(s.carried, s.tx.queues[p], s.pool.queues[p], x, b);
    }
  }

  lemma PopSame(s: State)
    requires Inv(s) && Enabled(s, Pop)
    ensures SameLists(Apply(s, Pop)) && WorkerKnown(Apply(s, Pop))
  {
    hide T.NoneBypassed, T.DrainedQueueUnraised, T.NoneForgotten, T.Fifo, B.Bounded, B.Peaks;
    var s', c := Apply(s, Pop), s.tx.cursor.level;
    assert B.LevelPlaces(s.pool.pools[c], s.pool.queues[c], s.pool.hands, s.pool.levels, c);
    assert s.pool.queues[c] != [] ==> s.pool.queues[c][0] in s.pool.queues[c];
    assert SameList(s.carried, s.tx.queues[c], s.pool.queues[c]);
    assert s.tx.queues[c] != [] ==> s.tx.queues[c][0] in s.tx.queues[c];
    forall p | 0 <= p < LEVELS ensures SameList(s'.carried, s'.tx.queues[p], s'.pool.queues[p]) {
      assert SameList(s.carried, s.tx.queues[p], s.pool.queues[p]);
    }
  }

  /** A step that adds to no list and takes from none, and leaves the worker its buffer. */
  lemma OtherSame(s: State, step: Step)
    requires Inv(s) && Enabled(s, step) && !step.Append? && !step.Pop?
    ensures SameLists(Apply(s, step)) && WorkerKnown(Apply(s, step))
  {
    hide T.NoneBypassed, T.DrainedQueueUnraised, T.NoneForgotten, T.Fifo, B.Places, B.Bounded, B.Peaks;
    var s' := Apply(s, step);
    forall p | 0 <= p < LEVELS ensures SameList(s'.carried, s'.tx.queues[p], s'.pool.queues[p]) {
      assert SameList(s.carried, s.tx.queues[p], s.pool.queues[p]);
    }
  }

  lemma StepInv(s: State, step: Step)
    requires Inv(s) && Enabled(s, step)
    ensures Inv(Apply(s, step))
  {
    hide T.Inv, B.Inv, SameLists, WorkerKnown;
    var tx, pool := TxPart(s, step), PoolPart(s, step);
    if tx != [] {
      assert tx[0] in tx;
      T.InvStep(s.tx, tx[0]);
    }
    if pool != [] {
      assert pool[0] in pool;
      B.StepInv(s.pool, pool[0]);
    }
    match step
    case Append(x, b) => AppendSame(s, x, b);
    case Pop => PopSame(s);
    case _ => OtherSame(s, step);
  }

  lemma {:induction false} RunInv(s: State, steps: seq<Step>)
    requires Inv(s) && Possible(s, steps)
    ensures Inv(Execute(s, steps))
    decreases |steps|
  {
    if steps != [] {
      StepInv(s, steps[0]);
      RunInv(Apply(s, steps[0]), steps[1..]);
    }
  }

  lemma InitialInv(s: State)
    requires Initial(s)
    ensures Inv(s)
  {
    T.InitInv();
  }

  // ---------------------------------------------------------------- main results

  /** The buffers that a list of the scheduler stands for. */
  function Buffers(s: State, xs: seq<T.Item>): seq<B.Buff>
    requires forall x | x in xs :: x.push in s.carried
  {
    seq(|xs|, i requires 0 <= i < |xs| => assert xs[i] in xs; s.carried[xs[i].push])
  }

  function ProducersHold(s: State): set<B.Buff> {
    s.pool.hands - WorkerHolds(s)
  }

  /**
  In every interleaving of producers, worker and pools, each buffer is in exactly one place: in
  the pool of its level, held by a producer, brought by one item queued at its level, or in the
  worker's hand.
  */
  lemma ExactlyOnePlace(start: State, steps: seq<Step>, b: B.Buff)
    requires Initial(start) && Shaped(start) && Possible(start, steps) && b < |Execute(start, steps).pool.levels|
    ensures var s := Execute(start, steps); var home := s.pool.levels[b];
      && home < LEVELS && (forall p, x | 0 <= p < LEVELS && x in s.tx.queues[p] :: x.push in s.carried)
      && (if b in ProducersHold(s) then 1 else 0) + (if b in WorkerHolds(s) then 1 else 0)
         + multiset(s.pool.pools[home])[b] + multiset(Buffers(s, s.tx.queues[home]))[b] == 1
      && forall p | 0 <= p < LEVELS && p != home :: b !in s.pool.pools[p] && b !in Buffers(s, s.tx.queues[p])
  {
    var s := Execute(start, steps);
    InitialInv(start);
    RunInv(start, steps);
    PoolRuns(start, steps);
    B.ExactlyOnePlace(start.pool, PoolSteps(start, steps), b);
    forall p | 0 <= p < LEVELS
      ensures (forall x | x in s.tx.queues[p] :: x.push in s.carried) && Buffers(s, s.tx.queues[p]) == s.pool.queues[p]
    {
      ListIsBuffers(s, p);
    }
  }

  lemma ListIsBuffers(s: State, p: nat)
    requires Inv(s) && p < LEVELS
    ensures (forall x | x in s.tx.queues[p] :: x.push in s.carried) && Buffers(s, s.tx.queues[p]) == s.pool.queues[p]
  {
    assert SameList(s.carried, s.tx.queues[p], s.pool.queues[p]);
  }

  /** While the event is clear and no push is in flight, every buffer is in its pool or with a producer. */
  lemma QuietMeansHome(start: State, steps: seq<Step>, b: B.Buff)
    requires Initial(start) && Shaped(start) && Possible(start, steps)
    requires var s := Execute(start, steps); !s.tx.event && s.tx.pushes == map[] && b < |s.pool.levels|
    ensures var s := Execute(start, steps); var home := s.pool.levels[b];
      && home < LEVELS && WorkerHolds(s) == {} && s.tx.queues == T.NO_BUFFERS
      && (b in s.pool.pools[home] <==> b !in ProducersHold(s))
  {
    var s := Execute(start, steps);
    ExactlyOnePlace(start, steps, b);
    TxReachable(start, steps);
    T.NoLostWakeup(s.tx);
    T.ReachableInv(s.tx);
    assert s.tx.queues[s.pool.levels[b]] == [];
    assert Buffers(s, s.tx.queues[s.pool.levels[b]]) == [];
  }

  /** Whatever holds of all states the scheduler can reach holds of it in the whole. */
  lemma TxReachable(start: State, steps: seq<Step>)
    requires Initial(start) && Shaped(start) && Possible(start, steps)
    ensures T.Reachable(Execute(start, steps).tx)
  {
    TxRuns(start, steps);
  }

  lemma Reached(start: State, steps: seq<Step>)
    requires Initial(start) && Shaped(start) && Possible(start, steps)
    ensures Inv(Execute(start, steps))
  {
    InitialInv(start);
    RunInv(start, steps);
  }

  /** The pools never hold the scheduler up: a buffer that it pops or gives back is where it has to be. */
  lemma NeverBlocked(start: State, steps: seq<Step>)
    requires Initial(start) && Shaped(start) && Possible(start, steps)
    ensures var s := Execute(start, steps);
      && (T.Enabled(s.tx, T.Pop) ==> Enabled(s, Pop))
      && (T.Enabled(s.tx, T.Step.Transmit) ==> Enabled(s, Transmit))
  {
    hide Inv, Enabled;
    Reached(start, steps);
    NotBlocked(Execute(start, steps));
  }

  lemma NotBlocked(s: State)
    requires Inv(s)
    ensures T.Enabled(s.tx, T.Pop) ==> Enabled(s, Pop)
    ensures T.Enabled(s.tx, T.Step.Transmit) ==> Enabled(s, Transmit)
  {
    hide T.Inv, B.Inv;
    if T.Enabled(s.tx, T.Pop) {
      assert SameList(s.carried, s.tx.queues[s.tx.cursor.level], s.pool.queues[s.tx.cursor.level]);
    }
  }

  /** Each transmission gives the buffer that its push brought back to the pool of its level. */
  lemma TransmitReturns(start: State, steps: seq<Step>)
    requires Initial(start) && Shaped(start) && Possible(start, steps) && Enabled(Execute(start, steps), Transmit)
    ensures Returned(Execute(start, steps))
  {
    hide Inv, Returned;
    Reached(start, steps);
    Returns(Execute(start, steps));
  }

  /** The transmission that is due gives back the worker's buffer, and sends the item that brought it. */
  ghost predicate Returned(s: State)
    requires Shaped(s) && Enabled(s, Transmit)
  {
    var s', x := Apply(s, Transmit), s.tx.worker.item;
    var b := s.carried[x.push];
    && b < |s.pool.levels| && s.pool.levels[b] == x.level && b in s.pool.hands && b !in s'.pool.hands
    && s'.pool.pools[x.level] == s.pool.pools[x.level] + [b] && s'.tx.sent == s.tx.sent + [x]
  }

  lemma Returns(s: State)
    requires Inv(s) && Enabled(s, Transmit)
    ensures Returned(s)
  {
    hide T.Inv, B.Inv, SameLists, B.Peaks;
  }
}
