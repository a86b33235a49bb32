/**
The priority transmit scheduler as a system of interleaved atomic regions.

Every region that the program runs under one lock is one step, and no two regions are
merged: a push is three steps (append to a list, raise the cursor, set the event), and
a poll of the worker is five (return from the wait, take the cursor lock, pop under the
list lock, transmit, then lower the cursor or clear the event and release the lock).
Any number of pushes may be in flight at the same time.
*/
module TransmitProtocol {
  import opened Common

  const LEVELS: nat := 8
  const SET_MESSAGE: nat := 11    // bytes written by one set, terminator included
  const RESET_BUFFER: nat := 13   // bytes asked for by one reset

  type Level = n: nat | n < LEVELS

  /** One pushed buffer: the push that brought it, its priority, and its transport. */
  datatype Item = Item(push: nat, level: Level, udp: bool)

  datatype Cursor = Unset | At(level: Level)

  /** How far a push that has not returned yet has come. */
  datatype Stage = Appended | Raised
  datatype InFlight = InFlight(level: Level, stage: Stage)

  datatype Worker =
    | Waiting                               // in the event wait
    | Awake                                 // the wait returned, the cursor lock is not held yet
    | Locked                                // holds the cursor lock
    | Popped(item: Item, drained: bool)     // holds the lock and a buffer to transmit
    | Examined(drained: bool)               // holds the lock, the queue has been dealt with

  datatype State = State(
    queues: seq<seq<Item>>,
    cursor: Cursor,
    event: bool,
    pipe: nat,                 // unread bytes in the event's pipe
    pushes: map<nat, InFlight>,    // the pushes in flight
    worker: Worker,
    sent: seq<Item>,           // everything the worker has dealt with, in order
    appended: seq<Item>        // everything ever appended, in order
  )

  datatype Step =
    | Append(item: Item)
    | Raise(push: nat)
    | SetEvent(push: nat)
    | Wake
    | Lock
    | Pop
    | Transmit
    | Finish

  const NO_BUFFERS: seq<seq<Item>> := [[], [], [], [], [], [], [], []]
  const INIT := State(NO_BUFFERS, Unset, false, 0, map[], Waiting, [], [])

  predicate Shaped(s: State) {
    |s.queues| == LEVELS
  }

  predicate HoldsLock(w: Worker) {
    w.Locked? || w.Popped? || w.Examined?
  }

  predicate NewPush(s: State, i: nat) {
    i !in s.pushes && forall y | y in s.appended :: y.push != i
  }

  predicate Enabled(s: State, step: Step)
    requires Shaped(s)
  {
    match step
    case Append(x) => NewPush(s, x.push)
    case Raise(i) => i in s.pushes && s.pushes[i].stage.Appended? && !HoldsLock(s.worker)
    case SetEvent(i) => i in s.pushes && s.pushes[i].stage.Raised?
    case Wake => s.worker.Waiting? && s.pipe > 0
    case Lock => s.worker.Awake?
    case Pop => s.worker.Locked? && s.cursor.At?
    case Transmit => s.worker.Popped?
    case Finish => s.worker.Examined? && s.cursor.At?
  }

  function SetBytes(s: State): nat {
    if s.event then s.pipe else s.pipe + SET_MESSAGE
  }

  function ResetBytes(s: State): nat {
    if !s.event then s.pipe
    else if s.pipe < RESET_BUFFER then 0 else s.pipe - RESET_BUFFER
  }

  function Apply(s: State, step: Step): (s': State)
    requires Shaped(s) && Enabled(s, step)
    ensures Shaped(s')
  {
    match step
    case Append(x) =>
      s.(queues := s.queues[x.level := s.queues[x.level] + [x]],
         pushes := s.pushes[x.push := InFlight(x.level, Appended)],
         appended := s.appended + [x])
    case Raise(i) =>
      var level := s.pushes[i].level;
      s.(cursor := if s.cursor.Unset? || level > s.cursor.level then At(level) else s.cursor,
         pushes := s.pushes[i := InFlight(level, Raised)])
    case SetEvent(i) =>
      s.(event := true, pipe := SetBytes(s), pushes := s.pushes - {i})
    case Wake => s.(worker := Awake)
    case Lock => s.(cursor := if s.cursor.Unset? then At(LEVELS - 1) else s.cursor, worker := Locked)
    case Pop =>
      var q := s.queues[s.cursor.level];
      if q == [] then s.(worker := Examined(true))
      else s.(queues := s.queues[s.cursor.level := q[1..]], worker := Popped(q[0], |q| == 1))
    case Transmit => s.(sent := s.sent + [s.worker.item], worker := Examined(s.worker.drained))
    case Finish =>
      if !s.worker.drained then s.(worker := Waiting)
      else if s.cursor.level > 0 then s.(cursor := At(s.cursor.level - 1), worker := Waiting)
      else s.(event := false, pipe := ResetBytes(s), worker := Waiting)
  }

  /** The steps can be taken one after the other, starting from s. */
  predicate Possible(s: State, steps: seq<Step>)
    requires Shaped(s)
    decreases |steps|
  {
    steps == [] || (Enabled(s, steps[0]) && Possible(Apply(s, steps[0]), steps[1..]))
  }

  function Execute(s: State, steps: seq<Step>): (s': State)
    requires Shaped(s) && Possible(s, steps)
    ensures Shaped(s')
    decreases |steps|
  {
    if steps == [] then s else Execute(Apply(s, steps[0]), steps[1..])
  }

  ghost predicate Reachable(s: State) {
    exists steps :: Possible(INIT, steps) && Execute(INIT, steps) == s
  }

  // ---------------------------------------------------------------- the invariant

  function OfLevel(xs: seq<Item>, p: nat): seq<Item> {
    if xs == [] then []
    else (if xs[0].level == p then [xs[0]] else []) + OfLevel(xs[1..], p)
  }

  function InHand(w: Worker, p: nat): seq<Item> {
    if w.Popped? && w.item.level == p then [w.item] else []
  }

  /** x belongs to a push that has appended and not yet raised the cursor. */
  predicate Unraised(s: State, x: Item) {
    x.push in s.pushes && s.pushes[x.push].stage.Appended?
  }

  predicate Above(s: State, p: nat) {
    s.cursor.Unset? || p > s.cursor.level
  }

  predicate Drained(w: Worker) {
    (w.Popped? || w.Examined?) && w.drained
  }

  ghost predicate Homed(s: State)
    requires Shaped(s)
  {
    forall p, x | 0 <= p < LEVELS && x in s.queues[p] ::
      x.level == p && x in s.appended && (x.push in s.pushes ==> s.pushes[x.push].level == p)
  }

  ghost predicate NoneBypassed(s: State)
    requires Shaped(s)
  {
    forall p, x | 0 <= p < LEVELS && x in s.queues[p] && Above(s, p) :: Unraised(s, x)
  }

  ghost predicate DrainedQueueUnraised(s: State)
    requires Shaped(s)
  {
    HoldsLock(s.worker) ==>
      s.cursor.At? && (Drained(s.worker) ==> forall x | x in s.queues[s.cursor.level] :: Unraised(s, x))
  }

  ghost predicate NoneForgotten(s: State)
    requires Shaped(s)
  {
    !s.event ==> forall p, x | 0 <= p < LEVELS && x in s.queues[p] :: x.push in s.pushes
  }

  ghost predicate CursorSet(s: State) {
    s.cursor.Unset? ==> !s.event && forall i | i in s.pushes :: s.pushes[i].stage.Appended?
  }

  ghost predicate EventMatchesPipe(s: State) {
    s.pipe == if s.event then SET_MESSAGE else 0
  }

  ghost predicate WorkerNeedsEvent(s: State) {
    !s.worker.Waiting? ==> s.event
  }

  ghost predicate Fifo(s: State)
    requires Shaped(s)
  {
    forall p | 0 <= p < LEVELS :: FifoAt(s, p)
  }

  ghost predicate FifoAt(s: State, p: nat)
    requires Shaped(s) && p < LEVELS
  {
    OfLevel(s.appended, p) == OfLevel(s.sent, p) + InHand(s.worker, p) + s.queues[p]
  }

  ghost predicate Inv(s: State) {
    && Shaped(s)
    && Homed(s)
    && NoneBypassed(s)
    && DrainedQueueUnraised(s)
    && NoneForgotten(s)
    && CursorSet(s)
    && EventMatchesPipe(s)
    && WorkerNeedsEvent(s)
    && Fifo(s)
  }

  lemma {:induction false} OfLevelAppend(xs: seq<Item>, x: Item, p: nat)
    ensures OfLevel(xs + [x], p) == OfLevel(xs, p) + if x.level == p then [x] else []
  {
    var last := if x.level == p then [x] else [];
    if xs == [] {
      assert xs + [x] == [x] && [x][1..] == [];
    } else {
      assert (xs + [x])[0] == xs[0] && (xs + [x])[1..] == xs[1..] + [x];
      OfLevelAppend(xs[1..], x, p);
      Assoc(if xs[0].level == p then [xs[0]] else [], OfLevel(xs[1..], p), last);
    }
  }

  lemma FifoAppend(s: State, x: Item, p: nat)
    requires Shaped(s) && Enabled(s, Append(x)) && p < LEVELS && FifoAt(s, p)
    ensures FifoAt(Apply(s, Append(x)), p)
  {
    OfLevelAppend(s.appended, x, p);
    Assoc(OfLevel(s.sent, p) + InHand(s.worker, p), s.queues[p], if x.level == p then [x] else []);
  }

  lemma FifoPop(s: State, p: nat)
    requires Shaped(s) && Enabled(s, Pop) && p < LEVELS && FifoAt(s, p)
    requires forall x | x in s.queues[s.cursor.level] :: x.level == s.cursor.level
    ensures FifoAt(Apply(s, Pop), p)
  {
    var q := s.queues[s.cursor.level];
    if q != [] {
      assert q[0] in q && q == [q[0]] + q[1..];
      if p == s.cursor.level {
        assert OfLevel(s.sent, p) + [] == OfLevel(s.sent, p);
        Assoc(OfLevel(s.sent, p), [q[0]], q[1..]);
      }
    }
  }

  lemma FifoTransmit(s: State, p: nat)
    requires Shaped(s) && Enabled(s, Step.Transmit) && p < LEVELS && FifoAt(s, p)
    ensures FifoAt(Apply(s, Step.Transmit), p)
  {
    OfLevelAppend(s.sent, s.worker.item, p);
    var sent := OfLevel(s.sent, p) + InHand(s.worker, p);
    assert sent + [] == sent;
  }

  /** Every step keeps each level's order: appended = sent + in hand + queued. */
  lemma FifoStep(s: State, step: Step)
    requires Inv(s) && Enabled(s, step)
    ensures Fifo(Apply(s, step))
  {
    var s' := Apply(s, step);
    forall p | 0 <= p < LEVELS ensures FifoAt(s', p) {
      assert FifoAt(s, p);
      match step
      case Append(x) => FifoAppend(s, x, p);
      case Pop => FifoPop(s, p);
      case Transmit => FifoTransmit(s, p);
      case _ =>
    }
  }

  lemma HomedStep(s: State, step: Step)
    requires Inv(s) && Enabled(s, step)
    ensures Homed(Apply(s, step))
  {
    var s' := Apply(s, step);
    forall p, x | 0 <= p < LEVELS && x in s'.queues[p]
      ensures x.level == p && x in s'.appended && (x.push in s'.pushes ==> s'.pushes[x.push].level == p)
    {
      if !step.Append? || x != step.item {
        assert x in s.queues[p];
      }
    }
  }

  lemma QueueStep(s: State, step: Step)
    requires Inv(s) && Enabled(s, step)
    ensures Homed(Apply(s, step)) && NoneBypassed(Apply(s, step))
  {
    var s' := Apply(s, step);
    HomedStep(s, step);
    forall p, x | 0 <= p < LEVELS && x in s'.queues[p] ensures Above(s', p) ==> Unraised(s', x) {
      if !step.Append? || x != step.item {
        assert x in s.queues[p];
        assert Above(s, p) ==> Unraised(s, x);
        assert step.Finish? && Above(s', p) && !Above(s, p) ==> p == s.cursor.level && Unraised(s, x);
      }
    }
  }

  lemma EventStep(s: State, step: Step)
    requires Inv(s) && Enabled(s, step)
    ensures var s' := Apply(s, step);
      DrainedQueueUnraised(s') && NoneForgotten(s') && CursorSet(s') && EventMatchesPipe(s') && WorkerNeedsEvent(s')
  {
    var s' := Apply(s, step);
    if HoldsLock(s'.worker) && Drained(s'.worker) {
      forall x | x in s'.queues[s'.cursor.level] ensures Unraised(s', x) {
        if step.Append? && x == step.item {
        } else {
          assert x in s.queues[s.cursor.level];
        }
      }
    }
    if !s'.event {
      forall p, x | 0 <= p < LEVELS && x in s'.queues[p] ensures x.push in s'.pushes {
        if !step.Append? || x != step.item {
          assert x in s.queues[p];
          if s.event {
            assert Above(s, p) || p == s.cursor.level;
            assert Unraised(s, x);
          }
        }
      }
    }
  }

  lemma InvStep(s: State, step: Step)
    requires Inv(s) && Enabled(s, step)
    ensures Inv(Apply(s, step))
  {
    FifoStep(s, step);
    QueueStep(s, step);
    EventStep(s, step);
  }

  lemma {:induction false} InvExecute(s: State, steps: seq<Step>)
    requires Inv(s) && Possible(s, steps)
    ensures Inv(Execute(s, steps))
    decreases |steps|
  {
    if steps != [] {
      InvStep(s, steps[0]);
      InvExecute(Apply(s, steps[0]), steps[1..]);
    }
  }

  lemma InitInv()
    ensures Inv(INIT)
  {
  }

  lemma ReachableInv(s: State)
    requires Reachable(s)
    ensures Inv(s)
  {
    InitInv();
    var steps :| Possible(INIT, steps) && Execute(INIT, steps) == s;
    InvExecute(INIT, steps);
  }

  // ---------------------------------------------------------------- safety over all runs

  /**
  No wake-up is lost. While the event is clear, every queued buffer belongs to a push
  that still has its own set to do; so a clear event with no push in flight means
  that nothing is queued. The flag is set exactly when the pipe has unread bytes,
  which is what the worker's wait looks at.
  */
  lemma NoLostWakeup(s: State)
    requires Reachable(s)
    ensures !s.event ==> forall p, x | 0 <= p < |s.queues| && x in s.queues[p] :: x.push in s.pushes
    ensures !s.event && s.pushes == map[] ==> s.queues == NO_BUFFERS
    ensures s.event <==> s.pipe > 0
    ensures s.event && s.worker.Waiting? ==> Shaped(s) && Enabled(s, Wake)
  {
    ReachableInv(s);
    forall p | 0 <= p < LEVELS ensures !s.event && s.queues[p] != [] ==> s.pushes != map[] {
      if !s.event && s.queues[p] != [] {
        assert s.queues[p][0] in s.queues[p] && s.queues[p][0].push in s.pushes;
      }
    }
  }

  /**
  No published buffer is bypassed: when the worker is about to pop, every queued buffer
  of a higher level than the cursor belongs to a push that has not raised the cursor yet.
  */
  lemma NeverBypassed(s: State, x: Item, p: nat)
    requires Reachable(s) && Shaped(s) && Enabled(s, Pop)
    requires p < LEVELS && x in s.queues[p]
    requires x.push !in s.pushes || s.pushes[x.push].stage.Raised?
    ensures x.level == p <= s.cursor.level
  {
    ReachableInv(s);
    assert Above(s, p) ==> Unraised(s, x);
  }

  /** Each level is served first in, first out, and nothing is lost or duplicated. */
  lemma ServedInOrder(s: State, p: Level)
    requires Reachable(s)
    ensures Shaped(s)
    ensures OfLevel(s.appended, p) == OfLevel(s.sent, p) + InHand(s.worker, p) + s.queues[p]
    ensures OfLevel(s.sent, p) <= OfLevel(s.appended, p)
  {
    ReachableInv(s);
    assert FifoAt(s, p);
    Assoc(OfLevel(s.sent, p), InHand(s.worker, p), s.queues[p]);
  }

  // ---------------------------------------------------------------- the worker on its own

  /** The only step the worker can take next. */
  function WorkerStep(w: Worker): Step {
    match w
    case Waiting => Wake
    case Awake => Lock
    case Locked => Pop
    case Popped(_, _) => Transmit
    case Examined(_) => Finish
  }

  /** The worker takes n steps with no producer stepping in between; it stops where it has to wait. */
  function Alone(s: State, n: nat): (s': State)
    requires Shaped(s)
    ensures Shaped(s')
    decreases n
  {
    if n == 0 || !Enabled(s, WorkerStep(s.worker)) then s
    else Alone(Apply(s, WorkerStep(s.worker)), n - 1)
  }

  predicate Ready(s: State) {
    Shaped(s) && s.worker.Waiting? && s.event && s.pipe == SET_MESSAGE
  }

  function CursorLevel(c: Cursor): Level {
    if c.Unset? then LEVELS - 1 else c.level
  }

  /** One whole poll, from wait to wait, as a single change of state. */
  function Poll(s: State): (s': State)
    requires Ready(s)
    ensures Shaped(s') && s'.worker.Waiting? && s'.pushes == s.pushes
    ensures s'.pipe == if s'.event then SET_MESSAGE else 0
  {
    var c := CursorLevel(s.cursor);
    var q := s.queues[c];
    var popped :=
      if q == [] then s.(cursor := At(c))
      else s.(cursor := At(c), queues := s.queues[c := q[1..]], sent := s.sent + [q[0]]);
    if |q| > 1 then popped
    else if c > 0 then popped.(cursor := At(c - 1))
    else popped.(event := false, pipe := 0)
  }

  /** The steps the worker takes on its own make up exactly one poll. */
  lemma PollIsWorkerSteps(s: State)
    requires Ready(s)
    ensures Alone(s, if s.queues[CursorLevel(s.cursor)] == [] then 4 else 5) == Poll(s)
  {
    var locked := s.(worker := Locked, cursor := At(CursorLevel(s.cursor)));
    hide Alone, Poll;
    PollBegins(s);
    if s.queues[CursorLevel(s.cursor)] == [] {
      PollWithoutPop(s, locked);
    } else {
      PollWithPop(s, locked);
    }
  }

  lemma PollWithoutPop(s: State, locked: State)
    requires Ready(s) && s.queues[CursorLevel(s.cursor)] == []
    requires locked == s.(worker := Locked, cursor := At(CursorLevel(s.cursor)))
    ensures Alone(locked, 2) == Poll(s)
  {
    AloneStep(locked);
    FinishAlone(locked.(worker := Examined(true)));
  }

  lemma PollBegins(s: State)
    requires Ready(s)
    ensures var locked := s.(worker := Locked, cursor := At(CursorLevel(s.cursor)));
      forall n: nat | n > 1 :: Alone(s, n) == Alone(locked, n - 2)
  {
    AloneStep(s);
    AloneStep(s.(worker := Awake));
  }

  lemma PollWithPop(s: State, locked: State)
    requires Ready(s) && s.queues[CursorLevel(s.cursor)] != []
    requires locked == s.(worker := Locked, cursor := At(CursorLevel(s.cursor)))
    ensures Alone(locked, 3) == Poll(s)
  {
    var popped := Apply(locked, Pop);
    AloneStep(locked);
    AloneStep(popped);
    FinishAlone(Apply(popped, Transmit));
  }

  lemma AloneStep(s: State)
    requires Shaped(s) && Enabled(s, WorkerStep(s.worker))
    ensures forall n: nat | n > 0 :: Alone(s, n) == Alone(Apply(s, WorkerStep(s.worker)), n - 1)
  {
  }

  lemma FinishAlone(s: State)
    requires Shaped(s) && s.worker.Examined? && s.cursor.At?
    ensures Alone(s, 1) == Apply(s, Finish)
  {
    AloneStep(s);
  }

  function Polls(s: State, n: nat): (s': State)
    requires Shaped(s)
    ensures Shaped(s')
    decreases n
  {
    if n == 0 || !Ready(s) then s else Polls(Poll(s), n - 1)
  }

  /** The queues from level c down, highest first. */
  function DrainOrder(queues: seq<seq<Item>>, c: nat): seq<Item>
    requires c < |queues|
  {
    queues[c] + if c == 0 then [] else DrainOrder(queues, c - 1)
  }

  /** One poll for each buffer, and one for each queue found empty. */
  function DrainCost(queues: seq<seq<Item>>, c: nat): nat
    requires c < |queues|
  {
    (if |queues[c]| > 1 then |queues[c]| else 1) + if c == 0 then 0 else DrainCost(queues, c - 1)
  }

  ghost predicate EmptyAbove(queues: seq<seq<Item>>, c: nat) {
    forall p | c < p < |queues| :: queues[p] == []
  }

  lemma {:induction false} DrainBelow(queues: seq<seq<Item>>, c: nat, q: seq<Item>, d: nat)
    requires d < c < |queues|
    ensures DrainOrder(queues[c := q], d) == DrainOrder(queues, d)
    ensures DrainCost(queues[c := q], d) == DrainCost(queues, d)
  {
    if d > 0 {
      DrainBelow(queues, c, q, d - 1);
    }
  }

  /** What is left to transmit, and at what cost, when the worker is about to poll. */
  function Left(s: State): seq<Item>
    requires Shaped(s)
  {
    DrainOrder(s.queues, CursorLevel(s.cursor))
  }

  function Cost(s: State): nat
    requires Shaped(s)
  {
    DrainCost(s.queues, CursorLevel(s.cursor))
  }

  lemma DrainFirst(queues: seq<seq<Item>>, c: nat)
    requires c < |queues|
    ensures DrainOrder(queues, c) == queues[c] + if c == 0 then [] else DrainOrder(queues, c - 1)
    ensures DrainCost(queues, c) ==
      (if |queues[c]| > 1 then |queues[c]| else 1) + if c == 0 then 0 else DrainCost(queues, c - 1)
  {
  }

  /** Taking the head of queue c takes the first buffer of the drain order, at the cost of one poll. */
  lemma DrainHead(queues: seq<seq<Item>>, c: nat, sent: seq<Item>)
    requires c < |queues| && |queues[c]| > 1
    ensures var q, queues' := queues[c], queues[c := queues[c][1..]];
      && sent + DrainOrder(queues, c) == (sent + [q[0]]) + DrainOrder(queues', c)
      && DrainCost(queues, c) == 1 + DrainCost(queues', c)
  {
    hide DrainOrder, DrainCost;
    var q := queues[c];
    var lower := if c == 0 then [] else DrainOrder(queues, c - 1);
    DrainFirst(queues, c);
    DrainFirst(queues[c := q[1..]], c);
    if c > 0 {
      DrainBelow(queues, c, q[1..], c - 1);
    }
    assert q == [q[0]] + q[1..];
    Assoc([q[0]], q[1..], lower);
    Assoc(sent, [q[0]], q[1..] + lower);
  }

  /** A poll that leaves the queue non-empty transmits its head. */
  lemma PollPops(s: State)
    requires Ready(s) && |s.queues[CursorLevel(s.cursor)]| > 1
    ensures var s' := Poll(s);
      && Ready(s') && s'.cursor == At(CursorLevel(s.cursor))
      && s.sent + Left(s) == s'.sent + Left(s') && Cost(s) == 1 + Cost(s')
  {
    DrainHead(s.queues, CursorLevel(s.cursor), s.sent);
  }

  /** A poll that leaves the queue empty transmits what there was and lowers the cursor. */
  lemma PollLowers(s: State)
    requires Ready(s) && |s.queues[CursorLevel(s.cursor)]| <= 1 && CursorLevel(s.cursor) > 0
    ensures var s', c := Poll(s), CursorLevel(s.cursor);
      && Ready(s') && s'.cursor == At(c - 1) && s'.queues == s.queues[c := []]
      && s.sent + Left(s) == s'.sent + Left(s') && Cost(s) == 1 + Cost(s')
  {
    var c := CursorLevel(s.cursor);
    var q := s.queues[c];
    DrainBelow(s.queues, c, [], c - 1);
    assert q == [] ==> s.queues == s.queues[c := []];
    assert |q| == 1 ==> q[1..] == [];
    assert Poll(s).sent == s.sent + q;
  }

  /** The poll that empties level 0 clears the event. */
  lemma PollEnds(s: State)
    requires Ready(s) && |s.queues[0]| <= 1 && CursorLevel(s.cursor) == 0
    ensures var s' := Poll(s);
      && !s'.event && s'.queues == s.queues[0 := []]
      && s'.sent == s.sent + Left(s) && Cost(s) == 1
  {
    var q := s.queues[0];
    assert q == [] ==> s.queues == s.queues[0 := []];
    assert |q| == 1 ==> q[1..] == [];
    assert Poll(s).sent == s.sent + s.queues[0];
  }

  /**
  With producers idle the worker transmits the queues from the cursor down, each in its
  own order, and clears the event after exactly one poll for each buffer and one for
  each empty queue; it never clears it earlier.
  */
  lemma {:induction false} Drain(s: State)
    requires Ready(s) && EmptyAbove(s.queues, CursorLevel(s.cursor))
    ensures var end := Polls(s, Cost(s));
      && !end.event && end.worker.Waiting? && end.queues == NO_BUFFERS
      && end.sent == s.sent + Left(s)
    ensures forall k: nat | k < Cost(s) :: Polls(s, k).event
    decreases Cost(s)
  {
    var s' := Poll(s);
    if |s.queues[CursorLevel(s.cursor)]| <= 1 && CursorLevel(s.cursor) == 0 {
      PollEnds(s);
      assert Polls(s, 1) == Polls(s', 0);
    } else {
      if |s.queues[CursorLevel(s.cursor)]| > 1 {
        PollPops(s);
      } else {
        PollLowers(s);
      }
      Drain(s');
      forall k: nat | 0 < k < Cost(s) ensures Polls(s, k).event {
        assert Polls(s, k) == Polls(s', k - 1);
      }
    }
  }

  /** From every reachable state with no push in flight and the worker waiting, all that was appended gets sent. */
  lemma QuiescentDrain(s: State)
    requires Reachable(s) && s.pushes == map[] && s.worker.Waiting? && s.event
    ensures Ready(s) && EmptyAbove(s.queues, CursorLevel(s.cursor))
    ensures var end := Polls(s, Cost(s));
      !end.event && end.sent == s.sent + Left(s)
      && forall p: Level :: OfLevel(end.sent, p) == OfLevel(s.appended, p)
  {
    ReachableInv(s);
    forall p | CursorLevel(s.cursor) < p < LEVELS ensures s.queues[p] == [] {
      NothingAbove(s, p);
    }
    Drain(s);
    forall p: Level ensures OfLevel(s.sent + Left(s), p) == OfLevel(s.appended, p) {
      LeftCompletes(s, p);
    }
  }

  lemma {:induction false} InDrainOrder(queues: seq<seq<Item>>, q: nat, c: nat, y: Item)
    requires q <= c < |queues| && y in queues[q]
    ensures y in DrainOrder(queues, c)
  {
    if q < c {
      InDrainOrder(queues, q, c - 1, y);
    }
  }

  /** What waits at a higher level is transmitted before what waits at a lower one. */
  lemma {:induction false} HigherFirst(queues: seq<seq<Item>>, p: nat, q: nat, c: nat, x: Item, y: Item)
    requires q < p <= c < |queues| && x in queues[p] && y in queues[q]
    ensures Before(DrainOrder(queues, c), x, y)
  {
    hide Before;
    BeforeConcat(queues[c], DrainOrder(queues, c - 1), x, y);
    if p == c {
      InDrainOrder(queues, q, c - 1, y);
    } else {
      HigherFirst(queues, p, q, c - 1, x, y);
    }
  }

  /** With producers idle, of any two buffers that wait the one of the higher level is transmitted first. */
  lemma LeftByPriority(s: State, x: Item, y: Item)
    requires Shaped(s) && EmptyAbove(s.queues, CursorLevel(s.cursor)) && y.level < x.level
    requires x in s.queues[x.level] && y in s.queues[y.level]
    ensures Before(s.sent + Left(s), x, y)
  {
    hide Before;
    HigherFirst(s.queues, x.level, y.level, CursorLevel(s.cursor), x, y);
    BeforeConcat(s.sent, Left(s), x, y);
  }

  lemma LeftCompletes(s: State, p: Level)
    requires Shaped(s) && Homed(s) && Fifo(s) && s.worker.Waiting?
    requires EmptyAbove(s.queues, CursorLevel(s.cursor))
    ensures OfLevel(s.sent + Left(s), p) == OfLevel(s.appended, p)
  {
    OfLevelConcat(s.sent, Left(s), p);
    DrainOrderOfLevel(s.queues, CursorLevel(s.cursor), p);
    assert FifoAt(s, p);
    assert InHand(s.worker, p) == [] && OfLevel(s.sent, p) + [] == OfLevel(s.sent, p);
  }

  lemma NothingAbove(s: State, p: Level)
    requires Inv(s) && Above(s, p)
    ensures s.pushes == map[] ==> s.queues[p] == []
  {
    if s.queues[p] != [] {
      assert s.queues[p][0] in s.queues[p] && Unraised(s, s.queues[p][0]);
    }
  }

  lemma {:induction false} OfLevelConcat(xs: seq<Item>, ys: seq<Item>, p: nat)
    ensures OfLevel(xs + ys, p) == OfLevel(xs, p) + OfLevel(ys, p)
  {
    if xs == [] {
      assert xs + ys == ys;
    } else {
      assert (xs + ys)[0] == xs[0] && (xs + ys)[1..] == xs[1..] + ys;
      OfLevelConcat(xs[1..], ys, p);
      Assoc(if xs[0].level == p then [xs[0]] else [], OfLevel(xs[1..], p), OfLevel(ys, p));
    }
  }

  lemma {:induction false} OfLevelUniform(xs: seq<Item>, own: nat, p: nat)
    requires forall x | x in xs :: x.level == own
    ensures OfLevel(xs, p) == if p == own then xs else []
  {
    if xs != [] {
      OfLevelUniform(xs[1..], own, p);
      assert xs == [xs[0]] + xs[1..];
    }
  }

  lemma {:induction false} DrainOrderOfLevel(queues: seq<seq<Item>>, c: nat, p: nat)
    requires c < |queues|
    requires forall i, x | 0 <= i < |queues| && x in queues[i] :: x.level == i
    ensures OfLevel(DrainOrder(queues, c), p) == if p <= c then queues[p] else []
  {
    OfLevelUniform(queues[c], c, p);
    if c > 0 {
      DrainOrderOfLevel(queues, c - 1, p);
      OfLevelConcat(queues[c], DrainOrder(queues, c - 1), p);
    } else {
      assert DrainOrder(queues, c) == queues[c];
    }
  }
}
