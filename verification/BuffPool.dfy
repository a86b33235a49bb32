/**
Transmit buffers travel from a level's pool to a producer's hands, from there to the level's
transmit queue, to the worker's hands and back to a pool. Any number of threads interleave;
taking from a pool and creating a buffer for an empty one are separate steps.
*/
module BuffPool {
  import opened Common

  const LEVELS: nat := 8

  /** Buffers are numbered as they are created. */
  type Buff = nat

  /**
  levels[b] is the priority field of buffer b; pending[p] counts the acquires that have found
  pool p empty and have not created their buffer yet; initial[p] is how many buffers the pool
  began with, and peak[p] the most that were ever outstanding.
  */
  datatype State = State(
    pools: seq<seq<Buff>>,
    queues: seq<seq<Buff>>,
    hands: set<Buff>,
    pending: seq<nat>,
    levels: seq<nat>,
    initial: seq<nat>,
    peak: seq<nat>)

  predicate Shaped(s: State) {
    |s.pools| == |s.queues| == |s.pending| == |s.initial| == |s.peak| == LEVELS
  }

  // ---------------------------------------------------------------- steps

  datatype Step =
    | Take(p: nat)          // an acquire that finds a buffer in pool p
    | Miss(p: nat)          // an acquire that finds pool p empty
    | Create(p: nat)        // ... and then creates a buffer of its own
    | Push(b: Buff)         // a holder queues a buffer for transmission
    | Pop(p: nat)           // the worker takes the oldest buffer of queue p
    | Release(b: Buff)      // a holder gives a buffer back

  /** The pool a buffer is given back to. */
  function PoolFor(level: nat): nat {
    if level > LEVELS - 1 then 0 else level
  }

  predicate Enabled(s: State, step: Step)
    requires Shaped(s)
  {
    match step
    case Take(p) => p < LEVELS && s.pools[p] != []
    case Miss(p) => p < LEVELS && s.pools[p] == []
    case Create(p) => p < LEVELS && s.pending[p] > 0
    case Push(b) => b in s.hands && b < |s.levels| && s.levels[b] < LEVELS
    case Pop(p) => p < LEVELS && s.queues[p] != []
    case Release(b) => b in s.hands && b < |s.levels|
  }

  function Move(s: State, step: Step): (s': State)
    requires Shaped(s) && Enabled(s, step)
    ensures Shaped(s')
  {
    match step
    case Take(p) => s.(pools := s.pools[p := s.pools[p][1..]], hands := s.hands + {s.pools[p][0]})
    case Miss(p) => s.(pending := s.pending[p := s.pending[p] + 1])
    case Create(p) =>
      s.(pending := s.pending[p := s.pending[p] - 1], levels := s.levels + [p], hands := s.hands + {|s.levels|})
    case Push(b) =>
      var p := s.levels[b];
      s.(queues := s.queues[p := s.queues[p] + [b]], hands := s.hands - {b})
    case Pop(p) => s.(queues := s.queues[p := s.queues[p][1..]], hands := s.hands + {s.queues[p][0]})
    case Release(b) =>
      var p := PoolFor(s.levels[b]);
      s.(pools := s.pools[p := s.pools[p] + [b]], hands := s.hands - {b})
  }

  /** The held buffers of a level. */
  function Held(s: State, p: nat): set<Buff> {
    set b | b in s.hands && b < |s.levels| && s.levels[b] == p
  }

  /** Buffers of a level that are out of their pool, an acquire that has to create one included. */
  function Outstanding(s: State, p: nat): nat
    requires Shaped(s) && p < LEVELS
  {
    |Held(s, p)| + |s.queues[p]| + s.pending[p]
  }

  function Max(a: nat, b: nat): nat {
    if a < b then b else a
  }

  function Peaks(s: State): (peak: seq<nat>)
    requires Shaped(s)
    ensures |peak| == LEVELS && forall p | 0 <= p < LEVELS :: peak[p] == Max(s.peak[p], Outstanding(s, p))
  {
    seq(LEVELS, p requires 0 <= p < LEVELS => Max(s.peak[p], Outstanding(s, p)))
  }

  function Apply(s: State, step: Step): (s': State)
    requires Shaped(s) && Enabled(s, step)
    ensures Shaped(s')
  {
    var s' := Move(s, step);
    s'.(peak := Peaks(s'))
  }

  predicate Possible(s: State, steps: seq<Step>)
    requires Shaped(s)
    decreases |steps|
  {
    steps == [] || (Enabled(s, steps[0]) && Possible(Apply(s, steps[0]), steps[1..]))
  }

  function Execute(s: State, steps: seq<Step>): (s': State)
    requires Shaped(s) && Possible(s, steps)
    ensures Shaped(s')
    decreases |steps|
  {
    if steps == [] then s else Execute(Apply(s, steps[0]), steps[1..])
  }

  /** All buffers lie in the pools of their levels, and nothing is under way. */
  ghost predicate Initial(s: State) {
    && Shaped(s) && Inv(s) && s.hands == {}
    && forall p | 0 <= p < LEVELS ::
         s.queues[p] == [] && s.pending[p] == 0 && s.initial[p] == |s.pools[p]| && s.peak[p] == 0
  }

  // ---------------------------------------------------------------- where buffers are

  /** A list of level p holds different buffers of that level. */
  predicate Homed(levels: seq<nat>, p: nat, xs: seq<Buff>) {
    NoDup(xs) && forall b | b in xs :: b < |levels| && levels[b] == p
  }

  /** Pool and queue of level p hold different buffers of that level, none of them in hands. */
  predicate LevelPlaces(pool: seq<Buff>, queue: seq<Buff>, hands: set<Buff>, levels: seq<nat>, p: nat) {
    && Homed(levels, p, pool) && Homed(levels, p, queue)
    && (forall b | b in pool :: b !in queue)
    && (forall b | b in pool :: b !in hands)
    && (forall b | b in queue :: b !in hands)
  }

  predicate Somewhere(s: State, b: Buff)
    requires Shaped(s) && b < |s.levels| && s.levels[b] < LEVELS
  {
    b in s.hands || b in s.pools[s.levels[b]] || b in s.queues[s.levels[b]]
  }

  predicate Places(s: State)
    requires Shaped(s)
  {
    && (forall b | b in s.hands :: b < |s.levels|)
    && (forall p | 0 <= p < LEVELS :: LevelPlaces(s.pools[p], s.queues[p], s.hands, s.levels, p))
    && forall b | 0 <= b < |s.levels| :: s.levels[b] < LEVELS && Somewhere(s, b)
  }

  /** How many buffers of a level there are. */
  function Total(s: State, p: nat): nat
    requires Shaped(s) && p < LEVELS
  {
    |s.pools[p]| + |s.queues[p]| + |Held(s, p)|
  }

  /** Created buffers, and those about to be, are within the initial number or the peak. */
  predicate Bounded(s: State, p: nat)
    requires Shaped(s) && p < LEVELS
  {
    Total(s, p) + s.pending[p] <= Max(s.initial[p], s.peak[p])
  }

  predicate Inv(s: State) {
    Shaped(s) && Places(s) && forall p | 0 <= p < LEVELS :: Bounded(s, p)
  }

  // ---------------------------------------------------------------- each step keeps it

  /** The first of a list and the others. */
  lemma FirstOff(xs: seq<Buff>, b: Buff)
    requires xs != [] && NoDup(xs)
    ensures b in xs <==> b == xs[0] || b in xs[1..]
    ensures xs[0] !in xs[1..] && NoDup(xs[1..])
  {
    assert xs == [xs[0]] + xs[1..];
  }

  lemma TakePlaces(s: State, p: nat)
    requires Shaped(s) && Places(s) && Enabled(s, Take(p))
    ensures Places(Move(s, Take(p)))
  {
    var s' := Move(s, Take(p));
    var b := s.pools[p][0];
    assert b in s.pools[p];
    forall q | 0 <= q < LEVELS ensures LevelPlaces(s'.pools[q], s'.queues[q], s'.hands, s'.levels, q) {
      assert LevelPlaces(s.pools[q], s.queues[q], s.hands, s.levels, q);
      FirstOff(s.pools[p], b);
    }
    forall c | 0 <= c < |s.levels| ensures Somewhere(s', c) {
      assert Somewhere(s, c);
      FirstOff(s.pools[p], c);
    }
  }

  lemma CreatePlaces(s: State, p: nat)
    requires Shaped(s) && Places(s) && Enabled(s, Create(p))
    ensures Places(Move(s, Create(p)))
  {
    var s' := Move(s, Create(p));
    forall q | 0 <= q < LEVELS ensures LevelPlaces(s'.pools[q], s'.queues[q], s'.hands, s'.levels, q) {
      assert LevelPlaces(s.pools[q], s.queues[q], s.hands, s.levels, q);
    }
    forall c | 0 <= c < |s'.levels| ensures s'.levels[c] < LEVELS && Somewhere(s', c) {
      assert c < |s.levels| ==> Somewhere(s, c);
    }
  }

  lemma PushPlaces(s: State, b: Buff)
    requires Shaped(s) && Places(s) && Enabled(s, Push(b))
    ensures Places(Move(s, Push(b)))
  {
    var s' := Move(s, Push(b));
    forall q | 0 <= q < LEVELS ensures LevelPlaces(s'.pools[q], s'.queues[q], s'.hands, s'.levels, q) {
      assert LevelPlaces(s.pools[q], s.queues[q], s.hands, s.levels, q);
    }
    forall c | 0 <= c < |s.levels| ensures Somewhere(s', c) {
      assert Somewhere(s, c);
    }
  }

  lemma PopPlaces(s: State, p: nat)
    requires Shaped(s) && Places(s) && Enabled(s, Pop(p))
    ensures Places(Move(s, Pop(p)))
  {
    var s' := Move(s, Pop(p));
    var b := s.queues[p][0];
    assert b in s.queues[p];
    forall q | 0 <= q < LEVELS ensures LevelPlaces(s'.pools[q], s'.queues[q], s'.hands, s'.levels, q) {
      assert LevelPlaces(s.pools[q], s.queues[q], s.hands, s.levels, q);
      FirstOff(s.queues[p], b);
    }
    forall c | 0 <= c < |s.levels| ensures Somewhere(s', c) {
      assert Somewhere(s, c);
      FirstOff(s.queues[p], c);
    }
  }

  lemma ReleasePlaces(s: State, b: Buff)
    requires Shaped(s) && Places(s) && Enabled(s, Release(b))
    ensures Places(Move(s, Release(b)))
  {
    var s' := Move(s, Release(b));
    forall q | 0 <= q < LEVELS ensures LevelPlaces(s'.pools[q], s'.queues[q], s'.hands, s'.levels, q) {
      assert LevelPlaces(s.pools[q], s.queues[q], s.hands, s.levels, q);
    }
    forall c | 0 <= c < |s.levels| ensures Somewhere(s', c) {
      assert Somewhere(s, c);
    }
  }

  lemma MovePlaces(s: State, step: Step)
    requires Shaped(s) && Places(s) && Enabled(s, step)
    ensures Places(Move(s, step))
  {
    match step
    case Take(p) => TakePlaces(s, p);
    case Miss(_) =>
    case Create(p) => CreatePlaces(s, p);
    case Push(b) => PushPlaces(s, b);
    case Pop(p) => PopPlaces(s, p);
    case Release(b) => ReleasePlaces(s, b);
  }

  // ---------------------------------------------------------------- counting

  /** What a step does to the held buffers of a level. */
  lemma HeldGains(s: State, s': State, b: Buff, p: nat)
    requires s'.hands == s.hands + {b} && b !in s.hands && b < |s'.levels|
    requires s.levels <= s'.levels && forall c | c in s.hands :: c < |s.levels|
    ensures |Held(s', p)| == |Held(s, p)| + if s'.levels[b] == p then 1 else 0
  {
    assert Held(s', p) == Held(s, p) + if s'.levels[b] == p then {b} else {};
  }

  lemma HeldLoses(s: State, s': State, b: Buff, p: nat)
    requires b in s.hands && b < |s.levels| && s'.hands == s.hands - {b} && s'.levels == s.levels
    ensures |Held(s', p)| == |Held(s, p)| - if s.levels[b] == p then 1 else 0
  {
    assert Held(s, p) == Held(s', p) + if s.levels[b] == p then {b} else {};
  }

  /** Only a miss adds to what is created or about to be; everything is out of the pool then. */
  lemma MoveTotal(s: State, step: Step, p: nat)
    requires Shaped(s) && Places(s) && Enabled(s, step) && p < LEVELS
    ensures var s' := Move(s, step);
      if step == Miss(p) then Total(s', p) + s'.pending[p] == Outstanding(s', p)
      else Total(s', p) + s'.pending[p] == Total(s, p) + s.pending[p]
  {
    var s' := Move(s, step);
    match step
    case Take(q) =>
      assert LevelPlaces(s.pools[q], s.queues[q], s.hands, s.levels, q) && s.pools[q][0] in s.pools[q];
      HeldGains(s, s', s.pools[q][0], p);
    case Miss(q) =>
    case Create(q) => HeldGains(s, s', |s.levels|, p);
    case Push(b) =>
      assert Somewhere(s, b);
      HeldLoses(s, s', b, p);
    case Pop(q) =>
      assert LevelPlaces(s.pools[q], s.queues[q], s.hands, s.levels, q) && s.queues[q][0] in s.queues[q];
      HeldGains(s, s', s.queues[q][0], p);
    case Release(b) =>
      assert Somewhere(s, b);
      HeldLoses(s, s', b, p);
  }

  lemma StepInv(s: State, step: Step)
    requires Inv(s) && Enabled(s, step)
    ensures Inv(Apply(s, step))
  {
    var s' := Move(s, step);
    MovePlaces(s, step);
    forall p | 0 <= p < LEVELS ensures Bounded(Apply(s, step), p) {
      assert Bounded(s, p);
      MoveTotal(s, step, p);
      assert Held(Apply(s, step), p) == Held(s', p);
    }
  }

  lemma {:induction false} RunInv(s: State, steps: seq<Step>)
    requires Inv(s) && Possible(s, steps)
    ensures Inv(Execute(s, steps))
    decreases |steps|
  {
    if steps != [] {
      StepInv(s, steps[0]);
      RunInv(Apply(s, steps[0]), steps[1..]);
    }
  }

  // ---------------------------------------------------------------- main results

  /** The buffers created for a level, the initial ones included. */
  function Created(s: State, p: nat): set<Buff> {
    set b | 0 <= b < |s.levels| && s.levels[b] == p
  }

  /** In every run each buffer is in its home pool, in its home queue or in hands, and in one of them only. */
  lemma ExactlyOnePlace(s: State, steps: seq<Step>, b: Buff)
    requires Initial(s) && Possible(s, steps) && b < |Execute(s, steps).levels|
    ensures var t := Execute(s, steps);
      var home := t.levels[b];
      && home < LEVELS
      && (if b in t.hands then 1 else 0) + multiset(t.pools[home])[b] + multiset(t.queues[home])[b] == 1
      && forall p | 0 <= p < LEVELS && p != home :: b !in t.pools[p] && b !in t.queues[p]
  {
    RunInv(s, steps);
    var t := Execute(s, steps);
    var home := t.levels[b];
    assert Somewhere(t, b);
    assert forall p | 0 <= p < LEVELS :: LevelPlaces(t.pools[p], t.queues[p], t.hands, t.levels, p);
    Once(t.pools[home], b);
    Once(t.queues[home], b);
  }

  lemma {:induction false} Once(xs: seq<Buff>, b: Buff)
    requires NoDup(xs)
    ensures multiset(xs)[b] == if b in xs then 1 else 0
  {
    if xs != [] {
      assert xs == [xs[0]] + xs[1..];
      Once(xs[1..], b);
      assert xs[0] !in xs[1..];
    }
  }

  /** In every run a level never has more buffers than it began with, or than were once outstanding. */
  lemma PoolBound(s: State, steps: seq<Step>, p: nat)
    requires Initial(s) && Possible(s, steps) && p < LEVELS
    ensures var t := Execute(s, steps);
      |Created(t, p)| + t.pending[p] <= Max(|s.pools[p]|, t.peak[p])
  {
    RunInv(s, steps);
    var t := Execute(s, steps);
    TotalIsCreated(t, p);
    InitialStays(s, steps);
    assert Bounded(t, p) && s.initial[p] == |s.pools[p]|;
  }

  lemma {:induction false} InitialStays(s: State, steps: seq<Step>)
    requires Shaped(s) && Possible(s, steps)
    ensures Execute(s, steps).initial == s.initial
    decreases |steps|
  {
    if steps != [] {
      InitialStays(Apply(s, steps[0]), steps[1..]);
    }
  }

  function Members(xs: seq<Buff>): set<Buff> {
    set b | b in xs
  }

  lemma {:induction false} SizeOf(xs: seq<Buff>)
    requires NoDup(xs)
    ensures |Members(xs)| == |xs|
  {
    if xs != [] {
      var rest := xs[1..];
      SizeOf(rest);
      forall b ensures b in xs <==> b == xs[0] || b in rest {
        FirstOff(xs, b);
      }
      FirstOff(xs, xs[0]);
      assert Members(xs) == Members(rest) + {xs[0]};
      assert xs[0] !in Members(rest);
    }
  }

  lemma CreatedIs(s: State, p: nat, b: Buff)
    requires Shaped(s) && Places(s) && p < LEVELS
    ensures b in Created(s, p) <==> b in s.pools[p] || b in s.queues[p] || b in Held(s, p)
  {
    assert LevelPlaces(s.pools[p], s.queues[p], s.hands, s.levels, p);
    assert b < |s.levels| ==> Somewhere(s, b);
  }

  lemma TotalIsCreated(s: State, p: nat)
    requires Shaped(s) && Places(s) && p < LEVELS
    ensures |Created(s, p)| == Total(s, p)
  {
    var pool, queue, held := Members(s.pools[p]), Members(s.queues[p]), Held(s, p);
    assert LevelPlaces(s.pools[p], s.queues[p], s.hands, s.levels, p);
    SizeOf(s.pools[p]);
    SizeOf(s.queues[p]);
    forall b ensures b in Created(s, p) <==> b in pool + queue + held {
      CreatedIs(s, p, b);
    }
    assert Created(s, p) == pool + queue + held;
    DisjointSizes(pool, queue, held);
  }

  lemma DisjointSizes(a: set<Buff>, b: set<Buff>, c: set<Buff>)
    requires (forall x | x in a :: x !in b && x !in c) && forall x | x in b :: x !in c
    ensures |a + b + c| == |a| + |b| + |c|
  {
    assert a * b == {} && (a + b) * c == {};
  }
}
