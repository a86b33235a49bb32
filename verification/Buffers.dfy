/**
The buffer pools themselves, updated in place: allocation at the start, and the acquire and
release of transmit buffers, each locked region being one step of BuffPool.
*/
module Buffers {
  import opened Common
  import opened BuffPool

  /** Everything in the pools, nothing under way. */
  ghost function Resting(pools: seq<seq<Buff>>, levels: seq<nat>): (s: State)
    requires |pools| == LEVELS
    ensures Shaped(s)
  {
    State(pools, seq(LEVELS, _ => []), {}, seq(LEVELS, _ => 0), levels,
          seq(LEVELS, p requires 0 <= p < LEVELS => |pools[p]|), seq(LEVELS, _ => 0))
  }

  lemma EmptyIsInitial(pools: seq<seq<Buff>>)
    requires |pools| == LEVELS && forall p | 0 <= p < LEVELS :: pools[p] == []
    ensures Initial(Resting(pools, []))
  {
    var s := Resting(pools, []);
    forall p | 0 <= p < LEVELS ensures LevelPlaces(s.pools[p], s.queues[p], s.hands, s.levels, p) && Bounded(s, p) {
      assert Held(s, p) == {};
    }
  }

  lemma OneMore(xs: seq<Buff>, b: Buff)
    requires NoDup(xs) && b !in xs
    ensures NoDup(xs + [b])
  {
  }

  lemma AllocatedIsInitial(pools: seq<seq<Buff>>, levels: seq<nat>, p: nat)
    requires |pools| == LEVELS && Initial(Resting(pools, levels)) && p < LEVELS
    ensures Initial(Resting(pools[p := pools[p] + [|levels|]], levels + [p]))
  {
    var s := Resting(pools, levels);
    var s' := Resting(pools[p := pools[p] + [|levels|]], levels + [p]);
    forall q | 0 <= q < LEVELS
      ensures LevelPlaces(s'.pools[q], s'.queues[q], s'.hands, s'.levels, q) && Bounded(s', q) {
      assert LevelPlaces(s.pools[q], s.queues[q], s.hands, s.levels, q);
      assert Held(s', q) == {};
      if q == p {
        OneMore(pools[p], |levels|);
      }
    }
    forall b | 0 <= b < |s'.levels| ensures s'.levels[b] < LEVELS && Somewhere(s', b) {
      assert b < |levels| ==> Somewhere(s, b);
    }
  }

  lemma {:induction false} OneMoreStep(s: State, steps: seq<Step>, step: Step)
    requires Shaped(s) && Possible(s, steps) && Enabled(Execute(s, steps), step)
    ensures Possible(s, steps + [step]) && Execute(s, steps + [step]) == Apply(Execute(s, steps), step)
    decreases |steps|
  {
    var all := steps + [step];
    if steps == [] {
      assert all[0] == step && all[1..] == [];
    } else {
      assert all[0] == steps[0] && all[1..] == steps[1..] + [step];
      OneMoreStep(Apply(s, steps[0]), steps[1..], step);
    }
  }

  /** How one pool is configured; 0 asks for the default. */
  datatype Param = Param(size: nat, count: nat)

  const BUFF_SIZE: nat := 2048
  const DEFAULT_COUNTS: seq<nat> := [1536, 1024, 1024, 1024, 1024, 640, 512, 128]

  class Server {
    var lists: array<seq<Buff>>     // the pools' lists, by level
    var levels: seq<nat>            // the priority field of each buffer
    ghost var start: State
    ghost var steps: seq<Step>      // what has happened since the pools were allocated
    ghost var s: State

    ghost predicate Valid()
      reads this, lists
    {
      && Initial(start) && Possible(start, steps) && s == Execute(start, steps)
      && lists.Length == LEVELS && lists[..] == s.pools && levels == s.levels
    }

    /** Allocates the pools, each with the buffers it is configured to have, or the default number. */
    constructor (params: seq<Param>)
      requires |params| == LEVELS
      ensures Valid() && fresh(lists) && steps == []
      ensures forall p | 0 <= p < LEVELS :: |s.pools[p]| == if params[p].count > 0 then params[p].count
        else DEFAULT_COUNTS[p]
    {
      lists := new seq<Buff>[LEVELS](_ => []);
      levels := [];
      steps := [];
      new;
      EmptyIsInitial(lists[..]);
      var index := 0;
      while index < LEVELS
        invariant index <= LEVELS && lists.Length == LEVELS && fresh(lists) && steps == []
        invariant Initial(Resting(lists[..], levels))
        invariant forall p | 0 <= p < index :: |lists[p]| == if params[p].count > 0 then params[p].count
          else DEFAULT_COUNTS[p]
        invariant forall p | index <= p < LEVELS :: lists[p] == []
      {
        var size := if params[index].size > 0 then params[index].size else BUFF_SIZE;
        var count := if params[index].count > 0 then params[index].count else DEFAULT_COUNTS[index];
        var ok := Allocate(index, size, count);
        index := index + 1;
      }
      start := Resting(lists[..], levels);
      s := start;
    }

    /** Fills an empty pool with count new buffers of its level; refuses buffers of size 0, and none at all. */
    method Allocate(p: nat, size: nat, count: nat) returns (ok: bool)
      requires p < LEVELS && lists.Length == LEVELS && Initial(Resting(lists[..], levels)) && lists[p] == []
      modifies `levels, lists
      ensures lists.Length == LEVELS && Initial(Resting(lists[..], levels))
      ensures ok <==> size > 0 && count > 0
      ensures |lists[p]| == if ok then count else 0
      ensures forall q | 0 <= q < LEVELS && q != p :: lists[q] == old(lists[q])
    {
      if size == 0 || count == 0 {
        return false;
      }
      ok := true;
      var index := 0;
      while index < count
        invariant index <= count && lists == old(lists) && Initial(Resting(lists[..], levels))
        invariant |lists[p]| == index
        invariant forall q | 0 <= q < LEVELS && q != p :: lists[q] == old(lists[q])
      {
        AllocatedIsInitial(lists[..], levels, p);
        ghost var after := lists[..][p := lists[p] + [|levels|]];
        lists[p] := lists[p] + [|levels|];
        levels := levels + [p];
        assert lists[..] == after;
        index := index + 1;
      }
    }

    ghost method Note(step: Step)
      requires Initial(start) && Possible(start, steps) && s == Execute(start, steps) && Enabled(s, step)
      modifies `steps, `s
      ensures Possible(start, steps) && s == Execute(start, steps) && s == Apply(old(s), step)
    {
      OneMoreStep(start, steps, step);
      steps := steps + [step];
      s := Apply(s, step);
    }

    /** The first buffer of pool p, if there is one: the locked region of an acquire. */
    method Acquire(p: nat) returns (b: Option<Buff>)
      requires Valid() && p < LEVELS
      modifies `steps, `s, lists
      ensures Valid() && lists == old(lists)
      ensures if old(s).pools[p] == [] then b.None? && s == Apply(old(s), Miss(p))
              else b == Some(old(s).pools[p][0]) && s == Apply(old(s), Take(p))
    {
      ghost var was := s;
      if lists[p] == [] {
        Note(Miss(p));
        return None;
      }
      Note(Take(p));
      b := Some(lists[p][0]);
      lists[p] := lists[p][1..];
    }

    /** A buffer for a pool that was found empty. */
    method CreateBuff(p: nat) returns (b: Buff)
      requires Valid() && p < LEVELS && s.pending[p] > 0
      modifies `steps, `s, `levels
      ensures Valid() && s == Apply(old(s), Create(p)) && b == |old(levels)|
    {
      Note(Create(p));
      b := |levels|;
      levels := levels + [p];
    }

    /** A transmit buffer of a priority: from its pool, or a new one when the pool is empty. */
    method AcquireTransmitBuff(priority: nat) returns (b: Option<Buff>)
      requires Valid()
      modifies `steps, `s, `levels, lists
      ensures Valid() && lists == old(lists)
      ensures priority > LEVELS - 1 ==> b.None? && s == old(s)
      ensures priority <= LEVELS - 1 ==>
        && b.Some? && b.value in s.hands && b.value < |levels| && levels[b.value] == priority
        && b.value !in old(s).hands
      ensures priority <= LEVELS - 1 ==>
        var p, pool := priority, old(s).pools[priority];
        if pool != [] then b.value == pool[0] && s == Apply(old(s), Take(p))
        else b.value == |old(s).levels| && s == Apply(Apply(old(s), Miss(p)), Create(p))
    {
      if priority > LEVELS - 1 {
        return None;
      }
      RunInv(start, steps);
      assert LevelPlaces(s.pools[priority], s.queues[priority], s.hands, s.levels, priority);
      assert s.pools[priority] != [] ==> s.pools[priority][0] in s.pools[priority];
      b := Acquire(priority);
      if b.None? {
        var created := CreateBuff(priority);
        b := Some(created);
      }
    }

    /** Gives a held transmit buffer back to the pool of its priority. */
    method ReleaseBuff(b: Buff)
      requires Valid() && b in s.hands
      modifies `steps, `s, lists
      ensures Valid() && lists == old(lists) && b < |old(s).levels| && s == Apply(old(s), Release(b))
    {
      RunInv(start, steps);
      var priority := if levels[b] > LEVELS - 1 then 0 else levels[b];
      Note(Release(b));
      lists[priority] := lists[priority] + [b];
    }
  }
}
