/**
The transmit scheduler's own objects, updated in place: the loop event with its flag and
pipe, and the transmitter with its eight queues and its cursor. Each method that runs
under a lock is proved to make exactly the change of state that TransmitProtocol gives
for that region, and the worker's loop is proved to drain the queues at the stated cost.
*/
module TransmitObjects {
  import opened Common
  import opened TransmitProtocol

  const SET_TEXT := "event: set\0"

  /** A flag doubled by a pipe, so that a thread can wait for it in select. */
  class Event {
    var state: bool
    var pipe: string

    ghost predicate Valid()
      reads this
    {
      pipe == if state then SET_TEXT else ""
    }

    /** The flag may hold anything beforehand; a set flag is set again through the new pipe. */
    constructor (initial: bool)
      ensures Valid() && state == initial
    {
      state := false;
      pipe := "";
      new;
      if initial {
        Set();
      }
    }

    method Set()
      requires Valid()
      modifies this
      ensures Valid() && state
    {
      if !state {
        state := true;
        pipe := pipe + SET_TEXT;
      }
    }

    method Reset()
      requires Valid()
      modifies this
      ensures Valid() && !state
    {
      if state {
        pipe := pipe[if |pipe| < RESET_BUFFER then |pipe| else RESET_BUFFER..];
      }
      state := false;
    }

    /** What select reports: whether a wait returns at once. */
    method Readable() returns (ready: bool)
      requires Valid()
      ensures ready == state
    {
      ready := pipe != "";
    }
  }

  /** The part of a buffer that a push looks at. */
  datatype Buff = Buff(hasData: bool, size: nat, priority: nat, udp: bool)
  datatype Result = Ok | NotReady | InvalidParam | InvalidData
  datatype Handled = NotEmpty | Empty

  /** The three regions of one push, one after the other. */
  function Pushed(s: State, x: Item): (s': State)
    requires Shaped(s) && NewPush(s, x.push)
    requires !HoldsLock(s.worker)
    ensures Shaped(s')
  {
    var appended := Apply(s, Append(x));
    var raised := Apply(appended, Raise(x.push));
    Apply(raised, SetEvent(x.push))
  }

  /** Nothing is queued above the cursor, and nothing at all while there is no cursor or the event is clear. */
  ghost predicate Settled(queues: seq<seq<Item>>, cursor: Cursor, event: bool)
    requires |queues| == LEVELS
  {
    EmptyAbove(queues, CursorLevel(cursor)) && (cursor.Unset? || !event ==> queues == NO_BUFFERS)
  }

  lemma PushedSettled(s: State, x: Item)
    requires Shaped(s) && NewPush(s, x.push) && !HoldsLock(s.worker) && Settled(s.queues, s.cursor, s.event)
    ensures var s' := Pushed(s, x); Shaped(s') && Settled(s'.queues, s'.cursor, s'.event)
  {
  }

  lemma PollSettled(s: State)
    requires Ready(s) && Settled(s.queues, s.cursor, s.event)
    ensures var s' := Poll(s); Settled(s'.queues, s'.cursor, s'.event)
  {
    var s', c := Poll(s), CursorLevel(s.cursor);
    if !s'.event {
      assert forall p | 0 <= p < LEVELS :: s'.queues[p] == [];
    }
  }

  class Transmitter {
    const queues: array<seq<Item>>
    const event: Event
    var cursor: Cursor
    var started: bool
    ghost var sent: seq<Item>
    ghost var wire: seq<Item>        // what went out through the UDP socket
    ghost var appended: seq<Item>

    ghost predicate Valid()
      reads this, queues, event
    {
      queues.Length == LEVELS && event.Valid() && wire == OnWire(sent) && Settled(queues[..], cursor, event.state)
    }

    /** The state of the protocol when no region is under way. */
    ghost function Abs(): (s: State)
      requires Valid()
      reads this, queues, event
      ensures Shaped(s)
    {
      State(queues[..], cursor, event.state, |event.pipe|, map[], Waiting, sent, appended)
    }

    constructor ()
      ensures Valid() && Abs() == INIT && started && fresh(queues) && fresh(event)
    {
      queues := new seq<Item>[LEVELS](_ => []);
      event := new Event(false);
      cursor := Unset;
      started := true;
      sent, wire, appended := [], [], [];
      new;
      assert queues[..] == NO_BUFFERS;
    }

    method Push(id: nat, buff: Option<Buff>) returns (r: Result)
      requires Valid() && NewPush(Abs(), id)
      modifies this, queues, event
      ensures Valid()
      ensures r == if buff.None? then InvalidParam
                   else if !buff.value.hasData || buff.value.size == 0 || buff.value.priority >= LEVELS then InvalidData
                   else if !old(started) then NotReady
                   else Ok
      ensures if r.Ok? then Abs() == Pushed(old(Abs()), Item(id, buff.value.priority, buff.value.udp))
              else Abs() == old(Abs())
    {
      if buff.None? {
        return InvalidParam;
      }
      var b := buff.value;
      if !b.hasData || b.size == 0 || b.priority > LEVELS - 1 {
        return InvalidData;
      }
      if !started {
        return NotReady;
      }
      Enqueue(Item(id, b.priority, b.udp));
      return Ok;
    }

    /** The three regions of a push: the list, the cursor, the event. */
    method Enqueue(x: Item)
      requires Valid() && NewPush(Abs(), x.push)
      modifies this, queues, event
      ensures Valid() && Abs() == Pushed(old(Abs()), x) && started == old(started)
    {
      hide Settled, EmptyAbove, OnWire, NewPush;
      PushedSettled(Abs(), x);
      queues[x.level] := queues[x.level] + [x];
      appended := appended + [x];
      UpdateTransmitQueue(x.level);
      event.Set();
      assert map[] == map[x.push := InFlight(x.level, Raised)] - {x.push};
    }

    /** Raises the cursor to a higher level, and never lowers it. */
    method UpdateTransmitQueue(priority: nat)
      requires priority < LEVELS
      modifies this`cursor
      ensures cursor == At(if old(cursor).Unset? || priority > old(cursor).level then priority else old(cursor).level)
    {
      if cursor.Unset? {
        cursor := At(priority);
      } else if priority > cursor.level {
        cursor := At(priority);
      }
    }

    /** Takes the first buffer of one queue and transmits it; says whether the queue is empty now. */
    method Handle(c: Level) returns (result: Handled)
      requires queues.Length == LEVELS && event.Valid() && wire == OnWire(sent)
      modifies this`sent, this`wire, queues
      ensures queues.Length == LEVELS && event.Valid() && wire == OnWire(sent)
      ensures var q := old(queues[c]);
        && (result.Empty? <==> |q| <= 1)
        && queues[..] == old(queues[..])[c := if q == [] then [] else q[1..]]
        && sent == old(sent) + if q == [] then [] else [q[0]]
    {
      if queues[c] == [] {
        assert queues[..] == old(queues[..])[c := []];
        return Empty;
      }
      var x := queues[c][0];
      queues[c] := queues[c][1..];
      result := if queues[c] == [] then Empty else NotEmpty;
      if x.udp {
        wire := wire + [x];
      }
      OnWireAppend(sent, x);
      sent := sent + [x];
    }

    method ThreadPoll()
      requires Valid() && event.state
      modifies this, queues, event
      ensures Valid() && Abs() == Poll(old(Abs()))
    {
      hide Settled, EmptyAbove, OnWire;
      ghost var before := Abs();
      PollSettled(before);
      if cursor.Unset? {
        cursor := At(LEVELS - 1);
      }
      var c := cursor.level;
      var result := Handle(c);
      if result.Empty? {
        if c > 0 {
          cursor := At(c - 1);
        } else {
          event.Reset();
        }
      }
      assert before.queues[c] == [] ==> before.queues[c := []] == before.queues;
    }

    /** The worker's loop until the wait would block. */
    method ThreadWork() returns (ghost polls: nat)
      requires Valid() && event.state
      modifies this, queues, event
      ensures Valid() && !event.state
      ensures polls == Cost(old(Abs()))
      ensures Abs() == Polls(old(Abs()), Cost(old(Abs())))
      ensures queues[..] == NO_BUFFERS
      ensures sent == old(sent) + Left(old(Abs()))
      ensures wire == old(wire) + OnWire(Left(old(Abs())))
    {
      ghost var start := Abs();
      Drain(start);
      polls := 0;
      var ready := event.Readable();
      while ready
        invariant Valid() && ready == event.state
        invariant polls <= Cost(start)
        invariant Abs() == Polls(start, polls)
        invariant polls < Cost(start) <==> event.state
        decreases Cost(start) - polls
      {
        PollsNext(start, polls);
        ThreadPoll();
        polls := polls + 1;
        ready := event.Readable();
      }
      OnWireConcat(old(sent), Left(start));
    }

    /** Two pushes, and then the worker: of two that are accepted, the one of higher priority is dealt with first. */
    method PushTwo(id1: nat, buff1: Buff, id2: nat, buff2: Buff) returns (r1: Result, r2: Result)
      requires Valid() && NewPush(Abs(), id1) && NewPush(Abs(), id2) && id1 != id2
      modifies this, queues, event
      ensures Valid() && (r1.Ok? ==> buff1.priority < LEVELS) && (r2.Ok? ==> buff2.priority < LEVELS)
      ensures r1.Ok? && r2.Ok? ==>
        var x, y := Item(id1, buff1.priority, buff1.udp), Item(id2, buff2.priority, buff2.udp);
        && queues[..] == NO_BUFFERS
        && (buff1.priority > buff2.priority ==> Before(sent, x, y))
        && (buff1.priority < buff2.priority ==> Before(sent, y, x))
    {
      hide Settled, OnWire, Before, Polls, DrainOrder, DrainCost, Pushed;
      ghost var start := Abs();
      r1 := Push(id1, Some(buff1));
      ghost var first := Abs();
      if r1.Ok? {
        PushedIs(start, Item(id1, buff1.priority, buff1.udp));
      }
      r2 := Push(id2, Some(buff2));
      ghost var loaded := Abs();
      if r1.Ok? && r2.Ok? {
        ghost var x, y := Item(id1, buff1.priority, buff1.udp), Item(id2, buff2.priority, buff2.udp);
        PushedIs(first, y);
        ServedByPriority(loaded, x, y);
        ghost var polls := ThreadWork();
      }
    }
  }

  /** A push puts its buffer behind those of its level and sets the event. */
  lemma PushedIs(s: State, x: Item)
    requires Shaped(s) && NewPush(s, x.push) && !HoldsLock(s.worker)
    ensures var s' := Pushed(s, x);
      && s'.queues == s.queues[x.level := s.queues[x.level] + [x]] && s'.event && s'.appended == s.appended + [x]
      && s'.pushes == s.pushes
  {
  }

  lemma ServedByPriority(s: State, x: Item, y: Item)
    requires Shaped(s) && Settled(s.queues, s.cursor, s.event) && x in s.queues[x.level] && y in s.queues[y.level]
    ensures x.level > y.level ==> Before(s.sent + Left(s), x, y)
    ensures x.level < y.level ==> Before(s.sent + Left(s), y, x)
  {
    if x.level > y.level {
      LeftByPriority(s, x, y);
    } else if x.level < y.level {
      LeftByPriority(s, y, x);
    }
  }

  /** The transmissions among the buffers dealt with: VSOA buffers are only released. */
  function OnWire(xs: seq<Item>): seq<Item> {
    if xs == [] then [] else (if xs[0].udp then [xs[0]] else []) + OnWire(xs[1..])
  }

  lemma {:induction false} OnWireConcat(xs: seq<Item>, ys: seq<Item>)
    ensures OnWire(xs + ys) == OnWire(xs) + OnWire(ys)
  {
    if xs == [] {
      assert xs + ys == ys;
    } else {
      assert (xs + ys)[0] == xs[0] && (xs + ys)[1..] == xs[1..] + ys;
      OnWireConcat(xs[1..], ys);
      Assoc(if xs[0].udp then [xs[0]] else [], OnWire(xs[1..]), OnWire(ys));
    }
  }

  lemma OnWireAppend(xs: seq<Item>, x: Item)
    ensures OnWire(xs + [x]) == OnWire(xs) + if x.udp then [x] else []
  {
    OnWireConcat(xs, [x]);
  }

  /** One more poll at the end is one more poll. */
  lemma {:induction false} PollsNext(s: State, n: nat)
    requires Shaped(s) && Ready(Polls(s, n))
    ensures Polls(s, n + 1) == Poll(Polls(s, n))
    decreases n
  {
    if n > 0 {
      PollsNext(Poll(s), n - 1);
    }
  }
}
