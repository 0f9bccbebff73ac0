/** A gate that lets a bounded number of calls run, one await at a time. */
module Gate {

  /** How many slots a requested limit gives: whole, and at least one. */
  function Slots(limit: real): (max: nat)
    ensures if limit < 1.0 then max == 1 else max >= 1 && max as real <= limit < max as real + 1.0
  {
    var whole := limit.Floor;
    if whole < 1 then 1 else whole
  }

  /** One uninterrupted stretch: a call arrives, a woken caller goes on, or a call settles. */
  datatype Event = Arrive(id: nat) | Resume | Finish(id: nat)

  /**
   * What the gate holds, and what is known about its callers: `ready` were woken but have not gone on
   * yet, `holders` are inside. The two histories list the callers that ever had to wait, and those of
   * them that have started.
   */
  datatype World = World(active: int, waiting: seq<nat>, ready: seq<nat>,
                         holders: multiset<nat>, queued: seq<nat>, resumed: seq<nat>)

  const START := World(0, [], [], multiset{}, [], [])

  predicate Enabled(w: World, e: Event) {
    match e
    case Arrive(_) => true
    case Resume => w.ready != []
    case Finish(id) => id in w.holders
  }

  function Begin(w: World, id: nat): World {
    w.(active := w.active + 1, holders := w.holders + multiset{id})
  }

  function Step(max: nat, w: World, e: Event): World
    requires Enabled(w, e)
  {
    match e
    case Arrive(id) =>
      if w.active >= max then w.(waiting := w.waiting + [id], queued := w.queued + [id]) else Begin(w, id)
    case Resume =>
      Begin(w.(ready := w.ready[1..], resumed := w.resumed + [w.ready[0]]), w.ready[0])
    case Finish(id) =>
      var left := w.(active := w.active - 1, holders := w.holders - multiset{id});
      if w.waiting == [] then left
      else left.(waiting := w.waiting[1..], ready := w.ready + [w.waiting[0]])
  }

  class Gate {
    const max: nat
    var active: int
    var waiting: seq<nat>
    var ready: seq<nat>
    ghost var world: World

    ghost predicate Valid()
      reads this
    {
      && world.active == active && world.waiting == waiting && world.ready == ready
      && Inv(max, world)
    }

    constructor (limit: real)
      ensures Valid() && max == Slots(limit) && world == START
    {
      max, active, waiting, ready, world := Slots(limit), 0, [], [], START;
    }

    /** Up to the first await: either in, or in the queue. */
    method Enter(id: nat) returns (inside: bool)
      requires Valid()
      modifies this
      ensures Valid() && world == Step(max, old(world), Arrive(id))
      ensures inside == (old(active) < max) && ready == old(ready)
      ensures active == (if inside then old(active) + 1 else old(active))
      ensures waiting == (if inside then old(waiting) else old(waiting) + [id])
    {
      StepKeepsInv(max, world, Arrive(id));
      world := Step(max, world, Arrive(id));
      if active >= max {
        waiting := waiting + [id];
        return false;
      }
      active := active + 1;
      return true;
    }

    /** The next woken caller goes on past its await. */
    method GoOn() returns (id: nat)
      requires Valid() && ready != []
      modifies this
      ensures Valid() && world == Step(max, old(world), Resume)
      ensures old(ready) == [id] + ready && active == old(active) + 1 && waiting == old(waiting)
    {
      StepKeepsInv(max, world, Resume);
      world := Step(max, world, Resume);
      id, ready := ready[0], ready[1..];
      active := active + 1;
    }

    /** A call settled, well or badly: give up the slot, wake the first in the queue. */
    method Leave(ghost id: nat)
      requires Valid() && id in world.holders
      modifies this
      ensures Valid() && world == Step(max, old(world), Finish(id)) && active == old(active) - 1
      ensures old(waiting) == [] ==> waiting == [] && ready == old(ready)
      ensures old(waiting) != [] ==> ready == old(ready) + [old(waiting)[0]] && waiting == old(waiting)[1..]
    {
      StepKeepsInv(max, world, Finish(id));
      world := Step(max, world, Finish(id));
      active := active - 1;
      if waiting != [] {
        ready := ready + [waiting[0]];
        waiting := waiting[1..];
      }
    }
  }

  // ------------------------------------------------------------------- safety

  /** A queue only where all slots are spoken for; the queue moves in order; the counter counts. */
  ghost predicate Inv(max: nat, w: World) {
    && max >= 1
    && w.active == |w.holders|
    && (w.waiting != [] ==> w.active + |w.ready| >= max)
    && w.resumed + w.ready + w.waiting == w.queued
  }

  lemma StepKeepsInv(max: nat, w: World, e: Event)
    requires Inv(max, w) && Enabled(w, e)
    ensures Inv(max, Step(max, w, e))
  {
    var next := Step(max, w, e);
    match e {
      case Arrive(id) =>
        if w.active >= max {
          assert next.resumed + next.ready + next.waiting == w.resumed + w.ready + w.waiting + [id];
        }
      case Resume =>
        assert w.ready == [w.ready[0]] + next.ready;
        assert next.resumed + next.ready + next.waiting == w.resumed + w.ready + w.waiting;
      case Finish(id) =>
        if w.waiting != [] {
          assert w.waiting == [w.waiting[0]] + next.waiting;
          assert next.resumed + next.ready + next.waiting == w.resumed + w.ready + w.waiting;
        }
    }
  }

  predicate Possible(max: nat, w: World, events: seq<Event>)
    decreases |events|
  {
    events == [] || (Enabled(w, events[0]) && Possible(max, Step(max, w, events[0]), events[1..]))
  }

  function After(max: nat, w: World, events: seq<Event>): World
    requires Possible(max, w, events)
    decreases |events|
  {
    if events == [] then w else After(max, Step(max, w, events[0]), events[1..])
  }

  lemma {:induction false} RunKeepsInv(max: nat, w: World, events: seq<Event>)
    requires Inv(max, w) && Possible(max, w, events)
    ensures Inv(max, After(max, w, events))
    decreases |events|
  {
    hide Inv, Step;
    if events != [] {
      StepKeepsInv(max, w, events[0]);
      RunKeepsInv(max, Step(max, w, events[0]), events[1..]);
    }
  }

  /** In every schedule: nobody waits while a slot is free, and waiters start in the order they came. */
  lemma NeverStrands(max: nat, events: seq<Event>)
    requires max >= 1 && Possible(max, START, events)
    ensures var w := After(max, START, events);
            && (w.waiting != [] ==> w.active + |w.ready| >= max)
            && w.queued == w.resumed + w.ready + w.waiting
            && w.active == |w.holders|
  {
    RunKeepsInv(max, START, events);
  }

  /** The callers that found no slot free, in the order they came, counting nothing but the slots in use. */
  function Waited(max: nat, inUse: int, events: seq<Event>): seq<nat>
    decreases |events|
  {
    if events == [] then []
    else
      match events[0]
      case Arrive(id) =>
        if inUse < max then Waited(max, inUse + 1, events[1..]) else [id] + Waited(max, inUse, events[1..])
      case Resume => Waited(max, inUse + 1, events[1..])
      case Finish(_) => Waited(max, inUse - 1, events[1..])
  }

  function Resumes(events: seq<Event>): nat
    decreases |events|
  {
    if events == [] then 0 else (if events[0].Resume? then 1 else 0) + Resumes(events[1..])
  }

  function Came(events: seq<Event>): multiset<nat>
    decreases |events|
  {
    if events == [] then multiset{}
    else (if events[0].Arrive? then multiset{events[0].id} else multiset{}) + Came(events[1..])
  }

  function Left(events: seq<Event>): multiset<nat>
    decreases |events|
  {
    if events == [] then multiset{}
    else (if events[0].Finish? then multiset{events[0].id} else multiset{}) + Left(events[1..])
  }

  lemma {:induction false} QueueGrows(max: nat, w: World, events: seq<Event>)
    requires Possible(max, w, events)
    ensures After(max, w, events).queued == w.queued + Waited(max, w.active, events)
    ensures |After(max, w, events).resumed| == |w.resumed| + Resumes(events)
    decreases |events|
  {
    if events != [] {
      QueueGrows(max, Step(max, w, events[0]), events[1..]);
    }
  }

  /** First come, first served: the n-th caller to go on after waiting is the n-th that had to wait. */
  lemma FirstComeFirstServed(max: nat, events: seq<Event>)
    requires max >= 1 && Possible(max, START, events)
    ensures var w, waited := After(max, START, events), Waited(max, 0, events);
            && Resumes(events) <= |waited|
            && w.resumed == waited[..Resumes(events)]
            && w.ready + w.waiting == waited[Resumes(events)..]
  {
    RunKeepsInv(max, START, events);
    QueueGrows(max, START, events);
    var w, waited := After(max, START, events), Waited(max, 0, events);
    assert [] + waited == waited && w.queued == w.resumed + (w.ready + w.waiting);
  }

  /** Every caller that waits and every caller inside, woken or not. */
  function Present(w: World): multiset<nat> {
    w.holders + multiset(w.ready) + multiset(w.waiting)
  }

  lemma HeadMoves(a: seq<nat>, b: seq<nat>)
    requires a != []
    ensures multiset(a) == multiset{a[0]} + multiset(a[1..])
    ensures multiset(b + [a[0]]) == multiset(b) + multiset{a[0]}
  {
    assert a == [a[0]] + a[1..];
  }

  lemma StepLosesNobody(max: nat, w: World, e: Event)
    requires Enabled(w, e)
    ensures Present(w) + Came([e]) == Present(Step(max, w, e)) + Left([e])
  {
    assert [e][1..] == [];
    match e {
      case Arrive(id) =>
        HeadMoves([id], w.waiting);
      case Resume =>
        HeadMoves(w.ready, []);
      case Finish(id) =>
        FinishLosesNobody(max, w, id);
    }
  }

  lemma FinishLosesNobody(max: nat, w: World, id: nat)
    requires id in w.holders
    ensures Present(w) == Present(Step(max, w, Finish(id))) + multiset{id}
  {
    assert w.holders == (w.holders - multiset{id}) + multiset{id};
    if w.waiting != [] {
      HeadMoves(w.waiting, w.ready);
    }
  }

  lemma NoneComes()
    ensures Came([]) == Left([]) == multiset{}
  {
  }

  lemma FirstThenRest(events: seq<Event>)
    requires events != []
    ensures Came(events) == Came(events[..1]) + Came(events[1..])
    ensures Left(events) == Left(events[..1]) + Left(events[1..])
  {
    assert events[..1][1..] == [];
  }

  lemma OneAfterAnother(a: multiset<nat>, came: multiset<nat>, b: multiset<nat>, left: multiset<nat>,
                        cameLater: multiset<nat>)
    requires a + came == b + left
    ensures a + (came + cameLater) == (b + cameLater) + left
  {
    assert a + (came + cameLater) == (b + left) + cameLater;
  }

  /** Nobody is lost and nobody let in twice: whoever came waits, is woken, is inside, or has left. */
  lemma {:induction false} NobodyLost(max: nat, w: World, events: seq<Event>)
    requires Possible(max, w, events)
    ensures var end := After(max, w, events);
            w.holders + multiset(w.ready) + multiset(w.waiting) + Came(events)
            == end.holders + multiset(end.ready) + multiset(end.waiting) + Left(events)
    decreases |events|
  {
    hide Step, Came, Left;
    if events == [] {
      NoneComes();
    } else {
      var e, next := events[0], Step(max, w, events[0]);
      StepLosesNobody(max, w, e);
      NobodyLost(max, next, events[1..]);
      FirstThenRest(events);
      assert events[..1] == [e];
      OneAfterAnother(Present(w), Came([e]), Present(next), Left([e]), Came(events[1..]));
    }
  }

  // ---------------------------------------------------------------- the bound

  /** Slots in use or promised. */
  function Taken(w: World): int {
    w.active + |w.ready|
  }

  /** A fresh call sees a free slot that is promised to a woken caller. */
  predicate Barges(max: nat, w: World, e: Event) {
    e.Arrive? && w.active < max && Taken(w) >= max
  }

  function Barged(max: nat, w: World, events: seq<Event>): (n: nat)
    requires Possible(max, w, events)
    decreases |events|
  {
    if events == [] then 0
    else (if Barges(max, w, events[0]) then 1 else 0) + Barged(max, Step(max, w, events[0]), events[1..])
  }

  /** Each fresh call that slips in ahead of a woken one overbooks by at most one. */
  lemma {:induction false} OverbookedByBarging(max: nat, w: World, events: seq<Event>, spare: nat)
    requires Possible(max, w, events) && Taken(w) <= max + spare
    ensures Taken(After(max, w, events)) <= max + spare + Barged(max, w, events)
    decreases |events|
  {
    if events != [] {
      var next := Step(max, w, events[0]);
      var more := if Barges(max, w, events[0]) then spare + 1 else spare;
      OverbookedByBarging(max, next, events[1..], more);
    }
  }

  /** In every schedule: the bound is kept all the way if and only if no fresh call ever slips in. */
  lemma {:induction false} BoundExact(max: nat, w: World, events: seq<Event>)
    requires Taken(w) <= max && Possible(max, w, events)
    ensures Barged(max, w, events) == 0 <==> StaysWithin(max, w, events)
    decreases |events|
  {
    if events != [] {
      var next := Step(max, w, events[0]);
      if !Barges(max, w, events[0]) {
        BoundExact(max, next, events[1..]);
      }
    }
  }

  predicate StaysWithin(max: nat, w: World, events: seq<Event>)
    requires Possible(max, w, events)
    decreases |events|
  {
    Taken(w) <= max && (events != [] ==> StaysWithin(max, Step(max, w, events[0]), events[1..]))
  }

  predicate Quiet(events: seq<Event>)
    decreases |events|
  {
    events != [] ==> !events[0].Arrive? && Quiet(events[1..])
  }

  lemma {:induction false} QuietKeepsTaken(max: nat, w: World, events: seq<Event>)
    requires Possible(max, w, events) && Quiet(events)
    ensures Taken(After(max, w, events)) <= Taken(w)
    decreases |events|
  {
    if events != [] {
      QuietKeepsTaken(max, Step(max, w, events[0]), events[1..]);
    }
  }

  /** However the calls in hand go on, at most the limit is inside. */
  ghost predicate HoldsLimit(max: nat, w: World) {
    forall events :: Possible(max, w, events) && Quiet(events) ==> |After(max, w, events).holders| <= max
  }

  lemma HoldsLimitExactly(max: nat, w: World)
    requires Inv(max, w)
    ensures HoldsLimit(max, w) <==> Taken(w) <= max
  {
    if Taken(w) <= max {
      forall events | Possible(max, w, events) && Quiet(events) ensures |After(max, w, events).holders| <= max {
        QuietKeepsTaken(max, w, events);
        RunKeepsInv(max, w, events);
      }
    } else {
      var events := seq(|w.ready|, _ => Resume);
      AllResume(max, w);
      ResumesAreQuiet(|w.ready|);
      RunKeepsInv(max, w, events);
    }
  }

  lemma {:induction false} ResumesAreQuiet(n: nat)
    ensures Quiet(seq(n, _ => Resume))
  {
    if n > 0 {
      assert seq(n, _ => Resume)[1..] == seq(n - 1, _ => Resume);
      ResumesAreQuiet(n - 1);
    }
  }

  /** At every moment of the schedule. */
  ghost predicate AlwaysHoldsLimit(max: nat, w: World, events: seq<Event>)
    requires Possible(max, w, events)
    decreases |events|
  {
    HoldsLimit(max, w) && (events != [] ==> AlwaysHoldsLimit(max, Step(max, w, events[0]), events[1..]))
  }

  lemma {:induction false} LimitIsBound(max: nat, w: World, events: seq<Event>)
    requires Inv(max, w) && Possible(max, w, events)
    ensures AlwaysHoldsLimit(max, w, events) <==> StaysWithin(max, w, events)
    decreases |events|
  {
    hide HoldsLimit, Inv;
    HoldsLimitExactly(max, w);
    if events != [] {
      StepKeepsInv(max, w, events[0]);
      LimitIsBound(max, Step(max, w, events[0]), events[1..]);
    }
  }

  /**
   * In every schedule: no fresh call ever slips in if and only if at every moment, however the calls in
   * hand go on from there, at most the limit is inside.
   */
  lemma LimitExact(max: nat, events: seq<Event>)
    requires max >= 1 && Possible(max, START, events)
    ensures Barged(max, START, events) == 0 <==> AlwaysHoldsLimit(max, START, events)
  {
    BoundExact(max, START, events);
    LimitIsBound(max, START, events);
  }

  /** Fresh calls come in only after every woken caller has gone on. */
  predicate Prompt(max: nat, w: World, events: seq<Event>)
    requires Possible(max, w, events)
    decreases |events|
  {
    events != [] ==>
      (events[0].Arrive? ==> w.ready == []) && Prompt(max, Step(max, w, events[0]), events[1..])
  }

  lemma {:induction false} PromptNeverBarges(max: nat, w: World, events: seq<Event>)
    requires Possible(max, w, events) && Prompt(max, w, events)
    ensures Barged(max, w, events) == 0
    decreases |events|
  {
    if events != [] {
      PromptNeverBarges(max, Step(max, w, events[0]), events[1..]);
    }
  }

  /** With woken callers going on first, at most `max` calls are ever inside. */
  lemma PromptKeepsLimit(max: nat, events: seq<Event>)
    requires max >= 1 && Possible(max, START, events) && Prompt(max, START, events)
    ensures |After(max, START, events).holders| <= max
  {
    RunKeepsInv(max, START, events);
    PromptNeverBarges(max, START, events);
    OverbookedByBarging(max, START, events, 0);
  }

  /** Without it the limit fails: the fresh call and then every woken one get in. */
  lemma {:induction false} AllResume(max: nat, w: World)
    ensures var events := seq(|w.ready|, _ => Resume);
            Possible(max, w, events) && After(max, w, events).active == Taken(w)
    decreases |w.ready|
  {
    var events := seq(|w.ready|, _ => Resume);
    if w.ready != [] {
      var next := Step(max, w, Resume);
      assert events[1..] == seq(|next.ready|, _ => Resume);
      AllResume(max, next);
    }
  }

  lemma BargingBreaksLimit(max: nat, w: World, id: nat)
    requires Inv(max, w) && Barges(max, w, Arrive(id))
    ensures var events := [Arrive(id)] + seq(|w.ready|, _ => Resume);
            Possible(max, w, events) && |After(max, w, events).holders| > max
  {
    var events := [Arrive(id)] + seq(|w.ready|, _ => Resume);
    var next := Step(max, w, Arrive(id));
    assert events[1..] == seq(|next.ready|, _ => Resume);
    AllResume(max, next);
    RunKeepsInv(max, w, events);
  }

  /** The shortest such run, with one slot: the second caller is woken, a third slips in, both are inside. */
  lemma OneSlotTwoInside()
    ensures var events := [Arrive(0), Arrive(1), Finish(0), Arrive(2), Resume];
            Possible(1, START, events) && |After(1, START, events).holders| == 2
  {
    var woken := World(0, [], [1], multiset{}, [1], []);
    var events, tail := [Arrive(0), Arrive(1), Finish(0), Arrive(2), Resume], [Arrive(2), Resume];
    assert Possible(1, woken, tail) && After(1, woken, tail).active == 2;
    assert events[1..][1..][1..] == tail;
    assert Step(1, Step(1, Step(1, START, Arrive(0)), Arrive(1)), Finish(0)) == woken;
    RunKeepsInv(1, START, events);
  }

  // ----------------------------------------------------------------- progress

  function Work(w: World): int {
    3 * |w.waiting| + 2 * |w.ready| + w.active
  }

  /** Once calls stop arriving every schedule is finite ... */
  lemma {:induction false} QuietRunsAreShort(max: nat, w: World, events: seq<Event>)
    requires Inv(max, w) && Possible(max, w, events)
    requires forall e :: e in events ==> !e.Arrive?
    ensures |events| <= Work(w)
    decreases |events|
  {
    if events != [] {
      StepKeepsInv(max, w, events[0]);
      QuietRunsAreShort(max, Step(max, w, events[0]), events[1..]);
    }
  }

  /** ... and where nothing more can happen every caller that ever queued has started and left. */
  lemma QuietMeansAllServed(max: nat, events: seq<Event>)
    requires max >= 1 && Possible(max, START, events)
    requires forall e: Event :: !e.Arrive? ==> !Enabled(After(max, START, events), e)
    ensures var w := After(max, START, events);
            w.active == 0 && w.waiting == [] && w.resumed == w.queued
  {
    RunKeepsInv(max, START, events);
    var w := After(max, START, events);
    assert !Enabled(w, Resume);
    forall id ensures id !in w.holders {
      assert Enabled(w, Finish(id)) <==> id in w.holders;
    }
    assert w.holders == multiset{};
  }
}
