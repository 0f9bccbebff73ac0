/** A cached configuration that any number of requests may ask to refresh at once. */
module ConfigSync {
  import opened Bytes

  const CONFIG_TTL_MS := 30000

  /**
   * The three variables of the module, then what surrounds them: the fetches under way, and which
   * configuration the limiters use.
   */
  datatype World<C> = World(cached: Option<C>, fetchedAt: int, inFlight: bool, fetches: nat, applied: Option<C>)

  /** How a fetch ends: a good answer, an answer that is not good, or an error anywhere on the way. */
  datatype Answer<C> = Good(config: C) | NotOk | Error

  /** `suspends` is whether the fetch, if this request starts one, gets as far as waiting for its answer. */
  datatype Event<C> = Request(now: int, suspends: bool) | Answered(now: int, answer: Answer<C>)

  function Start<C>(): World<C> {
    World(None, 0, false, 0, None)
  }

  predicate Enabled<C>(w: World<C>, e: Event<C>) {
    e.Answered? ==> w.fetches > 0
  }

  predicate Fresh<C>(w: World<C>, now: int) {
    w.cached.Some? && now - w.fetchedAt < CONFIG_TTL_MS
  }

  function Step<C>(w: World<C>, e: Event<C>): World<C>
    requires Enabled(w, e)
  {
    match e
    case Request(now, suspends) =>
      if Fresh(w, now) || w.inFlight then w
      else w.(inFlight := true, fetches := if suspends then w.fetches + 1 else w.fetches)
    case Answered(now, answer) =>
      var left := w.(inFlight := false, fetches := w.fetches - 1);
      match answer
      case Good(config) =>
        left.(cached := Some(config), fetchedAt := now, applied := Some(config))
      case _ => left
  }

  class Limits<C> {
    var cached: Option<C>
    var fetchedAt: int
    var inFlight: bool
    var applied: Option<C>
    ghost var world: World<C>

    ghost predicate Valid()
      reads this
    {
      && world.cached == cached && world.fetchedAt == fetchedAt && world.inFlight == inFlight
      && world.applied == applied
    }

    constructor ()
      ensures Valid() && world == Start()
    {
      cached, fetchedAt, inFlight, applied, world := None, 0, false, None, Start();
    }

    /**
     * Whether this request starts a fetch; the others return at once or wait for the one under way. One that
     * fails before it first waits has cleared the marker by the time the marker is set.
     */
    method SyncRateLimitConfig(now: int, suspends: bool) returns (starts: bool)
      requires Valid()
      modifies this
      ensures Valid() && world == Step(old(world), Request(now, suspends))
      ensures starts <==> !Fresh(old(world), now) && !old(inFlight)
      ensures Inv(old(world)) ==> (Inv(world) <==> suspends || !starts)
    {
      world := Step(world, Request(now, suspends));
      if cached.Some? && now - fetchedAt < CONFIG_TTL_MS {
        return false;
      }
      if inFlight {
        return false;
      }
      if !suspends {
        inFlight := false;
      }
      inFlight := true;
      return true;
    }

    method FetchSettles(now: int, answer: Answer<C>)
      requires Valid() && world.fetches > 0
      modifies this
      ensures Valid() && world == Step(old(world), Answered(now, answer))
      ensures Inv(old(world)) ==> Inv(world)
    {
      world := Step(world, Answered(now, answer));
      if answer.Good? {
        applied, cached, fetchedAt := Some(answer.config), Some(answer.config), now;
      }
      inFlight := false;
    }
  }

  /** One fetch at most; the marker is set exactly while it runs; the cache is what the limiters use. */
  ghost predicate Inv<C>(w: World<C>) {
    && w.fetches == (if w.inFlight then 1 else 0)
    && w.applied == w.cached
  }

  predicate Possible<C>(w: World<C>, events: seq<Event<C>>)
    decreases |events|
  {
    events == [] || (Enabled(w, events[0]) && Possible(Step(w, events[0]), events[1..]))
  }

  function After<C>(w: World<C>, events: seq<Event<C>>): World<C>
    requires Possible(w, events)
    decreases |events|
  {
    if events == [] then w else After(Step(w, events[0]), events[1..])
  }

  predicate AllSuspend<C>(events: seq<Event<C>>)
    decreases |events|
  {
    events != [] ==> (events[0].Request? ==> events[0].suspends) && AllSuspend(events[1..])
  }

  /** In every interleaving at most one fetch runs, and the marker says so. */
  lemma {:induction false} SingleFlight<C>(w: World<C>, events: seq<Event<C>>)
    requires Inv(w) && Possible(w, events) && AllSuspend(events)
    ensures Inv(After(w, events))
    decreases |events|
  {
    if events != [] {
      SingleFlight(Step(w, events[0]), events[1..]);
    }
  }

  /** Exactly when a request keeps the marker honest. */
  lemma RequestKeepsInv<C>(w: World<C>, now: int, suspends: bool)
    requires Inv(w)
    ensures Inv(Step(w, Request(now, suspends))) <==> suspends || Fresh(w, now) || w.inFlight
  {
  }

  /** A fetch that fails before it first waits leaves the marker set: nothing is ever fetched again. */
  lemma {:induction false} EarlyFailureSticks<C>(w: World<C>, events: seq<Event<C>>)
    requires w.inFlight && w.fetches == 0 && Possible(w, events)
    ensures After(w, events) == w
    decreases |events|
  {
    if events != [] {
      EarlyFailureSticks(w, events[1..]);
    }
  }

  /** The configuration of the last good answer, if any; failures leave it alone. */
  function LastGood<C>(events: seq<Event<C>>): Option<C>
    decreases |events|
  {
    if events == [] then None
    else
      var last := events[|events| - 1];
      if last.Answered? && last.answer.Good? then Some(last.answer.config) else LastGood(events[..|events| - 1])
  }

  lemma {:induction false} AfterInTwo<C>(w: World<C>, a: seq<Event<C>>, b: seq<Event<C>>)
    requires Possible(w, a + b)
    ensures Possible(w, a) && Possible(After(w, a), b) && After(w, a + b) == After(After(w, a), b)
    decreases |a|
  {
    if a == [] {
      assert a + b == b;
    } else {
      assert (a + b)[1..] == a[1..] + b && (a + b)[0] == a[0];
      AfterInTwo(Step(w, a[0]), a[1..], b);
    }
  }

  /** What the limiters use is always the last good answer: a failed fetch leaves the previous one in place. */
  lemma {:induction false} AppliedIsLastGood<C>(events: seq<Event<C>>)
    requires Possible(Start<C>(), events)
    ensures After(Start<C>(), events).applied == LastGood(events)
    decreases |events|
  {
    if events != [] {
      var before, last := events[..|events| - 1], events[|events| - 1];
      assert events == before + [last];
      AfterInTwo(Start<C>(), before, [last]);
      AppliedIsLastGood(before);
      assert After(After(Start<C>(), before), [last]) == Step(After(Start<C>(), before), last) by {
        assert [last][1..] == [];
      }
    }
  }

  /** When the last good answer came, if there was one. */
  function LastGoodAt<C>(events: seq<Event<C>>): Option<int>
    decreases |events|
  {
    if events == [] then None
    else
      var last := events[|events| - 1];
      if last.Answered? && last.answer.Good? then Some(last.now) else LastGoodAt(events[..|events| - 1])
  }

  lemma LastStep<C>(w: World<C>, events: seq<Event<C>>)
    requires events != [] && Possible(w, events)
    ensures var before, last := events[..|events| - 1], events[|events| - 1];
            && Possible(w, before) && Enabled(After(w, before), last)
            && After(w, events) == Step(After(w, before), last)
  {
    hide Step;
    var before, last := events[..|events| - 1], events[|events| - 1];
    assert events == before + [last] && [last][1..] == [];
    AfterInTwo(w, before, [last]);
  }

  lemma {:induction false} FreshSinceLastGood<C>(events: seq<Event<C>>)
    requires Possible(Start<C>(), events)
    ensures var w := After(Start<C>(), events);
            && (w.cached.Some? <==> LastGoodAt(events).Some?)
            && (LastGoodAt(events).Some? ==> w.fetchedAt == LastGoodAt(events).value)
    decreases |events|
  {
    if events != [] {
      LastStep(Start<C>(), events);
      FreshSinceLastGood(events[..|events| - 1]);
    }
  }

  /** Exactly when a request starts a fetch: none is running, and no good answer came within the half minute before. */
  lemma FetchStartsExactly<C>(events: seq<Event<C>>, now: int)
    requires Possible(Start<C>(), events) && AllSuspend(events)
    ensures var w, at := After(Start<C>(), events), LastGoodAt(events);
            var starts := Step(w, Request(now, true)).fetches > w.fetches;
            starts <==> w.fetches == 0 && (at == None || now - at.value >= 30000)
  {
    SingleFlight(Start<C>(), events);
    FreshSinceLastGood(events);
  }

  lemma {:induction false} QuietFrom<C>(w: World<C>, events: seq<Event<C>>, since: int)
    requires Inv(w) && !w.inFlight && w.cached.Some? && w.fetchedAt == since && Possible(w, events)
    requires forall i :: 0 <= i < |events| ==> events[i].now < since + 30000
    ensures After(w, events) == w
    decreases |events|
  {
    if events != [] {
      QuietFrom(w, events[1..], since);
    }
  }

  /** So for half a minute after a good answer nothing happens, however many requests come. */
  lemma QuietForAnInterval<C>(before: seq<Event<C>>, since: int, config: C, events: seq<Event<C>>)
    requires Possible(Start<C>(), before + [Answered(since, Good(config))] + events) && AllSuspend(before)
    requires forall i :: 0 <= i < |events| ==> events[i].now < since + 30000
    ensures Possible(Start<C>(), before + [Answered(since, Good(config))])
    ensures var w := After(Start<C>(), before + [Answered(since, Good(config))]);
            && w.cached == w.applied == Some(config) && w.fetches == 0
            && After(Start<C>(), before + [Answered(since, Good(config))] + events) == w
  {
    var good := before + [Answered(since, Good(config))];
    AfterInTwo(Start<C>(), good, events);
    LastStep(Start<C>(), good);
    assert good[..|good| - 1] == before;
    SingleFlight(Start<C>(), before);
    QuietFrom(After(Start<C>(), good), events, since);
  }

  function Started<C>(w: World<C>, events: seq<Event<C>>): nat
    requires Possible(w, events)
    decreases |events|
  {
    if events == [] then 0
    else
      var next := Step(w, events[0]);
      (if next.fetches > w.fetches then 1 else 0) + Started(next, events[1..])
  }

  /** Failures are not remembered: as many fetches as requests can run within a single millisecond. */
  lemma {:induction false} NoBackOff<C>(now: int, n: nat) returns (events: seq<Event<C>>)
    ensures forall i :: 0 <= i < |events| ==> events[i].now == now
    ensures Possible(Start<C>(), events) && After(Start<C>(), events) == Start<C>()
    ensures |events| == 2 * n && Started(Start<C>(), events) == n
    decreases n
  {
    if n == 0 {
      events := [];
    } else {
      var rest := NoBackOff<C>(now, n - 1);
      events := [Request(now, true), Answered(now, Error)] + rest;
      assert events[1..][0] == Answered(now, Error) && events[1..][1..] == rest;
      assert Possible(Step(Start<C>(), events[0]), events[1..]);
    }
  }
}
