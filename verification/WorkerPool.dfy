/** Workers that share a cursor over one list of items. */
module WorkerPool {
  import opened Bytes
  import Gate

  datatype Outcome<R> = Resolved(value: R) | Rejected

  /** The call for this item settles. */
  datatype Event<R> = Settle(index: nat, outcome: Outcome<R>)

  /** `started` lists the items in the order their calls began; each rejection retires a worker. */
  datatype Pool<R> = Pool(cursor: nat, results: seq<Option<R>>, inFlight: set<nat>, failed: set<nat>, started: seq<nat>)

  function Workers(limit: real, n: nat): (workers: nat)
    ensures 1 <= workers && (n > 0 ==> workers <= n)
    ensures n > 0 && limit >= 1.0 ==> workers as real <= limit && (workers == n || limit < workers as real + 1.0)
    ensures limit < 1.0 ==> workers == 1
  {
    var slots := Gate.Slots(limit);
    if n == 0 then 1 else if slots < n then slots else n
  }

  /** A worker at the head of its loop: it takes the next item, or stops where there is none. */
  function Pull<R>(p: Pool<R>): Pool<R> {
    if p.cursor < |p.results| then
      p.(cursor := p.cursor + 1, inFlight := p.inFlight + {p.cursor}, started := p.started + [p.cursor])
    else p
  }

  function Launch<R>(n: nat, workers: nat): Pool<R> {
    if workers == 0 then Pool(0, seq(n, _ => None), {}, {}, []) else Pull(Launch(n, workers - 1))
  }

  predicate Enabled<R>(p: Pool<R>, e: Event<R>) {
    e.index in p.inFlight && e.index < |p.results|
  }

  function Step<R>(p: Pool<R>, e: Event<R>): Pool<R>
    requires Enabled(p, e)
  {
    var left := p.(inFlight := p.inFlight - {e.index});
    match e.outcome
    case Resolved(value) => Pull(left.(results := p.results[e.index := Some(value)]))
    case Rejected => left.(failed := p.failed + {e.index})
  }

  class MapCall<R(0)> {
    const results: array<Option<R>>
    var cursor: nat
    ghost const workers: nat
    ghost var pool: Pool<R>

    ghost predicate Valid()
      reads this, results
    {
      pool.cursor == cursor && pool.results == results[..] && Inv(workers, pool)
    }

    constructor (n: nat, limit: real)
      ensures Valid() && fresh(results)
      ensures workers == Workers(limit, n) && pool == Launch(n, if n == 0 then 0 else workers)
    {
      var w := Workers(limit, n);
      results := new Option<R>[n](_ => None);
      cursor, workers := 0, w;
      pool := Launch(n, 0);
      new;
      assert results[..] == seq(n, _ => None);
      if n > 0 {
        for k := 0 to w
          invariant cursor == k && pool == Launch(n, k) && pool.cursor == cursor && |pool.results| == n
          invariant results[..] == pool.results && fresh(results)
        {
          cursor := cursor + 1;
          pool := Pull(pool);
        }
      }
      LaunchSound<R>(n, if n == 0 then 0 else w, w);
    }

    /** One call settles: its worker stores the value and takes the next item, or rejects for good. */
    method Settle(index: nat, outcome: Outcome<R>)
      requires Valid() && Enabled(pool, Event.Settle(index, outcome))
      modifies this, results
      ensures Valid() && pool == Step(old(pool), Event.Settle(index, outcome))
    {
      StepKeepsInv(workers, pool, Event.Settle(index, outcome));
      pool := Step(pool, Event.Settle(index, outcome));
      match outcome {
        case Resolved(value) =>
          results[index] := Some(value);
          if cursor < results.Length {
            cursor := cursor + 1;
          }
        case Rejected =>
      }
    }
  }

  // --------------------------------------------------------------- every run

  /** Every item below the cursor is in flight, has failed, or has its result; none above it is touched. */
  ghost predicate Sound<R>(p: Pool<R>) {
    && p.cursor <= |p.results|
    && p.started == seq(p.cursor, i => i)
    && p.inFlight !! p.failed
    && (forall i :: i in p.inFlight || i in p.failed ==> i < p.cursor && p.results[i].None?)
    && (forall i :: 0 <= i < |p.results| && i !in p.inFlight && i !in p.failed ==>
          (p.results[i].Some? <==> i < p.cursor))
  }

  /** A worker only stops by rejecting, or with nothing left to take. */
  ghost predicate Inv<R>(workers: nat, p: Pool<R>) {
    && Sound(p)
    && |p.inFlight| + |p.failed| <= workers
    && (p.cursor < |p.results| ==> |p.inFlight| + |p.failed| == workers)
  }

  lemma PullKeepsSound<R>(p: Pool<R>)
    requires Sound(p)
    ensures Sound(Pull(p))
    ensures p.cursor < |p.results| ==> |Pull(p).inFlight| == |p.inFlight| + 1
  {
    if p.cursor < |p.results| {
      assert p.cursor !in p.inFlight && p.cursor !in p.failed;
      assert Pull(p).started == seq(p.cursor + 1, i => i);
    }
  }

  lemma {:induction false} LaunchSound<R>(n: nat, k: nat, workers: nat)
    requires k <= n && k <= workers && (k == workers || n == 0)
    ensures Inv(workers, Launch<R>(n, k)) && Launch<R>(n, k).cursor == k && |Launch<R>(n, k).results| == n
    decreases k
  {
    if k > 0 {
      LaunchSound<R>(n, k - 1, workers - 1);
      PullKeepsSound(Launch<R>(n, k - 1));
    }
  }

  lemma StoreKeepsSound<R>(p: Pool<R>, i: nat, value: R)
    requires Sound(p) && i in p.inFlight && i < |p.results|
    ensures var left := p.(inFlight := p.inFlight - {i}, results := p.results[i := Some(value)]);
            Sound(left) && |left.inFlight| == |p.inFlight| - 1
  {
  }

  lemma StepKeepsInv<R>(workers: nat, p: Pool<R>, e: Event<R>)
    requires Inv(workers, p) && Enabled(p, e)
    ensures Inv(workers, Step(p, e))
  {
    var i := e.index;
    match e.outcome {
      case Resolved(value) =>
        var left := p.(inFlight := p.inFlight - {i}, results := p.results[i := Some(value)]);
        StoreKeepsSound(p, i, value);
        PullKeepsSound(left);
      case Rejected =>
        assert |Step(p, e).inFlight| == |p.inFlight| - 1 && |Step(p, e).failed| == |p.failed| + 1;
    }
  }

  predicate Possible<R>(p: Pool<R>, events: seq<Event<R>>)
    decreases |events|
  {
    events == [] || (Enabled(p, events[0]) && Possible(Step(p, events[0]), events[1..]))
  }

  function After<R>(p: Pool<R>, events: seq<Event<R>>): Pool<R>
    requires Possible(p, events)
    decreases |events|
  {
    if events == [] then p else After(Step(p, events[0]), events[1..])
  }

  lemma {:induction false} RunKeepsInv<R>(workers: nat, p: Pool<R>, events: seq<Event<R>>)
    requires Inv(workers, p) && Possible(p, events)
    ensures Inv(workers, After(p, events)) && |After(p, events).results| == |p.results|
    ensures p.cursor <= After(p, events).cursor
    decreases |events|
  {
    hide Inv;
    if events != [] {
      StepKeepsInv(workers, p, events[0]);
      RunKeepsInv(workers, Step(p, events[0]), events[1..]);
    }
  }

  /**
   * In every completion order: items start as a growing prefix, each once; at most `workers` are in
   * flight; and each rejection takes exactly one worker out while the others go on.
   */
  lemma StartsInOrderWithinLimit<R>(n: nat, limit: real, events: seq<Event<R>>)
    requires n > 0 && Possible(Launch<R>(n, Workers(limit, n)), events)
    ensures var p := After(Launch<R>(n, Workers(limit, n)), events);
            && p.started == seq(p.cursor, i => i)
            && |p.inFlight| + |p.failed| <= Workers(limit, n)
            && (p.cursor < n ==> |p.inFlight| + |p.failed| == Workers(limit, n))
  {
    var workers := Workers(limit, n);
    LaunchSound<R>(n, workers, workers);
    RunKeepsInv(workers, Launch<R>(n, workers), events);
  }

  lemma StepStores<R>(p: Pool<R>, e: Event<R>, i: nat, value: R)
    requires Enabled(p, e) && i < |p.results| && p.results[e.index].None?
    ensures var next := Step(p, e);
            && |next.results| == |p.results|
            && (next.results[i] == Some(value) <==> p.results[i] == Some(value) || e == Settle(i, Resolved(value)))
            && (i in next.failed <==> i in p.failed || e == Settle(i, Rejected))
  {
  }

  lemma InFlightIsOpen<R>(workers: nat, p: Pool<R>, e: Event<R>)
    requires Inv(workers, p) && Enabled(p, e)
    ensures p.results[e.index].None?
  {
  }

  /** What is stored is what settled: a result for each item that resolved, and a rejection for each that rejected. */
  lemma {:induction false} StoredExactly<R>(workers: nat, p: Pool<R>, events: seq<Event<R>>, i: nat, value: R)
    requires Inv(workers, p) && Possible(p, events) && i < |p.results|
    ensures var end := After(p, events);
            && |end.results| == |p.results|
            && (end.results[i] == Some(value) <==> p.results[i] == Some(value) || Settle(i, Resolved(value)) in events)
            && (i in end.failed <==> i in p.failed || Settle(i, Rejected) in events)
    decreases |events|
  {
    hide Inv, Step;
    if events != [] {
      StepKeepsInv(workers, p, events[0]);
      InFlightIsOpen(workers, p, events[0]);
      StepStores(p, events[0], i, value);
      StoredExactly(workers, Step(p, events[0]), events[1..], i, value);
      assert events == [events[0]] + events[1..];
    }
  }

  // -------------------------------------------------- results in input order

  ghost predicate Follows<T, R>(fn: (T, nat) -> Outcome<R>, items: seq<T>, events: seq<Event<R>>) {
    forall e :: e in events ==> e.index < |items| && e.outcome == fn(items[e.index], e.index)
  }

  ghost predicate Filled<T, R>(fn: (T, nat) -> Outcome<R>, items: seq<T>, p: Pool<R>) {
    && |p.results| == |items|
    && (forall i :: 0 <= i < |items| && p.results[i].Some? ==> fn(items[i], i) == Resolved(p.results[i].value))
    && ((forall i :: 0 <= i < |items| ==> fn(items[i], i).Resolved?) ==> p.failed == {})
  }

  lemma {:induction false} RunKeepsFilled<T, R>(fn: (T, nat) -> Outcome<R>, items: seq<T>, p: Pool<R>,
                                                events: seq<Event<R>>)
    requires Possible(p, events) && Follows(fn, items, events) && Filled(fn, items, p)
    ensures Filled(fn, items, After(p, events))
    decreases |events|
  {
    if events != [] {
      var e := events[0];
      assert e in events && e.outcome == fn(items[e.index], e.index);
      var next := Step(p, e);
      assert Follows(fn, items, events[1..]) by {
        assert forall x :: x in events[1..] ==> x in events;
      }
      RunKeepsFilled(fn, items, next, events[1..]);
    }
  }

  /** If no call rejects, the results are those of the sequential map, whatever the order of completion. */
  lemma ResultsMatchSequentialMap<T, R>(fn: (T, nat) -> Outcome<R>, items: seq<T>, limit: real, events: seq<Event<R>>)
    requires items != [] && forall i :: 0 <= i < |items| ==> fn(items[i], i).Resolved?
    requires Possible(Launch<R>(|items|, Workers(limit, |items|)), events) && Follows(fn, items, events)
    requires After(Launch<R>(|items|, Workers(limit, |items|)), events).inFlight == {}
    ensures After(Launch<R>(|items|, Workers(limit, |items|)), events).results
         == seq(|items|, i requires 0 <= i < |items| => Some(fn(items[i], i).value))
  {
    hide Step, Pull, Possible, After, Launch;
    var n, workers := |items|, Workers(limit, |items|);
    var start := Launch<R>(n, workers);
    LaunchSound<R>(n, workers, workers);
    LaunchEmpty<R>(n, workers);
    RunKeepsInv(workers, start, events);
    RunKeepsFilled(fn, items, start, events);
  }

  lemma {:induction false} LaunchEmpty<R>(n: nat, k: nat)
    ensures var p := Launch<R>(n, k); p.results == seq(n, _ => None) && p.failed == {}
    decreases k
  {
    if k > 0 {
      LaunchEmpty<R>(n, k - 1);
    }
  }

  // -------------------------------------------------------- after a rejection

  /** Once an item has rejected no further item is ever started, as the documentation promises. */
  ghost predicate StopsAtRejection<R(!new)>(n: nat, workers: nat) {
    forall before: seq<Event<R>>, after: seq<Event<R>> ::
      Possible(Launch<R>(n, workers), before) && Possible(After(Launch<R>(n, workers), before), after) ==>
        var p := After(Launch<R>(n, workers), before);
        p.failed != {} ==> After(p, after).cursor == p.cursor
  }

  /** The promise holds exactly for a single worker, or where every item starts at once. */
  lemma StopsExactly<R(!new)>(n: nat, workers: nat, value: R)
    requires 1 <= workers <= n
    ensures StopsAtRejection<R>(n, workers) <==> workers == 1 || workers == n
  {
    var start := Launch<R>(n, workers);
    LaunchSound<R>(n, workers, workers);
    if workers == 1 || workers == n {
      forall before: seq<Event<R>>, after: seq<Event<R>> |
        Possible(start, before) && Possible(After(start, before), after) && After(start, before).failed != {}
        ensures After(After(start, before), after).cursor == After(start, before).cursor
      {
        var p := After(start, before);
        RunKeepsInv(workers, start, before);
        RunKeepsInv(workers, p, after);
        if p.cursor < n {
          OnlyOneLeft(p);
          assert after == [];
        }
      }
    } else {
      SurvivorsGoOn(n, workers, value);
    }
  }

  lemma OnlyOneLeft<R>(p: Pool<R>)
    requires p.failed != {} && |p.inFlight| + |p.failed| <= 1
    ensures p.inFlight == {}
  {
    var i :| i in p.failed;
    assert p.failed == {i} + (p.failed - {i});
  }

  /** With several workers and items left over, one rejects and the next to resolve starts another item. */
  lemma SurvivorsGoOn<R(!new)>(n: nat, workers: nat, value: R)
    requires 2 <= workers < n
    ensures !StopsAtRejection<R>(n, workers)
  {
    var start := Launch<R>(n, workers);
    LaunchSound<R>(n, workers, workers);
    LaunchEmpty<R>(n, workers);
    LaunchFlies<R>(n, workers);
    var before: seq<Event<R>>, after := [Settle(0, Rejected)], [Settle(1, Resolved(value))];
    var p := Step(start, before[0]);
    assert Possible(p, []) && Possible(start, before) && After(start, before) == p;
    var q := Step(p, after[0]);
    assert Possible(q, []) && Possible(p, after) && After(p, after) == q;
    assert 0 in p.failed && q.cursor == p.cursor + 1;
  }

  lemma {:induction false} LaunchFlies<R>(n: nat, k: nat)
    requires k <= n
    ensures Launch<R>(n, k).cursor == k && forall i: nat :: i < k ==> i in Launch<R>(n, k).inFlight
    ensures |Launch<R>(n, k).results| == n
    decreases k
  {
    if k > 0 {
      LaunchFlies<R>(n, k - 1);
    }
  }

  /** Only as many rejections as there are workers can keep an item from ever starting. */
  lemma AllStartUnlessAllWorkersFail<R>(n: nat, workers: nat, events: seq<Event<R>>)
    requires 1 <= workers <= n && Possible(Launch<R>(n, workers), events)
    requires After(Launch<R>(n, workers), events).inFlight == {}
    ensures var p := After(Launch<R>(n, workers), events);
            p.cursor == n || |p.failed| == workers
  {
    LaunchSound<R>(n, workers, workers);
    RunKeepsInv(workers, Launch<R>(n, workers), events);
  }
}
