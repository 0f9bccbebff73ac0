/** Several callers race to execute one queued run; a conditional update lets one of them through. */
module Claim {
  import opened Bytes

  datatype Status = Pending | Running | Success | Partial | Failed | Cancelled

  /** Where a caller stands: it has read how many rows its update changed, registered, read the record ... */
  datatype Place = Calling | Won | Lost | Reading | InPipeline | Closing(outcome: Status) | Finished(ran: bool)

  /** The row's status and the abort registry's entry for it are shared by all callers. */
  datatype World = World(status: Status, registered: bool, callers: seq<Place>)

  datatype Event =
    | Update(caller: nat)
    | Resume(caller: nat)
    | Read(caller: nat, found: bool)
    | Leave(caller: nat, outcome: Status)
    | Finalize(caller: nat)

  predicate Enabled(w: World, e: Event) {
    e.caller < |w.callers| &&
    match e
    case Update(i) => w.callers[i].Calling?
    case Resume(i) => w.callers[i].Won? || w.callers[i].Lost?
    case Read(i, _) => w.callers[i].Reading?
    case Leave(i, outcome) => w.callers[i].InPipeline? && outcome in {Success, Partial, Failed, Cancelled}
    case Finalize(i) => w.callers[i].Closing?
  }

  function At(w: World, i: nat, place: Place): World
    requires i < |w.callers|
  {
    w.(callers := w.callers[i := place])
  }

  function Step(w: World, e: Event): World
    requires Enabled(w, e)
  {
    match e
    case Update(i) =>
      if w.status.Pending? then At(w.(status := Running), i, Won) else At(w, i, Lost)
    case Resume(i) =>
      if w.callers[i].Lost? then At(w, i, Finished(false)) else At(w.(registered := true), i, Reading)
    case Read(i, found) =>
      if found then At(w, i, InPipeline) else At(w.(registered := false), i, Finished(false))
    case Leave(i, outcome) => At(w.(registered := false), i, Closing(outcome))
    case Finalize(i) => At(w.(status := w.callers[i].outcome), i, Finished(true))
  }

  predicate Possible(w: World, events: seq<Event>)
    decreases |events|
  {
    events == [] || (Enabled(w, events[0]) && Possible(Step(w, events[0]), events[1..]))
  }

  function After(w: World, events: seq<Event>): World
    requires Possible(w, events)
    decreases |events|
  {
    if events == [] then w else After(Step(w, events[0]), events[1..])
  }

  function Start(status: Status, callers: nat): World {
    World(status, false, seq(callers, _ => Calling))
  }

  // --------------------------------------------------------------- one winner

  /** Only the named caller may have got past its update, and the registry holds its entry while it runs. */
  ghost predicate Held(w: World, winner: nat) {
    && winner < |w.callers|
    && !w.status.Pending?
    && (forall i :: 0 <= i < |w.callers| && i != winner ==>
          w.callers[i].Calling? || w.callers[i].Lost? || w.callers[i] == Finished(false))
    && !w.callers[winner].Calling? && !w.callers[winner].Lost?
    && (w.registered <==> w.callers[winner].Reading? || w.callers[winner].InPipeline?)
    && (w.callers[winner].Closing? ==> w.callers[winner].outcome in {Success, Partial, Failed, Cancelled})
    && (w.callers[winner] == Finished(true) <==> w.status in {Success, Partial, Failed, Cancelled})
  }

  /** Nobody has got past the update, and nobody will if the row is not pending. */
  ghost predicate Unclaimed(w: World) {
    && !w.registered
    && forall i :: 0 <= i < |w.callers| ==>
         w.callers[i].Calling? || (!w.status.Pending? && (w.callers[i].Lost? || w.callers[i] == Finished(false)))
  }

  /** Once claimed, only the winner's own steps change anything shared; the losers' change nothing. */
  lemma HeldStaysHeld(w: World, winner: nat, e: Event)
    requires Held(w, winner) && Enabled(w, e)
    ensures Held(Step(w, e), winner)
    ensures e.caller != winner ==> Step(w, e).status == w.status && Step(w, e).registered == w.registered
  {
  }

  lemma {:induction false} HeldToTheEnd(w: World, winner: nat, events: seq<Event>)
    requires Held(w, winner) && Possible(w, events)
    ensures Held(After(w, events), winner)
    decreases |events|
  {
    hide Held, Step;
    if events != [] {
      HeldStaysHeld(w, winner, events[0]);
      HeldToTheEnd(Step(w, events[0]), winner, events[1..]);
    }
  }

  /** Whether the step changes the row or the registry. */
  predicate Changes(w: World, e: Event)
    requires Enabled(w, e)
  {
    Step(w, e).status != w.status || Step(w, e).registered != w.registered
  }

  /** All changes along the run are made by one and the same caller. */
  predicate ChangedOnlyBy(w: World, events: seq<Event>, winner: nat)
    requires Possible(w, events)
    decreases |events|
  {
    events != [] ==>
      && (Changes(w, events[0]) ==> events[0].caller == winner)
      && ChangedOnlyBy(Step(w, events[0]), events[1..], winner)
  }

  lemma {:induction false} HeldChangedByWinner(w: World, winner: nat, events: seq<Event>)
    requires Held(w, winner) && Possible(w, events)
    ensures ChangedOnlyBy(w, events, winner)
    decreases |events|
  {
    hide Held, Step;
    if events != [] {
      HeldStaysHeld(w, winner, events[0]);
      HeldChangedByWinner(Step(w, events[0]), winner, events[1..]);
    }
  }

  /**
   * In every interleaving of any number of callers: if the run was pending, the first update wins, and
   * that caller alone ever changes the row or the registry; if it was not, nobody changes anything.
   */
  lemma {:induction false} AtMostOneWinner(w: World, events: seq<Event>)
    requires Unclaimed(w) && Possible(w, events)
    ensures w.status.Pending? && events != [] ==>
              Held(After(w, events), events[0].caller) && ChangedOnlyBy(w, events, events[0].caller)
    ensures !w.status.Pending? ==>
              && Unclaimed(After(w, events)) && After(w, events).status == w.status
              && forall i :: ChangedOnlyBy(w, events, i)
    decreases |events|
  {
    if events != [] {
      var next := Step(w, events[0]);
      if w.status.Pending? {
        FirstWins(w, events[0]);
        HeldToTheEnd(next, events[0].caller, events[1..]);
        HeldChangedByWinner(next, events[0].caller, events[1..]);
      } else {
        AtMostOneWinner(next, events[1..]);
      }
    }
  }

  predicate AllFound(events: seq<Event>) {
    forall e :: e in events && e.Read? ==> e.found
  }

  lemma {:induction false} FoundMeansRun(w: World, winner: nat, events: seq<Event>)
    requires Held(w, winner) && w.callers[winner] != Finished(false) && Possible(w, events) && AllFound(events)
    ensures Held(After(w, events), winner) && After(w, events).callers[winner] != Finished(false)
    decreases |events|
  {
    if events != [] {
      assert events[0] in events && forall e :: e in events[1..] ==> e in events;
      HeldStaysHeld(w, winner, events[0]);
      FoundMeansRun(Step(w, events[0]), winner, events[1..]);
    }
  }

  /** What a caller's pipeline came to, from when it left it. */
  function OutcomeOf(w: World, i: nat): Option<Status>
    requires i < |w.callers|
  {
    match w.callers[i]
    case Closing(outcome) => Some(outcome)
    case Finished(ran) => if ran then Some(w.status) else None
    case _ => None
  }

  /** Nobody but the winner leaves a pipeline, and it does so once; the row ends with what it left with. */
  lemma {:induction false} LeavesOnce(w: World, winner: nat, events: seq<Event>)
    requires Held(w, winner) && Possible(w, events)
    ensures Held(After(w, events), winner)
    ensures forall e :: e in events && e.Leave? ==>
              && OutcomeOf(w, winner) == None && e.caller == winner
              && OutcomeOf(After(w, events), winner) == Some(e.outcome)
    ensures OutcomeOf(w, winner).Some? ==> OutcomeOf(After(w, events), winner) == OutcomeOf(w, winner)
    ensures OutcomeOf(w, winner) == None && OutcomeOf(After(w, events), winner).Some? ==>
              Leave(winner, OutcomeOf(After(w, events), winner).value) in events
    decreases |events|
  {
    if events != [] {
      HeldStaysHeld(w, winner, events[0]);
      LeavesOnce(Step(w, events[0]), winner, events[1..]);
      assert events == [events[0]] + events[1..];
    }
  }

  /**
   * When every caller of a pending run is done: one of them at most ran the pipeline, exactly one if its
   * record was found, and then the row has the status its pipeline left with; the registry entry is gone
   * in any case.
   */
  lemma EveryoneDone(callers: nat, events: seq<Event>) returns (winner: nat)
    requires callers > 0 && Possible(Start(Pending, callers), events)
    requires forall p :: p in After(Start(Pending, callers), events).callers ==> p.Finished?
    ensures var w := After(Start(Pending, callers), events);
            && !w.registered && winner < |w.callers|
            && (forall i :: 0 <= i < |w.callers| && i != winner ==> w.callers[i] == Finished(false))
            && (w.callers[winner] == Finished(true) <==> w.status in {Success, Partial, Failed, Cancelled})
            && (AllFound(events) ==> w.callers[winner] == Finished(true))
            && (w.callers[winner] == Finished(true) ==>
                  && Leave(winner, w.status) in events
                  && forall e :: e in events && e.Leave? ==> e == Leave(winner, w.status))
  {
    hide Step;
    var start := Start(Pending, callers);
    var w := After(start, events);
    assert events != [] by {
      assert start.callers[0] in start.callers;
    }
    winner := events[0].caller;
    AtMostOneWinner(start, events);
    assert forall i :: 0 <= i < |w.callers| ==> w.callers[i] in w.callers;
    FirstWins(start, events[0]);
    LeavesOnce(Step(start, events[0]), winner, events[1..]);
    assert events == [events[0]] + events[1..];
    if AllFound(events) {
      assert forall e :: e in events[1..] ==> e in events;
      FoundMeansRun(Step(start, events[0]), winner, events[1..]);
    }
  }

  lemma FirstWins(w: World, e: Event)
    requires Unclaimed(w) && w.status.Pending? && Enabled(w, e)
    ensures Held(Step(w, e), e.caller) && Step(w, e).callers[e.caller].Won?
  {
  }
}
