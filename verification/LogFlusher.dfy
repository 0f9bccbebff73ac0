/** Progress writes of one run: throttled, one at a time, with a single repeat. */
module LogFlusher {

  /** A run of the writer makes one write, and one more if somebody asked meanwhile. */
  datatype Phase = First | Second

  /** An update on its way to the database; it carries the state as it was when the write began. */
  datatype Write = Write(phase: Phase, snapshot: nat)

  datatype Landing = Progress(version: nat) | Final

  /**
   * The four variables of the flusher, then its surroundings: the version of the live state, the version
   * the last write carried, the writes under way, and everything that has reached the row, in order.
   */
  datatype World = World(timer: bool, writing: bool, repeatRequested: bool, lastWrite: int,
                         version: nat, latest: nat, writes: seq<Write>, row: seq<Landing>)

  const START := World(false, false, false, 0, 0, 0, [], [])

  /** `Note` changes the live state and asks for it to be written, as every log line and stage change does. */
  datatype Event =
    | Note(now: int)
    | Fire(now: int)
    | Settle(write: nat, now: int, landed: bool)
    | Flush(now: int)
    | Dispose
    | Finalize

  predicate Enabled(w: World, e: Event) {
    (e.Fire? ==> w.timer) && (e.Settle? ==> e.write < |w.writes|)
  }

  function Begin(w: World, phase: Phase, now: int): World {
    w.(lastWrite := now, latest := w.version, writes := w.writes + [Write(phase, w.version)])
  }

  function Request(w: World, now: int): World {
    if w.writing then w.(repeatRequested := true) else Begin(w.(writing := true), First, now)
  }

  function Schedule(w: World, now: int, interval: int): World {
    if w.timer then w
    else if now - w.lastWrite >= interval then Request(w, now)
    else w.(timer := true)
  }

  function Settled(w: World, k: nat, now: int, landed: bool): World
    requires k < |w.writes|
  {
    var write := w.writes[k];
    var done := w.(writes := w.writes[..k] + w.writes[k + 1..],
                   row := if landed then w.row + [Progress(write.snapshot)] else w.row);
    if write.phase.First? && done.repeatRequested then Begin(done.(repeatRequested := false), Second, now)
    else done.(writing := false)
  }

  function Step(interval: int, w: World, e: Event): World
    requires Enabled(w, e)
  {
    match e
    case Note(now) => Schedule(w.(version := w.version + 1), now, interval)
    case Fire(now) => Request(w.(timer := false), now)
    case Settle(k, now, landed) => Settled(w, k, now, landed)
    case Flush(now) => Request(w.(timer := false), now)
    case Dispose => w.(timer := false)
    case Finalize => w.(row := w.row + [Final])
  }

  class LogFlusher {
    const interval: int
    var timer: bool
    var writing: bool
    var repeatRequested: bool
    var lastWrite: int
    ghost var world: World

    ghost predicate Valid()
      reads this
    {
      && world.timer == timer && world.writing == writing
      && world.repeatRequested == repeatRequested && world.lastWrite == lastWrite
      && Inv(world)
    }

    constructor (interval: int)
      ensures Valid() && this.interval == interval && world == START
    {
      this.interval, timer, writing, repeatRequested, lastWrite, world := interval, false, false, false, 0, START;
    }

    method Run(now: int)
      requires Valid()
      modifies this
      ensures Valid() && world == Request(old(world), now)
    {
      RequestKeepsInv(world, now);
      world := Request(world, now);
      if writing {
        repeatRequested := true;
        return;
      }
      writing, lastWrite := true, now;
    }

    /** After the live state changed. */
    method Schedule(now: int)
      requires Valid()
      modifies this
      ensures Valid() && world == Step(interval, old(world), Note(now))
    {
      StepKeepsInv(interval, world, Note(now));
      world := world.(version := world.version + 1);
      if timer {
        return;
      }
      if now - lastWrite >= interval {
        Run(now);
        return;
      }
      timer := true;
      world := world.(timer := true);
    }

    method TimerFires(now: int)
      requires Valid() && timer
      modifies this
      ensures Valid() && world == Step(interval, old(world), Fire(now))
    {
      timer := false;
      world := world.(timer := false);
      Run(now);
    }

    /** The part of a flush before its await. */
    method Flush(now: int)
      requires Valid()
      modifies this
      ensures Valid() && world == Step(interval, old(world), Event.Flush(now))
    {
      timer := false;
      world := world.(timer := false);
      Run(now);
    }

    method Dispose()
      requires Valid()
      modifies this
      ensures Valid() && world == Step(interval, old(world), Event.Dispose)
    {
      timer := false;
      world := world.(timer := false);
    }

    /** The write under way is over; a repeat begins at once if one was asked for during the first. */
    method WriteSettles(now: int, landed: bool, first: bool)
      requires Valid() && writing && (first <==> world.writes[0].phase.First?)
      modifies this
      ensures Valid() && world == Step(interval, old(world), Settle(0, now, landed))
    {
      StepKeepsInv(interval, world, Settle(0, now, landed));
      world := Step(interval, world, Settle(0, now, landed));
      if first && repeatRequested {
        repeatRequested, lastWrite := false, now;
      } else {
        writing := false;
      }
    }
  }

  // ------------------------------------------------------------ single flight

  /** One write at a time, and what has landed never goes back to an older state. */
  ghost predicate Inv(w: World) {
    && |w.writes| == (if w.writing then 1 else 0)
    && w.latest <= w.version
    && (w.writing ==> w.writes[0].snapshot == w.latest)
    && (forall i, j :: 0 <= i < j < |w.row| && w.row[i].Progress? && w.row[j].Progress? ==>
          w.row[i].version <= w.row[j].version)
    && (forall i :: 0 <= i < |w.row| && w.row[i].Progress? ==> w.row[i].version <= w.latest)
  }

  lemma RequestKeepsInv(w: World, now: int)
    requires Inv(w)
    ensures Inv(Request(w, now))
  {
  }

  lemma StepKeepsInv(interval: int, w: World, e: Event)
    requires Inv(w) && Enabled(w, e)
    ensures Inv(Step(interval, w, e))
  {
    match e {
      case Settle(k, now, landed) => SettleKeepsInv(w, k, now, landed);
      case _ =>
    }
  }

  lemma SettleKeepsInv(w: World, k: nat, now: int, landed: bool)
    requires Inv(w) && k < |w.writes|
    ensures Inv(Settled(w, k, now, landed))
  {
    assert w.writes[..k] + w.writes[k + 1..] == [];
  }

  predicate Possible(interval: int, w: World, events: seq<Event>)
    decreases |events|
  {
    events == [] || (Enabled(w, events[0]) && Possible(interval, Step(interval, w, events[0]), events[1..]))
  }

  function After(interval: int, w: World, events: seq<Event>): World
    requires Possible(interval, w, events)
    decreases |events|
  {
    if events == [] then w else After(interval, Step(interval, w, events[0]), events[1..])
  }

  /** In every run: never two writes at once, and the stored states only ever get newer. */
  lemma {:induction false} SingleFlight(interval: int, w: World, events: seq<Event>)
    requires Inv(w) && Possible(interval, w, events)
    ensures Inv(After(interval, w, events))
    decreases |events|
  {
    hide Inv;
    if events != [] {
      StepKeepsInv(interval, w, events[0]);
      SingleFlight(interval, Step(interval, w, events[0]), events[1..]);
    }
  }

  // ------------------------------------------------- an interval between writes

  /** At this step a write begins, told by the writes under way alone. */
  predicate Starts(interval: int, w: World, e: Event)
    requires Enabled(w, e)
  {
    Step(interval, w, e).writes != [] && (w.writes == [] || e.Settle?)
  }

  /** When the last write along the way began. */
  function LastStart(interval: int, w: World, events: seq<Event>, before: int): int
    requires Possible(interval, w, events)
    decreases |events|
  {
    if events == [] then before
    else
      LastStart(interval, Step(interval, w, events[0]), events[1..],
                if Starts(interval, w, events[0]) then TimeOf(events[0], before) else before)
  }

  function TimeOf(e: Event, otherwise: int): int {
    match e
    case Dispose => otherwise
    case Finalize => otherwise
    case _ => e.now
  }

  lemma {:induction false} LastWriteIsLastStart(interval: int, w: World, events: seq<Event>)
    requires Inv(w) && Possible(interval, w, events)
    ensures After(interval, w, events).lastWrite == LastStart(interval, w, events, w.lastWrite)
    decreases |events|
  {
    if events != [] {
      StepKeepsInv(interval, w, events[0]);
      StartSetsTime(interval, w, events[0]);
      hide Inv, Step, Starts;
      LastWriteIsLastStart(interval, Step(interval, w, events[0]), events[1..]);
    }
  }

  lemma StartSetsTime(interval: int, w: World, e: Event)
    requires Inv(w) && Enabled(w, e)
    ensures Step(interval, w, e).lastWrite == if Starts(interval, w, e) then TimeOf(e, w.lastWrite) else w.lastWrite
  {
    if e.Settle? {
      assert w.writes[..e.write] + w.writes[e.write + 1..] == [];
    }
  }

  /**
   * Exactly when a change is written at once: no deferred write is pending, none is under way, and the last
   * one began at least an interval ago; with no write under way it is otherwise deferred.
   */
  lemma WrittenAtOnceExactly(interval: int, events: seq<Event>, now: int)
    requires Possible(interval, START, events)
    ensures var w := After(interval, START, events);
            var since := now - LastStart(interval, START, events, 0);
            && (Starts(interval, w, Note(now)) <==> !w.timer && w.writes == [] && since >= interval)
            && (w.writes == [] && !Starts(interval, w, Note(now)) ==> Step(interval, w, Note(now)).timer)
            && (Starts(interval, w, Note(now)) ==> Step(interval, w, Note(now)).writes == [Write(First, w.version + 1)])
  {
    hide LastStart;
    SingleFlight(interval, START, events);
    LastWriteIsLastStart(interval, START, events);
  }

  // ---------------------------------------------------- deferred, not dropped

  predicate Dirty(w: World) {
    w.latest < w.version
  }

  predicate Repeats(w: World) {
    w.writes != [] && w.writes[0].phase.First? && w.repeatRequested
  }

  /** Whatever is not written yet is sure to be. */
  predicate Covered(w: World) {
    Dirty(w) ==> w.timer || Repeats(w)
  }

  predicate Repeating(w: World) {
    w.writes != [] && w.writes[0].phase.Second?
  }

  /** A request that finds the repeat write under way is dropped, and so is a deferred write on disposal. */
  predicate Loses(interval: int, w: World, e: Event) {
    match e
    case Note(now) => Repeating(w) && !w.timer && now - w.lastWrite >= interval
    case Fire(_) => Repeating(w) && Dirty(w)
    case Flush(_) => Repeating(w) && Dirty(w)
    case Dispose => Dirty(w) && !Repeats(w)
    case _ => false
  }

  /** Exactly which steps drop a request. */
  lemma CoveredExact(interval: int, w: World, e: Event)
    requires Inv(w) && Covered(w) && Enabled(w, e)
    ensures Covered(Step(interval, w, e)) <==> !Loses(interval, w, e)
  {
    if e.Settle? {
      assert w.writes[..e.write] + w.writes[e.write + 1..] == [];
    }
  }

  /** Even after a loss the next request makes good for it, unless it is dropped itself. */
  lemma NoteRepairs(interval: int, w: World, now: int)
    requires Inv(w)
    ensures Covered(Step(interval, w, Note(now))) <==> !Loses(interval, w, Note(now))
  {
  }

  predicate Lossless(interval: int, w: World, events: seq<Event>)
    requires Possible(interval, w, events)
    decreases |events|
  {
    events != [] ==>
      !Loses(interval, w, events[0]) && Lossless(interval, Step(interval, w, events[0]), events[1..])
  }

  /** Where no step drops a request, a run that has come to rest has sent its newest state. */
  lemma {:induction false} NothingDropped(interval: int, w: World, events: seq<Event>)
    requires Inv(w) && Covered(w) && Possible(interval, w, events) && Lossless(interval, w, events)
    ensures Covered(After(interval, w, events))
    ensures var end := After(interval, w, events);
            !end.timer && end.writes == [] ==> end.latest == end.version
    decreases |events|
  {
    hide Inv, Step, Loses;
    if events == [] {
      AtRest(w);
    } else {
      StepKeepsInv(interval, w, events[0]);
      CoveredExact(interval, w, events[0]);
      NothingDropped(interval, Step(interval, w, events[0]), events[1..]);
    }
  }

  lemma AtRest(w: World)
    requires Inv(w) && Covered(w)
    ensures !w.timer && w.writes == [] ==> w.latest == w.version
  {
  }

  /** A repeat write slower than the interval: the state noted meanwhile is never sent. */
  lemma SlowRepeatLosesState(interval: int)
    requires interval > 0
    ensures var t := interval;
            var events := [Note(t), Note(2 * t), Settle(0, 2 * t, true), Note(3 * t), Settle(0, 3 * t, true)];
            && Possible(interval, START, events)
            && var end := After(interval, START, events);
               !end.timer && end.writes == [] && end.latest < end.version
  {
    var t := interval;
    var e1, e2, e3, e4, e5 := Note(t), Note(2 * t), Settle(0, 2 * t, true), Note(3 * t), Settle(0, 3 * t, true);
    var w1 := Step(interval, START, e1);
    var w2 := Step(interval, w1, e2);
    assert w2.repeatRequested && w2.writes == [Write(First, 1)];
    var w3 := Step(interval, w2, e3);
    assert w3.writes == [Write(Second, 2)] && w3.lastWrite == 2 * t;
    var w4 := Step(interval, w3, e4);
    var w5 := Step(interval, w4, e5);
    assert Possible(interval, w5, []) && After(interval, w5, []) == w5;
    TwoMore(interval, w3, e4, e5);
    assert [e3, e4, e5][1..] == [e4, e5];
    assert Possible(interval, w2, [e3, e4, e5]) && After(interval, w2, [e3, e4, e5]) == w5;
    TwoFirst(interval, START, e1, e2, [e3, e4, e5]);
    assert [e1, e2] + [e3, e4, e5] == [e1, e2, e3, e4, e5];
  }

  lemma TwoFirst(interval: int, w: World, e1: Event, e2: Event, rest: seq<Event>)
    requires Enabled(w, e1) && Enabled(Step(interval, w, e1), e2)
    requires Possible(interval, Step(interval, Step(interval, w, e1), e2), rest)
    ensures Possible(interval, w, [e1, e2] + rest)
    ensures After(interval, w, [e1, e2] + rest) == After(interval, Step(interval, Step(interval, w, e1), e2), rest)
  {
    hide Step;
    var all := [e1, e2] + rest;
    assert all[1..] == [e2] + rest && all[1..][1..] == rest;
    assert Possible(interval, Step(interval, w, e1), all[1..]);
  }

  lemma TwoMore(interval: int, w: World, e1: Event, e2: Event)
    requires Enabled(w, e1) && Enabled(Step(interval, w, e1), e2)
    ensures Possible(interval, w, [e1, e2])
    ensures After(interval, w, [e1, e2]) == Step(interval, Step(interval, w, e1), e2)
  {
    TwoFirst(interval, w, e1, e2, []);
    assert [e1, e2] + [] == [e1, e2];
  }

  // ------------------------------------------------------- after the final row

  /** Nothing has reached the row since the final one. */
  predicate FinalStands(w: World) {
    forall i, j :: 0 <= i < j < |w.row| && w.row[i].Final? ==> w.row[j].Final?
  }

  predicate Quiet(events: seq<Event>) {
    forall e :: e in events ==> !e.Note? && !e.Flush?
  }

  /** A flush that finds no write under way: once its writes are over, the newest state has been sent. */
  lemma {:induction false} AwaitedFlushLeavesNothing(interval: int, w: World, now: int, events: seq<Event>)
    requires Inv(w) && w.writes == [] && Quiet(events)
    requires Possible(interval, Step(interval, w, Flush(now)), events)
    ensures var end := After(interval, Step(interval, w, Flush(now)), events);
            !end.timer && end.latest == end.version
  {
    SentStaysSent(interval, Step(interval, w, Flush(now)), events);
  }

  lemma {:induction false} SentStaysSent(interval: int, w: World, events: seq<Event>)
    requires !w.timer && w.latest == w.version && Quiet(events) && Possible(interval, w, events)
    ensures var end := After(interval, w, events); !end.timer && end.latest == end.version
    decreases |events|
  {
    if events != [] {
      assert events[0] in events && forall e :: e in events[1..] ==> e in events;
      SentStaysSent(interval, Step(interval, w, events[0]), events[1..]);
    }
  }

  lemma {:induction false} IdleStaysIdle(interval: int, w: World, events: seq<Event>)
    requires !w.timer && w.writes == [] && Quiet(events) && Possible(interval, w, events) && FinalStands(w)
    ensures FinalStands(After(interval, w, events))
    decreases |events|
  {
    if events != [] {
      assert events[0] in events && forall e :: e in events[1..] ==> e in events;
      IdleStaysIdle(interval, Step(interval, w, events[0]), events[1..]);
    }
  }

  ghost predicate FinalAlwaysStands(interval: int, w: World) {
    forall events :: Quiet(events) && Possible(interval, w, events) ==> FinalStands(After(interval, w, events))
  }

  /**
   * After disposal and with no further request, whether the final row is safe depends on one thing only:
   * that no write was still under way.
   */
  lemma FinalRowSafeExactly(interval: int, w: World)
    requires Inv(w) && Final !in w.row
    ensures FinalAlwaysStands(interval, Step(interval, w, Dispose)) <==> w.writes == []
  {
    var disposed := Step(interval, w, Dispose);
    if w.writes == [] {
      forall events | Quiet(events) && Possible(interval, disposed, events)
        ensures FinalStands(After(interval, disposed, events))
      {
        IdleStaysIdle(interval, disposed, events);
      }
    } else {
      var events := [Finalize, Settle(0, 0, true)];
      TwoMore(interval, disposed, Finalize, Settle(0, 0, true));
      var end := After(interval, disposed, events);
      assert end.row == w.row + [Final, Progress(w.latest)];
      assert end.row[|w.row|].Final? && !end.row[|w.row| + 1].Final?;
      assert Quiet(events) && !FinalStands(end);
    }
  }

  lemma LandedOnFinal(w: World, before: seq<Landing>, version: nat)
    requires w.row == before + [Final, Progress(version)]
    ensures !FinalStands(w)
  {
    assert w.row[|before|].Final? && !w.row[|before| + 1].Final?;
  }

  lemma OneMore(interval: int, w: World, e: Event)
    requires Enabled(w, e)
    ensures Possible(interval, w, [e]) && After(interval, w, [e]) == Step(interval, w, e)
  {
    hide Step;
    assert [e][1..] == [] && Possible(interval, Step(interval, w, e), []);
  }

  // -------------------------------------------------- how a run shuts down

  predicate SettlesOnly(events: seq<Event>) {
    forall e :: e in events ==> e.Settle?
  }

  /** The closing line is logged, and at once the flush is begun. */
  function Flushed(interval: int, w: World, now: int): World {
    Step(interval, Step(interval, w, Note(now)), Flush(now))
  }

  /**
   * What may happen while the flush is awaited: it returns at once if it finds a write under way, and
   * otherwise when its own writes are over.
   */
  predicate Awaited(interval: int, w: World, now: int, events: seq<Event>) {
    && SettlesOnly(events) && Possible(interval, Flushed(interval, w, now), events)
    && if Step(interval, w, Note(now)).writes != [] then events == []
       else After(interval, Flushed(interval, w, now), events).writes == []
  }

  /** Disposed after the awaited flush and left alone, the flusher lets the final row stand. */
  ghost predicate ShutdownSafe(interval: int, w: World, now: int) {
    forall events :: Awaited(interval, w, now, events) ==>
      FinalAlwaysStands(interval, Step(interval, After(interval, Flushed(interval, w, now), events), Dispose))
  }

  /**
   * Whether the shutdown is safe is settled by the closing line itself: exactly if no write is under way,
   * and the line does not start one because it comes within the interval after the last or a deferred
   * write is pending already. Otherwise the flush returns with a write still under way.
   */
  lemma ShutdownSafeExactly(interval: int, w: World, now: int)
    requires Inv(w) && Final !in w.row
    ensures ShutdownSafe(interval, w, now) <==> w.writes == [] && (w.timer || now - w.lastWrite < interval)
  {
    var noted, flushed := Step(interval, w, Note(now)), Flushed(interval, w, now);
    StepKeepsInv(interval, w, Note(now));
    StepKeepsInv(interval, noted, Flush(now));
    if noted.writes == [] {
      forall events | Awaited(interval, w, now, events)
        ensures FinalAlwaysStands(interval, Step(interval, After(interval, flushed, events), Dispose))
      {
        SingleFlight(interval, flushed, events);
        SettlesKeepFinalOut(interval, flushed, events);
        FinalRowSafeExactly(interval, After(interval, flushed, events));
      }
    } else {
      assert Awaited(interval, w, now, []);
      FinalRowSafeExactly(interval, flushed);
      assert !FinalAlwaysStands(interval, Step(interval, After(interval, flushed, []), Dispose));
    }
  }

  lemma {:induction false} SettlesKeepFinalOut(interval: int, w: World, events: seq<Event>)
    requires Possible(interval, w, events) && SettlesOnly(events) && Final !in w.row
    ensures Final !in After(interval, w, events).row
    decreases |events|
  {
    if events != [] {
      assert events[0] in events && forall e :: e in events[1..] ==> e in events;
      SettlesKeepFinalOut(interval, Step(interval, w, events[0]), events[1..]);
    }
  }

  // --------------------------------------------- any run, to its very end

  /** The requests among the events, as opposed to what happens by itself. */
  function Requests(events: seq<Event>): seq<Event> {
    if events == [] then []
    else (if events[0].Fire? || events[0].Settle? then [] else [events[0]]) + Requests(events[1..])
  }

  predicate Notes(events: seq<Event>) {
    forall e :: e in events ==> e.Note?
  }

  /** A write is under way or deferred. */
  predicate Busy(w: World) {
    w.timer || w.writes != []
  }

  /**
   * The closing line, the awaited flush and disposal, and then these requests: however they interleave
   * with the flusher's own doings, and however long that goes on, no progress lands on the final row.
   */
  ghost predicate FinalStandsAfter(interval: int, w: World, now: int, asked: seq<Event>) {
    forall awaited, later :: Awaited(interval, w, now, awaited) && Requests(later) == asked ==>
      var disposed := Disposed(interval, w, now, awaited);
      Possible(interval, disposed, later) ==> FinalStands(After(interval, disposed, later))
  }

  function Disposed(interval: int, w: World, now: int, awaited: seq<Event>): World
    requires Awaited(interval, w, now, awaited)
  {
    Step(interval, After(interval, Flushed(interval, w, now), awaited), Dispose)
  }

  lemma {:induction false} RequestsInTwo(a: seq<Event>, b: seq<Event>)
    ensures Requests(a + b) == Requests(a) + Requests(b)
    decreases |a|
  {
    if a == [] {
      assert a + b == b;
    } else {
      assert (a + b)[1..] == a[1..] + b;
      RequestsInTwo(a[1..], b);
    }
  }

  lemma {:induction false} AfterInTwo(interval: int, w: World, a: seq<Event>, b: seq<Event>)
    requires Possible(interval, w, a) && Possible(interval, After(interval, w, a), b)
    ensures Possible(interval, w, a + b)
    ensures After(interval, w, a + b) == After(interval, After(interval, w, a), b)
    decreases |a|
  {
    hide Step;
    if a == [] {
      assert a + b == b;
    } else {
      assert (a + b)[1..] == a[1..] + b;
      AfterInTwo(interval, Step(interval, w, a[0]), a[1..], b);
    }
  }

  /** Notes are always possible, leave the row alone, and the first makes the flusher busy. */
  lemma {:induction false} NotesKeepBusy(interval: int, w: World, notes: seq<Event>)
    requires Inv(w) && Notes(notes)
    ensures Possible(interval, w, notes) && Requests(notes) == notes
    ensures var end := After(interval, w, notes);
            Inv(end) && end.row == w.row && (Busy(w) || notes != [] ==> Busy(end))
    decreases |notes|
  {
    if notes != [] {
      assert notes[0] in notes && forall e :: e in notes[1..] ==> e in notes;
      StepKeepsInv(interval, w, notes[0]);
      NotesKeepBusy(interval, Step(interval, w, notes[0]), notes[1..]);
    }
  }

  /** A busy flusher lands one more state, all by itself. */
  lemma BusyLands(interval: int, w: World) returns (late: seq<Event>)
    requires Inv(w) && Busy(w)
    ensures Possible(interval, w, late) && Requests(late) == []
    ensures exists version :: After(interval, w, late).row == w.row + [Progress(version)]
  {
    var settle := Settle(0, 0, true);
    assert [settle][1..] == [] && Requests([settle]) == [];
    if w.writes != [] {
      late := [settle];
      OneMore(interval, w, settle);
      assert After(interval, w, late).row == w.row + [Progress(w.writes[0].snapshot)];
    } else {
      late := [Fire(0), settle];
      TwoMore(interval, w, Fire(0), settle);
      assert After(interval, w, late).row == w.row + [Progress(w.version)];
      assert late[1..] == [settle];
    }
  }

  lemma AfterInFour(interval: int, w: World, a: seq<Event>, b: seq<Event>, c: seq<Event>, e: seq<Event>)
    requires Possible(interval, w, a) && Possible(interval, After(interval, w, a), b)
    requires Possible(interval, After(interval, After(interval, w, a), b), c)
    requires Possible(interval, After(interval, After(interval, After(interval, w, a), b), c), e)
    ensures var all := a + (b + (c + e));
            && Possible(interval, w, all) && Requests(all) == Requests(a) + (Requests(b) + (Requests(c) + Requests(e)))
            && After(interval, w, all) ==
               After(interval, After(interval, After(interval, After(interval, w, a), b), c), e)
  {
    hide After, Possible, Requests;
    AfterInTwo(interval, After(interval, After(interval, w, a), b), c, e);
    AfterInTwo(interval, After(interval, w, a), b, c + e);
    AfterInTwo(interval, w, a, b + (c + e));
    RequestsInTwo(c, e);
    RequestsInTwo(b, c + e);
    RequestsInTwo(a, b + (c + e));
  }

  /** Notes before the final row, notes after it, and a flusher that is or gets busy: progress lands on that row. */
  lemma BusyOverwrites(interval: int, w: World, cleaning: seq<Event>, notifying: seq<Event>)
    returns (later: seq<Event>)
    requires Inv(w) && Notes(cleaning) && Notes(notifying)
    requires Busy(w) || cleaning != [] || notifying != []
    ensures Possible(interval, w, later) && Requests(later) == cleaning + [Finalize] + notifying
    ensures !FinalStands(After(interval, w, later))
  {
    hide Inv, Step, Busy, FinalStands, Notes, After, Possible, Requests;
    NotesKeepBusy(interval, w, cleaning);
    var cleaned := After(interval, w, cleaning);
    FinalizeAdds(interval, cleaned);
    OneMore(interval, cleaned, Finalize);
    var final := After(interval, cleaned, [Finalize]);
    NotesKeepBusy(interval, final, notifying);
    var notified := After(interval, final, notifying);
    var late := BusyLands(interval, notified);
    AfterInFour(interval, w, cleaning, [Finalize], notifying, late);
    later := cleaning + ([Finalize] + (notifying + late));
    assert cleaning + ([Finalize] + (notifying + [])) == cleaning + [Finalize] + notifying;
    var version :| After(interval, notified, late).row == notified.row + [Progress(version)];
    LandedOnFinal(After(interval, w, later), w.row, version);
  }

  lemma FinalizeAdds(interval: int, w: World)
    requires Inv(w)
    ensures Inv(Step(interval, w, Finalize)) && Step(interval, w, Finalize).row == w.row + [Final]
    ensures Busy(Step(interval, w, Finalize)) <==> Busy(w)
    ensures Requests([Finalize]) == [Finalize]
  {
    assert [Finalize][1..] == [];
  }

  /** The flush can always be awaited to its end. */
  lemma FlushEnds(interval: int, w: World, now: int) returns (awaited: seq<Event>)
    requires Inv(w)
    ensures Awaited(interval, w, now, awaited)
    ensures Step(interval, w, Note(now)).writes != [] ==> Disposed(interval, w, now, awaited).writes != []
    ensures Inv(Disposed(interval, w, now, awaited))
  {
    var noted, flushed := Step(interval, w, Note(now)), Flushed(interval, w, now);
    StepKeepsInv(interval, w, Note(now));
    StepKeepsInv(interval, noted, Flush(now));
    var settle := Settle(0, now, true);
    if noted.writes != [] {
      awaited := [];
    } else {
      var once := Step(interval, flushed, settle);
      StepKeepsInv(interval, flushed, settle);
      if once.writes == [] {
        awaited := [settle];
        OneMore(interval, flushed, settle);
      } else {
        awaited := [settle, settle];
        TwoMore(interval, flushed, settle, settle);
      }
    }
    SingleFlight(interval, flushed, awaited);
    StepKeepsInv(interval, After(interval, flushed, awaited), Dispose);
  }

  /**
   * For every shutdown: the final row stands, whatever happens after it and however long, if and only if
   * neither cleaning up nor notifying asks for anything, no write is under way at the closing line, and
   * that line starts none.
   */
  lemma FinalStandsExactly(interval: int, w: World, now: int, cleaning: seq<Event>, notifying: seq<Event>)
    requires Inv(w) && Final !in w.row && Notes(cleaning) && Notes(notifying)
    ensures FinalStandsAfter(interval, w, now, cleaning + [Finalize] + notifying) <==>
            cleaning == notifying == [] && w.writes == [] && (w.timer || now - w.lastWrite < interval)
  {
    hide Inv, FinalStands, Disposed, Awaited, Notes, Requests;
    var asked := cleaning + [Finalize] + notifying;
    ShutdownSafeExactly(interval, w, now);
    if cleaning == notifying == [] && ShutdownSafe(interval, w, now) {
      assert asked == [Finalize];
      SilentStands(interval, w, now);
    } else {
      var awaited := FlushEnds(interval, w, now);
      LineStarts(interval, w, now);
      var later := BusyOverwrites(interval, Disposed(interval, w, now, awaited), cleaning, notifying);
      assert !FinalStandsAfter(interval, w, now, asked);
    }
  }

  lemma LineStarts(interval: int, w: World, now: int)
    requires Inv(w)
    ensures Step(interval, w, Note(now)).writes == [] <==> w.writes == [] && (w.timer || now - w.lastWrite < interval)
  {
  }

  lemma SilentStands(interval: int, w: World, now: int)
    requires ShutdownSafe(interval, w, now)
    ensures FinalStandsAfter(interval, w, now, [Finalize])
  {
    hide Awaited, FinalStands, After, Step;
    forall awaited, later |
      && Awaited(interval, w, now, awaited) && Requests(later) == [Finalize]
      && Possible(interval, Disposed(interval, w, now, awaited), later)
      ensures FinalStands(After(interval, Disposed(interval, w, now, awaited), later))
    {
      RequestsQuiet(later);
    }
  }

  lemma {:induction false} RequestsQuiet(events: seq<Event>)
    ensures Quiet(Requests(events)) ==> Quiet(events)
  {
    if events != [] {
      RequestsQuiet(events[1..]);
      var first := if events[0].Fire? || events[0].Settle? then [] else [events[0]];
      assert Requests(events) == first + Requests(events[1..]);
      assert forall e :: e in events ==> e == events[0] || e in events[1..];
      assert first != [] ==> events[0] in Requests(events);
      assert forall e :: e in Requests(events[1..]) ==> e in Requests(events);
    }
  }
}
