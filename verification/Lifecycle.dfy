/** One claimed run: its stages, its log, how it ends and in which order it shuts down. */
module Lifecycle {
  import opened Bytes
  import F = LogFlusher

  datatype Status = Running | Success | Partial | Failed | Cancelled

  datatype Word = Completed | Broken | Aborted

  /** A plain log line, or the line that closes a stage with its duration. */
  datatype Entry = Line(stage: string) | Closed(stage: string, word: Word, duration: int)

  /**
   * The closure variables of the runner; `registered` is the abort registry's entry for this run, and
   * `asked` is everything the flusher has been asked for, and the final row, in order.
   */
  datatype Ctx = Ctx(status: Status, stage: string, starts: map<string, int>, logs: seq<Entry>,
                     registered: bool, aborted: bool, asked: seq<F.Event>)

  /** What a step may do while it runs, and what may happen meanwhile: somebody asks for an abort. */
  datatype Action =
    | SetStage(to: string, now: int)
    | UpdateProgress(stage: Option<string>, now: int)
    | Log(now: int)
    | SetPartial
    | AbortRequest

  /** One run of one pipeline step. */
  datatype Script = Script(actions: seq<Action>, throws: bool)

  /** A step of the pipeline: the stage set before it, if any, and whether cancellation is checked after it. */
  datatype PipelineStep = PipelineStep(stage: Option<string>, now: int, script: Script, checked: bool)

  const INITIALIZING := "Initializing"
  const RETENTION := "Applying Retention"
  const COMPLETED := "Completed"

  function WordFor(status: Status): Word {
    match status
    case Failed => Broken
    case Cancelled => Aborted
    case _ => Completed
  }

  /** Moving to another stage closes the one left, with the word its status calls for. */
  function Enter(c: Ctx, stage: string, now: int): Ctx {
    var closing :=
      if c.stage in c.starts && c.starts[c.stage] != 0 && c.stage != stage
      then [Closed(c.stage, WordFor(c.status), now - c.starts[c.stage])] else [];
    Ask(c.(logs := c.logs + closing, stage := stage, starts := c.starts[stage := now]), F.Note(now))
  }

  function Ask(c: Ctx, e: F.Event): Ctx {
    c.(asked := c.asked + [e])
  }

  function Note(c: Ctx, now: int): Ctx {
    Ask(c.(logs := c.logs + [Line(c.stage)]), F.Note(now))
  }

  function Act(c: Ctx, a: Action): Ctx {
    match a
    case SetStage(stage, now) => Enter(c, stage, now)
    case UpdateProgress(stage, now) =>
      Ask(if stage.Some? && stage.value != "" then c.(stage := stage.value) else c, F.Note(now))
    case Log(now) => Note(c, now)
    case SetPartial => c.(status := Partial)
    case AbortRequest => if c.registered then c.(aborted := true) else c
  }

  function Acts(c: Ctx, actions: seq<Action>): Ctx
    decreases |actions|
  {
    if actions == [] then c else Acts(Act(c, actions[0]), actions[1..])
  }

  /** The steps in order, up to the first that throws or after which a requested abort is noticed. */
  function Steps(c: Ctx, steps: seq<PipelineStep>): (Ctx, bool)
    decreases |steps|
  {
    if steps == [] then (c, false)
    else
      var step := steps[0];
      var entered := if step.stage.Some? then Enter(c, step.stage.value, step.now) else c;
      var ran := Acts(entered, step.script.actions);
      if step.script.throws || (step.checked && ran.aborted) then (ran, true) else Steps(ran, steps[1..])
  }

  /** The times are those of the first line, of the stages set outside the steps, and of the closing line. */
  datatype Run = Run(initialize: Script, dump: Script, upload: Script, retention: Script,
                     cleanup: seq<Action>, notify: seq<Action>,
                     taken: int, initializing: int, retaining: int, completed: int, closed: int)

  function StepsOf(run: Run): seq<PipelineStep> {
    [PipelineStep(Some(INITIALIZING), run.initializing, run.initialize, true),
     PipelineStep(None, 0, run.dump, true),
     PipelineStep(None, 0, run.upload, true),
     PipelineStep(Some(RETENTION), run.retaining, run.retention, false)]
  }

  /** The try block and its catch, up to the closing line. */
  function Settle(c: Ctx, run: Run): Ctx {
    var (ran, threw) := Steps(Note(c, run.taken), StepsOf(run));
    if threw then Note(ran.(status := if ran.aborted then Cancelled else Failed), run.closed)
    else
      var closed := Enter(ran, COMPLETED, run.completed);
      Note(closed.(status := if closed.status.Running? then Success else closed.status), run.closed)
  }

  /** The flush and the finally block up to clean-up: first the registry entry goes, then the flusher is disposed. */
  function Clean(c: Ctx, run: Run): Ctx {
    Acts(Ask(Ask(c, F.Flush(run.closed)).(registered := false), F.Dispose), run.cleanup)
  }

  /** After the final row only notifications can still add to the log. */
  function WindDown(c: Ctx, run: Run): Ctx {
    Acts(Ask(Clean(c, run), F.Finalize), run.notify)
  }

  class Execution {
    var status: Status
    var currentStage: string
    var stageStartTimes: map<string, int>
    var logs: seq<Entry>
    var registered: bool
    var aborted: bool
    var asked: seq<F.Event>
    var finalStatus: Option<Status>

    ghost function View(): Ctx
      reads this
    {
      Ctx(status, currentStage, stageStartTimes, logs, registered, aborted, asked)
    }

    constructor (aborted: bool)
      ensures View() == Ctx(Running, INITIALIZING, map[], [], true, aborted, [])
      ensures finalStatus == None
    {
      status, currentStage, stageStartTimes, logs := Running, INITIALIZING, map[], [];
      registered, this.aborted, asked, finalStatus := true, aborted, [], None;
    }

    /** What the flusher is asked for; what it then does goes on beside the run. */
    method AskFlusher(e: F.Event)
      modifies `asked
      ensures View() == Ask(old(View()), e)
    {
      asked := asked + [e];
    }

    method LogEntry(now: int)
      modifies `logs, `asked
      ensures View() == Note(old(View()), now)
    {
      logs := logs + [Line(currentStage)];
      AskFlusher(F.Note(now));
    }

    method SetStage(stage: string, now: int)
      modifies `logs, `currentStage, `stageStartTimes, `asked
      ensures View() == Enter(old(View()), stage, now)
      ensures currentStage == stage && stageStartTimes == old(stageStartTimes)[stage := now]
      ensures old(currentStage != stage && currentStage in stageStartTimes && stageStartTimes[currentStage] != 0) ==>
                logs == old(logs) + [Closed(old(currentStage),
                                            if status == Failed then Broken
                                            else if status == Cancelled then Aborted else Completed,
                                            now - old(stageStartTimes[currentStage]))]
      ensures old(currentStage == stage || currentStage !in stageStartTimes || stageStartTimes[currentStage] == 0) ==>
                logs == old(logs)
    {
      if currentStage in stageStartTimes && stageStartTimes[currentStage] != 0 && currentStage != stage {
        var word := match status case Failed => Broken case Cancelled => Aborted case _ => Completed;
        logs := logs + [Closed(currentStage, word, now - stageStartTimes[currentStage])];
      }
      currentStage := stage;
      stageStartTimes := stageStartTimes[stage := now];
      AskFlusher(F.Note(now));
    }

    method Perform(actions: seq<Action>)
      modifies `status, `logs, `currentStage, `stageStartTimes, `aborted, `asked
      ensures View() == Acts(old(View()), actions)
    {
      for k := 0 to |actions|
        invariant Acts(View(), actions[k..]) == Acts(old(View()), actions)
      {
        assert actions[k..][0] == actions[k] && actions[k..][1..] == actions[k + 1..];
        match actions[k] {
          case SetStage(stage, now) => SetStage(stage, now);
          case UpdateProgress(stage, now) =>
            if stage.Some? && stage.value != "" {
              currentStage := stage.value;
            }
            AskFlusher(F.Note(now));
          case Log(now) => LogEntry(now);
          case SetPartial => status := Partial;
          case AbortRequest =>
            if registered {
              aborted := true;
            }
        }
      }
    }

    method PerformStep(step: PipelineStep) returns (threw: bool)
      modifies `status, `logs, `currentStage, `stageStartTimes, `aborted, `asked
      ensures threw ==> Steps(old(View()), [step]) == (View(), true)
      ensures !threw ==> Steps(old(View()), [step]) == (View(), false)
    {
      if step.stage.Some? {
        SetStage(step.stage.value, step.now);
      }
      Perform(step.script.actions);
      threw := step.script.throws || (step.checked && aborted);
    }

    method RunPipeline(steps: seq<PipelineStep>) returns (threw: bool)
      modifies `status, `logs, `currentStage, `stageStartTimes, `aborted, `asked
      ensures Steps(old(View()), steps) == (View(), threw)
    {
      hide Acts, Enter;
      threw := false;
      var k := 0;
      while k < |steps| && !threw
        invariant 0 <= k <= |steps|
        invariant !threw ==> Steps(View(), steps[k..]) == Steps(old(View()), steps)
        invariant threw ==> Steps(old(View()), steps) == (View(), true)
      {
        ghost var before := View();
        StepsOneByOne(before, steps[k..]);
        assert steps[k..][..1] == [steps[k]] && steps[k..][1..] == steps[k + 1..];
        threw := PerformStep(steps[k]);
        k := k + 1;
      }
    }

    /** Everything after the claim: the pipeline, how its outcome is chosen, and the ordered shutdown. */
    method PerformExecution(run: Run)
      modifies this
      ensures View() == WindDown(Settle(old(View()), run), run)
      ensures finalStatus == Some(Clean(Settle(old(View()), run), run).status)
    {
      hide Acts, Enter, Steps, StepsOf, Note;
      LogEntry(run.taken);
      var threw := RunPipeline(StepsOf(run));
      if threw {
        status := if aborted then Cancelled else Failed;
        LogEntry(run.closed);
      } else {
        SetStage(COMPLETED, run.completed);
        if status == Running {
          status := Success;
        }
        LogEntry(run.closed);
      }
      assert View() == Settle(old(View()), run);
      AskFlusher(F.Flush(run.closed));
      registered := false;
      AskFlusher(F.Dispose);
      Perform(run.cleanup);
      finalStatus := Some(status);
      AskFlusher(F.Finalize);
      Perform(run.notify);
    }
  }

  lemma StepsOneByOne(c: Ctx, steps: seq<PipelineStep>)
    requires steps != []
    ensures var (ran, threw) := Steps(c, steps[..1]);
            Steps(c, steps) == if threw then (ran, true) else Steps(ran, steps[1..])
  {
    assert steps[..1][1..] == [];
  }

  // ------------------------------------------------------------- how runs end

  predicate SetsPartial(actions: seq<Action>) {
    SetPartial in actions
  }

  predicate Aborts(actions: seq<Action>) {
    AbortRequest in actions
  }

  /** What a stretch of actions leaves of the status and of the abort flag, whatever else it does. */
  lemma {:induction false} ActsOutcome(c: Ctx, actions: seq<Action>)
    ensures var end := Acts(c, actions);
            && end.status == (if SetsPartial(actions) then Partial else c.status)
            && end.aborted == (c.aborted || (c.registered && Aborts(actions)))
            && end.registered == c.registered
    decreases |actions|
  {
    if actions != [] {
      ActsOutcome(Act(c, actions[0]), actions[1..]);
      assert actions == [actions[0]] + actions[1..];
    }
  }

  /** How many steps run. */
  function Ran(aborted: bool, steps: seq<PipelineStep>): (n: nat)
    ensures n <= |steps|
    decreases |steps|
  {
    if steps == [] then 0
    else
      var asked := aborted || Aborts(steps[0].script.actions);
      if steps[0].script.throws || (steps[0].checked && asked) then 1 else 1 + Ran(asked, steps[1..])
  }

  predicate AbortedIn(steps: seq<PipelineStep>) {
    exists s :: s in steps && Aborts(s.script.actions)
  }

  predicate PartialIn(steps: seq<PipelineStep>) {
    exists s :: s in steps && SetsPartial(s.script.actions)
  }

  predicate ThrewIn(steps: seq<PipelineStep>) {
    exists s :: s in steps && s.script.throws
  }

  /** Some step threw, or was followed by a check that found an abort requested by then. */
  predicate Stopped(aborted: bool, steps: seq<PipelineStep>)
    decreases |steps|
  {
    steps != [] &&
    var asked := aborted || Aborts(steps[0].script.actions);
    steps[0].script.throws || (steps[0].checked && asked) || Stopped(asked, steps[1..])
  }

  lemma {:induction false} StepsOutcome(c: Ctx, steps: seq<PipelineStep>)
    requires c.registered
    ensures var ran := steps[..Ran(c.aborted, steps)];
            var (end, threw) := Steps(c, steps);
            && threw == Stopped(c.aborted, steps)
            && end.status == (if PartialIn(ran) then Partial else c.status)
            && end.aborted == (c.aborted || AbortedIn(ran))
            && end.registered
    decreases |steps|
  {
    if steps != [] {
      hide Acts, Enter;
      var step := steps[0];
      var entered := if step.stage.Some? then Enter(c, step.stage.value, step.now) else c;
      EnterKeepsOutcome(c, step);
      ActsOutcome(entered, step.script.actions);
      var after := Acts(entered, step.script.actions);
      var ran := steps[..Ran(c.aborted, steps)];
      assert ran[0] == step;
      if step.script.throws || (step.checked && after.aborted) {
        assert ran == [step];
      } else {
        StepsOutcome(after, steps[1..]);
        var rest := steps[1..][..Ran(after.aborted, steps[1..])];
        assert ran == [step] + rest;
      }
    }
  }

  lemma EnterKeepsOutcome(c: Ctx, step: PipelineStep)
    ensures var entered := if step.stage.Some? then Enter(c, step.stage.value, step.now) else c;
            entered.status == c.status && entered.aborted == c.aborted && entered.registered == c.registered
  {
  }

  /** If nobody ever asks for an abort, only a step that throws can stop the pipeline. */
  lemma {:induction false} StoppedMeansThrewOrAborted(aborted: bool, steps: seq<PipelineStep>)
    requires Stopped(aborted, steps)
    ensures var ran := steps[..Ran(aborted, steps)]; ThrewIn(ran) || aborted || AbortedIn(ran)
    decreases |steps|
  {
    var asked := aborted || Aborts(steps[0].script.actions);
    var ran := steps[..Ran(aborted, steps)];
    assert ran[0] == steps[0];
    if !(steps[0].script.throws || (steps[0].checked && asked)) {
      StoppedMeansThrewOrAborted(asked, steps[1..]);
      assert ran == [steps[0]] + steps[1..][..Ran(asked, steps[1..])];
    }
  }

  lemma {:induction false} UnstoppedNeverThrew(aborted: bool, steps: seq<PipelineStep>)
    requires !Stopped(aborted, steps)
    ensures Ran(aborted, steps) == |steps| && !ThrewIn(steps)
    decreases |steps|
  {
    if steps != [] {
      UnstoppedNeverThrew(aborted || Aborts(steps[0].script.actions), steps[1..]);
      assert steps == [steps[0]] + steps[1..];
    }
  }

  /**
   * Every run ends in exactly one way. It succeeds, wholly or in part, only if no step threw; it is
   * cancelled only if an abort was asked for; it fails only if a step threw and nobody had asked.
   */
  lemma EndsInOneWay(c: Ctx, run: Run)
    requires c.status.Running? && c.registered
    ensures var steps := StepsOf(run);
            var ran := steps[..Ran(c.aborted, steps)];
            var asked := c.aborted || AbortedIn(ran);
            var end := Settle(c, run).status;
            && !end.Running?
            && (end.Success? || end.Partial? <==> !Stopped(c.aborted, steps))
            && (end.Success? || end.Partial? ==>
                  ran == steps && !ThrewIn(steps) && (end.Partial? <==> PartialIn(steps)))
            && (end.Cancelled? <==> Stopped(c.aborted, steps) && asked)
            && (end.Failed? <==> Stopped(c.aborted, steps) && !asked)
            && (end.Failed? ==> ThrewIn(ran))
  {
    hide Acts, Steps, Ran, Stopped;
    var steps := StepsOf(run);
    StepsOutcome(Note(c, run.taken), steps);
    if Stopped(c.aborted, steps) {
      StoppedMeansThrewOrAborted(c.aborted, steps);
    } else {
      UnstoppedNeverThrew(c.aborted, steps);
    }
  }

  // ---------------------------------------------------- what the log claims

  predicate Says(entries: seq<Entry>, word: Word) {
    forall i :: 0 <= i < |entries| && entries[i].Closed? ==> entries[i].word == word
  }

  /** The log only grew, and every stage closed by the new part is closed with this word. */
  predicate Grew(before: seq<Entry>, after: seq<Entry>, word: Word) {
    |before| <= |after| && after[..|before|] == before && Says(after[|before|..], word)
  }

  lemma GrewTwice(a: seq<Entry>, b: seq<Entry>, c: seq<Entry>, word: Word)
    requires Grew(a, b, word) && Grew(b, c, word)
    ensures Grew(a, c, word)
  {
    assert c[..|a|] == c[..|b|][..|a|];
    assert c[|a|..] == b[|a|..] + c[|b|..];
  }

  lemma ActGrows(c: Ctx, a: Action)
    ensures Grew(c.logs, Act(c, a).logs, WordFor(c.status))
  {
  }

  lemma EnterGrows(c: Ctx, stage: string, now: int)
    ensures Grew(c.logs, Enter(c, stage, now).logs, WordFor(c.status))
  {
  }

  /** Whatever stages are left along the way are closed with the word for the status. */
  lemma {:induction false} ActsGrow(c: Ctx, actions: seq<Action>)
    requires SetsPartial(actions) ==> WordFor(c.status).Completed?
    ensures Grew(c.logs, Acts(c, actions).logs, WordFor(c.status))
    decreases |actions|
  {
    hide Grew, Enter;
    if actions == [] {
      GrewNot(c.logs, WordFor(c.status));
    } else {
      var next := Act(c, actions[0]);
      ActGrows(c, actions[0]);
      assert SetsPartial(actions[1..]) ==> SetsPartial(actions);
      StatusWord(c, actions[0]);
      ActsGrow(next, actions[1..]);
      GrewTwice(c.logs, next.logs, Acts(c, actions).logs, WordFor(c.status));
    }
  }

  lemma GrewNot(a: seq<Entry>, word: Word)
    ensures Grew(a, a, word)
  {
  }

  lemma StatusWord(c: Ctx, a: Action)
    requires a.SetPartial? ==> WordFor(c.status).Completed?
    ensures WordFor(Act(c, a).status) == WordFor(c.status)
  {
  }

  lemma {:induction false} StepsGrow(c: Ctx, steps: seq<PipelineStep>)
    requires WordFor(c.status).Completed?
    ensures Grew(c.logs, Steps(c, steps).0.logs, Completed) && WordFor(Steps(c, steps).0.status).Completed?
    decreases |steps|
  {
    hide Grew, Acts, Enter;
    if steps == [] {
      GrewNot(c.logs, Completed);
    } else {
      var step := steps[0];
      var entered := if step.stage.Some? then Enter(c, step.stage.value, step.now) else c;
      var ran, end := Acts(entered, step.script.actions), Steps(c, steps).0;
      EnterKeepsOutcome(c, step);
      if step.stage.Some? {
        EnterGrows(c, step.stage.value, step.now);
      } else {
        GrewNot(c.logs, Completed);
      }
      ActsGrow(entered, step.script.actions);
      ActsOutcome(entered, step.script.actions);
      GrewTwice(c.logs, entered.logs, ran.logs, Completed);
      if !(step.script.throws || (step.checked && ran.aborted)) {
        StepsGrow(ran, steps[1..]);
        GrewTwice(c.logs, ran.logs, end.logs, Completed);
      }
    }
  }

  /**
   * A failed run closes no stage as completed after the failure, nor a cancelled one, in its clean-up and
   * notifications included; before it, and throughout a run that succeeds, every stage left is completed.
   */
  lemma NoStageCompletedAfterFailure(c: Ctx, run: Run)
    requires c.status.Running? && c.registered
    requires !SetsPartial(run.cleanup) && !SetsPartial(run.notify)
    ensures var ran := Steps(Note(c, run.taken), StepsOf(run)).0;
            var settled, logs := Settle(c, run), WindDown(Settle(c, run), run).logs;
            && |c.logs| <= |ran.logs| <= |logs| && logs[..|ran.logs|] == ran.logs && logs[..|c.logs|] == c.logs
            && forall i :: |c.logs| <= i < |logs| && logs[i].Closed? ==>
                 logs[i].word ==
                   if i < |ran.logs| then Completed
                   else if settled.status.Failed? then Broken
                   else if settled.status.Cancelled? then Aborted
                   else Completed
    ensures WindDown(Settle(c, run), run).status == Settle(c, run).status
    ensures WindDown(Settle(c, run), run).aborted == Settle(c, run).aborted
  {
    hide Settle, WindDown, Steps;
    NoStageCompleted(c, run);
    var ran, settled := Steps(Note(c, run.taken), StepsOf(run)).0, Settle(c, run);
    var logs := WindDown(settled, run).logs;
    assert logs[..|c.logs|] == logs[..|ran.logs|][..|c.logs|];
    forall i | |c.logs| <= i < |logs| && logs[i].Closed?
      ensures logs[i].word == if i < |ran.logs| then Completed else WordFor(settled.status)
    {
      if i < |ran.logs| {
        assert logs[i] == logs[..|ran.logs|][i] == ran.logs[|c.logs|..][i - |c.logs|];
      } else {
        assert logs[i] == logs[|ran.logs|..][i - |ran.logs|];
      }
    }
  }

  lemma NoStageCompleted(c: Ctx, run: Run)
    requires c.status.Running? && c.registered
    requires !SetsPartial(run.cleanup) && !SetsPartial(run.notify)
    ensures var ran := Steps(Note(c, run.taken), StepsOf(run)).0;
            var settled := Settle(c, run);
            var end := WindDown(settled, run);
            && Grew(c.logs, ran.logs, Completed)
            && Grew(ran.logs, end.logs, WordFor(settled.status))
            && end.status == settled.status && end.aborted == settled.aborted
  {
    hide Acts, Steps, StepsOf, Grew, Enter;
    var steps, noted, settled := StepsOf(run), Note(c, run.taken), Settle(c, run);
    var ran, end := Steps(noted, steps).0, WindDown(settled, run);
    NoteGrows(c, run.taken, Completed);
    StepsGrow(noted, steps);
    GrewTwice(c.logs, noted.logs, ran.logs, Completed);
    SettleGrows(c, run);
    var word, quiet := WordFor(settled.status), Ask(Ask(settled, F.Flush(run.closed)).(registered := false), F.Dispose);
    var cleaned := Clean(settled, run);
    var final := Ask(cleaned, F.Finalize);
    ActsGrow(quiet, run.cleanup);
    ActsOutcome(quiet, run.cleanup);
    ActsGrow(final, run.notify);
    ActsOutcome(final, run.notify);
    GrewTwice(ran.logs, settled.logs, cleaned.logs, word);
    GrewTwice(ran.logs, cleaned.logs, end.logs, word);
  }

  lemma NoteGrows(c: Ctx, now: int, word: Word)
    ensures Grew(c.logs, Note(c, now).logs, word)
  {
  }

  lemma SettleGrows(c: Ctx, run: Run)
    requires WordFor(Steps(Note(c, run.taken), StepsOf(run)).0.status).Completed?
    ensures Grew(Steps(Note(c, run.taken), StepsOf(run)).0.logs, Settle(c, run).logs, WordFor(Settle(c, run).status))
  {
    hide Steps, StepsOf, Grew;
    var (ran, threw) := Steps(Note(c, run.taken), StepsOf(run));
    if threw {
      NoteGrows(ran.(status := Settle(c, run).status), run.closed, WordFor(Settle(c, run).status));
    } else {
      var closed := Enter(ran, COMPLETED, run.completed);
      EnterGrows(ran, COMPLETED, run.completed);
      NoteGrows(closed, run.closed, Completed);
      GrewTwice(ran.logs, closed.logs, Note(closed, run.closed).logs, Completed);
    }
  }

  // ------------------------------------------------ the log, action by action

  /** The stage a stretch of actions leaves: the last one set or reported. */
  function StageAfter(stage: string, actions: seq<Action>): string
    decreases |actions|
  {
    if actions == [] then stage
    else
      var last := |actions| - 1;
      match actions[last]
      case SetStage(to, _) => to
      case UpdateProgress(Some(to), _) => if to != "" then to else StageAfter(stage, actions[..last])
      case _ => StageAfter(stage, actions[..last])
  }

  function SetBefore(starts: map<string, int>, stage: string): Option<int> {
    if stage in starts then Some(starts[stage]) else None
  }

  /** When a stage was last set: in the actions, or else before them. */
  function SetAt(starts: map<string, int>, stage: string, actions: seq<Action>): Option<int>
    decreases |actions|
  {
    if actions == [] then SetBefore(starts, stage)
    else
      var last := |actions| - 1;
      match actions[last]
      case SetStage(to, now) => if to == stage then Some(now) else SetAt(starts, stage, actions[..last])
      case _ => SetAt(starts, stage, actions[..last])
  }

  /** A log line without its word: its stage and, where it closes one, the duration. */
  datatype Bare = Bare(stage: string, duration: Option<int>)

  function Bared(logs: seq<Entry>): seq<Bare> {
    seq(|logs|, i requires 0 <= i < |logs| =>
      match logs[i] case Line(stage) => Bare(stage, None) case Closed(stage, _, d) => Bare(stage, Some(d)))
  }

  /** The line an action adds after the actions before it. */
  function LineOf(stage: string, starts: map<string, int>, before: seq<Action>, a: Action): seq<Bare> {
    var current := StageAfter(stage, before);
    match a
    case Log(_) => [Bare(current, None)]
    case SetStage(to, now) =>
      (match SetAt(starts, current, before)
       case Some(since) => if since != 0 && current != to then [Bare(current, Some(now - since))] else []
       case None => [])
    case _ => []
  }

  function LinesOf(stage: string, starts: map<string, int>, actions: seq<Action>): seq<Bare>
    decreases |actions|
  {
    if actions == [] then []
    else
      var before := actions[..|actions| - 1];
      LinesOf(stage, starts, before) + LineOf(stage, starts, before, actions[|actions| - 1])
  }

  /** The stage, the times and the log are what these actions make of the first ones. */
  ghost predicate Follows(first: Ctx, c: Ctx, done: seq<Action>) {
    && c.stage == StageAfter(first.stage, done)
    && (forall stage :: SetBefore(c.starts, stage) == SetAt(first.starts, stage, done))
    && Bared(c.logs) == Bared(first.logs) + LinesOf(first.stage, first.starts, done)
  }

  lemma BaredInTwo(a: seq<Entry>, b: seq<Entry>)
    ensures Bared(a + b) == Bared(a) + Bared(b)
  {
  }

  lemma ActKeepsStage(stage: string, c: Ctx, done: seq<Action>, a: Action)
    requires c.stage == StageAfter(stage, done)
    ensures Act(c, a).stage == StageAfter(stage, done + [a])
  {
    var more := done + [a];
    assert more[..|more| - 1] == done && more[|more| - 1] == a;
  }

  lemma ActKeepsTime(starts: map<string, int>, c: Ctx, done: seq<Action>, a: Action, stage: string)
    requires SetBefore(c.starts, stage) == SetAt(starts, stage, done)
    ensures SetBefore(Act(c, a).starts, stage) == SetAt(starts, stage, done + [a])
  {
    var more := done + [a];
    assert more[..|more| - 1] == done && more[|more| - 1] == a;
  }

  lemma ActAddsLine(first: Ctx, c: Ctx, done: seq<Action>, a: Action)
    requires c.stage == StageAfter(first.stage, done)
    requires SetBefore(c.starts, c.stage) == SetAt(first.starts, c.stage, done)
    ensures Bared(Act(c, a).logs) == Bared(c.logs) + LineOf(first.stage, first.starts, done, a)
  {
    hide StageAfter, SetAt;
    match a {
      case SetStage(to, now) => EnterAddsLine(c, to, now);
      case Log(_) => BaredInTwo(c.logs, [Line(c.stage)]);
      case _ =>
    }
  }

  lemma EnterAddsLine(c: Ctx, to: string, now: int)
    ensures Bared(Enter(c, to, now).logs) == Bared(c.logs) +
            match SetBefore(c.starts, c.stage)
            case Some(since) => if since != 0 && c.stage != to then [Bare(c.stage, Some(now - since))] else []
            case None => []
  {
    var added := Enter(c, to, now).logs[|c.logs|..];
    assert Enter(c, to, now).logs == c.logs + added;
    BaredInTwo(c.logs, added);
  }

  lemma ActFollows(first: Ctx, c: Ctx, done: seq<Action>, a: Action)
    requires Follows(first, c, done)
    ensures Follows(first, Act(c, a), done + [a])
  {
    hide Act, StageAfter, SetAt, SetBefore, LineOf, Bared;
    var more := done + [a];
    assert more[..|more| - 1] == done && more[|more| - 1] == a;
    ActKeepsStage(first.stage, c, done, a);
    ActAddsLine(first, c, done, a);
    forall stage ensures SetBefore(Act(c, a).starts, stage) == SetAt(first.starts, stage, more) {
      ActKeepsTime(first.starts, c, done, a, stage);
    }
  }

  lemma {:induction false} ActsFollow(first: Ctx, c: Ctx, done: seq<Action>, actions: seq<Action>)
    requires Follows(first, c, done)
    ensures Follows(first, Acts(c, actions), done + actions)
    decreases |actions|
  {
    hide Follows, Act;
    if actions == [] {
      assert done + actions == done;
    } else {
      ActFollows(first, c, done, actions[0]);
      ActsFollow(first, Act(c, actions[0]), done + [actions[0]], actions[1..]);
      assert done + [actions[0]] + actions[1..] == done + actions;
    }
  }

  predicate AbortKnown(aborted: bool, actions: seq<Action>) {
    aborted || AbortRequest in actions
  }

  /** What the pipeline of a run does until it is through or stopped, and whether it was stopped. */
  function Pipeline(aborted: bool, run: Run): (seq<Action>, bool) {
    var initialized := [SetStage("Initializing", run.initializing)] + run.initialize.actions;
    if run.initialize.throws || AbortKnown(aborted, initialized) then (initialized, true)
    else
      var dumped := initialized + run.dump.actions;
      if run.dump.throws || AbortKnown(aborted, dumped) then (dumped, true)
      else
        var uploaded := dumped + run.upload.actions;
        if run.upload.throws || AbortKnown(aborted, uploaded) then (uploaded, true)
        else (uploaded + [SetStage("Applying Retention", run.retaining)] + run.retention.actions, run.retention.throws)
  }

  lemma {:induction false} ActsInTwo(c: Ctx, a: seq<Action>, b: seq<Action>)
    ensures Acts(c, a + b) == Acts(Acts(c, a), b)
    decreases |a|
  {
    hide Act;
    if a == [] {
      assert a + b == b;
    } else {
      assert (a + b)[1..] == a[1..] + b;
      ActsInTwo(Act(c, a[0]), a[1..], b);
    }
  }

  /** One step after what ran before it: its actions are appended. */
  lemma StepAppends(c: Ctx, before: seq<Action>, step: PipelineStep, later: seq<PipelineStep>)
    requires c.registered
    ensures var actions := before + (if step.stage.Some? then [SetStage(step.stage.value, step.now)] else [])
                           + step.script.actions;
            Steps(Acts(c, before), [step] + later) ==
              if step.script.throws || (step.checked && AbortKnown(c.aborted, actions)) then (Acts(c, actions), true)
              else Steps(Acts(c, actions), later)
  {
    hide Act;
    var ran := Acts(c, before);
    var entering := if step.stage.Some? then [SetStage(step.stage.value, step.now)] else [];
    var entered := if step.stage.Some? then Enter(ran, step.stage.value, step.now) else ran;
    EntersByAct(ran, step);
    ActsInTwo(c, before, entering);
    ActsInTwo(c, before + entering, step.script.actions);
    ActsOutcome(c, before + entering + step.script.actions);
    assert ([step] + later)[0] == step && ([step] + later)[1..] == later;
  }

  lemma EntersByAct(c: Ctx, step: PipelineStep)
    ensures Acts(c, if step.stage.Some? then [SetStage(step.stage.value, step.now)] else [])
            == if step.stage.Some? then Enter(c, step.stage.value, step.now) else c
  {
    if step.stage.Some? {
      assert [SetStage(step.stage.value, step.now)][1..] == [];
    }
  }

  /** The pipeline of a run: initialization, the dump, the upload and retention, the last one unchecked. */
  lemma PipelineOfRun(c: Ctx, run: Run)
    requires c.registered
    ensures var (actions, stopped) := Pipeline(c.aborted, run);
            Steps(c, StepsOf(run)) == (Acts(c, actions), stopped)
  {
    hide Acts, Steps, AbortKnown;
    var s0, s3 := PipelineStep(Some(INITIALIZING), run.initializing, run.initialize, true),
                  PipelineStep(Some(RETENTION), run.retaining, run.retention, false);
    var s1, s2 := PipelineStep(None, 0, run.dump, true), PipelineStep(None, 0, run.upload, true);
    var initialized := [SetStage("Initializing", run.initializing)] + run.initialize.actions;
    var dumped, uploaded := initialized + run.dump.actions, initialized + run.dump.actions + run.upload.actions;
    assert StepsOf(run) == [s0] + ([s1] + ([s2] + ([s3] + [])));
    assert [] + [SetStage("Initializing", run.initializing)] == [SetStage("Initializing", run.initializing)];
    assert initialized + [] == initialized && dumped + [] == dumped;
    EntersByAct(c, s1);
    StepAppends(c, [], s0, [s1] + ([s2] + ([s3] + [])));
    StepAppends(c, initialized, s1, [s2] + ([s3] + []));
    StepAppends(c, dumped, s2, [s3] + []);
    StepAppends(c, uploaded, s3, []);
    NoMoreSteps(Acts(c, uploaded + [SetStage("Applying Retention", run.retaining)] + run.retention.actions));
  }

  lemma NoMoreSteps(c: Ctx)
    ensures Steps(c, []) == (c, false)
  {
  }

  /** What a run does up to its closing line. */
  function UpToClosing(aborted: bool, run: Run): seq<Action> {
    var (actions, stopped) := Pipeline(aborted, run);
    [Log(run.taken)] + actions + (if stopped then [] else [SetStage("Completed", run.completed)]) + [Log(run.closed)]
  }

  /**
   * The log of a whole run, words aside: each stage that is left is closed under its own name with the time
   * since it was set, and every line stands under the stage of its moment.
   */
  lemma LogOfRun(c: Ctx, run: Run)
    requires c.registered
    ensures var end, done := WindDown(Settle(c, run), run), UpToClosing(c.aborted, run) + run.cleanup + run.notify;
            && Bared(end.logs) == Bared(c.logs) + LinesOf(c.stage, c.starts, done)
            && end.stage == StageAfter(c.stage, done)
  {
    hide Acts, Settle, UpToClosing, Follows;
    var settled, done := Settle(c, run), UpToClosing(c.aborted, run);
    SettleFollows(c, run);
    var quiet := Ask(Ask(settled, F.Flush(run.closed)).(registered := false), F.Dispose);
    OtherFieldsFollow(c, settled, quiet, done);
    ActsFollow(c, quiet, done, run.cleanup);
    var cleaned := Clean(settled, run);
    OtherFieldsFollow(c, cleaned, Ask(cleaned, F.Finalize), done + run.cleanup);
    ActsFollow(c, Ask(cleaned, F.Finalize), done + run.cleanup, run.notify);
    FollowsMeans(c, WindDown(settled, run), done + run.cleanup + run.notify);
  }

  lemma SettleFollows(c: Ctx, run: Run)
    requires c.registered
    ensures Follows(c, Settle(c, run), UpToClosing(c.aborted, run))
  {
    hide Acts, Steps, StepsOf, Enter, Note, Follows, Pipeline;
    var (actions, stopped) := Pipeline(c.aborted, run);
    var noted, settled := Note(c, run.taken), Settle(c, run);
    FollowsItself(c);
    LogFollows(c, c, [], run.taken);
    assert [] + [Log(run.taken)] == [Log(run.taken)];
    NoteKeepsOutcome(c, run.taken);
    PipelineOfRun(noted, run);
    ActsFollow(c, noted, [Log(run.taken)], actions);
    var ran, done := Acts(noted, actions), [Log(run.taken)] + actions;
    if stopped {
      assert done + [] == done;
      OtherFieldsFollow(c, ran, ran.(status := if ran.aborted then Cancelled else Failed), done);
      LogFollows(c, ran.(status := if ran.aborted then Cancelled else Failed), done, run.closed);
    } else {
      var closed := Enter(ran, COMPLETED, run.completed);
      StageFollows(c, ran, done, run.completed);
      done := done + [SetStage("Completed", run.completed)];
      var status := if closed.status.Running? then Success else closed.status;
      OtherFieldsFollow(c, closed, closed.(status := status), done);
      LogFollows(c, closed.(status := status), done, run.closed);
    }
  }

  lemma NoteKeepsOutcome(c: Ctx, now: int)
    ensures Note(c, now).registered == c.registered && Note(c, now).aborted == c.aborted
  {
  }

  lemma FollowsItself(c: Ctx)
    ensures Follows(c, c, [])
  {
  }

  lemma FollowsMeans(first: Ctx, c: Ctx, done: seq<Action>)
    requires Follows(first, c, done)
    ensures c.stage == StageAfter(first.stage, done)
    ensures Bared(c.logs) == Bared(first.logs) + LinesOf(first.stage, first.starts, done)
  {
  }

  lemma OtherFieldsFollow(first: Ctx, c: Ctx, d: Ctx, done: seq<Action>)
    requires Follows(first, c, done)
    requires d == c.(status := d.status, registered := d.registered, asked := d.asked)
    ensures Follows(first, d, done)
  {
  }

  lemma LogFollows(first: Ctx, c: Ctx, done: seq<Action>, now: int)
    requires Follows(first, c, done)
    ensures Follows(first, Note(c, now), done + [Log(now)])
  {
    hide Follows;
    ActFollows(first, c, done, Log(now));
  }

  lemma StageFollows(first: Ctx, c: Ctx, done: seq<Action>, now: int)
    requires Follows(first, c, done)
    ensures Follows(first, Enter(c, COMPLETED, now), done + [SetStage("Completed", now)])
  {
    hide Follows;
    ActFollows(first, c, done, SetStage("Completed", now));
  }

  // ------------------------------------------------ the run and its flusher

  /** Neither a log line nor a stage change nor progress. */
  predicate Silent(actions: seq<Action>) {
    forall a :: a in actions ==> SilentOne(a)
  }

  predicate SilentOne(a: Action) {
    a.SetPartial? || a.AbortRequest?
  }

  lemma ActAsks(c: Ctx, a: Action) returns (notes: seq<F.Event>)
    ensures Act(c, a).asked == c.asked + notes && F.Notes(notes) && (notes == [] <==> SilentOne(a))
  {
    notes := match a
             case SetStage(_, now) => [F.Note(now)]
             case UpdateProgress(_, now) => [F.Note(now)]
             case Log(now) => [F.Note(now)]
             case _ => [];
  }

  lemma {:induction false} ActsAsk(c: Ctx, actions: seq<Action>) returns (notes: seq<F.Event>)
    ensures Acts(c, actions).asked == c.asked + notes && F.Notes(notes) && (notes == [] <==> Silent(actions))
    decreases |actions|
  {
    hide Act, SilentOne;
    if actions == [] {
      notes := [];
    } else {
      var first := ActAsks(c, actions[0]);
      var later := ActsAsk(Act(c, actions[0]), actions[1..]);
      notes := first + later;
      assert actions[0] in actions && forall a :: a in actions <==> a == actions[0] || a in actions[1..];
    }
  }

  lemma {:induction false} StepsAsk(c: Ctx, steps: seq<PipelineStep>) returns (notes: seq<F.Event>)
    ensures Steps(c, steps).0.asked == c.asked + notes && F.Notes(notes)
    decreases |steps|
  {
    hide Acts, Enter;
    if steps == [] {
      notes := [];
    } else {
      var step := steps[0];
      var entered := if step.stage.Some? then Enter(c, step.stage.value, step.now) else c;
      EnterAsks(c, step);
      var first := if step.stage.Some? then [F.Note(step.now)] else [];
      var acted := ActsAsk(entered, step.script.actions);
      var ran := Acts(entered, step.script.actions);
      notes := first + acted;
      if !(step.script.throws || (step.checked && ran.aborted)) {
        var later := StepsAsk(ran, steps[1..]);
        notes := notes + later;
      }
    }
  }

  lemma EnterAsks(c: Ctx, step: PipelineStep)
    ensures var entered := if step.stage.Some? then Enter(c, step.stage.value, step.now) else c;
            entered.asked == c.asked + if step.stage.Some? then [F.Note(step.now)] else []
  {
  }

  /**
   * What every run asks of its flusher, in this order: notes, the closing line, the flush, disposal, what
   * cleaning up logs, the final row, and what notifying logs.
   */
  lemma AskedInOrder(c: Ctx, run: Run)
    returns (before: seq<F.Event>, cleaning: seq<F.Event>, notifying: seq<F.Event>)
    ensures Settle(c, run).asked == c.asked + before + [F.Note(run.closed)]
    ensures WindDown(Settle(c, run), run).asked ==
            c.asked + before + [F.Note(run.closed), F.Flush(run.closed), F.Dispose] + cleaning
            + [F.Finalize] + notifying
    ensures F.Notes(before) && F.Notes(cleaning) && F.Notes(notifying)
    ensures (cleaning == [] <==> Silent(run.cleanup)) && (notifying == [] <==> Silent(run.notify))
  {
    hide Acts, Steps, StepsOf, Enter;
    var first := Note(c, run.taken);
    var (ran, threw) := Steps(first, StepsOf(run));
    var stepped := StepsAsk(first, StepsOf(run));
    before := [F.Note(run.taken)] + stepped;
    if !threw {
      EnterAsks(ran, PipelineStep(Some(COMPLETED), run.completed, run.initialize, false));
      before := before + [F.Note(run.completed)];
    }
    var settled := Settle(c, run);
    var disposed := Ask(Ask(settled, F.Flush(run.closed)).(registered := false), F.Dispose);
    cleaning := ActsAsk(disposed, run.cleanup);
    notifying := ActsAsk(Ask(Clean(settled, run), F.Finalize), run.notify);
    assert settled.asked == c.asked + before + [F.Note(run.closed)];
  }

  /**
   * A run that fails while initializing, its closing line an interval after its last write: everything is
   * asked for in the right order, and still progress lands on the final row.
   */
  lemma FailingRunOverwritten(interval: int) returns (run: Run, events: seq<F.Event>)
    requires interval > 0
    ensures var c := Ctx(Running, INITIALIZING, map[], [], true, false, []);
            && Settle(c, run).status == Failed && Silent(run.cleanup) && Silent(run.notify)
            && F.Requests(events) == WindDown(Settle(c, run), run).asked
    ensures F.Possible(interval, F.START, events) && !F.FinalStands(F.After(interval, F.START, events))
  {
    var t, none := interval, Script([], false);
    run := Run(Script([], true), none, none, none, [], [], t, t, t, t, 3 * t);
    var e1, e2, e3, e4, e5 := F.Note(t), F.Settle(0, t, true), F.Note(t), F.Fire(2 * t), F.Settle(0, 2 * t, true);
    var e6, e7, e8, e9, e10 := F.Note(3 * t), F.Flush(3 * t), F.Dispose, F.Finalize, F.Settle(0, 3 * t, true);
    var rest := [e6, e7, e8, e9, e10];
    events := [e1, e2] + ([e3, e4] + ([e5] + rest));
    FailingRunAsks(run, t);
    var w1 := F.Step(interval, F.START, e1);
    var w2 := F.Step(interval, w1, e2);
    assert w2 == F.World(false, false, false, t, 1, 1, [], [F.Progress(1)]);
    var w4 := F.Step(interval, F.Step(interval, w2, e3), e4);
    assert w4 == F.World(false, true, false, 2 * t, 2, 2, [F.Write(F.First, 2)], [F.Progress(1)]);
    var w5 := F.Step(interval, w4, e5);
    assert w5 == F.World(false, false, false, 2 * t, 2, 2, [], [F.Progress(1), F.Progress(2)]);
    ClosingOverwritten(interval, w5, t);
    assert ([e5] + rest)[1..] == rest;
    F.TwoFirst(interval, w2, e3, e4, [e5] + rest);
    F.TwoFirst(interval, F.START, e1, e2, [e3, e4] + ([e5] + rest));
    RequestsOfFailing(e1, e2, e3, e4, e5, rest);
    RequestsOfClosing(e6, e7, e8, e9, e10);
  }

  lemma ClosingOverwritten(interval: int, w: F.World, t: int)
    requires interval > 0 && t == interval
    requires w == F.World(false, false, false, 2 * t, 2, 2, [], [F.Progress(1), F.Progress(2)])
    ensures var rest := [F.Note(3 * t), F.Flush(3 * t), F.Dispose, F.Finalize, F.Settle(0, 3 * t, true)];
            F.Possible(interval, w, rest) && !F.FinalStands(F.After(interval, w, rest))
  {
    var e6, e7, e8, e9, e10 := F.Note(3 * t), F.Flush(3 * t), F.Dispose, F.Finalize, F.Settle(0, 3 * t, true);
    var w7 := F.Step(interval, F.Step(interval, w, e6), e7);
    assert w7 == F.World(false, true, true, 3 * t, 3, 3, [F.Write(F.First, 3)], [F.Progress(1), F.Progress(2)]);
    var w9 := F.Step(interval, F.Step(interval, w7, e8), e9);
    assert w9 == w7.(row := [F.Progress(1), F.Progress(2), F.Final]);
    var w10 := F.Step(interval, w9, e10);
    assert w10.row[2].Final? && !w10.row[3].Final?;
    assert [e10][1..] == [] && F.Possible(interval, w10, []) && F.After(interval, w9, [e10]) == w10;
    F.TwoFirst(interval, w7, e8, e9, [e10]);
    F.TwoFirst(interval, w, e6, e7, [e8, e9] + [e10]);
    assert [e6, e7] + ([e8, e9] + [e10]) == [e6, e7, e8, e9, e10];
  }

  lemma FailingRunAsks(run: Run, t: int)
    requires run.initialize == Script([], true) && run.cleanup == run.notify == []
    requires run.taken == run.initializing == t && run.closed == 3 * t
    ensures var c := Ctx(Running, INITIALIZING, map[], [], true, false, []);
            && Settle(c, run).status == Failed
            && WindDown(Settle(c, run), run).asked ==
               [F.Note(t), F.Note(t), F.Note(3 * t), F.Flush(3 * t), F.Dispose, F.Finalize]
  {
  }

  lemma RequestsOfClosing(e1: F.Event, e2: F.Event, e3: F.Event, e4: F.Event, e5: F.Event)
    requires !e1.Fire? && !e2.Fire? && !e3.Fire? && !e4.Fire? && e5.Settle?
    requires !e1.Settle? && !e2.Settle? && !e3.Settle? && !e4.Settle?
    ensures F.Requests([e1, e2, e3, e4, e5]) == [e1, e2, e3, e4]
  {
    hide F.Requests;
    F.RequestsInTwo([e1, e2], [e3, e4, e5]);
    F.RequestsInTwo([e3, e4], [e5]);
    RequestsOfTwo(e1, e2);
    RequestsOfTwo(e3, e4);
    RequestsOfTwo(e4, e5);
    assert [e1, e2] + [e3, e4, e5] == [e1, e2, e3, e4, e5] && [e3, e4] + [e5] == [e3, e4, e5];
  }

  lemma RequestsOfFailing(e1: F.Event, e2: F.Event, e3: F.Event, e4: F.Event, e5: F.Event, rest: seq<F.Event>)
    requires e1.Note? && e2.Settle? && e3.Note? && e4.Fire? && e5.Settle?
    ensures F.Requests([e1, e2] + ([e3, e4] + ([e5] + rest))) == [e1, e3] + F.Requests(rest)
  {
    hide F.Requests;
    F.RequestsInTwo([e1, e2], [e3, e4] + ([e5] + rest));
    F.RequestsInTwo([e3, e4], [e5] + rest);
    F.RequestsInTwo([e5], rest);
    RequestsOfTwo(e1, e2);
    RequestsOfTwo(e3, e4);
    RequestsOfTwo(e5, e5);
    assert [e1] + ([e3] + ([] + F.Requests(rest))) == [e1, e3] + F.Requests(rest);
  }

  lemma RequestsOfTwo(e: F.Event, f: F.Event)
    ensures F.Requests([e]) == if e.Fire? || e.Settle? then [] else [e]
    ensures F.Requests([e, f]) == F.Requests([e]) + F.Requests([f])
    ensures F.Requests([f]) == if f.Fire? || f.Settle? then [] else [f]
  {
    assert [e][1..] == [] && [f][1..] == [] && [e, f][1..] == [f];
  }

  /** What a run still asks of its flusher after the closing line, the flush and disposal. */
  function AskedLast(c: Ctx, run: Run): seq<F.Event>
    requires |WindDown(Settle(c, run), run).asked| >= |Settle(c, run).asked| + 2
  {
    WindDown(Settle(c, run), run).asked[|Settle(c, run).asked| + 2..]
  }

  /**
   * For every run, however its requests interleaved with the flusher's writes up to the closing line: the
   * final row stands to the very end if and only if clean-up and notifications log nothing, no write is
   * under way at that line, and it starts none.
   */
  lemma FinalRowOfRun(interval: int, c: Ctx, run: Run, early: seq<F.Event>)
    requires c.asked == [] && F.Possible(interval, F.START, early)
    requires F.Requests(early) + [F.Note(run.closed)] == Settle(c, run).asked
    ensures |WindDown(Settle(c, run), run).asked| >= |Settle(c, run).asked| + 2
    ensures var w := F.After(interval, F.START, early);
            F.FinalStandsAfter(interval, w, run.closed, AskedLast(c, run)) <==>
            && Silent(run.cleanup) && Silent(run.notify)
            && w.writes == [] && (w.timer || run.closed - w.lastWrite < interval)
  {
    hide Settle, WindDown, F.FinalStandsAfter, F.Notes, Silent;
    var before, cleaning, notifying := AskedInOrder(c, run);
    assert WindDown(Settle(c, run), run).asked ==
           Settle(c, run).asked + [F.Flush(run.closed), F.Dispose] + (cleaning + [F.Finalize] + notifying);
    assert AskedLast(c, run) == cleaning + [F.Finalize] + notifying;
    assert F.Requests(early) == Settle(c, run).asked[..|Settle(c, run).asked| - 1] == before;
    F.SingleFlight(interval, F.START, early);
    NoFinalYet(interval, F.START, early);
    F.FinalStandsExactly(interval, F.After(interval, F.START, early), run.closed, cleaning, notifying);
  }

  lemma {:induction false} NoFinalYet(interval: int, w: F.World, events: seq<F.Event>)
    requires F.Possible(interval, w, events) && F.Notes(F.Requests(events)) && F.Final !in w.row
    ensures F.Final !in F.After(interval, w, events).row
    decreases |events|
  {
    if events != [] {
      var first := if events[0].Fire? || events[0].Settle? then [] else [events[0]];
      assert F.Requests(events) == first + F.Requests(events[1..]);
      assert forall e :: e in F.Requests(events[1..]) ==> e in F.Requests(events);
      assert first != [] ==> first[0] in F.Requests(events);
      NoFinalYet(interval, F.Step(interval, w, events[0]), events[1..]);
    }
  }
}
