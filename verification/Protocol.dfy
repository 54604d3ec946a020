/**
 Runs of the four tasks, any number of them at once, on the same buckets: a transition
 system whose steps interleave freely and may fail, repeat or stop anywhere.
 */
module Protocol {
  import opened Wrappers
  import opened Documents
  import opened Layout
  import opened Libraries
  import opened Sanitising
  import opened Tasks

  /** A run of a task: how often it has been retried, its input once it has it, and how much of its plan it has done. */
  datatype Run = Run(task: Task, retries: nat, input: Option<Object>, done: nat, live: bool)

  datatype Event = Event(run: nat, effect: Effect)

  datatype State = State(objects: map<Key, Object>, runs: map<nat, Run>, log: seq<Event>)

  const MAX_RETRIES: nat := 3

  datatype Step =
    | Arrive(key: Key, stored: Object)  // something is put in a bucket from outside
    | Start(run: nat, task: Task)       // a task is delivered, perhaps not for the first time
    | Move(run: nat, move: Move)        // a run goes on

  datatype Move =
    | Download                     // its input is read, if it is there
    | Render(letter: Document)     // its letter is made from the template
    | RenderFails                  // it is not, and the task is retried unless it has been too often
    | Act                          // the next action of its plan succeeds
    | Stop                         // an S3 step fails, or the worker dies

  type Planner = (Task, Blob) -> seq<Action>

  /** The planner of the program. */
  function PlannerOf(lib: Library): Planner {
    (task, input) => Plan(lib, task, input)
  }

  /** Letters to scan are written once; only three buckets are filled by others. */
  predicate MayArrive(s: State, key: Key) {
    (key.0 == Scan && key !in s.objects) || key.0 == Backup || key.0 == Attachments
  }

  function Next(plan: Planner, s: State, step: Step): State {
    match step
    case Arrive(key, stored) => if MayArrive(s, key) then s.(objects := s.objects[key := stored]) else s
    case Start(r, task) => if r in s.runs then s else s.(runs := s.runs[r := Run(task, 0, None, 0, true)])
    case Move(r, move) =>
      if r !in s.runs || !s.runs[r].live then s
      else if move.Act? && s.runs[r].input.Some? then ActOf(plan, s, r, s.runs[r])
      else s.(runs := s.runs[r := Moved(s, s.runs[r], move)])
  }

  /** What becomes of a run by a move that does nothing to buckets and queues. */
  function Moved(s: State, run: Run, move: Move): Run {
    match move
    case Download =>
      var source := Source(run.task);
      if source.None? || run.input.Some? then run
      else if source.value !in s.objects then run.(live := false)
      else run.(input := Some(s.objects[source.value]))
    case Render(letter) =>
      if !run.task.CreateTemplated? || run.input.Some? then run
      else run.(input := Some(Object(Pdf(letter), NoMetadata)))
    case RenderFails =>
      if !run.task.CreateTemplated? || run.input.Some? then run
      else if run.retries < MAX_RETRIES then run.(retries := run.retries + 1)
      else run.(live := false)
    case Act => run
    case Stop => run.(live := false)
  }

  /** The next action of a run's plan; a copy of what is not there fails. */
  function ActOf(plan: Planner, s: State, r: nat, run: Run): State
    requires run.input.Some?
  {
    var actions := plan(run.task, run.input.value.data);
    if run.done >= |actions| then s.(runs := s.runs[r := run.(live := false)])
    else
      var runs := s.runs[r := run.(done := run.done + 1)];
      match actions[run.done]
      case Put(key, stored) => State(s.objects[key := stored], runs, s.log + [Event(r, Wrote(key, stored))])
      case Send(message) => State(s.objects, runs, s.log + [Event(r, Sent(message))])
      case Copy(from, key) =>
        if from !in s.objects then s.(runs := s.runs[r := run.(live := false)])
        else State(s.objects[key := s.objects[from]], runs, s.log + [Event(r, Wrote(key, s.objects[from]))])
  }

  function Execute(plan: Planner, s: State, steps: seq<Step>): State {
    if steps == [] then s else Next(plan, Execute(plan, s, steps[..|steps| - 1]), steps[|steps| - 1])
  }

  /** What one run has done, in order. */
  function History(log: seq<Event>, r: nat): seq<Effect> {
    if log == [] then []
    else
      var last := log[|log| - 1];
      History(log[..|log| - 1], r) + (if last.run == r then [last.effect] else [])
  }

  // ---- What is kept ----

  /** Pages of objects are within the limit, or beyond it, as their bucket says. */
  predicate ObjectOk(key: Key, stored: Object) {
    match key.0
    case LettersPdf => stored.data.Pdf? && |stored.data.document.pages| <= LETTER_MAX_PAGE_COUNT
    case TestLetters => stored.data.Pdf? && |stored.data.document.pages| <= LETTER_MAX_PAGE_COUNT
    case Sanitised => stored.data.Pdf? && |stored.data.document.pages| <= LETTER_MAX_PAGE_COUNT
    case InvalidPdf => stored.data.Pdf? && |stored.data.document.pages| > LETTER_MAX_PAGE_COUNT
    case _ => true
  }

  predicate BucketsOk(objects: map<Key, Object>) {
    forall key :: key in objects ==> ObjectOk(key, objects[key])
  }

  /** A letter to be copied is still what the run has read. */
  ghost predicate InputKept(objects: map<Key, Object>, run: Run) {
    run.input.Some? ==>
      && (run.task.SanitiseAndUpload? ==>
            (Scan, run.task.filename) in objects && objects[(Scan, run.task.filename)] == run.input.value)
      && (run.task.CreateTemplated? ==> run.input.value.data.Pdf?)
  }

  /** What a run has done is the beginning of its plan. */
  ghost predicate OnPlan(plan: Planner, run: Run, history: seq<Effect>) {
    && run.retries <= MAX_RETRIES
    && if run.input.None? then run.done == 0 && history == []
       else var actions := plan(run.task, run.input.value.data);
            run.done <= |actions| && history == Effects(actions, run.input.value)[..run.done]
  }

  ghost predicate Inv(plan: Planner, s: State) {
    && BucketsOk(s.objects)
    && (forall r :: r in s.runs ==> InputKept(s.objects, s.runs[r]))
    && (forall r :: r in s.runs ==> OnPlan(plan, s.runs[r], History(s.log, r)))
    && (forall r :: r !in s.runs ==> History(s.log, r) == [])
  }

  /**
   Actions that any task may plan: no writing to the scan bucket, into the backup bucket only a copy of its own input
   under its own id, and pages as the bucket says.
   */
  predicate ActionOk(task: Task, action: Action) {
    match action
    case Put(key, stored) => key.0 != Scan && key.0 != Backup && ObjectOk(key, stored)
    case Copy(from, key) =>
      task.SanitiseAndUpload? && from == (Scan, task.filename) && key == (Backup, task.notificationId + ".pdf")
    case Send(_) => true
  }

  ghost predicate PlannerOk(plan: Planner) {
    forall task, input, i :: 0 <= i < |plan(task, input)| && (task.CreateTemplated? ==> input.Pdf?) ==>
                               ActionOk(task, plan(task, input)[i])
  }

  lemma HistorySnoc(log: seq<Event>, event: Event, r: nat)
    ensures History(log + [event], r) == History(log, r) + (if event.run == r then [event.effect] else [])
  {
    assert (log + [event])[..|log|] == log;
  }

  ghost predicate ObjectsKept(objects: map<Key, Object>, runs: map<nat, Run>) {
    BucketsOk(objects) && forall r :: r in runs ==> InputKept(objects, runs[r])
  }

  lemma WritingKeeps(objects: map<Key, Object>, runs: map<nat, Run>, key: Key, stored: Object)
    requires ObjectsKept(objects, runs)
    requires ObjectOk(key, stored) && (key.0 == Scan ==> key !in objects)
    ensures ObjectsKept(objects[key := stored], runs)
  {
    forall r | r in runs
      ensures InputKept(objects[key := stored], runs[r])
    {
      assert InputKept(objects, runs[r]);
    }
  }

  lemma ActKeepsObjects(plan: Planner, s: State, r: nat)
    requires PlannerOk(plan) && Inv(plan, s)
    requires r in s.runs && s.runs[r].live && s.runs[r].input.Some?
    ensures ObjectsKept(ActOf(plan, s, r, s.runs[r]).objects, s.runs)
  {
    var run := s.runs[r];
    var actions := plan(run.task, run.input.value.data);
    assert InputKept(s.objects, run);
    if run.done < |actions| {
      assert ActionOk(run.task, actions[run.done]);
      match actions[run.done]
      case Put(key, stored) => WritingKeeps(s.objects, s.runs, key, stored);
      case Copy(from, key) => WritingKeeps(s.objects, s.runs, key, s.objects[from]);
      case Send(_) =>
    }
  }

  lemma OneMoreDone(plan: Planner, run: Run, history: seq<Effect>)
    requires OnPlan(plan, run, history) && run.input.Some?
    requires run.done < |plan(run.task, run.input.value.data)|
    ensures OnPlan(plan, run.(done := run.done + 1),
                   history + [EffectOf(plan(run.task, run.input.value.data)[run.done], run.input.value)])
  {
    var effects := Effects(plan(run.task, run.input.value.data), run.input.value);
    assert effects[..run.done + 1] == effects[..run.done] + [effects[run.done]];
  }

  lemma LogKeeps(plan: Planner, s: State, r: nat)
    requires Inv(plan, s) && r in s.runs && s.runs[r].input.Some?
    requires s.runs[r].done < |plan(s.runs[r].task, s.runs[r].input.value.data)|
    ensures var run := s.runs[r];
            var effect := EffectOf(plan(run.task, run.input.value.data)[run.done], run.input.value);
            var runs, log := s.runs[r := run.(done := run.done + 1)], s.log + [Event(r, effect)];
            && (forall q :: q in runs ==> OnPlan(plan, runs[q], History(log, q)))
            && (forall q :: q !in runs ==> History(log, q) == [])
  {
    var run := s.runs[r];
    var event := Event(r, EffectOf(plan(run.task, run.input.value.data)[run.done], run.input.value));
    OneMoreDone(plan, run, History(s.log, r));
    forall q
      ensures q != r ==> History(s.log + [event], q) == History(s.log, q)
      ensures q == r ==> History(s.log + [event], q) == History(s.log, q) + [event.effect]
    {
      HistorySnoc(s.log, event, q);
    }
  }

  /** A step that changes at most one run, but neither buckets nor log. */
  lemma RunChangeKeeps(plan: Planner, s: State, r: nat, run: Run)
    requires Inv(plan, s)
    requires InputKept(s.objects, run) && OnPlan(plan, run, History(s.log, r))
    ensures Inv(plan, s.(runs := s.runs[r := run]))
  {
  }

  /** A run that has done all of its plan, or that is to copy what is not there, ends. */
  lemma EndingKeeps(plan: Planner, s: State, r: nat)
    requires Inv(plan, s) && r in s.runs
    ensures Inv(plan, s.(runs := s.runs[r := s.runs[r].(live := false)]))
  {
    assert InputKept(s.objects, s.runs[r]) && OnPlan(plan, s.runs[r], History(s.log, r));
    RunChangeKeeps(plan, s, r, s.runs[r].(live := false));
  }

  /** A run that has performed an action: what it has done is one more of its plan. */
  lemma PerformingKeeps(plan: Planner, s: State, r: nat, objects: map<Key, Object>)
    requires Inv(plan, s) && r in s.runs && s.runs[r].input.Some?
    requires s.runs[r].done < |plan(s.runs[r].task, s.runs[r].input.value.data)|
    requires ObjectsKept(objects, s.runs)
    ensures var run := s.runs[r];
            var effect := EffectOf(plan(run.task, run.input.value.data)[run.done], run.input.value);
            Inv(plan, State(objects, s.runs[r := run.(done := run.done + 1)], s.log + [Event(r, effect)]))
  {
    assert InputKept(objects, s.runs[r]);
    LogKeeps(plan, s, r);
  }

  /** An action that may be planned does not fail for want of what it copies. */
  lemma ActOfIs(plan: Planner, s: State, r: nat, run: Run)
    requires run.input.Some? && run.done < |plan(run.task, run.input.value.data)|
    requires ActionOk(run.task, plan(run.task, run.input.value.data)[run.done]) && InputKept(s.objects, run)
    ensures ActOf(plan, s, r, run)
         == State(ActOf(plan, s, r, run).objects, s.runs[r := run.(done := run.done + 1)],
                  s.log + [Event(r, EffectOf(plan(run.task, run.input.value.data)[run.done], run.input.value))])
  {
  }

  /** A step that performs the next action of a plan. */
  lemma ActKeeps(plan: Planner, s: State, r: nat)
    requires PlannerOk(plan) && Inv(plan, s)
    requires r in s.runs && s.runs[r].live && s.runs[r].input.Some?
    ensures Inv(plan, ActOf(plan, s, r, s.runs[r]))
  {
    var run := s.runs[r];
    var actions := plan(run.task, run.input.value.data);
    if run.done >= |actions| {
      EndingKeeps(plan, s, r);
    } else {
      assert InputKept(s.objects, run);
      assert ActionOk(run.task, actions[run.done]);
      ActOfIs(plan, s, r, run);
      ActKeepsObjects(plan, s, r);
      PerformingKeeps(plan, s, r, ActOf(plan, s, r, run).objects);
    }
  }

  lemma NextKeeps(plan: Planner, s: State, step: Step)
    requires PlannerOk(plan) && Inv(plan, s)
    ensures Inv(plan, Next(plan, s, step))
  {
    match step
    case Arrive(key, stored) =>
      if MayArrive(s, key) {
        WritingKeeps(s.objects, s.runs, key, stored);
      }
    case Start(r, task) =>
      if r !in s.runs {
        RunChangeKeeps(plan, s, r, Run(task, 0, None, 0, true));
      }
    case Move(r, move) =>
      if r in s.runs && s.runs[r].live {
        if move.Act? && s.runs[r].input.Some? {
          ActKeeps(plan, s, r);
        } else {
          assert InputKept(s.objects, s.runs[r]) && OnPlan(plan, s.runs[r], History(s.log, r));
          RunChangeKeeps(plan, s, r, Moved(s, s.runs[r], move));
        }
      }
  }

  /** Nothing has run yet, and the buckets are in order. */
  ghost predicate Initial(s: State) {
    s.runs == map[] && s.log == [] && BucketsOk(s.objects)
  }

  lemma ExecuteKeeps(plan: Planner, s: State, steps: seq<Step>)
    requires PlannerOk(plan) && Initial(s)
    ensures Inv(plan, Execute(plan, s, steps))
  {
    KeepsOn(plan, s, steps);
  }

  lemma ExecuteSnoc(plan: Planner, s: State, steps: seq<Step>, step: Step)
    ensures Execute(plan, s, steps + [step]) == Next(plan, Execute(plan, s, steps), step)
  {
    assert (steps + [step])[..|steps|] == steps;
  }

  lemma {:induction false} ExecuteConcat(plan: Planner, s: State, a: seq<Step>, b: seq<Step>)
    ensures Execute(plan, s, a + b) == Execute(plan, Execute(plan, s, a), b)
  {
    if b == [] {
      assert a + b == a;
    } else {
      assert (a + b)[..|a + b| - 1] == a + b[..|b| - 1];
      ExecuteConcat(plan, s, a, b[..|b| - 1]);
    }
  }

  // ---- A run by itself ----

  function Acts(r: nat, n: nat): seq<Step> {
    if n == 0 then [] else Acts(r, n - 1) + [Move(r, Act)]
  }

  /** The run is live, has its input, and has done so much of its plan. */
  ghost predicate Acting(plan: Planner, s: State, r: nat, task: Task, input: Object, done: nat) {
    && r in s.runs && s.runs[r] == Run(task, s.runs[r].retries, Some(input), done, true)
    && done <= |plan(task, input.data)|
  }

  function ViewOf(s: State, r: nat): View {
    View(s.objects, History(s.log, r))
  }

  lemma ActDoesNext(plan: Planner, s: State, r: nat, task: Task, input: Object, n: nat)
    requires PlannerOk(plan) && Inv(plan, s) && Acting(plan, s, r, task, input, n) && n < |plan(task, input.data)|
    ensures var next, effect := Next(plan, s, Move(r, Act)), EffectOf(plan(task, input.data)[n], input);
            && Acting(plan, next, r, task, input, n + 1)
            && ViewOf(next, r) == View(if effect.Wrote? then s.objects[effect.key := effect.stored] else s.objects,
                                       History(s.log, r) + [effect])
  {
    assert InputKept(s.objects, s.runs[r]);
    assert ActionOk(task, plan(task, input.data)[n]);
    ActOfIs(plan, s, r, s.runs[r]);
    HistorySnoc(s.log, Event(r, EffectOf(plan(task, input.data)[n], input)), r);
  }

  /** A run that nothing comes between carries out its plan, action by action, as the code does. */
  lemma {:induction false} ActsCarryOut(plan: Planner, s: State, r: nat, task: Task, input: Object, n: nat)
    requires PlannerOk(plan) && Inv(plan, s) && Acting(plan, s, r, task, input, 0) && n <= |plan(task, input.data)|
    ensures var end := Execute(plan, s, Acts(r, n));
            && Inv(plan, end) && Acting(plan, end, r, task, input, n)
            && CarriedTo(plan(task, input.data), input, ViewOf(s, r), ViewOf(end, r), n)
  {
    if n == 0 {
      NothingCarried(plan(task, input.data), input, ViewOf(s, r));
    } else {
      var before := Execute(plan, s, Acts(r, n - 1));
      ActsCarryOut(plan, s, r, task, input, n - 1);
      ExecuteSnoc(plan, s, Acts(r, n - 1), Move(r, Act));
      NextKeeps(plan, before, Move(r, Act));
      ActDoesNext(plan, before, r, task, input, n - 1);
      CarriedFurther(plan(task, input.data), input, ViewOf(s, r), ViewOf(before, r),
                     ViewOf(Next(plan, before, Move(r, Act)), r), n - 1);
    }
  }

  /** A delivered task gets its input: what is in its bucket, or the letter rendered for it. */
  lemma StartsWithInput(plan: Planner, s: State, r: nat, task: Task, input: Object)
    returns (steps: seq<Step>)
    requires Inv(plan, s) && r !in s.runs
    requires match Source(task)
             case Some(key) => Holds(s, key, input)
             case None => input.data.Pdf? && input.metadata == NoMetadata
    ensures Acting(plan, Execute(plan, s, steps), r, task, input, 0)
    ensures ViewOf(Execute(plan, s, steps), r) == View(s.objects, [])
  {
    var last := if Source(task).Some? then Move(r, Download) else Move(r, Render(input.data.document));
    steps := [Start(r, task), last];
    assert [] + [Start(r, task)] == [Start(r, task)] && [Start(r, task)] + [last] == steps;
    ExecuteSnoc(plan, s, [], Start(r, task));
    ExecuteSnoc(plan, s, [Start(r, task)], last);
    assert History(s.log, r) == [];
  }

  /** Every task can be carried out to the end of its plan, from every state in which its input is there. */
  lemma RunsCanComplete(plan: Planner, s: State, r: nat, task: Task, input: Object)
    returns (begin: seq<Step>)
    requires PlannerOk(plan) && Inv(plan, s) && r !in s.runs
    requires match Source(task)
             case Some(key) => Holds(s, key, input)
             case None => input.data.Pdf? && input.metadata == NoMetadata
    ensures var actions := plan(task, input.data);
            var end := Execute(plan, s, begin + Acts(r, |actions|));
            && Acting(plan, end, r, task, input, |actions|)
            && CarriedTo(actions, input, View(s.objects, []), ViewOf(end, r), |actions|)
  {
    begin := StartsWithInput(plan, s, r, task, input);
    KeepsOn(plan, s, begin);
    ActsCarryOut(plan, Execute(plan, s, begin), r, task, input, |plan(task, input.data)|);
    ExecuteConcat(plan, s, begin, Acts(r, |plan(task, input.data)|));
  }

  lemma {:induction false} KeepsOn(plan: Planner, s: State, steps: seq<Step>)
    requires PlannerOk(plan) && Inv(plan, s)
    ensures Inv(plan, Execute(plan, s, steps))
  {
    if steps != [] {
      KeepsOn(plan, s, steps[..|steps| - 1]);
      NextKeeps(plan, Execute(plan, s, steps[..|steps| - 1]), steps[|steps| - 1]);
    }
  }

  // ---- What is read later ----

  ghost predicate Holds(s: State, key: Key, stored: Object) {
    key in s.objects && s.objects[key] == stored
  }

  /** From the state on, through all the steps, the object under the key is not overwritten with another. */
  ghost predicate Keeps(plan: Planner, s: State, steps: seq<Step>, key: Key, stored: Object) {
    forall n :: 0 <= n <= |steps| ==> Holds(Execute(plan, s, steps[..n]), key, stored)
  }

  /** A run whose task reads from the key has nothing else for its input. */
  ghost predicate ReadsOnly(s: State, r: nat, key: Key, stored: Object) {
    r in s.runs && Source(s.runs[r].task) == Some(key) && s.runs[r].input.Some? ==> s.runs[r].input.value == stored
  }

  lemma NextReadsOnly(plan: Planner, s: State, step: Step, r: nat, key: Key, stored: Object)
    requires ReadsOnly(s, r, key, stored) && Holds(s, key, stored)
    ensures ReadsOnly(Next(plan, s, step), r, key, stored)
  {
  }

  /** A run that starts while the object is kept reads that object. */
  lemma {:induction false} LaterRunReads(plan: Planner, s: State, steps: seq<Step>, r: nat, key: Key, stored: Object)
    requires r !in s.runs && Keeps(plan, s, steps, key, stored)
    ensures ReadsOnly(Execute(plan, s, steps), r, key, stored)
  {
    if steps != [] {
      var init := steps[..|steps| - 1];
      forall n | 0 <= n <= |init|
        ensures Holds(Execute(plan, s, init[..n]), key, stored)
      {
        assert init[..n] == steps[..n];
        assert Holds(Execute(plan, s, steps[..n]), key, stored);
      }
      LaterRunReads(plan, s, init, r, key, stored);
      assert Holds(Execute(plan, s, steps[..|init|]), key, stored);
      NextReadsOnly(plan, Execute(plan, s, init), steps[|steps| - 1], r, key, stored);
    }
  }

  // ---- Backups ----

  /** Different ids have different backups. */
  lemma IdsApart(id: string, other: string)
    ensures (Backup, id + ".pdf") == (Backup, other + ".pdf") <==> id == other
  {
    if id + ".pdf" == other + ".pdf" {
      assert |id| == |other|;
      assert id == (id + ".pdf")[..|id|] && other == (other + ".pdf")[..|other|];
    }
  }

  /** All runs that sanitise a letter of this id are for this file. */
  ghost predicate OneFile(s: State, id: string, filename: string) {
    forall r :: r in s.runs && s.runs[r].task.SanitiseAndUpload? && s.runs[r].task.notificationId == id ==>
                  s.runs[r].task.filename == filename
  }

  /** Runs stay, each with its task. */
  lemma NextStays(plan: Planner, s: State, step: Step)
    ensures forall r :: r in s.runs ==> r in Next(plan, s, step).runs && Next(plan, s, step).runs[r].task == s.runs[r].task
  {
  }

  /** Whatever has been written to the backup bucket was a run's own input, under its own id. */
  lemma BackupWriter(plan: Planner, s: State, r: nat, key: Key, stored: Object)
    requires PlannerOk(plan) && Inv(plan, s)
    requires Wrote(key, stored) in History(s.log, r) && key.0 == Backup
    ensures r in s.runs && s.runs[r].task.SanitiseAndUpload? && s.runs[r].input == Some(stored)
    ensures key == (Backup, s.runs[r].task.notificationId + ".pdf")
  {
    assert r in s.runs;
    var run := s.runs[r];
    assert OnPlan(plan, run, History(s.log, r)) && InputKept(s.objects, run);
    var i :| 0 <= i < |History(s.log, r)| && History(s.log, r)[i] == Wrote(key, stored);
    var actions := plan(run.task, run.input.value.data);
    assert Effects(actions, run.input.value)[i] == EffectOf(actions[i], run.input.value);
    assert ActionOk(run.task, actions[i]);
  }

  /** The step puts nothing under the letter's id in the backup bucket from outside. */
  predicate NoArrival(step: Step, id: string) {
    !(step.Arrive? && step.key == (Backup, id + ".pdf"))
  }

  ghost predicate NoArrivals(steps: seq<Step>, id: string) {
    forall n :: 0 <= n < |steps| ==> NoArrival(steps[n], id)
  }

  /** Nothing has changed under the key. */
  ghost predicate Untouched(s: State, next: State, key: Key) {
    (key in next.objects <==> key in s.objects) && (key in s.objects ==> next.objects[key] == s.objects[key])
  }

  /**
   A step that does not put anything there from outside leaves a letter's backup alone, unless it is of a run with its
   id; and what that writes is what is in the scan bucket.
   */
  lemma NextKeepsBackup(plan: Planner, s: State, step: Step, id: string, filename: string, original: Object)
    requires PlannerOk(plan) && Inv(plan, s) && OneFile(s, id, filename) && NoArrival(step, id)
    requires Holds(s, (Scan, filename), original)
    ensures Untouched(s, Next(plan, s, step), (Backup, id + ".pdf")) || Holds(Next(plan, s, step), (Backup, id + ".pdf"), original)
  {
    if step.Move? && step.run in s.runs && s.runs[step.run].live && step.move.Act? && s.runs[step.run].input.Some? {
      var run := s.runs[step.run];
      assert InputKept(s.objects, run);
      var actions := plan(run.task, run.input.value.data);
      if run.done < |actions| {
        assert ActionOk(run.task, actions[run.done]);
        if actions[run.done].Copy? {
          IdsApart(id, run.task.notificationId);
        }
      }
    }
  }

  /** What a step adds to the log has just been done. */
  lemma NextLogs(plan: Planner, s: State, step: Step)
    ensures var next := Next(plan, s, step);
            || next.log == s.log
            || exists event: Event :: && next.log == s.log + [event]
                               && (event.effect.Wrote? ==> Holds(next, event.effect.key, event.effect.stored))
  {
    var next := Next(plan, s, step);
    if next.log != s.log {
      assert next.log == s.log + [next.log[|s.log|]];
    }
  }

  /** If the letter's backup has been written at all, it is there, and is what is in the scan bucket. */
  ghost predicate BackedUp(s: State, id: string, filename: string) {
    forall r, stored :: Wrote((Backup, id + ".pdf"), stored) in History(s.log, r) ==>
                          Holds(s, (Backup, id + ".pdf"), stored) && Holds(s, (Scan, filename), stored)
  }

  /** Whoever has written the letter's backup had the letter's file for its input. */
  lemma BackupIsOfFile(plan: Planner, s: State, r: nat, id: string, filename: string, stored: Object)
    requires PlannerOk(plan) && Inv(plan, s) && OneFile(s, id, filename)
    requires Wrote((Backup, id + ".pdf"), stored) in History(s.log, r)
    ensures Holds(s, (Scan, filename), stored)
  {
    BackupWriter(plan, s, r, (Backup, id + ".pdf"), stored);
    IdsApart(id, s.runs[r].task.notificationId);
    assert InputKept(s.objects, s.runs[r]);
  }

  /** What a step has newly written is there. */
  lemma NewlyWritten(plan: Planner, s: State, step: Step, r: nat, key: Key, stored: Object)
    requires Wrote(key, stored) in History(Next(plan, s, step).log, r) && Wrote(key, stored) !in History(s.log, r)
    ensures Holds(Next(plan, s, step), key, stored)
  {
    var next := Next(plan, s, step);
    NextLogs(plan, s, step);
    var event :| next.log == s.log + [event]
                 && (event.effect.Wrote? ==> Holds(next, event.effect.key, event.effect.stored));
    HistorySnoc(s.log, event, r);
  }

  lemma NextBackedUp(plan: Planner, s: State, step: Step, id: string, filename: string)
    requires PlannerOk(plan) && Inv(plan, s) && NoArrival(step, id)
    requires OneFile(s, id, filename) && OneFile(Next(plan, s, step), id, filename) && BackedUp(s, id, filename)
    ensures BackedUp(Next(plan, s, step), id, filename)
  {
    NextKeeps(plan, s, step);
    forall r, stored | Wrote((Backup, id + ".pdf"), stored) in History(Next(plan, s, step).log, r)
      ensures Holds(Next(plan, s, step), (Backup, id + ".pdf"), stored)
      ensures Holds(Next(plan, s, step), (Scan, filename), stored)
    {
      StillBackedUp(plan, s, step, id, filename, r, stored);
    }
  }

  lemma StillBackedUp(plan: Planner, s: State, step: Step, id: string, filename: string, r: nat, stored: Object)
    requires PlannerOk(plan) && Inv(plan, s) && Inv(plan, Next(plan, s, step)) && NoArrival(step, id)
    requires OneFile(s, id, filename) && OneFile(Next(plan, s, step), id, filename) && BackedUp(s, id, filename)
    requires Wrote((Backup, id + ".pdf"), stored) in History(Next(plan, s, step).log, r)
    ensures Holds(Next(plan, s, step), (Backup, id + ".pdf"), stored)
    ensures Holds(Next(plan, s, step), (Scan, filename), stored)
  {
    BackupIsOfFile(plan, Next(plan, s, step), r, id, filename, stored);
    if Wrote((Backup, id + ".pdf"), stored) in History(s.log, r) {
      NextKeepsBackup(plan, s, step, id, filename, stored);
    } else {
      NewlyWritten(plan, s, step, r, (Backup, id + ".pdf"), stored);
    }
  }

  lemma OneFileBefore(plan: Planner, s: State, step: Step, id: string, filename: string)
    requires PlannerOk(plan) && Inv(plan, s) && OneFile(Next(plan, s, step), id, filename)
    ensures OneFile(s, id, filename)
  {
    NextStays(plan, s, step);
  }

  lemma {:induction false} AlwaysBackedUp(plan: Planner, start: State, steps: seq<Step>, id: string, filename: string)
    requires PlannerOk(plan) && Initial(start) && NoArrivals(steps, id)
    requires OneFile(Execute(plan, start, steps), id, filename)
    ensures BackedUp(Execute(plan, start, steps), id, filename)
  {
    if steps != [] {
      var init, step := steps[..|steps| - 1], steps[|steps| - 1];
      var s := Execute(plan, start, init);
      ExecuteKeeps(plan, start, init);
      OneFileBefore(plan, s, step, id, filename);
      AlwaysBackedUp(plan, start, init, id, filename);
      NextBackedUp(plan, s, step, id, filename);
    }
  }

  /** What has been done stays done, and what is for one file at the end has been so before. */
  lemma {:induction false} LongAgo(plan: Planner, start: State, a: seq<Step>, b: seq<Step>, r: nat, effect: Effect,
                                   id: string, filename: string)
    requires PlannerOk(plan) && Initial(start)
    ensures effect in History(Execute(plan, start, a).log, r) ==> effect in History(Execute(plan, start, a + b).log, r)
    ensures OneFile(Execute(plan, start, a + b), id, filename) ==> OneFile(Execute(plan, start, a), id, filename)
  {
    if b == [] {
      assert a + b == a;
    } else {
      var init, step := b[..|b| - 1], b[|b| - 1];
      var s := Execute(plan, start, a + init);
      assert a + b == (a + init) + [step];
      ExecuteSnoc(plan, start, a + init, step);
      ExecuteKeeps(plan, start, a + init);
      LongAgo(plan, start, a, init, r, effect, id, filename);
      NextLogs(plan, s, step);
      if Next(plan, s, step).log != s.log {
        var event :| Next(plan, s, step).log == s.log + [event];
        HistorySnoc(s.log, event, r);
      }
      if OneFile(Next(plan, s, step), id, filename) {
        OneFileBefore(plan, s, step, id, filename);
      }
    }
  }

  /** So a backup, once written, is never overwritten with anything else. */
  lemma BackupStays(plan: Planner, start: State, before: seq<Step>, after: seq<Step>, id: string, filename: string,
                    r: nat, original: Object)
    requires PlannerOk(plan) && Initial(start) && NoArrivals(before + after, id)
    requires OneFile(Execute(plan, start, before + after), id, filename)
    requires Wrote((Backup, id + ".pdf"), original) in History(Execute(plan, start, before).log, r)
    ensures Keeps(plan, Execute(plan, start, before), after, (Backup, id + ".pdf"), original)
  {
    forall n | 0 <= n <= |after|
      ensures Holds(Execute(plan, Execute(plan, start, before), after[..n]), (Backup, id + ".pdf"), original)
    {
      assert before + after[..n] + after[n..] == before + after;
      BackupStaysSo(plan, start, before, after[..n], after[n..], id, filename, r, original);
    }
  }

  lemma BackupStaysSo(plan: Planner, start: State, before: seq<Step>, between: seq<Step>, after: seq<Step>, id: string,
                      filename: string, r: nat, original: Object)
    requires PlannerOk(plan) && Initial(start) && NoArrivals(before + between + after, id)
    requires OneFile(Execute(plan, start, before + between + after), id, filename)
    requires Wrote((Backup, id + ".pdf"), original) in History(Execute(plan, start, before).log, r)
    ensures Holds(Execute(plan, Execute(plan, start, before), between), (Backup, id + ".pdf"), original)
  {
    var effect, steps := Wrote((Backup, id + ".pdf"), original), before + between;
    LongAgo(plan, start, before, between, r, effect, id, filename);
    LongAgo(plan, start, steps, after, r, effect, id, filename);
    forall n | 0 <= n < |steps|
      ensures NoArrival(steps[n], id)
    {
      assert (steps + after)[n] == steps[n];
    }
    AlwaysBackedUp(plan, start, steps, id, filename);
    ExecuteConcat(plan, start, before, between);
  }
}
