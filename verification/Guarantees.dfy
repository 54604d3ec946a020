/** What holds of buckets and messages after any interleaving of any number of runs. */
module Guarantees {
  import opened Wrappers
  import opened Documents
  import opened Layout
  import opened Libraries
  import opened Sanitising
  import opened Tasks
  import opened Protocol

  /** The actions planned on a result are in order if its file is within the limit. */
  lemma ResultPlansOk(id: string, filename: string, intl: bool, result: SanitiseResult)
    requires FileOrMessage(result)
    requires result.file.Some? ==> ObjectOk((LettersPdf, filename), Object(result.file.value, NoMetadata))
    ensures forall i :: 0 <= i < |SanitisePlan(id, filename, result)| ==>
                          ActionOk(SanitiseAndUpload(id, filename, intl), SanitisePlan(id, filename, result)[i])
    ensures forall i :: 0 <= i < |RecreatePlan(filename, result)| ==>
                          ActionOk(RecreatePrecompiled(id, filename, intl), RecreatePlan(filename, result)[i])
  {
  }

  lemma SanitiseStaysInLimit(lib: Library, input: Blob, intl: bool, key: string)
    requires ConverterContract(lib)
    ensures var result := Sanitise(lib, input, intl, false);
            FileOrMessage(result)
            && (result.file.Some? ==> ObjectOk((LettersPdf, key), Object(result.file.value, NoMetadata)))
  {
    SanitiseGivesFileOrMessage(lib, input, intl, false);
    if Sanitise(lib, input, intl, false).message.None? {
      PassingKeepsPages(lib, input, intl, false);
    }
  }

  /** The program plans only what keeps the buckets in order. */
  lemma ProgramPlansOk(lib: Library)
    requires ConverterContract(lib)
    ensures PlannerOk(PlannerOf(lib))
  {
    forall task, input, i | 0 <= i < |PlannerOf(lib)(task, input)| && (task.CreateTemplated? ==> input.Pdf?)
      ensures ActionOk(task, PlannerOf(lib)(task, input)[i])
    {
      assert PlannerOf(lib)(task, input) == Plan(lib, task, input);
      match task
      case SanitiseAndUpload(id, filename, intl) =>
        SanitiseStaysInLimit(lib, input, intl, filename);
        ResultPlansOk(id, filename, intl, Sanitise(lib, input, intl, false));
      case RecreatePrecompiled(id, filename, intl) =>
        SanitiseStaysInLimit(lib, input, intl, filename);
        ResultPlansOk(id, filename, intl, Sanitise(lib, input, intl, false));
      case CreateTemplated(_, _, _) =>
      case RecreateAttachment(_, _, _) =>
    }
  }

  /** A state that some steps of the program lead to. */
  ghost predicate Reached(lib: Library, s: State) {
    exists start, steps :: Initial(start) && s == Execute(PlannerOf(lib), start, steps)
  }

  lemma ReachedKeeps(lib: Library, s: State)
    requires ConverterContract(lib) && Reached(lib, s)
    ensures Inv(PlannerOf(lib), s)
  {
    var start, steps :| Initial(start) && s == Execute(PlannerOf(lib), start, steps);
    ProgramPlansOk(lib);
    ExecuteKeeps(PlannerOf(lib), start, steps);
  }

  /**
   After any steps: live letters, test letters and sanitised letters are within the page limit, and
   whatever was put aside as invalid is beyond it.
   */
  lemma BucketsHoldTheirPages(lib: Library, s: State, key: Key)
    requires ConverterContract(lib) && Reached(lib, s) && key in s.objects
    ensures key.0 in {LettersPdf, TestLetters, Sanitised} ==>
              s.objects[key].data.Pdf? && |s.objects[key].data.document.pages| <= LETTER_MAX_PAGE_COUNT
    ensures key.0 == InvalidPdf ==>
              s.objects[key].data.Pdf? && |s.objects[key].data.document.pages| > LETTER_MAX_PAGE_COUNT
  {
    ReachedKeeps(lib, s);
    assert ObjectOk(key, s.objects[key]);
  }

  /** What a run that has its input has done is the beginning of its plan for that input. */
  ghost predicate Follows(plan: seq<Action>, input: Object, done: nat, history: seq<Effect>) {
    done <= |plan| && history == Effects(plan, input)[..done]
  }

  lemma RunFollowsPlan(lib: Library, s: State, r: nat)
    requires ConverterContract(lib) && Reached(lib, s) && r in s.runs
    ensures s.runs[r].input.None? ==> History(s.log, r) == []
    ensures s.runs[r].input.Some? ==>
              Follows(Plan(lib, s.runs[r].task, s.runs[r].input.value.data), s.runs[r].input.value,
                      s.runs[r].done, History(s.log, r))
    ensures s.runs[r].task.CreateTemplated? && s.runs[r].input.Some? ==> s.runs[r].input.value.data.Pdf?
  {
    ReachedKeeps(lib, s);
    assert OnPlan(PlannerOf(lib), s.runs[r], History(s.log, r));
    assert InputKept(s.objects, s.runs[r]);
  }

  lemma NoRunNoHistory(lib: Library, s: State, r: nat)
    requires ConverterContract(lib) && Reached(lib, s) && r !in s.runs
    ensures History(s.log, r) == []
  {
    ReachedKeeps(lib, s);
  }

  /** Every plan ends with its only message, if it has one. */
  lemma MessagesComeLast(plan: seq<Action>, input: Object, done: nat, history: seq<Effect>, m: Message)
    requires forall i :: 0 <= i < |plan| - 1 ==> !plan[i].Send?
    requires Follows(plan, input, done, history) && Sent(m) in history
    ensures done == |plan| > 0 && plan[|plan| - 1] == Send(m) && history == Effects(plan, input)
  {
    var i :| 0 <= i < |history| && history[i] == Sent(m);
    assert Effects(plan, input)[i] == EffectOf(plan[i], input);
    assert Effects(plan, input)[..|plan|] == Effects(plan, input);
  }

  lemma PlansEndWithMessage(lib: Library, task: Task, input: Blob)
    ensures forall i :: 0 <= i < |Plan(lib, task, input)| - 1 ==> !Plan(lib, task, input)[i].Send?
  {
  }

  /** A run that an error or a crash has cut short has sent nothing. */
  lemma CutShortSendsNothing(lib: Library, s: State, r: nat, m: Message)
    requires ConverterContract(lib) && Reached(lib, s) && r in s.runs
    requires s.runs[r].input.None? || s.runs[r].done < |Plan(lib, s.runs[r].task, s.runs[r].input.value.data)|
    ensures Sent(m) !in History(s.log, r)
  {
    RunFollowsPlan(lib, s, r);
    var run := s.runs[r];
    if run.input.Some? && Sent(m) in History(s.log, r) {
      PlansEndWithMessage(lib, run.task, run.input.value.data);
      MessagesComeLast(Plan(lib, run.task, run.input.value.data), run.input.value, run.done, History(s.log, r), m);
    }
  }

  /** Only a run of the right task sends word of a sanitised letter, and then it has carried out its plan. */
  lemma SenderIsDone(lib: Library, s: State, r: nat, m: Message)
    requires ConverterContract(lib) && Reached(lib, s)
    requires Sent(m) in History(s.log, r)
    ensures r in s.runs && s.runs[r].input.Some?
    ensures var run := s.runs[r];
            var plan := Plan(lib, run.task, run.input.value.data);
            plan != [] && plan[|plan| - 1] == Send(m) && History(s.log, r) == Effects(plan, run.input.value)
  {
    if r !in s.runs {
      NoRunNoHistory(lib, s, r);
    } else {
      RunFollowsPlan(lib, s, r);
      var run := s.runs[r];
      PlansEndWithMessage(lib, run.task, run.input.value.data);
      MessagesComeLast(Plan(lib, run.task, run.input.value.data), run.input.value, run.done, History(s.log, r), m);
    }
  }

  /** What a run that sanitises a letter does, in order, given what it has read. */
  ghost predicate SanitisingRun(result: SanitiseResult, id: string, filename: string, original: Object, done: nat,
                                history: seq<Effect>)
  {
    if result.message.Some? then
      && done <= 1
      && history == [Sent(ProcessSanitisedLetter(
                            StatusFailed,
                            SanitiseDetails(result.pageCount, result.message, result.invalidPages, result.recipientAddress),
                            filename, id))][..done]
    else
      && result.file.Some? && done <= 3
      && history == [
           Wrote((Sanitised, filename), Object(result.file.value, NoMetadata)),
           Wrote((Backup, id + ".pdf"), original),
           Sent(ProcessSanitisedLetter(
                  StatusPassed, SanitiseDetails(result.pageCount, None, None, result.recipientAddress), filename, id))][..done]
  }

  /**
   Every run that sanitises a letter has read what is in the scan bucket under its filename, and has done a beginning of
   this: report that it failed; or store the sanitised letter, store a copy of the original under its own id, and
   report that it passed.
   */
  lemma SanitisingRunIs(lib: Library, s: State, r: nat)
    requires ConverterContract(lib) && Reached(lib, s)
    requires r in s.runs && s.runs[r].task.SanitiseAndUpload? && s.runs[r].input.Some?
    ensures var run := s.runs[r];
            && (Scan, run.task.filename) in s.objects && s.objects[(Scan, run.task.filename)] == run.input.value
            && SanitisingRun(Sanitise(lib, run.input.value.data, run.task.allowInternational, false),
                             run.task.notificationId, run.task.filename, run.input.value, run.done, History(s.log, r))
  {
    var run := s.runs[r];
    RunFollowsPlan(lib, s, r);
    ReachedKeeps(lib, s);
    assert InputKept(s.objects, run);
    SanitisingPlanIs(lib, run.task, run.input.value, run.done, History(s.log, r));
  }

  lemma SanitisingPlanIs(lib: Library, task: Task, original: Object, done: nat, history: seq<Effect>)
    requires task.SanitiseAndUpload? && Follows(Plan(lib, task, original.data), original, done, history)
    ensures SanitisingRun(Sanitise(lib, original.data, task.allowInternational, false),
                          task.notificationId, task.filename, original, done, history)
  {
    ResultIsWellFormed(lib, original.data, task.allowInternational, false);
    SanitiseGivesFileOrMessage(lib, original.data, task.allowInternational, false);
    EffectsOfSanitising(task.notificationId, task.filename, Sanitise(lib, original.data, task.allowInternational, false), original);
  }

  lemma EffectsOfSanitising(id: string, filename: string, result: SanitiseResult, original: Object)
    requires FileOrMessage(result) && (result.message.None? ==> result.invalidPages.None?)
    ensures Effects(SanitisePlan(id, filename, result), original)
         == if result.message.Some? then
              [Sent(ProcessSanitisedLetter(
                      StatusFailed,
                      SanitiseDetails(result.pageCount, result.message, result.invalidPages, result.recipientAddress),
                      filename, id))]
            else
              [Wrote((Sanitised, filename), Object(result.file.value, NoMetadata)),
               Wrote((Backup, id + ".pdf"), original),
               Sent(ProcessSanitisedLetter(
                      StatusPassed, SanitiseDetails(result.pageCount, None, None, result.recipientAddress), filename, id))]
  {
  }

  /** And every letter in the scan bucket can be sanitised to the end, and be reported one way or the other. */
  lemma LettersCanBeReported(lib: Library, s: State, r: nat, id: string, filename: string, intl: bool)
    returns (steps: seq<Step>)
    requires ConverterContract(lib) && Reached(lib, s) && r !in s.runs && (Scan, filename) in s.objects
    ensures var end := Execute(PlannerOf(lib), s, steps);
            var passed := Sanitise(lib, s.objects[(Scan, filename)].data, intl, false).message.None?;
            && SanitisingRun(Sanitise(lib, s.objects[(Scan, filename)].data, intl, false), id, filename,
                             s.objects[(Scan, filename)], if passed then 3 else 1, History(end.log, r))
            && |History(end.log, r)| == (if passed then 3 else 1)
  {
    var task, original := SanitiseAndUpload(id, filename, intl), s.objects[(Scan, filename)];
    ReachedKeeps(lib, s);
    ProgramPlansOk(lib);
    var begin := RunsCanComplete(PlannerOf(lib), s, r, task, original);
    steps := begin + Acts(r, |Plan(lib, task, original.data)|);
    var end := Execute(PlannerOf(lib), s, steps);
    StaysReached(lib, s, steps);
    SanitisingRunIs(lib, end, r);
    SanitisingPlanLength(lib, task, original.data);
  }

  lemma SanitisingPlanLength(lib: Library, task: Task, input: Blob)
    requires task.SanitiseAndUpload?
    ensures |Plan(lib, task, input)| == if Sanitise(lib, input, task.allowInternational, false).message.None? then 3 else 1
  {
  }

  /** Only a run that sanitises that letter sends word of it. */
  lemma ReporterIs(lib: Library, s: State, r: nat, status: Status, details: SanitiseDetails, filename: string, id: string)
    requires ConverterContract(lib) && Reached(lib, s)
    requires Sent(ProcessSanitisedLetter(status, details, filename, id)) in History(s.log, r)
    ensures r in s.runs && s.runs[r].input.Some?
    ensures s.runs[r].task.SanitiseAndUpload? && s.runs[r].task.notificationId == id && s.runs[r].task.filename == filename
  {
    SenderIsDone(lib, s, r, ProcessSanitisedLetter(status, details, filename, id));
  }

  /**
   A letter is reported as passed only by a run that has, in this order, stored the sanitised letter and stored a copy,
   under the letter's id, of the very original that it sanitised and that is in the scan bucket.
   */
  lemma PassedMeansStored(lib: Library, s: State, r: nat, details: SanitiseDetails, filename: string, id: string)
    requires ConverterContract(lib) && Reached(lib, s)
    requires Sent(ProcessSanitisedLetter(StatusPassed, details, filename, id)) in History(s.log, r)
    ensures r in s.runs && s.runs[r].task.SanitiseAndUpload?
    ensures s.runs[r].task.notificationId == id && s.runs[r].task.filename == filename
    ensures (Scan, filename) in s.objects
    ensures var original := s.objects[(Scan, filename)];
            var result := Sanitise(lib, original.data, s.runs[r].task.allowInternational, false);
            && result.message.None? && result.file.Some?
            && details == SanitiseDetails(result.pageCount, None, None, result.recipientAddress)
            && History(s.log, r) == [
                 Wrote((Sanitised, filename), Object(result.file.value, NoMetadata)),
                 Wrote((Backup, id + ".pdf"), original),
                 Sent(ProcessSanitisedLetter(StatusPassed, details, filename, id))]
  {
    ReporterIs(lib, s, r, StatusPassed, details, filename, id);
    SanitisingRunIs(lib, s, r);
    var run := s.runs[r];
    PassedIsLast(Sanitise(lib, run.input.value.data, run.task.allowInternational, false), id, filename, run.input.value,
                 run.done, History(s.log, r), details);
  }

  lemma PassedIsLast(result: SanitiseResult, id: string, filename: string, original: Object, done: nat,
                     history: seq<Effect>, details: SanitiseDetails)
    requires SanitisingRun(result, id, filename, original, done, history)
    requires Sent(ProcessSanitisedLetter(StatusPassed, details, filename, id)) in history
    ensures && result.message.None? && result.file.Some?
            && details == SanitiseDetails(result.pageCount, None, None, result.recipientAddress)
            && history == [
                 Wrote((Sanitised, filename), Object(result.file.value, NoMetadata)),
                 Wrote((Backup, id + ".pdf"), original),
                 Sent(ProcessSanitisedLetter(StatusPassed, details, filename, id))]
  {
    var i :| 0 <= i < |history| && history[i] == Sent(ProcessSanitisedLetter(StatusPassed, details, filename, id));
  }

  /** A letter is reported as failed only by a run that has written nothing, with what sanitising it has found. */
  lemma FailedMeansNothingWritten(lib: Library, s: State, r: nat, details: SanitiseDetails, filename: string, id: string)
    requires ConverterContract(lib) && Reached(lib, s)
    requires Sent(ProcessSanitisedLetter(StatusFailed, details, filename, id)) in History(s.log, r)
    ensures History(s.log, r) == [Sent(ProcessSanitisedLetter(StatusFailed, details, filename, id))]
    ensures r in s.runs && s.runs[r].task.SanitiseAndUpload?
    ensures s.runs[r].task.notificationId == id && s.runs[r].task.filename == filename
    ensures (Scan, filename) in s.objects
    ensures var result := Sanitise(lib, s.objects[(Scan, filename)].data, s.runs[r].task.allowInternational, false);
            && result.message.Some?
            && details == SanitiseDetails(result.pageCount, result.message, result.invalidPages, None)
  {
    ReporterIs(lib, s, r, StatusFailed, details, filename, id);
    SanitisingRunIs(lib, s, r);
    var run := s.runs[r];
    ResultIsWellFormed(lib, run.input.value.data, run.task.allowInternational, false);
    FailedIsAll(Sanitise(lib, run.input.value.data, run.task.allowInternational, false), id, filename, run.input.value,
                run.done, History(s.log, r), details);
  }

  lemma FailedIsAll(result: SanitiseResult, id: string, filename: string, original: Object, done: nat,
                    history: seq<Effect>, details: SanitiseDetails)
    requires SanitisingRun(result, id, filename, original, done, history)
    requires Sent(ProcessSanitisedLetter(StatusFailed, details, filename, id)) in history
    ensures && result.message.Some?
            && details == SanitiseDetails(result.pageCount, result.message, result.invalidPages, result.recipientAddress)
            && history == [Sent(ProcessSanitisedLetter(StatusFailed, details, filename, id))]
  {
    var i :| 0 <= i < |history| && history[i] == Sent(ProcessSanitisedLetter(StatusFailed, details, filename, id));
  }

  /** What a run for a letter from a template may have done, over all its attempts. */
  ghost predicate OneLetter(task: Task, letter: Object, history: seq<Effect>)
    requires task.CreateTemplated? && letter.data.Pdf?
  {
    var pages := |letter.data.document.pages|;
    var tooLong := pages > LETTER_MAX_PAGE_COUNT;
    var upload := Wrote(
      if tooLong then (InvalidPdf, RemoveFolder(task.letterFilename))
      else (if task.testKey then TestLetters else LettersPdf, task.letterFilename),
      Object(letter.data, if tooLong then Metadata.LetterTooLong(pages) else NoMetadata));
    var message := Sent(
      if tooLong then UpdateValidationFailed(task.notificationId, pages)
      else UpdateBillableUnits(task.notificationId, pages));
    history == [] || history == [upload] || history == [upload, message]
  }

  lemma TemplatedPlanIs(lib: Library, task: Task, letter: Object, done: nat, history: seq<Effect>)
    requires task.CreateTemplated? && letter.data.Pdf?
    requires Follows(Plan(lib, task, letter.data), letter, done, history)
    ensures OneLetter(task, letter, history)
  {
    var effects := Effects(Plan(lib, task, letter.data), letter);
    assert |effects| == 2;
    PrefixOfTwo(effects, done);
  }

  lemma PrefixOfTwo(effects: seq<Effect>, n: nat)
    requires |effects| == 2 && n <= 2
    ensures effects[..n] == [] || effects[..n] == [effects[0]] || effects[..n] == [effects[0], effects[1]]
  {
  }

  lemma RetriesAreFew(lib: Library, s: State, r: nat)
    requires ConverterContract(lib) && Reached(lib, s) && r in s.runs
    ensures s.runs[r].retries <= MAX_RETRIES
  {
    ReachedKeeps(lib, s);
    assert OnPlan(PlannerOf(lib), s.runs[r], History(s.log, r));
  }

  /**
   However often it is retried, at most three times, a run for a letter from a template uploads at most once
   and then sends at most one message, with the page count of what it has uploaded.
   */
  lemma OneUploadOneMessage(lib: Library, s: State, r: nat)
    requires ConverterContract(lib) && Reached(lib, s)
    requires r in s.runs && s.runs[r].task.CreateTemplated?
    ensures s.runs[r].retries <= 3
    ensures if s.runs[r].input.None? then History(s.log, r) == []
            else s.runs[r].input.value.data.Pdf? && OneLetter(s.runs[r].task, s.runs[r].input.value, History(s.log, r))
  {
    RetriesAreFew(lib, s, r);
    RunFollowsPlan(lib, s, r);
    var run := s.runs[r];
    if run.input.Some? {
      TemplatedPlanIs(lib, run.task, run.input.value, run.done, History(s.log, r));
    }
  }

  /** What a task that recreates stores, and where. */
  ghost predicate Recreates(lib: Library, task: Task, backup: Blob, key: Key, stored: Object) {
    && (task.RecreatePrecompiled? || task.RecreateAttachment?)
    && var result := if task.RecreatePrecompiled? then Sanitise(lib, backup, task.allowInternational, false)
                     else Sanitise(lib, backup, false, true);
    && result.message.None? && result.file == Some(stored.data)
    && key == (if task.RecreatePrecompiled? then (LettersPdf, task.fileLocation)
               else (Attachments, "service-" + task.serviceId + "/" + task.attachmentId + ".pdf"))
    && stored.data.Pdf?
    && stored.metadata == (if task.RecreatePrecompiled? then NoMetadata
                           else AttachmentInfo(|stored.data.document.pages|, task.originalFilename))
  }

  lemma RecreatedPlan(lib: Library, task: Task, backup: Blob)
    requires ConverterContract(lib)
    requires task.RecreatePrecompiled? || task.RecreateAttachment?
    ensures var plan := Plan(lib, task, backup);
            |plan| <= 1 && (plan != [] ==> plan[0].Put? && Recreates(lib, task, backup, plan[0].key, plan[0].stored))
  {
    var intl, att := task.RecreatePrecompiled? && task.allowInternational, task.RecreateAttachment?;
    SanitiseGivesFileOrMessage(lib, backup, intl, att);
    if Sanitise(lib, backup, intl, att).message.None? {
      PassingKeepsPages(lib, backup, intl, att);
    }
  }

  lemma OneActionDone(plan: seq<Action>, input: Object, done: nat, history: seq<Effect>, key: Key, stored: Object)
    requires |plan| <= 1 && (plan != [] ==> plan[0].Put?)
    requires Follows(plan, input, done, history) && Wrote(key, stored) in history
    ensures plan == [Put(key, stored)] && history == [Wrote(key, stored)]
  {
    var i :| 0 <= i < |history| && history[i] == Wrote(key, stored);
    assert Effects(plan, input)[i] == EffectOf(plan[0], input);
  }

  /** What is recreated, as a letter or as an attachment, is what came of sanitising its backup, and that had passed. */
  lemma RecreatedHasPassed(lib: Library, s: State, r: nat, key: Key, stored: Object)
    requires ConverterContract(lib) && Reached(lib, s)
    requires r in s.runs && (s.runs[r].task.RecreatePrecompiled? || s.runs[r].task.RecreateAttachment?)
    requires Wrote(key, stored) in History(s.log, r)
    ensures s.runs[r].input.Some? && History(s.log, r) == [Wrote(key, stored)]
    ensures Recreates(lib, s.runs[r].task, s.runs[r].input.value.data, key, stored)
  {
    RunFollowsPlan(lib, s, r);
    var run := s.runs[r];
    RecreatedPlan(lib, run.task, run.input.value.data);
    OneActionDone(Plan(lib, run.task, run.input.value.data), run.input.value, run.done, History(s.log, r), key, stored);
  }

  // ---- Across runs ----

  lemma StaysReached(lib: Library, s: State, steps: seq<Step>)
    requires Reached(lib, s)
    ensures Reached(lib, Execute(PlannerOf(lib), s, steps))
  {
    var start, before :| Initial(start) && s == Execute(PlannerOf(lib), start, before);
    ExecuteConcat(PlannerOf(lib), start, before, steps);
    assert Initial(start) && Execute(PlannerOf(lib), s, steps) == Execute(PlannerOf(lib), start, before + steps);
  }

  lemma NotBegun(lib: Library, s: State, r: nat)
    requires ConverterContract(lib) && Reached(lib, s) && r in s.runs
    ensures s.runs[r].input.None? ==> s.runs[r].done == 0
  {
    ReachedKeeps(lib, s);
    assert OnPlan(PlannerOf(lib), s.runs[r], History(s.log, r));
  }

  /** What a run that recreates a letter or an attachment does, given what it has read: nothing if that does not pass. */
  lemma RecreatingRunIs(lib: Library, s: State, r: nat)
    requires ConverterContract(lib) && Reached(lib, s)
    requires r in s.runs && s.runs[r].input.Some? && s.runs[r].done > 0
    requires s.runs[r].task.RecreatePrecompiled? || s.runs[r].task.RecreateAttachment?
    ensures |History(s.log, r)| == 1 && History(s.log, r)[0].Wrote?
    ensures Recreates(lib, s.runs[r].task, s.runs[r].input.value.data, History(s.log, r)[0].key, History(s.log, r)[0].stored)
  {
    RunFollowsPlan(lib, s, r);
    var run := s.runs[r];
    RecreatedPlan(lib, run.task, run.input.value.data);
    OneOrNone(Plan(lib, run.task, run.input.value.data), run.input.value, run.done, History(s.log, r));
  }

  lemma OneOrNone(plan: seq<Action>, input: Object, done: nat, history: seq<Effect>)
    requires |plan| == 1 && Follows(plan, input, done, history)
    ensures history == (if done == 0 then [] else [EffectOf(plan[0], input)])
  {
    assert Effects(plan, input) == [EffectOf(plan[0], input)];
  }

  /**
   What was reported as passed can be recreated. Suppose nothing is put under a letter's id in the backup bucket from
   outside, and all runs that sanitise a letter of that id are for the same file. If one of them has reported the letter as
   passed, then a run that starts later, and recreates it under the same rule on international addresses, stores in the
   live bucket the very file that was put in the sanitised bucket, and nothing else, whatever else goes on.
   */
  lemma RecreatedIsWhatPassed(lib: Library, start: State, before: seq<Step>, after: seq<Step>, r: nat,
                              details: SanitiseDetails, filename: string, id: string, q: nat, location: string)
    returns (sanitised: Blob)
    requires ConverterContract(lib) && Initial(start)
    requires NoArrivals(before + after, id)
    requires OneFile(Execute(PlannerOf(lib), start, before + after), id, filename)
    requires var s := Execute(PlannerOf(lib), start, before);
             && Sent(ProcessSanitisedLetter(StatusPassed, details, filename, id)) in History(s.log, r)
             && q !in s.runs
             && var end := Execute(PlannerOf(lib), start, before + after);
             && q in end.runs
             && (r in s.runs && s.runs[r].task.SanitiseAndUpload? ==>
                   end.runs[q].task == RecreatePrecompiled(id, location, s.runs[r].task.allowInternational))
    ensures var s, end := Execute(PlannerOf(lib), start, before), Execute(PlannerOf(lib), start, before + after);
            && Wrote((Sanitised, filename), Object(sanitised, NoMetadata)) in History(s.log, r)
            && History(end.log, q)
               == (if end.runs[q].done == 0 then [] else [Wrote((LettersPdf, location), Object(sanitised, NoMetadata))])
  {
    var plan := PlannerOf(lib);
    var s := Execute(plan, start, before);
    assert Reached(lib, s);
    PassedMeansStored(lib, s, r, details, filename, id);
    var original := s.objects[(Scan, filename)];
    sanitised := Sanitise(lib, original.data, s.runs[r].task.allowInternational, false).file.value;
    assert History(s.log, r)[0] == Wrote((Sanitised, filename), Object(sanitised, NoMetadata));
    assert History(s.log, r)[1] == Wrote((Backup, id + ".pdf"), original);
    ProgramPlansOk(lib);
    BackupStays(plan, start, before, after, id, filename, r, original);
    ExecuteConcat(plan, start, before, after);
    LetterIsRecreated(lib, s, after, q, id, location, s.runs[r].task.allowInternational, original);
  }

  /** A letter is recreated from its backup, if a run starts while that is not overwritten with another object. */
  lemma LetterIsRecreated(lib: Library, s: State, steps: seq<Step>, q: nat, id: string, location: string, intl: bool,
                          original: Object)
    requires ConverterContract(lib) && Reached(lib, s) && q !in s.runs
    requires Keeps(PlannerOf(lib), s, steps, (Backup, id + ".pdf"), original)
    requires var end := Execute(PlannerOf(lib), s, steps);
             q in end.runs && end.runs[q].task == RecreatePrecompiled(id, location, intl)
    ensures var end := Execute(PlannerOf(lib), s, steps);
            var result := Sanitise(lib, original.data, intl, false);
            if end.runs[q].done == 0 then History(end.log, q) == []
            else
              && result.message.None? && result.file.Some?
              && History(end.log, q) == [Wrote((LettersPdf, location), Object(result.file.value, NoMetadata))]
  {
    var end := Execute(PlannerOf(lib), s, steps);
    LaterRunReads(PlannerOf(lib), s, steps, q, (Backup, id + ".pdf"), original);
    StaysReached(lib, s, steps);
    NotBegun(lib, end, q);
    RunFollowsPlan(lib, end, q);
    if end.runs[q].input.Some? && end.runs[q].done > 0 {
      RecreatingRunIs(lib, end, q);
    }
  }

  /** An attachment is recreated from its backup, if a run starts while that is not overwritten with another object. */
  lemma AttachmentIsRecreated(lib: Library, s: State, steps: seq<Step>, q: nat, serviceId: string, id: string,
                              filename: string, original: Object)
    requires ConverterContract(lib) && Reached(lib, s) && q !in s.runs
    requires Keeps(PlannerOf(lib), s, steps, (Backup, id + ".pdf"), original)
    requires var end := Execute(PlannerOf(lib), s, steps);
             q in end.runs && end.runs[q].task == RecreateAttachment(serviceId, id, filename)
    ensures var end := Execute(PlannerOf(lib), s, steps);
            var result := Sanitise(lib, original.data, false, true);
            if end.runs[q].done == 0 then History(end.log, q) == []
            else
              && result.message.None? && result.file.Some? && result.file.value.Pdf?
              && History(end.log, q) == [
                   Wrote((Attachments, "service-" + serviceId + "/" + id + ".pdf"),
                         Object(result.file.value, AttachmentInfo(|result.file.value.document.pages|, filename)))]
  {
    var end := Execute(PlannerOf(lib), s, steps);
    LaterRunReads(PlannerOf(lib), s, steps, q, (Backup, id + ".pdf"), original);
    StaysReached(lib, s, steps);
    NotBegun(lib, end, q);
    RunFollowsPlan(lib, end, q);
    if end.runs[q].input.Some? && end.runs[q].done > 0 {
      RecreatingRunIs(lib, end, q);
    }
  }

  /** Whatever is written to the backup bucket is the writer's own input, under its own id. */
  lemma OnlyOwnBackup(lib: Library, s: State, r: nat, key: Key, stored: Object)
    requires ConverterContract(lib) && Reached(lib, s)
    requires Wrote(key, stored) in History(s.log, r) && key.0 == Backup
    ensures r in s.runs && s.runs[r].task.SanitiseAndUpload? && s.runs[r].input == Some(stored)
    ensures key == (Backup, s.runs[r].task.notificationId + ".pdf")
  {
    ReachedKeeps(lib, s);
    ProgramPlansOk(lib);
    BackupWriter(PlannerOf(lib), s, r, key, stored);
  }
}
