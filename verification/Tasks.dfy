/**
 The four tasks over buckets and queues: what each does, as a plan of actions, and the
 code that carries the plan out step by step while any S3 step may fail.
 */
module Tasks {
  import opened Wrappers
  import opened Documents
  import opened Text
  import opened Layout
  import opened Libraries
  import opened Streams
  import Validation
  import opened Sanitising
  import Pipeline
  import Templated

  datatype Bucket = Scan | Sanitised | Backup | LettersPdf | TestLetters | InvalidPdf | Attachments

  datatype Metadata = NoMetadata | LetterTooLong(pageCount: nat) | AttachmentInfo(pageCount: nat, filename: string)

  datatype Object = Object(data: Blob, metadata: Metadata)

  type Key = (Bucket, string)

  datatype Status = StatusPassed | StatusFailed

  datatype Message =
    | ProcessSanitisedLetter(
        status: Status, details: SanitiseDetails, filename: string, notificationId: string)
    | UpdateBillableUnits(notificationId: string, pageCount: nat)
    | UpdateValidationFailed(notificationId: string, pageCount: nat)

  /** What a message says of the result of sanitising. */
  datatype SanitiseDetails = SanitiseDetails(
    pageCount: Option<nat>, message: Option<Validation.Message>, invalidPages: Option<seq<nat>>, address: Option<string>)

  datatype Task =
    | SanitiseAndUpload(notificationId: string, filename: string, allowInternational: bool)
    | CreateTemplated(notificationId: string, letterFilename: string, testKey: bool)
    | RecreatePrecompiled(notificationId: string, fileLocation: string, allowInternational: bool)
    | RecreateAttachment(serviceId: string, attachmentId: string, originalFilename: string)

  /** What a task sets out to do once it has its input. */
  datatype Action =
    | Put(key: Key, stored: Object)
    | Copy(from: Key, key: Key)
    | Send(message: Message)

  /** What it has done. */
  datatype Effect = Wrote(key: Key, stored: Object) | Sent(message: Message)

  function BackupKey(id: string): Key { (Backup, id + ".pdf") }

  /** get_transient_letter_file_location */
  function AttachmentKey(serviceId: string, attachmentId: string): Key {
    (Attachments, "service-" + serviceId + "/" + attachmentId + ".pdf")
  }

  /** _remove_folder_from_filename */
  function RemoveFolder(filename: string): string {
    var parts := Split('/', filename);
    if |parts| > 1 then parts[1] else parts[0]
  }

  /** What is left of a name without its folder; a name of its own is left as it is. */
  lemma RemoveFolderIs(folder: string, name: string)
    requires '/' !in folder && '/' !in name
    ensures RemoveFolder(name) == name && RemoveFolder(folder + "/" + name) == name
  {
    SplitJoin('/', [name]);
    SplitJoin('/', [folder, name]);
    assert [folder, name][1..] == [name];
    assert Join('/', [folder, name]) == folder + "/" + name;
  }

  /** The object a task downloads; letters from templates are rendered instead. */
  function Source(task: Task): Option<Key> {
    match task
    case SanitiseAndUpload(_, filename, _) => Some((Scan, filename))
    case CreateTemplated(_, _, _) => None
    case RecreatePrecompiled(id, _, _) => Some(BackupKey(id))
    case RecreateAttachment(_, id, _) => Some(BackupKey(id))
  }

  function Details(r: SanitiseResult): SanitiseDetails {
    SanitiseDetails(r.pageCount, r.message, r.invalidPages, r.recipientAddress)
  }

  // ---- Plans ----

  function SanitisePlan(id: string, filename: string, r: SanitiseResult): seq<Action>
    requires FileOrMessage(r)
  {
    if r.message.Some? then
      [Send(ProcessSanitisedLetter(StatusFailed, Details(r), filename, id))]
    else
      [Put((Sanitised, filename), Object(r.file.value, NoMetadata)),
       Copy((Scan, filename), BackupKey(id)),
       Send(ProcessSanitisedLetter(StatusPassed, Details(r), filename, id))]
  }

  function TemplatedPlan(id: string, filename: string, testKey: bool, letter: Blob): seq<Action> {
    var pages := if letter.Pdf? then |letter.document.pages| else 0;
    if pages > LETTER_MAX_PAGE_COUNT then
      [Put((InvalidPdf, RemoveFolder(filename)), Object(letter, LetterTooLong(pages))),
       Send(UpdateValidationFailed(id, pages))]
    else
      [Put((if testKey then TestLetters else LettersPdf, filename), Object(letter, NoMetadata)),
       Send(UpdateBillableUnits(id, pages))]
  }

  function RecreatePlan(fileLocation: string, r: SanitiseResult): seq<Action>
    requires FileOrMessage(r)
  {
    if r.message.Some? then [] else [Put((LettersPdf, fileLocation), Object(r.file.value, NoMetadata))]
  }

  function AttachmentPlan(serviceId: string, id: string, originalFilename: string, r: SanitiseResult): seq<Action>
    requires FileOrMessage(r)
  {
    if r.message.Some? then []
    else [Put(AttachmentKey(serviceId, id), Object(r.file.value, AttachmentInfo(r.pageCount.value, originalFilename)))]
  }

  /** The actions of a task on its input, in order. */
  function Plan(lib: Library, task: Task, input: Blob): seq<Action> {
    match task
    case SanitiseAndUpload(id, filename, intl) =>
      SanitiseGivesFileOrMessage(lib, input, intl, false);
      SanitisePlan(id, filename, Sanitise(lib, input, intl, false))
    case CreateTemplated(id, filename, testKey) =>
      TemplatedPlan(id, filename, testKey, input)
    case RecreatePrecompiled(_, fileLocation, intl) =>
      SanitiseGivesFileOrMessage(lib, input, intl, false);
      RecreatePlan(fileLocation, Sanitise(lib, input, intl, false))
    case RecreateAttachment(serviceId, id, originalFilename) =>
      SanitiseGivesFileOrMessage(lib, input, false, true);
      AttachmentPlan(serviceId, id, originalFilename, Sanitise(lib, input, false, true))
  }

  /** The effect of an action, given what a copied object holds. */
  function EffectOf(action: Action, copied: Object): Effect {
    match action
    case Put(key, stored) => Wrote(key, stored)
    case Copy(_, key) => Wrote(key, copied)
    case Send(message) => Sent(message)
  }

  function Effects(plan: seq<Action>, copied: Object): seq<Effect> {
    seq(|plan|, i requires 0 <= i < |plan| => EffectOf(plan[i], copied))
  }

  /** What effects make of the buckets. */
  function Applied(objects: map<Key, Object>, effects: seq<Effect>): map<Key, Object> {
    if effects == [] then objects
    else
      var last := effects[|effects| - 1];
      var before := Applied(objects, effects[..|effects| - 1]);
      if last.Wrote? then before[last.key := last.stored] else before
  }

  lemma AppliedSnoc(objects: map<Key, Object>, effects: seq<Effect>, n: nat)
    requires n < |effects|
    ensures Applied(objects, effects[..n + 1])
         == if effects[n].Wrote? then Applied(objects, effects[..n])[effects[n].key := effects[n].stored]
            else Applied(objects, effects[..n])
  {
    assert effects[..n + 1][..n] == effects[..n];
  }

  // ---- The code ----

  /** Buckets, and what has been done to them and sent so far. */
  datatype View = View(objects: map<Key, Object>, done: seq<Effect>)

  /** Buckets and queue; every access to S3 may fail. */
  class Cloud {
    var objects: map<Key, Object>
    var done: seq<Effect>

    function Now(): View
      reads this
    {
      View(objects, done)
    }

    method Download(key: Key) returns (stored: Option<Object>)
      ensures stored.Some? ==> key in objects && stored.value == objects[key]
    {
      var failed: bool := *;
      stored := if failed || key !in objects then None else Some(objects[key]);
    }

    method Upload(key: Key, stored: Object) returns (ok: bool)
      modifies this
      ensures ok ==> objects == old(objects)[key := stored] && done == old(done) + [Wrote(key, stored)]
      ensures !ok ==> objects == old(objects) && done == old(done)
    {
      var failed: bool := *;
      ok := !failed;
      if ok {
        objects := objects[key := stored];
        done := done + [Wrote(key, stored)];
      }
    }

    method CopyObject(from: Key, key: Key) returns (ok: bool)
      modifies this
      ensures ok ==>
                && from in old(objects) && objects == old(objects)[key := old(objects)[from]]
                && done == old(done) + [Wrote(key, old(objects)[from])]
      ensures !ok ==> objects == old(objects) && done == old(done)
    {
      var failed: bool := *;
      ok := !failed && from in objects;
      if ok {
        done := done + [Wrote(key, objects[from])];
        objects := objects[key := objects[from]];
      }
    }

    method SendTask(message: Message)
      modifies this`done
      ensures done == old(done) + [Sent(message)]
    {
      done := done + [Sent(message)];
    }
  }

  /** The beginning of a plan has been carried out; all of it, if the run was not cut short. */
  ghost predicate Carried(plan: seq<Action>, input: Object, before: View, after: View, completed: bool) {
    exists n :: && 0 <= n <= |plan| && CarriedTo(plan, input, before, after, n)
                && (completed ==> n == |plan|)
  }

  ghost predicate CarriedTo(plan: seq<Action>, input: Object, before: View, after: View, n: nat)
    requires n <= |plan|
  {
    after == View(Applied(before.objects, Effects(plan, input)[..n]), before.done + Effects(plan, input)[..n])
  }

  lemma CarriedFurther(plan: seq<Action>, input: Object, before: View, between: View, after: View, n: nat)
    requires n < |plan| && CarriedTo(plan, input, before, between, n)
    requires var effect := EffectOf(plan[n], input);
             after == View(if effect.Wrote? then between.objects[effect.key := effect.stored] else between.objects,
                           between.done + [effect])
    ensures CarriedTo(plan, input, before, after, n + 1)
  {
    var effects := Effects(plan, input);
    AppliedSnoc(before.objects, effects, n);
    assert effects[..n + 1] == effects[..n] + [effects[n]];
  }

  lemma NothingCarried(plan: seq<Action>, input: Object, before: View)
    ensures CarriedTo(plan, input, before, before, 0)
  {
    assert Effects(plan, input)[..0] == [];
  }

  /** sanitise_and_upload_letter, once the letter has been sanitised. */
  method StoreSanitised(cloud: Cloud, notificationId: string, filename: string, details: SanitiseResult, ghost scanned: Object)
    returns (completed: bool)
    requires FileOrMessage(details)
    requires (Scan, filename) in cloud.objects && cloud.objects[(Scan, filename)] == scanned
    modifies cloud
    ensures Carried(SanitisePlan(notificationId, filename, details), scanned, old(cloud.Now()), cloud.Now(), completed)
  {
    ghost var plan := SanitisePlan(notificationId, filename, details);
    ghost var start := cloud.Now();
    NothingCarried(plan, scanned, start);
    var validationStatus := StatusFailed;
    if details.message.None? {
      validationStatus := StatusPassed;
      var uploaded := cloud.Upload((Sanitised, filename), Object(details.file.value, NoMetadata));
      if !uploaded {
        return false;
      }
      ghost var stored := cloud.Now();
      CarriedFurther(plan, scanned, start, start, stored, 0);
      // a backup copy of the original
      var copied := cloud.CopyObject((Scan, filename), BackupKey(notificationId));
      if !copied {
        return false;
      }
      CarriedFurther(plan, scanned, start, stored, cloud.Now(), 1);
    }
    ghost var before := cloud.Now();
    cloud.SendTask(ProcessSanitisedLetter(validationStatus, Details(details), filename, notificationId));
    CarriedFurther(plan, scanned, start, before, cloud.Now(), |plan| - 1);
    completed := true;
  }

  /** What a run did to the cloud, given what its input was; nothing, if the input could not be had. */
  ghost predicate Ran(lib: Library, task: Task, source: Key, before: View, after: View, completed: bool) {
    || (!completed && after == before)
    || (source in before.objects
        && Carried(Plan(lib, task, before.objects[source].data), before.objects[source], before, after, completed))
  }

  /** sanitise_and_upload_letter; false if an S3 error cut it short. */
  method SanitiseAndUploadLetter(lib: Library, cloud: Cloud, notificationId: string, filename: string, allowInternational: bool)
    returns (completed: bool)
    modifies cloud
    ensures Ran(lib, SanitiseAndUpload(notificationId, filename, allowInternational), (Scan, filename),
                old(cloud.Now()), cloud.Now(), completed)
  {
    var scanned := cloud.Download((Scan, filename));
    if scanned.None? {
      return false;
    }
    var details := Pipeline.SanitiseFileContents(lib, scanned.value.data, allowInternational, false);
    SanitiseGivesFileOrMessage(lib, scanned.value.data, allowInternational, false);
    completed := StoreSanitised(cloud, notificationId, filename, details, scanned.value);
  }

  /** create_pdf_for_templated_letter, from the rendered letter on. */
  method UploadTemplatedLetter(cloud: Cloud, notificationId: string, letterFilename: string, testKey: bool, cmykPdf: BytesIO)
    returns (completed: bool)
    requires cmykPdf.content.Pdf?
    modifies cloud, cmykPdf`pos
    ensures Carried(TemplatedPlan(notificationId, letterFilename, testKey, cmykPdf.content),
                    Object(cmykPdf.content, NoMetadata), old(cloud.Now()), cloud.Now(), completed)
    ensures !completed ==> cloud.Now() == old(cloud.Now())
  {
    ghost var input := Object(cmykPdf.content, NoMetadata);
    ghost var plan := TemplatedPlan(notificationId, letterFilename, testKey, cmykPdf.content);
    ghost var start := cloud.Now();
    NothingCarried(plan, input, start);
    var document := cmykPdf.Open();
    var pageCount := |document.value.pages|;
    cmykPdf.Rewind();

    var metadata := NoMetadata;
    var message := UpdateBillableUnits(notificationId, pageCount);
    var filename := letterFilename;
    var bucketName;
    if pageCount > LETTER_MAX_PAGE_COUNT {
      bucketName := InvalidPdf;
      message := UpdateValidationFailed(notificationId, pageCount);
      filename := RemoveFolder(letterFilename);
      metadata := LetterTooLong(pageCount);
    } else if testKey {
      bucketName := TestLetters;
    } else {
      bucketName := LettersPdf;
    }

    var data := cmykPdf.Read();
    var uploaded := cloud.Upload((bucketName, filename), Object(data, metadata));
    if !uploaded {
      return false;
    }
    ghost var stored := cloud.Now();
    CarriedFurther(plan, input, start, start, stored, 0);
    cloud.SendTask(message);
    CarriedFurther(plan, input, start, stored, cloud.Now(), 1);
    completed := true;
  }

  /** How an attempt at a letter from a template ends: CutShort is an S3 error, Retry a failure to render. */
  datatype Attempt = Completed | CutShort | Retry | Raised

  /** create_pdf_for_templated_letter: an attempt that is retried, or that raises, has done nothing. */
  method CreatePdfForTemplatedLetter(lib: Library, cloud: Cloud, notificationId: string, letterFilename: string, testKey: bool,
                                     details: Templated.TemplateDetails,
                                     create: (Templated.Language, bool) -> Option<Document>, attachment: Option<Blob>)
    returns (attempt: Attempt)
    modifies cloud
    ensures attempt == Retry <==> Templated.Letter(details, create).None?
    ensures var letter := Templated.Generated(lib, details, create, attachment, Templated.Print);
            if letter.Some? then
              && Carried(TemplatedPlan(notificationId, letterFilename, testKey, Pdf(letter.value)),
                         Object(Pdf(letter.value), NoMetadata), old(cloud.Now()), cloud.Now(), attempt == Completed)
              && (attempt == Completed || (attempt == CutShort && cloud.Now() == old(cloud.Now())))
            else (attempt == Retry || attempt == Raised) && cloud.Now() == old(cloud.Now())
  {
    if Templated.Letter(details, create).None? {
      return Retry;
    }
    var cmykPdf := Templated.GenerateTemplatedPdf(lib, details, create, attachment, Templated.Print);
    if cmykPdf.None? {
      return Raised;
    }
    var completed := UploadTemplatedLetter(cloud, notificationId, letterFilename, testKey, cmykPdf.value);
    attempt := if completed then Completed else CutShort;
  }

  /** The end of recreate_pdf_for_precompiled_letter: nothing is stored of a letter that no longer passes. */
  method StoreRecreatedLetter(cloud: Cloud, fileLocation: string, details: SanitiseResult, ghost original: Object)
    returns (completed: bool)
    requires FileOrMessage(details)
    modifies cloud
    ensures Carried(RecreatePlan(fileLocation, details), original, old(cloud.Now()), cloud.Now(), completed)
  {
    ghost var plan, start := RecreatePlan(fileLocation, details), cloud.Now();
    NothingCarried(plan, original, start);
    if details.message.Some? {
      return true;
    }
    completed := cloud.Upload((LettersPdf, fileLocation), Object(details.file.value, NoMetadata));
    if completed {
      CarriedFurther(plan, original, start, start, cloud.Now(), 0);
    }
  }

  /** recreate_pdf_for_precompiled_letter */
  method RecreatePdfForPrecompiledLetter(lib: Library, cloud: Cloud, notificationId: string, fileLocation: string,
                                         allowInternational: bool) returns (completed: bool)
    modifies cloud
    ensures Ran(lib, RecreatePrecompiled(notificationId, fileLocation, allowInternational), BackupKey(notificationId),
                old(cloud.Now()), cloud.Now(), completed)
  {
    var original := cloud.Download(BackupKey(notificationId));
    if original.None? {
      return false;
    }
    var details := Pipeline.SanitiseFileContents(lib, original.value.data, allowInternational, false);
    SanitiseGivesFileOrMessage(lib, original.value.data, allowInternational, false);
    completed := StoreRecreatedLetter(cloud, fileLocation, details, original.value);
  }

  /** The end of recreate_pdf_for_template_letter_attachments. */
  method StoreRecreatedAttachment(cloud: Cloud, serviceId: string, attachmentId: string, originalFilename: string,
                                  details: SanitiseResult, ghost original: Object) returns (completed: bool)
    requires FileOrMessage(details)
    modifies cloud
    ensures Carried(AttachmentPlan(serviceId, attachmentId, originalFilename, details), original,
                    old(cloud.Now()), cloud.Now(), completed)
  {
    ghost var plan, start := AttachmentPlan(serviceId, attachmentId, originalFilename, details), cloud.Now();
    NothingCarried(plan, original, start);
    if details.message.Some? {
      return true;
    }
    var metadata := AttachmentInfo(details.pageCount.value, originalFilename);
    completed := cloud.Upload(AttachmentKey(serviceId, attachmentId), Object(details.file.value, metadata));
    if completed {
      CarriedFurther(plan, original, start, start, cloud.Now(), 0);
    }
  }

  /** recreate_pdf_for_template_letter_attachments */
  method RecreatePdfForAttachment(lib: Library, cloud: Cloud, serviceId: string, attachmentId: string,
                                  originalFilename: string) returns (completed: bool)
    modifies cloud
    ensures Ran(lib, RecreateAttachment(serviceId, attachmentId, originalFilename), BackupKey(attachmentId),
                old(cloud.Now()), cloud.Now(), completed)
  {
    var original := cloud.Download(BackupKey(attachmentId));
    if original.None? {
      return false;
    }
    var details := Pipeline.SanitiseFileContents(lib, original.value.data, false, true);
    SanitiseGivesFileOrMessage(lib, original.value.data, false, true);
    completed := StoreRecreatedAttachment(cloud, serviceId, attachmentId, originalFilename, details, original.value);
  }
}
