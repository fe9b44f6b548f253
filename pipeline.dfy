/**
 * `doProcessing`: the Cloud Function entry point that builds a context
 * from a Pub/Sub message and runs the stages in a fixed order as one
 * promise chain, ending the process with -1 on the first rejection.
 */
module Pipeline {
  import opened Wrappers
  import opened PipelineContext
  import Services
  import opened Stages

  datatype StageName =
    | Download | Aspect | Preview | DownloadWatermark | GenerateTextWatermark
    | Watermark | Cleanup | Response | Debug

  /** The order of the `.then` chain. */
  const StageOrder: seq<StageName> :=
    [Download, Aspect, Preview, DownloadWatermark, GenerateTextWatermark, Watermark, Cleanup, Response, Debug]

  /**
   * The answers of the outside world for one run: the temporary directory,
   * whether each storage, sharp and Pub/Sub call succeeds, the size sharp
   * reports, and how the two watermark stages end (`None`: they resolve
   * with the context untouched).
   */
  datatype World = World(
    tmpDir: string,
    downloadOk: bool,
    metadata: Option<Dimensions>,
    resizeOk: bool,
    uploadOk: bool,
    downloadWatermark: Option<Failure>,
    generateTextWatermark: Option<Failure>,
    publishOk: bool)

  /**
   * How a run ends: every stage ran; the `.catch` handler logged a
   * rejection of `stage` and exited the process with `code`; or
   * `doProcessing`'s own promise rejected, which nothing handles.
   */
  datatype Outcome =
    | Completed
    | Exited(code: int, stage: StageName, error: Failure)
    | Thrown(error: Failure)

  /** The chain is stopped by a rejection only, never by a stage that hands back the bare context. */
  predicate Continues(r: StageResult) {
    !r.Rejected?
  }

  /**
   * The chain after the first stage, `.then(aspectStage)` to
   * `.then(debugStage)` with its `.catch`: a rejection skips the rest.
   */
  method RunRest(c: Context, w: World, disk: Services.Disk, cloud: Services.Cloud) returns (outcome: Outcome, ran: seq<StageName>)
    modifies c`original, c`aspectRatio, c`isPreviewUploaded, disk, cloud
    ensures 1 <= |ran| < |StageOrder| && ran == StageOrder[1..1 + |ran|]
    ensures outcome.Completed? <==> 1 + |ran| == |StageOrder|
    ensures !outcome.Thrown?
    ensures outcome.Exited? ==> outcome.code == -1 && outcome.stage == ran[|ran| - 1]
    ensures Cleanup !in ran ==>
      c.original == old(c.original) && old(disk.files) - PreviewFiles(w.tmpDir, c.task) <= disk.files
    ensures Cleanup !in ran && old(c.original).image.Set? && old(c.original).image.value.file in old(disk.files) ==>
      old(c.original).image.value.file in disk.files
    ensures outcome.Completed? ==>
      !HasFile(c.original) && (HasFile(old(c.original)) ==> old(c.original).filename.value !in disk.files)
    ensures old(c.original) == EmptySlot && w.downloadWatermark.None? && w.generateTextWatermark.None? ==>
      outcome.Completed? || (outcome.Exited? && outcome.stage == Response)
    ensures
      (old(c.original) == EmptySlot && c.task.Some? && Truthy(c.task.value.pubSubTopic) &&
       w.downloadWatermark.None? && w.generateTextWatermark.None?) ==>
      Services.Publish(c.task.value.pubSubTopic.value, c.Value()) in cloud.calls
    ensures
      PreviewReady(c.task, old(c.original)) && SameInputOutput(w.tmpDir, c.task, old(c.original)) && w.metadata.Some? ==>
      outcome == Exited(-1, Preview, ImageError) && c.original == old(c.original) && disk.files == old(disk.files)
  {
    var r := AspectStage(c, w.metadata);
    ran := [Aspect];
    assert ran == StageOrder[1..2];
    if !Continues(r) {
      return Exited(-1, Aspect, r.error), ran;
    }
    var rest;
    outcome, rest := RunFromPreview(c, w, disk, cloud);
    assert ran + rest == StageOrder[1..2 + |rest|];
    ran := ran + rest;
  }

  /** The chain from `.then(previewStage)` on. */
  method RunFromPreview(c: Context, w: World, disk: Services.Disk, cloud: Services.Cloud) returns (outcome: Outcome, ran: seq<StageName>)
    modifies c`original, c`isPreviewUploaded, disk, cloud
    ensures 1 <= |ran| <= 7 && ran == StageOrder[2..2 + |ran|]
    ensures outcome.Completed? <==> 2 + |ran| == |StageOrder|
    ensures !outcome.Thrown?
    ensures outcome.Exited? ==> outcome.code == -1 && outcome.stage == ran[|ran| - 1]
    ensures Cleanup !in ran ==>
      c.original == old(c.original) && old(disk.files) - PreviewFiles(w.tmpDir, c.task) <= disk.files
    ensures Cleanup !in ran && old(c.original).image.Set? && old(c.original).image.value.file in old(disk.files) ==>
      old(c.original).image.value.file in disk.files
    ensures outcome.Completed? ==>
      !HasFile(c.original) && (HasFile(old(c.original)) ==> old(c.original).filename.value !in disk.files)
    ensures old(c.original) == EmptySlot && w.downloadWatermark.None? && w.generateTextWatermark.None? ==>
      outcome.Completed? || (outcome.Exited? && outcome.stage == Response)
    ensures
      (old(c.original) == EmptySlot && c.task.Some? && Truthy(c.task.value.pubSubTopic) &&
       w.downloadWatermark.None? && w.generateTextWatermark.None?) ==>
      Services.Publish(c.task.value.pubSubTopic.value, c.Value()) in cloud.calls
    ensures
      PreviewReady(c.task, old(c.original)) && SameInputOutput(w.tmpDir, c.task, old(c.original)) ==>
      outcome == Exited(-1, Preview, ImageError) && c.original == old(c.original) && disk.files == old(disk.files)
  {
    var r := PreviewStage(c, w.tmpDir, disk, cloud, w.resizeOk, w.uploadOk);
    ran := [Preview];
    assert ran == StageOrder[2..3];
    if !Continues(r) {
      return Exited(-1, Preview, r.error), ran;
    }
    var rest;
    outcome, rest := RunWatermarks(c, w, disk, cloud);
    assert ran + rest == StageOrder[2..3 + |rest|];
    ran := ran + rest;
  }

  /** The chain from `.then(downloadWatermarkStage)` on. */
  method RunWatermarks(c: Context, w: World, disk: Services.Disk, cloud: Services.Cloud) returns (outcome: Outcome, ran: seq<StageName>)
    modifies c`original, disk, cloud
    ensures 1 <= |ran| <= 6 && ran == StageOrder[3..3 + |ran|]
    ensures outcome.Completed? <==> 3 + |ran| == |StageOrder|
    ensures !outcome.Thrown?
    ensures outcome.Exited? ==> outcome.code == -1 && outcome.stage == ran[|ran| - 1]
    ensures Cleanup !in ran ==> c.original == old(c.original) && disk.files == old(disk.files)
    ensures outcome.Completed? ==>
      !HasFile(c.original) && (HasFile(old(c.original)) ==> old(c.original).filename.value !in disk.files)
    ensures !HasFile(old(c.original)) && w.downloadWatermark.None? && w.generateTextWatermark.None? ==>
      outcome.Completed? || (outcome.Exited? && outcome.stage == Response)
    ensures
      (!HasFile(old(c.original)) && c.task.Some? && Truthy(c.task.value.pubSubTopic) &&
       w.downloadWatermark.None? && w.generateTextWatermark.None?) ==>
      Services.Publish(c.task.value.pubSubTopic.value, c.Value()) in cloud.calls
    ensures
      HasFile(old(c.original)) && old(c.original).filename.value !in old(disk.files) &&
      w.downloadWatermark.None? && w.generateTextWatermark.None? ==>
      outcome == Exited(-1, Cleanup, MissingFile(old(c.original).filename.value))
  {
    ran := [DownloadWatermark];
    assert ran == StageOrder[3..4];
    if w.downloadWatermark.Some? {
      return Exited(-1, DownloadWatermark, w.downloadWatermark.value), ran;
    }
    ran := ran + [GenerateTextWatermark];
    assert ran == StageOrder[3..5];
    if w.generateTextWatermark.Some? {
      return Exited(-1, GenerateTextWatermark, w.generateTextWatermark.value), ran;
    }
    var tail;
    outcome, tail := RunTail(c, w, disk, cloud);
    assert ran + tail == StageOrder[3..5 + |tail|];
    ran := ran + tail;
  }

  /**
   * The end of the chain, `.then(watermarkStage)` to `.then(debugStage)`:
   * the cleanup always runs, and the response stage only after a cleanup
   * that resolved.
   */
  method RunTail(c: Context, w: World, disk: Services.Disk, cloud: Services.Cloud) returns (outcome: Outcome, ran: seq<StageName>)
    modifies c`original, disk, cloud
    ensures 2 <= |ran| <= 4 && ran == StageOrder[5..5 + |ran|] && Cleanup in ran
    ensures outcome.Completed? <==> 5 + |ran| == |StageOrder|
    ensures !outcome.Thrown?
    ensures outcome.Exited? ==> outcome.code == -1 && outcome.stage == ran[|ran| - 1]
    ensures outcome.Completed? ==>
      !HasFile(c.original) && (HasFile(old(c.original)) ==> old(c.original).filename.value !in disk.files)
    ensures !HasFile(old(c.original)) ==> outcome.Completed? || (outcome.Exited? && outcome.stage == Response)
    ensures !HasFile(old(c.original)) && c.task.Some? && Truthy(c.task.value.pubSubTopic) ==>
      Services.Publish(c.task.value.pubSubTopic.value, c.Value()) in cloud.calls
    ensures HasFile(old(c.original)) && old(c.original).filename.value !in old(disk.files) ==>
      outcome == Exited(-1, Cleanup, MissingFile(old(c.original).filename.value))
  {
    // watermarkStage hands the context back as it is
    ran := [Watermark];
    var r := CleanupStage(c, disk);
    ran := ran + [Cleanup];
    assert ran == StageOrder[5..7] && ran[1] == Cleanup;
    if !Continues(r) {
      return Exited(-1, Cleanup, r.error), ran;
    }
    r := ResponseStage(c, cloud, w.publishOk);
    ran := ran + [Response];
    assert ran == StageOrder[5..8];
    if !Continues(r) {
      return Exited(-1, Response, r.error), ran;
    }
    // debugStage only logs the context
    ran := ran + [Debug];
    outcome := Completed;
  }

  /** A chain started on a context fresh from `buildContext`. */
  predicate Fresh(c: Context)
    reads c
  {
    c.original == EmptySlot && c.aspectRatio == Unset && !c.isPreviewUploaded
  }

  /**
   * The chain as written: `.then` is called on whatever `downloadStage`
   * returns, so when the download precondition fails the bare context has
   * no `.then`, and the TypeError rejects `doProcessing` before `.catch`
   * is attached.
   */
  method RunStages(c: Context, w: World, disk: Services.Disk, cloud: Services.Cloud) returns (outcome: Outcome, ran: seq<StageName>)
    requires Fresh(c)
    modifies c`original, c`aspectRatio, c`isPreviewUploaded, disk, cloud
    ensures 1 <= |ran| <= |StageOrder| && ran == StageOrder[..|ran|]
    ensures outcome.Completed? <==> ran == StageOrder
    ensures outcome.Exited? ==> outcome.code == -1 && outcome.stage == ran[|ran| - 1]
    ensures outcome.Thrown? <==> !DownloadReady(c.task)
    ensures !DownloadReady(c.task) ==>
      outcome == Thrown(TypeError) && ran == [Download] &&
      c.original == old(c.original) && disk.files == old(disk.files) && cloud.calls == old(cloud.calls)
    ensures
      (DownloadReady(c.task) && w.downloadOk && outcome.Exited? && Cleanup !in ran) ==>
      OriginalFile(w.tmpDir, c.task) in disk.files
    ensures DownloadReady(c.task) && outcome.Completed? ==> OriginalFile(w.tmpDir, c.task) !in disk.files
    ensures
      DownloadReady(c.task) && Truthy(c.task.value.previewPath) &&
      PreviewFiles(w.tmpDir, c.task) == {OriginalFile(w.tmpDir, c.task)} && w.downloadOk && w.metadata.Some? ==>
      outcome == Exited(-1, Preview, ImageError) && OriginalFile(w.tmpDir, c.task) in disk.files
  {
    var r := DownloadStage(c, w.tmpDir, disk, cloud, w.downloadOk);
    ran := [Download];
    if r.Bare? {
      return Thrown(TypeError), ran;
    }
    if r.Rejected? {
      return Exited(-1, Download, r.error), ran;
    }
    outcome, ran := RunDownloaded(c, w, disk, cloud, OriginalFile(w.tmpDir, c.task));
  }

  /** `downloadStage` resolved with the original in file `f`, then the rest of the chain. */
  method RunDownloaded(c: Context, w: World, disk: Services.Disk, cloud: Services.Cloud, f: string)
    returns (outcome: Outcome, ran: seq<StageName>)
    requires c.original == Slot(Set(true), Set(f), Set(Sharp(f))) && f != "" && f in disk.files
    modifies c`original, c`aspectRatio, c`isPreviewUploaded, disk, cloud
    ensures 2 <= |ran| <= |StageOrder| && ran == StageOrder[..|ran|]
    ensures outcome.Completed? <==> ran == StageOrder
    ensures !outcome.Thrown?
    ensures outcome.Exited? ==> outcome.code == -1 && outcome.stage == ran[|ran| - 1]
    ensures outcome.Exited? && Cleanup !in ran ==> f in disk.files
    ensures outcome.Completed? ==> f !in disk.files
    ensures
      c.task.Some? && Truthy(c.task.value.previewPath) && Truthy(c.task.value.bucket) &&
      PreviewFiles(w.tmpDir, c.task) == {f} && w.metadata.Some? ==>
      outcome == Exited(-1, Preview, ImageError) && f in disk.files
  {
    var rest;
    outcome, rest := RunRest(c, w, disk, cloud);
    ran := [Download] + rest;
    assert ran == StageOrder[..1 + |rest|];
  }

  /**
   * The chain as evidently intended, `Promise.resolve(downloadStage(c)).then(…)`:
   * a download stage with nothing to do passes the context on like every
   * other stage, so the run never ends in an unhandled rejection.
   */
  method RunStagesFixed(c: Context, w: World, disk: Services.Disk, cloud: Services.Cloud) returns (outcome: Outcome, ran: seq<StageName>)
    requires Fresh(c)
    modifies c`original, c`aspectRatio, c`isPreviewUploaded, disk, cloud
    ensures 1 <= |ran| <= |StageOrder| && ran == StageOrder[..|ran|]
    ensures outcome.Completed? <==> ran == StageOrder
    ensures outcome.Exited? ==> outcome.code == -1 && outcome.stage == ran[|ran| - 1]
    ensures !outcome.Thrown?
    ensures !DownloadReady(c.task) && w.downloadWatermark.None? && w.generateTextWatermark.None? ==>
      outcome.Completed? || (outcome.Exited? && outcome.stage == Response)
    ensures
      (!DownloadReady(c.task) && c.task.Some? && Truthy(c.task.value.pubSubTopic) &&
       w.downloadWatermark.None? && w.generateTextWatermark.None?) ==>
      Services.Publish(c.task.value.pubSubTopic.value, c.Value()) in cloud.calls
  {
    var r := DownloadStage(c, w.tmpDir, disk, cloud, w.downloadOk);
    ran := [Download];
    if r.Rejected? {
      return Exited(-1, Download, r.error), ran;
    }
    var rest;
    outcome, rest := RunRest(c, w, disk, cloud);
    ran := ran + rest;
  }

  /** `event.data`: absent (`undefined`), `null`, or the base64 text of the message. */
  datatype EventData = Absent | NullData | Data(text: string)

  /**
   * `doProcessing(event)`: `parse` stands for base64 decoding followed by
   * `JSON.parse`, `None` meaning that `JSON.parse` throws and `Some(None)`
   * that the message is the JSON `null`. A falsy `event.data` is handed to
   * `JSON.parse` as it is: `undefined` and `""` throw, while `null` parses
   * to `null` and the chain then fails on the bare context.
   */
  method DoProcessing(data: EventData, parse: string -> Option<Option<Task>>, w: World, disk: Services.Disk, cloud: Services.Cloud)
    returns (outcome: Outcome, ran: seq<StageName>)
    modifies disk, cloud
    ensures data.Absent? || data == Data("") || (data.Data? && data.text != "" && parse(data.text).None?) ==>
      outcome == Thrown(SyntaxError) && ran == [] && disk.files == old(disk.files) && cloud.calls == old(cloud.calls)
    ensures data.NullData? ==>
      outcome == Thrown(TypeError) && ran == [Download] && disk.files == old(disk.files) && cloud.calls == old(cloud.calls)
    ensures data.Data? && data.text != "" && parse(data.text).Some? ==>
      var task := parse(data.text).value;
      1 <= |ran| <= |StageOrder| && ran == StageOrder[..|ran|] &&
      (outcome.Completed? <==> ran == StageOrder) &&
      (outcome.Exited? ==> outcome.code == -1 && outcome.stage == ran[|ran| - 1]) &&
      (outcome.Thrown? <==> !DownloadReady(task)) &&
      (DownloadReady(task) && outcome.Completed? ==> OriginalFile(w.tmpDir, task) !in disk.files)
  {
    if data.NullData? {
      var c := new Context(None);
      outcome, ran := RunStages(c, w, disk, cloud);
      return;
    }
    if data.Absent? || data.text == "" {
      return Thrown(SyntaxError), [];
    }
    var parsed := parse(data.text);
    if parsed.None? {
      return Thrown(SyntaxError), [];
    }
    var c := new Context(parsed.value);
    outcome, ran := RunStages(c, w, disk, cloud);
  }
}
