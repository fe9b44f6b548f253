/**
 * The per-run record the photo-processing stages thread along: a
 * message's task record and the artifacts built from it. `buildContext` is the
 * constructor of `Context`; the nested `artifacts` object is flattened into
 * the class's fields.
 */
module PipelineContext {
  import opened Wrappers

  /**
   * The parsed task message. A field is `None` when the message does not
   * have it; the fields the stages do not read are kept in `passthrough`
   * as their JSON text (for instance `photoId`).
   */
  datatype Task = Task(
    bucket: Option<string>,
    originalPath: Option<string>,
    previewPath: Option<string>,
    watermarkPath: Option<string>,
    watermarkText: Option<string>,
    watermarkedOriginalPath: Option<string>,
    watermarkedPreviewPath: Option<string>,
    pubSubTopic: Option<string>,
    passthrough: map<string, string>)

  /** JavaScript truthiness of an optional string field: present and not empty. */
  predicate Truthy(field: Option<string>) {
    field.Some? && field.value != ""
  }

  /** One artifact field: `false` before a stage sets it, a value, or `null` after cleanup. */
  datatype Field<T> = Unset | Set(value: T) | Cleared

  /** `sharp(filename)`: a lazy decoder over a local file. */
  datatype ImageHandle = Sharp(file: string)

  /** An artifact slot (`original` or `watermark`). */
  datatype Slot = Slot(downloaded: Field<bool>, filename: Field<string>, image: Field<ImageHandle>)

  /** `{downloaded: false, filename: false, image: false}`. */
  const EmptySlot := Slot(Unset, Unset, Unset)

  /** Truthiness of `slot.filename`. */
  predicate HasFile(slot: Slot) {
    slot.filename.Set? && slot.filename.value != ""
  }

  /** The whole context as a value: what `JSON.stringify(context)` serialises. */
  datatype ContextValue = ContextValue(
    task: Option<Task>,
    original: Slot,
    aspectRatio: Field<real>,
    isPreviewUploaded: bool,
    watermark: Slot,
    isWatermarkedUploaded: bool)

  class Context {
    /** The message's task as given; `None` when the message parsed to a falsy value such as `null`. */
    const task: Option<Task>
    var original: Slot
    var aspectRatio: Field<real>
    var isPreviewUploaded: bool
    var watermark: Slot
    var isWatermarkedUploaded: bool

    /** `buildContext(task)`: both slots empty, the ratio and both flags `false`. */
    constructor (task: Option<Task>)
      ensures this.task == task
      ensures original == EmptySlot && watermark == EmptySlot
      ensures aspectRatio == Unset && !isPreviewUploaded && !isWatermarkedUploaded
    {
      this.task := task;
      original := EmptySlot;
      aspectRatio := Unset;
      isPreviewUploaded := false;
      watermark := EmptySlot;
      isWatermarkedUploaded := false;
    }

    function Value(): ContextValue
      reads this
    {
      ContextValue(task, original, aspectRatio, isPreviewUploaded, watermark, isWatermarkedUploaded)
    }
  }
}
