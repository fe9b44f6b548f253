/**
 * The stages of the photo-processing pipeline. Each stage checks its own
 * precondition on the context, hands the context back untouched when it
 * fails, and otherwise talks to the outside world and updates a few
 * fields. Whether an outside call succeeds, and the image size sharp
 * reports, are parameters.
 */
module Stages {
  import opened Wrappers
  import JsString
  import Paths
  import opened PipelineContext
  import opened Services

  /** The width, in pixels, of a preview. */
  const PreviewWidth := 760

  const TwoTo31 := 0x8000_0000
  const TwoTo32 := 0x1_0000_0000

  /** A JavaScript 32-bit signed integer, the result of the bitwise operators. */
  type Int32 = x: int | -0x8000_0000 <= x < 0x8000_0000

  /** ECMAScript ToInt32: `x` brought into the signed 32-bit range modulo 2^32. */
  function ToInt32(x: int): (r: Int32)
    ensures (x - r) % TwoTo32 == 0
  {
    (x + TwoTo31) % TwoTo32 - TwoTo31
  }

  /** Adding a multiple of 2^32 does not change ToInt32. */
  lemma ToInt32Periodic(x: int, k: int)
    ensures ToInt32(x + k * TwoTo32) == ToInt32(x)
  {
    var a := x + TwoTo31;
    assert (a + k * TwoTo32) % TwoTo32 == a % TwoTo32 by {
      var q := a / TwoTo32;
      assert a + k * TwoTo32 == (q + k) * TwoTo32 + a % TwoTo32;
    }
  }

  /** A value already in range is its own ToInt32. */
  lemma ToInt32OfInt32(x: Int32)
    ensures ToInt32(x) == x
  {
  }

  /** One step of `hashCode` on code unit `u`: `31 * hash + u`, wrapped to 32 bits. */
  function HashStep(h: Int32, u: JsString.CodeUnit): Int32 {
    ToInt32(31 * h + u)
  }

  /** The hash of a sequence of UTF-16 code units, folded from the left. */
  function HashOfUnits(u: seq<JsString.CodeUnit>): Int32 {
    if u == [] then 0 else HashStep(HashOfUnits(u[..|u| - 1]), u[|u| - 1])
  }

  /** `hashCode(str)` over the string's UTF-16 code units. */
  function StringHash(s: string): Int32 {
    HashOfUnits(JsString.Units(s))
  }

  function Pow31(k: nat): nat {
    if k == 0 then 1 else 31 * Pow31(k - 1)
  }

  /** The polynomial of Java's `String.hashCode`, without any wrap-around: the sum of unit i times 31^(n-1-i). */
  function Polynomial(u: seq<JsString.CodeUnit>): int {
    if u == [] then 0 else u[0] * Pow31(|u| - 1) + Polynomial(u[1..])
  }

  /**
   * `hashCode`: the loop of the source, computing `(hash << 5) - hash + unit`
   * and truncating with `hash & hash`, one code unit at a time.
   */
  method HashCode(s: string) returns (hash: Int32)
    ensures hash == StringHash(s)
  {
    var units := JsString.Units(s);
    hash := 0;
    if |units| == 0 {
      return;
    }
    var i := 0;
    while i < |units|
      invariant 0 <= i <= |units|
      invariant hash == HashOfUnits(units[..i])
    {
      var shifted := ToInt32(hash * 32);
      var next := shifted - hash + units[i];
      ShiftStep(hash, units[i]);
      hash := ToInt32(next);
      assert units[..i + 1][..i] == units[..i];
      i := i + 1;
    }
    assert units[..i] == units;
  }

  /** `((h << 5) - h + u) & ((h << 5) - h + u)` is `HashStep(h, u)`. */
  lemma ShiftStep(h: Int32, u: JsString.CodeUnit)
    ensures ToInt32(ToInt32(h * 32) - h + u) == HashStep(h, u)
  {
    var s := ToInt32(h * 32);
    var k := (h * 32 - s) / TwoTo32;
    assert h * 32 - s == k * TwoTo32;
    assert s - h + u == (31 * h + u) + (-k) * TwoTo32;
    ToInt32Periodic(31 * h + u, -k);
  }

  /** The empty string hashes to 0. */
  lemma HashOfEmpty()
    ensures StringHash("") == 0
  {
  }

  /** Wrapping at every step is the same as wrapping the whole polynomial once. */
  lemma {:induction false} HashIsPolynomial(u: seq<JsString.CodeUnit>)
    ensures HashOfUnits(u) == ToInt32(Polynomial(u))
    decreases |u|
  {
    if u != [] {
      var init := u[..|u| - 1];
      var last := u[|u| - 1];
      HashIsPolynomial(init);
      PolynomialSnoc(init, last);
      assert init + [last] == u;
      var h := HashOfUnits(init);
      var p := Polynomial(init);
      var k := (p - h) / TwoTo32;
      assert p - h == k * TwoTo32;
      assert 31 * p + last == (31 * h + last) + (31 * k) * TwoTo32;
      ToInt32Periodic(31 * h + last, 31 * k);
    }
  }

  /** Horner's rule: appending a unit multiplies the polynomial by 31 and adds the unit. */
  lemma {:induction false} PolynomialSnoc(u: seq<JsString.CodeUnit>, c: JsString.CodeUnit)
    ensures Polynomial(u + [c]) == 31 * Polynomial(u) + c
    decreases |u|
  {
    if u == [] {
      assert [] + [c] == [c];
      assert [c][1..] == [];
    } else {
      var v := u + [c];
      assert v[0] == u[0] && v[1..] == u[1..] + [c];
      PolynomialSnoc(u[1..], c);
      calc {
        Polynomial(v);
        u[0] * Pow31(|u|) + Polynomial(u[1..] + [c]);
        u[0] * (31 * Pow31(|u| - 1)) + 31 * Polynomial(u[1..]) + c;
        { assert u[0] * (31 * Pow31(|u| - 1)) == 31 * (u[0] * Pow31(|u| - 1)); }
        31 * Polynomial(u) + c;
      }
    }
  }

  /** Distinct keys can share a hash: "Aa" and "BB" both hash to 2112. */
  lemma HashCollision()
    ensures StringHash("Aa") == StringHash("BB") == 2112
  {
    var aa: seq<JsString.CodeUnit> := [65, 97];
    var bb: seq<JsString.CodeUnit> := [66, 66];
    assert JsString.Units("Aa") == aa by {
      assert "Aa"[1..] == "a";
      assert JsString.Units("a") == [97];
    }
    assert JsString.Units("BB") == bb by {
      assert "BB"[1..] == "B";
      assert JsString.Units("B") == [66];
    }
    assert aa[..1] == [65] && bb[..1] == [66];
    assert HashOfUnits([65]) == 65 && HashOfUnits([66]) == 66;
  }

  /** `tmpFileName(name)`: the decimal hash of `name` inside the temporary directory. */
  function TmpFileName(tmpDir: string, name: string): (f: string)
    ensures f != ""
  {
    JsString.MinusSignIffNegative(StringHash(name));
    Paths.Join(tmpDir, JsString.IntToDecimal(StringHash(name)))
  }

  /** Two keys get the same temporary file exactly when their hashes are equal. */
  lemma TmpFileNameCollides(tmpDir: string, a: string, b: string)
    ensures TmpFileName(tmpDir, a) == TmpFileName(tmpDir, b) <==> StringHash(a) == StringHash(b)
  {
    var x := JsString.IntToDecimal(StringHash(a));
    var y := JsString.IntToDecimal(StringHash(b));
    JsString.MinusSignIffNegative(StringHash(a));
    JsString.MinusSignIffNegative(StringHash(b));
    if Paths.Join(tmpDir, x) == Paths.Join(tmpDir, y) {
      JoinInjective(tmpDir, x, y);
      JsString.IntToDecimalInjective(StringHash(a), StringHash(b));
    }
  }

  lemma JoinInjective(dir: string, x: string, y: string)
    requires x != [] && y != []
    requires Paths.Join(dir, x) == Paths.Join(dir, y)
    ensures x == y
  {
    if dir != [] {
      var p := if dir[|dir| - 1] == '/' then dir else dir + "/";
      assert Paths.Join(dir, x) == p + x && Paths.Join(dir, y) == p + y;
      assert (p + x)[|p|..] == x && (p + y)[|p|..] == y;
    }
  }

  /** Why a stage, or a step of the pipeline, failed. */
  datatype Failure =
    | StorageError        // a Cloud Storage download or upload rejected
    | ImageError          // sharp could not read or write the image
    | PubSubError         // the Pub/Sub publish rejected
    | MissingFile(path: string)  // `fs.unlinkSync` of a file that does not exist
    | TypeError           // a property read on `null`, or `.then` of a non-promise
    | SyntaxError         // `JSON.parse` of a message that is not JSON

  /**
   * What a stage hands to the next `.then`: the context itself
   * (`Bare`), or a promise that resolves to the context or rejects.
   */
  datatype StageResult = Bare | Resolved | Rejected(error: Failure)

  /** What sharp's `metadata()` reports about an image. */
  datatype Dimensions = Dimensions(width: Positive, height: Positive)

  type Positive = n: nat | n > 0 witness 1

  predicate DownloadReady(t: Option<Task>) {
    t.Some? && Truthy(t.value.bucket) && Truthy(t.value.originalPath)
  }

  predicate AspectReady(t: Option<Task>, original: Slot) {
    t.Some? && Truthy(t.value.previewPath) && original.image.Set?
  }

  predicate PreviewReady(t: Option<Task>, original: Slot) {
    AspectReady(t, original) && Truthy(t.value.bucket)
  }

  /** The temporary file of the original, once the download precondition holds. */
  function OriginalFile(tmpDir: string, t: Option<Task>): string
    requires DownloadReady(t)
  {
    TmpFileName(tmpDir, t.value.originalPath.value)
  }

  /** The temporary files the preview stage can write: its own, when its task names a preview. */
  function PreviewFiles(tmpDir: string, t: Option<Task>): set<string> {
    if t.Some? && t.value.previewPath.Some? then {TmpFileName(tmpDir, t.value.previewPath.value)} else {}
  }

  /**
   * `downloadStage`: when its task names a bucket and an original path,
   * downloads the original into its temporary file and fills the
   * `original` slot; otherwise hands back the bare context.
   */
  method DownloadStage(c: Context, tmpDir: string, disk: Disk, cloud: Cloud, downloadOk: bool)
    returns (r: StageResult)
    modifies c`original, disk, cloud
    ensures !DownloadReady(c.task) ==>
      r == Bare && c.original == old(c.original) && disk.files == old(disk.files) && cloud.calls == old(cloud.calls)
    ensures DownloadReady(c.task) ==>
      var t := c.task.value;
      var f := OriginalFile(tmpDir, c.task);
      cloud.calls == old(cloud.calls) + [Download(t.bucket.value, t.originalPath.value, f)] &&
      (downloadOk ==>
        r == Resolved && c.original == Slot(Set(true), Set(f), Set(Sharp(f))) && disk.files == old(disk.files) + {f}) &&
      (!downloadOk ==>
        r == Rejected(StorageError) && c.original == old(c.original) && disk.files == old(disk.files))
  {
    if !DownloadReady(c.task) {
      return Bare;
    }
    var t := c.task.value;
    var filename := TmpFileName(tmpDir, t.originalPath.value);
    cloud.Record(Download(t.bucket.value, t.originalPath.value, filename));
    if !downloadOk {
      return Rejected(StorageError);
    }
    disk.Write(filename);
    c.original := c.original.(downloaded := Set(true), filename := Set(filename), image := Set(Sharp(filename)));
    r := Resolved;
  }

  /**
   * `aspectStage`: when its task names a preview and the original has an
   * image, records width / height as the aspect ratio.
   */
  method AspectStage(c: Context, metadata: Option<Dimensions>) returns (r: StageResult)
    modifies c`aspectRatio
    ensures !AspectReady(c.task, c.original) ==> r == Bare && c.aspectRatio == old(c.aspectRatio)
    ensures AspectReady(c.task, c.original) && metadata.None? ==>
      r == Rejected(ImageError) && c.aspectRatio == old(c.aspectRatio)
    ensures AspectReady(c.task, c.original) && metadata.Some? ==>
      r == Resolved &&
      c.aspectRatio == Set(metadata.value.width as real / metadata.value.height as real)
  {
    if !AspectReady(c.task, c.original) {
      return Bare;
    }
    if metadata.None? {
      // sharp rejects an image it cannot decode
      return Rejected(ImageError);
    }
    c.aspectRatio := Set(metadata.value.width as real / metadata.value.height as real);
    r := Resolved;
  }

  /**
   * Whether the preview would be written onto the very file the image is
   * read from: sharp's `toFile` refuses that and rejects.
   */
  predicate SameInputOutput(tmpDir: string, t: Option<Task>, original: Slot)
    requires PreviewReady(t, original)
  {
    original.image.value.file == TmpFileName(tmpDir, t.value.previewPath.value)
  }

  /**
   * `previewStage`: when its task names a preview and a bucket and the
   * original has an image, asks sharp for a copy `PreviewWidth` pixels
   * wide in the preview's temporary file, uploads it and, once the upload resolved, sets the
   * flag and deletes the temporary file. The resize rejects when sharp
   * fails (`resizeOk` false) or when its output file is its input file.
   */
  method PreviewStage(c: Context, tmpDir: string, disk: Disk, cloud: Cloud, resizeOk: bool, uploadOk: bool)
    returns (r: StageResult)
    modifies c`isPreviewUploaded, disk, cloud
    ensures !PreviewReady(c.task, c.original) ==>
      r == Bare && c.isPreviewUploaded == old(c.isPreviewUploaded) &&
      disk.files == old(disk.files) && cloud.calls == old(cloud.calls)
    ensures PreviewReady(c.task, c.original) && (!resizeOk || SameInputOutput(tmpDir, c.task, c.original)) ==>
      var p := TmpFileName(tmpDir, c.task.value.previewPath.value);
      r == Rejected(ImageError) && c.isPreviewUploaded == old(c.isPreviewUploaded) &&
      disk.files == old(disk.files) &&
      cloud.calls == old(cloud.calls) + [Resize(c.original.image.value.file, PreviewWidth, p)]
    ensures PreviewReady(c.task, c.original) && resizeOk && !SameInputOutput(tmpDir, c.task, c.original) ==>
      var t := c.task.value;
      var p := TmpFileName(tmpDir, t.previewPath.value);
      cloud.calls == old(cloud.calls) +
        [Resize(c.original.image.value.file, PreviewWidth, p), Upload(p, t.bucket.value, t.previewPath.value)] &&
      (uploadOk ==> r == Resolved && c.isPreviewUploaded && disk.files == old(disk.files) - {p}) &&
      (!uploadOk ==>
        r == Rejected(StorageError) && c.isPreviewUploaded == old(c.isPreviewUploaded) &&
        disk.files == old(disk.files) + {p})
  {
    if !PreviewReady(c.task, c.original) {
      return Bare;
    }
    var t := c.task.value;
    var previewFilename := TmpFileName(tmpDir, t.previewPath.value);
    cloud.Record(Resize(c.original.image.value.file, PreviewWidth, previewFilename));
    if !resizeOk || c.original.image.value.file == previewFilename {
      return Rejected(ImageError);
    }
    disk.Write(previewFilename);
    cloud.Record(Upload(previewFilename, t.bucket.value, t.previewPath.value));
    if !uploadOk {
      return Rejected(StorageError);
    }
    c.isPreviewUploaded := true;
    var removed := disk.Unlink(previewFilename);
    assert removed;
    r := Resolved;
  }

  /**
   * `cleanupStage`: when the original has a file name, deletes that file
   * and sets the three fields of the slot to `null`; deleting a file that
   * is not there throws.
   */
  method CleanupStage(c: Context, disk: Disk) returns (r: StageResult)
    modifies c`original, disk
    ensures !HasFile(old(c.original)) ==>
      r == Bare && c.original == old(c.original) && disk.files == old(disk.files)
    ensures HasFile(old(c.original)) ==>
      var f := old(c.original).filename.value;
      disk.files == old(disk.files) - {f} &&
      (f in old(disk.files) ==> r == Bare && c.original == Slot(Cleared, Cleared, Cleared)) &&
      (f !in old(disk.files) ==> r == Rejected(MissingFile(f)) && c.original == old(c.original))
  {
    if !HasFile(c.original) {
      return Bare;
    }
    var f := c.original.filename.value;
    var ok := disk.Unlink(f);
    if !ok {
      return Rejected(MissingFile(f));
    }
    c.original := Slot(Cleared, Cleared, Cleared);
    r := Bare;
  }

  /**
   * `responseStage`: when its task names a Pub/Sub topic, publishes the
   * whole context there. It reads `task.pubSubTopic` without checking the
   * task, so a `null` task throws.
   */
  method ResponseStage(c: Context, cloud: Cloud, publishOk: bool) returns (r: StageResult)
    modifies cloud
    ensures c.task.None? ==> r == Rejected(TypeError) && cloud.calls == old(cloud.calls)
    ensures c.task.Some? && !Truthy(c.task.value.pubSubTopic) ==> r == Bare && cloud.calls == old(cloud.calls)
    ensures c.task.Some? && Truthy(c.task.value.pubSubTopic) ==>
      cloud.calls == old(cloud.calls) + [Publish(c.task.value.pubSubTopic.value, c.Value())] &&
      r == (if publishOk then Resolved else Rejected(PubSubError))
  {
    if c.task.None? {
      return Rejected(TypeError);
    }
    var topic := c.task.value.pubSubTopic;
    if !Truthy(topic) {
      return Bare;
    }
    cloud.Record(Publish(topic.value, c.Value()));
    r := if publishOk then Resolved else Rejected(PubSubError);
  }
}
