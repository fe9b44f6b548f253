# Picsello photo pipeline and LiveView hooks, modelled in Dafny

This project models two parts of the Picsello photography platform.

- **The gallery photo pipeline.** `doProcessing` is a Cloud Function. It
  takes a Pub/Sub message and builds a context from that message's task record.
  Then it runs a fixed chain of stages as one promise chain:
  1. download the original;
  2. read its aspect ratio;
  3. make and upload a 760-pixel preview;
  4. the two watermark steps;
  5. delete the temporary file;
  6. publish the context back to Pub/Sub.

  The first rejection ends the process with exit code -1. Around the
  pipeline the model also covers:
  - the Java-style string hash that names the temporary files;
  - the text-to-SVG layout and font lookup used to render watermarks;
  - the profile-image function. It either resizes an uploaded object or
    publishes a message about it, depending on its metadata.
- **The browser hooks** that Phoenix LiveView attaches to elements of the
  page, plus the product-tour table:
  - the masonry and sortable photo grids, with their `load-more` gate;
  - the gallery cookie;
  - the trial-code query parser;
  - the rich-text editor's link, toolbar and image rules;
  - the signed-URL image upload, with its file-name normalisation;
  - the folder upload;
  - the show/hide toggles, the popover select and the photo selectors.

The model follows the source's own form:
- Pure string and list logic becomes functions with contracts, and lemmas
  about them.
- Loops become methods with loop invariants, proved against those functions.
- Objects whose fields change become classes with `modifies` frames. These
  are:
  - the pipeline context, the temporary directory and the cloud call log;
  - the page's class lists;
  - the hooks' own state.
- Calls into the outside world are parameters of the methods that make
  them: Cloud Storage, Pub/Sub, sharp, `JSON.parse`, the file system, and
  the glyph outlines of a font.

Shared modules:
- `JsString` holds the JavaScript string operations the code relies on:
  - `split`, `join`, `includes`, `trim`;
  - UTF-16 code units;
  - `toString`, `parseInt` and `Number` on decimal integers.
- `Paths` holds `path.join`, `path.extname` and `lastIndexOf`.
- `Dom` is a document tree with `querySelector(All)`, `closest`,
  `getElementById` and class lists.
- `Seqs` holds `Array.prototype.filter` and subsequences.

## Model

| member | source | states |
|---|---|---|
| PipelineContext.Context.constructor | assets/js-gcf/galleries/context.js:1-22 | `buildContext` keeps the message's task record. Both artifact slots start as `{false, false, false}`, and the aspect ratio and both upload flags start `false`. |
| Stages.ToInt32 | assets/js-gcf/stages.js:22 | `hash & hash` gives a signed 32-bit value congruent to its input modulo 2^32. |
| Stages.ToInt32Periodic | assets/js-gcf/stages.js:21-22 | Adding any multiple of 2^32 does not change the 32-bit result. |
| Stages.ToInt32OfInt32 | assets/js-gcf/stages.js:22 | A value already in 32-bit range is unchanged by the truncation. |
| Stages.HashCode | assets/js-gcf/stages.js:14-25 | The loop over the UTF-16 code units, with shift, subtract, add and truncate, computes the left fold of the 32-bit hash step. |
| Stages.ShiftStep | assets/js-gcf/stages.js:21-22 | `((h << 5) - h + u) & …` equals `31·h + u` wrapped to 32 bits. |
| Stages.HashOfEmpty | assets/js-gcf/stages.js:16-18 | The empty string hashes to 0. |
| Stages.HashIsPolynomial | assets/js-gcf/stages.js:19-23 | Wrapping at every step gives the same result as wrapping the polynomial sum of unit·31^(n-1-i) once. |
| Stages.HashCollision | assets/js-gcf/stages.js:14-25 | The distinct keys `Aa` and `BB` share the hash 2112. |
| Stages.TmpFileName | assets/js-gcf/stages.js:27 | The temporary file name is the decimal hash joined to the temporary directory, and is never empty. |
| Stages.TmpFileNameCollides | assets/js-gcf/stages.js:27 | Two keys get the same temporary file exactly when their hashes are equal (both directions). |
| Stages.JoinInjective | assets/js-gcf/stages.js:27 | Joining one directory to two non-empty names gives equal paths only for equal names. |
| Stages.DownloadStage | assets/js-gcf/stages.js:56-70 | Without a truthy bucket and original path, the bare context is handed back and nothing changes. Otherwise the download is recorded. On success the file exists and the slot becomes `{true, file, sharp(file)}`. On failure the stage rejects with a storage error. |
| Stages.AspectStage | assets/js-gcf/stages.js:72-84 | The stage needs a preview path and an original image. With the size known, the ratio is width / height. With an undecodable image it rejects. Otherwise the bare context is handed back. |
| Stages.PreviewStage | assets/js-gcf/stages.js:86-106 | When a preview path, an original image and a bucket are present, the stage records a resize of the image's file to 760 pixels wide into the preview's temporary file. After a successful resize it records the upload. On success the flag is set and the file deleted. A resize failure rejects with the disk unchanged. So does a preview file that is the image's own input, which sharp refuses to write. An upload failure rejects and leaves the file behind. |
| Stages.CleanupStage | assets/js-gcf/stages.js:110-123 | A truthy file name is unlinked. If it existed, the slot becomes `{null, null, null}`. If not, the stage rejects with a missing-file error. |
| Stages.ResponseStage | assets/js-gcf/stages.js:125-132 | A null task throws a TypeError. A truthy topic records a publish of the whole context there, which resolves or rejects by the outcome. Otherwise nothing is published. |
| Services.Disk.Unlink | assets/js-gcf/stages.js:113 | `unlinkSync`: afterwards the file is gone. It fails exactly when the file was not there. |
| Services.Disk.Write | assets/js-gcf/stages.js:93 | `toFile` or a download adds the file to the temporary directory. |
| Services.Cloud.Record | assets/js-gcf/stages.js:29-49 | Each storage, Pub/Sub or resize call is appended to the call log. |
| Pipeline.RunStages | assets/js-gcf/index.js:29-41 | The stages that ran are a prefix of the chain's order. The run completes exactly when all stages ran. An exit is code -1 at the last stage that ran. The run throws unhandled exactly when the download precondition fails, and then nothing else happens. A completed run leaves no original file behind, and an exit before cleanup keeps it. A preview whose temporary file is the original's makes the preview stage exit with an image error, and the original file stays. |
| Pipeline.RunDownloaded | assets/js-gcf/index.js:30-41 | After a successful download, the stages that ran are a prefix of the order. The run never throws unhandled. A completed run deletes the original file, and an early exit before cleanup keeps it. A preview file equal to the original's gives an exit at the preview stage. |
| Pipeline.RunRest | assets/js-gcf/index.js:30-41 | The stages from `aspectStage` on that ran are a contiguous slice of the order. The run completes exactly when the slice reaches the end. A stage that hands back the bare context never stops the chain. Before cleanup, the image's input file stays on disk, and a preview onto that file exits at the preview stage with nothing changed. |
| Pipeline.RunFromPreview | assets/js-gcf/index.js:31-41 | The same properties for the chain from `previewStage` on. |
| Pipeline.RunWatermarks | assets/js-gcf/index.js:32-41 | The same properties for the chain from the watermark stages on. |
| Pipeline.RunTail | assets/js-gcf/index.js:34-41 | The same properties for the chain from `watermarkStage` on. Cleanup always runs. With no file to clean, only the publish can fail, and a truthy topic gets the context published. |
| Pipeline.RunStagesFixed | assets/js-gcf/index.js:29-41 | The corrected chain never throws unhandled. When the download has nothing to do, it still runs the other stages and publishes the context when a topic is given. |
| Pipeline.DoProcessing | assets/js-gcf/index.js:22-42 | A missing or empty `event.data`, or one that is not JSON, throws a SyntaxError before any stage runs, and nothing changes. A `null` `event.data` parses to a null task: only the download runs, it hands back the bare context, and the chain throws a TypeError with nothing changed. Otherwise the outcomes of the chain hold over the context built from the parsed task. |
| Profiles.PublishMetadata | assets/js-gcf/profiles/index.js:45-49 | `...publishMetadata` is the metadata without `out-filename` and `resize`, with every other value kept. |
| Profiles.MessageMetadata | assets/js-gcf/profiles/index.js:57 | `...messageMetadata` additionally drops `pubsub-topic`. |
| Profiles.Route | assets/js-gcf/profiles/index.js:40-64 | Missing metadata throws a TypeError. With both `out-filename` and `resize` truthy, the object is resized, or a SyntaxError is raised when `resize` is not JSON. Otherwise a truthy topic publishes `{path: bucket/name, metadata}`, and anything else does nothing. Each case holds in both directions, with the exact arguments. |
| Profiles.ResolvedObjectOfEvent | assets/js-gcf/profiles/index.js:9-55 | A routed resize resolves with the object it wrote. That object is named by `out-filename`, lies in the event's bucket, and has the event's content type. Its metadata is the event's minus `out-filename` and `resize`. |
| Profiles.RoutingKeysAreConsumed | assets/js-gcf/profiles/index.js:43-64 | Without `out-filename` and topic nothing happens. The routing keys never reach the written metadata or the message. |
| Profiles.HalfResizeFallsThrough | assets/js-gcf/profiles/index.js:51-63 | `out-filename` without `resize` is not a resize: the event falls through to publishing, with both keys removed. |
| Font.MergeDefaults | assets/js-gcf/galleries/font.js:14-24 | Without options, `convert` works with its `Default` object. |
| Font.MergeAllGiven | assets/js-gcf/galleries/font.js:24 | Options that name every key are taken as they are, whatever the font and the size. |
| Font.MergeFontOnlyLineHeight | assets/js-gcf/galleries/font.js:14-24 | The font and the size reach the settings only through the default line height. With a line height given, they do not matter at all. |
| Font.LinesAreSplit | assets/js-gcf/galleries/font.js:34 | The newline test changes nothing: the lines are `text.split('\n')`, one more than the newlines. |
| Font.SingleLine | assets/js-gcf/galleries/font.js:34 | A text without a newline is a single line. |
| Font.MaxAdvanceIsMax | assets/js-gcf/galleries/font.js:43 | The running `Math.max` from 0 is at least every advance width, and is one of them or 0. |
| Font.AlignmentEdges | assets/js-gcf/galleries/font.js:57-59 | `left`/`start` lines begin at x, `right`/`end` lines end at x + maxWidth, and centred lines share the box's midpoint. |
| Font.XAlignDefinedIff | assets/js-gcf/galleries/font.js:57-59 | Only the five recognised alignments give an offset. Any other leaves `xAlign` undefined. |
| Font.BaselineSpacing | assets/js-gcf/galleries/font.js:55-56 | Consecutive baselines are exactly one line height apart. |
| Font.MinTopIsMin | assets/js-gcf/galleries/font.js:50-61 | `yMin` stays `Infinity` exactly when there are no lines. Otherwise it is the smallest top and bounds every top. |
| Font.Convert | assets/js-gcf/galleries/font.js:11-75 | `convert` builds the SVG of the layout: one path per line, the padded width, and the height from the lowest bottom. It resolves with the SVG when `useSvg` is set, or with a PNG whose `top` is the highest top, or rejects when rasterising fails. |
| Font.Layout | assets/js-gcf/galleries/font.js:11-49 | The merged options, padded origin, scaled metrics and measured widths equal the layout frame and the lines of the text. |
| Font.MeasureLines | assets/js-gcf/galleries/font.js:35-44 | The first loop records each line's advance width and the widest one. |
| Font.PlaceLines | assets/js-gcf/galleries/font.js:50-64 | The second loop gives each line its path, and `yMin` and `maxHeight` over the placed extents. |
| Font.PlaceLine | assets/js-gcf/galleries/font.js:52-63 | One pass gives the line's offsets and `<path>`, and its extent moved to its baseline. |
| Font.BoxesStep | assets/js-gcf/galleries/font.js:61-63 | The extents of one more line extend those of the lines before it. |
| Font.SvgLines | assets/js-gcf/galleries/font.js:62-65 | The SVG has one path per line, one more than there are newlines, each for its own line. |
| Font.SvgWidth | assets/js-gcf/galleries/font.js:47-49 | The SVG is as wide as the widest line plus twice the positive padding. |
| Font.SvgBaselines | assets/js-gcf/galleries/font.js:55-56 | Line i sits at ascender − descender + y + i·lineHeight, so paths are one line height apart. |
| Font.SvgAlignment | assets/js-gcf/galleries/font.js:57-59 | In the SVG, left lines start at the padded x, right lines end at the box's right edge, and centred lines share its midpoint. |
| Font.FirstExisting | assets/js-gcf/galleries/font.js:84-89 | There is no hit exactly when no candidate exists. A hit is the first existing candidate, loaded, with `height = ascender − descender`. |
| Font.FirstExistingAppend | assets/js-gcf/galleries/font.js:82-91 | Searching two lists in turn looks in the second one only when the first has no hit. |
| Font.SearchDirectory | assets/js-gcf/galleries/font.js:83-91 | The innermost loop finds the first existing file of one name in one directory, extension by extension. |
| Font.SearchName | assets/js-gcf/galleries/font.js:82-92 | The middle loop does the same directory by directory. |
| Font.Search | assets/js-gcf/galleries/font.js:79-93 | The outer loop returns the first existing candidate over all names, in the source's order. |
| Font.LoadFont | assets/js-gcf/galleries/font.js:77-94 | `loadFont` as written returns the first existing candidate, where a name with an extension gets that extension a second time. |
| Font.LoadFontFixed | assets/js-gcf/galleries/font.js:77-94 | With the extension rule corrected, it returns the first existing candidate. |
| Font.ForExtensionsInOrder | assets/js-gcf/galleries/font.js:83-84 | In one directory, the files tried are the name with each extension, in order. |
| Font.CandidatesOfOneName | assets/js-gcf/galleries/font.js:78-84 | One name is tried in `.` only, with each of its extensions in order. |
| Font.EarlierNamesFirst | assets/js-gcf/galleries/font.js:79-93 | The candidates of earlier names come first, so later names are tried only after them. |
| Font.CandidatesWithoutExtension | assets/js-gcf/galleries/font.js:80-81 | A name without an extension is tried with the six font extensions, under either rule. |
| Font.ExtOfRoboto | assets/js-gcf/galleries/font.js:80 | `path.extname("Roboto.ttf")` is `.ttf`. |
| Font.DoubledExtension | assets/js-gcf/galleries/font.js:80-84 | As written, `Roboto.ttf` is tried only as `Roboto.ttf.ttf`. An existing `Roboto.ttf` is never found. |
| Font.FixedFindsNamedFile | assets/js-gcf/galleries/font.js:80-85 | Corrected, a name with an extension is the single candidate, so an existing file of that name is found. |
| QuillEditor.WithScheme | assets/js/hooks/quill.js:8-12 | The href starts with `http`. A value already starting with `http` is kept, and any other gets exactly the `https://` prefix. |
| QuillEditor.LinkHref | assets/js/hooks/quill.js:6-14 | Whatever `sanitize` returns, the link's href starts with `http`. |
| QuillEditor.WithSchemeIdempotent | assets/js/hooks/quill.js:9-11 | Normalising an already normalised link changes nothing. |
| QuillEditor.SchemelessExample | assets/js/hooks/quill.js:9-11 | `example.com` becomes `https://example.com`. |
| QuillEditor.HttpExample | assets/js/hooks/quill.js:9 | `http://example.com` is kept. |
| QuillEditor.MailtoExample | assets/js/hooks/quill.js:9-11 | `mailto:a@b.c` is not recognised as a scheme and gets the prefix too. |
| QuillEditor.SizePickerMatchesWhitelist | assets/js/hooks/quill.js:74-76 | Every size the picker offers is in the whitelist `10px, 18px, 32px`, and every whitelisted size is offered. |
| QuillEditor.BuildToolbar | assets/js/hooks/quill.js:65-80 | The six base controls, with the size picker first exactly when `enableSize` is given and `image` last exactly when `enableImage` is given. |
| QuillEditor.Text | assets/js/hooks/quill.js:146 | `getText` keeps the characters and drops embeds, so it is no longer than the contents. |
| QuillEditor.TextConcat | assets/js/hooks/quill.js:146 | The text of joined contents is the joined texts. |
| QuillEditor.Editor.constructor | assets/js/hooks/quill.js:166 | The editor starts with the hidden input's HTML as its root. |
| QuillEditor.Editor.TextChange | assets/js/hooks/quill.js:144-157 | The HTML field gets the root's HTML, or is emptied when the text is blank. The text field, if present, gets the text. One `input` event is sent per field. |
| QuillEditor.Editor.Update | assets/js/hooks/quill.js:161-164 | `quill:update` replaces the contents with the given HTML, then the fields are synchronised as in `textChange`, with one `input` event per field. |
| QuillEditor.Editor.FileChosen | assets/js/hooks/quill.js:126-129 | The first chosen file, if any, asks for a signed URL with its own name and type. |
| QuillEditor.Editor.InsertImage | assets/js/hooks/quill.js:130-138 | The image and a newline are inserted at the cursor, and the cursor moves two places on. |
| QuillEditor.Editor.UploadDone | assets/js/hooks/quill.js:109-118 | Status 204 inserts the image at `url/key`. Anything else shows an alert and changes nothing. |
| QuillEditor.InsertImageText | assets/js/hooks/quill.js:131-137 | The inserted image adds only a newline to the text, at the cursor's place. |
| QuillEditor.CursorAfterImage | assets/js/hooks/quill.js:130-138 | After the insertion the image sits just before the cursor's new line. |
| QuillEditor.ImageOnlyIsBlank | assets/js/hooks/quill.js:146-149 | Contents that are only an image count as blank text, so the HTML field is emptied. |
| QuillEditor.NotBlankWithVisible | assets/js/hooks/quill.js:148 | Text with a non-space character is not blank. |
| QuillEditor.EditorElement.Clear | assets/js/hooks/quill.js:170-178 | The clear button empties `.ql-editor` and adds `ql-blank`. |
| SignedUpload.UploadedUrl | assets/js/hooks/image-upload-input.js:74-90 | An upload succeeds exactly on status 204, and the object then lives at `url + "/" + key`. |
| ImageUpload.Sanitize | assets/js/hooks/image-upload-input.js:48 | Each UTF-16 code unit outside `[a-z0-9.-]` (case-insensitive) becomes `_` and the others are kept, so the length is kept. |
| ImageUpload.ExtensionAtLastDot | assets/js/hooks/image-upload-input.js:49 | `/\.\w+$/` can only match at the last dot. |
| ImageUpload.ReplaceExtension | assets/js/hooks/image-upload-input.js:49 | A trailing dot-word extension becomes `.jpg`. Without one the name is unchanged. |
| ImageUpload.ReplaceExtensionKeepsNameChars | assets/js/hooks/image-upload-input.js:48-49 | After sanitising, replacing the extension keeps only name characters. |
| ImageUpload.NormalizedName | assets/js/hooks/image-upload-input.js:47-50 | A normalised name holds only `[a-z0-9._-]`. |
| ImageUpload.JpgIffExtension | assets/js/hooks/image-upload-input.js:47-50 | The normalised name ends in `.jpg` exactly when the sanitised name had a trailing extension. |
| ImageUpload.AsciiUnits | assets/js/hooks/image-upload-input.js:48 | On an already normalised name, sanitising changes nothing. |
| ImageUpload.LowerKeepsExtension | assets/js/hooks/image-upload-input.js:49-50 | Lower-casing keeps every extension match where it was. |
| ImageUpload.NormalizedKeepsExtension | assets/js/hooks/image-upload-input.js:49-50 | The extension step leaves a normalised name alone. |
| ImageUpload.NormalizeIdempotent | assets/js/hooks/image-upload-input.js:47-50 | Normalising a normalised name changes nothing. |
| ImageUpload.Hook.FileChosen | assets/js/hooks/image-upload-input.js:46-58 | With no file, nothing is pushed. Otherwise one `get_signed_url` is pushed with the normalised name, `image/jpeg` and the upload folder. |
| ImageUpload.Hook.UploadDone | assets/js/hooks/image-upload-input.js:74-90 | On 204, `upload_finished` is pushed with the URL, the hidden input gets the URL, and one `input` event fires. Otherwise there is exactly one alert and nothing else changes. |
| FolderUpload.FindContained | assets/js/hooks/folder-upload.js:26-28 | `find` gives nothing exactly when no sub-folder name occurs in the file name. A hit is a listed name that occurs. |
| FolderUpload.RejectFilesOfSubFolders | assets/js/hooks/folder-upload.js:24-32 | The kept files are, in order, exactly those whose `find` is falsy. |
| FolderUpload.NotOfSubFolderIff | assets/js/hooks/folder-upload.js:24-32 | With non-empty sub-folder names, a file is kept exactly when no sub-folder name occurs in its name. |
| FolderUpload.DirName | assets/js/hooks/folder-upload.js:45 | A sub-folder is named `uuid-dsp-name`. |
| FolderUpload.SubFileName | assets/js/hooks/folder-upload.js:51 | A file in a sub-folder is renamed `dir-fsp-name`. |
| FolderUpload.DirFiles | assets/js/hooks/folder-upload.js:48-54 | Every file taken from a sub-folder carries that sub-folder's prefix. |
| FolderUpload.CollectedDirs | assets/js/hooks/folder-upload.js:43-60 | Every recorded sub-folder name is non-empty. |
| FolderUpload.CollectedFileOrigin | assets/js/hooks/folder-upload.js:43-60 | Every collected file lies at the top level or carries a recorded sub-folder's name. |
| FolderUpload.TopLevelCollected | assets/js/hooks/folder-upload.js:56-59 | Every top-level file is collected under its own name. |
| FolderUpload.OnlyTopLevelSurvive | assets/js/hooks/folder-upload.js:65 | Top-level files whose names hold no sub-folder name survive the rejection. Every surviving file lies at the top level. |
| FolderUpload.UploadSelection | assets/js/hooks/folder-upload.js:64-69 | The uploaded list is an ordered sublist of accepted types only, without sub-folder files unless included. Every file that qualifies is in it. |
| FolderUpload.Uploader.Pick | assets/js/hooks/folder-upload.js:37-62 | After a pick, the file and sub-folder lists are exactly what walking the picked entries collects, and `folder-information` is pushed once. |
| FolderUpload.Uploader.constructor | assets/js/hooks/folder-upload.js:34-35 | `files` and `subFolders` start unassigned, with no push and no upload. |
| FolderUpload.Uploader.UploadPhotos | assets/js/hooks/folder-upload.js:64-69 | Before any pick, `files` is `undefined` and the handler throws, uploading nothing. After a pick, the file list becomes the upload selection, and an upload is started even with nothing left. |
| ToggleSiblings.Targets | assets/js/hooks/toggle-siblings.js:18-23 | The lookup throws exactly when no element has the parent class. Otherwise the targets are target-class elements in document order. |
| ToggleSiblings.FlipAll | assets/js/hooks/toggle-siblings.js:7-13 | A listed element has `hidden` exactly when it did not before, and keeps every other class. An unlisted element is unchanged. |
| ToggleSiblings.FlipTwice | assets/js/hooks/toggle-siblings.js:5-13 | Toggling the same elements twice restores every class list. |
| ToggleSiblings.TargetsUnchangedByFlip | assets/js/hooks/toggle-siblings.js:18-23 | After a toggle the same elements are found again. |
| ToggleSiblings.TwoClicksRestore | assets/js/hooks/toggle-siblings.js:5-23 | Two clicks leave the page as it was. |
| ToggleSiblings.Click | assets/js/hooks/toggle-siblings.js:5-14 | A click that does not throw toggles exactly the targets. A throwing click changes nothing. |
| ToggleSiblings.FlipEach | assets/js/hooks/toggle-siblings.js:7-13 | The `forEach` loop's result equals `FlipAll` of the targets. |
| ToggleSiblings.FlipStep | assets/js/hooks/toggle-siblings.js:8-12 | Toggling one more element extends the toggled list. |
| SelectHighlighter.HideAll | assets/js/hooks/select-highlighter.js:8-10 | A listed element has `hidden` afterwards and keeps every other class. An unlisted element is unchanged. |
| SelectHighlighter.Group | assets/js/hooks/select-highlighter.js:6-7 | `closest` of the parent class being null is exactly when there is no group. |
| SelectHighlighter.Highlight | assets/js/hooks/select-highlighter.js:5-15 | The classes after a click keep the document's shape. |
| SelectHighlighter.OnlySelectedVisible | assets/js/hooks/select-highlighter.js:5-15 | After a non-throwing click, the shown element is in the group and is its only target without `hidden`. Elements outside the group keep their classes. |
| SelectHighlighter.Click | assets/js/hooks/select-highlighter.js:5-15 | The hide-all loop and the final show give the outcome and classes of `Highlight`. |
| CustomSelector.RemoveDropped | assets/js/hooks/custom-selector.js:4 | The result is `data-ids` filtered to the characters that are neither white space nor brackets, in order and with their multiplicity. |
| CustomSelector.ParseIds | assets/js/hooks/custom-selector.js:4 | There is at least one id, and no id holds a comma, a bracket or white space. Joined with commas, the ids give back the cleaned `data-ids`. |
| CustomSelector.ParseIdsRoundTrip | assets/js/hooks/custom-selector.js:4 | A non-empty list of such ids rendered as `[a, b, c]` parses back to exactly those ids. |
| CustomSelector.IdCount | assets/js/hooks/custom-selector.js:4 | There is one id more than there are commas. |
| CustomSelector.EmptyListGivesEmptyId | assets/js/hooks/custom-selector.js:4 | `[]` gives the single empty id. |
| CustomSelector.Found | assets/js/hooks/custom-selector.js:6-10 | The elements found are no more than the ids, and all exist. |
| CustomSelector.FoundSpec | assets/js/hooks/custom-selector.js:6-10 | The k-th found element is the k-th id's, and the search stops only at a missing element. |
| CustomSelector.RemoveBorder | assets/js/hooks/custom-selector.js:6-10 | A listed element loses `photo-border` and no other class. An unlisted element is unchanged. |
| CustomSelector.SelectedAloneHasBorder | assets/js/hooks/custom-selector.js:2-15 | When every id is found, the selected photo alone among them has the border. Other elements are unchanged. |
| CustomSelector.Updated | assets/js/hooks/custom-selector.js:2-15 | Borders are removed up to the first missing photo, which throws. Without a throw, the selected photo then gains its border. |
| CustomSelector.FoundExtends | assets/js/hooks/custom-selector.js:6-10 | A found next id extends the found prefix. |
| CustomSelector.FoundEnds | assets/js/hooks/custom-selector.js:7-9 | A missing next id ends the search short of the whole list. |
| CustomSelector.FoundStuck | assets/js/hooks/custom-selector.js:6-10 | Once a photo is missing, later ids are not looked at. |
| PhotoUpdate.PhotoImage | assets/js/hooks/photo-update.js:14 | `#photo-id img` is the first `img` under that id in document order, or null when there is none. |
| PhotoUpdate.NewSrc | assets/js/hooks/photo-update.js:15-17 | An image with a source ends with the new URL, and an empty source stays empty. |
| PhotoUpdate.NewSrcIdempotent | assets/js/hooks/photo-update.js:15-17 | Applying the same update twice changes nothing more. |
| PhotoUpdate.Updated | assets/js/hooks/photo-update.js:2-8 | No attribute means no change. An unparsable one throws. Otherwise the photo's image source is updated. |
| PhotoUpdate.UpdatePhotoImage | assets/js/hooks/photo-update.js:13-18 | Only the found image's source changes, by `NewSrc`. |
| SelectPopover.FragmentFrom | assets/js/hooks/select.js:13 | Finds the leftmost `/#.+$/` match, or no match. |
| SelectPopover.ChangeArrow | assets/js/hooks/select.js:9-14 | With no `/#.+$/` match the href is kept. Otherwise the text before the leftmost match is kept, and everything from it on becomes `#direction`. |
| SelectPopover.ChangeArrowExample | assets/js/hooks/select.js:13 | `/icons.svg#down` becomes `/icons.svg#up`. |
| SelectPopover.ChangeArrowTwice | assets/js/hooks/select.js:9-14 | Only the last direction counts. |
| SelectPopover.Select.constructor | assets/js/hooks/select.js:4-7 | The `popper` variable starts unassigned and no listener is registered. |
| SelectPopover.Select.Close | assets/js/hooks/select.js:28-33 | With `popper` unassigned it throws first and changes nothing. Otherwise it destroys the popper, hides the content, points the arrow down and removes the listener. |
| SelectPopover.Select.Open | assets/js/hooks/select.js:35-44 | It shows the content, points the arrow up, creates a live popper and registers the listener. |
| SelectPopover.Select.Click | assets/js/hooks/select.js:28-54 | Hidden content is shown, its arrow points up, a live Popper is created and the listener is registered. Shown content is hidden, its arrow points down, the Popper is destroyed and the listener removed. Closing throws when no Popper was ever created, and then nothing changes. |
| SelectPopover.Select.BodyClick | assets/js/hooks/select.js:16-33 | While the listener is registered, a click outside hides the content, points the arrow down, destroys the Popper and removes the listener. Any other click leaves content, arrow, Popper and listener as they were. |
| SelectPopover.Select.Destroyed | assets/js/hooks/select.js:57-59 | The listener is removed. |
| SelectPopover.Select.Updated | assets/js/hooks/select.js:61-65 | Hidden content loses its listener. |
| SelectPopover.FirstClickOnShownContent | assets/js/hooks/select.js:28-54 | The first click on content that starts shown throws. |
| ToggleContent.InsideIsNotOutside | assets/js/hooks/toggle-content.js:7 | A target inside the element is not outside. |
| ToggleContent.Toggle.constructor | assets/js/hooks/toggle-content.js:2-4 | The hook starts without a listener. |
| ToggleContent.Toggle.Close | assets/js/hooks/toggle-content.js:18-21 | The content is hidden and the listener removed. |
| ToggleContent.Toggle.Open | assets/js/hooks/toggle-content.js:23-27 | The content is shown and the listener registered. |
| ToggleContent.Toggle.Click | assets/js/hooks/toggle-content.js:31-37 | A click opens closed content and closes open content. The listener is registered only while the content is shown. |
| ToggleContent.Toggle.BodyClick | assets/js/hooks/toggle-content.js:6-12 | A registered listener closes the content on a click outside. Otherwise nothing changes. |
| ToggleContent.Toggle.Destroyed | assets/js/hooks/toggle-content.js:40-42 | The listener is removed and the content kept. |
| ToggleContent.Toggle.Updated | assets/js/hooks/toggle-content.js:44-48 | Content hidden by the patch loses its listener. Otherwise the listener is kept. |
| GalleryCookie.StripSpaces | assets/js/hooks/client-gallery-cookie.js:38 | Leading U+0020 are removed, nothing else. |
| GalleryCookie.GetCookie | assets/js/hooks/client-gallery-cookie.js:33-42 | The `for` and `while` loops compute `Lookup`. |
| GalleryCookie.FindEntryNone | assets/js/hooks/client-gallery-cookie.js:36-41 | `false` is returned exactly when no entry starts with `name=` once its spaces are stripped. |
| GalleryCookie.FindEntryFirst | assets/js/hooks/client-gallery-cookie.js:36-40 | The first matching entry gives what follows `name=`. |
| GalleryCookie.KeyIncludesEquals | assets/js/hooks/client-gallery-cookie.js:34-39 | Cookie `ab=1` is not found under `a`, but is found under `ab`. |
| GalleryCookie.JarSet | assets/js/hooks/client-gallery-cookie.js:30 | With no cookie of that name, one is appended. Otherwise the first cookie of that name gets the new value in place, and every other cookie is untouched. |
| GalleryCookie.MatchIffSameName | assets/js/hooks/client-gallery-cookie.js:39 | An entry starts with `name=` exactly when its name is `name`, and the rest is its value. |
| GalleryCookie.LookupPadded | assets/js/hooks/client-gallery-cookie.js:35-40 | A header with leading spaces reads back the jar's value. |
| GalleryCookie.LookupHeader | assets/js/hooks/client-gallery-cookie.js:33-42 | Reading `document.cookie` back with `getCookie` gives the jar's value for the name. |
| GalleryCookie.EarliestDuplicateWins | assets/js/hooks/client-gallery-cookie.js:36-39 | With two entries for one name, the earlier value is returned. |
| GalleryCookie.JarSetGet | assets/js/hooks/client-gallery-cookie.js:30 | After setting, the name reads the new value and every other name reads as before. |
| GalleryCookie.JarSetWellFormed | assets/js/hooks/client-gallery-cookie.js:30 | Setting a well-formed cookie keeps the jar well formed. |
| GalleryCookie.CookieString | assets/js/hooks/client-gallery-cookie.js:22-30 | The assigned string starts with `name=value`. |
| GalleryCookie.CookieStringPair | assets/js/hooks/client-gallery-cookie.js:29-30 | The text before the first `;` is exactly `name=value`. |
| GalleryCookie.Page.Mounted | assets/js/hooks/client-gallery-cookie.js:2-12 | A truthy cookie removes only `sm:hidden` from the gallery. Otherwise `hidden` is removed from both elements. |
| GalleryCookie.Page.Updated | assets/js/hooks/client-gallery-cookie.js:13-19 | When `data-active` is truthy, cookie `name=true` is written. Otherwise nothing changes. |
| GalleryCookie.RememberedAfterUpdate | assets/js/hooks/client-gallery-cookie.js:6-18 | After `updated` stores the cookie, `mounted` finds `true`. |
| TrialCode.StripQuestion | assets/js/hooks/handle-trial-code.js:9 | The result is the query or the query less one leading `?`. The `?` is removed exactly when the query starts with one. |
| TrialCode.PartsWithCode | assets/js/hooks/handle-trial-code.js:9-12 | At least one `&`-part contains `code=`, and each kept part does. |
| TrialCode.ExtractCode | assets/js/hooks/handle-trial-code.js:5-13 | There is no code exactly when the query is empty or lacks `code=`. Otherwise the code is what lies between the first and second `=` of the first part containing `code=`. |
| TrialCode.SecondOfPart | assets/js/hooks/handle-trial-code.js:13 | In a part containing `code=`, the second `=`-piece follows the first `=` up to the next one. |
| TrialCode.SplitSecond | assets/js/hooks/handle-trial-code.js:13 | With a separator present, the second part of `split` is the text between the first and second separators. |
| TrialCode.JoinedQueryParts | assets/js/hooks/handle-trial-code.js:9 | The `&`-parts of `?`-prefixed joined parameters are those parameters. |
| TrialCode.ExtractFromPart | assets/js/hooks/handle-trial-code.js:10-13 | The code is read off the first part that carries `code=`. |
| TrialCode.QueryRoundTrip | assets/js/hooks/handle-trial-code.js:4-13 | A query `?p1&…&code=c&…` with no earlier `code=` gives back `c`. |
| TrialCode.ContainingPartWins | assets/js/hooks/handle-trial-code.js:10-13 | A part that merely contains `code=` wins, so `?promocode=x&code=y` gives `x`. |
| TrialCode.ReadAfterWrite | assets/js/hooks/handle-trial-code.js:15-17 | After `setItem(key, value)`, `getItem` reads `value` back under `key`. Every other key reads as before, missing keys as null. |
| TrialCode.LocalStorage.SetItem | assets/js/hooks/handle-trial-code.js:15 | Only the one key is updated. |
| TrialCode.SaveCode | assets/js/hooks/handle-trial-code.js:4-18 | Without a code the storage is only read. With one, the code is stored under `picsello_trialCode` and read back. |
| TrialCode.Mounted | assets/js/hooks/handle-trial-code.js:20-30 | The two calls store as one does. `trial-code` is pushed, with the stored code, exactly when the handle is `retrieve`. |
| MasonryGrid.NewItems | assets/js/hooks/masonry-grid.js:69 | The items not yet in the grid, as an ordered sublist of the document's items, in both directions. |
| MasonryGrid.NothingNewAfterInject | assets/js/hooks/masonry-grid.js:65-73 | After an injection the same document has nothing new. |
| MasonryGrid.NothingNewInSelf | assets/js/hooks/masonry-grid.js:119-123 | A grid holding every document item takes in nothing. |
| MasonryGrid.InjectCoversDocument | assets/js/hooks/masonry-grid.js:65-73 | Afterwards the grid keeps its items in front, holds every document item, and adds no duplicates of old ones. |
| MasonryGrid.MoreIffBelowTotal | assets/js/hooks/masonry-grid.js:89 | With `data-total` printed from n, more photos are expected exactly while fewer than n are in the grid. |
| MasonryGrid.Hook.constructor | assets/js/hooks/masonry-grid.js:18-23 | The hook starts with the page's data, no layouts and no pushes. |
| MasonryGrid.Hook.InitMasonry | assets/js/hooks/masonry-grid.js:30-44 | With a `.masonry` element the grid takes the document's items. Otherwise the result is `false` and nothing changes. |
| MasonryGrid.Hook.GetGrid | assets/js/hooks/masonry-grid.js:49-54 | An existing grid is kept. Otherwise one is initialised, and it fails without a `.masonry` element. |
| MasonryGrid.Hook.ReloadMasonry | assets/js/hooks/masonry-grid.js:58-61 | The grid recollects the document's items, or the call throws without a grid. |
| MasonryGrid.Hook.InjectNewItems | assets/js/hooks/masonry-grid.js:65-73 | New items are appended and one layout runs, or the call throws without a grid. |
| MasonryGrid.Hook.HasMorePhotoToLoad | assets/js/hooks/masonry-grid.js:78-90 | The item count is compared with `data-total`, even when favourites are shown. |
| MasonryGrid.Hook.Mounted | assets/js/hooks/masonry-grid.js:94-108 | The gate is opened on the current page, the listener registered and the grid initialised. |
| MasonryGrid.Hook.Scroll | assets/js/hooks/masonry-grid.js:96-105 | `load-more` is pushed only through an open gate while more photos are expected, and the push closes the gate. A scroll through the open gate initialises a missing grid from the page's items and keeps an existing one. |
| MasonryGrid.Hook.Reconnected | assets/js/hooks/masonry-grid.js:112-115 | The gate is reopened and new items are injected. |
| MasonryGrid.Hook.Updated | assets/js/hooks/masonry-grid.js:119-123 | The gate is reopened, and the grid ends holding exactly the document's items after one layout. |
| MasonryGrid.ScrollMany | assets/js/hooks/masonry-grid.js:96-105 | Over any sequence of scroll events between updates, at most one `load-more` is pushed. After it, the gate stays closed. |
| SortableMasonry.SliceFrom | assets/js/hooks/sortable-masonry.js:16 | The result is the text that follows the first 11 characters, so prefix and result make up the id. It is empty for shorter ids. |
| SortableMasonry.PhotoOrder | assets/js/hooks/sortable-masonry.js:16 | There is one parsed number per grid item. |
| SortableMasonry.PhotoOrderOfNumberedIds | assets/js/hooks/sortable-masonry.js:16 | Ids made of an 11-character prefix and a printed number give back those numbers. |
| SortableMasonry.ShortIdIsNaN | assets/js/hooks/sortable-masonry.js:16 | An id too short to hold a number gives `NaN`. |
| SortableMasonry.OrderTextRoundTrip | assets/js/hooks/sortable-masonry.js:26 | The field's text, split at commas and parsed, gives back the order. |
| SortableMasonry.NumberTextRoundTrip | assets/js/hooks/sortable-masonry.js:26 | A printed number, `NaN` included, holds no comma and parses back. |
| SortableMasonry.Hook.Mounted | assets/js/hooks/sortable-masonry.js:4-22 | The grid's items are the document's items. |
| SortableMasonry.Hook.SetChange | assets/js/hooks/sortable-masonry.js:23-28 | Only an existing field takes the value. |
| SortableMasonry.Hook.DragReleaseEnd | assets/js/hooks/sortable-masonry.js:15-19 | `photo_order` gets the grid's order as photo numbers. |
| SortableMasonry.Hook.InjectNewItems | assets/js/hooks/sortable-masonry.js:29-36 | The document's items not yet in the grid are appended. |
| SortableMasonry.Hook.Reconnected | assets/js/hooks/sortable-masonry.js:41-43 | Nothing changes. |
| SortableMasonry.Hook.Updated | assets/js/hooks/sortable-masonry.js:49-51 | New items are injected. |
| SortableMasonry.UpdatedTwice | assets/js/hooks/sortable-masonry.js:49-51 | A second update over the same document adds nothing. |
| Intros.Intro | assets/js/data/intros.js:7-254 | A tour keeps the literal's `showBullets`. Its steps are the literal's steps, in order, exactly those whose element is present. |
| Intros.PackagesNeverShown | assets/js/data/intros.js:52-57 | The dashboard's "Packages" step has an empty element and never appears, so at most eight steps are shown. |
| Intros.AllBottomMiddle | assets/js/data/intros.js:8-253 | Every shown step is bottom-middle-aligned. |
| Intros.LiteralPositions | assets/js/data/intros.js:8-253 | Every literal step is bottom-middle-aligned. |
| Intros.FullPageKeepsEveryStep | assets/js/data/intros.js:75-253 | Outside the dashboard, when every selector matches, every step is kept in order. |
| Intros.LiteralSelectors | assets/js/data/intros.js:75-253 | Only the dashboard has a step without a selector. |
| JsString.ContainsIffOccurs | assets/js/hooks/handle-trial-code.js:5 | `includes` holds exactly when the word occurs at some index. |
| JsString.Split | assets/js/hooks/client-gallery-cookie.js:35 | `split` at one character never gives an empty list. |
| JsString.SplitCount | assets/js/hooks/client-gallery-cookie.js:35 | There is one more part than there are separators. |
| JsString.SplitPartsHaveNoSeparator | assets/js/hooks/client-gallery-cookie.js:35 | No part holds the separator. |
| JsString.JoinSplit | assets/js/hooks/client-gallery-cookie.js:35 | Joining the parts gives the string back. |
| JsString.SplitJoin | assets/js/hooks/client-gallery-cookie.js:35 | Separator-free parts are recovered by splitting their join. |
| JsString.TrimStart | assets/js/hooks/quill.js:148 | Exactly the leading white space is removed. |
| JsString.BlankIffAllSpace | assets/js/hooks/quill.js:148 | `trim().length === 0` holds exactly when every character is white space. |
| JsString.UnitsOfBmp | assets/js-gcf/stages.js:20 | Below U+10000, the code units are the characters. |
| JsString.DecimalRoundTrip | assets/js-gcf/stages.js:27 | The printed digits of n have value n. |
| JsString.IntToDecimalInjective | assets/js-gcf/stages.js:27 | Different integers print differently. |
| JsString.MinusSignIffNegative | assets/js-gcf/stages.js:27 | A printed integer starts with `-` exactly when it is negative. |
| JsString.ParseIntOfDecimal | assets/js/hooks/sortable-masonry.js:16 | `parseInt` reads back a printed natural number. |
| JsString.ParseIntOfIntDecimal | assets/js/hooks/sortable-masonry.js:16 | `parseInt` reads back a printed integer, negatives included. |
| JsString.ParseIntNaN | assets/js/hooks/sortable-masonry.js:16 | Text starting with neither space, sign nor digit is `NaN`. |
| JsString.ToNumber | assets/js/hooks/masonry-grid.js:89 | Blank text converts to 0. |
| JsString.ToNumberOfDecimal | assets/js/hooks/masonry-grid.js:89 | `Number` reads back a printed natural number. |
| Paths.LastIndexOf | assets/js-gcf/galleries/font.js:80 | Finds the last occurrence of the character, or nothing when it is absent. |
| Paths.ExtName | assets/js-gcf/galleries/font.js:80 | `extname` is empty or a dot followed by neither a dot nor a slash. |
| Paths.ExtNameOf | assets/js-gcf/galleries/font.js:80 | A last segment `stem + ext` has the extension `ext`. |
| Dom.QueryAll | assets/js/hooks/toggle-siblings.js:22 | It lists exactly the matching elements in scope, in document order. |
| Dom.Query | assets/js/hooks/toggle-siblings.js:20 | It gives the first element of `querySelectorAll`, or null exactly when that is empty. |
| Dom.Closest | assets/js/hooks/select-highlighter.js:7 | It gives the nearest matching inclusive ancestor: no closer element matches. It is null when no inclusive ancestor matches. |
| Dom.GetElementById | assets/js/hooks/custom-selector.js:7-9 | It gives the first element in document order with the id, or null when there is none. |
| Dom.Flip | assets/js/hooks/toggle-siblings.js:8-12 | The class is toggled and no other class changes. |
| Dom.QueryAllAgree | assets/js/hooks/toggle-siblings.js:20-22 | A class change that keeps which elements match keeps the query results. |
| Seqs.Filter | assets/js/hooks/masonry-grid.js:69 | `filter` keeps exactly the elements that pass. |
| Seqs.FilterIsSubsequence | assets/js/hooks/masonry-grid.js:69 | `filter` keeps the order. |
| Seqs.FilterIdempotent | assets/js/hooks/folder-upload.js:66 | Filtering twice by the same test changes nothing more. |
| Seqs.TakeWhile | assets/js/hooks/handle-trial-code.js:13 | The longest prefix whose elements pass, stopping at the first that fails. |

## Left out

- Base64 decoding and `JSON.parse`/`JSON.stringify`: `parse` parameters stand in for them, with `None` meaning "throws". The published payload is the context value itself.
- Cloud Storage, Pub/Sub and sharp: each storage, Pub/Sub and resize call is recorded with its arguments, and its success is a parameter. sharp's `metadata()` call is not recorded; the size it reports is a parameter. The pixels of a resized image are not modelled, only the width asked for. The fields of the parsed `resize` option of the profile-image function are not modelled.
- Stages.PreviewStage: sharp's refusal of an output file equal to its input file is modelled from sharp's documented behaviour. sharp's source is not part of this model.
- `downloadWatermarkStage` and `generateTextWatermarkStage` are imported by `index.js` but not defined in `stages.js`. They are modelled as steps that resolve with the context unchanged or reject with a given failure.
- Asynchrony: each promise chain runs sequentially, one stage after the other. Concurrent runs of the function, and the event loop, are not modelled.
- `debugStage` and every `console.log` only log; they are not modelled beyond passing the context on.
- `path.join` and `path.resolve` are modelled for simple segments, without normalising `.`/`..` or repeated slashes.
- Font outlines, `toPoints`/`offset`/`boundingBox`, PNG rasterising and the `Buffer` text are not modelled. The advance width and vertical extent of a line are parameters, and the SVG is a structured value.
- Font.Convert: arithmetic is over exact reals, not IEEE doubles. The offset of a line with an unrecognised alignment is decided by the foreign `offset` function of the `points` library, which is not modelled; the model records it as `None`. `options.align.toLowerCase()` is modelled on ASCII letters only, which recognises the same five alignments but may keep other letters as they were.
- Paths.ExtName: a path ending in `/` is given no extension, where Node reads the extension of the segment before the slash. No font name or file name in the model ends in `/`.
- The opentype `loadSync` and `fs.existsSync` calls are parameters of the font search.
- `profiles/index.js` ends with an unmatched `}` on line 65 and would not parse. `processProfileImage` is modelled as though that brace were absent.
- JsString.ToNumber and MasonryGrid.Hook.HasMorePhotoToLoad handle decimal integers only. Fractions, exponents, hexadecimal and `Infinity` read as `NaN`.
- Cookies: the dates and `Expires` attribute, paths, and the browser's own cookie storage rules are not modelled. The jar is a list of name/value pairs, replaced or appended by name.
- `Link.sanitize` of Quill is a parameter. Quill's delta model is reduced to a sequence of characters and image embeds, and HTML parsing is a parameter.
- QuillEditor.Editor.Update, QuillEditor.Editor.constructor and QuillEditor.Editor.InsertImage: Quill's own `text-change` event is not modelled. Quill fires it after the direct `quill.root.innerHTML` writes of quill.js:162 and :166 and after the user-source insertions of quill.js:131-137, and each firing runs `textChange` again with its input events. In the model, Update runs `textChange` once, and the constructor and InsertImage do not run it.
- `pica`/`imageToBlob`, `FileReader`, `FormData` and the uploaded bytes are not modelled. An upload is its outcome (status or network error) and the signed-URL reply.
- `showDirectoryPicker`, `uuidv4` and `renameFile` are inputs: the entries are given values, and the uuid a function of the sub-folder's index.
- `isScrolledOver` reads browser scroll metrics. It is a boolean parameter of each scroll event.
- `window.grid` is shared between the masonry and sortable hooks on a page; each hook's grid is modelled separately.
- Masonry's item collection is the document's `.item` list, and Muuri's drag reordering is the grid order given to the model.
- The intro texts of the tours are not modelled. Each step is its title, selector and position.
- `img.src` resolution to an absolute URL is not modelled. The source is compared as written.
- The arrow `<use>` element is taken to be present: a missing one, which would throw in `changeArrowTo`, is not modelled.
- Duplicate element ids are handled as the DOM does (first in document order). Malformed documents are excluded by `Dom.WellFormed`.
- Dom.WellFormed: elements are taken to be numbered in document order, and every query reads index order as document order. The predicate checks only that a parent has a smaller number than its children, so it admits numberings that are not a document's pre-order.

## Findings

| source | as written | input that shows it | evidently intended | confidence | as-written member | corrected member |
|---|---|---|---|---|---|---|
| assets/js-gcf/galleries/font.js:80-84 | A font name that already has an extension is tried as `fontPath + extname(fontPath)`, so the extension is doubled. | `loadFont("Roboto.ttf")` with only `./Roboto.ttf` on disk: only `Roboto.ttf.ttf` is tried, and nothing is returned | A name with an extension is tried as it is | high, not executed | Font.DoubledExtension | Font.FixedFindsNamedFile |
| assets/js-gcf/index.js:29 | `.then` is called on whatever `downloadStage` returns; when its task record lacks a bucket or original path, that is the bare context, which has no `.then`. | a message whose task record has no `bucket`: `doProcessing` rejects with a TypeError before `.catch` is attached, so no stage after the download runs and the process does not exit with -1 | Every stage's result passed on as a promise (`Promise.resolve(downloadStage(context)).then(…)`) | high, not executed | Pipeline.RunStages | Pipeline.RunStagesFixed |
