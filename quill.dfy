/**
 * The rich-text editor hook and its Quill customisations: links get an
 * `https://` scheme unless they already have an `http` one, the toolbar is
 * assembled from the element's data attributes, an uploaded image is
 * inserted on its own line at the cursor, and every change mirrors the
 * editor into the hidden form inputs.
 */
module QuillEditor {
  import opened Wrappers
  import opened JsString
  import opened SignedUpload

  /** `CustomLink.create`'s rule after sanitising: a value not starting with `http` gets `https://`. */
  function WithScheme(value: string): (href: string)
    ensures StartsWith(href, "http")
    ensures StartsWith(value, "http") ==> href == value
    ensures !StartsWith(value, "http") ==> StartsWith(href, "https://") && href[8..] == value
  {
    if StartsWith(value, "http") then value
    else
      var href := "https://" + value;
      assert href[..8] == "https://";
      assert href[..4] == "http";
      href
  }

  /** The link's `href`; `sanitize` stands for Quill's own `Link.sanitize`. */
  function LinkHref(value: string, sanitize: string -> string): (href: string)
    ensures StartsWith(href, "http")
  {
    WithScheme(sanitize(value))
  }

  /** Normalising an already normalised link changes nothing. */
  lemma WithSchemeIdempotent(value: string)
    ensures WithScheme(WithScheme(value)) == WithScheme(value)
  {
  }

  /** A scheme-less address gets exactly the `https://` prefix. */
  lemma SchemelessExample()
    ensures WithScheme("example.com") == "https://example.com"
  {
    assert "example.com"[0] == 'e';
  }

  /** An `http` address is kept as it is. */
  lemma HttpExample()
    ensures WithScheme("http://example.com") == "http://example.com"
  {
    assert "http://example.com"[..4] == "http";
  }

  /** Any other scheme is not recognised and gets the prefix too. */
  lemma MailtoExample()
    ensures WithScheme("mailto:a@b.c") == "https://mailto:a@b.c"
  {
    assert "mailto:a@b.c"[0] == 'm';
  }

  /** The sizes `SizeStyle.whitelist` allows. */
  const SizeWhitelist: seq<string> := ["10px", "18px", "32px"]

  /** A toolbar control: a format button, a list button, or the size picker (`false` is `None`). */
  datatype Control = Format(name: string) | ListButton(kind: string) | SizePicker(sizes: seq<Option<string>>)

  const BaseToolbar: seq<Control> :=
    [Format("bold"), Format("italic"), Format("underline"), ListButton("bullet"), ListButton("ordered"), Format("link")]

  const SizeControl: Control := SizePicker([Some("10px"), None, Some("18px"), Some("32px")])

  /** Every size the picker offers is whitelisted, and every whitelisted size is offered. */
  lemma SizePickerMatchesWhitelist()
    ensures forall s :: Some(s) in SizeControl.sizes <==> s in SizeWhitelist
  {
    assert SizeControl.sizes == [Some("10px"), None, Some("18px"), Some("32px")];
    forall s | s in SizeWhitelist
      ensures Some(s) in SizeControl.sizes
    {
      if s == "10px" {
        assert SizeControl.sizes[0] == Some(s);
      } else if s == "18px" {
        assert SizeControl.sizes[2] == Some(s);
      } else {
        assert SizeControl.sizes[3] == Some(s);
      }
    }
  }

  /**
   * `toolbarOptions`: the base list, with the size picker put in front when
   * `data-enable-size` is present and `image` appended when
   * `data-enable-image` is present.
   */
  method BuildToolbar(enableSize: Option<string>, enableImage: Option<string>) returns (toolbar: seq<Control>)
    ensures var k := if enableSize.Some? then 1 else 0;
      |toolbar| == k + 6 + (if enableImage.Some? then 1 else 0) && toolbar[k..k + 6] == BaseToolbar
    ensures enableSize.Some? <==> toolbar[0] == SizeControl
    ensures enableImage.Some? <==> toolbar[|toolbar| - 1] == Format("image")
  {
    toolbar := BaseToolbar;
    if enableSize.Some? {
      toolbar := [SizeControl] + toolbar;
    }
    if enableImage.Some? {
      toolbar := toolbar + [Format("image")];
    }
  }

  /** One item of the editor's contents: a character or an image embed. */
  datatype Item = Char(c: char) | Image(url: string)

  /** `quill.getText()`: the characters, with embeds left out. */
  function Text(doc: seq<Item>): (t: string)
    ensures |t| <= |doc|
  {
    if doc == [] then []
    else if doc[0].Char? then [doc[0].c] + Text(doc[1..])
    else Text(doc[1..])
  }

  lemma {:induction false} TextConcat(a: seq<Item>, b: seq<Item>)
    ensures Text(a + b) == Text(a) + Text(b)
    decreases |a|
  {
    if a == [] {
      assert a + b == b;
    } else {
      assert (a + b)[0] == a[0];
      assert (a + b)[1..] == a[1..] + b;
      TextConcat(a[1..], b);
    }
  }

  /** `text && text.trim().length === 0`. */
  predicate BlankText(text: string) {
    text != "" && IsBlank(text)
  }

  /** What the hook pushes to its target. */
  datatype Push = GetSignedUrl(name: string, fileType: string)

  /**
   * One mounted editor: its contents and cursor, `quill.root.innerHTML`,
   * the hidden html input, the optional text input, and what the hook has
   * sent out.
   */
  class Editor {
    var doc: seq<Item>
    var cursor: nat
    var rootHtml: string
    var htmlInput: string
    var textInput: Option<string>
    var inputEvents: nat
    var pushes: seq<Push>
    var alerts: nat

    predicate Valid()
      reads this
    {
      cursor <= |doc|
    }

    /**
     * Mounting: the editor shows the html input's value, which Quill reads
     * as `parsed`; `textInput` is `None` when there is no such input.
     */
    constructor (htmlValue: string, parsed: seq<Item>, textInput: Option<string>)
      ensures Valid()
      ensures doc == parsed && cursor == 0 && rootHtml == htmlValue && htmlInput == htmlValue
      ensures this.textInput == textInput && inputEvents == 0 && pushes == [] && alerts == 0
    {
      doc := parsed;
      cursor := 0;
      rootHtml := htmlValue;
      htmlInput := htmlValue;
      this.textInput := textInput;
      inputEvents := 0;
      pushes := [];
      alerts := 0;
    }

    /**
     * `textChange`: the html input takes the editor's html, or `''` when the
     * text is only white space; the text input, when there is one, takes
     * the text. Each written input gets an `input` event.
     */
    method TextChange()
      modifies this`htmlInput, this`textInput, this`inputEvents
      ensures htmlInput == if BlankText(Text(doc)) then "" else rootHtml
      ensures textInput == if old(textInput).Some? then Some(Text(doc)) else None
      ensures inputEvents == old(inputEvents) + if old(textInput).Some? then 2 else 1
    {
      htmlInput := rootHtml;
      var text := Text(doc);
      if text != "" && IsBlank(text) {
        htmlInput := "";
      }
      inputEvents := inputEvents + 1;
      if textInput.Some? {
        textInput := Some(text);
        inputEvents := inputEvents + 1;
      }
    }

    /**
     * `quill:update`: the editor is given new html, which Quill reads as
     * `parsed` and leaves the selection at `selection`; then `textChange` runs.
     */
    method Update(html: string, parsed: seq<Item>, selection: nat)
      requires selection <= |parsed|
      modifies this
      ensures Valid()
      ensures doc == parsed && rootHtml == html && cursor == selection
      ensures htmlInput == if BlankText(Text(parsed)) then "" else html
      ensures textInput == if old(textInput).Some? then Some(Text(parsed)) else None
      ensures inputEvents == old(inputEvents) + if old(textInput).Some? then 2 else 1
      ensures pushes == old(pushes) && alerts == old(alerts)
    {
      rootHtml := html;
      doc := parsed;
      cursor := selection;
      TextChange();
    }

    /** The file input's `change`: the first chosen file, if any, asks for a signed URL. */
    method FileChosen(files: seq<(string, string)>)
      modifies this`pushes
      ensures files == [] ==> pushes == old(pushes)
      ensures files != [] ==> pushes == old(pushes) + [GetSignedUrl(files[0].0, files[0].1)]
    {
      if files != [] {
        var file := files[0];
        pushes := pushes + [GetSignedUrl(file.0, file.1)];
      }
    }

    /**
     * The image inserted at the cursor: a newline goes in at the cursor,
     * the embed in front of it, and the cursor moves past both.
     */
    method InsertImage(url: string)
      requires Valid()
      modifies this`doc, this`cursor
      ensures Valid()
      ensures doc == old(doc[..cursor]) + [Image(url), Char('\n')] + old(doc[cursor..])
      ensures cursor == old(cursor) + 2
    {
      var index := cursor;
      doc := doc[..index] + [Char('\n')] + doc[index..];
      doc := doc[..index] + [Image(url)] + doc[index..];
      cursor := index + 2;
    }

    /** The end of the upload: `204` inserts the image at `url/key`, anything else shows an alert. */
    method UploadDone(outcome: XhrOutcome, reply: Reply)
      requires Valid()
      modifies this`doc, this`cursor, this`alerts
      ensures Valid()
      ensures UploadedUrl(outcome, reply).Some? ==>
        doc == old(doc[..cursor]) + [Image(UploadedUrl(outcome, reply).value), Char('\n')] + old(doc[cursor..]) &&
        cursor == old(cursor) + 2 && alerts == old(alerts)
      ensures UploadedUrl(outcome, reply).None? ==>
        doc == old(doc) && cursor == old(cursor) && alerts == old(alerts) + 1
    {
      var uploaded := UploadedUrl(outcome, reply);
      if uploaded.Some? {
        InsertImage(uploaded.value);
      } else {
        alerts := alerts + 1;
      }
    }
  }

  /** The inserted image adds only a newline to the text, at the cursor's place in it. */
  lemma InsertImageText(doc: seq<Item>, cursor: nat, url: string)
    requires cursor <= |doc|
    ensures Text(doc[..cursor] + [Image(url), Char('\n')] + doc[cursor..]) == Text(doc[..cursor]) + "\n" + Text(doc[cursor..])
  {
    TextConcat(doc[..cursor] + [Image(url), Char('\n')], doc[cursor..]);
    TextConcat(doc[..cursor], [Image(url), Char('\n')]);
    assert Text([Image(url), Char('\n')]) == "\n" by {
      assert [Image(url), Char('\n')][1..] == [Char('\n')];
      assert [Char('\n')][1..] == [];
    }
  }

  /** After the insertion the cursor sits just after the new line, the image just before it. */
  lemma CursorAfterImage(doc: seq<Item>, cursor: nat, url: string)
    requires cursor <= |doc|
    ensures var d := doc[..cursor] + [Image(url), Char('\n')] + doc[cursor..];
      cursor + 2 <= |d| && d[cursor] == Image(url) && d[cursor + 1] == Char('\n') &&
      d[..cursor] == doc[..cursor] && d[cursor + 2..] == doc[cursor..]
  {
    var d := doc[..cursor] + [Image(url), Char('\n')] + doc[cursor..];
    assert d[cursor + 2..] == doc[cursor..];
  }

  /**
   * Embeds are not text, so contents holding only images and Quill's
   * closing newline count as blank: such a message leaves the html input
   * empty.
   */
  lemma ImageOnlyIsBlank(url: string)
    ensures Text([Image(url), Char('\n')]) == "\n"
    ensures BlankText(Text([Image(url), Char('\n')]))
  {
    assert [Image(url), Char('\n')][1..] == [Char('\n')];
    assert [Char('\n')][1..] == [];
  }

  /** Text with a visible character is not blank. */
  lemma NotBlankWithVisible(text: string, i: nat)
    requires i < |text| && !IsSpace(text[i])
    ensures !BlankText(text)
  {
    BlankIffAllSpace(text);
  }

  /** The `ql-editor` element `ClearQuillInput` empties. */
  class EditorElement {
    var innerHtml: string
    var classes: set<string>

    constructor (innerHtml: string, classes: set<string>)
      ensures this.innerHtml == innerHtml && this.classes == classes
    {
      this.innerHtml := innerHtml;
      this.classes := classes;
    }

    /** A click on the clear button empties the editor and marks it `ql-blank`. */
    method Clear()
      modifies this
      ensures innerHtml == "" && classes == old(classes) + {"ql-blank"}
    {
      innerHtml := "";
      classes := classes + {"ql-blank"};
    }
  }
}
