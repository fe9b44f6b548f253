/**
 * The image-upload input hook: the chosen file's name is normalised, a
 * signed URL is requested for it, and a successful upload puts the
 * object's address into the hidden form input.
 */
module ImageUpload {
  import opened Wrappers
  import opened JsString
  import Paths
  import opened SignedUpload

  /** The characters of a normalised name: `[a-z0-9._-]`. */
  predicate IsLowerNameChar(c: char) {
    'a' <= c <= 'z' || IsDigit(c) || c == '.' || c == '-' || c == '_'
  }

  /** The characters of a file name after the first replacement: `[A-Za-z0-9._-]`. */
  predicate IsNameChar(c: char) {
    'a' <= c <= 'z' || 'A' <= c <= 'Z' || IsDigit(c) || c == '.' || c == '-' || c == '_'
  }

  /** `[a-z0-9.-]` under the `i` flag, on one UTF-16 code unit (only ASCII letters fold). */
  predicate Kept(u: CodeUnit) {
    'a' as int <= u <= 'z' as int || 'A' as int <= u <= 'Z' as int || '0' as int <= u <= '9' as int ||
    u == '.' as int || u == '-' as int
  }

  /** `.replace(/[^a-z0-9.-]/gi, '_')`: every code unit outside the class becomes `_`. */
  function Sanitize(units: seq<CodeUnit>): (r: string)
    ensures |r| == |units|
    ensures forall i :: 0 <= i < |r| ==> IsNameChar(r[i])
    ensures forall i :: 0 <= i < |r| ==> if Kept(units[i]) then r[i] as int == units[i] else r[i] == '_'
  {
    seq(|units|, i requires 0 <= i < |units| => if Kept(units[i]) then units[i] as char else '_')
  }

  /** `/\.\w+$/` matches at `i`: a dot followed by one or more word characters up to the end. */
  predicate ExtensionAt(s: string, i: int) {
    0 <= i < |s| - 1 && s[i] == '.' && forall k :: i < k < |s| ==> IsWordChar(s[k])
  }

  /** A match can only start at the last dot, so there is at most one. */
  lemma ExtensionAtLastDot(s: string, i: int)
    requires ExtensionAt(s, i)
    ensures Paths.LastIndexOf(s, '.') == Some(i)
  {
    var r := Paths.LastIndexOf(s, '.');
    assert s[i] == '.';
    assert r.Some?;
    var j := r.value;
    assert forall k :: j < k < |s| ==> s[k] != '.' by {
      forall k | j < k < |s|
        ensures s[k] != '.'
      {
        assert s[k] == s[j + 1..][k - j - 1];
      }
    }
    assert forall k :: i < k < |s| ==> s[k] != '.';
  }

  /** `.replace(/\.\w+$/, '.jpg')`: a trailing extension becomes `.jpg`; without one nothing changes. */
  function ReplaceExtension(s: string): (r: string)
    ensures forall i :: ExtensionAt(s, i) ==> r == s[..i] + ".jpg"
    ensures (forall i :: !ExtensionAt(s, i)) ==> r == s
  {
    match Paths.LastIndexOf(s, '.')
    case None => s
    case Some(j) =>
      assert forall i :: ExtensionAt(s, i) ==> i == j by {
        forall i | ExtensionAt(s, i)
          ensures i == j
        {
          ExtensionAtLastDot(s, i);
        }
      }
      if ExtensionAt(s, j) then s[..j] + ".jpg" else s
  }

  /** The name sent with the signed-URL request and given to the uploaded `File`. */
  function NormalizedName(name: string): (r: string)
    ensures forall i :: 0 <= i < |r| ==> IsLowerNameChar(r[i])
  {
    var t := Sanitize(Units(name));
    ReplaceExtensionKeepsNameChars(t);
    ToLowerAscii(ReplaceExtension(t))
  }

  /** The `.jpg` that replaces an extension is made of name characters too. */
  lemma ReplaceExtensionKeepsNameChars(t: string)
    requires forall i :: 0 <= i < |t| ==> IsNameChar(t[i])
    ensures var s := ReplaceExtension(t); forall i :: 0 <= i < |s| ==> IsNameChar(s[i])
  {
    var s := ReplaceExtension(t);
    if exists i :: ExtensionAt(t, i) {
      var i :| ExtensionAt(t, i);
      assert s == t[..i] + ".jpg";
      assert forall k :: 0 <= k < i ==> s[k] == t[k];
    }
  }

  predicate EndsWith(s: string, suffix: string) {
    |suffix| <= |s| && s[|s| - |suffix|..] == suffix
  }

  /** `/\.\w+$/` matches somewhere in `s`. */
  predicate HasExtension(s: string) {
    exists i :: 0 <= i < |s| && ExtensionAt(s, i)
  }

  /** The result ends with `.jpg` exactly when the sanitised name had a trailing extension. */
  lemma JpgIffExtension(name: string)
    ensures EndsWith(NormalizedName(name), ".jpg") <==> HasExtension(Sanitize(Units(name)))
  {
    var t := Sanitize(Units(name));
    var s := ReplaceExtension(t);
    var r := NormalizedName(name);
    assert r == ToLowerAscii(s);
    if HasExtension(t) {
      var i :| ExtensionAt(t, i);
      assert s == t[..i] + ".jpg";
      LowerEndsWithJpg(t[..i]);
    } else {
      assert s == t;
      JpgMeansExtension(t);
    }
  }

  /** Lower-casing keeps a `.jpg` ending. */
  lemma LowerEndsWithJpg(u: string)
    ensures EndsWith(ToLowerAscii(u + ".jpg"), ".jpg")
  {
    var r := ToLowerAscii(u + ".jpg");
    var n := |u|;
    assert r[n] == '.' && r[n + 1] == 'j' && r[n + 2] == 'p' && r[n + 3] == 'g';
    assert r[n..] == ".jpg";
  }

  /** After lower-casing, the `.jpg` ending is still an extension, and replacing it gives the same text. */
  lemma LowerJpgExtension(u: string)
    ensures var r := ToLowerAscii(u + ".jpg");
      ExtensionAt(r, |u|) && r[..|u|] + ".jpg" == r
  {
    var r := ToLowerAscii(u + ".jpg");
    var n := |u|;
    assert r[n] == '.' && r[n + 1] == 'j' && r[n + 2] == 'p' && r[n + 3] == 'g';
    assert r[n..] == ".jpg";
    assert r[..n] + r[n..] == r;
  }

  /** A lower-cased name ending in `.jpg` came from one with a trailing extension. */
  lemma JpgMeansExtension(t: string)
    ensures EndsWith(ToLowerAscii(t), ".jpg") ==> HasExtension(t)
  {
    var r := ToLowerAscii(t);
    if EndsWith(r, ".jpg") {
      var n := |t|;
      assert r[n - 4] == '.' && r[n - 3] == 'j' && r[n - 2] == 'p' && r[n - 1] == 'g' by {
        assert r[n - 4..] == ".jpg";
      }
      assert LowerAscii(t[n - 4]) == '.';
      assert ExtensionAt(t, n - 4);
    }
  }

  /** Past the first step every name is plain ASCII, so its code units are its characters. */
  lemma AsciiUnits(s: string)
    requires forall i :: 0 <= i < |s| ==> IsLowerNameChar(s[i])
    ensures Sanitize(Units(s)) == s
  {
    UnitsOfBmp(s);
    var r := Sanitize(Units(s));
    forall i | 0 <= i < |s|
      ensures r[i] == s[i]
    {
      assert Units(s)[i] == s[i] as int;
      if Kept(Units(s)[i]) {
        assert r[i] as int == s[i] as int;
      }
    }
  }

  /** Lower-casing keeps dots and word characters where they are, so it keeps every extension. */
  lemma LowerKeepsExtension(t: string, i: int)
    ensures ExtensionAt(ToLowerAscii(t), i) <==> ExtensionAt(t, i)
  {
    var r := ToLowerAscii(t);
    assert forall k :: 0 <= k < |t| ==> (r[k] == '.' <==> t[k] == '.') && (IsWordChar(r[k]) <==> IsWordChar(t[k]));
  }

  /** The extension step leaves a normalised name alone: its extension, if any, is already `.jpg`. */
  lemma NormalizedKeepsExtension(name: string)
    ensures ReplaceExtension(NormalizedName(name)) == NormalizedName(name)
  {
    var r := NormalizedName(name);
    var t := Sanitize(Units(name));
    var s := ReplaceExtension(t);
    assert r == ToLowerAscii(s);
    if i :| ExtensionAt(t, i) {
      assert s == t[..i] + ".jpg";
      LowerJpgExtension(t[..i]);
    } else {
      assert s == t;
      forall i | true
        ensures !ExtensionAt(r, i)
      {
        LowerKeepsExtension(t, i);
      }
    }
  }

  /** Normalising a normalised name changes nothing. */
  lemma NormalizeIdempotent(name: string)
    ensures NormalizedName(NormalizedName(name)) == NormalizedName(name)
  {
    var r := NormalizedName(name);
    AsciiUnits(r);
    NormalizedKeepsExtension(name);
    assert ToLowerAscii(r) == r;
  }

  /** What the hook pushes to the server. */
  datatype Push =
    | GetSignedUrl(name: string, contentType: string, uploadFolder: Option<string>)
    | UploadFinished(url: string)

  /** One hook instance: its pushes, the hidden input's value, and the `alert`s shown. */
  class Hook {
    var pushes: seq<Push>
    var hiddenValue: string
    var inputEvents: nat
    var alerts: nat

    constructor (hiddenValue: string)
      ensures pushes == [] && this.hiddenValue == hiddenValue && inputEvents == 0 && alerts == 0
    {
      pushes := [];
      this.hiddenValue := hiddenValue;
      inputEvents := 0;
      alerts := 0;
    }

    /**
     * A file dropped or chosen (`event.dataTransfer.files[0]`,
     * `fileInput.files[0]`): nothing without a file, otherwise `uploadImage`
     * asks for a signed URL for the normalised name, always as `image/jpeg`.
     */
    method FileChosen(files: seq<string>, uploadFolder: Option<string>)
      modifies this`pushes
      ensures files == [] ==> pushes == old(pushes)
      ensures files != [] ==>
        pushes == old(pushes) + [GetSignedUrl(NormalizedName(files[0]), "image/jpeg", uploadFolder)]
    {
      if files != [] {
        var normalizedName := NormalizedName(files[0]);
        pushes := pushes + [GetSignedUrl(normalizedName, "image/jpeg", uploadFolder)];
      }
    }

    /**
     * The end of the upload: on `204` the address is pushed as
     * `upload_finished`, written to the hidden input and announced with an
     * `input` event; any other status, or a network error, shows an alert.
     */
    method UploadDone(outcome: XhrOutcome, reply: Reply)
      modifies this
      ensures UploadedUrl(outcome, reply).Some? ==>
        var url := UploadedUrl(outcome, reply).value;
        pushes == old(pushes) + [UploadFinished(url)] && hiddenValue == url &&
        inputEvents == old(inputEvents) + 1 && alerts == old(alerts)
      ensures UploadedUrl(outcome, reply).None? ==>
        pushes == old(pushes) && hiddenValue == old(hiddenValue) &&
        inputEvents == old(inputEvents) && alerts == old(alerts) + 1
    {
      var uploaded := UploadedUrl(outcome, reply);
      if uploaded.Some? {
        pushes := pushes + [UploadFinished(uploaded.value)];
        hiddenValue := uploaded.value;
        inputEvents := inputEvents + 1;
      } else {
        alerts := alerts + 1;
      }
    }
  }
}
