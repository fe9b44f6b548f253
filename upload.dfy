/**
 * The presigned-POST upload shared by the image-upload input and the rich
 * text editor: the form is posted to the signed `url`, and only a `204`
 * answer counts as success, the object then living at `url/key`.
 */
module SignedUpload {
  import opened Wrappers
  import opened JsString

  /** How the `XMLHttpRequest` ends: `onload` with a status, or `onerror`. */
  datatype XhrOutcome = Loaded(status: int) | NetworkError

  /** The signed-URL reply `{url, fields}`; of the fields only `key` is looked at. */
  datatype Reply = Reply(url: string, key: string)

  /** The uploaded object's address, when the upload succeeded. */
  function UploadedUrl(outcome: XhrOutcome, reply: Reply): (r: Option<string>)
    ensures r.Some? <==> outcome == Loaded(204)
    ensures r.Some? ==> StartsWith(r.value, reply.url + "/") && r.value[|reply.url| + 1..] == reply.key
  {
    if outcome == Loaded(204) then
      var u := reply.url + "/" + reply.key;
      assert u[..|reply.url| + 1] == reply.url + "/";
      Some(u)
    else None
  }
}
