/** POST /api/upload: check the server configuration, the session and
    the submitted image, then store the file under a name made of the
    caller's id, the time and the original extension, and answer with its
    path and a public or signed URL. */
module Upload {
  import opened Base
  import opened JsText
  import opened Types
  import Session

  /** The `file` form entry: its MIME type and name as the browser sent
      them (either may be absent), and its length in bytes. */
  datatype FileBlob = FileBlob(mimeType: Option<string>, name: Option<string>, size: nat)

  /** The multipart form: the `file` entry and the `bucket` entry. */
  datatype UploadForm = UploadForm(file: Option<FileBlob>, bucket: Option<string>)

  /** What the handler has settled on before it calls the storage. */
  datatype Prepared = Prepared(uid: UserId, bucket: string, fileName: string, contentType: string, size: nat)

  /** The storage's error object: its numeric `status` and its textual
      `statusCode`, either of which may be absent. */
  datatype StorageError = StorageError(status: Option<int>, statusCode: Option<string>)

  /** The success payload: the stored path and the URL, either may be null. */
  datatype Uploaded = Uploaded(path: Option<string>, url: Option<string>)

  const Misconfigured := "Server misconfiguration: SUPABASE_SERVICE_ROLE_KEY is not set."
  const MissingToken := "Unauthorized: missing session token"
  const RejectedToken := "Invalid token / unauthorized"
  const NoFile := "No file provided"
  const NotImage := "File must be an image"
  const TooLarge := "File size must be less than 5MB"
  const AccessDenied := "Storage access denied. Check service role key / permissions."
  const UploadFailed := "Failed to upload file"

  const DefaultBucket := "task-proofs"
  const DefaultType := "application/octet-stream"
  const DefaultName := "upload"
  const DefaultExtension := "jpg"
  const MaxSize := 5 * 1024 * 1024

  /** `file.type || "application/octet-stream"`. */
  function ContentType(f: FileBlob): (t: string)
    ensures t != ""
    ensures Truthy(f.mimeType) ==> t == f.mimeType.value
  {
    OrElse(f.mimeType, DefaultType)
  }

  predicate IsImage(f: FileBlob) { StartsWith(ContentType(f), "image/") }

  /** `(file.name || "upload").split(".").pop() || "jpg"`: the text after
      the last dot, the whole name when it has no dot, and `jpg` when the
      name ends with a dot. */
  function Extension(name: Option<string>): (ext: string)
    ensures var n := OrElse(name, DefaultName); var k := LastIndexOf(n, '.');
      ext == if k == |n| - 1 then DefaultExtension else n[k + 1..]
    ensures ext != "" && '.' !in ext
  {
    var n := OrElse(name, DefaultName);
    SplitLast(n, '.');
    LastIndexOfIsLast(n, '.');
    var piece := Last(Split(n, '.'));
    if piece == "" then DefaultExtension else piece
  }

  /** The stored object's name, `${user.id}-${Date.now()}.${ext}`. */
  function FileName(uid: UserId, now: nat, ext: string): string
  {
    uid + "-" + NatToString(now) + "." + ext
  }

  /** The checks that run before the storage is called, in the handler's
      order; `hasKey` says whether the service-role key is configured. */
  function Prepare(hasKey: bool, token: Option<string>, resolved: Option<UserId>, form: UploadForm, now: nat)
    : (r: Session.Reply<Prepared>)
    ensures !hasKey ==> r == Session.Fail(500, Misconfigured)
    ensures hasKey && !Truthy(token) ==> r == Session.Fail(401, MissingToken)
    ensures hasKey && Truthy(token) && resolved.None? ==> r == Session.Fail(401, RejectedToken)
    ensures hasKey && Truthy(token) && resolved.Some? ==>
      (form.file.None? ==> r == Session.Fail(400, NoFile))
      && (form.file.Some? && !IsImage(form.file.value) ==> r == Session.Fail(400, NotImage))
      && (form.file.Some? && IsImage(form.file.value) && form.file.value.size > MaxSize ==> r == Session.Fail(400, TooLarge))
    ensures r.Ok? <==> (hasKey && Truthy(token) && resolved.Some? && form.file.Some?
      && IsImage(form.file.value) && form.file.value.size <= MaxSize)
    ensures r.Ok? ==>
      r.data.uid == resolved.value && r.data.bucket == OrElse(form.bucket, DefaultBucket)
      && r.data.contentType == ContentType(form.file.value) && StartsWith(r.data.contentType, "image/")
      && r.data.size == form.file.value.size && r.data.size <= MaxSize
      && r.data.fileName == FileName(resolved.value, now, Extension(form.file.value.name))
  {
    if !hasKey then Session.Fail(500, Misconfigured)
    else if !Truthy(token) then Session.Fail(401, MissingToken)
    else if resolved.None? then Session.Fail(401, RejectedToken)
    else if form.file.None? then Session.Fail(400, NoFile)
    else
      var f := form.file.value;
      if !IsImage(f) then Session.Fail(400, NotImage)
      else if f.size > MaxSize then Session.Fail(400, TooLarge)
      else Session.Ok(Prepared(resolved.value, OrElse(form.bucket, DefaultBucket),
                               FileName(resolved.value, now, Extension(f.name)), ContentType(f), f.size))
  }

  /** The reply for a storage error: a missing bucket is the client's
      mistake (400), a refused credential is 403, anything else is 500. */
  function StorageFailure(bucket: string, e: StorageError): (r: Session.Reply<Uploaded>)
    ensures r.Fail?
    ensures r.status == 400 <==> (e.status == Some(404) || e.statusCode == Some("404"))
    ensures r.status == 400 ==> r.error == "Bucket \"" + bucket + "\" not found."
    ensures r.status == 403 <==> (e.status != Some(404) && e.statusCode != Some("404") && e.status in {Some(401), Some(403)})
    ensures r.status == 403 ==> r.error == AccessDenied
    ensures r.status !in {400, 403} ==> r == Session.Fail(500, UploadFailed)
  {
    if e.status == Some(404) || e.statusCode == Some("404") then
      Session.Fail(400, "Bucket \"" + bucket + "\" not found.")
    else if e.status == Some(403) || e.status == Some(401) then Session.Fail(403, AccessDenied)
    else Session.Fail(500, UploadFailed)
  }

  /** Only the numeric status is read for the credential cases: a textual
      "403" with no numeric status is reported as a plain failure. */
  lemma {:induction false} TextualDenialIsPlainFailure(bucket: string)
    ensures StorageFailure(bucket, StorageError(None, Some("403"))) == Session.Fail(500, UploadFailed)
    ensures StorageFailure(bucket, StorageError(Some(403), Some("404"))).status == 400
  {
  }

  /** A file without a type is not an image, and neither is an empty type. */
  lemma {:induction false} UntypedRejected(f: FileBlob)
    requires !Truthy(f.mimeType)
    ensures !IsImage(f)
  {
    assert ContentType(f)[..6] != "image/" by {
      assert ContentType(f)[0] == 'a';
    }
  }

  /** The size limit is inclusive: exactly 5 MiB passes, one byte more does not. */
  lemma {:induction false} SizeLimitInclusive(token: string, uid: UserId, f: FileBlob, bucket: Option<string>, now: nat)
    requires token != "" && IsImage(f)
    ensures f.size == MaxSize ==> Prepare(true, Some(token), Some(uid), UploadForm(Some(f), bucket), now).Ok?
    ensures f.size == MaxSize + 1 ==> Prepare(true, Some(token), Some(uid), UploadForm(Some(f), bucket), now) == Session.Fail(400, TooLarge)
  {
  }

  /** A name without a dot is its own extension. */
  lemma {:induction false} DotlessNameIsExtension(name: string)
    requires name != "" && '.' !in name
    ensures Extension(Some(name)) == name
  {
    assert forall j :: 0 <= j < |name| ==> name[j] != '.';
    assert name[LastIndexOf(name, '.') + 1..] == name;
  }

  /** The stored name ends in the extension: splitting it on dots and
      taking the last piece gives the extension back, whatever the user id. */
  lemma {:induction false} FileNameKeepsExtension(uid: UserId, now: nat, name: Option<string>)
    ensures var ext := Extension(name);
      Last(Split(FileName(uid, now, ext), '.')) == ext
  {
    var ext := Extension(name);
    var p := uid + "-" + NatToString(now);
    assert FileName(uid, now, ext) == p + ['.'] + ext;
    LastIndexOfBeforeTail(p, '.', ext);
    SplitLast(p + ['.'] + ext, '.');
    assert (p + ['.'] + ext)[|p| + 1..] == ext;
  }

  /** A stored object's metadata. */
  datatype StoredObject = StoredObject(contentType: string, size: nat)

  /** The object storage: each bucket's objects by name. */
  class Storage {
    var objects: map<(string, string), StoredObject>

    constructor ()
      ensures objects == map[]
    {
      objects := map[];
    }
  }

  /** The handler. `uploadError` is the storage's answer to the upload
      (`upsert: false`), `uploadPath` the path it reports, `publicUrl`
      what `getPublicUrl` returns, and `signed` what `createSignedUrl`
      returns unless `signThrows` says it threw, which is swallowed. */
  method HandleUpload(
    st: Storage, hasKey: bool, token: Option<string>, resolved: Option<UserId>, form: UploadForm, now: nat,
    uploadError: Option<StorageError>, uploadPath: Option<string>,
    publicUrl: Option<string>, signed: Option<string>, signThrows: bool)
    returns (reply: Session.Reply<Uploaded>)
    modifies st`objects
    ensures var c := Prepare(hasKey, token, resolved, form, now);
      c.Fail? ==> reply == Session.Forward(c) && st.objects == old(st.objects)
    ensures var c := Prepare(hasKey, token, resolved, form, now);
      c.Ok? && uploadError.Some? ==>
        reply == StorageFailure(c.data.bucket, uploadError.value) && st.objects == old(st.objects)
    ensures var c := Prepare(hasKey, token, resolved, form, now);
      c.Ok? && uploadError.None? ==>
        st.objects == old(st.objects)[(c.data.bucket, c.data.fileName) := StoredObject(c.data.contentType, c.data.size)]
        && reply.Ok? && reply.data.path == uploadPath
    ensures reply.Ok? <==> Prepare(hasKey, token, resolved, form, now).Ok? && uploadError.None?
    ensures reply.Ok? && Truthy(publicUrl) ==> reply.data.url == publicUrl
    ensures reply.Ok? && !Truthy(publicUrl) ==> reply.data.url == (if signThrows then publicUrl else signed)
  {
    var c := Prepare(hasKey, token, resolved, form, now);
    if c.Fail? {
      return Session.Forward(c);
    }
    var p := c.data;
    if uploadError.Some? {
      return StorageFailure(p.bucket, uploadError.value);
    }
    st.objects := st.objects[(p.bucket, p.fileName) := StoredObject(p.contentType, p.size)];
    var url := publicUrl;
    if !Truthy(url) {
      if !signThrows {
        url := signed;
      }
    }
    reply := Session.Ok(Uploaded(uploadPath, url));
  }
}
