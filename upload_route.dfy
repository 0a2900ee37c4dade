/**
 * The upload endpoint (`POST /api/upload`): a chain of guards on the
 * server's configuration and on the request, then the store's save, whose
 * errors become HTTP statuses. Every response is JSON marked
 * `Cache-Control: no-store`.
 */
module UploadRoute {
  import opened Wrappers
  import opened Text
  import opened WebConfig
  import opened Storage

  const NoStore: string := "no-store"

  const MissingTokenMessage: string := "UPLOAD_TOKEN no configurado en servidor."
  const BadTokenMessage: string := "X-Upload-Token invalido."
  const NotMultipartMessage: string := "Se requiere multipart/form-data."
  const MissingPhotoMessage: string := "Campo 'photo' faltante o invalido."
  const InvalidMimeMessage: string := "Solo se permite image/jpeg o image/png."
  const EmptyFileMessage: string := "El archivo esta vacio."
  const UploadFailedMessage: string := "No se pudo subir la foto."

  /**
   * A JSON body: the saved image, or `{ error }`. The size error carries
   * the limit in MB it is rendered with.
   */
  datatype ResponseBody =
    | Saved(id: string, url: string)
    | ErrorMessage(message: string)
    | SizeExceeded(maxMb: real)

  datatype Response = Response(status: int, body: ResponseBody, cacheControl: string)

  /** `jsonNoStore(body, status)`. */
  function JsonNoStore(body: ResponseBody, status: int): (r: Response)
    ensures r.cacheControl == NoStore
    ensures r.status == status && r.body == body
  {
    Response(status, body, NoStore)
  }

  /** What `formData.get("photo")` yields: nothing, a text field or a file. */
  datatype FormValue = Absent | TextField(text: string) | FileField(file: UploadFile)

  /** The request body as `request.formData()` sees it: unparsable, or a form. */
  datatype FormBody = Unparsable | Form(photo: FormValue)

  /** The two headers the endpoint reads (`null` is `None`) and the body. */
  datatype Request = Request(uploadToken: Option<string>, contentType: Option<string>, body: FormBody)

  /** `UPLOAD_TOKEN` and `MAX_UPLOAD_MB` as the server process sees them. */
  datatype ServerEnv = ServerEnv(uploadToken: Option<string>, maxUploadMb: Option<JsNumber>)

  /** `!expectedToken`: unset or empty. */
  predicate TokenConfigured(env: ServerEnv) {
    env.uploadToken.Some? && env.uploadToken.value != ""
  }

  /** `!providedToken || providedToken !== expectedToken`. */
  predicate TokenRejected(env: ServerEnv, req: Request)
    requires TokenConfigured(env)
  {
    req.uploadToken.None? || req.uploadToken.value == "" || req.uploadToken.value != env.uploadToken.value
  }

  /** `(content-type ?? "").toLowerCase().includes("multipart/form-data")`. */
  predicate IsMultipart(req: Request) {
    Contains(ToLower(if req.contentType.Some? then req.contentType.value else ""), "multipart/form-data")
  }

  /**
   * The guards before the save, in their order: the server's token, the
   * request's token, the content type, a parsable form and a `photo` that
   * is a file. Either the file to save or the response that ends the
   * request.
   */
  function Guard(env: ServerEnv, req: Request): (r: Result<UploadFile, Response>)
    ensures !TokenConfigured(env) ==> r == Err(JsonNoStore(ErrorMessage(MissingTokenMessage), 500))
    ensures TokenConfigured(env) && TokenRejected(env, req) ==> r == Err(JsonNoStore(ErrorMessage(BadTokenMessage), 401))
    ensures TokenConfigured(env) && !TokenRejected(env, req) && !IsMultipart(req) ==>
              r == Err(JsonNoStore(ErrorMessage(NotMultipartMessage), 400))
    ensures TokenConfigured(env) && !TokenRejected(env, req) && IsMultipart(req) && req.body.Unparsable? ==>
              r == Err(JsonNoStore(ErrorMessage(UploadFailedMessage), 500))
    ensures TokenConfigured(env) && !TokenRejected(env, req) && IsMultipart(req) && req.body.Form? && !req.body.photo.FileField? ==>
              r == Err(JsonNoStore(ErrorMessage(MissingPhotoMessage), 400))
    ensures r.Ok? <==> TokenConfigured(env) && req.uploadToken == env.uploadToken && IsMultipart(req)
                       && req.body.Form? && req.body.photo.FileField?
    ensures r.Ok? ==> r.value == req.body.photo.file
  {
    if !TokenConfigured(env) then Err(JsonNoStore(ErrorMessage(MissingTokenMessage), 500))
    else if TokenRejected(env, req) then Err(JsonNoStore(ErrorMessage(BadTokenMessage), 401))
    else if !IsMultipart(req) then Err(JsonNoStore(ErrorMessage(NotMultipartMessage), 400))
    else match req.body
      case Unparsable => Err(JsonNoStore(ErrorMessage(UploadFailedMessage), 500))
      case Form(photo) =>
        if !photo.FileField? then Err(JsonNoStore(ErrorMessage(MissingPhotoMessage), 400))
        else Ok(photo.file)
  }

  /**
   * The `catch` block: the store's three validation errors get their own
   * status and message; anything else, here a failed write, is a 500.
   */
  function SaveErrorResponse(env: ServerEnv, e: SaveError): (r: Response)
    ensures r.status == (match e
                         case InvalidMime => 400
                         case EmptyFile => 400
                         case MaxSizeExceeded => 413
                         case WriteFailed => 500)
    ensures r.cacheControl == NoStore
    ensures e.MaxSizeExceeded? <==> r.body == SizeExceeded(MaxUploadMb(env.maxUploadMb))
  {
    match e
    case InvalidMime => JsonNoStore(ErrorMessage(InvalidMimeMessage), 400)
    case EmptyFile => JsonNoStore(ErrorMessage(EmptyFileMessage), 400)
    case MaxSizeExceeded => JsonNoStore(SizeExceeded(MaxUploadMb(env.maxUploadMb)), 413)
    case WriteFailed => JsonNoStore(ErrorMessage(UploadFailedMessage), 500)
  }

  /** The response to an upload and the storage directory it leaves. */
  function PostOutcome(env: ServerEnv, req: Request, dir: Directory, nowMs: nat, uuid: string, fsTimeMs: int)
    : (Response, Directory)
  {
    match Guard(env, req)
    case Err(resp) => (resp, dir)
    case Ok(file) =>
      var (saved, dir') := SaveOutcome(dir, file, MaxUploadBytes(env.maxUploadMb), nowMs, uuid, fsTimeMs);
      match saved
      case Ok(image) => (JsonNoStore(Saved(image.id, image.url), 201), dir')
      case Err(e) => (SaveErrorResponse(env, e), dir')
  }

  /** `POST`, with the clock, the UUID and the file's timestamp given. */
  method Post(store: ImageStore, env: ServerEnv, req: Request, nowMs: nat, uuid: string, fsTimeMs: int)
    returns (resp: Response)
    requires store.Valid() && IsUuid(uuid)
    modifies store
    ensures store.Valid()
    ensures (resp, store.files) == PostOutcome(env, req, old(store.files), nowMs, uuid, fsTimeMs)
  {
    var guard := Guard(env, req);
    if guard.Err? {
      return guard.error;
    }
    var saved := store.Save(guard.value, MaxUploadBytes(env.maxUploadMb), nowMs, uuid, fsTimeMs);
    if saved.Ok? {
      resp := JsonNoStore(Saved(saved.value.id, saved.value.url), 201);
    } else {
      resp := SaveErrorResponse(env, saved.error);
    }
  }

  /**
   * Every response is marked `no-store` and has one of five statuses; the
   * directory changes only when the upload is created. A failed guard
   * answers with its own response, and a failed save with the response
   * for the store's error.
   */
  lemma PostResponses(env: ServerEnv, req: Request, dir: Directory, nowMs: nat, uuid: string, fsTimeMs: int)
    requires WellFormed(dir) && IsUuid(uuid)
    ensures var (resp, dir') := PostOutcome(env, req, dir, nowMs, uuid, fsTimeMs);
      && resp.cacheControl == NoStore
      && resp.status in {201, 400, 401, 413, 500}
      && (resp.status != 201 ==> dir' == dir)
      && (Guard(env, req).Err? ==> resp == Guard(env, req).error)
      && (Guard(env, req).Ok? ==>
            var s := SaveOutcome(dir, Guard(env, req).value, MaxUploadBytes(env.maxUploadMb), nowMs, uuid, fsTimeMs);
            s.0.Err? ==> resp == SaveErrorResponse(env, s.0.error))
  {
    var g := Guard(env, req);
    if g.Ok? {
      SaveOutcomeSpec(dir, g.value, MaxUploadBytes(env.maxUploadMb), nowMs, uuid, fsTimeMs);
    }
  }

  /**
   * Once the server has a token, a request gets past the token check
   * exactly when it sends that very token: the separate test for an empty
   * header never decides anything.
   */
  lemma TokenCheckIsEquality(env: ServerEnv, req: Request)
    requires TokenConfigured(env)
    ensures TokenRejected(env, req) <==> req.uploadToken != env.uploadToken
  {
  }

  /**
   * An upload is created exactly when every guard passes and the store
   * saves the file: the response then carries exactly the id and url the
   * store returned, the id is the one generated from the clock, the UUID
   * and the type, and the directory is the one the save left, holding the
   * uploaded bytes under that id.
   */
  lemma PostCreated(env: ServerEnv, req: Request, dir: Directory, nowMs: nat, uuid: string, fsTimeMs: int)
    requires WellFormed(dir) && IsUuid(uuid)
    ensures var (resp, dir') := PostOutcome(env, req, dir, nowMs, uuid, fsTimeMs);
      && (resp.status == 201 <==>
            Guard(env, req).Ok? &&
            SaveOutcome(dir, req.body.photo.file, MaxUploadBytes(env.maxUploadMb), nowMs, uuid, fsTimeMs).0.Ok?)
      && (resp.status == 201 ==>
            && resp.body.Saved?
            && resp.body.url == "/api/images/" + resp.body.id
            && resp.body.id in dir'
            && dir'[resp.body.id].bytes == req.body.photo.file.bytes
            && ReadImage(dir', resp.body.id) == Some(ImageData(req.body.photo.file.bytes, req.body.photo.file.mimeType)))
      && (resp.status == 201 ==>
            var s := SaveOutcome(dir, req.body.photo.file, MaxUploadBytes(env.maxUploadMb), nowMs, uuid, fsTimeMs);
            && resp.body == Saved(s.0.value.id, s.0.value.url)
            && resp.body.id == ImageId(nowMs, uuid, ExtensionFor(req.body.photo.file.mimeType))
            && dir' == s.1)
  {
    var g := Guard(env, req);
    if g.Ok? {
      var file := g.value;
      var maxBytes := MaxUploadBytes(env.maxUploadMb);
      SaveOutcomeSpec(dir, file, maxBytes, nowMs, uuid, fsTimeMs);
      SaveThenRead(dir, file, maxBytes, nowMs, uuid, fsTimeMs);
    }
  }

  /**
   * An authorised multipart request whose photo is a JPEG or PNG file of
   * at most the configured size is rejected only when a directory stands
   * where the file would be written.
   */
  lemma ValidUploadSucceeds(env: ServerEnv, req: Request, dir: Directory, nowMs: nat, uuid: string, fsTimeMs: int)
    requires WellFormed(dir) && IsUuid(uuid)
    requires TokenConfigured(env) && req.uploadToken == env.uploadToken && IsMultipart(req)
    requires req.body.Form? && req.body.photo.FileField?
    requires var f := req.body.photo.file;
      (f.mimeType == "image/jpeg" || f.mimeType == "image/png") && 0 < |f.bytes| <= MaxUploadBytes(env.maxUploadMb)
    ensures var (resp, dir') := PostOutcome(env, req, dir, nowMs, uuid, fsTimeMs);
      var id := ImageId(nowMs, uuid, ExtensionFor(req.body.photo.file.mimeType));
      resp.status == 201 <==> !(id in dir && !dir[id].isFile)
  {
    var file := req.body.photo.file;
    SaveOutcomeSpec(dir, file, MaxUploadBytes(env.maxUploadMb), nowMs, uuid, fsTimeMs);
  }

  /**
   * An authorised multipart JPEG or PNG upload larger than the configured
   * limit is answered 413 with the limit in MB, and nothing is written.
   */
  lemma OversizedUploadRefused(env: ServerEnv, req: Request, dir: Directory, nowMs: nat, uuid: string, fsTimeMs: int)
    requires WellFormed(dir) && IsUuid(uuid)
    requires TokenConfigured(env) && req.uploadToken == env.uploadToken && IsMultipart(req)
    requires req.body.Form? && req.body.photo.FileField?
    requires var f := req.body.photo.file;
      (f.mimeType == "image/jpeg" || f.mimeType == "image/png") && |f.bytes| > MaxUploadBytes(env.maxUploadMb)
    ensures var (resp, dir') := PostOutcome(env, req, dir, nowMs, uuid, fsTimeMs);
      && resp.status == 413
      && resp.body == SizeExceeded(MaxUploadMb(env.maxUploadMb))
      && dir' == dir
  {
    PostResponses(env, req, dir, nowMs, uuid, fsTimeMs);
    SaveOutcomeSpec(dir, req.body.photo.file, MaxUploadBytes(env.maxUploadMb), nowMs, uuid, fsTimeMs);
  }
}
