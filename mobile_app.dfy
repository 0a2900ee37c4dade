/**
 * The logic of the mobile app: joining the server's urls, choosing the
 * frame overlay for the preview, and the state steps of uploading a
 * photo and deleting one from the history list.
 */
module MobileApp {
  import opened Wrappers
  import opened Text
  import opened PosixPath
  import opened UriEncoding
  import opened Frames
  import opened MobileConfig
  import Storage
  import UploadRoute

  /** The app's frame catalogue; an overlay is named by its bundled asset. */
  const FrameOptions: seq<FrameOption> := [
    FrameOption("none", "Sin marco", None, None),
    FrameOption("frame-1", "Corazones", Some("./assets/frames/frame-1-portrait.png"), Some("./assets/frames/frame-1-landscape.png")),
    FrameOption("frame-2", "Lazos", Some("./assets/frames/frame-2-portrait.png"), Some("./assets/frames/frame-2-landscape.png")),
    FrameOption("frame-3", "Brillos", Some("./assets/frames/frame-3-portrait.png"), Some("./assets/frames/frame-3-landscape.png")),
    FrameOption("frame-4", "Flores", Some("./assets/frames/frame-4-portrait.png"), Some("./assets/frames/frame-4-landscape.png")),
    FrameOption("frame-5", "Doble borde", Some("./assets/frames/frame-5-portrait.png"), Some("./assets/frames/frame-5-landscape.png")),
    FrameOption("frame-6", "Noche romantica", Some("./assets/frames/frame-6-portrait.png"), Some("./assets/frames/frame-6-landscape.png"))
  ]

  lemma FrameOptionsCatalogue()
    ensures Catalogue(FrameOptions)
  {
  }

  // ---------------------------------------------------------------------
  // Urls

  /** `normalizeBaseUrl`: the same trailing-slash removal as the configuration applies. */
  function NormalizeBaseUrl(url: string): (r: string)
    ensures r == [] || r[|r| - 1] != '/'
    ensures |r| <= |url| && r == url[..|r|] && forall i :: |r| <= i < |url| ==> url[i] == '/'
  {
    TrimSlash(url)
  }

  /** The base url the app talks to is the configured one unchanged: it has no trailing `/` already. */
  lemma BaseUrlIsConfigured(extra: Extra)
    ensures NormalizeBaseUrl(AppConfigFrom(extra).kisscamBaseUrl) == AppConfigFrom(extra).kisscamBaseUrl
  {
    TrimSlashKeeps(AppConfigFrom(extra).kisscamBaseUrl);
  }

  /** `s` starts with `prefix` (written in lower case) up to ASCII case. */
  predicate StartsWithIgnoringCase(s: string, prefix: string) {
    |prefix| <= |s| && ToLower(s[..|prefix|]) == prefix
  }

  /** `/^https?:\/\//i.test(url)`. */
  predicate HasHttpScheme(url: string) {
    StartsWithIgnoringCase(url, "http://") || StartsWithIgnoringCase(url, "https://")
  }

  /**
   * `absoluteImageUrl`: a url with an http(s) scheme is kept; any other is
   * appended to the base url, with a `/` between them unless it starts
   * with one.
   */
  function AbsoluteImageUrl(baseUrl: string, url: string): (r: string)
    ensures HasHttpScheme(url) ==> r == url
    ensures !HasHttpScheme(url) ==> |r| == |baseUrl| + |url| + (if StartsWith(url, "/") then 0 else 1)
    ensures !HasHttpScheme(url) ==> r[..|baseUrl|] == baseUrl && r[|r| - |url|..] == url
    ensures !HasHttpScheme(url) ==> r[|baseUrl|] == '/'
  {
    if HasHttpScheme(url) then url
    else baseUrl + (if StartsWith(url, "/") then "" else "/") + url
  }

  /** A url the server hands out is joined to the base url as it is. */
  lemma AbsoluteServerUrl(baseUrl: string, id: string)
    ensures AbsoluteImageUrl(baseUrl, Storage.ImageUrl(id)) == baseUrl + Storage.ImageUrl(id)
  {
    var u := Storage.ImageUrl(id);
    assert u[0] == '/';
    assert ToLower(u[..7])[0] == '/';
    assert ToLower(u[..8])[0] == '/';
    assert StartsWith(u, "/");
  }

  /** Prefixing with a base that has a scheme gives a url with one. */
  lemma SchemeKept(baseUrl: string, rest: string)
    requires HasHttpScheme(baseUrl)
    ensures HasHttpScheme(baseUrl + rest)
  {
    var s := baseUrl + rest;
    assert s[..7] == baseUrl[..7];
    if |baseUrl| >= 8 {
      assert s[..8] == baseUrl[..8];
    }
  }

  /** With a base url that has a scheme, making a url absolute twice changes nothing. */
  lemma AbsoluteIdempotent(baseUrl: string, url: string)
    requires HasHttpScheme(baseUrl)
    ensures AbsoluteImageUrl(baseUrl, AbsoluteImageUrl(baseUrl, url)) == AbsoluteImageUrl(baseUrl, url)
  {
    if !HasHttpScheme(url) {
      SchemeKept(baseUrl, (if StartsWith(url, "/") then "" else "/") + url);
      assert AbsoluteImageUrl(baseUrl, url) == baseUrl + ((if StartsWith(url, "/") then "" else "/") + url);
    }
  }

  // ---------------------------------------------------------------------
  // The preview's frame

  /** A captured photo, as the app keeps it. */
  datatype CapturedPhoto = CapturedPhoto(uri: string, width: int, height: int, mimeType: string)

  /** `selectedFrame`: the option with the selected id, else the `"none"` frame. */
  function SelectedFrame(selectedFrameId: string): (r: FrameOption)
    ensures r in FrameOptions
    ensures (forall i :: 0 <= i < |FrameOptions| ==> FrameOptions[i].id != selectedFrameId) ==> r.id == NoFrameId
  {
    SelectFrame(FrameOptions, selectedFrameId)
  }

  /** The photo's orientation when there is one, the screen's otherwise; a square is portrait. */
  function IsLandscapePhoto(photo: Option<CapturedPhoto>, screenWidth: int, screenHeight: int): (r: bool)
    ensures photo.Some? ==> (r <==> photo.value.width > photo.value.height)
    ensures photo.None? ==> (r <==> screenWidth > screenHeight)
  {
    if photo.Some? then photo.value.width > photo.value.height else screenWidth > screenHeight
  }

  /**
   * The overlay the preview shows: none for `"none"` or an unknown id;
   * otherwise the frame's landscape variant exactly when the photo (or,
   * without one, the screen) is strictly wider than tall.
   */
  lemma PreviewOverlay(selectedFrameId: string, photo: Option<CapturedPhoto>, screenWidth: int, screenHeight: int)
    ensures var frame := SelectedFrame(selectedFrameId);
      var src := ResolveSource(frame, IsLandscapePhoto(photo, screenWidth, screenHeight));
      && (src.None? <==> selectedFrameId == NoFrameId || forall i :: 0 <= i < |FrameOptions| ==> FrameOptions[i].id != selectedFrameId)
      && (src.Some? && photo.Some? && photo.value.width > photo.value.height ==> src == frame.landscape)
      && (src.Some? && photo.Some? && photo.value.width <= photo.value.height ==> src == frame.portrait)
  {
    FrameOptionsCatalogue();
    SelectedOverlay(FrameOptions, selectedFrameId, IsLandscapePhoto(photo, screenWidth, screenHeight));
  }

  // ---------------------------------------------------------------------
  // Uploading

  /** The token guard of upload and delete: empty or the placeholder `CHANGE_ME` is unusable. */
  predicate TokenUsable(token: string) {
    token != "" && token != "CHANGE_ME"
  }

  /** The extension of the uploaded file's name. */
  function UploadExtension(mimeType: string): (r: string)
    ensures r == "png" <==> mimeType == "image/png"
    ensures r == "png" || r == "jpg"
  {
    if mimeType == "image/png" then "png" else "jpg"
  }

  /** For the two types the app produces, it names the file as the server stores it. */
  lemma UploadExtensionMatchesServer(mimeType: string)
    requires mimeType == "image/jpeg" || mimeType == "image/png"
    ensures Storage.AllowedFileType(mimeType) == Some(UploadExtension(mimeType))
  {
  }

  /** `kisscam-${Date.now()}.${extension}` */
  function UploadFileName(nowMs: nat, extension: string): string {
    "kisscam-" + DecimalString(nowMs) + "." + extension
  }

  /** The upload's file name has no `/` and its last `.` comes right before the extension. */
  lemma UploadFileNameCharacters(nowMs: nat, extension: string)
    requires extension == "png" || extension == "jpg"
    ensures var name := UploadFileName(nowMs, extension);
      var k := 8 + |DecimalString(nowMs)|;
      && k < |name| && name[k] == '.' && name[k..] == "." + extension
      && (forall j :: 0 <= j < |name| ==> name[j] != '/')
      && (forall j :: k < j < |name| ==> name[j] != '.')
  {
    var digits := DecimalString(nowMs);
    var name := UploadFileName(nowMs, extension);
    var k := 8 + |digits|;
    forall j | 0 <= j < |name| ensures name[j] != '/' && (j > k ==> name[j] != '.') {
      if 8 <= j < k {
        assert name[j] == digits[j - 8] && IsDigit(digits[j - 8]);
      } else if j > k {
        assert name[j] == extension[j - k - 1];
      }
    }
    assert name[k..] == "." + extension;
  }

  /** The upload's file name has the extension it was built with. */
  lemma UploadFileNameExtname(nowMs: nat, extension: string)
    requires extension == "png" || extension == "jpg"
    ensures Extname(UploadFileName(nowMs, extension)) == "." + extension
  {
    var name := UploadFileName(nowMs, extension);
    var k := 8 + |DecimalString(nowMs)|;
    UploadFileNameCharacters(nowMs, extension);
    assert name[k] == '.';
    ExtnameAt(name, k);
    assert name[k..] == "." + extension;
  }

  /** The server would serve a file under the upload's name with the type the app declared. */
  lemma UploadFileNameType(nowMs: nat, mimeType: string)
    requires mimeType == "image/jpeg" || mimeType == "image/png"
    ensures Storage.ParseImageMimeFromName(UploadFileName(nowMs, UploadExtension(mimeType))) == Some(mimeType)
  {
    var e := UploadExtension(mimeType);
    var x := if mimeType == "image/png" then ".png" else ".jpg";
    assert "." + e == x;
    var name := UploadFileName(nowMs, e);
    UploadFileNameExtname(nowMs, e);
    Storage.MimeOfExtname(name, x);
  }

  /** The multipart part the app sends as `photo`. */
  datatype PhotoPart = PhotoPart(uri: string, name: string, mimeType: string)

  /** What `uploadPhoto` sends: `POST <base>/api/upload` with the token header and the photo. */
  datatype UploadRequest = UploadRequest(url: string, token: string, photo: PhotoPart)

  datatype UploadState = Idle | Uploading | UploadOk | UploadError

  const MissingUploadTokenMessage: string := "Configura UPLOAD_TOKEN en .env."

  /**
   * The request `uploadPhoto` builds for a photo: to the normalised base
   * url, with the configured token and the photo named after the clock.
   */
  function UploadRequestFor(config: AppConfig, photo: CapturedPhoto, nowMs: nat): UploadRequest {
    UploadRequest(NormalizeBaseUrl(config.kisscamBaseUrl) + "/api/upload", config.uploadToken,
                  PhotoPart(photo.uri, UploadFileName(nowMs, UploadExtension(photo.mimeType)), photo.mimeType))
  }

  /** The capture screen's state that `uploadPhoto` reads and sets. */
  class CaptureState {
    var capturedPhoto: Option<CapturedPhoto>
    var uploadState: UploadState
    var captureMessage: string

    constructor ()
      ensures capturedPhoto.None? && uploadState == Idle && captureMessage == ""
    {
      capturedPhoto := None;
      uploadState := Idle;
      captureMessage := "";
    }

    /**
     * `uploadPhoto` up to handing the request to the network: without a
     * photo nothing happens; with an unusable token the upload fails
     * before anything is sent; otherwise the request is built and the
     * state is left to the transfer's callbacks.
     */
    method UploadPhoto(config: AppConfig, nowMs: nat) returns (sent: Option<UploadRequest>)
      modifies this
      ensures capturedPhoto == old(capturedPhoto)
      ensures old(capturedPhoto).None? ==>
                sent.None? && uploadState == old(uploadState) && captureMessage == old(captureMessage)
      ensures old(capturedPhoto).Some? && !TokenUsable(config.uploadToken) ==>
                sent.None? && uploadState == UploadError && captureMessage == MissingUploadTokenMessage
      ensures old(capturedPhoto).Some? && TokenUsable(config.uploadToken) ==>
                var photo := old(capturedPhoto).value;
                && sent == Some(UploadRequestFor(config, photo, nowMs))
                && uploadState == old(uploadState) && captureMessage == old(captureMessage)
    {
      if capturedPhoto.None? {
        return None;
      }
      if !TokenUsable(config.uploadToken) {
        uploadState := UploadError;
        captureMessage := MissingUploadTokenMessage;
        return None;
      }
      var baseUrl := NormalizeBaseUrl(config.kisscamBaseUrl);
      var photo := capturedPhoto.value;
      var extension := UploadExtension(photo.mimeType);
      var part := PhotoPart(photo.uri, UploadFileName(nowMs, extension), photo.mimeType);
      sent := Some(UploadRequest(baseUrl + "/api/upload", config.uploadToken, part));
    }
  }

  /**
   * The upload request the app sends passes the server's token checks
   * whenever the server is configured with the app's token, whatever the
   * rest of the request is.
   */
  lemma SentTokenAccepted(config: AppConfig, photo: CapturedPhoto, nowMs: nat, env: UploadRoute.ServerEnv,
                          contentType: Option<string>, body: UploadRoute.FormBody)
    requires TokenUsable(config.uploadToken) && env.uploadToken == Some(config.uploadToken)
    ensures var sent := UploadRequestFor(config, photo, nowMs);
      var req := UploadRoute.Request(Some(sent.token), contentType, body);
      UploadRoute.TokenConfigured(env) && !UploadRoute.TokenRejected(env, req)
  {
  }

  // ---------------------------------------------------------------------
  // The history list

  /** An element of the history list, as the server lists it. */
  datatype HistoryItem = HistoryItem(id: string, url: string, createdAt: string)

  /** `current.filter((item) => item.id !== id)`. */
  function RemoveById(items: seq<HistoryItem>, id: string): (r: seq<HistoryItem>)
    ensures forall x :: x in r <==> x in items && x.id != id
    ensures |r| <= |items|
  {
    if items == [] then []
    else
      assert forall x :: x in items <==> x == items[0] || x in items[1..];
      (if items[0].id != id then [items[0]] else []) + RemoveById(items[1..], id)
  }

  /** The filter keeps the order: it maps a concatenation to the concatenation of the parts. */
  lemma {:induction false} RemoveByIdConcat(a: seq<HistoryItem>, b: seq<HistoryItem>, id: string)
    ensures RemoveById(a + b, id) == RemoveById(a, id) + RemoveById(b, id)
  {
    if a != [] {
      assert (a + b)[1..] == a[1..] + b;
      RemoveByIdConcat(a[1..], b, id);
    } else {
      assert a + b == b;
    }
  }

  /** A list without the id is left as it is. */
  lemma {:induction false} RemoveByIdAbsent(items: seq<HistoryItem>, id: string)
    requires forall i :: 0 <= i < |items| ==> items[i].id != id
    ensures RemoveById(items, id) == items
  {
    if items != [] {
      RemoveByIdAbsent(items[1..], id);
    }
  }

  /** Removing twice is removing once. */
  lemma RemoveByIdIdempotent(items: seq<HistoryItem>, id: string)
    ensures RemoveById(RemoveById(items, id), id) == RemoveById(items, id)
  {
    var r := RemoveById(items, id);
    assert forall i :: 0 <= i < |r| ==> r[i] in r;
    RemoveByIdAbsent(r, id);
  }

  /** What `DELETE <base>/api/images/<id>` came back with. */
  datatype DeleteResponse =
    | Responded(status: nat, errorField: Option<string>)  // the status and the body's `error`, if it parsed and had one
    | FailedWith(message: string)                         // `fetch` threw an `Error` with this message
    | FailedOtherwise                                     // it threw something else

  /** What `deleteImage` sends. */
  datatype DeleteRequest = DeleteRequest(url: string, token: string)

  const MissingDeleteTokenMessage: string := "Configura UPLOAD_TOKEN para eliminar fotos."
  const DeleteFailedMessage: string := "No se pudo eliminar la imagen."

  /** The message for a response that is not ok: the server's `error` when non-empty. */
  function RefusalMessage(status: nat, errorField: Option<string>): (r: string)
    ensures r != ""
    ensures errorField.Some? && errorField.value != "" ==> r == errorField.value
    ensures !(errorField.Some? && errorField.value != "") ==> r == "No se pudo eliminar (" + DecimalString(status) + ")."
  {
    if errorField.Some? && errorField.value != "" then errorField.value
    else "No se pudo eliminar (" + DecimalString(status) + ")."
  }

  /** `response.ok`. */
  predicate IsOk(status: nat) {
    200 <= status <= 299
  }

  /** The history list and its error after a delete attempt whose token was usable. */
  function HistoryAfterDelete(items: seq<HistoryItem>, id: string, response: DeleteResponse)
    : (r: (seq<HistoryItem>, Option<string>))
    ensures response.Responded? && IsOk(response.status) ==> r == (RemoveById(items, id), None)
    ensures !(response.Responded? && IsOk(response.status)) ==> r.0 == items && r.1.Some?
    ensures response.Responded? && !IsOk(response.status) ==>
              r.1 == Some(RefusalMessage(response.status, response.errorField)) && r.1.value != ""
    ensures response.FailedWith? ==> r.1 == Some(response.message)
    ensures response.FailedOtherwise? ==> r.1 == Some(DeleteFailedMessage)
  {
    match response
    case Responded(status, errorField) =>
      if IsOk(status) then (RemoveById(items, id), None)
      else (items, Some(RefusalMessage(status, errorField)))
    case FailedWith(message) => (items, Some(message))
    case FailedOtherwise => (items, Some(DeleteFailedMessage))
  }

  /** The history screen's state that `deleteImage` reads and sets. */
  class HistoryState {
    var items: seq<HistoryItem>
    var historyError: Option<string>
    var deletingId: Option<string>

    constructor ()
      ensures items == [] && historyError.None? && deletingId.None?
    {
      items := [];
      historyError := None;
      deletingId := None;
    }

    /**
     * `deleteImage`, with the server's answer given: an unusable token
     * sends nothing and sets the error; otherwise the request is sent, a
     * success drops the item from the list, a failure records why, and
     * no id is left marked as being deleted.
     */
    method DeleteImage(config: AppConfig, id: string, response: DeleteResponse)
      returns (sent: Option<DeleteRequest>)
      modifies this
      ensures !TokenUsable(config.uploadToken) ==>
                && sent.None? && items == old(items) && historyError == Some(MissingDeleteTokenMessage)
                && deletingId == old(deletingId)
      ensures TokenUsable(config.uploadToken) ==>
                && sent == Some(DeleteRequest(NormalizeBaseUrl(config.kisscamBaseUrl) + "/api/images/" + EncodeURIComponent(id),
                                              config.uploadToken))
                && (items, historyError) == HistoryAfterDelete(old(items), id, response)
                && deletingId.None?
    {
      if !TokenUsable(config.uploadToken) {
        historyError := Some(MissingDeleteTokenMessage);
        return None;
      }
      var baseUrl := NormalizeBaseUrl(config.kisscamBaseUrl);
      deletingId := Some(id);
      historyError := None;
      sent := Some(DeleteRequest(baseUrl + "/api/images/" + EncodeURIComponent(id), config.uploadToken));
      match response {
        case Responded(status, errorField) =>
          if IsOk(status) {
            items := RemoveById(items, id);
          } else {
            historyError := Some(RefusalMessage(status, errorField));
          }
        case FailedWith(message) =>
          historyError := Some(message);
        case FailedOtherwise =>
          historyError := Some(DeleteFailedMessage);
      }
      deletingId := None;
    }
  }
}
