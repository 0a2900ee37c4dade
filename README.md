# kisscam, modelled in Dafny

kisscam is a photo booth in two parts. A mobile app takes a photo, lets
the user choose a decorative frame, and uploads the photo to a web
server. The server keeps the photos as files in one storage directory, and
its gallery lists them newest first. The gallery's image dialog can
download a photo as it is, or composed with a frame on a canvas.

This project models the core of that system and proves properties of it:

- **The server's image store** (`Storage`). The class `ImageStore` holds
  the storage directory as a map from file name to entry. `Save` and
  `Delete` change the map in place. Reading and listing are functions of a
  snapshot of the map.
  - The model covers the traversal guard on ids, the MIME type a name is
    served with, and the upload checks.
  - It covers the generated id and its url.
  - It covers the listing: two filters, then a stable sort newest first.
- **The upload endpoint** (`UploadRoute`): the chain of guards, the save,
  and the mapping from the store's errors to HTTP statuses. Every response
  is `no-store`.
- **The server's configuration** (`WebConfig`): the storage directory
  setting, and the size limit in MB and in bytes.
- **The node path functions and string built-ins the store relies on**:
  - `PosixPath`: `path.basename` and `path.extname`, agreeing with
    the results of Node's POSIX versions;
  - `Text`: ASCII `toLowerCase`, JavaScript `trim`, and decimal rendering;
  - `UriEncoding`: `encodeURIComponent`, including the UTF-8 encoding of
    characters it escapes.
- **The frame catalogue shared by both clients** (`Frames`): looking up
  the selected frame with a fallback to `"none"`, and choosing the overlay
  variant for the photo's orientation.
- **The mobile app** (`MobileConfig`, `MobileApp`):
  - its configuration defaults and trailing-slash removal;
  - url joining;
  - the preview's overlay;
  - the state steps of `uploadPhoto` and `deleteImage`, as the classes
    `CaptureState` and `HistoryState`.
- **The web image dialog** (`ImageModal`): the dialog state as the class
  `ModalState`. The framed download is a draw sequence on a `Canvas`
  object, whose draw calls are recorded.

Several inputs become parameters:

- the clock (`Date.now()`), `randomUUID()`, and the time the filesystem
  stamps on a new file;
- the order `readdir` yields;
- what an image load or a network request comes back with.

Files: `wrappers.dfy`, `text.dfy`, `posix_path.dfy`, `uri_encoding.dfy`,
`web_config.dfy`, `storage.dfy`, `upload_route.dfy`, `frames.dfy`,
`mobile_config.dfy`, `mobile_app.dfy` and `image_modal.dfy`. They form one
program and are verified together.

## Model

| member | source | states |
|---|---|---|
| WebConfig.StorageDirFromEnv | web/src/lib/config.ts:1-5 | An absent or whitespace-only `STORAGE_DIR` gives the default `/app/data/images`. Any other value gives its trimmed form, which starts and ends with a non-space. The result is never empty. |
| Text.Trim | web/src/lib/config.ts:4 | `trim()` gives the slice of the input after its leading whitespace, and the slice neither starts nor ends with whitespace. |
| Text.TrimSpec | web/src/lib/config.ts:4 | Everything `trim()` drops is JavaScript whitespace. The result is empty exactly when the input is all whitespace. |
| WebConfig.MaxUploadMb | web/src/lib/config.ts:7-13 | An absent setting means 15. A non-finite or non-positive value is replaced by 15, and a positive finite one is kept, so the limit is always positive. |
| WebConfig.MaxUploadBytes | web/src/lib/config.ts:15-17 | The limit in bytes is the floor of MB × 1024 × 1024, and it is non-negative. |
| WebConfig.DefaultMaxUploadBytes | web/src/lib/config.ts:8-16 | With no setting, the limit is 15728640 bytes. |
| Storage.AllowedFileType | web/src/lib/storage.ts:7-10 | Exactly `image/jpeg` and `image/png` have a stored extension. |
| Storage.AllowedIsTyped | web/src/lib/storage.ts:12 | The allowed extensions are exactly `.jpg`, `.jpeg` and `.png`. |
| PosixPath.BasenameFixedIff | web/src/lib/storage.ts:37-38 | `path.basename` leaves a string unchanged exactly when the string has no `/`. |
| PosixPath.BasenameNoSlash | web/src/lib/storage.ts:37 | A basename never contains `/`. |
| PosixPath.StripTrailingSlashesSpec | web/src/lib/storage.ts:37 | Basename's first step drops only a trailing run of `/`, and what it leaves does not end in `/`. |
| PosixPath.AfterLastSlashSpec | web/src/lib/storage.ts:37 | Basename's second step keeps the suffix after the last `/`: a suffix with no `/`, preceded by a `/` when it is not the whole string. |
| PosixPath.LastDotSpec | web/src/lib/storage.ts:26 | The index found is -1 or a `.`, and no `.` follows it. |
| PosixPath.ComponentExtnameSpec | web/src/lib/storage.ts:26 | `extname` of one component is empty, or a proper suffix that starts with its only `.`. |
| PosixPath.ExtnameAt | web/src/lib/storage.ts:26 | For a name without `/` and other than `..`, whose last `.` is at a position `k > 0`, `extname` is the suffix from `k`. |
| PosixPath.ExtnameLower | web/src/lib/storage.ts:26 | Lower-casing a name, then taking its extension, gives the lower-cased extension. |
| PosixPath.LowerExtnameIs | web/src/lib/storage.ts:26-30 | For a lower-case, dot-led extension with no other dot, the name's lower-cased extension equals it exactly when the lower-cased name ends with it after at least one more character. |
| Storage.ParseImageMimeFromNameSpec | web/src/lib/storage.ts:25-34 | A name is `image/jpeg` exactly when its last component ends in `.jpg` or `.jpeg` (any case), `image/png` exactly when it ends in `.png`, and has no type otherwise. In each case, something must come before the extension. |
| Storage.MimeOfExtname | web/src/lib/storage.ts:25-34 | A name whose extension is `.png` is `image/png`, and one whose extension is `.jpg` is `image/jpeg`. |
| Storage.NormalizeImageId | web/src/lib/storage.ts:36-46 | The guard returns its argument unchanged, or nothing. |
| Storage.NormalizeImageIdIff | web/src/lib/storage.ts:36-46 | An id is accepted exactly when it has no `/` and ends, in any case, with `.jpg`, `.jpeg` or `.png` after at least one other character. |
| Storage.NormalizedIdIsSafe | web/src/lib/storage.ts:36-46 | An accepted id is not empty, `.` or `..`, has no `/`, and has a MIME type. |
| Storage.ReadImage | web/src/lib/storage.ts:78-99 | A read gives nothing exactly when the id is refused, the entry is missing, or the entry is not a regular file. Otherwise it gives the file's bytes, with the type its name gives. |
| Storage.ImageStore.Read | web/src/lib/storage.ts:78-99 | The store's read is `ReadImage` of its current directory. |
| Storage.ValidateUpload | web/src/lib/storage.ts:101-113 | The checks run in order: type, then emptiness, then size, each with its own error. A file passes exactly when it is JPEG or PNG and 0 < size ≤ the limit, and the extension is then `png` or `jpg` to match. |
| Storage.ImageIdCharacters | web/src/lib/storage.ts:116 | A generated id contains only URI-unreserved characters, and no `/` or capital letters. |
| Storage.ImageIdExtname | web/src/lib/storage.ts:116 | A generated id's extension is the one it was generated with. |
| Storage.ImageIdDeterminesParts | web/src/lib/storage.ts:116 | An id determines the clock value, the UUID and the extension it was built from. Uploads at different milliseconds or with different UUIDs get different ids. |
| Storage.GeneratedIdIsSafe | web/src/lib/storage.ts:116-123 | A generated id passes the traversal guard and is served with the type of its extension. Its url is the id itself under `/api/images/`. |
| Storage.SaveOutcomeSpec | web/src/lib/storage.ts:101-125 | A failed save leaves the directory unchanged. A validation error is returned as the save's error, and a directory at the id's name gives `WriteFailed`. A save succeeds exactly when validation passes and no directory has the id's name. Success adds or replaces the one entry named by the id, holding the bytes verbatim with the write time as its modification time, and keeps every other entry. A new file is created at the write time. A rewritten file keeps its birth time. |
| Storage.ImageStore.Save | web/src/lib/storage.ts:101-125 | The method's result and new directory are `SaveOutcome` of the old directory, and the directory stays well formed. |
| Storage.SaveThenRead | web/src/lib/storage.ts:78-125 | Reading a freshly saved id gives back the uploaded bytes, with the declared type. |
| Storage.DeleteOutcomeSpec | web/src/lib/storage.ts:127-141 | A delete removes the entry exactly when the id is accepted and names a regular file, and it changes nothing otherwise. Afterwards the id cannot be read. |
| Storage.ImageStore.Delete | web/src/lib/storage.ts:127-141 | The method's result and new directory are `DeleteOutcome` of the old directory. |
| Storage.ImageStore.EnsureStorageDir | web/src/lib/storage.ts:19-23 | The call returns the store's root and changes nothing. |
| Storage.ListableNames | web/src/lib/storage.ts:52-55 | The filters keep exactly the regular files whose extension is allowed, without duplicates. |
| Storage.KeepInConcat | web/src/lib/storage.ts:52-55 | Filtering a concatenation gives the filtered parts, one after the other. |
| Storage.ListableNamesKeepsOrder | web/src/lib/storage.ts:52-55 | The filters keep directory order: the listable names of a concatenation are those of each part in turn, and a single name is kept exactly when it is listable. |
| Storage.ListImagesDescribes | web/src/lib/storage.ts:57-71 | Every listed item is a listable entry, with its encoded url and its creation time: birth time when positive, modification time otherwise. |
| Storage.ListImagesComplete | web/src/lib/storage.ts:50-55 | Every listable entry of the directory is listed. |
| Storage.ListImagesOrdered | web/src/lib/storage.ts:73-74 | The listing names each entry once and is sorted newest first. |
| Storage.ListImagesStable | web/src/lib/storage.ts:73-75 | Items created at the same instant keep their directory order. |
| Storage.SortPermutes | web/src/lib/storage.ts:74 | The sort is a permutation of its input. |
| Storage.SortSorted | web/src/lib/storage.ts:74 | The sort's output is newest first. |
| Storage.SortStable | web/src/lib/storage.ts:74 | The sort is stable. |
| Storage.StripCreatedAt | web/src/lib/storage.ts:75 | Dropping `createdMs` keeps, for each instant, the items created at that instant, in their order. |
| Storage.ImageStore.List | web/src/lib/storage.ts:48-76 | The store's listing is `ListImages` of its current directory in the given `readdir` order. |
| Storage.SaveThenList | web/src/lib/storage.ts:48-125 | After a successful save, the listing holds the new id with its url and the creation time of the written file. For an id not there before, that time is the write time. |
| Storage.SaveNewestFirst | web/src/lib/storage.ts:61-74 | When the new file is newer than every file already there, a successful save of an id not there before puts that id first in the listing. |
| Storage.DeleteThenList | web/src/lib/storage.ts:48-141 | After a delete, the id is never listed. A failed delete leaves the listing as it was. |
| UriEncoding.EncodeURIComponent | web/src/lib/storage.ts:66 | The encoding contains only unreserved characters and `%`, so it has no `/`, `?` or `#`. |
| UriEncoding.EncodeUnreservedIdentity | web/src/lib/storage.ts:123 | A string of unreserved characters encodes to itself. |
| UriEncoding.EncodeChangesReserved | web/src/lib/storage.ts:66 | A string with a reserved character grows by at least two characters. |
| UriEncoding.PercentEscape | web/src/lib/storage.ts:66 | Each byte becomes `%` followed by two upper-case hex digits. |
| UriEncoding.PercentEscapeDigits | web/src/lib/storage.ts:66 | The two digits after each `%` are those of the byte's high nibble, then its low nibble. |
| UploadRoute.JsonNoStore | web/src/app/api/upload/route.ts:7-14 | Every response built this way carries `Cache-Control: no-store`, with the given status and body. |
| UploadRoute.Guard | web/src/app/api/upload/route.ts:17-37 | The guards run in order, each with its status and message: no server token 500, bad token 401, not multipart 400, unparsable form 500, no file in `photo` 400. The request passes exactly when it sends the server's token, is multipart, and carries a file. |
| UploadRoute.TokenCheckIsEquality | web/src/app/api/upload/route.ts:22-25 | Once the server has a token, the token check rejects exactly the requests that do not send that token. |
| UploadRoute.SaveErrorResponse | web/src/app/api/upload/route.ts:41-56 | The store's errors map to statuses: `INVALID_MIME` 400, `EMPTY_FILE` 400, `MAX_SIZE_EXCEEDED` 413 with the limit in MB, anything else 500. |
| UploadRoute.Post | web/src/app/api/upload/route.ts:16-57 | The response and the new directory are `PostOutcome` of the request and the old directory. |
| UploadRoute.PostResponses | web/src/app/api/upload/route.ts:16-57 | Every response is `no-store`, with status 201, 400, 401, 413 or 500. The directory changes only on 201. A failed guard answers with that guard's response. A failed save answers with the response for the store's error. |
| UploadRoute.PostCreated | web/src/app/api/upload/route.ts:39-40 | A 201 comes exactly when the guards pass and the save succeeds. The body is then exactly the id and url the store returned. The id is the one generated from the clock, the UUID and the type, and its url is `/api/images/<id>`. The directory is the one the save left, holding the uploaded bytes readable back with their type. |
| UploadRoute.OversizedUploadRefused | web/src/app/api/upload/route.ts:16-57 | An authorised multipart JPEG or PNG upload over the limit gets a 413 carrying the limit in MB, and nothing is written. |
| UploadRoute.ValidUploadSucceeds | web/src/app/api/upload/route.ts:16-40 | An authorised multipart JPEG or PNG upload within the limit fails only when a directory stands at the generated name. |
| Frames.ResolveSource | mobile/App.tsx:99-104 | The frame source is the variant for the orientation when present, else the other variant. It is absent only when both are. |
| Frames.Find | mobile/App.tsx:134 | The lookup finds the first option with the id, and finds nothing exactly when no option has it. |
| Frames.SelectFrame | mobile/App.tsx:133-136 | The selection is an option of the catalogue: the one with the id when there is one, the first option otherwise. |
| Frames.SelectedOverlay | web/src/components/ImageModal.tsx:114-118 | In a catalogue, no overlay is drawn exactly when the id is `"none"` or unknown. Otherwise the overlay matches the orientation. |
| ImageModal.WebFrameOptionsCatalogue | web/src/components/ImageModal.tsx:15-53 | The web catalogue starts with `"none"`, which has no overlay. Every other frame has both variants. |
| MobileApp.FrameOptionsCatalogue | mobile/App.tsx:48-86 | The app's catalogue starts with `"none"`, which has no overlay. Every other frame has both variants. |
| MobileConfig.TrimSlash | mobile/src/config.ts:10-12 | Trimming drops the trailing run of `/` and nothing else: the result is a prefix and does not end in `/`. |
| MobileConfig.TrimSlashIdempotent | mobile/src/config.ts:10-12 | Trimming twice is trimming once. |
| MobileConfig.TrimSlashAppended | mobile/src/config.ts:10-12 | Any number of trailing `/` make no difference. |
| MobileConfig.OrDefault | mobile/src/config.ts:15-16 | `value || fallback` gives the fallback for an absent or empty value, and the value otherwise. |
| MobileConfig.AppConfigFrom | mobile/src/config.ts:14-17 | The base url is the configured one, or the default, without trailing `/`. The token is the configured one, or `""`. |
| MobileApp.NormalizeBaseUrl | mobile/App.tsx:88-90 | `normalizeBaseUrl` removes the trailing run of `/`, so the result never ends in `/`. |
| MobileApp.BaseUrlIsConfigured | mobile/App.tsx:130 | The app's base url is the configured one unchanged. |
| MobileApp.AbsoluteImageUrl | mobile/App.tsx:92-97 | A url with an http(s) scheme, in any case, is kept. Any other url is joined to the base url, with exactly one `/` added unless the url starts with one. |
| MobileApp.AbsoluteServerUrl | mobile/App.tsx:92-97 | A url the server hands out is appended to the base url as it is. |
| MobileApp.AbsoluteIdempotent | mobile/App.tsx:92-97 | With a base url that has a scheme, making a url absolute twice changes nothing. |
| MobileApp.SelectedFrame | mobile/App.tsx:133-136 | The selected frame is a catalogue option, and an unknown id selects `"none"`. |
| MobileApp.IsLandscapePhoto | mobile/App.tsx:145 | A photo is landscape when it is strictly wider than tall, so a square is portrait. With no photo, the screen decides. |
| MobileApp.PreviewOverlay | mobile/App.tsx:133-146 | The preview draws no overlay exactly for `"none"` or an unknown id. Otherwise it draws the landscape variant for a wider photo and the portrait variant for any other. |
| MobileApp.UploadExtension | mobile/App.tsx:255 | The extension is `png` exactly for `image/png`, and `jpg` otherwise. |
| MobileApp.UploadExtensionMatchesServer | mobile/App.tsx:255 | For JPEG and PNG, the app's extension is the one the server stores under. |
| MobileApp.UploadFileNameExtname | mobile/App.tsx:261 | The upload's file name has the extension it was built with. |
| MobileApp.UploadFileNameType | mobile/App.tsx:255-262 | The server would serve the upload's file name with the type the app declared. |
| MobileApp.CaptureState.UploadPhoto | mobile/App.tsx:244-268 | With no photo, nothing happens. An empty or `CHANGE_ME` token sets the error state and sends nothing. Otherwise it sends `POST <base>/api/upload` with the token and the named photo part, where `<base>` is the configured base url without trailing slashes. |
| MobileApp.SentTokenAccepted | mobile/App.tsx:244-268 | The token in the upload request the app builds is accepted by a server configured with the same token. |
| MobileApp.RemoveById | mobile/App.tsx:334 | The filter keeps exactly the items with another id. |
| MobileApp.RemoveByIdConcat | mobile/App.tsx:334 | The filter keeps order: it distributes over concatenation. |
| MobileApp.RemoveByIdAbsent | mobile/App.tsx:334 | A list without the id is unchanged. |
| MobileApp.RemoveByIdIdempotent | mobile/App.tsx:334 | Removing twice is removing once. |
| MobileApp.RefusalMessage | mobile/App.tsx:322-331 | The message is the server's non-empty `error` when there is one. Otherwise it is `No se pudo eliminar (<status>).` with the status in decimal. It is never empty. |
| MobileApp.HistoryAfterDelete | mobile/App.tsx:321-341 | An ok response removes the id from the list and clears the error. Any other outcome keeps the list and sets an error. A refusal sets the refusal message for its status and `error` field. A thrown error sets its message, and any other failure the generic message. |
| MobileApp.HistoryState.DeleteImage | mobile/App.tsx:304-345 | An unusable token sends nothing and sets the token error. Otherwise it sends `DELETE <base>/api/images/<encoded id>` with the token, where `<base>` is the configured base url without trailing slashes. The list and error follow `HistoryAfterDelete`, and no id is left marked as deleting. |
| MobileApp.CaptureState.constructor | mobile/App.tsx:121-123 | The capture screen starts with no photo, the upload idle and no message. |
| MobileApp.HistoryState.constructor | mobile/App.tsx:125-128 | The history starts empty, with no error and no id being deleted. |
| ImageModal.ModalState.constructor | web/src/components/ImageModal.tsx:85-89 | The dialog starts with `"none"` selected, not downloading, no error, and portrait. |
| ImageModal.ModalState.Select | web/src/components/ImageModal.tsx:85 | Selecting a frame changes only the selection. |
| ImageModal.ModalState.OnPreloaded | web/src/components/ImageModal.tsx:91-103 | The orientation follows the loaded image only while the dialog is mounted and both sizes are positive. A square image is portrait. |
| ImageModal.ModalState.DownloadOriginal | web/src/components/ImageModal.tsx:120-122 | The original download is the image's url, saved under its id. |
| ImageModal.DownloadFileName | web/src/components/ImageModal.tsx:145 | The composed file's name starts with `kisscam-<frame id>-` and ends with `.png`. |
| ImageModal.DownloadFileNameParts | web/src/components/ImageModal.tsx:145 | The name is exactly `kisscam-<frame id>-<time>.png`: the frame's prefix, then the clock's decimal digits, which read back as the clock value, then `.png`, and nothing else. |
| ImageModal.FramedDownloadSpec | web/src/components/ImageModal.tsx:124-148 | A failure to load the base or the overlay, or a missing context, gives the error message. Otherwise the PNG has the base's size, with the base drawn first over all of it, and the overlay drawn over the same rectangle exactly when the frame has one. |
| ImageModal.OverlaySizeIrrelevant | web/src/components/ImageModal.tsx:141 | The overlay's own size never matters: it is stretched over the base. |
| ImageModal.NoFrameDrawsBaseOnly | web/src/components/ImageModal.tsx:114-142 | With `"none"` or an unknown frame, only the base image is drawn. |
| ImageModal.Canvas.Draw | web/src/components/ImageModal.tsx:137-141 | A draw call is appended to the canvas, and nothing else changes. |
| ImageModal.ComposeOnCanvas | web/src/components/ImageModal.tsx:128-145 | Drawing on a fresh canvas gives exactly `FramedDownload`. |
| ImageModal.ModalState.DownloadWithFrame | web/src/components/ImageModal.tsx:124-152 | The download always ends not downloading. Success adds the composed download and leaves no error. Failure adds nothing and sets the error message. |

## Left out

- `Storage.ListImagesStable`: the sort key is taken as the whole-millisecond creation instant that the listing reports. File times finer than a millisecond are not modelled, so two files created in the same millisecond count as simultaneous.
- The path resolution of `resolveStorageDir` (`path.isAbsolute`, `path.resolve(process.cwd(), dir)`) is left out. The resolved root is a parameter of `ImageStore`.
- `mkdir` in `ensureStorageDir` is left out: the directory is assumed to exist.
- Filesystem entries other than regular files and directories (symlinks, devices) are left out. So are permission errors and any other I/O failure. A write fails only on a directory of the same name.
- `created.toISOString()` is kept as the instant it renders. Date formatting is not modelled.
- `Date.now()`, `randomUUID()` and the filesystem's timestamps are parameters. Their values are not modelled beyond the UUID's textual form.
- `Number()` parsing, floating-point rounding and IEEE special values are left out. `MAX_UPLOAD_MB` is an already-parsed optional number, with non-finite values as one case.
- The text of the 413 message is left out. `UploadRoute.SaveErrorResponse` carries the limit in MB instead of rendering it into the Spanish message.
- `Text.ToLower` folds ASCII letters only. JavaScript's full Unicode `toLowerCase` is not modelled. For the needles compared here (`.jpg`, `.jpeg`, `.png`, `multipart/form-data`, `http://`, `https://`), a non-ASCII character cannot fold into one of them, so the results agree.
- Request parsing is left out: `request.formData()` is an already decoded body, unparsable or a form. Header lookup ignoring case belongs to the runtime and is not modelled either. Any exception other than the store's errors is the single `WriteFailed` case.
- Network transport is left out:
  - the `fetch` and `XMLHttpRequest` calls;
  - the `onloadstart`, `onerror` and `onload` callbacks of the upload;
  - history polling;
  - image loading.
  `MobileApp.CaptureState.UploadPhoto` stops once the request is built. `MobileApp.HistoryState.DeleteImage` takes the server's answer as a parameter. `ImageModal.ModalState.DownloadWithFrame` takes the result of each image load as a parameter.
- The `tab`, `captureScreen` and `historyLoading` state of the app is left out. It belongs to navigation and history polling, which are not modelled.
- `MobileApp.HistoryAfterDelete` takes the response body's `error` field as an optional string. A JSON body whose `error` is some other truthy value is not modelled.
- `canvas.toDataURL` is the recorded draw calls and the canvas size, not an encoded PNG. A failure of `toDataURL` itself is not modelled.
- The preview's aspect ratio and the screen size arithmetic are left out, because they are floating point and presentation. So are the camera, screen-orientation locking, React rendering and styles.
- The frame images themselves are left out: overlays are named by their asset path.
