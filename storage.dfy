/**
 * The filesystem-backed image store. The storage directory is a map from
 * file name to what `stat` reports of the entry (and, for a regular file,
 * its bytes); saving and deleting change that map in place, while reading
 * and listing are functions of a snapshot of it.
 */
module Storage {
  import opened Wrappers
  import opened Text
  import opened PosixPath
  import opened UriEncoding

  /** One entry of the storage directory: a regular file or a directory. */
  datatype Entry = Entry(bytes: seq<Byte>, isFile: bool, birthtimeMs: int, mtimeMs: int)

  /** The storage directory, by entry name. */
  type Directory = map<string, Entry>

  /** A name that can stand in a directory: non-empty, not `.` or `..`, no `/`. */
  predicate IsEntryName(n: string) {
    n != "" && n != "." && n != ".." && '/' !in n
  }

  predicate WellFormed(dir: Directory) {
    forall n :: n in dir ==> IsEntryName(n)
  }

  const AllowedExtensions: set<string> := {".jpg", ".jpeg", ".png"}

  /** `ALLOWED_FILE_TYPES.get(mime)`: the extension a declared type is stored under. */
  function AllowedFileType(mime: string): (r: Option<string>)
    ensures r.Some? <==> mime == "image/jpeg" || mime == "image/png"
  {
    if mime == "image/jpeg" then Some("jpg")
    else if mime == "image/png" then Some("png")
    else None
  }

  /** The lower-cased extension of a name is an allowed one. */
  predicate HasAllowedExtension(name: string) {
    ToLower(Extname(name)) in AllowedExtensions
  }

  /** `parseImageMimeFromName`: the content type a stored name is served with. */
  function ParseImageMimeFromName(name: string): Option<string> {
    var ext := ToLower(Extname(name));
    if ext == ".jpg" || ext == ".jpeg" then Some("image/jpeg")
    else if ext == ".png" then Some("image/png")
    else None
  }

  /** A name whose extension is `.jpg` or `.png` as written has the matching type. */
  lemma MimeOfExtname(name: string, e: string)
    requires e == ".jpg" || e == ".png"
    requires Extname(name) == e
    ensures ParseImageMimeFromName(name) == Some(if e == ".png" then "image/png" else "image/jpeg")
  {
    LowerExtension(Extname(name), e);
    if e == ".png" { } else { }
  }

  lemma LowerExtension(x: string, e: string)
    requires e == ".jpg" || e == ".png"
    requires x == e
    ensures ToLower(x) == e
  {
    LowerIdentity(e);
  }

  /**
   * `name` ends with the extension `e` in any case and has a character
   * before it (so the dot is not the first character).
   */
  predicate EndsWithExtension(name: string, e: string) {
    EndsWith(ToLower(name), e) && |name| > |e|
  }

  /**
   * The MIME type depends only on how the last component of the name
   * ends: `.jpg` or `.jpeg` in any case gives `image/jpeg`, `.png` in any
   * case `image/png`, anything else nothing.
   */
  lemma ParseImageMimeFromNameSpec(name: string)
    ensures var b := Basename(name);
      && (ParseImageMimeFromName(name) == Some("image/jpeg") <==>
            EndsWithExtension(b, ".jpg") || EndsWithExtension(b, ".jpeg"))
      && (ParseImageMimeFromName(name) == Some("image/png") <==> EndsWithExtension(b, ".png"))
      && (ParseImageMimeFromName(name).None? <==>
            !EndsWithExtension(b, ".jpg") && !EndsWithExtension(b, ".jpeg") && !EndsWithExtension(b, ".png"))
  {
    var b := Basename(name);
    var ext := ToLower(Extname(name));
    assert ext == ToLower(ComponentExtname(b));
    LowerExtnameIs(b, ".jpg");
    LowerExtnameIs(b, ".jpeg");
    LowerExtnameIs(b, ".png");
    assert ext == ".jpg" <==> EndsWithExtension(b, ".jpg");
    assert ext == ".jpeg" <==> EndsWithExtension(b, ".jpeg");
    assert ext == ".png" <==> EndsWithExtension(b, ".png");
  }

  /**
   * `normalizeImageId`: the traversal guard shared by read and delete. It
   * gives back its argument or nothing, and it gives it back only when the
   * argument names a direct child of the storage directory (no `/`, not
   * `.` or `..`) with an allowed extension, which also has a MIME type.
   */
  function NormalizeImageId(id: string): (r: Option<string>)
    ensures r.None? || r == Some(id)
  {
    var clean := Basename(id);
    if clean != id then None
    else if !HasAllowedExtension(clean) then None
    else Some(clean)
  }

  /** What an accepted id guarantees to read and delete. */
  lemma NormalizedIdIsSafe(id: string)
    requires NormalizeImageId(id).Some?
    ensures IsEntryName(id) && ParseImageMimeFromName(id).Some?
  {
    assert Basename(id) == id && HasAllowedExtension(id);
    BasenameNoSlash(id);
    ComponentExtnameSpec(id);
    var e := Extname(id);
    assert |ToLower(e)| >= 4;
    assert |e| < |id|;
  }

  /**
   * An id is accepted exactly when it has no `/` and ends, in any case,
   * with `.jpg`, `.jpeg` or `.png` after at least one other character.
   */
  lemma NormalizeImageIdIff(id: string)
    ensures NormalizeImageId(id).Some? <==>
      '/' !in id && (EndsWithExtension(id, ".jpg") || EndsWithExtension(id, ".jpeg") || EndsWithExtension(id, ".png"))
  {
    BasenameFixedIff(id);
    AllowedExtensionIff(id);
  }

  /** The extension is allowed exactly when the last component ends with one in any case. */
  lemma AllowedExtensionIff(name: string)
    ensures var b := Basename(name);
      HasAllowedExtension(name) <==>
        EndsWithExtension(b, ".jpg") || EndsWithExtension(b, ".jpeg") || EndsWithExtension(b, ".png")
  {
    AllowedIsTyped(ToLower(Extname(name)));
    ParseImageMimeFromNameSpec(name);
  }

  /** An allowed extension is one the type table knows. */
  lemma AllowedIsTyped(ext: string)
    ensures ext in AllowedExtensions <==> ext == ".jpg" || ext == ".jpeg" || ext == ".png"
  {
  }

  // ---------------------------------------------------------------------
  // Reading

  datatype ImageData = ImageData(body: seq<Byte>, mimeType: string)

  /**
   * `readImageFromDisk`: nothing for an invalid id, a missing entry or an
   * entry that cannot be read as a file; otherwise the file's bytes and
   * the type its name gives. It never fails with a filesystem error.
   */
  function ReadImage(dir: Directory, id: string): (r: Option<ImageData>)
    ensures r.None? <==> NormalizeImageId(id).None? || id !in dir || !dir[id].isFile
    ensures r.Some? ==> r.value.body == dir[id].bytes && Some(r.value.mimeType) == ParseImageMimeFromName(id)
  {
    match NormalizeImageId(id)
    case None => None
    case Some(safeId) =>
      match ParseImageMimeFromName(safeId)
      case None => None
      case Some(mimeType) =>
        if safeId in dir && dir[safeId].isFile then Some(ImageData(dir[safeId].bytes, mimeType)) else None
  }

  // ---------------------------------------------------------------------
  // Saving

  /** The part of an uploaded `File` the store looks at. */
  datatype UploadFile = UploadFile(mimeType: string, bytes: seq<Byte>)

  /** The error messages `saveUploadedImage` throws, and a failed write. */
  datatype SaveError = InvalidMime | EmptyFile | MaxSizeExceeded | WriteFailed

  datatype SavedImage = SavedImage(id: string, url: string)

  type SaveResult = Result<SavedImage, SaveError>

  /**
   * The checks `saveUploadedImage` makes before it writes, in their order:
   * the declared type first, then emptiness, then the size limit (a size
   * equal to the limit passes). On success, the extension to store under.
   */
  function ValidateUpload(file: UploadFile, maxBytes: int): (r: Result<string, SaveError>)
    ensures AllowedFileType(file.mimeType).None? ==> r == Err(InvalidMime)
    ensures AllowedFileType(file.mimeType).Some? && |file.bytes| == 0 ==> r == Err(EmptyFile)
    ensures AllowedFileType(file.mimeType).Some? && |file.bytes| > 0 && |file.bytes| > maxBytes ==> r == Err(MaxSizeExceeded)
    ensures r.Ok? <==> (file.mimeType == "image/jpeg" || file.mimeType == "image/png") && 0 < |file.bytes| <= maxBytes
    ensures r.Ok? ==> r.value == (if file.mimeType == "image/png" then "png" else "jpg")
  {
    match AllowedFileType(file.mimeType)
    case None => Err(InvalidMime)
    case Some(ext) =>
      if |file.bytes| <= 0 then Err(EmptyFile)
      else if |file.bytes| > maxBytes then Err(MaxSizeExceeded)
      else Ok(ext)
  }

  predicate IsLowerHexDigit(c: char) {
    ('0' <= c <= '9') || ('a' <= c <= 'f')
  }

  /** The shape of what `randomUUID()` returns: 8-4-4-4-12 lower-case hex digits. */
  predicate IsUuid(u: string) {
    |u| == 36 && forall i :: 0 <= i < 36 ==>
      if i == 8 || i == 13 || i == 18 || i == 23 then u[i] == '-' else IsLowerHexDigit(u[i])
  }

  /** The extension a successfully validated upload is stored under. */
  function ExtensionFor(mime: string): string {
    if mime == "image/png" then "png" else "jpg"
  }

  /** `${Date.now()}_${randomUUID()}.${ext}` */
  function ImageId(nowMs: nat, uuid: string, ext: string): string {
    DecimalString(nowMs) + "_" + uuid + "." + ext
  }

  /** `/api/images/${encodeURIComponent(id)}` */
  function ImageUrl(id: string): string {
    "/api/images/" + EncodeURIComponent(id)
  }

  /**
   * A generated id is made of unreserved characters, none of them `/` or an
   * upper-case letter.
   */
  lemma ImageIdCharacters(nowMs: nat, uuid: string, ext: string)
    requires IsUuid(uuid) && (ext == "jpg" || ext == "png")
    ensures var id := ImageId(nowMs, uuid, ext);
      forall j :: 0 <= j < |id| ==> IsUriUnreserved(id[j]) && id[j] != '/' && !('A' <= id[j] <= 'Z')
  {
    var digits := DecimalString(nowMs);
    var id := ImageId(nowMs, uuid, ext);
    var k := |digits| + 1 + |uuid|;
    forall j | 0 <= j < |id| ensures IsUriUnreserved(id[j]) && id[j] != '/' && !('A' <= id[j] <= 'Z') {
      if j < |digits| {
        assert id[j] == digits[j] && IsDigit(digits[j]);
      } else if j == |digits| {
        assert id[j] == '_';
      } else if j < k {
        assert id[j] == uuid[j - |digits| - 1];
      } else if j == k {
        assert id[j] == '.';
      } else {
        assert id[j] == ext[j - k - 1];
      }
    }
  }

  /** The extension of a generated id is the one it was generated with. */
  lemma ImageIdExtname(nowMs: nat, uuid: string, ext: string)
    requires IsUuid(uuid) && (ext == "jpg" || ext == "png")
    ensures Extname(ImageId(nowMs, uuid, ext)) == "." + ext
  {
    var digits := DecimalString(nowMs);
    var id := ImageId(nowMs, uuid, ext);
    var k := |digits| + 1 + |uuid|;
    ImageIdCharacters(nowMs, uuid, ext);
    assert id[k] == '.';
    ExtnameAt(id, k);
    assert id[k..] == "." + ext;
  }

  /**
   * A generated id determines the clock value, the UUID and the extension
   * it was made from: two uploads at different milliseconds, or with
   * different UUIDs, never get the same id.
   */
  lemma ImageIdDeterminesParts(n1: nat, u1: string, e1: string, n2: nat, u2: string, e2: string)
    requires IsUuid(u1) && IsUuid(u2)
    requires ImageId(n1, u1, e1) == ImageId(n2, u2, e2)
    ensures n1 == n2 && u1 == u2 && e1 == e2
  {
    var d1, d2 := DecimalString(n1), DecimalString(n2);
    var id := ImageId(n1, u1, e1);
    ClockDigitsNotShorter(n1, u1, e1, n2, u2, e2);
    ClockDigitsNotShorter(n2, u2, e2, n1, u1, e1);
    assert d1 == id[..|d1|] == d2;
    DecimalRoundTrip(n1);
    DecimalRoundTrip(n2);
    var k := |d1| + 1;
    assert u1 == id[k..k + 36] == u2;
    assert e1 == id[k + 37..] == e2;
  }

  /** A character that is not a digit cannot lie inside a run of digits at the start of `s`. */
  lemma NonDigitAfterDigits(s: string, j: nat, k: nat)
    requires j <= |s| && k < |s| && !IsDigit(s[k])
    requires forall i :: 0 <= i < j ==> IsDigit(s[i])
    ensures j <= k
  {
  }

  /** The `_` after the clock digits ends them, so equal ids have clock renderings of one length. */
  lemma ClockDigitsNotShorter(n1: nat, u1: string, e1: string, n2: nat, u2: string, e2: string)
    requires ImageId(n1, u1, e1) == ImageId(n2, u2, e2)
    ensures |DecimalString(n1)| >= |DecimalString(n2)|
  {
    var d1, d2 := DecimalString(n1), DecimalString(n2);
    var id := ImageId(n2, u2, e2);
    assert id == d2 + "_" + u2 + "." + e2;
    assert forall i :: 0 <= i < |d2| ==> id[i] == d2[i];
    assert id == ImageId(n1, u1, e1) == d1 + "_" + u1 + "." + e1;
    assert id[|d1|] == '_';
    NonDigitAfterDigits(id, |d2|, |d1|);
  }

  /**
   * A name without `/`, made of unreserved characters and whose extension
   * is `.jpg` or `.png`, passes the guard, has the matching MIME type and
   * is its own url encoding.
   */
  lemma PlainImageName(id: string, e: string)
    requires e == ".jpg" || e == ".png"
    requires forall j :: 0 <= j < |id| ==> IsUriUnreserved(id[j]) && id[j] != '/'
    requires ToLower(Extname(id)) == e
    ensures NormalizeImageId(id) == Some(id)
    ensures ParseImageMimeFromName(id) == Some(if e == ".png" then "image/png" else "image/jpeg")
    ensures ImageUrl(id) == "/api/images/" + id
  {
    assert '/' !in id;
    BasenameFixedIff(id);
    if e == ".png" { } else { }
    EncodeUnreservedIdentity(id);
  }

  lemma LowerPlainName(id: string, e: string)
    requires e == ".jpg" || e == ".png"
    requires forall j :: 0 <= j < |id| ==> IsUriUnreserved(id[j]) && id[j] != '/' && !('A' <= id[j] <= 'Z')
    requires Extname(id) == e
    ensures NormalizeImageId(id) == Some(id)
    ensures ParseImageMimeFromName(id) == Some(if e == ".png" then "image/png" else "image/jpeg")
    ensures ImageUrl(id) == "/api/images/" + id
  {
    assert '/' !in id;
    LowerNameExtname(id);
    PlainImageName(id, e);
  }

  /**
   * A generated id passes the traversal guard, has the MIME type the
   * extension stands for, and is made of unreserved characters only, so
   * its url is the id itself under `/api/images/`.
   */
  lemma GeneratedIdIsSafe(nowMs: nat, uuid: string, ext: string)
    requires IsUuid(uuid) && (ext == "jpg" || ext == "png")
    ensures var id := ImageId(nowMs, uuid, ext);
      && NormalizeImageId(id) == Some(id)
      && ParseImageMimeFromName(id) == Some(if ext == "png" then "image/png" else "image/jpeg")
      && ImageUrl(id) == "/api/images/" + id
  {
    ImageIdCharacters(nowMs, uuid, ext);
    ImageIdExtname(nowMs, uuid, ext);
    SafeGeneratedName(ImageId(nowMs, uuid, ext), ext);
  }

  lemma SafeGeneratedName(id: string, ext: string)
    requires ext == "jpg" || ext == "png"
    requires forall j :: 0 <= j < |id| ==> IsUriUnreserved(id[j]) && id[j] != '/' && !('A' <= id[j] <= 'Z')
    requires Extname(id) == "." + ext
    ensures NormalizeImageId(id) == Some(id)
    ensures ParseImageMimeFromName(id) == Some(if ext == "png" then "image/png" else "image/jpeg")
    ensures ImageUrl(id) == "/api/images/" + id
  {
    var e := if ext == "png" then ".png" else ".jpg";
    assert "." + ext == e;
    LowerPlainName(id, e);
  }

  /**
   * The directory entry `writeFile` leaves behind at `id`: a regular file
   * holding the bytes, modified at `fsTimeMs`. A new file is also born
   * then; an existing file is truncated and rewritten, so it keeps its
   * birth time.
   */
  function WrittenEntry(dir: Directory, id: string, bytes: seq<Byte>, fsTimeMs: int): Entry {
    Entry(bytes, true, if id in dir then dir[id].birthtimeMs else fsTimeMs, fsTimeMs)
  }

  /**
   * What `saveUploadedImage` returns and the directory it leaves. The write
   * rewrites a regular file of the same name and fails on a directory of
   * that name (EISDIR).
   */
  function SaveOutcome(dir: Directory, file: UploadFile, maxBytes: int, nowMs: nat, uuid: string, fsTimeMs: int)
    : (SaveResult, Directory)
  {
    match ValidateUpload(file, maxBytes)
    case Err(e) => (Err(e), dir)
    case Ok(ext) =>
      var id := ImageId(nowMs, uuid, ext);
      if id in dir && !dir[id].isFile then (Err(WriteFailed), dir)
      else (Ok(SavedImage(id, ImageUrl(id))), dir[id := WrittenEntry(dir, id, file.bytes, fsTimeMs)])
  }

  /**
   * Saving either fails and leaves the directory as it was, or succeeds and
   * adds (or rewrites) exactly one entry, named by the generated id and
   * holding the uploaded bytes verbatim, leaving every other entry as it
   * was. A new entry is created at the write time; a rewritten one keeps
   * its birth time. The id has the extension of the declared type and the
   * url is the id under `/api/images/`.
   */
  lemma SaveOutcomeSpec(dir: Directory, file: UploadFile, maxBytes: int, nowMs: nat, uuid: string, fsTimeMs: int)
    requires WellFormed(dir) && IsUuid(uuid)
    ensures var (r, dir') := SaveOutcome(dir, file, maxBytes, nowMs, uuid, fsTimeMs);
      var id := ImageId(nowMs, uuid, ExtensionFor(file.mimeType));
      && WellFormed(dir')
      && (r.Err? ==> dir' == dir)
      && (ValidateUpload(file, maxBytes).Err? ==> r == Err(ValidateUpload(file, maxBytes).error))
      && (ValidateUpload(file, maxBytes).Ok? && id in dir && !dir[id].isFile ==> r == Err(WriteFailed))
      && (r.Ok? <==> ValidateUpload(file, maxBytes).Ok? && !(id in dir && !dir[id].isFile))
      && (r.Ok? ==>
            && r.value.id == id
            && r.value.url == "/api/images/" + r.value.id
            && dir'.Keys == dir.Keys + {r.value.id}
            && dir'[r.value.id].bytes == file.bytes && dir'[r.value.id].isFile
            && dir'[r.value.id].mtimeMs == fsTimeMs
            && (r.value.id !in dir ==> CreatedMs(dir'[r.value.id]) == fsTimeMs)
            && (r.value.id in dir ==> dir'[r.value.id].birthtimeMs == dir[r.value.id].birthtimeMs)
            && (forall n :: n in dir && n != r.value.id ==> dir'[n] == dir[n]))
  {
    if ValidateUpload(file, maxBytes).Ok? {
      var ext := ValidateUpload(file, maxBytes).value;
      var id := ImageId(nowMs, uuid, ext);
      assert ext == ExtensionFor(file.mimeType);
      GeneratedIdIsSafe(nowMs, uuid, ext);
      NormalizedIdIsSafe(id);
      WriteKeepsWellFormed(dir, id, WrittenEntry(dir, id, file.bytes, fsTimeMs));
    }
  }

  lemma WriteKeepsWellFormed(dir: Directory, id: string, e: Entry)
    requires WellFormed(dir) && IsEntryName(id)
    ensures WellFormed(dir[id := e]) && dir[id := e].Keys == dir.Keys + {id}
  {
  }

  /**
   * Round trip: reading a freshly saved id gives back the uploaded bytes
   * with the declared type.
   */
  lemma SaveThenRead(dir: Directory, file: UploadFile, maxBytes: int, nowMs: nat, uuid: string, fsTimeMs: int)
    requires IsUuid(uuid)
    ensures var (r, dir') := SaveOutcome(dir, file, maxBytes, nowMs, uuid, fsTimeMs);
      r.Ok? ==> ReadImage(dir', r.value.id) == Some(ImageData(file.bytes, file.mimeType))
  {
    var (r, dir') := SaveOutcome(dir, file, maxBytes, nowMs, uuid, fsTimeMs);
    if r.Ok? {
      var ext := ValidateUpload(file, maxBytes).value;
      GeneratedIdIsSafe(nowMs, uuid, ext);
    }
  }

  // ---------------------------------------------------------------------
  // Deleting

  /**
   * `deleteImageFromDisk`: an invalid id is refused; `unlink` removes a
   * regular file and fails on a missing name or a directory.
   */
  function DeleteOutcome(dir: Directory, id: string): (bool, Directory) {
    match NormalizeImageId(id)
    case None => (false, dir)
    case Some(safeId) =>
      if safeId in dir && dir[safeId].isFile then (true, dir - {safeId}) else (false, dir)
  }

  /**
   * Deleting answers true exactly when the id is valid and names a regular
   * file; then only that entry is gone, otherwise nothing changed. Either
   * way the id cannot be read afterwards.
   */
  lemma DeleteOutcomeSpec(dir: Directory, id: string)
    requires WellFormed(dir)
    ensures var (removed, dir') := DeleteOutcome(dir, id);
      && WellFormed(dir')
      && (removed <==> NormalizeImageId(id).Some? && id in dir && dir[id].isFile)
      && dir' == (if removed then dir - {id} else dir)
      && ReadImage(dir', id).None?
  {
  }

  // ---------------------------------------------------------------------
  // Listing

  /** `created.toISOString()`, kept as the instant it renders. */
  datatype Timestamp = Timestamp(ms: int)

  /** An element of the listing returned to clients. */
  datatype ImageItem = ImageItem(id: string, url: string, createdAt: Timestamp)

  /** An element of the listing before `createdMs` is stripped. */
  datatype ListedImage = ListedImage(id: string, url: string, createdAt: Timestamp, createdMs: int)

  /** Birth time when the filesystem reports one, the modification time otherwise. */
  function CreatedMs(e: Entry): int {
    if e.birthtimeMs > 0 then e.birthtimeMs else e.mtimeMs
  }

  /** A directory entry the listing reports. */
  predicate IsListable(dir: Directory, n: string) {
    n in dir && dir[n].isFile && HasAllowedExtension(n)
  }

  predicate NoDuplicates<T(==)>(s: seq<T>) {
    forall i, j :: 0 <= i < j < |s| ==> s[i] != s[j]
  }

  /** `order` is the order `readdir` yields: every entry exactly once. */
  predicate EnumeratesKeys(dir: Directory, order: seq<string>) {
    (forall i :: 0 <= i < |order| ==> order[i] in dir) && (forall n :: n in dir ==> n in order) && NoDuplicates(order)
  }

  /** The names the two `filter`s of the listing let through. */
  function ListableSet(dir: Directory): (r: set<string>)
    ensures forall n :: n in r <==> IsListable(dir, n)
  {
    set n | n in dir && dir[n].isFile && HasAllowedExtension(n)
  }

  /** The elements of `order` that are in `keep`, in their order. */
  function KeepIn(order: seq<string>, keep: set<string>): (r: seq<string>)
    ensures forall n :: n in r <==> n in order && n in keep
    ensures NoDuplicates(order) ==> NoDuplicates(r)
  {
    if order == [] then []
    else
      var rest := KeepIn(order[1..], keep);
      assert forall n :: n in order <==> n == order[0] || n in order[1..];
      assert NoDuplicates(order) ==> order[0] !in order[1..];
      (if order[0] in keep then [order[0]] else []) + rest
  }

  /** Keeping the elements of a concatenation keeps those of each part, in turn. */
  lemma {:induction false} KeepInConcat(a: seq<string>, b: seq<string>, keep: set<string>)
    ensures KeepIn(a + b, keep) == KeepIn(a, keep) + KeepIn(b, keep)
  {
    if a == [] {
      assert a + b == b;
    } else {
      assert (a + b)[1..] == a[1..] + b;
      KeepInConcat(a[1..], b, keep);
    }
  }

  /** The two `filter`s of the listing, in directory order. */
  function ListableNames(dir: Directory, order: seq<string>): (r: seq<string>)
    ensures forall n :: n in r <==> n in order && IsListable(dir, n)
    ensures NoDuplicates(order) ==> NoDuplicates(r)
  {
    KeepIn(order, ListableSet(dir))
  }

  /**
   * The filters decide each name on its own and keep the survivors in
   * directory order: filtering a concatenation filters each part in turn,
   * and a single name is kept exactly when it is listable.
   */
  lemma ListableNamesKeepsOrder(dir: Directory, a: seq<string>, b: seq<string>, n: string)
    ensures ListableNames(dir, a + b) == ListableNames(dir, a) + ListableNames(dir, b)
    ensures ListableNames(dir, [n]) == (if IsListable(dir, n) then [n] else [])
  {
    KeepInConcat(a, b, ListableSet(dir));
    assert [n][1..] == [];
    assert KeepIn([n], ListableSet(dir)) == (if n in ListableSet(dir) then [n] else []) + KeepIn([], ListableSet(dir));
  }

  /** The record the `Promise.all` step builds for one listed entry. */
  function Describe(dir: Directory, n: string): ListedImage
    requires n in dir
  {
    var ms := CreatedMs(dir[n]);
    ListedImage(n, ImageUrl(n), Timestamp(ms), ms)
  }

  function DescribeAll(dir: Directory, names: seq<string>): (r: seq<ListedImage>)
    requires forall i :: 0 <= i < |names| ==> names[i] in dir
    ensures |r| == |names| && forall i :: 0 <= i < |names| ==> r[i] == Describe(dir, names[i])
  {
    if names == [] then []
    else
      var rest := DescribeAll(dir, names[1..]);
      assert forall i :: 1 <= i < |names| ==> rest[i - 1] == Describe(dir, names[i]);
      [Describe(dir, names[0])] + rest
  }

  predicate SortedByCreatedDesc(s: seq<ListedImage>) {
    forall i, j :: 0 <= i < j < |s| ==> s[i].createdMs >= s[j].createdMs
  }

  predicate DistinctIds(s: seq<ListedImage>) {
    forall i, j :: 0 <= i < j < |s| ==> s[i].id != s[j].id
  }

  /** The elements of `s` created at instant `t`, in their order in `s`. */
  function CreatedAt(s: seq<ListedImage>, t: int): seq<ListedImage> {
    if s == [] then [] else (if s[0].createdMs == t then [s[0]] else []) + CreatedAt(s[1..], t)
  }

  lemma CreatedAtCons(x: ListedImage, s: seq<ListedImage>, t: int)
    ensures CreatedAt([x] + s, t) == (if x.createdMs == t then [x] else []) + CreatedAt(s, t)
  {
    assert ([x] + s)[1..] == s;
  }

  /**
   * Inserts `x` into a list sorted newest first, before the first element
   * that is not newer than it: the step of a stable sort.
   */
  function InsertByCreated(x: ListedImage, s: seq<ListedImage>): (r: seq<ListedImage>)
    ensures |r| == |s| + 1
    ensures r[0] == x || (s != [] && r[0] == s[0])
    ensures forall y :: y in r <==> y == x || y in s
  {
    if s == [] || s[0].createdMs <= x.createdMs then [x] + s
    else
      var rest := InsertByCreated(x, s[1..]);
      assert forall y :: y in s <==> y == s[0] || y in s[1..];
      [s[0]] + rest
  }

  lemma {:induction false} InsertPermutes(x: ListedImage, s: seq<ListedImage>)
    ensures multiset(InsertByCreated(x, s)) == multiset(s) + multiset{x}
  {
    if s != [] && s[0].createdMs > x.createdMs {
      InsertPermutes(x, s[1..]);
      assert s == [s[0]] + s[1..];
    }
  }

  lemma {:induction false} InsertSorted(x: ListedImage, s: seq<ListedImage>)
    requires SortedByCreatedDesc(s)
    ensures SortedByCreatedDesc(InsertByCreated(x, s))
  {
    if s != [] && s[0].createdMs > x.createdMs {
      var rest := InsertByCreated(x, s[1..]);
      InsertSorted(x, s[1..]);
      assert s[0].createdMs >= rest[0].createdMs;
    }
  }

  /** Only elements newer than `x` are passed over, so `x` keeps its place among its equals. */
  lemma {:induction false} InsertStable(x: ListedImage, s: seq<ListedImage>, t: int)
    ensures CreatedAt(InsertByCreated(x, s), t) == (if x.createdMs == t then [x] else []) + CreatedAt(s, t)
  {
    if s == [] || s[0].createdMs <= x.createdMs {
      CreatedAtCons(x, s, t);
    } else {
      var rest := InsertByCreated(x, s[1..]);
      InsertStable(x, s[1..], t);
      CreatedAtCons(s[0], rest, t);
      CreatedAtCons(s[0], s[1..], t);
      assert s == [s[0]] + s[1..];
    }
  }

  lemma {:induction false} InsertDistinct(x: ListedImage, s: seq<ListedImage>)
    requires DistinctIds(s) && forall i :: 0 <= i < |s| ==> s[i].id != x.id
    ensures DistinctIds(InsertByCreated(x, s))
  {
    if s != [] && s[0].createdMs > x.createdMs {
      var r := InsertByCreated(x, s);
      var rest := InsertByCreated(x, s[1..]);
      InsertDistinct(x, s[1..]);
      forall j | 0 < j < |r| ensures r[0].id != r[j].id {
        assert r[j] in rest;
        if r[j] != x {
          var k :| 0 <= k < |s[1..]| && s[1..][k] == r[j];
          assert s[k + 1] == r[j];
        }
      }
    }
  }

  /**
   * `items.sort((a, b) => b.createdMs - a.createdMs)`: a stable sort,
   * newest first (insertion sort).
   */
  function SortByCreatedDesc(s: seq<ListedImage>): (r: seq<ListedImage>)
    ensures |r| == |s|
    ensures forall y :: y in r <==> y in s
  {
    if s == [] then []
    else
      assert forall y :: y in s <==> y == s[0] || y in s[1..];
      InsertByCreated(s[0], SortByCreatedDesc(s[1..]))
  }

  /** The sort is a permutation of its input. */
  lemma {:induction false} SortPermutes(s: seq<ListedImage>)
    ensures multiset(SortByCreatedDesc(s)) == multiset(s)
  {
    if s != [] {
      SortPermutes(s[1..]);
      InsertPermutes(s[0], SortByCreatedDesc(s[1..]));
      assert s == [s[0]] + s[1..];
    }
  }

  /** The sort leaves its output newest first. */
  lemma {:induction false} SortSorted(s: seq<ListedImage>)
    ensures SortedByCreatedDesc(SortByCreatedDesc(s))
  {
    if s != [] {
      SortSorted(s[1..]);
      InsertSorted(s[0], SortByCreatedDesc(s[1..]));
    }
  }

  /** The sort is stable: elements created at the same instant keep their relative order. */
  lemma {:induction false} SortStable(s: seq<ListedImage>, t: int)
    ensures CreatedAt(SortByCreatedDesc(s), t) == CreatedAt(s, t)
  {
    if s != [] {
      SortStable(s[1..], t);
      InsertStable(s[0], SortByCreatedDesc(s[1..]), t);
      CreatedAtCons(s[0], s[1..], t);
      assert s == [s[0]] + s[1..];
    }
  }

  lemma {:induction false} SortDistinct(s: seq<ListedImage>)
    requires DistinctIds(s)
    ensures DistinctIds(SortByCreatedDesc(s))
  {
    if s != [] {
      var rest := SortByCreatedDesc(s[1..]);
      assert DistinctIds(s[1..]);
      SortDistinct(s[1..]);
      forall i | 0 <= i < |rest| ensures rest[i].id != s[0].id {
        assert rest[i] in s[1..];
      }
      InsertDistinct(s[0], rest);
    }
  }

  /** The final `map`, which drops `createdMs`. */
  function Strip(s: seq<ListedImage>): (r: seq<ImageItem>)
    ensures |r| == |s| && forall i :: 0 <= i < |s| ==> r[i] == ImageItem(s[i].id, s[i].url, s[i].createdAt)
  {
    seq(|s|, i requires 0 <= i < |s| => ImageItem(s[i].id, s[i].url, s[i].createdAt))
  }

  predicate InDirectory(dir: Directory, names: seq<string>) {
    forall k :: 0 <= k < |names| ==> names[k] in dir
  }

  /** The `Promise.all` step, the sort and the final `map`, over the names the filters kept. */
  function ListNames(dir: Directory, names: seq<string>): seq<ImageItem>
    requires InDirectory(dir, names)
  {
    Strip(SortByCreatedDesc(DescribeAll(dir, names)))
  }

  /** `listImagesFromDisk` over a snapshot of the directory read in `order`. */
  function ListImages(dir: Directory, order: seq<string>): seq<ImageItem> {
    var names := ListableNames(dir, order);
    assert forall k :: 0 <= k < |names| ==> names[k] in names;
    ListNames(dir, names)
  }

  /** The listing in directory order, before the sort. */
  function UnsortedListing(dir: Directory, order: seq<string>): seq<ImageItem> {
    var names := ListableNames(dir, order);
    assert forall k :: 0 <= k < |names| ==> names[k] in names;
    Strip(DescribeAll(dir, names))
  }

  /** The items of a listing created at instant `t`, in their order. */
  function ItemsCreatedAt(items: seq<ImageItem>, t: int): seq<ImageItem> {
    if items == [] then [] else (if items[0].createdAt.ms == t then [items[0]] else []) + ItemsCreatedAt(items[1..], t)
  }

  /** Every record renders its sort key as its `createdAt`. */
  predicate ConsistentRecords(s: seq<ListedImage>) {
    forall i :: 0 <= i < |s| ==> s[i].createdAt.ms == s[i].createdMs
  }

  lemma {:induction false} StripCreatedAt(s: seq<ListedImage>, t: int)
    requires ConsistentRecords(s)
    ensures ItemsCreatedAt(Strip(s), t) == Strip(CreatedAt(s, t))
  {
    if s != [] {
      assert ConsistentRecords(s[1..]);
      StripCreatedAt(s[1..], t);
      assert Strip(s)[1..] == Strip(s[1..]);
      var head := if s[0].createdMs == t then [s[0]] else [];
      assert Strip(head + CreatedAt(s[1..], t)) == Strip(head) + Strip(CreatedAt(s[1..], t));
    }
  }

  lemma DescribeAllFacts(dir: Directory, names: seq<string>)
    requires InDirectory(dir, names) && NoDuplicates(names)
    ensures DistinctIds(DescribeAll(dir, names)) && ConsistentRecords(DescribeAll(dir, names))
  {
  }

  /** Every item of the listing of `names` is one of them, with its url and creation instant. */
  lemma ListNamesDescribes(dir: Directory, names: seq<string>)
    requires InDirectory(dir, names)
    ensures var items := ListNames(dir, names);
      forall i :: 0 <= i < |items| ==>
        && items[i].id in names
        && items[i].url == ImageUrl(items[i].id)
        && items[i].createdAt == Timestamp(CreatedMs(dir[items[i].id]))
  {
    var records := DescribeAll(dir, names);
    var sorted := SortByCreatedDesc(records);
    var items := ListNames(dir, names);
    forall i | 0 <= i < |items|
      ensures items[i].id in names && items[i].url == ImageUrl(items[i].id)
      ensures items[i].createdAt == Timestamp(CreatedMs(dir[items[i].id]))
    {
      assert sorted[i] in records;
      var k :| 0 <= k < |records| && records[k] == sorted[i];
      assert items[i].id == names[k];
    }
  }

  /** Every one of `names` is listed. */
  lemma ListNamesComplete(dir: Directory, names: seq<string>)
    requires InDirectory(dir, names)
    ensures var items := ListNames(dir, names);
      forall n :: n in names ==> exists i :: 0 <= i < |items| && items[i].id == n
  {
    var records := DescribeAll(dir, names);
    var sorted := SortByCreatedDesc(records);
    var items := ListNames(dir, names);
    forall n | n in names ensures exists i :: 0 <= i < |items| && items[i].id == n {
      var k :| 0 <= k < |names| && names[k] == n;
      assert records[k] in sorted;
      var i :| 0 <= i < |sorted| && sorted[i] == records[k];
      assert items[i].id == n;
    }
  }

  /** The listing of distinct names names each once and is newest first. */
  lemma ListNamesOrdered(dir: Directory, names: seq<string>)
    requires InDirectory(dir, names) && NoDuplicates(names)
    ensures var items := ListNames(dir, names);
      && (forall i, j :: 0 <= i < j < |items| ==> items[i].id != items[j].id)
      && (forall i, j :: 0 <= i < j < |items| ==> items[i].createdAt.ms >= items[j].createdAt.ms)
  {
    var records := DescribeAll(dir, names);
    var sorted := SortByCreatedDesc(records);
    DescribeAllFacts(dir, names);
    SortDistinct(records);
    SortSorted(records);
    forall i | 0 <= i < |sorted| ensures sorted[i].createdAt.ms == sorted[i].createdMs {
      assert sorted[i] in records;
    }
  }

  /** Items created at the same instant keep the order of `names`. */
  lemma ListNamesStable(dir: Directory, names: seq<string>, t: int)
    requires InDirectory(dir, names)
    ensures ItemsCreatedAt(ListNames(dir, names), t) == ItemsCreatedAt(Strip(DescribeAll(dir, names)), t)
  {
    var records := DescribeAll(dir, names);
    var sorted := SortByCreatedDesc(records);
    assert ConsistentRecords(records);
    assert ConsistentRecords(sorted) by {
      forall i | 0 <= i < |sorted| ensures sorted[i].createdAt.ms == sorted[i].createdMs {
        assert sorted[i] in records;
      }
    }
    StripCreatedAt(sorted, t);
    StripCreatedAt(records, t);
    SortStable(records, t);
  }

  /** The names the filters keep, as a directory-order sequence of distinct entry names. */
  lemma ListableNamesFacts(dir: Directory, order: seq<string>)
    requires NoDuplicates(order)
    ensures var names := ListableNames(dir, order);
      InDirectory(dir, names) && NoDuplicates(names)
  {
    var names := ListableNames(dir, order);
    assert forall k :: 0 <= k < |names| ==> names[k] in names;
  }

  /** Every listed item is a listable entry, with its url and its creation instant. */
  lemma ListImagesDescribes(dir: Directory, order: seq<string>)
    requires NoDuplicates(order)
    ensures var items := ListImages(dir, order);
      forall i :: 0 <= i < |items| ==>
        && IsListable(dir, items[i].id)
        && items[i].url == ImageUrl(items[i].id)
        && items[i].createdAt == Timestamp(CreatedMs(dir[items[i].id]))
  {
    ListableNamesFacts(dir, order);
    ListNamesDescribes(dir, ListableNames(dir, order));
  }

  /** Every listable entry the directory yields is listed. */
  lemma ListImagesComplete(dir: Directory, order: seq<string>)
    requires EnumeratesKeys(dir, order)
    ensures var items := ListImages(dir, order);
      forall n :: IsListable(dir, n) ==> exists i :: 0 <= i < |items| && items[i].id == n
  {
    ListableNamesFacts(dir, order);
    var names := ListableNames(dir, order);
    ListNamesComplete(dir, names);
    var items := ListImages(dir, order);
    assert items == ListNames(dir, names);
    forall n | IsListable(dir, n) ensures exists i :: 0 <= i < |items| && items[i].id == n {
      assert n in order;
      assert n in names;
    }
  }

  /** The listing names each entry once and is newest first. */
  lemma ListImagesOrdered(dir: Directory, order: seq<string>)
    requires NoDuplicates(order)
    ensures var items := ListImages(dir, order);
      && (forall i, j :: 0 <= i < j < |items| ==> items[i].id != items[j].id)
      && (forall i, j :: 0 <= i < j < |items| ==> items[i].createdAt.ms >= items[j].createdAt.ms)
  {
    ListableNamesFacts(dir, order);
    ListNamesOrdered(dir, ListableNames(dir, order));
  }

  /** Items created at the same instant keep the order the directory gave them. */
  lemma ListImagesStable(dir: Directory, order: seq<string>, t: int)
    requires NoDuplicates(order)
    ensures ItemsCreatedAt(ListImages(dir, order), t) == ItemsCreatedAt(UnsortedListing(dir, order), t)
  {
    ListableNamesFacts(dir, order);
    ListNamesStable(dir, ListableNames(dir, order), t);
  }

  // ---------------------------------------------------------------------
  // The store

  /**
   * The storage directory and its entries. `root` is the directory the
   * configuration resolves to; `files` is what it holds.
   */
  class ImageStore {
    const root: string
    var files: Directory

    ghost predicate Valid()
      reads this
    {
      WellFormed(files)
    }

    constructor (root: string, files: Directory)
      requires WellFormed(files)
      ensures Valid() && this.root == root && this.files == files
    {
      this.root := root;
      this.files := files;
    }

    /** `ensureStorageDir`: the directory exists already; nothing changes. */
    method EnsureStorageDir() returns (d: string)
      ensures d == root
    {
      d := root;
    }

    /**
     * `saveUploadedImage`, with `Date.now()`, `randomUUID()` and the time
     * the filesystem stamps on the new file given as parameters.
     */
    method Save(file: UploadFile, maxBytes: int, nowMs: nat, uuid: string, fsTimeMs: int) returns (r: SaveResult)
      requires Valid() && IsUuid(uuid)
      modifies this
      ensures Valid()
      ensures (r, files) == SaveOutcome(old(files), file, maxBytes, nowMs, uuid, fsTimeMs)
    {
      SaveOutcomeSpec(files, file, maxBytes, nowMs, uuid, fsTimeMs);
      var ext := AllowedFileType(file.mimeType);
      if ext.None? {
        return Err(InvalidMime);
      }
      if |file.bytes| <= 0 {
        return Err(EmptyFile);
      }
      if |file.bytes| > maxBytes {
        return Err(MaxSizeExceeded);
      }
      var _ := EnsureStorageDir();
      var fileId := ImageId(nowMs, uuid, ext.value);
      if fileId in files && !files[fileId].isFile {
        return Err(WriteFailed);
      }
      files := files[fileId := WrittenEntry(files, fileId, file.bytes, fsTimeMs)];
      r := Ok(SavedImage(fileId, ImageUrl(fileId)));
    }

    /** `deleteImageFromDisk`. */
    method Delete(id: string) returns (removed: bool)
      requires Valid()
      modifies this
      ensures Valid()
      ensures (removed, files) == DeleteOutcome(old(files), id)
    {
      DeleteOutcomeSpec(files, id);
      var _ := EnsureStorageDir();
      var safeId := NormalizeImageId(id);
      if safeId.None? {
        return false;
      }
      if safeId.value in files && files[safeId.value].isFile {
        files := files - {safeId.value};
        return true;
      }
      return false;
    }

    /** `readImageFromDisk`. */
    method Read(id: string) returns (r: Option<ImageData>)
      ensures r == ReadImage(files, id)
    {
      var _ := EnsureStorageDir();
      r := ReadImage(files, id);
    }

    /** `listImagesFromDisk`, reading the directory in `order`. */
    method List(order: seq<string>) returns (items: seq<ImageItem>)
      ensures items == ListImages(files, order)
    {
      var _ := EnsureStorageDir();
      items := ListImages(files, order);
    }
  }

  // ---------------------------------------------------------------------
  // Operations together

  /**
   * A saved image is listed, under its id and url, with the creation time
   * of its entry: the time the filesystem stamped when the id is new.
   */
  lemma SaveThenList(dir: Directory, file: UploadFile, maxBytes: int, nowMs: nat, uuid: string, fsTimeMs: int,
                     order: seq<string>)
    requires WellFormed(dir) && IsUuid(uuid)
    requires var (r, dir') := SaveOutcome(dir, file, maxBytes, nowMs, uuid, fsTimeMs); EnumeratesKeys(dir', order)
    ensures var (r, dir') := SaveOutcome(dir, file, maxBytes, nowMs, uuid, fsTimeMs);
      var items := ListImages(dir', order);
      && (r.Ok? ==>
            exists i :: 0 <= i < |items| && items[i] == ImageItem(r.value.id, r.value.url, Timestamp(CreatedMs(dir'[r.value.id]))))
      && (r.Ok? && r.value.id !in dir ==>
            exists i :: 0 <= i < |items| && items[i] == ImageItem(r.value.id, r.value.url, Timestamp(fsTimeMs)))
  {
    var (r, dir') := SaveOutcome(dir, file, maxBytes, nowMs, uuid, fsTimeMs);
    if r.Ok? {
      SaveOutcomeSpec(dir, file, maxBytes, nowMs, uuid, fsTimeMs);
      GeneratedIdIsSafe(nowMs, uuid, ValidateUpload(file, maxBytes).value);
      ListImagesComplete(dir', order);
      ListImagesDescribes(dir', order);
      assert IsListable(dir', r.value.id);
    }
  }

  /** In a listing sorted newest first, an item strictly newer than all others is the first. */
  lemma NewestIsFirst(items: seq<ImageItem>, i: nat, t: int)
    requires i < |items| && items[i].createdAt.ms == t
    requires forall j :: 0 <= j < |items| && items[j].id != items[i].id ==> items[j].createdAt.ms < t
    requires forall j, k :: 0 <= j < k < |items| ==> items[j].createdAt.ms >= items[k].createdAt.ms
    ensures items[0].id == items[i].id
  {
    if i > 0 {
      assert items[0].createdAt.ms >= t;
    }
  }

  /**
   * A saved image under a new id, stamped later than every file already
   * there, comes first in the listing.
   */
  lemma SaveNewestFirst(dir: Directory, file: UploadFile, maxBytes: int, nowMs: nat, uuid: string, fsTimeMs: int,
                        order: seq<string>)
    requires WellFormed(dir) && IsUuid(uuid)
    requires var (r, dir') := SaveOutcome(dir, file, maxBytes, nowMs, uuid, fsTimeMs); EnumeratesKeys(dir', order)
    requires forall n :: n in dir && dir[n].isFile ==> CreatedMs(dir[n]) < fsTimeMs
    ensures var (r, dir') := SaveOutcome(dir, file, maxBytes, nowMs, uuid, fsTimeMs);
      var items := ListImages(dir', order);
      r.Ok? && r.value.id !in dir ==> |items| > 0 && items[0].id == r.value.id
  {
    var (r, dir') := SaveOutcome(dir, file, maxBytes, nowMs, uuid, fsTimeMs);
    if r.Ok? && r.value.id !in dir {
      SaveThenList(dir, file, maxBytes, nowMs, uuid, fsTimeMs, order);
      SaveOutcomeSpec(dir, file, maxBytes, nowMs, uuid, fsTimeMs);
      var names := ListableNames(dir', order);
      ListableNamesAreFiles(dir', order);
      NewestWriteIsFirst(dir, dir', names, ImageItem(r.value.id, r.value.url, Timestamp(fsTimeMs)));
    }
  }

  /** The names the filters keep are regular files of the directory. */
  lemma ListableNamesAreFiles(dir: Directory, order: seq<string>)
    ensures var names := ListableNames(dir, order);
      forall k :: 0 <= k < |names| ==> names[k] in dir && dir[names[k]].isFile
  {
    var names := ListableNames(dir, order);
    assert forall k :: 0 <= k < |names| ==> names[k] in names;
  }

  lemma NewestWriteIsFirst(dir: Directory, dir': Directory, names: seq<string>, item: ImageItem)
    requires NoDuplicates(names) && forall k :: 0 <= k < |names| ==> names[k] in dir' && dir'[names[k]].isFile
    requires item in ListNames(dir', names)
    requires forall n :: n in dir' && n != item.id ==> n in dir && dir'[n] == dir[n]
    requires forall n :: n in dir && dir[n].isFile ==> CreatedMs(dir[n]) < item.createdAt.ms
    ensures |ListNames(dir', names)| > 0 && ListNames(dir', names)[0].id == item.id
  {
    ListNamesDescribes(dir', names);
    ListNamesOrdered(dir', names);
    var items := ListNames(dir', names);
    var i :| 0 <= i < |items| && items[i] == item;
    forall j | 0 <= j < |items| && items[j].id != items[i].id ensures items[j].createdAt.ms < item.createdAt.ms {
      var n := items[j].id;
      var k :| 0 <= k < |names| && names[k] == n;
    }
    NewestIsFirst(items, i, item.createdAt.ms);
  }

  /** After a successful delete the id is no longer listed; a failed one changes nothing. */
  lemma DeleteThenList(dir: Directory, id: string, order: seq<string>)
    requires WellFormed(dir)
    requires var (removed, dir') := DeleteOutcome(dir, id); EnumeratesKeys(dir', order)
    ensures var (removed, dir') := DeleteOutcome(dir, id);
      var items := ListImages(dir', order);
      && (forall i :: 0 <= i < |items| ==> items[i].id != id)
      && (!removed ==> items == ListImages(dir, order))
  {
    var (removed, dir') := DeleteOutcome(dir, id);
    DeleteOutcomeSpec(dir, id);
    ListImagesDescribes(dir', order);
    var items := ListImages(dir', order);
    if !removed && id in dir && dir[id].isFile && HasAllowedExtension(id) {
      // a listable id has no `/`, so the guard would have let it through
      BasenameFixedIff(id);
      assert false;
    }
    forall i | 0 <= i < |items| ensures items[i].id != id {
      assert IsListable(dir', items[i].id);
    }
  }
}
