/**
 * The server's environment settings: where images are stored and how
 * large an upload may be.
 */
module WebConfig {
  import opened Wrappers
  import opened Text

  const DefaultStorageDir: string := "/app/data/images"

  /** The value `MAX_UPLOAD_MB` stands for when it is absent (`Number("15")`). */
  const DefaultMaxUploadMb: real := 15.0

  const BytesPerMb: int := 1024 * 1024

  /**
   * The result of JavaScript's `Number(...)` on the `MAX_UPLOAD_MB` string:
   * `NaN` and the infinities are `NotFinite`.
   */
  datatype JsNumber = NotFinite | Finite(value: real)

  /**
   * `STORAGE_DIR?.trim() || DEFAULT_STORAGE_DIR`: an absent or
   * whitespace-only value gives the default, anything else its trimmed
   * form, which is never empty and neither starts nor ends with whitespace.
   */
  function StorageDirFromEnv(storageDir: Option<string>): (r: string)
    ensures r != []
    ensures storageDir.None? || (forall i :: 0 <= i < |storageDir.value| ==> IsJsWhitespace(storageDir.value[i]))
            ==> r == DefaultStorageDir
    ensures storageDir.Some? && (exists i :: 0 <= i < |storageDir.value| && !IsJsWhitespace(storageDir.value[i]))
            ==> r == Trim(storageDir.value) && !IsJsWhitespace(r[0]) && !IsJsWhitespace(r[|r| - 1])
  {
    if storageDir.None? then DefaultStorageDir
    else
      TrimSpec(storageDir.value);
      var trimmed := Trim(storageDir.value);
      if trimmed != "" then trimmed else DefaultStorageDir
  }

  /**
   * `getMaxUploadMbFromEnv`: an absent setting means 15; a setting that is
   * not finite or not positive is replaced by 15; so the limit is always
   * positive, and a positive finite setting is kept as it is.
   */
  function MaxUploadMb(setting: Option<JsNumber>): (r: real)
    ensures r > 0.0
    ensures setting.None? ==> r == DefaultMaxUploadMb
    ensures setting == Some(NotFinite) ==> r == DefaultMaxUploadMb
    ensures setting.Some? && setting.value.Finite? ==>
              r == (if setting.value.value > 0.0 then setting.value.value else DefaultMaxUploadMb)
  {
    var parsed := if setting.Some? then setting.value else Finite(DefaultMaxUploadMb);
    if !parsed.Finite? || parsed.value <= 0.0 then DefaultMaxUploadMb else parsed.value
  }

  /**
   * `getMaxUploadBytesFromEnv`: the limit in whole bytes, the largest
   * integer not above the limit in MB times 1024 * 1024.
   */
  function MaxUploadBytes(setting: Option<JsNumber>): (r: int)
    ensures r >= 0
    ensures r as real <= MaxUploadMb(setting) * BytesPerMb as real < r as real + 1.0
  {
    (MaxUploadMb(setting) * BytesPerMb as real).Floor
  }

  /** With no setting the limit is 15 MB, that is 15728640 bytes. */
  lemma DefaultMaxUploadBytes()
    ensures MaxUploadBytes(None) == 15728640
  {
    assert MaxUploadMb(None) * BytesPerMb as real == 15728640.0;
  }
}
