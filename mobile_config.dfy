/**
 * The mobile app's build-time settings: the server's base url and the
 * upload token, taken from the Expo `extra` block with defaults.
 */
module MobileConfig {
  import opened Wrappers

  const DefaultBaseUrl: string := "https://kisscam.fzdomain.cloud"

  /** The `extra` block of the Expo configuration (absent fields are `None`). */
  datatype Extra = Extra(kisscamBaseUrl: Option<string>, uploadToken: Option<string>)

  datatype AppConfig = AppConfig(kisscamBaseUrl: string, uploadToken: string)

  /**
   * `url.replace(/\/+$/, "")`: drops the trailing run of `/` and nothing
   * else, so the result is a prefix of `url`, everything removed is `/`,
   * and the result does not end in `/`.
   */
  function TrimSlash(url: string): (r: string)
    ensures |r| <= |url| && r == url[..|r|]
    ensures forall i :: |r| <= i < |url| ==> url[i] == '/'
    ensures r == [] || r[|r| - 1] != '/'
  {
    if url != [] && url[|url| - 1] == '/' then TrimSlash(url[..|url| - 1]) else url
  }

  /** A url that does not end in `/` is left as it is. */
  lemma TrimSlashKeeps(url: string)
    requires url == [] || url[|url| - 1] != '/'
    ensures TrimSlash(url) == url
  {
  }

  /** Trimming twice is trimming once. */
  lemma TrimSlashIdempotent(url: string)
    ensures TrimSlash(TrimSlash(url)) == TrimSlash(url)
  {
    TrimSlashKeeps(TrimSlash(url));
  }

  /** Trimming a url followed by any number of `/` gives the trimmed url. */
  lemma {:induction false} TrimSlashAppended(url: string, n: nat)
    ensures TrimSlash(url + seq(n, _ => '/')) == TrimSlash(url)
  {
    if n > 0 {
      var s := url + seq(n, _ => '/');
      assert s[..|s| - 1] == url + seq(n - 1, _ => '/');
      TrimSlashAppended(url, n - 1);
    } else {
      assert url + seq(0, _ => '/') == url;
    }
  }

  /** `value || fallback` on an optional string: absent and empty both give the fallback. */
  function OrDefault(value: Option<string>, fallback: string): (r: string)
    ensures value.None? || value.value == "" ==> r == fallback
    ensures value.Some? && value.value != "" ==> r == value.value
  {
    if value.Some? && value.value != "" then value.value else fallback
  }

  /**
   * `appConfig`: the base url is the configured one or the default, with
   * its trailing slashes removed; the token is the configured one or "".
   */
  function AppConfigFrom(extra: Extra): (c: AppConfig)
    ensures extra.kisscamBaseUrl.None? || extra.kisscamBaseUrl.value == "" ==> c.kisscamBaseUrl == DefaultBaseUrl
    ensures extra.kisscamBaseUrl.Some? && extra.kisscamBaseUrl.value != "" ==>
              c.kisscamBaseUrl == TrimSlash(extra.kisscamBaseUrl.value)
    ensures c.kisscamBaseUrl == [] || c.kisscamBaseUrl[|c.kisscamBaseUrl| - 1] != '/'
    ensures extra.uploadToken.None? || extra.uploadToken.value == "" ==> c.uploadToken == ""
    ensures extra.uploadToken.Some? && extra.uploadToken.value != "" ==> c.uploadToken == extra.uploadToken.value
  {
    TrimSlashKeeps(DefaultBaseUrl);
    AppConfig(TrimSlash(OrDefault(extra.kisscamBaseUrl, DefaultBaseUrl)), OrDefault(extra.uploadToken, ""))
  }
}
