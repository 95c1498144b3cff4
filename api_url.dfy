/**
 * Building request URLs for the site's backend: the configured base URL
 * loses one trailing slash, and a request path is joined onto it with
 * exactly one `/` at the seam when the path does not bring its own.
 */
module ApiUrl {
  import opened JsText

  const DefaultApiBaseUrl: string := "https://api.govividmedia.70-60.com"

  /** `url.replace(/\/$/, '')`: drops one trailing slash, if there is one. */
  function SanitizeBaseUrl(url: string): (r: string)
    ensures EndsWith(url, "/") ==> r + "/" == url
    ensures !EndsWith(url, "/") ==> r == url
  {
    if |url| > 0 && url[|url| - 1] == '/' then url[..|url| - 1] else url
  }

  /** Sanitizing twice changes the result exactly when the url ends in two slashes. */
  lemma SanitizeRemovesOneSlash(url: string)
    ensures SanitizeBaseUrl(SanitizeBaseUrl(url)) == SanitizeBaseUrl(url)
            <==> !EndsWith(url, "//")
  {
    if EndsWith(url, "//") {
      assert SanitizeBaseUrl(url) == url[..|url| - 1];
      assert EndsWith(SanitizeBaseUrl(url), "/");
    } else if EndsWith(url, "/") {
      var r := SanitizeBaseUrl(url);
      assert r == url[..|url| - 1];
      assert |r| > 0 ==> r[|r| - 1] == url[|url| - 2];
    }
  }

  /**
   * The base URL taken from the build environment value `VITE_API_BASE_URL`
   * (`None` when it is not set).
   */
  function ResolveBaseUrl(envValue: Option<string>): (r: string)
    ensures (envValue.None? || IsBlank(envValue.value)) ==> r == DefaultApiBaseUrl
    ensures envValue.Some? && !IsBlank(envValue.value) ==> r == SanitizeBaseUrl(envValue.value)
  {
    if Truthy(envValue) && !IsBlank(envValue.value) then SanitizeBaseUrl(envValue.value)
    else SanitizeBaseUrl(DefaultApiBaseUrl)
  }

  /** A base resolved from an unset or blank value, or from a value not ending in `//`, has no trailing slash. */
  lemma ResolvedBaseHasNoTrailingSlash(envValue: Option<string>)
    requires envValue.Some? ==> !EndsWith(envValue.value, "//") || IsBlank(envValue.value)
    ensures !EndsWith(ResolveBaseUrl(envValue), "/")
  {
    if envValue.Some? && !IsBlank(envValue.value) {
      var v := envValue.value;
      if EndsWith(v, "/") {
        var r := SanitizeBaseUrl(v);
        assert r == v[..|v| - 1];
        assert |r| > 0 ==> r[|r| - 1] == v[|v| - 2];
      }
    }
  }

  /** `buildApiUrl(path)` against the resolved base `base`. */
  function BuildApiUrl(base: string, path: string): (r: string)
    ensures path == "" || path == "/" ==> r == base
    ensures path != "" && path != "/" && StartsWith(path, "/") ==> r == base + path
    ensures path != "" && !StartsWith(path, "/") ==> r == base + "/" + path
  {
    if path == "" || path == "/" then base
    else base + (if StartsWith(path, "/") then path else "/" + path)
  }

  /**
   * The result always starts with the base; for any path other than `''` and
   * `'/'` the character right after the base is a slash, and what follows the
   * base is the path with exactly one leading slash added when it had none.
   */
  lemma BuildApiUrlShape(base: string, path: string)
    ensures StartsWith(BuildApiUrl(base, path), base)
    ensures path != "" && path != "/" ==>
      var r := BuildApiUrl(base, path);
      |r| > |base| && r[|base|] == '/'
      && (if path[0] == '/' then r[|base|..] == path else r[|base| + 1..] == path)
  {
    var r := BuildApiUrl(base, path);
    assert r[..|base|] == base;
    if path != "" && path != "/" {
      if path[0] == '/' {
        assert r == base + path;
        assert r[|base|..] == path;
      } else {
        assert r == base + ("/" + path);
        assert r[|base| + 1..] == path;
      }
    }
  }

  /** Adding the missing leading slash to a path does not change the URL. */
  lemma BuildApiUrlLeadingSlashIrrelevant(base: string, path: string)
    requires !StartsWith(path, "/")
    ensures BuildApiUrl(base, "/" + path) == BuildApiUrl(base, path)
  {
    if path == "" {
      assert "/" + path == "/";
    } else {
      assert StartsWith("/" + path, "/");
      assert ("/" + path) != "/";
    }
  }
}
