/** `getImageUrl` of lib/api/albumService.ts: turn the image path an album
    stores into a URL the browser can load. Full URLs (images hosted on a CDN)
    are kept; local paths are prefixed with the API's base URL. */
module Album {
  import opened Wrappers
  import opened Strings

  /** The base URL used when `NEXT_PUBLIC_API_URL` is not set. */
  const DefaultApiUrl: string := "http://localhost:4000"

  /** `process.env.NEXT_PUBLIC_API_URL || 'http://localhost:4000'`: the
      base URL of the shared API client, read from the environment. */
  function ApiUrl(env: Option<string>): string
  {
    match env
    case None => DefaultApiUrl
    case Some(url) => if url == "" then DefaultApiUrl else url
  }

  /** A URL with an `http://` or `https://` scheme. */
  predicate IsAbsolute(s: string)
  {
    StartsWith(s, "http://") || StartsWith(s, "https://")
  }

  /** `getImageUrl(relativePath)`, with `apiClient.getBaseUrl()` as `baseUrl`. */
  function ImageUrl(baseUrl: string, path: string): string
  {
    if path == "" then ""
    else if IsAbsolute(path) then path
    else baseUrl + path
  }

  /** A prefix of a string is a prefix of any extension of it. */
  lemma StartsWithAppend(s: string, p: string, t: string)
    requires StartsWith(s, p)
    ensures StartsWith(s + t, p)
  {
    assert (s + t)[..|p|] == s[..|p|];
  }

  /** An empty path gives an empty URL; a full URL is kept as it is; any
      other path is appended to the base URL. So a result is empty exactly
      when the path is, and every other result ends with the path. */
  lemma ImageUrlSpec(baseUrl: string, path: string)
    ensures ImageUrl(baseUrl, path) == "" <==> path == ""
    ensures IsAbsolute(path) ==> ImageUrl(baseUrl, path) == path
    ensures path != "" && !IsAbsolute(path) ==> ImageUrl(baseUrl, path) == baseUrl + path
    ensures var r := ImageUrl(baseUrl, path);
      |r| >= |path| && r[|r| - |path|..] == path
  {
  }

  /** With a base URL that is itself a full URL, every non-empty result is a
      full URL, so resolving a resolved URL changes nothing. */
  lemma ImageUrlIdempotent(baseUrl: string, path: string)
    requires IsAbsolute(baseUrl)
    ensures path != "" ==> IsAbsolute(ImageUrl(baseUrl, path))
    ensures ImageUrl(baseUrl, ImageUrl(baseUrl, path)) == ImageUrl(baseUrl, path)
  {
    if path != "" && !IsAbsolute(path) {
      if StartsWith(baseUrl, "http://") {
        StartsWithAppend(baseUrl, "http://", path);
      } else {
        StartsWithAppend(baseUrl, "https://", path);
      }
    }
  }

  /** The default base URL is a full URL, and so is the configured one when
      the environment holds a full URL; with either, resolution is idempotent. */
  lemma ApiUrlAbsolute(env: Option<string>, path: string)
    requires env.Some? && env.value != "" ==> IsAbsolute(env.value)
    ensures IsAbsolute(ApiUrl(env))
    ensures ImageUrl(ApiUrl(env), ImageUrl(ApiUrl(env), path)) == ImageUrl(ApiUrl(env), path)
  {
    assert DefaultApiUrl[..7] == "http://";
    ImageUrlIdempotent(ApiUrl(env), path);
  }
}
