/** The Strapi origin and API URL the single-page app talks to
    (src/constants.js). The environment value `VITE_STRAPI_BASE_URL` is a
    parameter; `None` is an unset variable. */
module Constants {
  import opened Text
  import opened JsonValues

  const DefaultBaseUrl := "http://localhost:1337"

  predicate AllSlashes(s: string) {
    forall i | 0 <= i < |s| :: s[i] == '/'
  }

  /** `value?.replace(/\/+$/, '') || null`. */
  function StripTrailingSlash(value: Option<string>): (r: Option<string>)
    // the result never ends with a slash
    ensures r.Some? ==> r.value != "" && r.value[|r.value| - 1] != '/'
    // it is the input less its maximal trailing run of slashes
    ensures r.Some? ==> value.Some? && StartsWith(value.value, r.value)
                        && AllSlashes(value.value[|r.value|..])
    // null for a missing, empty or all-slash input
    ensures r.None? <==> (value.None? || AllSlashes(value.value))
  {
    match value
    case None => None
    case Some(s) =>
      var t := DropTrailingSlashes(s);
      if t == "" then None else Some(t)
  }

  lemma StripTrailingSlashIdempotent(value: Option<string>)
    ensures StripTrailingSlash(StripTrailingSlash(value)) == StripTrailingSlash(value)
  {
  }

  /** `STRAPI_BASE_URL`. */
  function BaseUrl(env: Option<string>): (r: string)
    ensures r != "" && r[|r| - 1] != '/'
    ensures StripTrailingSlash(env).Some? ==> r == StripTrailingSlash(env).value
    ensures StripTrailingSlash(env).None? ==> r == DefaultBaseUrl
  {
    match StripTrailingSlash(env)
    case Some(u) => u
    case None => DefaultBaseUrl
  }

  /** `STRAPI_API_URL`: the base URL followed by `/api`, with exactly one slash
      between them however many the environment value ended with. */
  function ApiUrl(env: Option<string>): (r: string)
    ensures r == BaseUrl(env) + "/api"
    ensures r[|r| - 5] != '/'
  {
    BaseUrl(env) + "/api"
  }
}
