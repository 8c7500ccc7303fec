/** Media URL resolution (`resolveMediaUrl` in src/utils/media.js): maps a
    media reference (a string, a flat object or a nested Strapi object) to the
    URL the browser loads. The build-mode flag `import.meta.env.DEV` is the
    parameter `isDev`. */
module Media {
  import opened Text
  import opened JsonValues

  const StrapiBaseUrl := "http://localhost:1337"

  /** `media.url || media?.attributes?.url || media?.data?.attributes?.url`:
      the first truthy candidate, or the last one when none is truthy. */
  function ObjectUrl(media: Json): (u: Json)
    ensures Truthy(Get(media, "url")) ==> u == Get(media, "url")
    ensures !Truthy(Get(media, "url")) && Truthy(Get(Get(media, "attributes"), "url"))
            ==> u == Get(Get(media, "attributes"), "url")
    ensures !Truthy(Get(media, "url")) && !Truthy(Get(Get(media, "attributes"), "url"))
            ==> u == Get(Get(Get(media, "data"), "attributes"), "url")
  {
    Or(Or(Get(media, "url"), Get(Get(media, "attributes"), "url")),
       Get(Get(Get(media, "data"), "attributes"), "url"))
  }

  /** The rules for a bare string reference. */
  function ResolveString(s: string, isDev: bool): string {
    if StartsWith(s, "http") then s
    else if isDev && StartsWith(s, "/uploads/") then StrapiBaseUrl + s
    else if StartsWith(s, "/") then s
    else "/images/" + LastSegment(s)
  }

  /** The rules for a URL taken out of an object reference: only paths under
      `/images/` (already optimised) are kept as they are. */
  function ResolveObjectUrl(url: string, isDev: bool): string {
    if StartsWith(url, "http") then url
    else if isDev && StartsWith(url, "/uploads/") then StrapiBaseUrl + url
    else if StartsWith(url, "/images/") then url
    else "/images/" + LastSegment(url)
  }

  /** `resolveMediaUrl(media)`; `None` is the JavaScript `null`. */
  function ResolveMediaUrl(media: Json, isDev: bool): (r: Option<string>)
    // a null, absent or otherwise falsy reference resolves to null
    ensures !Truthy(media) ==> r == None
    // an object without any URL candidate resolves to null
    ensures Truthy(media) && !media.Str? ==> (r == None <==> TextOf(ObjectUrl(media)) == "")
    // every result is a full URL or a root-relative path
    ensures r.Some? ==> StartsWith(r.value, "http") || StartsWith(r.value, "/")
  {
    if !Truthy(media) then None
    else if media.Str? then Some(ResolveString(media.s, isDev))
    else
      var url := TextOf(ObjectUrl(media));
      if url == "" then None else Some(ResolveObjectUrl(url, isDev))
  }

  /** Idempotence: every non-null result, fed back in as a string in the
      same mode, resolves to itself. */
  lemma ResolveIdempotent(media: Json, isDev: bool)
    requires ResolveMediaUrl(media, isDev).Some?
    ensures ResolveMediaUrl(Str(ResolveMediaUrl(media, isDev).value), isDev) == ResolveMediaUrl(media, isDev)
  {
    var r := ResolveMediaUrl(media, isDev).value;
    if StartsWith(r, "http") {
    } else if StartsWith(r, "/images/") {
      ImagesPathIsFixed(r, isDev);
    } else {
      // only a bare root-relative string can come back outside /images/
      assert media.Str? && r == media.s && StartsWith(r, "/");
    }
  }

  lemma ImagesPathIsFixed(t: string, isDev: bool)
    requires StartsWith(t, "/images/")
    ensures ResolveString(t, isDev) == t
  {
    assert t[0] == '/' && t[1] == 'i';
  }

  /** A reference that already is a full URL comes back unchanged, in both
      modes, whether given as a string or inside an object. */
  lemma FullUrlUnchanged(media: Json, isDev: bool)
    requires media.Str? ==> StartsWith(media.s, "http")
    requires !media.Str? ==> Truthy(media) && ObjectUrl(media).Str? && StartsWith(ObjectUrl(media).s, "http")
    ensures ResolveMediaUrl(media, isDev) == Some(if media.Str? then media.s else ObjectUrl(media).s)
  {
  }

  /** Strapi upload paths point at the local Strapi server in development
      only. In production a bare `/uploads/…` string is kept as a root path,
      while the same path inside an object is moved to `/images/<file>`. */
  lemma UploadsPaths(path: string)
    requires StartsWith(path, "/uploads/")
    ensures ResolveMediaUrl(Str(path), true) == Some(StrapiBaseUrl + path)
    ensures ResolveMediaUrl(Obj(map["url" := Str(path)]), true) == Some(StrapiBaseUrl + path)
    ensures ResolveMediaUrl(Str(path), false) == Some(path)
    ensures ResolveMediaUrl(Obj(map["url" := Str(path)]), false) == Some("/images/" + LastSegment(path))
  {
    assert path[..4] == "/upl";
    assert !StartsWith(path, "http") by { assert path[0] != "http"[0]; }
    assert !StartsWith(path, "/images/") by { assert path[1] != "/images/"[1]; }
  }

  /** A root-relative string is kept as it is, but an object URL is kept only
      under `/images/`; anything else becomes `/images/` plus its last
      `/`-separated segment. */
  lemma RootPathRules(path: string, isDev: bool)
    requires StartsWith(path, "/") && !StartsWith(path, "/uploads/")
    ensures ResolveMediaUrl(Str(path), isDev) == Some(path)
    ensures ResolveMediaUrl(Obj(map["url" := Str(path)]), isDev)
            == Some(if StartsWith(path, "/images/") then path else "/images/" + LastSegment(path))
  {
    assert !StartsWith(path, "http") by { assert path[0] != "http"[0]; }
  }

  /** A relative name without a leading slash, in either shape, ends up in the
      local images folder under its last segment. */
  lemma RelativeNameRule(name: string, isDev: bool)
    requires name != "" && name[0] != '/' && !StartsWith(name, "http")
    ensures ResolveMediaUrl(Str(name), isDev) == Some("/images/" + LastSegment(name))
    ensures ResolveMediaUrl(Obj(map["url" := Str(name)]), isDev) == Some("/images/" + LastSegment(name))
  {
    RelativeNameResolves(name, isDev);
    var m := Obj(map["url" := Str(name)]);
    assert ObjectUrl(m) == Str(name);
  }

  lemma RelativeNameResolves(name: string, isDev: bool)
    requires name != "" && name[0] != '/' && !StartsWith(name, "http")
    ensures ResolveString(name, isDev) == "/images/" + LastSegment(name)
    ensures ResolveObjectUrl(name, isDev) == "/images/" + LastSegment(name)
  {
    assert !StartsWith(name, "/") && !StartsWith(name, "/uploads/") && !StartsWith(name, "/images/") by {
      assert name[0] != '/';
    }
  }
}
