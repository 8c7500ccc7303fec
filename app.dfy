/** The single-page shell (src/App.jsx): how fetched pages are normalised,
    how a page's slug is read, which page a URL path selects, and the path
    pushed when a page is selected. The fetches, `decodeURIComponent`, the
    history API and the DOM stay outside: their results come in as
    parameters and the pushed path goes out as a result. */
module App {
  import opened Text
  import opened JsonValues

  /** `normalizePage(page)`: `null` for a falsy page, the page itself when
      it has no `attributes`, otherwise `{id, ...attributes}`. */
  function NormalizePage(page: Json): (r: Json)
    ensures !Truthy(page) ==> r == Null
    ensures Truthy(page) ==> Truthy(r)
    ensures Truthy(page) && !Truthy(Get(page, "attributes")) ==> r == page
    ensures Truthy(page) && Truthy(Get(page, "attributes")) ==>
              var attributes := SpreadFields(Get(page, "attributes"));
              r.Obj? && r.fields.Keys == attributes.Keys + {"id"}
              && (forall k | k in attributes :: r.fields[k] == attributes[k])
              && ("id" !in attributes ==> r.fields["id"] == Get(page, "id"))
  {
    if !Truthy(page) then Null
    else if !Truthy(Get(page, "attributes")) then page
    else Obj(map["id" := Get(page, "id")] + SpreadFields(Get(page, "attributes")))
  }

  /** A page in the Strapi shape: no attributes, or an object of them that
      does not itself nest `attributes`. */
  predicate StrapiShaped(page: Json) {
    var attributes := Get(page, "attributes");
    !Truthy(attributes) || (attributes.Obj? && !Truthy(Get(attributes, "attributes")))
  }

  /** Normalising a Strapi-shaped page twice is normalising it once, so the
      second `normalizePage` of `loadPageFromURL`, applied to an already
      normalised page, changes nothing. */
  lemma NormalizeIdempotent(page: Json)
    requires StrapiShaped(page)
    ensures NormalizePage(NormalizePage(page)) == NormalizePage(page)
  {
    if Truthy(page) && Truthy(Get(page, "attributes")) {
      var r := NormalizePage(page);
      assert Get(r, "attributes") == Get(Get(page, "attributes"), "attributes");
    }
  }

  /** `getPageSlug(page)`: the page's own `slug`, else `attributes.slug`,
      else the empty string. */
  function GetPageSlug(page: Json): (r: string)
    ensures !Truthy(page) ==> r == ""
    ensures Truthy(page) && Truthy(Get(page, "slug")) ==> r == TextOf(Get(page, "slug"))
    ensures Truthy(page) && !Truthy(Get(page, "slug")) ==> r == TextOf(Get(Get(page, "attributes"), "slug"))
  {
    if !Truthy(page) then ""
    else if Truthy(Get(page, "slug")) then TextOf(Get(page, "slug"))
    else TextOf(Or(Get(Get(page, "attributes"), "slug"), Str("")))
  }

  /** Normalisation keeps the slug of a Strapi-shaped page that has no slug
      of its own: the slug moves from `attributes` to the top level. */
  lemma NormalizeKeepsSlug(page: Json)
    requires StrapiShaped(page) && !Truthy(Get(page, "slug"))
    ensures GetPageSlug(NormalizePage(page)) == GetPageSlug(page)
  {
    if Truthy(page) && Truthy(Get(page, "attributes")) {
      var r := NormalizePage(page);
      assert Get(r, "slug") == Get(Get(page, "attributes"), "slug");
      assert Get(r, "attributes") == Get(Get(page, "attributes"), "attributes");
    }
  }

  /** The page list of the fetch effect: `(pagesData?.data || []).map(normalizePage)`.
      `None` is the case where `data` is truthy but not an array, so `map`
      throws and the effect's `catch` leaves the state alone. */
  function LoadedPages(pagesData: Json): (r: Option<seq<Json>>)
    ensures r.Some? <==> !Truthy(Get(pagesData, "data")) || Get(pagesData, "data").Arr?
    ensures !Truthy(Get(pagesData, "data")) ==> r.Some? && |r.value| == 0
    ensures Get(pagesData, "data").Arr? ==>
              var raw := Get(pagesData, "data").items;
              r.Some? && |r.value| == |raw| && forall i | 0 <= i < |raw| :: r.value[i] == NormalizePage(raw[i])
  {
    var raw := Or(Get(pagesData, "data"), Arr([]));
    if raw.Arr? then Some(seq(|raw.items|, i requires 0 <= i < |raw.items| => NormalizePage(raw.items[i])))
    else None
  }

  /** The site settings of the fetch effect: `null` exactly when the site
      record has no truthy `data`. */
  function SiteSettings(siteData: Json): (r: Json)
    ensures r == Null <==> !Truthy(Get(siteData, "data"))
    ensures Truthy(Get(siteData, "data")) ==> r == NormalizePage(Get(siteData, "data"))
  {
    if Truthy(Get(siteData, "data")) then NormalizePage(Get(siteData, "data")) else Null
  }

  /** The slug `loadPageFromURL` reads from a path: the path less its first
      character, decoded by `decode` (standing for `decodeURIComponent`),
      lower-cased. */
  function UrlSlug(pathname: string, decode: string -> string): string {
    Lower(decode(if |pathname| >= 1 then pathname[1..] else ""))
  }

  /** `pages.find(...)`: the first page whose lower-cased slug is `slug`. */
  function FindBySlug(pages: seq<Json>, slug: string): (r: Option<nat>)
    ensures r.Some? ==> r.value < |pages| && Lower(GetPageSlug(pages[r.value])) == slug
                        && forall j | 0 <= j < r.value :: Lower(GetPageSlug(pages[j])) != slug
    ensures r.None? ==> forall j | 0 <= j < |pages| :: Lower(GetPageSlug(pages[j])) != slug
  {
    if pages == [] then None
    else if Lower(GetPageSlug(pages[0])) == slug then Some(0)
    else
      match FindBySlug(pages[1..], slug)
      case None => None
      case Some(i) => Some(i + 1)
  }

  /** The page `loadPageFromURL` shows for `pathname`: the normalised first
      match of a non-empty slug; `None` is the index page. */
  function PageForPath(pages: seq<Json>, pathname: string, decode: string -> string): (r: Option<Json>)
    ensures UrlSlug(pathname, decode) == "" ==> r.None?
    ensures r.Some? <==> UrlSlug(pathname, decode) != "" && FindBySlug(pages, UrlSlug(pathname, decode)).Some?
  {
    var slug := UrlSlug(pathname, decode);
    if slug == "" then None
    else
      match FindBySlug(pages, slug)
      case Some(i) => Some(NormalizePage(pages[i]))
      case None => None
  }

  /** The path `handleSelectPage` pushes: `/` and the page's slug, or `/`
      alone when the slug is empty. */
  function SelectedPath(page: Json): (r: string)
    ensures |r| >= 1 && r[0] == '/'
    ensures r == "/" <==> GetPageSlug(page) == ""
    ensures r[1..] == GetPageSlug(page)
  {
    var slug := GetPageSlug(page);
    if slug != "" then "/" + slug else "/"
  }

  /** Selecting a listed page and then loading the pushed path finds a page
      with the same slug, up to case, no later in the list than the selected
      one; when no other page shares that slug, it is the selected page.
      `decode` must leave the slug as it is, which holds for a slug without
      `%` escapes. */
  lemma SelectedPathLoadsPage(pages: seq<Json>, k: nat, decode: string -> string)
    requires k < |pages| && GetPageSlug(pages[k]) != ""
    requires decode(GetPageSlug(pages[k])) == GetPageSlug(pages[k])
    ensures var slug := Lower(GetPageSlug(pages[k]));
            var found := FindBySlug(pages, slug);
            UrlSlug(SelectedPath(pages[k]), decode) == slug
            && found.Some? && found.value <= k
            && PageForPath(pages, SelectedPath(pages[k]), decode) == Some(NormalizePage(pages[found.value]))
    ensures (forall j | 0 <= j < |pages| && j != k :: Lower(GetPageSlug(pages[j])) != Lower(GetPageSlug(pages[k])))
            ==> PageForPath(pages, SelectedPath(pages[k]), decode) == Some(NormalizePage(pages[k]))
  {
    var slug := Lower(GetPageSlug(pages[k]));
    assert SelectedPath(pages[k])[1..] == GetPageSlug(pages[k]);
    assert slug != "";
  }

  /** The root path, and any path whose slug decodes to nothing, shows the
      index page. */
  lemma RootShowsIndex(pages: seq<Json>, decode: string -> string)
    requires decode("") == ""
    ensures PageForPath(pages, "/", decode).None?
    ensures PageForPath(pages, "", decode).None?
  {
    assert "/"[1..] == "";
  }

  /** The state `App` keeps. */
  class AppState {
    var pages: seq<Json>
    var currentPage: Json
    var isIndexPage: bool
    var siteSettings: Json
    var loading: bool

    /** The initial `useState` values. */
    constructor ()
      ensures pages == [] && currentPage == Null && !isIndexPage && siteSettings == Null && loading
    {
      pages, currentPage, isIndexPage, siteSettings, loading := [], Null, false, Null, true;
    }

    /** The fetch effect, given the parsed `pages.json` and `site.json`
        (`Null` when the site fetch failed). */
    method LoadContent(pagesData: Json, siteData: Json)
      modifies this
      ensures LoadedPages(pagesData).Some? ==>
                pages == LoadedPages(pagesData).value && siteSettings == SiteSettings(siteData)
      ensures LoadedPages(pagesData).None? ==> pages == old(pages) && siteSettings == old(siteSettings)
      ensures !loading
      ensures currentPage == old(currentPage) && isIndexPage == old(isIndexPage)
    {
      var rawPages := Or(Get(pagesData, "data"), Arr([]));
      if rawPages.Arr? {
        pages := seq(|rawPages.items|, i requires 0 <= i < |rawPages.items| => NormalizePage(rawPages.items[i]));
        if Truthy(Get(siteData, "data")) {
          siteSettings := NormalizePage(Get(siteData, "data"));
        } else {
          siteSettings := Null;
        }
      }
      loading := false;
    }

    /** `loadPageFromURL` for the current `pathname`; it runs only once
        pages are loaded. */
    method LoadPageFromUrl(pathname: string, decode: string -> string)
      modifies this
      ensures |old(pages)| == 0 ==> currentPage == old(currentPage) && isIndexPage == old(isIndexPage)
      ensures |old(pages)| > 0 ==>
                isIndexPage == PageForPath(pages, pathname, decode).None?
                && currentPage == (match PageForPath(pages, pathname, decode)
                                   case Some(page) => page
                                   case None => Null)
      ensures pages == old(pages) && siteSettings == old(siteSettings) && loading == old(loading)
    {
      if |pages| == 0 {
        return;
      }
      var slug := UrlSlug(pathname, decode);
      if slug != "" {
        var found := FindBySlug(pages, slug);
        if found.Some? {
          currentPage := NormalizePage(pages[found.value]);
          isIndexPage := false;
          return;
        }
      }
      currentPage := Null;
      isIndexPage := true;
    }

    /** `handleSelectPage(page)`: nothing for a falsy page; otherwise the
        normalised page is shown and the returned path is pushed. */
    method SelectPage(page: Json) returns (pushedPath: Option<string>)
      modifies this
      ensures !Truthy(page) ==> pushedPath.None? && currentPage == old(currentPage) && isIndexPage == old(isIndexPage)
      ensures Truthy(page) ==> pushedPath == Some(SelectedPath(page))
                               && currentPage == NormalizePage(page) && !isIndexPage
      ensures pages == old(pages) && siteSettings == old(siteSettings) && loading == old(loading)
    {
      if !Truthy(page) {
        return None;
      }
      currentPage := NormalizePage(page);
      isIndexPage := false;
      var slug := GetPageSlug(page);
      if slug != "" {
        pushedPath := Some("/" + slug);
      } else {
        pushedPath := Some("/");
      }
    }
  }
}
