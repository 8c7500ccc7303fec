/** The build-time export script (scripts/fetch-strapi-data.js): which image
    URLs it collects from the fetched pages and site record, the URL each is
    downloaded from and the file name it is saved under. The fetches and the
    file writes stay outside; the parsed responses come in as parameters. */
module FetchStrapiData {
  import opened Text
  import opened JsonValues
  import Media
  import Constants

  const DefaultBaseUrl := "http://localhost:1337"

  /** `STRAPI_BASE_URL`: the environment value when it is set and non-empty,
      kept as it is (no trailing slash is removed here). */
  function BaseUrl(env: Option<string>): (r: string)
    ensures r != ""
    ensures env.Some? && env.value != "" ==> r == env.value
    ensures env.None? || env.value == "" ==> r == DefaultBaseUrl
  {
    if env.Some? && env.value != "" then env.value else DefaultBaseUrl
  }

  /** `STRAPI_API_URL`. */
  function ApiUrl(env: Option<string>): (r: string)
    ensures r == BaseUrl(env) + "/api"
    ensures EndsWith(r, "/api") && StartsWith(r, BaseUrl(env))
  {
    BaseUrl(env) + "/api"
  }

  /** The script and the single-page app (src/constants.js) agree on the
      Strapi origin whenever the environment value does not end with `/`;
      only the app strips trailing slashes. */
  lemma BaseUrlsAgree(env: Option<string>)
    requires env.None? || env.value == "" || env.value[|env.value| - 1] != '/'
    ensures BaseUrl(env) == Constants.BaseUrl(env)
  {
    if env.Some? && env.value != "" {
      assert DropTrailingSlashes(env.value) == env.value;
    }
  }

  /** `extractImageUrl(media)`: `null` for a falsy reference, a string as it
      is, otherwise the first truthy of `url`, `attributes.url`,
      `data.attributes.url`, `formats.medium.url` and `formats.small.url`
      (the last of them when none is truthy). */
  function ExtractImageUrl(media: Json): (r: Json)
    ensures !Truthy(media) ==> r == Null
    ensures Truthy(media) && media.Str? ==> r == media
    ensures Truthy(media) && !media.Str? && Truthy(Media.ObjectUrl(media)) ==> r == Media.ObjectUrl(media)
    ensures Truthy(media) && !media.Str? && !Truthy(Media.ObjectUrl(media))
            ==> r == Or(Get(Get(Get(media, "formats"), "medium"), "url"), Get(Get(Get(media, "formats"), "small"), "url"))
  {
    if !Truthy(media) then Null
    else if media.Str? then media
    else
      var medium := Get(Get(Get(media, "formats"), "medium"), "url");
      var small := Get(Get(Get(media, "formats"), "small"), "url");
      Or(Or(Media.ObjectUrl(media), medium), small)
  }

  /** Where the script and the site's resolver (src/utils/media.js) read a
      URL out of the same reference, they read the same one: the script only
      adds the `formats` fallbacks. */
  lemma ExtractAgreesWithResolver(media: Json, isDev: bool)
    requires Truthy(media)
    requires media.Str? || (Media.ObjectUrl(media).Str? && Truthy(Media.ObjectUrl(media)))
    ensures ExtractImageUrl(media).Str? && Truthy(ExtractImageUrl(media))
    ensures Media.ResolveMediaUrl(media, isDev).Some?
    ensures !media.Str? ==> ExtractImageUrl(media) == Media.ObjectUrl(media)
  {
  }

  /** The image of a page or of the site record: `attributes.image` before
      `image`. */
  function PageImage(page: Json): (r: Json)
    ensures Truthy(Get(Get(page, "attributes"), "image")) ==> r == Get(Get(page, "attributes"), "image")
    ensures !Truthy(Get(Get(page, "attributes"), "image")) ==> r == Get(page, "image")
  {
    Or(Get(Get(page, "attributes"), "image"), Get(page, "image"))
  }

  /** `null` or `undefined`, on which reading a property throws. */
  predicate Nullish(j: Json) {
    j.Null? || j.Undefined?
  }

  /** What `for (const page of v)` visits: an array's elements or a
      string's characters; `None` for a value that is not iterable, where
      the loop throws. */
  function Iterated(v: Json): (r: Option<seq<Json>>)
    ensures v.Arr? ==> r == Some(v.items)
    ensures r.None? <==> !v.Arr? && !v.Str?
    ensures r.Some? ==> forall x | x in r.value :: !Nullish(x) || v.Arr?
  {
    match v
    case Arr(items) => Some(items)
    case Str(s) => Some(seq(|s|, i requires 0 <= i < |s| => Str([s[i]])))
    case _ => None
  }

  /** The truthy image URLs of `pages`, in order, duplicates included;
      `None` when a page is `null` or `undefined`, where the script throws. */
  function PageUrls(pages: seq<Json>): (r: Option<seq<Json>>)
    ensures r.None? <==> exists i | 0 <= i < |pages| :: Nullish(pages[i])
    ensures r.Some? ==> |r.value| <= |pages| && forall x | x in r.value :: Truthy(x)
  {
    if pages == [] then Some([])
    else
      var page := pages[|pages| - 1];
      match PageUrls(pages[..|pages| - 1])
      case None => assert Nullish(pages[..|pages| - 1][IndexOfNullish(pages[..|pages| - 1])]); None
      case Some(urls) =>
        if Nullish(page) then None
        else
          var url := ExtractImageUrl(PageImage(page));
          if Truthy(url) then Some(urls + [url]) else Some(urls)
  }

  /** An index of a nullish element, when there is one. */
  ghost function IndexOfNullish(pages: seq<Json>): (i: nat)
    requires exists i | 0 <= i < |pages| :: Nullish(pages[i])
    ensures i < |pages| && Nullish(pages[i])
  {
    var i :| 0 <= i < |pages| && Nullish(pages[i]); i
  }

  /** The candidate URLs in the order `downloadAllImages` meets them: the
      pages' (when `pages.data` is truthy), then the site record's (when
      `site.data` is truthy). `None` when the script throws first. */
  function CandidateUrls(data: Json): (r: Option<seq<Json>>)
    ensures r.Some? ==> forall x | x in r.value :: Truthy(x)
  {
    var pagesData := Get(Get(data, "pages"), "data");
    var fromPages :=
      if !Truthy(pagesData) then Some([])
      else match Iterated(pagesData)
           case None => None
           case Some(pages) => PageUrls(pages);
    match fromPages
    case None => None
    case Some(urls) =>
      var site := Get(Get(data, "site"), "data");
      var siteUrl := if Truthy(site) then ExtractImageUrl(PageImage(site)) else Null;
      if Truthy(siteUrl) then Some(urls + [siteUrl]) else Some(urls)
  }

  predicate Distinct(s: seq<Json>) {
    forall i, j | 0 <= i < j < |s| :: s[i] != s[j]
  }

  /** A `Set` filled from `s` in order: the first occurrence of each value. */
  function Dedup(s: seq<Json>): (r: seq<Json>)
    ensures forall x :: x in r <==> x in s
    ensures Distinct(r)
    ensures |r| <= |s|
  {
    if s == [] then []
    else
      var d := Dedup(s[..|s| - 1]);
      if s[|s| - 1] in d then d else d + [s[|s| - 1]]
  }

  lemma DedupSnoc(s: seq<Json>, x: Json)
    ensures Dedup(s + [x]) == if x in Dedup(s) then Dedup(s) else Dedup(s) + [x]
  {
    assert (s + [x])[..|s|] == s;
  }

  lemma PageUrlsSnoc(pages: seq<Json>, page: Json)
    ensures PageUrls(pages + [page]) ==
              match PageUrls(pages)
              case None => None
              case Some(urls) =>
                if Nullish(page) then None
                else if Truthy(ExtractImageUrl(PageImage(page))) then Some(urls + [ExtractImageUrl(PageImage(page))])
                else Some(urls)
  {
    assert (pages + [page])[..|pages|] == pages;
  }

  /** With no nullish page, the page URLs are exactly the truthy image URLs
      of the pages. */
  lemma {:induction false} PageUrlsMembers(pages: seq<Json>)
    requires forall i | 0 <= i < |pages| :: !Nullish(pages[i])
    ensures PageUrls(pages).Some?
    ensures forall x :: x in PageUrls(pages).value <==>
              Truthy(x) && exists i | 0 <= i < |pages| :: x == ExtractImageUrl(PageImage(pages[i]))
  {
    if pages != [] {
      var init := pages[..|pages| - 1];
      var page := pages[|pages| - 1];
      assert pages == init + [page];
      PageUrlsMembers(init);
      PageUrlsSnoc(init, page);
      forall x
        ensures x in PageUrls(pages).value <==>
                Truthy(x) && exists i | 0 <= i < |pages| :: x == ExtractImageUrl(PageImage(pages[i]))
      {
        if Truthy(x) && exists i | 0 <= i < |pages| :: x == ExtractImageUrl(PageImage(pages[i])) {
          var i :| 0 <= i < |pages| && x == ExtractImageUrl(PageImage(pages[i]));
          if i < |init| {
            assert init[i] == pages[i];
          }
        }
        if x in PageUrls(init).value {
          var i :| 0 <= i < |init| && x == ExtractImageUrl(PageImage(init[i]));
          assert pages[i] == init[i];
        }
      }
    }
  }

  /** A page without an image adds nothing to the download list. */
  lemma PageWithoutImageAddsNothing(pages: seq<Json>, page: Json)
    requires !Nullish(page) && !Truthy(PageImage(page))
    ensures PageUrls(pages + [page]) == PageUrls(pages)
  {
    PageUrlsSnoc(pages, page);
  }

  /** `downloadAllImages`' collection of `imagesToDownload`; `None` when it
      throws before downloading anything. */
  method CollectImageUrls(data: Json) returns (imagesToDownload: Option<seq<Json>>)
    ensures imagesToDownload == (match CandidateUrls(data)
                                 case None => None
                                 case Some(urls) => Some(Dedup(urls)))
    // each distinct truthy page or site image URL exactly once
    ensures imagesToDownload.Some? ==>
              Distinct(imagesToDownload.value)
              && (forall x :: x in imagesToDownload.value <==> x in CandidateUrls(data).value)
              && forall x | x in imagesToDownload.value :: Truthy(x)
  {
    var images: seq<Json> := [];
    ghost var urls: seq<Json> := [];
    var pagesData := Get(Get(data, "pages"), "data");
    if Truthy(pagesData) {
      var pages := Iterated(pagesData);
      if pages.None? {
        return None;
      }
      var fromPages := CollectPageUrls(pages.value);
      if fromPages.None? {
        return None;
      }
      images := fromPages.value;
      urls := PageUrls(pages.value).value;
    }
    var site := Get(Get(data, "site"), "data");
    if Truthy(site) {
      var url := ExtractImageUrl(PageImage(site));
      if Truthy(url) {
        DedupSnoc(urls, url);
        urls := urls + [url];
        if url !in images {
          images := images + [url];
        }
      }
    }
    assert CandidateUrls(data) == Some(urls);
    imagesToDownload := Some(images);
  }

  /** The page loop of `downloadAllImages`: each page's truthy image URL is
      added to the set in page order; a nullish page makes it throw. */
  method CollectPageUrls(pages: seq<Json>) returns (images: Option<seq<Json>>)
    ensures images == (match PageUrls(pages)
                       case None => None
                       case Some(urls) => Some(Dedup(urls)))
  {
    var seen: seq<Json> := [];
    ghost var urls: seq<Json> := [];
    var i := 0;
    while i < |pages|
      invariant 0 <= i <= |pages|
      invariant PageUrls(pages[..i]) == Some(urls)
      invariant seen == Dedup(urls)
    {
      var page := pages[i];
      assert pages[..i + 1] == pages[..i] + [page];
      PageUrlsSnoc(pages[..i], page);
      if Nullish(page) {
        assert Nullish(pages[i]);
        return None;
      }
      var url := ExtractImageUrl(PageImage(page));
      if Truthy(url) {
        DedupSnoc(urls, url);
        urls := urls + [url];
        if url !in seen {
          seen := seen + [url];
        }
      }
      i := i + 1;
    }
    assert pages[..i] == pages;
    images := Some(seen);
  }

  /** `downloadImage`'s full URL: a URL starting with `http` as it is,
      anything else appended to the base URL. */
  function DownloadUrl(base: string, url: string): (r: string)
    ensures EndsWith(r, url)
    ensures StartsWith(url, "http") ==> r == url
    ensures !StartsWith(url, "http") ==> StartsWith(r, base)
  {
    if StartsWith(url, "http") then url else base + url
  }

  /** With an `http` base, every download URL is a full URL, and taking
      the download URL again changes nothing. */
  lemma DownloadUrlIdempotent(base: string, url: string)
    requires StartsWith(base, "http")
    ensures StartsWith(DownloadUrl(base, url), "http")
    ensures DownloadUrl(base, DownloadUrl(base, url)) == DownloadUrl(base, url)
  {
    if !StartsWith(url, "http") {
      assert (base + url)[..4] == base[..4];
    }
  }

  /** The name a URL is saved under, `path.basename(imageUrl)`: it holds no
      `/`, and it ends the URL less its trailing slashes, right after a `/`
      or at the start. */
  lemma FileNameShape(url: string)
    ensures '/' !in Basename(url)
    ensures EndsWith(DropTrailingSlashes(url), Basename(url))
    ensures url != [] && url[|url| - 1] != '/' ==> EndsWith(url, Basename(url))
  {
    LastSegmentShape(DropTrailingSlashes(url));
    var t := DropTrailingSlashes(url);
    if url != [] && url[|url| - 1] != '/' {
      assert t == url;
    }
  }

  datatype Download = Download(url: string, fileName: string)

  /** The download of one string URL. */
  function Target(base: string, url: string): Download {
    Download(DownloadUrl(base, url), Basename(url))
  }

  /** The downloads of `downloadAllImages`, in set order: each URL is
      fetched from its full URL and saved under its base name. A URL that is
      not a string makes `path.basename` throw, so the downloads stop before
      it. */
  function DownloadTargets(base: string, urls: seq<Json>): (r: seq<Download>)
    ensures |r| <= |urls|
    ensures forall i | 0 <= i < |r| :: urls[i].Str? && r[i] == Target(base, urls[i].s)
    ensures |r| < |urls| ==> !urls[|r|].Str?
  {
    if urls == [] || !urls[0].Str? then []
    else [Target(base, urls[0].s)] + DownloadTargets(base, urls[1..])
  }

  /** Every download lands directly in the images directory (its name holds
      no `/`) and comes from a full URL when the base is one. */
  lemma DownloadTargetsShape(base: string, urls: seq<Json>, i: nat)
    requires StartsWith(base, "http") && i < |DownloadTargets(base, urls)|
    ensures '/' !in DownloadTargets(base, urls)[i].fileName
    ensures StartsWith(DownloadTargets(base, urls)[i].url, "http")
    ensures EndsWith(DownloadTargets(base, urls)[i].url, urls[i].s)
  {
    FileNameShape(urls[i].s);
    DownloadUrlIdempotent(base, urls[i].s);
  }
}
