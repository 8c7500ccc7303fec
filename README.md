# Portfolio site core, modelled in Dafny

The site is a single-page React app for an artist's portfolio. Its content
comes from a Strapi CMS. Two Node scripts run at build time:
`fetch-strapi-data.js` exports the CMS pages and site settings to JSON and
downloads the images they reference, and `process-images.js` writes resized
and re-encoded variants of each image and rewrites the JSON so that every
reference points at the optimised files.

This project models the logic of the app and the two scripts:

- the media URL resolver (`media.js`) and the API base URL (`constants.js`);
- the responsive `<img>` component and the lightbox's wrap-around navigation;
- the justified gallery's row layout;
- the sidebar's grouping and ordering of pages;
- the page renderer and its video URL normaliser;
- page normalisation and slug routing in `App.jsx`;
- the export script's image collection and download targets;
- the optimiser's variant naming, quality table, cache rule and reference rewriting.

Each module corresponds to one source file.

| file | module | form |
|---|---|---|
| json.dfy | `JsonValues` | the JSON value type with JavaScript truthiness, `||`, `??`, property access and spread |
| text.dfy | `Text` | string helpers: `split('/').pop()`, `trim`, lower-casing, decimal printing, `join`/`split`, `localeCompare` as an order |
| constants.dfy | `Constants` | functions |
| media.dfy | `Media` | functions and lemmas |
| responsive_image.dfy | `ResponsiveImage` | a render function |
| image_lightbox.dfy | `ImageLightbox` | index functions and a `Lightbox` class for the component state |
| justified_gallery.dfy | `JustifiedGallery` | the layout effect as a method with a per-image step, specified by a recursive row function; a `GalleryState` class |
| sidebar.dfy | `Sidebar` | functions: stable sort, grouping, active row |
| page_content.dfy | `PageContent` | render functions |
| video_url.dfy | `VideoUrl` | `normaliseVideoUrl` with each regular expression written as a matcher |
| app.dfy | `App` | functions and an `AppState` class for the component state |
| fetch_strapi_data.dfy | `FetchStrapiData` | functions and the collection loop as methods |
| process_images.dfy | `ProcessImages` | functions, the resize loop and the main loop as methods, and classes for the mutable page and site data |

## Conventions

- **JSON values.** `Json` values stand for the parsed JSON and for JavaScript values: `Undefined`, `Null`, booleans, integers, strings, arrays and objects.
- **Type errors.** Where the source would throw a `TypeError` on a value of the wrong type, such as `.startsWith` on a number, the model reads the value as absent or as the empty string.
- **Environment inputs become parameters:**
  - the build flag `import.meta.env.DEV` is `isDev`;
  - `decodeURIComponent` is `decode`;
  - the image width, the MD5 hash and the size of a written file are `widthOf`, `hashOf` and `sizeOf`.
- **Outputs become results.** The URL pushed to the browser history is a result, and so is the number of updated references.

## Model

| member | source | states |
|---|---|---|
| Constants.StripTrailingSlash | taishabtai-frontend/src/constants.js:1 | The result never ends in `/`. It is the input less its maximal run of trailing slashes. It is null exactly when the input is missing, empty or all slashes. |
| Constants.StripTrailingSlashIdempotent | taishabtai-frontend/src/constants.js:1 | Stripping twice is stripping once. |
| Constants.BaseUrl | taishabtai-frontend/src/constants.js:3-5 | The result is non-empty with no trailing `/`. It is the stripped environment value when there is one, else `http://localhost:1337`. |
| Constants.ApiUrl | taishabtai-frontend/src/constants.js:7 | The result is the base URL plus `/api`, with exactly one slash before `api`. |
| Media.ObjectUrl | taishabtai-frontend/src/utils/media.js:29-31 | The result is the first truthy of `url`, `attributes.url` and `data.attributes.url`, else the last of them. |
| Media.ResolveString | taishabtai-frontend/src/utils/media.js:8-27 | The rules for a string reference. An `http…` string is kept. In development `/uploads/…` gets the Strapi origin. Any other root path is kept. A relative name becomes `/images/` plus its last segment. |
| Media.ResolveObjectUrl | taishabtai-frontend/src/utils/media.js:36-53 | The rules for a URL taken from an object. They are the string rules, except that a root path is kept only under `/images/` and otherwise becomes `/images/` plus its last segment. |
| Media.ResolveMediaUrl | taishabtai-frontend/src/utils/media.js:3-54 | A falsy reference gives null. An object gives null exactly when it has no URL text. Every result is a full URL or starts with `/`. |
| Media.ResolveIdempotent | taishabtai-frontend/src/utils/media.js:8-53 | Any non-null result, resolved again as a string in the same mode, is unchanged. |
| Media.ImagesPathIsFixed | taishabtai-frontend/src/utils/media.js:20-22 | A string under `/images/` resolves to itself. |
| Media.FullUrlUnchanged | taishabtai-frontend/src/utils/media.js:10-38 | An `http…` reference comes back unchanged, as a string or inside an object, in both modes. |
| Media.UploadsPaths | taishabtai-frontend/src/utils/media.js:15-43 | In development, `/uploads/…` is prefixed with the Strapi origin. In production it is kept as a string, but moved to `/images/<file>` when it is inside an object. |
| Media.RootPathRules | taishabtai-frontend/src/utils/media.js:20-48 | Any other root path is kept as a string. Inside an object it is kept only under `/images/`, and otherwise becomes `/images/` plus its last segment. |
| Media.RelativeNameRule | taishabtai-frontend/src/utils/media.js:24-53 | A name without a leading `/` or `http` resolves to `/images/` plus its last segment, in both shapes. |
| Media.RelativeNameResolves | taishabtai-frontend/src/utils/media.js:24-26 | The string rule and the object rule agree on such a name. |
| Text.LastSegmentShape | taishabtai-frontend/src/utils/media.js:25 | `split('/').pop()` holds no `/`, ends the input, and is either the whole input or follows a `/`. |
| ResponsiveImage.ResponsiveSources | taishabtai-frontend/src/components/ResponsiveImage.jsx:35-37 | The variants are used exactly when `responsive.srcset` is a non-empty array. |
| ResponsiveImage.SizesAttr | taishabtai-frontend/src/components/ResponsiveImage.jsx:56 | The precedence is `sizes`, then `responsive.sizes`, then `100vw`. |
| ResponsiveImage.Render | taishabtai-frontend/src/components/ResponsiveImage.jsx:14-69 | A falsy image renders nothing. A string renders as `src` with no srcset. An object renders exactly when it has a truthy URL. srcset and sizes are both set, exactly when there are variants. The alt falls back to `Image`. |
| Text.SplitJoin | taishabtai-frontend/src/components/ResponsiveImage.jsx:51-53 | Splitting a joined list on the separator's first character gives back the parts, when no part holds that character. |
| ResponsiveImage.SrcsetListsEachVariant | taishabtai-frontend/src/components/ResponsiveImage.jsx:51-53 | Splitting the srcset on commas gives back one `url widthw` entry per variant, in order. |
| ImageLightbox.Previous | taishabtai-frontend/src/components/ImageLightbox.jsx:22-24 | The result stays in range. Index 0 wraps to the last image, and any other index steps back one. |
| ImageLightbox.Next | taishabtai-frontend/src/components/ImageLightbox.jsx:26-28 | The result stays in range. The last index wraps to 0, and any other index steps on one. |
| ImageLightbox.PreviousNextInverse | taishabtai-frontend/src/components/ImageLightbox.jsx:22-28 | Previous undoes next, and next undoes previous. |
| ImageLightbox.NextTimesAdvances | taishabtai-frontend/src/components/ImageLightbox.jsx:26-28 | Before the end, `k` presses of next move `k` places. |
| ImageLightbox.NextTimesAdd | taishabtai-frontend/src/components/ImageLightbox.jsx:26-28 | `a + b` presses equal `a` presses and then `b` presses. |
| ImageLightbox.NextFullCycle | taishabtai-frontend/src/components/ImageLightbox.jsx:26-28 | `n` presses among `n` images come back to the start. |
| ImageLightbox.SingleImageStays | taishabtai-frontend/src/components/ImageLightbox.jsx:22-28 | With one image, both directions stay on it. |
| ImageLightbox.AltText | taishabtai-frontend/src/components/ImageLightbox.jsx:100 | The alt is the image's own text, else `Image <index + 1>`. |
| ImageLightbox.Lightbox.constructor | taishabtai-frontend/src/components/ImageLightbox.jsx:11-13 | It starts at `initialIndex`, or at image 0 when the prop is omitted, and is not closing. |
| ImageLightbox.Lightbox.HandleClose | taishabtai-frontend/src/components/ImageLightbox.jsx:15-20 | It starts closing and leaves the index alone. |
| ImageLightbox.Lightbox.HandlePrevious | taishabtai-frontend/src/components/ImageLightbox.jsx:22-24 | The new index is `Previous` of the old one, and an in-range index stays in range. |
| ImageLightbox.Lightbox.HandleNext | taishabtai-frontend/src/components/ImageLightbox.jsx:26-28 | The new index is `Next` of the old one, and an in-range index stays in range. |
| ImageLightbox.Lightbox.HandleKeyDown | taishabtai-frontend/src/components/ImageLightbox.jsx:30-41 | Escape closes, the left and right arrows navigate, and any other key changes nothing. |
| ImageLightbox.Lightbox.Counter | taishabtai-frontend/src/components/ImageLightbox.jsx:104-108 | A counter `i / n` is shown exactly when the navigation buttons are, that is, for more than one image. |
| JustifiedGallery.Ratio | taishabtai-frontend/src/components/JustifiedGallery.jsx:29 | The aspect ratio is positive and, multiplied by the height, gives the width. |
| JustifiedGallery.TargetRows | taishabtai-frontend/src/components/JustifiedGallery.jsx:21 | The result is at least 1 and at least `rows`, and equals `rows` when `rows >= 1`. |
| JustifiedGallery.ImagesPerRow | taishabtai-frontend/src/components/JustifiedGallery.jsx:22 | The result is the ceiling of `n / targetRows`, characterised without division. |
| JustifiedGallery.PlaceRow | taishabtai-frontend/src/components/JustifiedGallery.jsx:40-48 | The row of images `lo … hi-1`, each scaled to the common row height: the available width over the sum of the aspect ratios. |
| JustifiedGallery.RowsFrom | taishabtai-frontend/src/components/JustifiedGallery.jsx:28-54 | The rows from image `start` on, each taking `imagesPerRow` images or what is left, and each placed by `PlaceRow`. |
| JustifiedGallery.Layout | taishabtai-frontend/src/components/JustifiedGallery.jsx:21-54 | The whole layout: `RowsFrom` the first image, with `ceil(n / max(1, rows))` images per row. It is the specification `ComputeLayout` meets. |
| JustifiedGallery.ComputeLayout | taishabtai-frontend/src/components/JustifiedGallery.jsx:16-57 | The `forEach` loop produces exactly the row function `Layout`. |
| JustifiedGallery.AddImage | taishabtai-frontend/src/components/JustifiedGallery.jsx:28-54 | One callback keeps the loop invariant: the rows done plus the rows still to come are the whole layout, and the pending row and width are those of the open row. |
| JustifiedGallery.RowSizes | taishabtai-frontend/src/components/JustifiedGallery.jsx:33-37 | Every row but the last holds `imagesPerRow` images, and the last holds 1 to `imagesPerRow`. |
| JustifiedGallery.RowCount | taishabtai-frontend/src/components/JustifiedGallery.jsx:21-38 | The number of rows is the ceiling of the image count over `imagesPerRow`. |
| JustifiedGallery.RowCountBound | taishabtai-frontend/src/components/JustifiedGallery.jsx:21-38 | There are never more rows than the target row count. |
| JustifiedGallery.RowsCoverInOrder | taishabtai-frontend/src/components/JustifiedGallery.jsx:28-52 | Read row by row, the items are the images `0 … n-1`, each once and in order. |
| JustifiedGallery.ItemsAreIndexed | taishabtai-frontend/src/components/JustifiedGallery.jsx:28-30 | Item `j` of row `r` is image `r * imagesPerRow + j`, and carries that image. |
| JustifiedGallery.RowGeometry | taishabtai-frontend/src/components/JustifiedGallery.jsx:42-48 | All items of a row share the row's height, each width is the ratio times the height, and so each item keeps its image's aspect ratio. |
| JustifiedGallery.RowFillsContainer | taishabtai-frontend/src/components/JustifiedGallery.jsx:40-43 | A row's widths plus its gutters add up to the container width, 1000. |
| JustifiedGallery.GalleryState.constructor | taishabtai-frontend/src/components/JustifiedGallery.jsx:14 | The layout starts empty. |
| JustifiedGallery.GalleryState.Update | taishabtai-frontend/src/components/JustifiedGallery.jsx:13-57 | A missing or empty image list leaves the layout as it was. Otherwise the layout becomes `Layout`, where an omitted `rows` is 3 and an omitted `gutter` is 8. |
| JustifiedGallery.GalleryState.View | taishabtai-frontend/src/components/JustifiedGallery.jsx:59-65 | "No images" shows exactly when the list is missing or empty. Otherwise the rows shown are the layout state. |
| Sidebar.ResolveValue | taishabtai-frontend/src/components/Sidebar.jsx:4-8 | The page's own non-nullish value, else `attributes[key] ?? ''`, and `''` for a falsy page. The result is never nullish. |
| Sidebar.OrderKey | taishabtai-frontend/src/components/Sidebar.jsx:21-31 | A page has an order key exactly when its resolved `order` is a non-zero number, and the key is that number. |
| Sidebar.Le | taishabtai-frontend/src/components/Sidebar.jsx:20-37 | The comparator as a "sorts no later than" relation. Two ordered pages compare by order. An ordered page precedes an unordered one. Two unordered pages compare by lower-cased title. |
| Sidebar.Insert | taishabtai-frontend/src/components/Sidebar.jsx:20-37 | Inserts a page before the first page it sorts no later than. The result is one longer. |
| Sidebar.Sort | taishabtai-frontend/src/components/Sidebar.jsx:20-37 | `.sort(comparator)` as a stable insertion sort. It keeps the length, and `SortSortedPermutation` proves it sorted and a permutation. |
| Sidebar.LeTotal | taishabtai-frontend/src/components/Sidebar.jsx:20-37 | The comparator orders any two pages. |
| Sidebar.LeTransitive | taishabtai-frontend/src/components/Sidebar.jsx:20-37 | The comparator is transitive. |
| Sidebar.InsertPermutation | taishabtai-frontend/src/components/Sidebar.jsx:20-37 | Inserting a page adds exactly that page to the multiset of pages. |
| Sidebar.InsertSorted | taishabtai-frontend/src/components/Sidebar.jsx:20-37 | Inserting into a sorted list keeps it sorted under the comparator. |
| Sidebar.SortSortedPermutation | taishabtai-frontend/src/components/Sidebar.jsx:18-37 | The stable sort returns a sorted permutation of its input. |
| Sidebar.SortedGroupMeaning | taishabtai-frontend/src/components/Sidebar.jsx:24-36 | In a sorted group, ordered pages come first by ascending order, then unordered pages by lower-cased title. |
| Sidebar.InGroup | taishabtai-frontend/src/components/Sidebar.jsx:18-19 | `pages.filter(...)`: the pages whose resolved `group` is the name, in order. It is no longer than the page list. |
| Sidebar.GroupsFrom | taishabtai-frontend/src/components/Sidebar.jsx:17-42 | The `reduce` over `groupOrder` from position `m`: each group with at least one page, with its sorted pages, in group order. |
| Sidebar.InGroupMembers | taishabtai-frontend/src/components/Sidebar.jsx:18-19 | A page is in a group's list exactly when its resolved `group` is that name. |
| Sidebar.GroupPagesSorted | taishabtai-frontend/src/components/Sidebar.jsx:17-42 | Every group shown is a known group. Its list is non-empty, sorted, and a permutation of the group's pages. |
| Sidebar.GroupPagesInOrder | taishabtai-frontend/src/components/Sidebar.jsx:15-42 | Groups appear in the fixed order Ongoing, Selected Works, Interactive, Other Works. |
| Sidebar.GroupPagesPresence | taishabtai-frontend/src/components/Sidebar.jsx:38-40 | A group is shown exactly when it has at least one page. |
| Sidebar.Rank | taishabtai-frontend/src/components/Sidebar.jsx:15 | The rank of a name is its position in the group order, and is below the group count exactly for the four known names. |
| Sidebar.RankOfListed | taishabtai-frontend/src/components/Sidebar.jsx:15 | Each name of the group order has its own position as rank. |
| Sidebar.GroupsFromAt | taishabtai-frontend/src/components/Sidebar.jsx:17-42 | Each group shown is the named group of its rank, with its own pages, and is non-empty. |
| Sidebar.GroupRanksIncrease | taishabtai-frontend/src/components/Sidebar.jsx:17-42 | The ranks of the groups shown are in range and strictly increasing. |
| Sidebar.GroupRanksCover | taishabtai-frontend/src/components/Sidebar.jsx:38-40 | A rank is shown exactly when its group has pages. |
| Sidebar.UnlistedPageOmitted | taishabtai-frontend/src/components/Sidebar.jsx:15-19 | A page whose group is not one of the four appears in no group. |
| Sidebar.PageId | taishabtai-frontend/src/components/Sidebar.jsx:77-78 | `page.id || page.documentId`. |
| Sidebar.IsActive | taishabtai-frontend/src/components/Sidebar.jsx:79 | A row is active when its page id equals the current page id. |
| Sidebar.ActiveRowUnique | taishabtai-frontend/src/components/Sidebar.jsx:77-79 | With distinct page ids, exactly the current page's row is active. |
| Text.LexLeTotal | taishabtai-frontend/src/components/Sidebar.jsx:36 | The title order compares any two titles. |
| Text.LexLeTransitive | taishabtai-frontend/src/components/Sidebar.jsx:36 | The title order is transitive. |
| PageContent.ChildText | taishabtai-frontend/src/components/PageContent.jsx:113-116 | A child renders its `text` exactly when its type is `text`. |
| PageContent.RenderParagraph | taishabtai-frontend/src/components/PageContent.jsx:109-121 | A block renders exactly when it is a paragraph, with one entry per child, in order. |
| PageContent.RenderRichText | taishabtai-frontend/src/components/PageContent.jsx:105-123 | Falsy rich text renders nothing. An array renders one entry per block, in order. |
| PageContent.RenderBlock | taishabtai-frontend/src/components/PageContent.jsx:26-101 | Only the three known block types render. Text blocks always render. Image blocks show the image exactly when its URL resolves, else a placeholder, with the caption as alt. Video blocks render exactly when the URL normalises: a player for files, a frame otherwise, titled by the block or by position. |
| PageContent.RenderContent | taishabtai-frontend/src/components/PageContent.jsx:23-103 | Falsy content renders nothing. An array renders each block knowing its position. |
| PageContent.RenderPage | taishabtai-frontend/src/components/PageContent.jsx:4-21 | A page renders exactly when it is truthy, with its title, its subtitle exactly when that is truthy, and its content. |
| PageContent.DefaultVideoTitle | taishabtai-frontend/src/components/PageContent.jsx:91 | The title of an untitled video: `Embedded video` and its one-based position. |
| PageContent.DefaultTitlesDistinct | taishabtai-frontend/src/components/PageContent.jsx:91 | Untitled frames at different positions get different titles. |
| PageContent.PositionOnlyAffectsDefaultTitle | taishabtai-frontend/src/components/PageContent.jsx:26-101 | Moving a block changes at most the default title of a video frame. |
| PageContent.YoutubeBlockRendersFrame | taishabtai-frontend/src/components/PageContent.jsx:72-98 | A video block with a YouTube watch URL renders a frame on the embed URL of its id. |
| Text.TrimEmptyIffBlank | taishabtai-frontend/src/components/PageContent.jsx:126-127 | Trimming gives the empty string exactly when the input is all whitespace. |
| VideoUrl.VimeoIdAndHash | taishabtai-frontend/src/components/PageContent.jsx:130 | A match yields a non-empty decimal id and a hexadecimal hash. |
| VideoUrl.MatchVimeo | taishabtai-frontend/src/components/PageContent.jsx:129-131 | A Vimeo page match yields a decimal id and a hex hash. |
| VideoUrl.MatchVimeoPlayer | taishabtai-frontend/src/components/PageContent.jsx:143-145 | A player match yields a non-empty decimal id. |
| VideoUrl.MatchYoutubeWatch | taishabtai-frontend/src/components/PageContent.jsx:153-155 | A watch match yields a non-empty id without `&`. |
| VideoUrl.MatchYoutuBe | taishabtai-frontend/src/components/PageContent.jsx:163 | A short-link match yields a non-empty id without `?`. |
| VideoUrl.Classify | taishabtai-frontend/src/components/PageContent.jsx:129-179 | The source is never empty. A provider match is an embed. Anything else keeps the URL, as a file exactly when it has a video extension. |
| VideoUrl.NormaliseVideoUrl | taishabtai-frontend/src/components/PageContent.jsx:125-180 | The result is null exactly for a missing or blank URL. Providers are tried before the extension test. An unmatched URL is used trimmed and unchanged. |
| VideoUrl.NormaliseTrimmed | taishabtai-frontend/src/components/PageContent.jsx:126 | A URL without surrounding whitespace is classified as it is. |
| VideoUrl.ClassifyVimeo | taishabtai-frontend/src/components/PageContent.jsx:132-141 | A Vimeo page gives the player URL, with `?h=` exactly when there is a hash. |
| VideoUrl.ClassifyVimeoPlayer | taishabtai-frontend/src/components/PageContent.jsx:146-151 | A player URL not matched as a page gives the bare player URL. |
| VideoUrl.ClassifyYoutubeWatch | taishabtai-frontend/src/components/PageContent.jsx:156-161 | A watch URL gives the YouTube embed URL of its id. |
| VideoUrl.ClassifyYoutuBe | taishabtai-frontend/src/components/PageContent.jsx:164-169 | A short link gives the YouTube embed URL of its id. |
| VideoUrl.VimeoPageUrl | taishabtai-frontend/src/components/PageContent.jsx:129-141 | Every `http[s]://[www.]vimeo.com/[video/]<id>[/<hash>][?…]` normalises to the player URL of that id and hash. |
| VideoUrl.VimeoPlayerUrl | taishabtai-frontend/src/components/PageContent.jsx:143-151 | Every `http[s]://player.vimeo.com/video/<id>[?…]` normalises to the bare player URL. |
| VideoUrl.YoutubeWatchUrl | taishabtai-frontend/src/components/PageContent.jsx:153-161 | Every `http[s]://[www.]youtube.com/watch?v=<id>[&…]` normalises to the embed URL of the id. |
| VideoUrl.YoutuBeUrl | taishabtai-frontend/src/components/PageContent.jsx:163-169 | Every `http[s]://youtu.be/<id>[?…]` normalises to the embed URL of the id. |
| VideoUrl.IsVideoFile | taishabtai-frontend/src/components/PageContent.jsx:171-174 | The file test: some split of the URL into a part ending in `.mp4`, `.webm` or `.ogg`, in any case, and an optional query. |
| VideoUrl.SchemeStrip | taishabtai-frontend/src/components/PageContent.jsx:129-163 | Both `https://` and `http://` are recognised, and the rest of the URL is what the host patterns see. |
| VideoUrl.VideoExtensionIsFile | taishabtai-frontend/src/components/PageContent.jsx:171-174 | A URL ending in `.mp4`, `.webm` or `.ogg`, in any case, is a video file. |
| App.NormalizePage | taishabtai-frontend/src/App.jsx:6-14 | A falsy page gives null. A page without attributes is kept. Otherwise the result has the attribute fields plus `id`, which comes from the page unless the attributes override it. |
| App.NormalizeIdempotent | taishabtai-frontend/src/App.jsx:6-14 | Normalising a Strapi-shaped page twice is normalising it once. |
| App.GetPageSlug | taishabtai-frontend/src/App.jsx:16-20 | The slug is the page's own, else `attributes.slug`, else `''`. |
| App.NormalizeKeepsSlug | taishabtai-frontend/src/App.jsx:6-20 | For a Strapi-shaped page with no slug of its own, normalisation keeps the slug: `attributes.slug` becomes the top-level slug. (A page with its own slug and a different `attributes.slug` takes the attribute's, since the spread of `attributes` wins.) |
| App.LoadedPages | taishabtai-frontend/src/App.jsx:54-56 | Loading succeeds exactly when `data` is falsy (no pages) or an array, which is normalised pointwise. |
| App.SiteSettings | taishabtai-frontend/src/App.jsx:58-62 | The settings are null exactly when `data` is falsy, else the normalised record. |
| App.UrlSlug | taishabtai-frontend/src/App.jsx:78 | The slug read from a path: the path less its first character, decoded, lower-cased. |
| App.FindBySlug | taishabtai-frontend/src/App.jsx:81-84 | The result is the first page whose lower-cased slug matches, and none when no page matches. |
| App.PageForPath | taishabtai-frontend/src/App.jsx:78-95 | A page shows exactly when the decoded, lower-cased slug is non-empty and some page matches it. |
| App.SelectedPath | taishabtai-frontend/src/App.jsx:110-115 | The pushed path is `/` followed by the slug, and is `/` alone exactly for an empty slug. |
| App.SelectedPathLoadsPage | taishabtai-frontend/src/App.jsx:78-115 | Loading the pushed path finds a page with the same slug no later than the selected one, and exactly the selected page when slugs are distinct. |
| App.RootShowsIndex | taishabtai-frontend/src/App.jsx:78-95 | `/` and the empty path show the index page. |
| App.AppState.constructor | taishabtai-frontend/src/App.jsx:23-28 | The state starts with no pages, no current page, not on the index page, no settings, and loading. |
| App.AppState.LoadContent | taishabtai-frontend/src/App.jsx:41-68 | On success, pages and settings are replaced by `LoadedPages` and `SiteSettings`. When `map` would throw they are unchanged. Loading ends in both cases. |
| App.AppState.LoadPageFromUrl | taishabtai-frontend/src/App.jsx:73-96 | With no pages nothing happens. Otherwise the current page and the index flag follow `PageForPath`. |
| App.AppState.SelectPage | taishabtai-frontend/src/App.jsx:106-116 | A falsy page does nothing. Otherwise the normalised page shows and `SelectedPath` is pushed. |
| FetchStrapiData.BaseUrl | taishabtai-frontend/scripts/fetch-strapi-data.js:9 | The result is the environment value when truthy, else `http://localhost:1337`. |
| FetchStrapiData.ApiUrl | taishabtai-frontend/scripts/fetch-strapi-data.js:10 | The result is the base URL plus `/api`. |
| FetchStrapiData.BaseUrlsAgree | taishabtai-frontend/scripts/fetch-strapi-data.js:9 | For a value without a trailing slash, the script's base URL equals the app's. |
| FetchStrapiData.ExtractImageUrl | taishabtai-frontend/scripts/fetch-strapi-data.js:52-65 | Falsy media gives null and a string is itself. Otherwise the result is the first truthy of the direct, nested, `formats.medium` and `formats.small` URLs. |
| FetchStrapiData.ExtractAgreesWithResolver | taishabtai-frontend/scripts/fetch-strapi-data.js:57-64 | When the object URL is a non-empty string, the script downloads the URL the app resolves from. |
| FetchStrapiData.PageImage | taishabtai-frontend/scripts/fetch-strapi-data.js:79 | The image is `attributes.image`, else `image`. |
| FetchStrapiData.Iterated | taishabtai-frontend/scripts/fetch-strapi-data.js:77 | `for … of` yields an array's items and a string's characters, and throws otherwise. |
| FetchStrapiData.PageUrls | taishabtai-frontend/scripts/fetch-strapi-data.js:76-84 | The loop throws exactly when some page is nullish. Otherwise it yields the truthy image URLs, at most one per page. |
| FetchStrapiData.CandidateUrls | taishabtai-frontend/scripts/fetch-strapi-data.js:73-92 | The candidates are the page URLs followed by the site URL, all truthy. |
| FetchStrapiData.Dedup | taishabtai-frontend/scripts/fetch-strapi-data.js:73 | The `Set` has the same members as its input, no repeats, and is no longer than the input. |
| FetchStrapiData.DedupSnoc | taishabtai-frontend/scripts/fetch-strapi-data.js:81 | `add` appends a new value and ignores a present one. |
| FetchStrapiData.PageUrlsSnoc | taishabtai-frontend/scripts/fetch-strapi-data.js:77-83 | One more page adds its URL, adds nothing, or throws. |
| FetchStrapiData.PageUrlsMembers | taishabtai-frontend/scripts/fetch-strapi-data.js:76-84 | With no nullish page, a value is among the page URLs exactly when it is truthy and is the extracted image URL of some page. |
| FetchStrapiData.PageWithoutImageAddsNothing | taishabtai-frontend/scripts/fetch-strapi-data.js:79-82 | A page without an image adds no URL. |
| FetchStrapiData.CollectPageUrls | taishabtai-frontend/scripts/fetch-strapi-data.js:76-84 | The page loop yields the deduplicated page URLs, or throws. |
| FetchStrapiData.CollectImageUrls | taishabtai-frontend/scripts/fetch-strapi-data.js:67-92 | `imagesToDownload` is the deduplicated candidate list: each truthy page or site URL exactly once. |
| FetchStrapiData.DownloadUrl | taishabtai-frontend/scripts/fetch-strapi-data.js:33-35 | The download URL ends with the image URL. It is that URL when it starts with `http`, and starts with the base otherwise. |
| FetchStrapiData.DownloadUrlIdempotent | taishabtai-frontend/scripts/fetch-strapi-data.js:33-35 | With an `http` base, taking the download URL twice changes nothing. |
| FetchStrapiData.FileNameShape | taishabtai-frontend/scripts/fetch-strapi-data.js:97 | `path.basename` holds no `/` and ends the URL less its trailing slashes. |
| FetchStrapiData.DownloadTargets | taishabtai-frontend/scripts/fetch-strapi-data.js:96-100 | Each string URL is downloaded in order, from its full URL to its base name. A non-string URL stops the loop. |
| FetchStrapiData.DownloadTargetsShape | taishabtai-frontend/scripts/fetch-strapi-data.js:96-99 | Under an `http` base, each download's file name holds no `/`, and its URL is a full `http` URL that ends with the image URL. |
| ProcessImages.LastIndexOfFinds | taishabtai-frontend/scripts/process-images.js:59 | The index found holds the character, and none follows it. It is -1 exactly when the character is absent. |
| ProcessImages.NameExt | taishabtai-frontend/scripts/process-images.js:59 | `path.extname` on a name: from the last dot on, or empty when the only dot leads the name or the name is `..`. |
| ProcessImages.Extname | taishabtai-frontend/scripts/process-images.js:59 | The extension of a path is that of its base name, and is shorter than it or empty. |
| ProcessImages.ExtnameShape | taishabtai-frontend/scripts/process-images.js:59-60 | The extension is non-empty exactly when the base name has a dot after its first character and is not `..`. It is then a final `.…` with no other dot. The stem plus the extension is the base name. |
| ProcessImages.Stem | taishabtai-frontend/scripts/process-images.js:60 | `path.basename(p, ext)`: the base name less its extension. |
| ProcessImages.Format | taishabtai-frontend/scripts/process-images.js:80 | The format is the lower-cased extension less its leading dot. |
| ProcessImages.Quality | taishabtai-frontend/scripts/process-images.js:81 | The quality is 90 for png and 85 otherwise. |
| ProcessImages.Encoders | taishabtai-frontend/scripts/process-images.js:88-90 | The jpeg, png and webp options each get a quality exactly for their own formats. |
| ProcessImages.EncoderForKeptExtension | taishabtai-frontend/scripts/process-images.js:79-90 | Each kept extension sets exactly one encoder quality: 85 for jpeg and webp, 90 for png. |
| ProcessImages.ExtractImageUrl | taishabtai-frontend/scripts/process-images.js:50-54 | Falsy gives null and a string is itself. Otherwise the result is the object URL, or null. |
| ProcessImages.ExtractImageUrlTruthy | taishabtai-frontend/scripts/process-images.js:50-54 | The result is null or truthy, and truthy exactly for a string or an object with a URL. |
| ProcessImages.KeptWidths | taishabtai-frontend/scripts/process-images.js:69-74 | No more widths are kept than are configured, and none is wider than the original. |
| ProcessImages.KeptWidthsSubsequence | taishabtai-frontend/scripts/process-images.js:69-74 | The kept widths are the configured widths read at strictly increasing positions, so they are a subsequence in configured order. |
| ProcessImages.KeptIndicesMembers | taishabtai-frontend/scripts/process-images.js:69-74 | A position is kept exactly when its width is no wider than the original. |
| ProcessImages.WidthVariants | taishabtai-frontend/scripts/process-images.js:76-98 | There is one `<stem>-<w>w<ext>` entry per width, in order. |
| ProcessImages.VariantName | taishabtai-frontend/scripts/process-images.js:76 | The resized file name `<stem>-<w>w<ext>`; `VariantNamesDiffer` and `VariantNotOriginal` state that it is unique. |
| ProcessImages.OriginalName | taishabtai-frontend/scripts/process-images.js:104 | The full-size file name `<stem>-original<ext>`. |
| ProcessImages.ResizeVariants | taishabtai-frontend/scripts/process-images.js:69-101 | The loop writes exactly the variants of the kept widths. |
| ProcessImages.Variants | taishabtai-frontend/scripts/process-images.js:57-127 | What `processImage` returns: the variants of the kept widths, then the original at full width. |
| ProcessImages.ProcessImage | taishabtai-frontend/scripts/process-images.js:57-127 | The result is the resized variants and then the original. |
| ProcessImages.KeptSizes | taishabtai-frontend/scripts/process-images.js:69-74 | With 640/1024/1920/2560, the widths kept for each range of original width. |
| ProcessImages.KeptWidthsMembers | taishabtai-frontend/scripts/process-images.js:69-74 | A width is kept exactly when it is configured and no wider than the original. |
| ProcessImages.KeptWidthsIncreasing | taishabtai-frontend/scripts/process-images.js:69-74 | Increasing configured widths stay increasing. |
| ProcessImages.VariantsEndWithOriginal | taishabtai-frontend/scripts/process-images.js:103-122 | The last entry is the original at full width. The others are resized and no wider than it. |
| ProcessImages.SizesIncreasing | taishabtai-frontend/scripts/process-images.js:17 | The configured widths increase. |
| ProcessImages.VariantNamesDistinct | taishabtai-frontend/scripts/process-images.js:76-104 | No two entries of one image share a file name. |
| ProcessImages.VariantNamesDiffer | taishabtai-frontend/scripts/process-images.js:76 | Different widths give different names. |
| ProcessImages.VariantNotOriginal | taishabtai-frontend/scripts/process-images.js:76-104 | No resized name equals the original's name. |
| Text.NatToStringInjective | taishabtai-frontend/scripts/process-images.js:76 | Different widths print differently. |
| ProcessImages.OriginalUrl | taishabtai-frontend/scripts/process-images.js:136 | The rewritten URL lies under `/images/optimized/`. |
| ProcessImages.SrcsetSource | taishabtai-frontend/scripts/process-images.js:138-142 | Each source carries the variant's optimised URL, width and size. |
| ProcessImages.SrcsetSources | taishabtai-frontend/scripts/process-images.js:138-142 | There is one source per variant, in order. |
| ProcessImages.ResponsiveRecord | taishabtai-frontend/scripts/process-images.js:137-144 | `responsive` holds the sources and sizes `100vw`. |
| ProcessImages.UpdateImageObject | taishabtai-frontend/scripts/process-images.js:130-146 | The result is an object with the optimised original URL and the responsive record. |
| ProcessImages.UpdateImageObjectFields | taishabtai-frontend/scripts/process-images.js:134-145 | The spread keeps every other field of the reference. |
| ProcessImages.ResponsiveObjectRenders | taishabtai-frontend/scripts/process-images.js:137-144 | An object of that shape renders with the srcset of its variants and sizes `100vw`. |
| ProcessImages.UpdatedImageRenders | taishabtai-frontend/scripts/process-images.js:130-146 | A rewritten reference renders in the app with its original as `src` and its variants as srcset. |
| ProcessImages.OptimizedPathResolves | taishabtai-frontend/scripts/process-images.js:136 | An optimised path resolves to itself in both modes. |
| ProcessImages.OptimizedObjectResolves | taishabtai-frontend/scripts/process-images.js:136 | An object with an optimised URL resolves to that URL. |
| ProcessImages.UpdatedImageResolves | taishabtai-frontend/scripts/process-images.js:130-146 | A rewritten reference resolves in the app to the optimised original. |
| ProcessImages.ReplaceReference | taishabtai-frontend/scripts/process-images.js:155-165 | A reference is rewritten, counting 1, exactly when its file name is a processed image. Otherwise it is kept, counting 0. |
| ProcessImages.ReferenceName | taishabtai-frontend/scripts/process-images.js:157 | The lookup key: the last `/` segment of the reference's extracted URL. |
| ProcessImages.Matches | taishabtai-frontend/scripts/process-images.js:156-158 | The corrected lookup: the reference has a truthy URL and its name is an own key of the processed images. `InheritedNamePassesLookup` contrasts it with the lookup as written. |
| ProcessImages.MatchCount | taishabtai-frontend/scripts/process-images.js:150-209 | The count never exceeds the number of references. |
| ProcessImages.MatchCountAppend | taishabtai-frontend/scripts/process-images.js:150-209 | Counts add over concatenation. |
| ProcessImages.UpdateGallery | taishabtai-frontend/scripts/process-images.js:189-203 | A gallery is rewritten image by image. |
| ProcessImages.GalleryUpdateCountMatches | taishabtai-frontend/scripts/process-images.js:189-203 | A gallery adds one per matching image. |
| ProcessImages.SetFieldKeeps | taishabtai-frontend/scripts/process-images.js:159 | Assigning one field keeps every other field. |
| ProcessImages.KeepsOtherFieldsChain | taishabtai-frontend/scripts/process-images.js:152-207 | Keeping other fields composes. |
| ProcessImages.UpdateBlockKeeps | taishabtai-frontend/scripts/process-images.js:171-205 | A block changes at most `image` and `images`. |
| ProcessImages.UpdateBlockCount | taishabtai-frontend/scripts/process-images.js:171-205 | A block's count is its matching references. |
| ProcessImages.UpdateBlocks | taishabtai-frontend/scripts/process-images.js:170-206 | The blocks are rewritten one by one. |
| ProcessImages.BlocksUpdateCountMatches | taishabtai-frontend/scripts/process-images.js:170-206 | The content's count is its matching references. |
| ProcessImages.UpdateHero | taishabtai-frontend/scripts/process-images.js:154-167 | The cover step: a truthy `image` is passed to `ReplaceReference` and written back only when it matched. |
| ProcessImages.UpdateBlock | taishabtai-frontend/scripts/process-images.js:171-205 | One content block: an image block's `image` and a gallery block's `images` are rewritten, and any other block is kept. |
| ProcessImages.UpdatePage | taishabtai-frontend/scripts/process-images.js:152-207 | One page: the cover step, then every block of a `content` array. The count is the sum of both. |
| ProcessImages.UpdateHeroKeeps | taishabtai-frontend/scripts/process-images.js:154-167 | The cover step changes only `image` and counts 1 exactly when it matches. |
| ProcessImages.UpdatePageKeeps | taishabtai-frontend/scripts/process-images.js:152-207 | A page changes at most `image` and `content`. |
| ProcessImages.UpdatePageCount | taishabtai-frontend/scripts/process-images.js:152-207 | A page's count is its matching references. |
| ProcessImages.PagesData.constructor | taishabtai-frontend/scripts/process-images.js:246 | The object holds the parsed page list. |
| ProcessImages.PagesData.UpdatePagesData | taishabtai-frontend/scripts/process-images.js:149-210 | Every page is rewritten in place by `UpdatePage`, and the count returned is the number of matching references. |
| ProcessImages.SiteData.constructor | taishabtai-frontend/scripts/process-images.js:251 | The object holds the parsed site record. |
| ProcessImages.SiteData.UpdateSiteData | taishabtai-frontend/scripts/process-images.js:213-232 | The count is 0 or 1, and 1 exactly when the site image matches. In that case only `data.image` is rewritten; otherwise nothing changes. |
| ProcessImages.SiteUpdateTouchesOnlyImage | taishabtai-frontend/scripts/process-images.js:221-225 | The assignment keeps every other field of the record and of `data`. |
| ProcessImages.Filter | taishabtai-frontend/scripts/process-images.js:256-259 | The kept files are input files that pass the test. |
| ProcessImages.FilterComplete | taishabtai-frontend/scripts/process-images.js:256-259 | Every input file that passes the test is kept. |
| ProcessImages.IsImageFile | taishabtai-frontend/scripts/process-images.js:257-258 | The lower-cased extension is `.jpg`, `.jpeg`, `.png` or `.webp`. |
| ProcessImages.ImageFiles | taishabtai-frontend/scripts/process-images.js:256-259 | `files.filter(...)` with `IsImageFile`. |
| ProcessImages.ImageFilesMembers | taishabtai-frontend/scripts/process-images.js:256-259 | The image files are exactly the files with a jpg, jpeg, png or webp extension in any case. |
| ProcessImages.ImageExtensionKept | taishabtai-frontend/scripts/process-images.js:256-259 | A slash-free name of a non-empty stem and one of the four extensions, in any case, has that extension and passes the filter, even when the stem holds dots. |
| ProcessImages.LeadingDotNotImage | taishabtai-frontend/scripts/process-images.js:256-259 | A name whose only dot leads it, such as `.jpg`, has no extension and does not pass. |
| ProcessImages.NoExtensionNotImage | taishabtai-frontend/scripts/process-images.js:256-259 | A name without an extension does not pass. |
| ProcessImages.CacheHit | taishabtai-frontend/scripts/process-images.js:273 | The cache has an entry for the file name and its hash equals the file hash. |
| ProcessImages.LoopStateHit | taishabtai-frontend/scripts/process-images.js:273-279 | A cache hit keeps the loop invariant. |
| ProcessImages.LoopStateMiss | taishabtai-frontend/scripts/process-images.js:283-291 | Processing a file keeps the loop invariant. |
| ProcessImages.ProcessEntry | taishabtai-frontend/scripts/process-images.js:268-294 | One iteration keeps the invariant, counts the file once, and records it as written exactly on a cache miss. |
| ProcessImages.ProcessFiles | taishabtai-frontend/scripts/process-images.js:263-294 | Every image file gets sizes: the cached ones on a hash hit, else freshly generated ones, which are also stored in the cache. The other cache entries are kept. Processed plus skipped is the file count, and the variant total is what was actually written. |
| ProcessImages.WrittenTotalBound | taishabtai-frontend/scripts/process-images.js:328 | What the processed files wrote never exceeds the printed total. |
| ProcessImages.ReportedVariantTotal | taishabtai-frontend/scripts/process-images.js:328 | The printed total: processed count times the number of widths plus one. |
| ProcessImages.ReportedTotalStep | taishabtai-frontend/scripts/process-images.js:328 | Each processed image adds `sizes.length + 1` to the printed total. |
| ProcessImages.VariantCountBound | taishabtai-frontend/scripts/process-images.js:69-122 | One image yields at most one entry per width plus the original. |
| ProcessImages.SizesVariantCount | taishabtai-frontend/scripts/process-images.js:17-122 | An image yields all five entries exactly when it is at least 2560 px wide. |
| ProcessImages.ReportedTotalOvercounts | taishabtai-frontend/scripts/process-images.js:328 | One 1000 px image is reported as 5 variants but writes 2. |
| ProcessImages.LookupAsWritten | taishabtai-frontend/scripts/process-images.js:158 | The lookup as written: a processed name, or a name `{}` inherits from `Object.prototype`. |
| ProcessImages.InheritedNamePassesLookup | taishabtai-frontend/scripts/process-images.js:158 | `/uploads/constructor` passes the lookup on `{}` without being processed. |
| ProcessImages.LastSegmentAfterSlash | taishabtai-frontend/scripts/process-images.js:157 | The last segment after a directory ending in `/` is the name. |

## Left out

- File system, network, `console` output, `process.exit` and the scripts' `main` error handling are left out. `fetch`, `fs` and the JSON files come in as parameters, and counts and targets go out as results.
- `sharp` is left out: decoding, resizing and encoding, and the chained encoder calls. The model keeps which quality each encoder receives and what is written, and takes output sizes from `sizeOf`.
- The MD5 file hash (`hashOf`) and the image metadata width (`widthOf`) are parameters.
- `loadCache` and `saveCache` and the cache file's format are left out. The cache is a map that comes in and goes out.
- React rendering, the DOM, `window`, `history`, `popstate` listeners and timers are left out. The 200 ms timer before the lightbox calls `onClose`, the hover handler, the viewport-height effect and the loading screen are not modelled.
- ImagePopover and ImageDisplay are not part of this model.
- `toLowerCase` is modelled as ASCII lower-casing.
- `localeCompare` is modelled as lexicographic order on code points.
- `decodeURIComponent` is the `decode` parameter, and is assumed total. Its `URIError` on a malformed escape is not modelled.
- A value of the wrong type where JavaScript would throw a `TypeError`, such as `.startsWith` on a number or `.toLowerCase` on a numeric slug, reads as absent or `''`. A numeric slug is therefore pushed as `/`, where the source would push `/<number>`.
- JustifiedGallery.ComputeLayout: arithmetic is on exact reals, not IEEE doubles. Images are required to have positive width and height, because the source divides by the height and then by the row width.
- Sidebar.OrderKey: only a non-zero number counts as an order. The source treats any truthy `order` as present. A non-empty string or `true` ranks before unordered pages, and two such values are compared by `orderA - orderB`: by value for numeric strings and booleans, and as `NaN` for two non-numeric strings. The model ranks such a page among the unordered pages, by title.
- Sidebar.Sort: `Array.prototype.sort` is modelled as a stable insertion sort. The order of pages that compare equal is the input order, as in a stable engine sort.
- Sidebar.ActiveRowUnique: `id` equality is structural equality of values.
- FetchStrapiData.Dedup: `Set` membership is structural equality of values. JavaScript's `Set` compares objects by identity.
- FetchStrapiData.DownloadTargets: a non-string URL stops the loop, where `path.basename` would throw.
- ResponsiveImage.Render: a truthy non-array `srcset`, on which `.map` would throw, renders as if there were no srcset.
- App.AppState.LoadContent: a `data` value that is truthy but not an array, on which `map` throws, leaves pages and settings unchanged, like the source's `catch`.
- Prototype keys are modelled only in the finding below. Keys inherited from `Object.prototype` in the quality table lookup and in the cache lookup `cache[filename]` are not modelled, and neither is a file named `__proto__`.
- The regular expressions of the video normaliser are hand-written matchers. `.` in `(?:\?.*)?` and `.*$` excludes line terminators, as in JavaScript without the `s` flag.
- `CONFIG.sizes` is the parameter `widths`. Its configured value is the constant `Sizes`.
- Object key order: an object is a map, so the key order that `JSON.stringify` writes is lost. `updateImageObject` puts `url` and `responsive` after the spread fields, and `pages.json` and `site.json` are written back in that order. The order does not change what any reader of the files computes.
- VideoUrl.VimeoPageUrl, VideoUrl.VimeoPlayerUrl, VideoUrl.YoutubeWatchUrl, VideoUrl.YoutuBeUrl: proved for the lower-case spellings of scheme and host. The matchers themselves compare case-insensitively, as the `i` flag does, but no lemma states that an upper-case spelling normalises.

## Findings

| source | as written | input that shows it | evidently intended | confidence | as-written member | corrected member |
|---|---|---|---|---|---|---|
| taishabtai-frontend/scripts/process-images.js:328 | The summary prints `processedCount * (CONFIG.sizes.length + 1)` as the number of variants generated. | One new image 1000 px wide: 5 variants are reported, but only 2 are written (640w and the original). | The number of variants actually written. | not executed | ProcessImages.ReportedTotalOvercounts | ProcessImages.ProcessFiles |
| taishabtai-frontend/scripts/process-images.js:158 | `processedImages[filename]` on an object literal also finds keys inherited from `Object.prototype`. | A reference `/uploads/constructor` passes the test without being a processed image, and `updateImageObject` then calls `.map` on a function. | Only images processed in this run match. | not executed | ProcessImages.InheritedNamePassesLookup | ProcessImages.ReplaceReference |
