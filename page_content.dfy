/** Page rendering (src/components/PageContent.jsx): a page's header and its
    list of content blocks (rich text, image, video) turned into what the
    browser shows. The React elements are modelled as view values; `None`
    stands for a `null` the component renders as nothing. */
module PageContent {
  import opened Text
  import opened JsonValues
  import opened Media
  import opened VideoUrl

  /** A paragraph: one entry per child, the text of a `text` child and
      nothing for any other child. */
  datatype Paragraph = Paragraph(children: seq<Option<Json>>)

  datatype BlockView =
    | TextBlockView(body: Option<seq<Option<Paragraph>>>)
    | ImageView(src: string, alt: Json, caption: Option<Json>)
    | NoImagePlaceholder
    | VideoPlayer(src: string)
    | VideoFrame(src: string, title: Json)

  datatype PageView = PageView(title: Json, subtitle: Option<Json>, content: Option<seq<Option<BlockView>>>)

  /** The elements of an array, and none for any other value. */
  function Items(j: Json): (r: seq<Json>)
    ensures j.Arr? ==> r == j.items
    ensures !j.Arr? ==> r == []
  {
    if j.Arr? then j.items else []
  }

  function ChildText(child: Json): (r: Option<Json>)
    ensures r.Some? <==> Get(child, "type") == Str("text")
    ensures r.Some? ==> r.value == Get(child, "text")
  {
    if Get(child, "type") == Str("text") then Some(Get(child, "text")) else None
  }

  /** One rich-text block: a paragraph keeps one entry per child, in order;
      every other block type renders as nothing. */
  function RenderParagraph(block: Json): (r: Option<Paragraph>)
    ensures r.Some? <==> Get(block, "type") == Str("paragraph")
    ensures r.Some? ==> |r.value.children| == |Items(Get(block, "children"))|
    ensures r.Some? ==> forall i | 0 <= i < |r.value.children| ::
                          r.value.children[i] == ChildText(Items(Get(block, "children"))[i])
  {
    if Get(block, "type") == Str("paragraph") then
      var children := Items(Get(block, "children"));
      Some(Paragraph(seq(|children|, i requires 0 <= i < |children| => ChildText(children[i]))))
    else None
  }

  /** `renderRichText(richTextBlocks)`. */
  function RenderRichText(text: Json): (r: Option<seq<Option<Paragraph>>>)
    // null or absent rich text renders as nothing
    ensures !Truthy(text) ==> r.None?
    // an array renders one entry per block, in order
    ensures text.Arr? <==> r.Some?
    ensures r.Some? ==> |r.value| == |text.items|
                        && forall i | 0 <= i < |r.value| :: r.value[i] == RenderParagraph(text.items[i])
  {
    if text.Arr? then
      Some(seq(|text.items|, i requires 0 <= i < |text.items| => RenderParagraph(text.items[i])))
    else None
  }

  /** The title an embedded video without its own title gets: its one-based
      position in the page. */
  function DefaultVideoTitle(index: nat): string {
    "Embedded video " + NatToString(index + 1)
  }

  /** What `normaliseVideoUrl` receives for a block's `url` field. */
  function RawVideoUrl(url: Json): Option<string> {
    if url.Str? then Some(url.s) else None
  }

  /** The `map` callback of `renderContent` for the block at `index`. */
  function RenderBlock(block: Json, index: nat, isDev: bool): (r: Option<BlockView>)
    // only the three known component types render anything
    ensures r.Some? ==> Get(block, "__component") in
                          {Str("text.text-block"), Str("image.image-block"), Str("video.video-embed")}
    // a text block always renders, with its rich text
    ensures Get(block, "__component") == Str("text.text-block") ==>
              r == Some(TextBlockView(RenderRichText(Get(block, "text"))))
    // an image block always renders: the image when its URL resolves, the placeholder otherwise
    ensures Get(block, "__component") == Str("image.image-block") ==>
              r.Some? && (r.value.ImageView? <==> ResolveMediaUrl(Get(block, "image"), isDev).Some?)
              && (r.value.ImageView? ==> r.value.src == ResolveMediaUrl(Get(block, "image"), isDev).value)
              && (!r.value.ImageView? ==> r.value == NoImagePlaceholder)
    // the alt text is the caption, or "Image" without one; the caption line appears only when it is truthy
    ensures r.Some? && r.value.ImageView? ==>
              (Truthy(Get(block, "caption")) ==> r.value.alt == Get(block, "caption")
                                                 && r.value.caption == Some(Get(block, "caption")))
              && (!Truthy(Get(block, "caption")) ==> r.value.alt == Str("Image") && r.value.caption.None?)
    // a video block renders exactly when its URL normalises, as a player for files and a frame otherwise
    ensures Get(block, "__component") == Str("video.video-embed") ==>
              var info := NormaliseVideoUrl(RawVideoUrl(Get(block, "url")));
              (r.Some? <==> info.Some?)
              && (r.Some? ==> (r.value.VideoPlayer? <==> info.value.kind == File)
                              && (r.value.VideoPlayer? || r.value.VideoFrame?)
                              && r.value.src == info.value.src)
    // a frame carries the block's title, or the positional default
    ensures r.Some? && r.value.VideoFrame? ==>
              (Truthy(Get(block, "title")) ==> r.value.title == Get(block, "title"))
              && (!Truthy(Get(block, "title")) ==> r.value.title == Str(DefaultVideoTitle(index)))
  {
    var component := Get(block, "__component");
    if component == Str("text.text-block") then
      Some(TextBlockView(RenderRichText(Get(block, "text"))))
    else if component == Str("image.image-block") then
      var caption := Get(block, "caption");
      match ResolveMediaUrl(Get(block, "image"), isDev)
      case Some(src) =>
        Some(ImageView(src, Or(caption, Str("Image")), if Truthy(caption) then Some(caption) else None))
      case None => Some(NoImagePlaceholder)
    else if component == Str("video.video-embed") then
      match NormaliseVideoUrl(RawVideoUrl(Get(block, "url")))
      case None => None
      case Some(info) =>
        if info.kind == File then Some(VideoPlayer(info.src))
        else Some(VideoFrame(info.src, Or(Get(block, "title"), Str(DefaultVideoTitle(index)))))
    else None
  }

  /** `renderContent(contentBlocks)`. */
  function RenderContent(content: Json, isDev: bool): (r: Option<seq<Option<BlockView>>>)
    // absent content renders as nothing
    ensures !Truthy(content) ==> r.None?
    // an array renders one entry per block, in order, each knowing its position
    ensures content.Arr? <==> r.Some?
    ensures r.Some? ==> |r.value| == |content.items|
                        && forall i | 0 <= i < |r.value| :: r.value[i] == RenderBlock(content.items[i], i, isDev)
  {
    if content.Arr? then
      Some(seq(|content.items|, i requires 0 <= i < |content.items| => RenderBlock(content.items[i], i, isDev)))
    else None
  }

  /** The `PageContent` component: nothing without a page; otherwise the
      title, the subtitle when it is truthy, and the rendered content. */
  function RenderPage(page: Json, isDev: bool): (r: Option<PageView>)
    ensures r.Some? <==> Truthy(page)
    ensures r.Some? ==> r.value.title == Get(page, "title")
                        && (r.value.subtitle.Some? <==> Truthy(Get(page, "subtitle")))
                        && r.value.content == RenderContent(Get(page, "content"), isDev)
  {
    if !Truthy(page) then None
    else
      var subtitle := Get(page, "subtitle");
      Some(PageView(Get(page, "title"), if Truthy(subtitle) then Some(subtitle) else None,
                    RenderContent(Get(page, "content"), isDev)))
  }

  /** Untitled embedded videos at different positions get different titles. */
  lemma DefaultTitlesDistinct(i: nat, j: nat)
    requires i != j
    ensures DefaultVideoTitle(i) != DefaultVideoTitle(j)
  {
    if DefaultVideoTitle(i) == DefaultVideoTitle(j) {
      var p := "Embedded video ";
      assert DefaultVideoTitle(i)[|p|..] == NatToString(i + 1);
      assert DefaultVideoTitle(j)[|p|..] == NatToString(j + 1);
      NatToStringInjective(i + 1, j + 1);
    }
  }

  /** Moving a block to another position changes its view only through the
      default title of an untitled embedded video. */
  lemma PositionOnlyAffectsDefaultTitle(block: Json, i: nat, j: nat, isDev: bool)
    ensures var a, b := RenderBlock(block, i, isDev), RenderBlock(block, j, isDev);
            a.Some? == b.Some?
            && (a.Some? && !a.value.VideoFrame? ==> a == b)
            && (a.Some? && a.value.VideoFrame? ==>
                  b.value.VideoFrame? && a.value.src == b.value.src && (Truthy(Get(block, "title")) ==> a == b))
  {
  }

  /** A video block holding a YouTube watch URL renders as an embedded frame
      on the embed address of the id. */
  lemma YoutubeBlockRendersFrame(block: Json, index: nat, isDev: bool, scheme: string, host: string, id: string, rest: string)
    requires Get(block, "__component") == Str("video.video-embed")
    requires WebScheme(scheme)
    requires Get(block, "url") == Str(scheme + (host + (id + rest)))
    requires host == "www.youtube.com/watch?v=" || host == "youtube.com/watch?v="
    requires id != "" && forall i | 0 <= i < |id| :: id[i] != '&' && !IsWhitespace(id[i])
    requires rest == "" || (rest[0] == '&' && forall i | 0 <= i < |rest| :: !IsWhitespace(rest[i]))
    ensures RenderBlock(block, index, isDev).Some?
    ensures RenderBlock(block, index, isDev).value.VideoFrame?
    ensures RenderBlock(block, index, isDev).value.src == YoutubeEmbed(id)
  {
    YoutubeWatchUrl(scheme, host, id, rest);
  }
}
