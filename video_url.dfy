/** Video URL classification (`normaliseVideoUrl` in
    src/components/PageContent.jsx). The four provider regular expressions and
    the file-extension test are written out as string predicates; each
    `i`-flag comparison lower-cases ASCII letters, and `.` refuses the four
    JavaScript line terminators. */
module VideoUrl {
  import opened Text
  import opened JsonValues

  datatype VideoType = File | Embed
  datatype VideoInfo = VideoInfo(kind: VideoType, src: string)

  predicate IsLineTerminator(c: char) {
    c == '\n' || c == '\r' || c == '\U{2028}' || c == '\U{2029}'
  }

  predicate NoLineTerminator(s: string) {
    forall i | 0 <= i < |s| :: !IsLineTerminator(s[i])
  }

  /** `(?:\?.*)?$`: nothing more, or a query without line terminators. */
  predicate QueryTail(s: string) {
    s == "" || (s[0] == '?' && NoLineTerminator(s[1..]))
  }

  /** Case-insensitive prefix test against a lower-case ASCII pattern,
      character by character from position `k`. */
  predicate CiMatchFrom(s: string, p: string, k: nat)
    decreases |p| - k
  {
    k >= |p| || (k < |s| && LowerChar(s[k]) == p[k] && CiMatchFrom(s, p, k + 1))
  }

  predicate CiStartsWith(s: string, p: string) {
    |p| <= |s| && CiMatchFrom(s, p, 0)
  }

  predicate CiEndsWith(s: string, p: string) {
    |p| <= |s| && forall i | 0 <= i < |p| :: LowerChar(s[|s| - |p| + i]) == p[i]
  }

  predicate NoUpper(p: string) {
    forall i | 0 <= i < |p| :: !('A' <= p[i] <= 'Z')
  }

  /** A literal prefix without upper-case letters matches case-insensitively. */
  lemma CiStartsWithLiteral(p: string, rest: string)
    requires NoUpper(p)
    ensures CiStartsWith(p + rest, p)
  {
    CiMatchFromPrefix(p, rest, 0);
  }

  lemma {:induction false} CiMatchFromPrefix(p: string, rest: string, k: nat)
    requires NoUpper(p) && k <= |p|
    ensures CiMatchFrom(p + rest, p, k)
    decreases |p| - k
  {
    if k < |p| {
      assert (p + rest)[k] == p[k];
      CiMatchFromPrefix(p, rest, k + 1);
    }
  }

  /** One differing character (after lower-casing) rules a prefix out. */
  lemma CiMismatchAt(s: string, p: string, i: nat)
    requires i < |p| && (i >= |s| || LowerChar(s[i]) != p[i])
    ensures !CiStartsWith(s, p)
  {
    CiMismatchFrom(s, p, i, 0);
  }

  lemma {:induction false} CiMismatchFrom(s: string, p: string, i: nat, k: nat)
    requires k <= i < |p| && (i >= |s| || LowerChar(s[i]) != p[i])
    ensures !CiMatchFrom(s, p, k)
    decreases i - k
  {
    if k < i {
      CiMismatchFrom(s, p, i, k + 1);
    }
  }

  predicate IsDigit(c: char) { '0' <= c <= '9' }

  predicate IsHexDigit(c: char) { IsDigit(c) || 'a' <= c <= 'f' || 'A' <= c <= 'F' }

  predicate NotAmpersand(c: char) { c != '&' }

  predicate NotQuestionMark(c: char) { c != '?' }

  /** `^https?:\/\/`: what follows the scheme, if the URL has one. */
  function AfterScheme(u: string): (r: Option<string>)
    ensures r.Some? ==> EndsWith(u, r.value)
  {
    if CiStartsWith(u, "https://") then Some(u[8..])
    else if CiStartsWith(u, "http://") then Some(u[7..])
    else None
  }

  /** `(\d+)(?:\/([a-f0-9]+))?(?:\?.*)?$`: the video id and the privacy
      hash ("" when the optional group did not take part). */
  function VimeoIdAndHash(rest: string): (r: Option<(string, string)>)
    ensures r.Some? ==> r.value.0 != "" && forall i | 0 <= i < |r.value.0| :: IsDigit(r.value.0[i])
    ensures r.Some? ==> forall i | 0 <= i < |r.value.1| :: IsHexDigit(r.value.1[i])
  {
    var id := TakeWhile(rest, IsDigit);
    var tail := rest[|id|..];
    if id == "" then None
    else if QueryTail(tail) then Some((id, ""))
    else if tail[0] == '/' then
      var hash := TakeWhile(tail[1..], IsHexDigit);
      if hash != "" && QueryTail(tail[1 + |hash|..]) then Some((id, hash)) else None
    else None
  }

  /** `^https?:\/\/(?:www\.)?vimeo\.com\/(?:video\/)?` followed by the id and hash. */
  function MatchVimeo(u: string): (r: Option<(string, string)>)
    ensures r.Some? ==> r.value.0 != "" && forall i | 0 <= i < |r.value.0| :: IsDigit(r.value.0[i])
    ensures r.Some? ==> forall i | 0 <= i < |r.value.1| :: IsHexDigit(r.value.1[i])
  {
    match AfterScheme(u)
    case None => None
    case Some(host) =>
      var hostLen := if CiStartsWith(host, "www.vimeo.com/") then 14
                     else if CiStartsWith(host, "vimeo.com/") then 10
                     else 0;
      if hostLen == 0 then None
      else
        VimeoPath(host[hostLen..])
  }

  /** `(?:video\/)?` followed by the id and hash. */
  function VimeoPath(path: string): (r: Option<(string, string)>)
    ensures CiStartsWith(path, "video/") ==> r == VimeoIdAndHash(path[6..])
    ensures !CiStartsWith(path, "video/") ==> r == VimeoIdAndHash(path)
  {
    VimeoIdAndHash(if CiStartsWith(path, "video/") then path[6..] else path)
  }

  /** A non-empty run of characters satisfying `p`, followed by anything
      without a line terminator (`([^…]+).*$`). */
  function IdBefore(rest: string, p: char -> bool): (r: Option<string>)
    ensures r.Some? ==> r.value != "" && forall i | 0 <= i < |r.value| :: p(r.value[i])
  {
    var id := TakeWhile(rest, p);
    if id != "" && NoLineTerminator(rest[|id|..]) then Some(id) else None
  }

  /** `^https?:\/\/player\.vimeo\.com\/video\/(\d+)(?:\?.*)?$`. */
  function MatchVimeoPlayer(u: string): (r: Option<string>)
    ensures r.Some? ==> r.value != "" && forall i | 0 <= i < |r.value| :: IsDigit(r.value[i])
  {
    match AfterScheme(u)
    case None => None
    case Some(host) =>
      if !CiStartsWith(host, "player.vimeo.com/video/") then None
      else
        var rest := host[23..];
        var id := TakeWhile(rest, IsDigit);
        if id != "" && QueryTail(rest[|id|..]) then Some(id) else None
  }

  /** `^https?:\/\/(?:www\.)?youtube\.com\/watch\?v=([^&]+).*$`: the id runs
      to the first `&`. */
  function MatchYoutubeWatch(u: string): (r: Option<string>)
    ensures r.Some? ==> r.value != "" && '&' !in r.value
  {
    match AfterScheme(u)
    case None => None
    case Some(host) =>
      var prefixLen := if CiStartsWith(host, "www.youtube.com/watch?v=") then 24
                       else if CiStartsWith(host, "youtube.com/watch?v=") then 20
                       else 0;
      if prefixLen == 0 then None else IdBefore(host[prefixLen..], NotAmpersand)
  }

  /** `^https?:\/\/youtu\.be\/([^?]+).*$`: the id runs to the first `?`. */
  function MatchYoutuBe(u: string): (r: Option<string>)
    ensures r.Some? ==> r.value != "" && '?' !in r.value
  {
    match AfterScheme(u)
    case None => None
    case Some(host) =>
      if !CiStartsWith(host, "youtu.be/") then None else IdBefore(host[9..], NotQuestionMark)
  }

  predicate EndsWithVideoExtension(s: string) {
    CiEndsWith(s, ".mp4") || CiEndsWith(s, ".webm") || CiEndsWith(s, ".ogg")
  }

  /** `/\.(mp4|webm|ogg)(\?.*)?$/i.test(u)`: some position splits the URL
      into a part ending in a video extension and a query tail. */
  predicate IsVideoFile(u: string) {
    exists p | 0 <= p <= |u| :: EndsWithVideoExtension(u[..p]) && QueryTail(u[p..])
  }

  function VimeoEmbed(id: string, hash: string): string {
    if hash != "" then "https://player.vimeo.com/video/" + id + "?h=" + hash
    else "https://player.vimeo.com/video/" + id
  }

  function YoutubeEmbed(id: string): string {
    "https://www.youtube.com/embed/" + id
  }

  predicate MatchesProvider(url: string) {
    MatchVimeo(url).Some? || MatchVimeoPlayer(url).Some? || MatchYoutubeWatch(url).Some? || MatchYoutuBe(url).Some?
  }

  /** The classification of a trimmed, non-empty URL: the provider patterns
      in order, then the file test, then the generic embed. */
  function Classify(url: string): (r: VideoInfo)
    requires url != ""
    ensures r.src != ""
    ensures MatchesProvider(url) ==> r.kind == Embed
    ensures !MatchesProvider(url) ==> r.src == url && (r.kind == File <==> IsVideoFile(url))
  {
    if MatchVimeo(url).Some? then
      VideoInfo(Embed, VimeoEmbed(MatchVimeo(url).value.0, MatchVimeo(url).value.1))
    else if MatchVimeoPlayer(url).Some? then
      VideoInfo(Embed, VimeoEmbed(MatchVimeoPlayer(url).value, ""))
    else if MatchYoutubeWatch(url).Some? then
      VideoInfo(Embed, YoutubeEmbed(MatchYoutubeWatch(url).value))
    else if MatchYoutuBe(url).Some? then
      VideoInfo(Embed, YoutubeEmbed(MatchYoutuBe(url).value))
    else if IsVideoFile(url) then VideoInfo(File, url)
    else VideoInfo(Embed, url)
  }

  /** `normaliseVideoUrl(rawUrl)`; `None` for a missing URL is `undefined`. */
  function NormaliseVideoUrl(rawUrl: Option<string>): (r: Option<VideoInfo>)
    // missing or blank input gives null
    ensures r.None? <==> (rawUrl.None? || forall i | 0 <= i < |rawUrl.value| :: IsWhitespace(rawUrl.value[i]))
    // every result carries a non-empty source
    ensures r.Some? ==> r.value.src != ""
    // a provider match always yields an embed: providers are tried before the extension test
    ensures r.Some? && MatchesProvider(Trim(rawUrl.value)) ==> r.value.kind == Embed
    // without a provider match the trimmed URL is used unchanged, as a file exactly when it has a video extension
    ensures r.Some? && !MatchesProvider(Trim(rawUrl.value)) ==>
              r.value.src == Trim(rawUrl.value) && (r.value.kind == File <==> IsVideoFile(Trim(rawUrl.value)))
  {
    match rawUrl
    case None => None
    case Some(raw) =>
      TrimEmptyIffBlank(raw);
      var url := Trim(raw);
      if url == "" then None else Some(Classify(url))
  }

  /** The part of a Vimeo page URL after the id: an optional `/<hash>`. */
  function HashSuffix(hash: string): string {
    if hash != "" then "/" + hash else ""
  }

  /** `normaliseVideoUrl` on a URL that needs no trimming classifies it as it is. */
  lemma NormaliseTrimmed(url: string)
    requires url != "" && !IsWhitespace(url[0]) && !IsWhitespace(url[|url| - 1])
    ensures NormaliseVideoUrl(Some(url)) == Some(Classify(url))
  {
    TrimUnchanged(url);
  }

  lemma ClassifyVimeo(url: string, id: string, hash: string)
    requires url != "" && MatchVimeo(url) == Some((id, hash))
    ensures Classify(url) == VideoInfo(Embed, VimeoEmbed(id, hash))
  {
  }

  lemma ClassifyVimeoPlayer(url: string, id: string)
    requires url != "" && MatchVimeo(url).None? && MatchVimeoPlayer(url) == Some(id)
    ensures Classify(url) == VideoInfo(Embed, VimeoEmbed(id, ""))
  {
  }

  lemma ClassifyYoutubeWatch(url: string, id: string)
    requires url != "" && MatchVimeo(url).None? && MatchVimeoPlayer(url).None?
    requires MatchYoutubeWatch(url) == Some(id)
    ensures Classify(url) == VideoInfo(Embed, YoutubeEmbed(id))
  {
  }

  lemma ClassifyYoutuBe(url: string, id: string)
    requires url != "" && MatchVimeo(url).None? && MatchVimeoPlayer(url).None?
    requires MatchYoutubeWatch(url).None? && MatchYoutuBe(url) == Some(id)
    ensures Classify(url) == VideoInfo(Embed, YoutubeEmbed(id))
  {
  }

  /** The longer literal prefixes hold no upper-case letter. */
  lemma LowerLiterals()
    ensures NoUpper("www.youtube.com/watch?v=") && NoUpper("youtube.com/watch?v=")
  {
  }

  /** The two schemes `https?:\/\/` accepts, in lower case. */
  predicate WebScheme(scheme: string) {
    scheme == "https://" || scheme == "http://"
  }

  /** Either scheme is recognised and stripped. */
  lemma SchemeStrip(scheme: string, a: string)
    requires WebScheme(scheme)
    ensures AfterScheme(scheme + a) == Some(a)
  {
    var u := scheme + a;
    assert NoUpper(scheme);
    CiStartsWithLiteral(scheme, a);
    if scheme == "http://" {
      assert u[4] == ':';
      CiMismatchAt(u, "https://", 4);
      assert u[7..] == a;
    } else {
      assert u[8..] == a;
    }
  }

  /** The id, an optional `/hash` and a query tail parse back to id and hash. */
  lemma VimeoIdAndHashOf(id: string, hash: string, query: string)
    requires id != "" && forall i | 0 <= i < |id| :: IsDigit(id[i])
    requires forall i | 0 <= i < |hash| :: IsHexDigit(hash[i])
    requires QueryTail(query)
    ensures VimeoIdAndHash(id + (HashSuffix(hash) + query)) == Some((id, hash))
  {
    var tail := HashSuffix(hash) + query;
    var rest := id + tail;
    TakeWhileOfAppend(id, tail, IsDigit);
    assert rest[|id|..] == tail;
    if hash != "" {
      HashTailOf(hash, query);
    }
  }

  lemma HashTailOf(hash: string, query: string)
    requires hash != ""
    requires forall i | 0 <= i < |hash| :: IsHexDigit(hash[i])
    requires QueryTail(query)
    ensures var tail := "/" + hash + query;
            !QueryTail(tail) && tail[0] == '/' && TakeWhile(tail[1..], IsHexDigit) == hash
            && QueryTail(tail[1 + |hash|..])
  {
    var tail := "/" + hash + query;
    assert tail[1..] == hash + query;
    TakeWhileOfAppend(hash, query, IsHexDigit);
    assert tail[1 + |hash|..] == query;
  }

  lemma VimeoPathOf(segment: string, rest: string)
    requires segment == "video/" || segment == ""
    requires rest != "" && IsDigit(rest[0])
    ensures VimeoPath(segment + rest) == VimeoIdAndHash(rest)
  {
    if segment == "video/" {
      assert NoUpper("video/");
      CiStartsWithLiteral("video/", rest);
      assert (segment + rest)[6..] == rest;
    } else {
      assert segment + rest == rest;
      CiMismatchAt(rest, "video/", 0);
    }
  }

  lemma VimeoWwwHost(scheme: string, path: string)
    requires WebScheme(scheme)
    ensures MatchVimeo(scheme + ("www.vimeo.com/" + path)) == VimeoPath(path)
  {
    var a := "www.vimeo.com/" + path;
    SchemeStrip(scheme, a);
    assert NoUpper("www.vimeo.com/");
    CiStartsWithLiteral("www.vimeo.com/", path);
    assert a[14..] == path;
  }

  lemma VimeoBareHost(scheme: string, path: string)
    requires WebScheme(scheme)
    ensures MatchVimeo(scheme + ("vimeo.com/" + path)) == VimeoPath(path)
  {
    var a := "vimeo.com/" + path;
    SchemeStrip(scheme, a);
    assert a[0] == 'v';
    CiMismatchAt(a, "www.vimeo.com/", 0);
    assert NoUpper("vimeo.com/");
    CiStartsWithLiteral("vimeo.com/", path);
    assert a[10..] == path;
  }

  /** The host part of a Vimeo page URL, `www.` and `video/` optional. */
  lemma VimeoHostOf(scheme: string, host: string, segment: string, rest: string)
    requires WebScheme(scheme)
    requires host == "www.vimeo.com/" || host == "vimeo.com/"
    requires segment == "video/" || segment == ""
    requires rest != "" && IsDigit(rest[0])
    ensures MatchVimeo(scheme + (host + (segment + rest))) == VimeoIdAndHash(rest)
  {
    if host == "www.vimeo.com/" {
      VimeoWwwHost(scheme, segment + rest);
    } else {
      VimeoBareHost(scheme, segment + rest);
    }
    VimeoPathOf(segment, rest);
  }

  /** The assembled Vimeo page URL has no whitespace at either end. */
  lemma VimeoUrlTrimmed(scheme: string, host: string, segment: string, id: string, hash: string, query: string)
    requires WebScheme(scheme)
    requires id != "" && forall i | 0 <= i < |id| :: IsDigit(id[i])
    requires forall i | 0 <= i < |hash| :: IsHexDigit(hash[i])
    requires query == "" || !IsWhitespace(query[|query| - 1])
    ensures var url := scheme + (host + (segment + (id + (HashSuffix(hash) + query))));
            !IsWhitespace(url[0]) && !IsWhitespace(url[|url| - 1])
  {
    var rest := id + (HashSuffix(hash) + query);
    var url := scheme + (host + (segment + rest));
    assert url[0] == scheme[0];
    assert url[|url| - 1] == rest[|rest| - 1];
    if query != "" {
      assert rest[|rest| - 1] == query[|query| - 1];
    } else if hash != "" {
      assert rest[|rest| - 1] == hash[|hash| - 1];
    } else {
      assert rest[|rest| - 1] == id[|id| - 1];
    }
  }

  lemma VimeoPageMatch(scheme: string, host: string, segment: string, id: string, hash: string, query: string)
    requires WebScheme(scheme)
    requires host == "www.vimeo.com/" || host == "vimeo.com/"
    requires segment == "video/" || segment == ""
    requires id != "" && forall i | 0 <= i < |id| :: IsDigit(id[i])
    requires forall i | 0 <= i < |hash| :: IsHexDigit(hash[i])
    requires QueryTail(query)
    ensures MatchVimeo(scheme + (host + (segment + (id + (HashSuffix(hash) + query))))) == Some((id, hash))
  {
    VimeoIdAndHashOf(id, hash, query);
    VimeoHostOf(scheme, host, segment, id + (HashSuffix(hash) + query));
  }

  /** `vimeo.com/<id>` and `vimeo.com/video/<id>/<hash>` (`www.` optional,
      any query) become the player URL, with `?h=<hash>` only when there is a
      hash. */
  lemma VimeoPageUrl(scheme: string, host: string, segment: string, id: string, hash: string, query: string)
    requires WebScheme(scheme)
    requires host == "www.vimeo.com/" || host == "vimeo.com/"
    requires segment == "video/" || segment == ""
    requires id != "" && forall i | 0 <= i < |id| :: IsDigit(id[i])
    requires forall i | 0 <= i < |hash| :: IsHexDigit(hash[i])
    requires QueryTail(query) && (query == "" || !IsWhitespace(query[|query| - 1]))
    ensures NormaliseVideoUrl(Some(scheme + (host + (segment + (id + (HashSuffix(hash) + query))))))
            == Some(VideoInfo(Embed, VimeoEmbed(id, hash)))
  {
    var url := scheme + (host + (segment + (id + (HashSuffix(hash) + query))));
    VimeoUrlTrimmed(scheme, host, segment, id, hash, query);
    VimeoPageMatch(scheme, host, segment, id, hash, query);
    ClassifyVimeo(url, id, hash);
    NormaliseTrimmed(url);
  }

  lemma NotVimeo(scheme: string, a: string)
    requires WebScheme(scheme)
    requires !CiStartsWith(a, "www.vimeo.com/") && !CiStartsWith(a, "vimeo.com/")
    ensures MatchVimeo(scheme + a).None?
  {
    SchemeStrip(scheme, a);
  }

  lemma NotVimeoPlayer(scheme: string, a: string)
    requires WebScheme(scheme)
    requires !CiStartsWith(a, "player.vimeo.com/video/")
    ensures MatchVimeoPlayer(scheme + a).None?
  {
    SchemeStrip(scheme, a);
  }

  lemma NotYoutubeWatch(scheme: string, a: string)
    requires WebScheme(scheme)
    requires !CiStartsWith(a, "www.youtube.com/watch?v=") && !CiStartsWith(a, "youtube.com/watch?v=")
    ensures MatchYoutubeWatch(scheme + a).None?
  {
    SchemeStrip(scheme, a);
  }

  /** A host starting `y` matches neither Vimeo pattern. */
  lemma StartsWithYNotVimeo(scheme: string, a: string)
    requires WebScheme(scheme)
    requires a != "" && a[0] == 'y'
    ensures MatchVimeo(scheme + a).None? && MatchVimeoPlayer(scheme + a).None?
  {
    CiMismatchAt(a, "player.vimeo.com/video/", 0);
    NotVimeoPlayer(scheme, a);
    CiMismatchAt(a, "vimeo.com/", 0);
    CiMismatchAt(a, "www.vimeo.com/", 0);
    NotVimeo(scheme, a);
  }

  lemma YoutubeWwwHost(scheme: string, rest: string)
    requires WebScheme(scheme)
    ensures var url := scheme + ("www.youtube.com/watch?v=" + rest);
            MatchVimeo(url).None? && MatchVimeoPlayer(url).None?
            && MatchYoutubeWatch(url) == IdBefore(rest, NotAmpersand)
  {
    var a := "www.youtube.com/watch?v=" + rest;
    WwwYoutubeNotVimeo(scheme, a);
    SchemeStrip(scheme, a);
    LowerLiterals();
    CiStartsWithLiteral("www.youtube.com/watch?v=", rest);
    assert a[24..] == rest;
  }

  lemma WwwYoutubeNotVimeo(scheme: string, a: string)
    requires WebScheme(scheme)
    requires |a| > 4 && a[0] == 'w' && a[4] == 'y'
    ensures MatchVimeo(scheme + a).None? && MatchVimeoPlayer(scheme + a).None?
  {
    CiMismatchAt(a, "player.vimeo.com/video/", 0);
    NotVimeoPlayer(scheme, a);
    CiMismatchAt(a, "vimeo.com/", 0);
    CiMismatchAt(a, "www.vimeo.com/", 4);
    NotVimeo(scheme, a);
  }

  lemma YoutubeBareHost(scheme: string, rest: string)
    requires WebScheme(scheme)
    ensures var url := scheme + ("youtube.com/watch?v=" + rest);
            MatchVimeo(url).None? && MatchVimeoPlayer(url).None?
            && MatchYoutubeWatch(url) == IdBefore(rest, NotAmpersand)
  {
    var a := "youtube.com/watch?v=" + rest;
    assert a[0] == 'y';
    StartsWithYNotVimeo(scheme, a);
    SchemeStrip(scheme, a);
    CiMismatchAt(a, "www.youtube.com/watch?v=", 0);
    LowerLiterals();
    CiStartsWithLiteral("youtube.com/watch?v=", rest);
    assert a[20..] == rest;
  }

  lemma YoutubeWatchMatch(scheme: string, host: string, id: string, rest: string)
    requires WebScheme(scheme)
    requires host == "www.youtube.com/watch?v=" || host == "youtube.com/watch?v="
    requires id != "" && forall i | 0 <= i < |id| :: id[i] != '&'
    requires rest == "" || rest[0] == '&'
    requires forall i | 0 <= i < |rest| :: !IsWhitespace(rest[i])
    ensures var url := scheme + (host + (id + rest));
            MatchVimeo(url).None? && MatchVimeoPlayer(url).None? && MatchYoutubeWatch(url) == Some(id)
  {
    IdBeforeOf(id, rest, NotAmpersand);
    if host == "www.youtube.com/watch?v=" {
      YoutubeWwwHost(scheme, id + rest);
    } else {
      YoutubeBareHost(scheme, id + rest);
    }
  }

  /** An id followed by a tail, both free of surrounding whitespace, after
      a scheme and a host: the whole URL needs no trimming. */
  lemma UrlTrimmed(scheme: string, host: string, id: string, rest: string)
    requires WebScheme(scheme)
    requires id != "" && !IsWhitespace(id[|id| - 1])
    requires rest == "" || !IsWhitespace(rest[|rest| - 1])
    ensures var url := scheme + (host + (id + rest));
            !IsWhitespace(url[0]) && !IsWhitespace(url[|url| - 1])
  {
    var url := scheme + (host + (id + rest));
    assert url[0] == scheme[0];
    assert url[|url| - 1] == (if rest != "" then rest[|rest| - 1] else id[|id| - 1]);
  }

  /** `youtube.com/watch?v=<id>…` (`www.` optional) becomes the embed URL;
      the id ends at the first `&`. */
  lemma YoutubeWatchUrl(scheme: string, host: string, id: string, rest: string)
    requires WebScheme(scheme)
    requires host == "www.youtube.com/watch?v=" || host == "youtube.com/watch?v="
    requires id != "" && forall i | 0 <= i < |id| :: id[i] != '&' && !IsWhitespace(id[i])
    requires rest == "" || (rest[0] == '&' && forall i | 0 <= i < |rest| :: !IsWhitespace(rest[i]))
    ensures NormaliseVideoUrl(Some(scheme + (host + (id + rest)))) == Some(VideoInfo(Embed, YoutubeEmbed(id)))
  {
    var url := scheme + (host + (id + rest));
    assert !IsWhitespace(id[|id| - 1]);
    UrlTrimmed(scheme, host, id, rest);
    YoutubeWatchMatch(scheme, host, id, rest);
    ClassifyYoutubeWatch(url, id);
    NormaliseTrimmed(url);
  }

  lemma IdBeforeOf(id: string, rest: string, p: char -> bool)
    requires id != "" && forall i | 0 <= i < |id| :: p(id[i])
    requires rest == "" || !p(rest[0])
    requires forall i | 0 <= i < |rest| :: !IsWhitespace(rest[i])
    ensures IdBefore(id + rest, p) == Some(id)
  {
    TakeWhileOfAppend(id, rest, p);
    assert (id + rest)[|id|..] == rest;
  }

  lemma YoutuBeNotWatch(rest: string)
    ensures var a := "youtu.be/" + rest;
            !CiStartsWith(a, "www.youtube.com/watch?v=") && !CiStartsWith(a, "youtube.com/watch?v=")
  {
    var a := "youtu.be/" + rest;
    assert a[0] == "youtu.be/"[0] == 'y';
    assert a[5] == "youtu.be/"[5] == '.';
    CiMismatchAt(a, "www.youtube.com/watch?v=", 0);
    CiMismatchAt(a, "youtube.com/watch?v=", 5);
  }

  /** A short YouTube URL matches none of the earlier patterns, and its id is
      what follows `youtu.be/` up to the first `?`. */
  lemma YoutuBeHost(scheme: string, rest: string)
    requires WebScheme(scheme)
    ensures var url := scheme + ("youtu.be/" + rest);
            MatchVimeo(url).None? && MatchVimeoPlayer(url).None? && MatchYoutubeWatch(url).None?
            && MatchYoutuBe(url) == IdBefore(rest, NotQuestionMark)
  {
    var a := "youtu.be/" + rest;
    assert a[0] == "youtu.be/"[0] == 'y';
    StartsWithYNotVimeo(scheme, a);
    YoutuBeNotWatch(rest);
    NotYoutubeWatch(scheme, a);
    SchemeStrip(scheme, a);
    assert NoUpper("youtu.be/");
    CiStartsWithLiteral("youtu.be/", rest);
    assert a[9..] == rest;
  }

  /** `youtu.be/<id>…` becomes the same embed URL; the id ends at the first `?`. */
  lemma YoutuBeUrl(scheme: string, id: string, rest: string)
    requires WebScheme(scheme)
    requires id != "" && forall i | 0 <= i < |id| :: id[i] != '?' && !IsWhitespace(id[i])
    requires rest == "" || (rest[0] == '?' && forall i | 0 <= i < |rest| :: !IsWhitespace(rest[i]))
    ensures NormaliseVideoUrl(Some(scheme + ("youtu.be/" + (id + rest)))) == Some(VideoInfo(Embed, YoutubeEmbed(id)))
  {
    var url := scheme + ("youtu.be/" + (id + rest));
    assert !IsWhitespace(id[|id| - 1]);
    UrlTrimmed(scheme, "youtu.be/", id, rest);
    IdBeforeOf(id, rest, NotQuestionMark);
    YoutuBeHost(scheme, id + rest);
    ClassifyYoutuBe(url, id);
    NormaliseTrimmed(url);
  }

  /** A player URL matches neither Vimeo page pattern, and its id is the
      run of digits after `player.vimeo.com/video/`. */
  lemma VimeoPlayerHost(scheme: string, host: string, id: string, query: string)
    requires WebScheme(scheme)
    requires host == "player.vimeo.com/video/"
    requires id != "" && forall i | 0 <= i < |id| :: IsDigit(id[i])
    requires QueryTail(query)
    ensures var url := scheme + (host + (id + query));
            MatchVimeo(url).None? && MatchVimeoPlayer(url) == Some(id)
  {
    var a := host + (id + query);
    assert a[0] == 'p';
    CiMismatchAt(a, "www.vimeo.com/", 0);
    CiMismatchAt(a, "vimeo.com/", 0);
    NotVimeo(scheme, a);
    SchemeStrip(scheme, a);
    assert NoUpper(host);
    CiStartsWithLiteral(host, id + query);
    assert a[23..] == id + query;
    TakeWhileOfAppend(id, query, IsDigit);
    assert (id + query)[|id|..] == query;
  }

  lemma PlayerUrlNormalises(url: string, id: string)
    requires url != "" && !IsWhitespace(url[0]) && !IsWhitespace(url[|url| - 1])
    requires MatchVimeo(url).None? && MatchVimeoPlayer(url) == Some(id)
    ensures NormaliseVideoUrl(Some(url)) == Some(VideoInfo(Embed, VimeoEmbed(id, "")))
  {
    ClassifyVimeoPlayer(url, id);
    NormaliseTrimmed(url);
  }

  /** `player.vimeo.com/video/<id>` is canonicalised: the query string is
      dropped and no hash is added. */
  lemma VimeoPlayerUrl(scheme: string, host: string, id: string, query: string)
    requires WebScheme(scheme)
    requires host == "player.vimeo.com/video/"
    requires id != "" && forall i | 0 <= i < |id| :: IsDigit(id[i])
    requires QueryTail(query) && (query == "" || !IsWhitespace(query[|query| - 1]))
    ensures NormaliseVideoUrl(Some(scheme + (host + (id + query))))
            == Some(VideoInfo(Embed, VimeoEmbed(id, "")))
  {
    var url := scheme + (host + (id + query));
    assert !IsWhitespace(id[|id| - 1]);
    UrlTrimmed(scheme, host, id, query);
    VimeoPlayerHost(scheme, host, id, query);
    PlayerUrlNormalises(url, id);
  }

  /** A URL that ends in a video extension (in any letter case) is a file. */
  lemma VideoExtensionIsFile(u: string)
    requires CiEndsWith(u, ".mp4") || CiEndsWith(u, ".webm") || CiEndsWith(u, ".ogg")
    ensures IsVideoFile(u)
  {
    assert u[..|u|] == u;
    assert QueryTail(u[|u|..]);
  }
}
