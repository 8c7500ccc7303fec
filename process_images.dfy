/** The build-time image optimiser (scripts/process-images.js): which widths
    of an image get a resized variant and what the variants are called, the
    encoder quality, the rewrite of image references in the page and site
    data, and the cache rule of the main loop. The `sharp` encoder, the MD5
    file hash, file sizes and all file I/O are parameters or left out. */
module ProcessImages {
  import opened Text
  import opened JsonValues
  import Media
  import ResponsiveImage

  /** `CONFIG.sizes`: the width breakpoints, in increasing order. */
  const Sizes: seq<nat> := [640, 1024, 1920, 2560]

  /** The extensions `main` keeps (compared lower-cased). */
  const ImageExtensions: seq<string> := [".jpg", ".jpeg", ".png", ".webp"]

  /** The directory the rewritten references point into. */
  const OptimizedDir := "/images/optimized/"

  // ----- Paths -----

  /** The position of the last `c` in `s`, or -1. */
  function LastIndexOf(s: string, c: char): (i: int)
    ensures -1 <= i < |s|
  {
    if s == [] then -1
    else if s[|s| - 1] == c then |s| - 1
    else LastIndexOf(s[..|s| - 1], c)
  }

  /** `LastIndexOf` finds a `c`, and none comes after it. */
  lemma {:induction false} LastIndexOfFinds(s: string, c: char)
    ensures LastIndexOf(s, c) >= 0 ==> s[LastIndexOf(s, c)] == c
    ensures forall j | LastIndexOf(s, c) < j < |s| :: s[j] != c
    ensures LastIndexOf(s, c) == -1 <==> c !in s
  {
    if s != [] && s[|s| - 1] != c {
      LastIndexOfFinds(s[..|s| - 1], c);
      assert forall j | 0 <= j < |s| - 1 :: s[..|s| - 1][j] == s[j];
    }
  }

  /** Node's `path.extname` on a file name: from the last dot on, except
      that a name whose only dot leads it (`.env`) and the name `..` have
      no extension. */
  function NameExt(name: string): (r: string)
    ensures |r| < |name| || r == ""
  {
    var d := LastIndexOf(name, '.');
    if d <= 0 || name == ".." then "" else name[d..]
  }

  /** `path.extname(p)` for a POSIX path. */
  function Extname(p: string): (r: string)
    ensures |r| < |Basename(p)| || r == ""
  {
    NameExt(Basename(p))
  }

  /** `path.basename(p, path.extname(p))`: the last segment less its extension. */
  function Stem(p: string): string {
    var b := Basename(p);
    b[..|b| - |Extname(p)|]
  }

  /** An extension is empty or a dot, not at the start of the name,
      followed by dot-free text that ends the name; stem and extension
      put back together give the base name. */
  lemma ExtnameShape(p: string)
    ensures var ext := Extname(p);
            (ext == "" || (ext[0] == '.' && |ext| < |Basename(p)| && EndsWith(Basename(p), ext)))
            && (forall j | 1 <= j < |ext| :: ext[j] != '.')
            && Stem(p) + ext == Basename(p)
            && (ext != "" ==> Stem(p) != "")
            && (ext != "" <==> 0 < LastIndexOf(Basename(p), '.') && Basename(p) != "..")
  {
    var name := Basename(p);
    LastIndexOfFinds(name, '.');
    assert name[..|name| - |Extname(p)|] + Extname(p) == name;
  }

  // ----- Encoder quality -----

  /** `ext.toLowerCase().replace('.', '')`: the first dot removed. */
  function Format(ext: string): (r: string)
    ensures '.' !in Lower(ext) ==> r == Lower(ext)
    ensures ext != [] && ext[0] == '.' ==> r == Lower(ext)[1..]
  {
    var s := Lower(ext);
    var i := IndexOf(s, '.');
    if i == |s| then s else s[..i] + s[i + 1..]
  }

  /** `CONFIG.quality[format] || 85`. */
  function Quality(format: string): (q: nat)
    ensures format == "png" ==> q == 90
    ensures format != "png" ==> q == 85
  {
    var table := map["jpeg" := 85, "jpg" := 85, "png" := 90, "webp" := 85];
    if format in table then table[format] else 85
  }

  /** The quality each of the three chained encoder calls receives; `None`
      is `undefined`, the encoder's own default. */
  datatype EncoderQualities = EncoderQualities(jpeg: Option<nat>, png: Option<nat>, webp: Option<nat>)

  function Encoders(format: string): (e: EncoderQualities)
    ensures e.jpeg.Some? <==> format == "jpg" || format == "jpeg"
    ensures e.png.Some? <==> format == "png"
    ensures e.webp.Some? <==> format == "webp"
  {
    var q := Quality(format);
    EncoderQualities(if format == "jpg" || format == "jpeg" then Some(q) else None,
                     if format == "png" then Some(q) else None,
                     if format == "webp" then Some(q) else None)
  }

  /** Each of the four kept extensions, in any letter case, passes its
      quality to exactly its own encoder: 90 for PNG, 85 for the others. */
  lemma EncoderForKeptExtension(ext: string)
    requires Lower(ext) in ImageExtensions
    ensures var e := Encoders(Format(ext));
            (e.jpeg.Some? && e.png.None? && e.webp.None? && e.jpeg.value == 85)
            || (e.jpeg.None? && e.png.Some? && e.webp.None? && e.png.value == 90)
            || (e.jpeg.None? && e.png.None? && e.webp.Some? && e.webp.value == 85)
  {
    var s := Lower(ext);
    assert s[0] == '.';
    assert ext[0] == '.' by {
      assert LowerChar(ext[0]) == '.';
    }
    assert Format(ext) == s[1..];
  }

  // ----- Image references -----

  /** `extractImageUrl(imageObj)`: `Null` is the JavaScript `null`. */
  function ExtractImageUrl(imageObj: Json): (r: Json)
    ensures !Truthy(imageObj) ==> r == Null
    ensures Truthy(imageObj) && imageObj.Str? ==> r == imageObj
    ensures Truthy(imageObj) && !imageObj.Str? ==> r == Or(Media.ObjectUrl(imageObj), Null)
  {
    if !Truthy(imageObj) then Null
    else if imageObj.Str? then imageObj
    else Or(Or(Or(Get(imageObj, "url"), Get(Get(imageObj, "attributes"), "url")),
               Get(Get(Get(imageObj, "data"), "attributes"), "url")),
            Null)
  }

  /** The result is `null` or a truthy URL, and it is truthy exactly when
      the reference is a non-empty string or an object with a truthy
      `url`, `attributes.url` or `data.attributes.url`. */
  lemma ExtractImageUrlTruthy(imageObj: Json)
    ensures var r := ExtractImageUrl(imageObj);
            (r == Null || Truthy(r))
            && (Truthy(r) <==> Truthy(imageObj) && (imageObj.Str? || Truthy(Media.ObjectUrl(imageObj))))
  {
  }

  // ----- Variants -----

  /** One entry of `processImage`'s result: `{width, filename, size}`, with
      `original: true` on the full-resolution copy. */
  datatype Variant = Variant(width: int, filename: string, size: int, original: bool)

  /** The configured widths `processImage` does not skip for an original
      `originalWidth` pixels wide, in configured order. */
  function KeptWidths(widths: seq<nat>, originalWidth: int): (r: seq<nat>)
    ensures |r| <= |widths|
    ensures forall j | 0 <= j < |r| :: r[j] <= originalWidth
  {
    if widths == [] then []
    else
      var width := widths[|widths| - 1];
      KeptWidths(widths[..|widths| - 1], originalWidth) + (if originalWidth < width then [] else [width])
  }

  /** The positions in `widths` of the widths `KeptWidths` keeps, in order. */
  function KeptIndices(widths: seq<nat>, originalWidth: int): (r: seq<nat>)
    ensures forall j | 0 <= j < |r| :: r[j] < |widths|
  {
    if widths == [] then []
    else
      var n := |widths| - 1;
      KeptIndices(widths[..n], originalWidth) + (if originalWidth < widths[n] then [] else [n])
  }

  /** The kept widths are the configured widths read at increasing
      positions: `KeptWidths` is a subsequence of `widths`. */
  lemma {:induction false} KeptWidthsSubsequence(widths: seq<nat>, originalWidth: int)
    ensures |KeptIndices(widths, originalWidth)| == |KeptWidths(widths, originalWidth)|
    ensures forall j | 0 <= j < |KeptWidths(widths, originalWidth)| ::
              KeptWidths(widths, originalWidth)[j] == widths[KeptIndices(widths, originalWidth)[j]]
    ensures forall j, k | 0 <= j < k < |KeptIndices(widths, originalWidth)| ::
              KeptIndices(widths, originalWidth)[j] < KeptIndices(widths, originalWidth)[k]
  {
    if widths != [] {
      var n := |widths| - 1;
      var init := widths[..n];
      KeptWidthsSubsequence(init, originalWidth);
      var idx0 := KeptIndices(init, originalWidth);
      assert forall j | 0 <= j < |idx0| :: init[idx0[j]] == widths[idx0[j]];
    }
  }

  /** A position is among the kept ones exactly when its width is no wider
      than the original. */
  lemma {:induction false} KeptIndicesMembers(widths: seq<nat>, originalWidth: int)
    ensures forall i | 0 <= i < |widths| :: i in KeptIndices(widths, originalWidth) <==> widths[i] <= originalWidth
  {
    if widths != [] {
      var n := |widths| - 1;
      var init := widths[..n];
      KeptIndicesMembers(init, originalWidth);
      assert forall i | 0 <= i < n :: init[i] == widths[i];
    }
  }

  /** `${nameWithoutExt}-${width}w${ext}`. */
  function VariantName(stem: string, ext: string, width: nat): string {
    stem + "-" + NatToString(width) + "w" + ext
  }

  /** `${nameWithoutExt}-original${ext}`. */
  function OriginalName(stem: string, ext: string): string {
    stem + "-original" + ext
  }

  /** The resized variants for the kept widths, in order; `sizeOf` gives the
      size of a written output file. */
  function WidthVariants(stem: string, ext: string, widths: seq<nat>, sizeOf: string -> int): (r: seq<Variant>)
    ensures |r| == |widths|
    ensures forall j | 0 <= j < |r| ::
              r[j] == Variant(widths[j], VariantName(stem, ext, widths[j]), sizeOf(VariantName(stem, ext, widths[j])), false)
  {
    if widths == [] then []
    else
      var width := widths[|widths| - 1];
      var name := VariantName(stem, ext, width);
      WidthVariants(stem, ext, widths[..|widths| - 1], sizeOf) + [Variant(width, name, sizeOf(name), false)]
  }

  /** What `processImage(inputPath, baseFilename)` returns for an image
      `originalWidth` pixels wide. */
  function Variants(baseFilename: string, widths: seq<nat>, originalWidth: int, sizeOf: string -> int): seq<Variant> {
    var stem, ext := Stem(baseFilename), Extname(baseFilename);
    var originalName := OriginalName(stem, ext);
    WidthVariants(stem, ext, KeptWidths(widths, originalWidth), sizeOf)
      + [Variant(originalWidth, originalName, sizeOf(originalName), true)]
  }

  /** The loop of `processImage`: a resized variant for every configured
      width the original is not narrower than, in configured order. */
  method ResizeVariants(nameWithoutExt: string, ext: string, widths: seq<nat>, originalWidth: int,
                        sizeOf: string -> int)
    returns (results: seq<Variant>)
    ensures results == WidthVariants(nameWithoutExt, ext, KeptWidths(widths, originalWidth), sizeOf)
  {
    results := [];
    var i := 0;
    while i < |widths|
      invariant 0 <= i <= |widths|
      invariant results == WidthVariants(nameWithoutExt, ext, KeptWidths(widths[..i], originalWidth), sizeOf)
    {
      var width := widths[i];
      ResizeStep(nameWithoutExt, ext, widths, i, originalWidth, sizeOf);
      if originalWidth >= width {
        var outputFilename := VariantName(nameWithoutExt, ext, width);
        results := results + [Variant(width, outputFilename, sizeOf(outputFilename), false)];
      }
      i := i + 1;
    }
    assert widths[..|widths|] == widths;
  }

  /** `processImage(inputPath, baseFilename)` with `CONFIG.sizes` as
      `widths`: the resized variants, then the full-resolution original. */
  method ProcessImage(baseFilename: string, widths: seq<nat>, originalWidth: int, sizeOf: string -> int)
    returns (results: seq<Variant>)
    ensures results == Variants(baseFilename, widths, originalWidth, sizeOf)
  {
    var ext := Extname(baseFilename);
    var nameWithoutExt := Stem(baseFilename);
    results := ResizeVariants(nameWithoutExt, ext, widths, originalWidth, sizeOf);
    var originalFilename := nameWithoutExt + "-original" + ext;
    results := results + [Variant(originalWidth, originalFilename, sizeOf(originalFilename), true)];
  }

  /** One more configured width adds its variant exactly when the original
      is at least that wide. */
  lemma ResizeStep(stem: string, ext: string, widths: seq<nat>, i: nat, originalWidth: int, sizeOf: string -> int)
    requires i < |widths|
    ensures var width, name := widths[i], VariantName(stem, ext, widths[i]);
            WidthVariants(stem, ext, KeptWidths(widths[..i + 1], originalWidth), sizeOf)
            == WidthVariants(stem, ext, KeptWidths(widths[..i], originalWidth), sizeOf)
               + (if originalWidth >= width then [Variant(width, name, sizeOf(name), false)] else [])
  {
    KeptWidthsSnoc(widths, i, originalWidth);
    if originalWidth >= widths[i] {
      WidthVariantsSnoc(stem, ext, KeptWidths(widths[..i], originalWidth), widths[i], sizeOf);
    }
  }

  lemma KeptWidthsSnoc(widths: seq<nat>, i: nat, originalWidth: int)
    requires i < |widths|
    ensures KeptWidths(widths[..i + 1], originalWidth)
            == KeptWidths(widths[..i], originalWidth) + (if originalWidth < widths[i] then [] else [widths[i]])
  {
    assert widths[..i + 1][..i] == widths[..i];
  }

  lemma WidthVariantsSnoc(stem: string, ext: string, widths: seq<nat>, width: nat, sizeOf: string -> int)
    ensures WidthVariants(stem, ext, widths + [width], sizeOf)
            == WidthVariants(stem, ext, widths, sizeOf)
               + [Variant(width, VariantName(stem, ext, width), sizeOf(VariantName(stem, ext, width)), false)]
  {
    assert (widths + [width])[..|widths|] == widths;
  }

  /** The configured widths kept for each range of original widths: none
      below 640 pixels, all four from 2560 on. */
  lemma KeptSizes(originalWidth: int)
    ensures originalWidth < 640 ==> KeptWidths(Sizes, originalWidth) == []
    ensures 640 <= originalWidth < 1024 ==> KeptWidths(Sizes, originalWidth) == [640]
    ensures 1024 <= originalWidth < 1920 ==> KeptWidths(Sizes, originalWidth) == [640, 1024]
    ensures 1920 <= originalWidth < 2560 ==> KeptWidths(Sizes, originalWidth) == [640, 1024, 1920]
    ensures 2560 <= originalWidth ==> KeptWidths(Sizes, originalWidth) == Sizes
  {
    var w := originalWidth;
    assert Sizes[..0] == [];
    KeptWidthsSnoc(Sizes, 0, w);
    KeptWidthsSnoc(Sizes, 1, w);
    KeptWidthsSnoc(Sizes, 2, w);
    KeptWidthsSnoc(Sizes, 3, w);
    assert Sizes[..4] == Sizes;
  }

  /** A width is kept exactly when it is configured and the original is at
      least that wide. */
  lemma {:induction false} KeptWidthsMembers(widths: seq<nat>, originalWidth: int)
    ensures forall x :: x in KeptWidths(widths, originalWidth) <==> x in widths && x <= originalWidth
  {
    if widths != [] {
      var init := widths[..|widths| - 1];
      KeptWidthsMembers(init, originalWidth);
      assert widths == init + [widths[|widths| - 1]];
    }
  }

  /** Increasing widths stay increasing once the skipped ones are gone. */
  lemma {:induction false} KeptWidthsIncreasing(widths: seq<nat>, originalWidth: int)
    requires forall a, b | 0 <= a < b < |widths| :: widths[a] < widths[b]
    ensures forall a, b | 0 <= a < b < |KeptWidths(widths, originalWidth)| ::
              KeptWidths(widths, originalWidth)[a] < KeptWidths(widths, originalWidth)[b]
  {
    if widths != [] {
      var init := widths[..|widths| - 1];
      var last := widths[|widths| - 1];
      KeptWidthsIncreasing(init, originalWidth);
      KeptWidthsMembers(init, originalWidth);
      var ki := KeptWidths(init, originalWidth);
      var k := KeptWidths(widths, originalWidth);
      forall a, b | 0 <= a < b < |k|
        ensures k[a] < k[b]
      {
        assert k[a] == ki[a] && ki[a] in init;
        if b < |ki| {
          assert k[b] == ki[b];
        } else {
          var j :| 0 <= j < |init| && init[j] == ki[a];
          assert k[b] == last && widths[j] == ki[a];
        }
      }
    }
  }

  /** The result ends with exactly one original entry, which carries the
      original width, and it holds one more entry than the kept widths. */
  lemma VariantsEndWithOriginal(baseFilename: string, widths: seq<nat>, originalWidth: int, sizeOf: string -> int)
    ensures var vs := Variants(baseFilename, widths, originalWidth, sizeOf);
            |vs| == |KeptWidths(widths, originalWidth)| + 1
            && vs[|vs| - 1].original && vs[|vs| - 1].width == originalWidth
            && vs[|vs| - 1].filename == OriginalName(Stem(baseFilename), Extname(baseFilename))
            && forall j | 0 <= j < |vs| - 1 :: !vs[j].original && vs[j].width <= originalWidth
  {
  }

  lemma SizesIncreasing()
    ensures forall a, b | 0 <= a < b < |Sizes| :: Sizes[a] < Sizes[b]
  {
    assert Sizes[0] == 640 && Sizes[1] == 1024 && Sizes[2] == 1920 && Sizes[3] == 2560;
  }

  /** For increasing widths, such as `Sizes`, no two entries are written to
      the same file. */
  lemma VariantNamesDistinct(baseFilename: string, widths: seq<nat>, originalWidth: int, sizeOf: string -> int)
    requires forall a, b | 0 <= a < b < |widths| :: widths[a] < widths[b]
    ensures var vs := Variants(baseFilename, widths, originalWidth, sizeOf);
            forall a, b | 0 <= a < b < |vs| :: vs[a].filename != vs[b].filename
  {
    var stem, ext := Stem(baseFilename), Extname(baseFilename);
    var kept := KeptWidths(widths, originalWidth);
    KeptWidthsIncreasing(widths, originalWidth);
    var wv := WidthVariants(stem, ext, kept, sizeOf);
    var vs := Variants(baseFilename, widths, originalWidth, sizeOf);
    assert vs == wv + [Variant(originalWidth, OriginalName(stem, ext), sizeOf(OriginalName(stem, ext)), true)];
    forall a, b | 0 <= a < b < |vs|
      ensures vs[a].filename != vs[b].filename
    {
      assert vs[a] == wv[a];
      if b < |wv| {
        assert vs[b] == wv[b];
        VariantNamesDiffer(stem, ext, kept[a], kept[b]);
      } else {
        VariantNotOriginal(stem, ext, kept[a]);
      }
    }
  }

  lemma VariantNamesDiffer(stem: string, ext: string, x: nat, y: nat)
    requires x != y
    ensures VariantName(stem, ext, x) != VariantName(stem, ext, y)
  {
    if VariantName(stem, ext, x) == VariantName(stem, ext, y) {
      var p, q := NatToString(x) + "w", NatToString(y) + "w";
      assert VariantName(stem, ext, x) == (stem + "-") + p + ext;
      assert VariantName(stem, ext, y) == (stem + "-") + q + ext;
      assert |p| == |q|;
      assert p == VariantName(stem, ext, x)[|stem| + 1..|stem| + 1 + |p|];
      assert q == VariantName(stem, ext, y)[|stem| + 1..|stem| + 1 + |q|];
      assert NatToString(x) == p[..|p| - 1] && NatToString(y) == q[..|q| - 1];
      NatToStringInjective(x, y);
    }
  }

  lemma VariantNotOriginal(stem: string, ext: string, x: nat)
    ensures VariantName(stem, ext, x) != OriginalName(stem, ext)
  {
    var v := VariantName(stem, ext, x);
    assert v[|stem| + 1] == NatToString(x)[0];
    assert OriginalName(stem, ext)[|stem| + 1] == 'o';
  }

  // ----- Rewriting a reference -----

  /** `/images/optimized/${nameWithoutExt}-original${ext}`. */
  function OriginalUrl(baseFilename: string): (r: string)
    ensures OptimizedDir <= r
  {
    OptimizedDir + OriginalName(Stem(baseFilename), Extname(baseFilename))
  }

  /** One `srcset` entry of the rewritten object: `{url, width, size}`. */
  function SrcsetSource(v: Variant): (r: Json)
    ensures Get(r, "url") == Str(OptimizedDir + v.filename)
    ensures Get(r, "width") == Num(v.width) && Get(r, "size") == Num(v.size)
  {
    Obj(map["url" := Str(OptimizedDir + v.filename), "width" := Num(v.width), "size" := Num(v.size)])
  }

  function SrcsetSources(sizes: seq<Variant>): (r: seq<Json>)
    ensures |r| == |sizes| && forall i | 0 <= i < |sizes| :: r[i] == SrcsetSource(sizes[i])
  {
    seq(|sizes|, i requires 0 <= i < |sizes| => SrcsetSource(sizes[i]))
  }

  /** The `responsive` record: every variant, and `sizes` defaulting to the
      full viewport width. */
  function ResponsiveRecord(sizes: seq<Variant>): (r: Json)
    ensures Get(r, "srcset") == Arr(SrcsetSources(sizes))
    ensures Get(r, "sizes") == Str("100vw")
  {
    Obj(map["srcset" := Arr(SrcsetSources(sizes)), "sizes" := Str("100vw")])
  }

  /** `updateImageObject(imageObj, sizes, baseFilename)`: the object's own
      fields (spread), with `url` pointing at the optimised original and a
      `responsive` record listing every variant. */
  function UpdateImageObject(imageObj: Json, sizes: seq<Variant>, baseFilename: string): (r: Json)
    ensures r.Obj?
    ensures Get(r, "url") == Str(OriginalUrl(baseFilename))
    ensures Get(r, "responsive") == ResponsiveRecord(sizes)
  {
    Obj(SpreadFields(imageObj)["url" := Str(OriginalUrl(baseFilename))]["responsive" := ResponsiveRecord(sizes)])
  }

  /** The rewritten object keeps every other own field of the reference
      (the characters of a string reference, by index) and adds `url` and
      `responsive`. */
  lemma UpdateImageObjectFields(imageObj: Json, sizes: seq<Variant>, baseFilename: string)
    ensures var r := UpdateImageObject(imageObj, sizes, baseFilename);
            r.fields.Keys == SpreadFields(imageObj).Keys + {"url", "responsive"}
            && forall k | k in SpreadFields(imageObj) && k != "url" && k != "responsive" ::
                 r.fields[k] == SpreadFields(imageObj)[k]
  {
  }

  /** The `srcset` string the front end builds from a rewritten object. */
  function VariantSrcset(sizes: seq<Variant>): string {
    Join(seq(|sizes|, i requires 0 <= i < |sizes| =>
                        OptimizedDir + sizes[i].filename + " " + IntToString(sizes[i].width) + "w"), ", ")
  }

  /** An object with a non-empty optimised `url` and a `responsive`
      record renders with that `src`, every variant in the `srcset` in order,
      and `sizes` from the prop or else `100vw`. */
  lemma ResponsiveObjectRenders(r: Json, url: string, sizes: seq<Variant>, alt: Json, sizesProp: Json)
    requires r.Obj? && OptimizedDir <= url && |sizes| > 0
    requires Get(r, "url") == Str(url) && Get(r, "responsive") == ResponsiveRecord(sizes)
    ensures ResponsiveImage.Render(r, alt, sizesProp)
            == Some(ResponsiveImage.Img(Str(url), Some(VariantSrcset(sizes)),
                                        Some(Or(sizesProp, Str("100vw"))), Or(alt, Str("Image"))))
  {
    var sources := SrcsetSources(sizes);
    assert ResponsiveImage.ResponsiveSources(r) == Some(sources);
    assert Media.ObjectUrl(r) == Str(url);
    assert ResponsiveImage.SrcsetEntries(sources)
           == seq(|sizes|, i requires 0 <= i < |sizes| =>
                             OptimizedDir + sizes[i].filename + " " + IntToString(sizes[i].width) + "w");
  }

  /** A rewritten object renders through `ResponsiveImage` with the
      optimised original as `src` and its variants as the `srcset`. */
  lemma UpdatedImageRenders(imageObj: Json, sizes: seq<Variant>, baseFilename: string, alt: Json, sizesProp: Json)
    requires |sizes| > 0
    ensures ResponsiveImage.Render(UpdateImageObject(imageObj, sizes, baseFilename), alt, sizesProp)
            == Some(ResponsiveImage.Img(Str(OriginalUrl(baseFilename)), Some(VariantSrcset(sizes)),
                                        Some(Or(sizesProp, Str("100vw"))), Or(alt, Str("Image"))))
  {
    ResponsiveObjectRenders(UpdateImageObject(imageObj, sizes, baseFilename), OriginalUrl(baseFilename),
                            sizes, alt, sizesProp);
  }

  /** Every optimised path is kept as it is by the front end's resolver. */
  lemma OptimizedPathResolves(url: string, isDev: bool)
    requires OptimizedDir <= url
    ensures Media.ResolveObjectUrl(url, isDev) == url
  {
    assert url[0] == '/' && url[1] == 'i';
    assert !StartsWith(url, "http") && !StartsWith(url, "/uploads/");
    assert url[..8] == OptimizedDir[..8] == "/images/";
  }

  /** An object whose `url` is an optimised path resolves to that path. */
  lemma OptimizedObjectResolves(r: Json, url: string, isDev: bool)
    requires r.Obj? && OptimizedDir <= url && Get(r, "url") == Str(url)
    ensures Media.ResolveMediaUrl(r, isDev) == Some(url)
  {
    assert Media.ObjectUrl(r) == Str(url);
    OptimizedPathResolves(url, isDev);
  }

  /** A rewritten object resolves, in both modes, to the optimised original. */
  lemma UpdatedImageResolves(imageObj: Json, sizes: seq<Variant>, baseFilename: string, isDev: bool)
    ensures Media.ResolveMediaUrl(UpdateImageObject(imageObj, sizes, baseFilename), isDev)
            == Some(OriginalUrl(baseFilename))
  {
    OptimizedObjectResolves(UpdateImageObject(imageObj, sizes, baseFilename), OriginalUrl(baseFilename), isDev);
  }

  /** The file name a reference is looked up under: the last `/` segment of
      its extracted URL. */
  function ReferenceName(image: Json): string {
    LastSegment(TextOf(ExtractImageUrl(image)))
  }

  /** The lookup `processedImages[filename]` succeeds: the reference has a
      URL and its file name is a processed image. */
  predicate Matches(image: Json, processed: map<string, seq<Variant>>) {
    Truthy(ExtractImageUrl(image)) && ReferenceName(image) in processed
  }

  /** The shared step of `updatePagesData` and `updateSiteData` for one
      reference: the rewritten object and 1, or the reference itself and 0. */
  function ReplaceReference(image: Json, processed: map<string, seq<Variant>>): (r: (Json, nat))
    ensures r.1 == 1 <==> Matches(image, processed)
    ensures r.1 == 0 <==> !Matches(image, processed)
    ensures Matches(image, processed) ==>
              r.0 == UpdateImageObject(image, processed[ReferenceName(image)], ReferenceName(image))
    ensures !Matches(image, processed) ==> r.0 == image
  {
    var imageUrl := ExtractImageUrl(image);
    if Truthy(imageUrl) then
      var filename := LastSegment(TextOf(imageUrl));
      if filename in processed then (UpdateImageObject(image, processed[filename], filename), 1)
      else (image, 0)
    else (image, 0)
  }

  /** How many of `refs` are rewritten. */
  function MatchCount(refs: seq<Json>, processed: map<string, seq<Variant>>): (n: nat)
    ensures n <= |refs|
  {
    if refs == [] then 0
    else MatchCount(refs[..|refs| - 1], processed) + (if Matches(refs[|refs| - 1], processed) then 1 else 0)
  }

  lemma {:induction false} MatchCountAppend(a: seq<Json>, b: seq<Json>, processed: map<string, seq<Variant>>)
    ensures MatchCount(a + b, processed) == MatchCount(a, processed) + MatchCount(b, processed)
    decreases |b|
  {
    if b != [] {
      var c := b[..|b| - 1];
      var last := b[|b| - 1];
      assert (a + b)[..|a + b| - 1] == a + c;
      assert (a + b)[|a + b| - 1] == last;
      MatchCountAppend(a, c, processed);
      assert MatchCount(a + b, processed)
             == MatchCount(a + c, processed) + (if Matches(last, processed) then 1 else 0);
      assert MatchCount(b, processed) == MatchCount(c, processed) + (if Matches(last, processed) then 1 else 0);
    } else {
      assert a + b == a;
    }
  }

  /** The `block.images.map(...)` of a gallery: same length and order, each
      image rewritten exactly when it matches. */
  function UpdateGallery(images: seq<Json>, processed: map<string, seq<Variant>>): (r: seq<Json>)
    ensures |r| == |images|
    ensures forall i | 0 <= i < |images| :: r[i] == ReplaceReference(images[i], processed).0
  {
    seq(|images|, i requires 0 <= i < |images| => ReplaceReference(images[i], processed).0)
  }

  /** The increments the gallery callback contributes to `updateCount`. */
  function GalleryUpdateCount(images: seq<Json>, processed: map<string, seq<Variant>>): nat {
    if images == [] then 0
    else GalleryUpdateCount(images[..|images| - 1], processed) + ReplaceReference(images[|images| - 1], processed).1
  }

  lemma {:induction false} GalleryUpdateCountMatches(images: seq<Json>, processed: map<string, seq<Variant>>)
    ensures GalleryUpdateCount(images, processed) == MatchCount(images, processed)
  {
    if images != [] {
      GalleryUpdateCountMatches(images[..|images| - 1], processed);
    }
  }

  /** `after` is `before` with at most the fields in `changed` given new
      values: an object keeps its keys and every other field, anything else
      is left as it is. */
  predicate KeepsOtherFields(before: Json, after: Json, changed: set<string>) {
    (before.Obj? ==> after.Obj? && after.fields.Keys == before.fields.Keys
                     && forall k | k in before.fields && k !in changed :: after.fields[k] == before.fields[k])
    && (!before.Obj? ==> after == before)
  }

  lemma SetFieldKeeps(j: Json, key: string, v: Json, changed: set<string>)
    requires Truthy(Get(j, key)) && key in changed
    ensures KeepsOtherFields(j, SetField(j, key, v), changed)
  {
  }

  lemma KeepsOtherFieldsChain(a: Json, b: Json, c: Json, changed: set<string>)
    requires KeepsOtherFields(a, b, changed) && KeepsOtherFields(b, c, changed)
    ensures KeepsOtherFields(a, c, changed)
  {
  }

  // ----- pages.json -----

  predicate IsImageBlock(block: Json) {
    Get(block, "__component") == Str("image.image-block") && Truthy(Get(block, "image"))
  }

  predicate IsGalleryBlock(block: Json) {
    Get(block, "__component") == Str("image.image-gallery") && Truthy(Get(block, "images"))
    && Get(block, "images").Arr?
  }

  /** The content-block step of `updatePagesData`. */
  function UpdateBlock(block: Json, processed: map<string, seq<Variant>>): (r: (Json, nat)) {
    if IsImageBlock(block) then
      var (image, n) := ReplaceReference(Get(block, "image"), processed);
      (if n == 1 then SetField(block, "image", image) else block, n)
    else if IsGalleryBlock(block) then
      var images := Get(block, "images").items;
      (SetField(block, "images", Arr(UpdateGallery(images, processed))), GalleryUpdateCount(images, processed))
    else (block, 0)
  }

  /** The references a block offers for rewriting. */
  function BlockReferences(block: Json): seq<Json> {
    if IsImageBlock(block) then [Get(block, "image")]
    else if IsGalleryBlock(block) then Get(block, "images").items
    else []
  }

  /** A block changes only in `image` (image blocks) or `images`
      (galleries) and keeps its keys. */
  lemma UpdateBlockKeeps(block: Json, processed: map<string, seq<Variant>>)
    ensures KeepsOtherFields(block, UpdateBlock(block, processed).0, {"image", "images"})
  {
    var r := UpdateBlock(block, processed).0;
    if IsImageBlock(block) {
      var replaced := ReplaceReference(Get(block, "image"), processed);
      if replaced.1 == 1 {
        SetFieldKeeps(block, "image", replaced.0, {"image", "images"});
      }
    } else if IsGalleryBlock(block) {
      SetFieldKeeps(block, "images", Arr(UpdateGallery(Get(block, "images").items, processed)), {"image", "images"});
    }
  }

  /** A block's count is the number of its references that are rewritten. */
  lemma UpdateBlockCount(block: Json, processed: map<string, seq<Variant>>)
    ensures UpdateBlock(block, processed).1 == MatchCount(BlockReferences(block), processed)
  {
    if IsImageBlock(block) {
      assert [Get(block, "image")][..0] == [];
    } else if IsGalleryBlock(block) {
      GalleryUpdateCountMatches(Get(block, "images").items, processed);
    }
  }

  /** The `page.content.forEach(...)` over the content blocks. */
  function UpdateBlocks(blocks: seq<Json>, processed: map<string, seq<Variant>>): (r: seq<Json>)
    ensures |r| == |blocks|
    ensures forall i | 0 <= i < |blocks| :: r[i] == UpdateBlock(blocks[i], processed).0
  {
    seq(|blocks|, i requires 0 <= i < |blocks| => UpdateBlock(blocks[i], processed).0)
  }

  /** The increments the blocks contribute to `updateCount`. */
  function BlocksUpdateCount(blocks: seq<Json>, processed: map<string, seq<Variant>>): nat {
    if blocks == [] then 0
    else BlocksUpdateCount(blocks[..|blocks| - 1], processed) + UpdateBlock(blocks[|blocks| - 1], processed).1
  }

  function BlocksReferences(blocks: seq<Json>): seq<Json> {
    if blocks == [] then []
    else BlocksReferences(blocks[..|blocks| - 1]) + BlockReferences(blocks[|blocks| - 1])
  }

  lemma {:induction false} BlocksUpdateCountMatches(blocks: seq<Json>, processed: map<string, seq<Variant>>)
    ensures BlocksUpdateCount(blocks, processed) == MatchCount(BlocksReferences(blocks), processed)
  {
    if blocks != [] {
      var init := blocks[..|blocks| - 1];
      BlocksUpdateCountMatches(init, processed);
      UpdateBlockCount(blocks[|blocks| - 1], processed);
      MatchCountAppend(BlocksReferences(init), BlockReferences(blocks[|blocks| - 1]), processed);
    }
  }

  predicate HasContentArray(page: Json) {
    Truthy(Get(page, "content")) && Get(page, "content").Arr?
  }

  /** The hero-image step of the page callback. */
  function UpdateHero(page: Json, processed: map<string, seq<Variant>>): (r: (Json, nat)) {
    if Truthy(Get(page, "image")) then
      var replaced := ReplaceReference(Get(page, "image"), processed);
      (if replaced.1 == 1 then SetField(page, "image", replaced.0) else page, replaced.1)
    else (page, 0)
  }

  /** The `forEach` callback of `updatePagesData` for one page: the hero
      image, then every content block. */
  function UpdatePage(page: Json, processed: map<string, seq<Variant>>): (r: (Json, nat)) {
    var hero := UpdateHero(page, processed);
    if HasContentArray(hero.0) then
      var blocks := Get(hero.0, "content").items;
      (SetField(hero.0, "content", Arr(UpdateBlocks(blocks, processed))),
       hero.1 + BlocksUpdateCount(blocks, processed))
    else hero
  }

  /** The references a page offers: its truthy hero image, then those of its
      content blocks. */
  function PageReferences(page: Json): seq<Json> {
    (if Truthy(Get(page, "image")) then [Get(page, "image")] else [])
    + (if HasContentArray(page) then BlocksReferences(Get(page, "content").items) else [])
  }

  /** The hero step changes at most `image`, so `content` is untouched,
      and it counts one exactly when the hero image matches. */
  lemma UpdateHeroKeeps(page: Json, processed: map<string, seq<Variant>>)
    ensures KeepsOtherFields(page, UpdateHero(page, processed).0, {"image"})
    ensures KeepsOtherFields(page, UpdateHero(page, processed).0, {"image", "content"})
    ensures Get(UpdateHero(page, processed).0, "content") == Get(page, "content")
    ensures UpdateHero(page, processed).1
            == if Truthy(Get(page, "image")) && Matches(Get(page, "image"), processed) then 1 else 0
  {
    if Truthy(Get(page, "image")) {
      var replaced := ReplaceReference(Get(page, "image"), processed);
      if replaced.1 == 1 {
        SetFieldKeeps(page, "image", replaced.0, {"image"});
        SetFieldKeeps(page, "image", replaced.0, {"image", "content"});
      }
    }
  }

  /** A page changes only in `image` and `content` and keeps its keys. */
  lemma UpdatePageKeeps(page: Json, processed: map<string, seq<Variant>>)
    ensures KeepsOtherFields(page, UpdatePage(page, processed).0, {"image", "content"})
  {
    UpdateHeroKeeps(page, processed);
    var hero := UpdateHero(page, processed).0;
    if HasContentArray(hero) {
      var blocks := UpdateBlocks(Get(hero, "content").items, processed);
      SetFieldKeeps(hero, "content", Arr(blocks), {"image", "content"});
      KeepsOtherFieldsChain(page, hero, UpdatePage(page, processed).0, {"image", "content"});
    }
  }

  /** A page's count is the number of its references that are rewritten. */
  lemma UpdatePageCount(page: Json, processed: map<string, seq<Variant>>)
    ensures UpdatePage(page, processed).1 == MatchCount(PageReferences(page), processed)
  {
    UpdateHeroKeeps(page, processed);
    var heroRefs := if Truthy(Get(page, "image")) then [Get(page, "image")] else [];
    assert MatchCount(heroRefs, processed) == UpdateHero(page, processed).1 by {
      if heroRefs != [] {
        assert heroRefs[..0] == [];
      }
    }
    var rest := if HasContentArray(page) then BlocksReferences(Get(page, "content").items) else [];
    if HasContentArray(page) {
      BlocksUpdateCountMatches(Get(page, "content").items, processed);
    }
    MatchCountAppend(heroRefs, rest, processed);
  }

  /** The contents of `pages.json`: its `data` array of pages, which
      `updatePagesData` rewrites in place. */
  class PagesData {
    var data: seq<Json>

    constructor (data: seq<Json>)
      ensures this.data == data
    {
      this.data := data;
    }

    /** `updatePagesData(pagesData, processedImages)`: every page updated in
        place; the result counts the rewritten references. */
    method UpdatePagesData(processedImages: map<string, seq<Variant>>) returns (updateCount: nat)
      modifies this
      ensures |data| == |old(data)|
      ensures forall i | 0 <= i < |data| :: data[i] == UpdatePage(old(data)[i], processedImages).0
      ensures updateCount == MatchCount(AllReferences(old(data)), processedImages)
    {
      updateCount := 0;
      var i := 0;
      while i < |data|
        invariant 0 <= i <= |data| == |old(data)|
        invariant forall j | 0 <= j < i :: data[j] == UpdatePage(old(data)[j], processedImages).0
        invariant forall j | i <= j < |data| :: data[j] == old(data)[j]
        invariant updateCount == MatchCount(AllReferences(old(data)[..i]), processedImages)
      {
        var page := data[i];
        var (updated, n) := UpdatePage(page, processedImages);
        UpdatePageCount(page, processedImages);
        assert old(data)[..i + 1][..i] == old(data)[..i];
        MatchCountAppend(AllReferences(old(data)[..i]), PageReferences(page), processedImages);
        data := data[i := updated];
        updateCount := updateCount + n;
        i := i + 1;
      }
      assert old(data)[..i] == old(data);
    }
  }

  /** Every reference of every page, page after page. */
  function AllReferences(pages: seq<Json>): seq<Json> {
    if pages == [] then []
    else AllReferences(pages[..|pages| - 1]) + PageReferences(pages[|pages| - 1])
  }

  // ----- site.json -----

  /** The contents of `site.json`, whose `data.image` `updateSiteData`
      rewrites in place. */
  class SiteData {
    var siteData: Json

    constructor (siteData: Json)
      ensures this.siteData == siteData
    {
      this.siteData := siteData;
    }

    /** The site image, when `data` and `data.image` are both truthy. */
    function SiteImage(): (r: Option<Json>)
      reads this
    {
      if Truthy(Get(siteData, "data")) && Truthy(Get(Get(siteData, "data"), "image"))
      then Some(Get(Get(siteData, "data"), "image")) else None
    }

    /** `updateSiteData(siteData, processedImages)`: rewrites `data.image`
        and returns 1 when it matches; otherwise changes nothing and
        returns 0. */
    method UpdateSiteData(processedImages: map<string, seq<Variant>>) returns (updateCount: nat)
      modifies this
      ensures updateCount <= 1
      ensures updateCount == 1 <==> old(SiteImage()).Some? && Matches(old(SiteImage()).value, processedImages)
      ensures updateCount == 0 ==> siteData == old(siteData)
      ensures updateCount == 1 ==>
                siteData == SetField(old(siteData), "data",
                                     SetField(Get(old(siteData), "data"), "image",
                                              ReplaceReference(old(SiteImage()).value, processedImages).0))
    {
      updateCount := 0;
      var data := Get(siteData, "data");
      if Truthy(data) && Truthy(Get(data, "image")) {
        var imageUrl := ExtractImageUrl(Get(data, "image"));
        if Truthy(imageUrl) {
          var filename := LastSegment(TextOf(imageUrl));
          if filename in processedImages {
            var image := UpdateImageObject(Get(data, "image"), processedImages[filename], filename);
            siteData := SetField(siteData, "data", SetField(data, "image", image));
            updateCount := updateCount + 1;
          }
        }
      }
    }
  }

  /** Only the site record's `data.image` changes: every other field of the
      file and of `data` keeps its value. */
  lemma SiteUpdateTouchesOnlyImage(siteData: Json, image: Json, k: string)
    requires siteData.Obj? && Get(siteData, "data").Obj?
    ensures var r := SetField(siteData, "data", SetField(Get(siteData, "data"), "image", image));
            r.Obj? && r.fields.Keys == siteData.fields.Keys
            && (k in siteData.fields && k != "data" ==> r.fields[k] == siteData.fields[k])
            && (k in Get(siteData, "data").fields && k != "image" ==>
                  Get(Get(r, "data"), k) == Get(Get(siteData, "data"), k))
  {
  }

  // ----- main -----

  /** The file filter of `main`: the extension, lower-cased, is one of the four. */
  predicate IsImageFile(file: string) {
    Lower(Extname(file)) in ImageExtensions
  }

  /** `files.filter(keep)`. */
  function Filter(files: seq<string>, keep: string -> bool): (r: seq<string>)
    ensures |r| <= |files|
    ensures forall f | f in r :: f in files && keep(f)
  {
    if files == [] then []
    else Filter(files[..|files| - 1], keep) + (if keep(files[|files| - 1]) then [files[|files| - 1]] else [])
  }

  lemma {:induction false} FilterComplete(files: seq<string>, keep: string -> bool, f: string)
    requires f in files && keep(f)
    ensures f in Filter(files, keep)
  {
    var init := files[..|files| - 1];
    if f != files[|files| - 1] {
      var k :| 0 <= k < |files| && files[k] == f;
      assert init[k] == f;
      FilterComplete(init, keep, f);
    }
  }

  /** The image files of the input directory, in directory order. */
  function ImageFiles(files: seq<string>): seq<string> {
    Filter(files, IsImageFile)
  }

  /** A file is kept exactly when it is listed and has an image extension. */
  lemma ImageFilesMembers(files: seq<string>)
    ensures forall f :: f in ImageFiles(files) <==> f in files && IsImageFile(f)
  {
    forall f | f in files && IsImageFile(f)
      ensures f in ImageFiles(files)
    {
      FilterComplete(files, IsImageFile, f);
    }
  }

  /** A name without `/` is its own base name. */
  lemma BasenameOfName(name: string)
    requires '/' !in name
    ensures Basename(name) == name
  {
    assert DropTrailingSlashes(name) == name;
    LastSegmentFollowsSlash(name);
  }

  /** In `stem + ext`, where `ext` is a dot followed by dot-free text, the
      last dot is the one that starts `ext`. */
  lemma LastDotAt(stem: string, ext: string)
    requires |ext| >= 1 && ext[0] == '.' && forall j | 1 <= j < |ext| :: ext[j] != '.'
    ensures LastIndexOf(stem + ext, '.') == |stem|
  {
    var s := stem + ext;
    LastIndexOfFinds(s, '.');
    assert s[|stem|] == '.';
  }

  /** Each of the four extensions, in any letter case, is a dot followed by
      dot-free text. */
  lemma ImageExtensionShape(ext: string)
    requires Lower(ext) in ImageExtensions
    ensures |ext| >= 1 && ext[0] == '.' && forall j | 1 <= j < |ext| :: ext[j] != '.'
  {
    var s := Lower(ext);
    assert s[0] == '.' && forall j | 1 <= j < |s| :: s[j] != '.';
    assert forall j | 0 <= j < |ext| :: s[j] == LowerChar(ext[j]);
  }

  /** A file name made of a non-empty stem and one of the four extensions,
      in any letter case, has that extension and passes the filter. */
  lemma ImageExtensionKept(stem: string, ext: string)
    requires stem != "" && '/' !in stem + ext && Lower(ext) in ImageExtensions
    ensures Extname(stem + ext) == ext && IsImageFile(stem + ext)
  {
    ImageExtensionShape(ext);
    BasenameOfName(stem + ext);
    LastDotAt(stem, ext);
    assert (stem + ext)[|stem|..] == ext;
    assert stem + ext != "..";
  }

  /** A name whose only dot leads it, such as `.jpg`, has no extension and
      does not pass the filter. */
  lemma LeadingDotNotImage(name: string)
    requires '/' !in name && |name| >= 1 && name[0] == '.' && forall j | 1 <= j < |name| :: name[j] != '.'
    ensures Extname(name) == "" && !IsImageFile(name)
  {
    BasenameOfName(name);
    LastIndexOfFinds(name, '.');
    assert NameExt(name) == "";
    NoExtensionNotImage(name);
  }

  /** A name without an extension does not pass the filter. */
  lemma NoExtensionNotImage(name: string)
    requires Extname(name) == ""
    ensures !IsImageFile(name)
  {
    assert Lower(Extname(name)) == [];
  }

  /** An entry of `.image-cache.json`. */
  datatype CacheEntry = CacheEntry(hash: string, sizes: seq<Variant>)

  /** `cache[filename] && cache[filename].hash === fileHash`. */
  predicate CacheHit(cache: map<string, CacheEntry>, filename: string, fileHash: string) {
    filename in cache && cache[filename].hash == fileHash
  }

  /** What the image loop of `main` has established once it has seen the
      files `seen`: exactly those are in `processedImages`; each has its
      hash and sizes in the cache; its sizes are the cached ones when the
      original cache recorded the same hash, and `generate` (what processing
      the file yields) otherwise; every other cache entry is as it was. */
  ghost predicate LoopState(seen: seq<string>, cache: map<string, CacheEntry>, hashOf: string -> string,
                            generate: string -> seq<Variant>,
                            processedImages: map<string, seq<Variant>>, newCache: map<string, CacheEntry>)
  {
    (forall f :: f in processedImages <==> f in seen)
    && (forall f | f in processedImages ::
          f in newCache && newCache[f] == CacheEntry(hashOf(f), processedImages[f]))
    && (forall f | f in processedImages ::
          processedImages[f] == if CacheHit(cache, f, hashOf(f)) then cache[f].sizes else generate(f))
    && (forall f | f !in processedImages ::
          (f in newCache <==> f in cache) && (f in cache ==> newCache[f] == cache[f]))
  }

  /** A cache hit, whether on the original entry or on one stored earlier
      in the loop, hands out the sizes the loop state promises. */
  lemma LoopStateHit(seen: seq<string>, cache: map<string, CacheEntry>, hashOf: string -> string,
                     generate: string -> seq<Variant>,
                     processedImages: map<string, seq<Variant>>, newCache: map<string, CacheEntry>, filename: string)
    requires LoopState(seen, cache, hashOf, generate, processedImages, newCache)
    requires CacheHit(newCache, filename, hashOf(filename))
    ensures LoopState(seen + [filename], cache, hashOf, generate,
                      processedImages[filename := newCache[filename].sizes], newCache)
  {
    var p' := processedImages[filename := newCache[filename].sizes];
    assert filename !in processedImages ==> CacheHit(cache, filename, hashOf(filename));
    forall f | f in p'
      ensures p'[f] == if CacheHit(cache, f, hashOf(f)) then cache[f].sizes else generate(f)
    {
    }
  }

  /** A miss on the loop's cache is a miss on the original cache, and the
      freshly processed sizes are stored. */
  lemma LoopStateMiss(seen: seq<string>, cache: map<string, CacheEntry>, hashOf: string -> string,
                      generate: string -> seq<Variant>,
                      processedImages: map<string, seq<Variant>>, newCache: map<string, CacheEntry>, filename: string)
    requires LoopState(seen, cache, hashOf, generate, processedImages, newCache)
    requires !CacheHit(newCache, filename, hashOf(filename))
    ensures LoopState(seen + [filename], cache, hashOf, generate,
                      processedImages[filename := generate(filename)],
                      newCache[filename := CacheEntry(hashOf(filename), generate(filename))])
  {
    assert filename !in processedImages;
    assert !CacheHit(cache, filename, hashOf(filename));
  }

  /** One iteration of the image loop of `main`. */
  method ProcessEntry(filename: string, widths: seq<nat>, cache: map<string, CacheEntry>,
                      hashOf: string -> string, widthOf: string -> int, sizeOf: string -> int,
                      ghost seen: seq<string>,
                      processedImages: map<string, seq<Variant>>, newCache: map<string, CacheEntry>,
                      processedCount: nat, skippedCount: nat, variantsGenerated: nat, ghost written: seq<string>)
    returns (processedImages': map<string, seq<Variant>>, newCache': map<string, CacheEntry>,
             processedCount': nat, skippedCount': nat, variantsGenerated': nat, ghost written': seq<string>)
    requires LoopState(seen, cache, hashOf, Processed(widths, widthOf, sizeOf), processedImages, newCache)
    requires processedCount == |written| && variantsGenerated == WrittenTotal(written, widths, widthOf, sizeOf)
    requires forall f | f in written :: f in processedImages
    ensures LoopState(seen + [filename], cache, hashOf, Processed(widths, widthOf, sizeOf),
                      processedImages', newCache')
    ensures processedCount' + skippedCount' == processedCount + skippedCount + 1
    ensures written' == if CacheHit(newCache, filename, hashOf(filename)) then written else written + [filename]
    ensures processedCount' == |written'| && variantsGenerated' == WrittenTotal(written', widths, widthOf, sizeOf)
    ensures forall f | f in written' :: f in processedImages'
  {
    var fileHash := hashOf(filename);
    if CacheHit(newCache, filename, fileHash) {
      LoopStateHit(seen, cache, hashOf, Processed(widths, widthOf, sizeOf), processedImages, newCache, filename);
      processedImages', newCache' := processedImages[filename := newCache[filename].sizes], newCache;
      processedCount', skippedCount', variantsGenerated' := processedCount, skippedCount + 1, variantsGenerated;
      written' := written;
    } else {
      var sizes := ProcessImage(filename, widths, widthOf(filename), sizeOf);
      assert sizes == Processed(widths, widthOf, sizeOf)(filename);
      LoopStateMiss(seen, cache, hashOf, Processed(widths, widthOf, sizeOf), processedImages, newCache, filename);
      processedImages' := processedImages[filename := sizes];
      newCache' := newCache[filename := CacheEntry(fileHash, sizes)];
      processedCount', skippedCount' := processedCount + 1, skippedCount;
      variantsGenerated' := variantsGenerated + |sizes|;
      written' := written + [filename];
      assert written'[..|written'| - 1] == written;
    }
  }

  /** What `processImage` yields for each file, as a function of its name. */
  function Processed(widths: seq<nat>, widthOf: string -> int, sizeOf: string -> int): string -> seq<Variant> {
    f => Variants(f, widths, widthOf(f), sizeOf)
  }

  /** The image loop of `main`: a file whose hash the cache already records
      reuses the cached sizes; any other file is processed and its hash and
      sizes are stored. `widths` is `CONFIG.sizes`, `hashOf` stands for the
      MD5 of a file's contents, `widthOf` for its pixel width and `sizeOf`
      for the size of a written file. `variantsGenerated` counts the
      entries actually produced. */
  method ProcessFiles(files: seq<string>, widths: seq<nat>, cache: map<string, CacheEntry>,
                      hashOf: string -> string, widthOf: string -> int, sizeOf: string -> int)
    returns (processedImages: map<string, seq<Variant>>, newCache: map<string, CacheEntry>,
             processedCount: nat, skippedCount: nat, variantsGenerated: nat, ghost written: seq<string>)
    ensures forall f :: f in processedImages <==> f in ImageFiles(files)
    ensures forall f | f in processedImages ::
              f in newCache && newCache[f] == CacheEntry(hashOf(f), processedImages[f])
    ensures forall f | f in processedImages ::
              processedImages[f] == if CacheHit(cache, f, hashOf(f)) then cache[f].sizes
                                    else Variants(f, widths, widthOf(f), sizeOf)
    ensures forall f | f !in processedImages ::
              (f in newCache <==> f in cache) && (f in cache ==> newCache[f] == cache[f])
    ensures processedCount + skippedCount == |ImageFiles(files)|
    // `variantsGenerated` is what the files actually processed wrote
    ensures processedCount == |written| && forall f | f in written :: f in processedImages
    ensures variantsGenerated == WrittenTotal(written, widths, widthOf, sizeOf)
    ensures variantsGenerated <= ReportedVariantTotal(processedCount, widths)
  {
    var imageFiles := ImageFiles(files);
    processedImages := map[];
    newCache := cache;
    processedCount, skippedCount, variantsGenerated := 0, 0, 0;
    written := [];
    var i := 0;
    while i < |imageFiles|
      invariant 0 <= i <= |imageFiles|
      invariant LoopState(imageFiles[..i], cache, hashOf, Processed(widths, widthOf, sizeOf), processedImages, newCache)
      invariant processedCount + skippedCount == i
      invariant processedCount == |written| && forall f | f in written :: f in processedImages
      invariant variantsGenerated == WrittenTotal(written, widths, widthOf, sizeOf)
    {
      assert imageFiles[..i + 1] == imageFiles[..i] + [imageFiles[i]];
      processedImages, newCache, processedCount, skippedCount, variantsGenerated, written :=
        ProcessEntry(imageFiles[i], widths, cache, hashOf, widthOf, sizeOf, imageFiles[..i],
                     processedImages, newCache, processedCount, skippedCount, variantsGenerated, written);
      i := i + 1;
    }
    assert imageFiles[..i] == imageFiles;
    WrittenTotalBound(written, widths, widthOf, sizeOf);
  }

  /** The number of entries `processImage` yields for the files of `written`. */
  function WrittenTotal(written: seq<string>, widths: seq<nat>, widthOf: string -> int, sizeOf: string -> int): nat {
    if written == [] then 0
    else
      var f := written[|written| - 1];
      WrittenTotal(written[..|written| - 1], widths, widthOf, sizeOf) + |Variants(f, widths, widthOf(f), sizeOf)|
  }

  /** What the processed files wrote never exceeds the printed total. */
  lemma {:induction false} WrittenTotalBound(written: seq<string>, widths: seq<nat>, widthOf: string -> int,
                                             sizeOf: string -> int)
    ensures WrittenTotal(written, widths, widthOf, sizeOf) <= ReportedVariantTotal(|written|, widths)
  {
    if written != [] {
      var f := written[|written| - 1];
      WrittenTotalBound(written[..|written| - 1], widths, widthOf, sizeOf);
      VariantCountBound(f, widths, widthOf(f), sizeOf);
      ReportedTotalStep(|written| - 1, widths);
    }
  }

  /** The variant total the summary prints: `processedCount * (sizes.length + 1)`. */
  function ReportedVariantTotal(processedCount: nat, widths: seq<nat>): nat {
    processedCount * (|widths| + 1)
  }

  lemma ReportedTotalStep(n: nat, widths: seq<nat>)
    ensures ReportedVariantTotal(n + 1, widths) == ReportedVariantTotal(n, widths) + |widths| + 1
  {
  }

  /** One processed image yields at most one entry per configured width
      plus the original. */
  lemma VariantCountBound(baseFilename: string, widths: seq<nat>, originalWidth: int, sizeOf: string -> int)
    ensures |Variants(baseFilename, widths, originalWidth, sizeOf)| <= |widths| + 1
  {
    VariantsEndWithOriginal(baseFilename, widths, originalWidth, sizeOf);
  }

  /** With the configured widths, an image yields the full five entries
      exactly when it is at least 2560 pixels wide. */
  lemma SizesVariantCount(baseFilename: string, originalWidth: int, sizeOf: string -> int)
    ensures |Variants(baseFilename, Sizes, originalWidth, sizeOf)| == |Sizes| + 1 <==> originalWidth >= 2560
  {
    KeptSizes(originalWidth);
    VariantsEndWithOriginal(baseFilename, Sizes, originalWidth, sizeOf);
  }

  /** The printed total overstates what a single 1000-pixel-wide image
      produces: five reported, two generated (640w and the original). */
  lemma ReportedTotalOvercounts(baseFilename: string, widthOf: string -> int, sizeOf: string -> int)
    requires widthOf(baseFilename) == 1000
    ensures ReportedVariantTotal(1, Sizes) == 5
    ensures |Variants(baseFilename, Sizes, 1000, sizeOf)| == 2
    ensures WrittenTotal([baseFilename], Sizes, widthOf, sizeOf) == 2
  {
    KeptSizes(1000);
    VariantsEndWithOriginal(baseFilename, Sizes, 1000, sizeOf);
    assert [baseFilename][..0] == [];
  }

  // ----- The lookup `processedImages[filename]` -----

  /** The names every plain JavaScript object inherits from `Object.prototype`. */
  const InheritedNames: set<string> :=
    {"constructor", "toString", "toLocaleString", "valueOf", "hasOwnProperty", "isPrototypeOf",
     "propertyIsEnumerable", "__proto__", "__defineGetter__", "__defineSetter__",
     "__lookupGetter__", "__lookupSetter__"}

  /** `processedImages[filename]` on the object literal `{}` as written: an
      inherited member is as truthy as a processed image's sizes. */
  predicate LookupAsWritten(processed: map<string, seq<Variant>>, filename: string) {
    filename in processed || filename in InheritedNames
  }

  /** A reference whose file name is `constructor` passes the lookup without
      being a processed image, so `updateImageObject` receives a function
      where it expects the sizes array and `sizes.map` throws. */
  lemma InheritedNamePassesLookup()
    ensures var page := Str("/uploads/constructor");
            ReferenceName(page) == "constructor"
            && LookupAsWritten(map[], ReferenceName(page)) && !Matches(page, map[])
  {
    assert LastSegment("/uploads/constructor") == "constructor" by {
      assert "/uploads/constructor" == "/uploads/" + "constructor";
      LastSegmentAfterSlash("/uploads/", "constructor");
    }
  }

  lemma LastSegmentAfterSlash(dir: string, name: string)
    requires dir != [] && dir[|dir| - 1] == '/' && '/' !in name
    ensures LastSegment(dir + name) == name
    decreases |name|
  {
    if name != [] {
      assert (dir + name)[..|dir + name| - 1] == dir + name[..|name| - 1];
      LastSegmentAfterSlash(dir, name[..|name| - 1]);
    } else {
      assert dir + name == dir;
    }
  }
}
