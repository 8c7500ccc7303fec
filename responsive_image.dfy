/** The `<img>` attributes the `ResponsiveImage` component renders
    (src/components/ResponsiveImage.jsx): `src` from the image reference, a
    `srcset` built from the optimised variants when the image carries any,
    `sizes` with its fallbacks, and the alt text. */
module ResponsiveImage {
  import opened Text
  import opened JsonValues
  import opened Media

  /** The attributes of the rendered `<img>`; `None` is an attribute that is
      not set. */
  datatype Img = Img(src: Json, srcset: Option<string>, sizes: Option<Json>, alt: Json)

  /** `${source.url} ${source.width}w`. */
  function SrcsetEntry(source: Json): (r: string)
    ensures r == ToJsString(Get(source, "url")) + " " + ToJsString(Get(source, "width")) + "w"
    ensures r[|r| - 1] == 'w'
  {
    ToJsString(Get(source, "url")) + " " + ToJsString(Get(source, "width")) + "w"
  }

  function SrcsetEntries(sources: seq<Json>): (r: seq<string>)
    ensures |r| == |sources| && forall i | 0 <= i < |r| :: r[i] == SrcsetEntry(sources[i])
  {
    seq(|sources|, i requires 0 <= i < |sources| => SrcsetEntry(sources[i]))
  }

  /** `responsive.srcset.map(...).join(', ')`. */
  function SrcsetString(sources: seq<Json>): string {
    Join(SrcsetEntries(sources), ", ")
  }

  /** The variants of `image.responsive.srcset` when it is a non-empty array. */
  function ResponsiveSources(image: Json): (r: Option<seq<Json>>)
    ensures r.Some? <==> Get(Get(image, "responsive"), "srcset").Arr?
                         && |Get(Get(image, "responsive"), "srcset").items| > 0
    ensures r.Some? ==> r.value == Get(Get(image, "responsive"), "srcset").items
  {
    var srcset := Get(Get(image, "responsive"), "srcset");
    if srcset.Arr? && |srcset.items| > 0 then Some(srcset.items) else None
  }

  /** `sizes || responsive.sizes || '100vw'`. */
  function SizesAttr(sizes: Json, responsive: Json): (r: Json)
    ensures Truthy(sizes) ==> r == sizes
    ensures !Truthy(sizes) && Truthy(Get(responsive, "sizes")) ==> r == Get(responsive, "sizes")
    ensures !Truthy(sizes) && !Truthy(Get(responsive, "sizes")) ==> r == Str("100vw")
  {
    Or(Or(sizes, Get(responsive, "sizes")), Str("100vw"))
  }

  /** `ResponsiveImage({image, alt, sizes})`; `None` is a `null` render. */
  function Render(image: Json, alt: Json, sizes: Json): (r: Option<Img>)
    // a missing image renders nothing
    ensures !Truthy(image) ==> r.None?
    // a string is the source itself, without srcset or sizes
    ensures Truthy(image) && image.Str? ==> r.Some? && r.value.src == image && r.value.srcset.None? && r.value.sizes.None?
    // an object renders exactly when one of its URL candidates is truthy, with that URL
    ensures Truthy(image) && !image.Str? ==> (r.Some? <==> Truthy(ObjectUrl(image)))
    ensures r.Some? && !image.Str? ==> r.value.src == ObjectUrl(image)
    // srcset and sizes appear together, exactly for an object with a non-empty srcset array
    ensures r.Some? ==> (r.value.srcset.Some? <==> !image.Str? && ResponsiveSources(image).Some?)
                        && (r.value.sizes.Some? <==> r.value.srcset.Some?)
    ensures r.Some? && r.value.srcset.Some? ==>
              r.value.srcset.value == SrcsetString(ResponsiveSources(image).value)
              && r.value.sizes.value == SizesAttr(sizes, Get(image, "responsive"))
    // the alt text is the prop, or "Image" when it is falsy
    ensures r.Some? ==> (Truthy(alt) ==> r.value.alt == alt) && (!Truthy(alt) ==> r.value.alt == Str("Image"))
  {
    var altText := Or(alt, Str("Image"));
    if !Truthy(image) then None
    else if image.Str? then Some(Img(image, None, None, altText))
    else
      var src := ObjectUrl(image);
      if !Truthy(src) then None
      else
        match ResponsiveSources(image)
        case None => Some(Img(src, None, None, altText))
        case Some(sources) =>
          Some(Img(src, Some(SrcsetString(sources)), Some(SizesAttr(sizes, Get(image, "responsive"))), altText))
  }

  /** Splitting the srcset on commas gives back one entry per variant, in
      input order, each after the first preceded by the one space of the
      separator (for numeric widths and URLs without a comma). */
  lemma SrcsetListsEachVariant(sources: seq<Json>)
    requires |sources| >= 1
    requires forall i | 0 <= i < |sources| :: ',' !in ToJsString(Get(sources[i], "url"))
    requires forall i | 0 <= i < |sources| :: Get(sources[i], "width").Num?
    ensures var parts := Split(SrcsetString(sources), ',');
            |parts| == |sources| && parts[0] == SrcsetEntry(sources[0])
            && forall i | 1 <= i < |sources| :: parts[i] == " " + SrcsetEntry(sources[i])
  {
    var entries := SrcsetEntries(sources);
    forall i | 0 <= i < |entries|
      ensures ',' !in entries[i]
    {
      NoCommaInEntry(sources[i]);
    }
    assert [','] + " " == ", ";
    SplitJoin("", entries, ',', " ");
    assert "" + SrcsetString(sources) == SrcsetString(sources);
  }

  lemma NoCommaInEntry(source: Json)
    requires ',' !in ToJsString(Get(source, "url")) && Get(source, "width").Num?
    ensures ',' !in SrcsetEntry(source)
  {
    DigitsHaveNoComma(Get(source, "width").n);
  }

  lemma DigitsHaveNoComma(n: int)
    ensures ',' !in IntToString(n)
  {
    NatDigitsHaveNoComma(if n < 0 then -n else n);
  }

  lemma {:induction false} NatDigitsHaveNoComma(n: nat)
    ensures ',' !in NatToString(n)
    decreases n
  {
    if n >= 10 {
      NatDigitsHaveNoComma(n / 10);
    }
  }
}
