/** The parts of `MetadataImageCaptioner` that final.py and metaimg.py define
    identically: picking the Wikimedia upload images out of a page, and the
    placeholder caption string. */
module Captioning {
  import opened Text
  import opened Web

  /** Only images served from this host are kept (a protocol-relative source). */
  const UploadPrefix := "//upload.wikimedia.org"
  /** The description of an image without an `alt` attribute. */
  const NoAltText := "No description available"

  /** One entry of `image_data`: `{"link": ..., "description": ...}`. */
  datatype ImageRef = ImageRef(link: string, description: string)

  /** The `img` element has a `src` on the upload host. */
  predicate IsUploadImage(tag: Attrs) {
    "src" in tag && StartsWith(tag["src"], UploadPrefix)
  }

  /** The entry recorded for a kept element: the source made absolute with
      `https:`, and the `alt` text or the default. */
  function ToRef(tag: Attrs): ImageRef
    requires "src" in tag
  {
    ImageRef("https:" + tag["src"], Get(tag, "alt", NoAltText))
  }

  /** The entries `extract_images` returns for the page's `img` elements,
      in document order. */
  function UploadImages(tags: seq<Attrs>): seq<ImageRef> {
    if tags == [] then []
    else
      var rest := UploadImages(tags[..|tags| - 1]);
      var last := tags[|tags| - 1];
      if IsUploadImage(last) then rest + [ToRef(last)] else rest
  }

  /** `extract_images`: one pass over the `img` elements, appending an entry
      for each element whose `src` is on the upload host. */
  method ExtractImages(tags: seq<Attrs>) returns (images: seq<ImageRef>)
    ensures images == UploadImages(tags)
  {
    images := [];
    for i := 0 to |tags|
      invariant images == UploadImages(tags[..i])
    {
      var tag := tags[i];
      var src := Get(tag, "src", "");
      if src != "" && StartsWith(src, UploadPrefix) {
        var description := Get(tag, "alt", NoAltText);
        images := images + [ImageRef("https:" + src, description)];
      }
      assert tags[..i + 1][..i] == tags[..i];
    }
    assert tags[..|tags|] == tags;
  }

  /** The positions, in document order, of the elements `extract_images` keeps. */
  function UploadIndices(tags: seq<Attrs>): seq<nat> {
    if tags == [] then []
    else
      var rest := UploadIndices(tags[..|tags| - 1]);
      if IsUploadImage(tags[|tags| - 1]) then rest + [|tags| - 1] else rest
  }

  /** `extract_images` keeps exactly the upload-host elements, in document
      order and without removing duplicates: entry `k` is the rewrite of the
      `k`-th such element. */
  lemma {:induction false} UploadImagesExactly(tags: seq<Attrs>)
    ensures |UploadIndices(tags)| == |UploadImages(tags)|
    ensures forall k :: 0 <= k < |UploadIndices(tags)| ==>
      UploadIndices(tags)[k] < |tags| && IsUploadImage(tags[UploadIndices(tags)[k]]) &&
      UploadImages(tags)[k] == ToRef(tags[UploadIndices(tags)[k]])
    ensures forall k, l :: 0 <= k < l < |UploadIndices(tags)| ==>
      UploadIndices(tags)[k] < UploadIndices(tags)[l]
    ensures forall i :: 0 <= i < |tags| && IsUploadImage(tags[i]) ==> i in UploadIndices(tags)
  {
    if tags != [] {
      var init := tags[..|tags| - 1];
      UploadImagesExactly(init);
      assert forall i :: 0 <= i < |init| ==> init[i] == tags[i];
    }
  }

  /** Extraction distributes over concatenation: the entries of a page are
      those of its first part followed by those of the rest. */
  lemma {:induction false} UploadImagesAppend(a: seq<Attrs>, b: seq<Attrs>)
    ensures UploadImages(a + b) == UploadImages(a) + UploadImages(b)
  {
    if b == [] {
      assert a + b == a;
    } else {
      var b' := b[..|b| - 1];
      assert (a + b)[..|a + b| - 1] == a + b';
      UploadImagesAppend(a, b');
    }
  }

  /** Every entry's link is an absolute `https://upload.wikimedia.org` URL. */
  lemma {:induction false} UploadLinksAreHttps(tags: seq<Attrs>, k: int)
    requires 0 <= k < |UploadImages(tags)|
    ensures StartsWith(UploadImages(tags)[k].link, "https:" + UploadPrefix)
  {
    var init := tags[..|tags| - 1];
    if k < |UploadImages(init)| {
      UploadLinksAreHttps(init, k);
    } else {
      var src := tags[|tags| - 1]["src"];
      assert src[..|UploadPrefix|] == UploadPrefix;
      assert ("https:" + src)[..|"https:" + UploadPrefix|] == "https:" + src[..|UploadPrefix|];
    }
  }

  const CaptionLead := "Generated caption for '"

  /** The f-string `f"Generated caption for '{context}': {description[:50]}..."`:
      the context quoted after a fixed lead, then at most the first 50
      characters of the description, then an ellipsis. */
  function TemplateCaption(context: string, description: string): (r: string)
    ensures StartsWith(r, CaptionLead + context + "': ")
    ensures EndsWith(r, "...")
    ensures |r| == |CaptionLead| + |context| + 3 + Min(50, |description|) + 3
    ensures StartsWith(description, r[|CaptionLead| + |context| + 3..|r| - 3])
  {
    var head := CaptionLead + context + "': ";
    var r := head + Take(description, 50) + "...";
    assert r[..|head|] == head;
    assert r[|head|..|r| - 3] == Take(description, 50);
    r
  }

  /** Only the first 50 characters of the description reach the caption. */
  lemma CaptionSeesFirst50(context: string, d1: string, d2: string)
    requires Take(d1, 50) == Take(d2, 50)
    ensures TemplateCaption(context, d1) == TemplateCaption(context, d2)
  {
  }

  /** A description of at most 50 characters appears in full. */
  lemma CaptionKeepsShortDescription(context: string, description: string)
    requires |description| <= 50
    ensures TemplateCaption(context, description) ==
      CaptionLead + context + "': " + description + "..."
  {
  }
}
