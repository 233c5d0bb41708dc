/** metadata.py: `WikipediaImageScrapper`, which lists a page's images and
    downloads one, and a `MetadataImageCaptioner` that captions a single image
    from the title and description of its Wikimedia file page, as written by a
    language model. */
module Metadata {
  import opened Text
  import opened Web
  import opened Paths
  import opened Formatting
  import Captioning

  const ImageFolder := "images_wiki"
  /** The description of an image without an `alt` attribute (with a period,
      unlike the other two scripts). */
  const NoAltText := "No description available."
  const ImageExtensions := [".jpg", ".jpeg", ".png", ".gif"]
  /** The file-page hosts, in the order they are tried. */
  const MetadataSources := ["https://commons.wikimedia.org/wiki/File:", "https://en.wikipedia.org/wiki/File:"]
  const UnknownTitle := "Unknown Title"
  const NoMetadata := "No metadata found."
  const NoResponse := "No response generated."
  const CaptionFailed := "Caption generation failed."

  // ---------------------------------------------------------------------
  // WikipediaImageScrapper

  /** The `img` element has a `src` attribute. */
  predicate HasSrc(tag: Attrs) {
    "src" in tag
  }

  /** The entry `get_all_images` makes of an `img` element with a `src`: the
      source with every leading and trailing `/` removed (`strip("//")` strips
      the character set `{'/'}`), and the `alt` text or the default. */
  function ToEntry(tag: Attrs): Captioning.ImageRef
    requires HasSrc(tag)
  {
    Captioning.ImageRef(Strip(tag["src"], {'/'}), Get(tag, "alt", NoAltText))
  }

  /** The filter of the comprehension: the elements with a `src`, in order. */
  function WithSrc(tags: seq<Attrs>): (kept: seq<Attrs>)
    ensures forall k :: 0 <= k < |kept| ==> HasSrc(kept[k])
  {
    if tags == [] then []
    else
      var rest := WithSrc(tags[..|tags| - 1]);
      var last := tags[|tags| - 1];
      if HasSrc(last) then rest + [last] else rest
  }

  /** `get_all_images(html_content)`: one entry per `img` element that has a
      `src` attribute, in document order. */
  function AllImages(tags: seq<Attrs>): seq<Captioning.ImageRef> {
    var kept := WithSrc(tags);
    seq(|kept|, k requires 0 <= k < |kept| => ToEntry(kept[k]))
  }

  /** The positions, in document order, of the elements with a `src`. */
  function SrcIndices(tags: seq<Attrs>): seq<nat> {
    if tags == [] then []
    else
      var rest := SrcIndices(tags[..|tags| - 1]);
      if HasSrc(tags[|tags| - 1]) then rest + [|tags| - 1] else rest
  }

  /** The filter keeps exactly the elements with a `src`, in document order
      and without removing duplicates. */
  lemma {:induction false} WithSrcExactly(tags: seq<Attrs>)
    ensures |SrcIndices(tags)| == |WithSrc(tags)|
    ensures forall k :: 0 <= k < |SrcIndices(tags)| ==>
      SrcIndices(tags)[k] < |tags| && WithSrc(tags)[k] == tags[SrcIndices(tags)[k]]
    ensures forall k, l :: 0 <= k < l < |SrcIndices(tags)| ==>
      SrcIndices(tags)[k] < SrcIndices(tags)[l]
    ensures forall i :: 0 <= i < |tags| && HasSrc(tags[i]) ==> i in SrcIndices(tags)
  {
    if tags != [] {
      var init := tags[..|tags| - 1];
      WithSrcExactly(init);
      assert forall i :: 0 <= i < |init| ==> init[i] == tags[i];
    }
  }

  /** `get_all_images` keeps exactly the elements with a `src`, in document
      order and without removing duplicates: entry `k` is made from the `k`-th
      such element. */
  lemma AllImagesExactly(tags: seq<Attrs>)
    ensures |SrcIndices(tags)| == |AllImages(tags)|
    ensures forall k :: 0 <= k < |SrcIndices(tags)| ==>
      SrcIndices(tags)[k] < |tags| && HasSrc(tags[SrcIndices(tags)[k]]) &&
      AllImages(tags)[k] == ToEntry(tags[SrcIndices(tags)[k]])
    ensures forall k, l :: 0 <= k < l < |SrcIndices(tags)| ==>
      SrcIndices(tags)[k] < SrcIndices(tags)[l]
    ensures forall i :: 0 <= i < |tags| && HasSrc(tags[i]) ==> i in SrcIndices(tags)
  {
    WithSrcExactly(tags);
  }

  /** When every element has a `src`, the filter keeps them all. */
  lemma {:induction false} WithSrcKeepsAll(tags: seq<Attrs>)
    requires forall i :: 0 <= i < |tags| ==> HasSrc(tags[i])
    ensures WithSrc(tags) == tags
  {
    if tags != [] {
      var init := tags[..|tags| - 1];
      assert forall i :: 0 <= i < |init| ==> init[i] == tags[i];
      WithSrcKeepsAll(init);
      assert init + [tags[|tags| - 1]] == tags;
    }
  }

  /** When every element has a `src`, there is one entry per element. */
  lemma AllImagesOfSourcedTags(tags: seq<Attrs>)
    requires forall i :: 0 <= i < |tags| ==> HasSrc(tags[i])
    ensures |AllImages(tags)| == |tags|
    ensures forall i :: 0 <= i < |tags| ==> AllImages(tags)[i] == ToEntry(tags[i])
  {
    WithSrcKeepsAll(tags);
  }

  /** A link is its `src` with the run of slashes at each end removed: it
      neither starts nor ends with `/`, and it sits in the `src` between a
      prefix and a suffix made only of slashes. */
  lemma LinkIsTrimmedSource(src: string)
    ensures var link := Strip(src, {'/'});
      (link != "" ==> link[0] != '/' && link[|link| - 1] != '/') &&
      exists i :: OccursAt(src, link, i) &&
        (forall j :: 0 <= j < i ==> src[j] == '/') &&
        (forall j :: i + |link| <= j < |src| ==> src[j] == '/')
  {
    var cs := {'/'};
    var link := Strip(src, cs);
    if link != "" {
      StripEnds(src, cs);
    }
    var left := StripLeft(src, cs);
    var i := |src| - |left|;
    assert link == left[..|link|];
    assert src[i..i + |link|] == left[..|link|];
    forall j | i + |link| <= j < |src|
      ensures src[j] == '/'
    {
      assert src[j] == left[j - i];
    }
    assert forall j :: 0 <= j < i ==> src[j] in cs;
    assert OccursAt(src, link, i);
  }

  /** `is_image_link(link)`: the link ends with one of the four extensions,
      compared case-sensitively. */
  predicate IsImageLink(link: string) {
    EndsWithAny(link, ImageExtensions)
  }

  /** A link with one of the extensions appended is an image link, and those
      four suffixes are the only ones that make one. */
  lemma ImageLinkIff(link: string)
    ensures IsImageLink(link) <==>
      EndsWith(link, ".jpg") || EndsWith(link, ".jpeg") || EndsWith(link, ".png") || EndsWith(link, ".gif")
  {
    EndsWithAnyOfFour(link, ".jpg", ".jpeg", ".png", ".gif");
  }

  /** A link whose last character is neither `g` nor `f` is not an image link. */
  lemma NotImageByLastChar(link: string)
    requires link == [] || (link[|link| - 1] != 'g' && link[|link| - 1] != 'f')
    ensures !IsImageLink(link)
  {
    forall i | 0 <= i < |ImageExtensions|
      ensures !EndsWith(link, ImageExtensions[i])
    {
      var e := ImageExtensions[i];
      assert e[|e| - 1] == 'g' || e[|e| - 1] == 'f';
      if |e| <= |link| {
        assert link[|link| - |e|..][|e| - 1] == link[|link| - 1];
      }
    }
  }

  /** The same extensions in upper case are not recognised. */
  lemma UpperCaseExtensionsAreNotImages(stem: string)
    ensures !IsImageLink(stem + ".JPG") && !IsImageLink(stem + ".JPEG")
    ensures !IsImageLink(stem + ".PNG") && !IsImageLink(stem + ".GIF")
  {
    NotImageByLastChar(stem + ".JPG");
    NotImageByLastChar(stem + ".JPEG");
    NotImageByLastChar(stem + ".PNG");
    NotImageByLastChar(stem + ".GIF");
  }

  /** `clean_filename(filename)`: `os.path.splitext(filename)[0]`. */
  function CleanFilename(filename: string): (r: string)
    ensures StartsWith(filename, r)
  {
    Stem(filename)
  }

  /** Each image extension is a dot followed by letters. */
  lemma ImageExtensionShape(ext: string)
    requires ext in ImageExtensions
    ensures |ext| >= 2 && ext[0] == '.' && '.' !in ext[1..] && '/' !in ext
  {
  }

  /** A name that ends in a character other than `/` or `.` loses exactly an
      extension appended to it. */
  lemma CleanFilenameDropsExtension(stem: string, ext: string)
    requires stem != [] && stem[|stem| - 1] != '/' && stem[|stem| - 1] != '.'
    requires ext in ImageExtensions
    ensures CleanFilename(stem + ext) == stem
  {
    var p := stem + ext;
    ImageExtensionShape(ext);
    var dot := LastIndexOf(p, '.');
    assert dot == |stem| by {
      assert p[|stem|] == '.';
      assert forall j :: |stem| < j < |p| ==> p[j] == ext[1..][j - |stem| - 1];
    }
    var sep := LastIndexOf(p, '/');
    assert sep < |stem| - 1 by {
      assert forall j :: |stem| <= j < |p| ==> p[j] == ext[j - |stem|];
      assert p[|stem| - 1] != '/';
    }
    DotsOnlyMeans(p, sep + 1, dot);
    assert p[|stem| - 1] != '.';
    assert p[..dot] == stem;
  }

  /** A leading dot does not start an extension: a hidden file name without
      another dot is left whole. */
  lemma CleanFilenameKeepsHiddenName(name: string)
    requires '.' !in name && '/' !in name
    ensures CleanFilename("." + name) == "." + name
  {
    var p := "." + name;
    assert forall j :: 0 < j < |p| ==> p[j] == name[j - 1] && p[j] != '.';
    assert p[0] == '.';
    assert LastIndexOf(p, '.') == 0;
    assert LastIndexOf(p, '/') == -1;
  }

  /** A file name joined under the image folder is a path inside it with that
      base name. */
  lemma SavedInFolder(name: string)
    requires name != "" && '/' !in name
    ensures StartsWith(Join(ImageFolder, name), ImageFolder + "/")
    ensures Basename(Join(ImageFolder, name)) == name
  {
    assert !StartsWith(name, "/") by {
      assert name[0] != '/';
    }
    assert !EndsWith(ImageFolder, "/");
    var path := Join(ImageFolder, name);
    assert path == ImageFolder + "/" + name;
    assert path[..|ImageFolder + "/"|] == ImageFolder + "/";
    BasenameOfJoin(ImageFolder, name);
  }

  /** `download_image(session, url)`: on status 200 the body is written to
      `images_wiki/<basename of url>` and `(path, url)` is returned; on any
      failure (the request, the status or the write) both are `None`. */
  function DownloadImage(url: string, response: Fetch<()>): (r: (Option<string>, Option<string>))
    ensures r.0.Some? <==> IsOk(response) && Writable(Basename(url))
    ensures r.0.None? ==> r == (None, None)
    ensures r.0.Some? ==> r.1 == Some(url)
    ensures r.0.Some? ==> r.0.value == Join(ImageFolder, Basename(url))
    ensures r.0.Some? ==> StartsWith(r.0.value, ImageFolder + "/") && Basename(r.0.value) == Basename(url)
  {
    if IsOk(response) && Writable(Basename(url)) then
      SavedInFolder(Basename(url));
      (Some(Join(ImageFolder, Basename(url))), Some(url))
    else
      (None, None)
  }

  // ---------------------------------------------------------------------
  // MetadataImageCaptioner

  const PromptLead := "You are an intelligent assistant. Based on the given title and metadata, "
    + "generate a descriptive caption for the image. Title: "

  /** The prompt template of `generate_caption`, split at its two fields. */
  const PromptTemplate: Template :=
    [Literal(PromptLead), Field("context"), Literal(". Metadata: "), Field("full_description"), Literal(".")]

  /** The prompt text with the title and metadata in place. */
  function PromptFor(context: string, fullDescription: string): string {
    PromptLead + context + ". Metadata: " + fullDescription + "."
  }

  /** Formatting the template with both arguments never raises and yields the
      prompt text; braces in the arguments are not interpreted again. */
  lemma PromptFillsBothFields(context: string, fullDescription: string)
    ensures Format(PromptTemplate, map["context" := context, "full_description" := fullDescription])
      == Success(PromptFor(context, fullDescription))
  {
    var args := map["context" := context, "full_description" := fullDescription];
    var p0, p1, p2, p3, p4 := Literal(PromptLead), Field("context"), Literal(". Metadata: "),
      Field("full_description"), Literal(".");
    assert PromptTemplate == [p0] + [p1] + [p2] + [p3] + [p4];
    FormatPiece(p0, args);
    FormatPiece(p1, args);
    FormatPiece(p2, args);
    FormatPiece(p3, args);
    FormatPiece(p4, args);
    FormatConcat([p0], [p1], args);
    FormatConcat([p0] + [p1], [p2], args);
    FormatConcat([p0] + [p1] + [p2], [p3], args);
    FormatConcat([p0] + [p1] + [p2] + [p3], [p4], args);
  }

  /** What the language model does with a prompt: it raises, or it answers
      with a dictionary that should hold a `response` key. */
  datatype ModelReply = Raised | Reply(fields: map<string, string>)

  /** `generate_caption(context, full_description)`: the model's `response`
      to the prompt, "No response generated." when the reply has none, and
      "Caption generation failed." when the call raises. */
  function GenerateCaption(context: string, fullDescription: string, model: string -> ModelReply): (c: string)
    ensures model(PromptFor(context, fullDescription)).Raised? ==> c == CaptionFailed
    ensures model(PromptFor(context, fullDescription)).Reply? ==>
      var fields := model(PromptFor(context, fullDescription)).fields;
      (c == if "response" in fields then fields["response"] else NoResponse)
  {
    PromptFillsBothFields(context, fullDescription);
    var prompt := Format(PromptTemplate, map["context" := context, "full_description" := fullDescription]).value;
    match model(prompt)
    case Raised => CaptionFailed
    case Reply(fields) => Get(fields, "response", NoResponse)
  }

  /** What `gather_image_metadata` reads from a file page: the text of the
      `h1#firstHeading` element and of the `div.description` element, each
      when present. */
  datatype FilePage = FilePage(heading: Option<string>, description: Option<string>)

  /** The file pages tried for `filename`, in order. */
  function Candidates(filename: string): (urls: seq<string>)
    ensures |urls| == |MetadataSources|
    ensures forall i :: 0 <= i < |urls| ==> urls[i] == MetadataSources[i] + filename
  {
    [MetadataSources[0] + filename, MetadataSources[1] + filename]
  }

  /** The `(title, metadata)` pair read from a page that answered. */
  function PageMetadata(page: FilePage): (string, string) {
    (page.heading.GetOr(UnknownTitle), page.description.GetOr(NoMetadata))
  }

  /** The pair `gather_image_metadata(filename)` returns: read from the first
      candidate page that answers 200, or the defaults when none does. */
  function MetadataFor(filename: string, source: string -> Fetch<FilePage>): (string, string) {
    match FirstOk(Candidates(filename), source)
    case Some(page) => PageMetadata(page)
    case None => (UnknownTitle, NoMetadata)
  }

  /** The Commons page wins when it answers; the Wikipedia page is read only
      when it does not; with neither, the defaults. */
  lemma MetadataCandidateOrder(filename: string, source: string -> Fetch<FilePage>)
    ensures IsOk(source(MetadataSources[0] + filename)) ==>
      MetadataFor(filename, source) == PageMetadata(source(MetadataSources[0] + filename).body)
    ensures !IsOk(source(MetadataSources[0] + filename)) && IsOk(source(MetadataSources[1] + filename)) ==>
      MetadataFor(filename, source) == PageMetadata(source(MetadataSources[1] + filename).body)
    ensures !IsOk(source(MetadataSources[0] + filename)) && !IsOk(source(MetadataSources[1] + filename)) ==>
      MetadataFor(filename, source) == (UnknownTitle, NoMetadata)
  {
    var urls := Candidates(filename);
    assert urls[1..] == [urls[1]] && urls[1..][1..] == [];
  }

  /** A page that answers with neither a heading nor a description block
      gives the same pair as no page at all. */
  lemma EmptyPageGivesDefaults()
    ensures PageMetadata(FilePage(None, None)) == (UnknownTitle, NoMetadata)
    ensures forall h, d :: PageMetadata(FilePage(Some(h), Some(d))) == (h, d)
  {
  }

  /** The caption `process_single_image` records for a downloaded image. */
  function SingleCaption(imageUrl: string, source: string -> Fetch<FilePage>, model: string -> ModelReply): string {
    var m := MetadataFor(Basename(imageUrl), source);
    GenerateCaption(m.0, m.1, model)
  }

  /** With no file page reachable, the model is asked about "Unknown Title"
      and "No metadata found.". */
  lemma UnreachableMetadataPrompt(imageUrl: string, source: string -> Fetch<FilePage>, model: string -> ModelReply)
    requires forall i :: 0 <= i < |MetadataSources| ==> !IsOk(source(MetadataSources[i] + Basename(imageUrl)))
    ensures SingleCaption(imageUrl, source, model) == GenerateCaption(UnknownTitle, NoMetadata, model)
  {
    MetadataCandidateOrder(Basename(imageUrl), source);
  }

  class MetadataImageCaptioner {
    const url: string
    var captions: map<string, string>

    /** `MetadataImageCaptioner(url)`. */
    constructor (url: string)
      ensures this.url == url && captions == map[]
    {
      this.url := url;
      captions := map[];
    }

    /** `gather_image_metadata(filename)`: tries each candidate page in turn
        and returns from the first that answers 200. */
    method GatherImageMetadata(filename: string, source: string -> Fetch<FilePage>)
      returns (title: string, metadata: string)
      ensures (title, metadata) == MetadataFor(filename, source)
    {
      var urls := Candidates(filename);
      for i := 0 to |MetadataSources|
        invariant forall j :: 0 <= j < i ==> !IsOk(source(urls[j]))
      {
        var response := source(MetadataSources[i] + filename);
        if response.Response? && response.status == 200 {
          title := response.body.heading.GetOr(UnknownTitle);
          metadata := response.body.description.GetOr(NoMetadata);
          return;
        }
      }
      return UnknownTitle, NoMetadata;
    }

    /** `process_single_image(image_url)`: a failed download returns `{}`
        and changes nothing; otherwise the image's caption is recorded under
        its URL, overwriting an earlier one, and the whole dictionary is
        returned. */
    method ProcessSingleImage(imageUrl: string, download: Fetch<()>,
                              source: string -> Fetch<FilePage>, model: string -> ModelReply)
      returns (r: map<string, string>)
      modifies `captions
      ensures DownloadImage(imageUrl, download).0.None? ==> r == map[] && captions == old(captions)
      ensures DownloadImage(imageUrl, download).0.Some? ==>
        captions == old(captions)[imageUrl := SingleCaption(imageUrl, source, model)] && r == captions
    {
      var saved := DownloadImage(imageUrl, download);
      var filePath, url := saved.0, saved.1;
      if filePath.None? || filePath.value == "" {
        return map[];
      }
      var filename := Basename(filePath.value);
      assert filename == Basename(imageUrl);
      var title, metadata := GatherImageMetadata(filename, source);
      var caption := GenerateCaption(title, metadata, model);
      captions := captions[url.value := caption];
      r := captions;
    }
  }
}
