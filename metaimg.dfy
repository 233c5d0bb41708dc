/** metaimg.py: `MetadataImageCaptioner.process_images`, which fetches a page,
    keeps its upload images, downloads them all, and records one placeholder
    caption per downloaded image in `self.captions`. */
module MetaImg {
  import opened Text
  import opened Web
  import opened Paths
  import opened Formatting
  import opened Captioning

  const ImageFolder := "images_wiki"
  const DescriptionNotFound := "Description not found."
  const MetadataSources := ["https://commons.wikimedia.org/wiki/File:", "https://en.wikipedia.org/wiki/File:"]

  /** The page as `fetch_content` returns it (the response text) and as
      BeautifulSoup then sees it (its `img` elements). */
  datatype Html = Html(text: string, images: seq<Attrs>)

  /** `fetch_content(session, url)`: the page on status 200, `None` otherwise. */
  function FetchContent(page: Fetch<Html>): (r: Option<Html>)
    ensures r.Some? <==> IsOk(page)
    ensures r.Some? ==> r.value == page.body
  {
    if IsOk(page) then Some(page.body) else None
  }

  /** One element of `download_results`: `(file_path or None, url)`. */
  datatype Downloaded = Downloaded(path: Option<string>, url: string)

  /** `download_image(session, url)`: on status 200 the body is written to
      `images_wiki/<basename of url>` and that path is returned; on any failure
      (the request, the status or the write) the path is `None`. The URL is
      returned on every path. */
  function DownloadImage(url: string, response: Fetch<()>): (r: Downloaded)
    ensures r.url == url
    ensures r.path.Some? <==> IsOk(response) && Writable(Basename(url))
    ensures r.path.Some? ==> r.path.value == Join(ImageFolder, Basename(url))
    ensures r.path.Some? ==> Basename(r.path.value) == Basename(url)
  {
    if IsOk(response) && Writable(Basename(url)) then
      var path := Join(ImageFolder, Basename(url));
      BasenameOfJoin(ImageFolder, Basename(url));
      Downloaded(Some(path), url)
    else
      Downloaded(None, url)
  }

  /** `asyncio.gather` over one download task per entry: the results come back
      in the order of the entries. Each URL's outcome is an oracle. */
  function DownloadAll(data: seq<ImageRef>, download: string -> Fetch<()>): (rs: seq<Downloaded>)
    ensures |rs| == |data|
  {
    seq(|data|, i requires 0 <= i < |data| => DownloadImage(data[i].link, download(data[i].link)))
  }

  /** The `i`-th result is the download of the `i`-th entry's link. */
  lemma DownloadAllAt(data: seq<ImageRef>, download: string -> Fetch<()>, i: int)
    requires 0 <= i < |data|
    ensures DownloadAll(data, download)[i] == DownloadImage(data[i].link, download(data[i].link))
  {
  }

  /** A saved download is named after its URL's file name. */
  predicate SavedUnderItsName(d: Downloaded) {
    d.path.Some? ==> Basename(d.path.value) == Basename(d.url)
  }

  /** Every result of `DownloadAll` is saved under its URL's file name. */
  lemma SavedAt(data: seq<ImageRef>, download: string -> Fetch<()>, i: int)
    requires 0 <= i < |data|
    ensures SavedUnderItsName(DownloadAll(data, download)[i])
  {
    DownloadAllAt(data, download, i);
  }

  /** `gather_image_metadata(filename)` in metaimg.py: the lowered text of the
      first candidate file page that answers 200, or "" when none does. The
      body of a page is its extracted text. */
  function FullInfo(filename: string, source: string -> Fetch<string>): string {
    match FirstOk([MetadataSources[0] + filename, MetadataSources[1] + filename], source)
    case Some(text) => Lower(text)
    case None => ""
  }

  /** The Commons page is read when it answers, the Wikipedia page only when
      it does not, and with neither the text is empty. */
  lemma FullInfoCandidateOrder(filename: string, source: string -> Fetch<string>)
    ensures IsOk(source(MetadataSources[0] + filename)) ==>
      FullInfo(filename, source) == Lower(source(MetadataSources[0] + filename).body)
    ensures !IsOk(source(MetadataSources[0] + filename)) && IsOk(source(MetadataSources[1] + filename)) ==>
      FullInfo(filename, source) == Lower(source(MetadataSources[1] + filename).body)
    ensures !IsOk(source(MetadataSources[0] + filename)) && !IsOk(source(MetadataSources[1] + filename)) ==>
      FullInfo(filename, source) == ""
  {
    var urls := [MetadataSources[0] + filename, MetadataSources[1] + filename];
    assert urls[1..] == [urls[1]] && urls[1..][1..] == [];
  }

  /** `next((img["description"] for img in image_data if img["link"] == url),
      "Description not found.")`. */
  function FirstDescription(data: seq<ImageRef>, url: string): (d: string)
    ensures (exists i :: 0 <= i < |data| && data[i].link == url) ==>
      exists i :: 0 <= i < |data| && data[i].link == url && d == data[i].description &&
        forall j :: 0 <= j < i ==> data[j].link != url
    ensures (forall i :: 0 <= i < |data| ==> data[i].link != url) ==> d == DescriptionNotFound
  {
    if data == [] then DescriptionNotFound
    else if data[0].link == url then data[0].description
    else
      var d := FirstDescription(data[1..], url);
      assert forall i :: 1 <= i < |data| ==> data[i] == data[1..][i - 1];
      d
  }

  /** The template names no field but `context` and `full_description`. */
  predicate FitsCaption(t: Template) {
    FieldsIn(t, {"context", "full_description"})
  }

  /** `generate_caption(context, full_description)` in metaimg.py: the prompt
      is formatted with `context` and `full_description` and discarded (a
      template naming another field raises `KeyError`); the caption is the
      placeholder f-string. */
  function GenerateCaption(template: Template, context: string, fullDescription: string): (r: Result<string, FormatError>)
    ensures r.Success? <==> FitsCaption(template)
    ensures r.Success? ==> r.value == TemplateCaption(context, fullDescription)
  {
    var args := map["context" := context, "full_description" := fullDescription];
    assert args.Keys == {"context", "full_description"};
    match Format(template, args)
    case Failure(e) => Failure(e)
    case Success(_) => Success(TemplateCaption(context, fullDescription))
  }

  /** The caption recorded for a downloaded URL: the context is the file
      name without extension, a space and the description of the first entry
      with that link; the text of the file page supplies the rest. */
  function CaptionFor(data: seq<ImageRef>, url: string, source: string -> Fetch<string>): string {
    TemplateCaption(Stem(Basename(url)) + " " + FirstDescription(data, url), FullInfo(Basename(url), source))
  }

  /** `CaptionFor` for every URL of one page. */
  function CaptionOf(data: seq<ImageRef>, source: string -> Fetch<string>): string -> string {
    url => CaptionFor(data, url, source)
  }

  /** `captionOf` gives every URL the caption `CaptionFor` builds for it. */
  ghost predicate CaptionsFor(captionOf: string -> string, data: seq<ImageRef>, source: string -> Fetch<string>) {
    forall u {:trigger CaptionFor(data, u, source)} :: captionOf(u) == CaptionFor(data, u, source)
  }

  /** `self.captions` after the loop has seen `results`, starting from
      `captions`, when a saved image at `url` is captioned `captionOf(url)`. */
  function RecordCaptions(captions: map<string, string>, results: seq<Downloaded>,
                          captionOf: string -> string): map<string, string>
  {
    if results == [] then captions
    else
      var before := RecordCaptions(captions, results[..|results| - 1], captionOf);
      var last := results[|results| - 1];
      if last.path.Some? then before[last.url := captionOf(last.url)]
      else before
  }

  /** One more pass of the loop: a successful download records its caption,
      a failed one changes nothing. */
  lemma RecordStep(captions: map<string, string>, results: seq<Downloaded>, captionOf: string -> string, i: int)
    requires 0 <= i < |results|
    ensures results[i].path.Some? ==>
      (RecordCaptions(captions, results[..i + 1], captionOf) ==
       RecordCaptions(captions, results[..i], captionOf)[results[i].url := captionOf(results[i].url)])
    ensures results[i].path.None? ==>
      (RecordCaptions(captions, results[..i + 1], captionOf) == RecordCaptions(captions, results[..i], captionOf))
  {
    var prefix := results[..i + 1];
    assert prefix[..|prefix| - 1] == results[..i];
    assert prefix[|prefix| - 1] == results[i];
  }

  /** Some download succeeded. */
  predicate AnySucceeded(results: seq<Downloaded>) {
    exists i :: 0 <= i < |results| && results[i].path.Some?
  }

  /** The keys after the loop are the earlier keys and the URLs of the
      successful downloads: a failed download never becomes a key, and no key
      is ever removed. */
  lemma {:induction false} RecordedKeys(captions: map<string, string>, results: seq<Downloaded>, captionOf: string -> string)
    ensures forall k :: k in RecordCaptions(captions, results, captionOf) <==>
      k in captions || exists i :: 0 <= i < |results| && results[i].path.Some? && results[i].url == k
  {
    if results != [] {
      var init := results[..|results| - 1];
      RecordedKeys(captions, init, captionOf);
      assert forall i :: 0 <= i < |init| ==> init[i] == results[i];
    }
  }

  /** Without a successful download the loop leaves the captions as they were. */
  lemma {:induction false} RecordNothing(captions: map<string, string>, results: seq<Downloaded>, captionOf: string -> string)
    requires !AnySucceeded(results)
    ensures RecordCaptions(captions, results, captionOf) == captions
  {
    if results != [] {
      var init := results[..|results| - 1];
      assert forall i :: 0 <= i < |init| ==> init[i] == results[i];
      RecordNothing(captions, init, captionOf);
    }
  }

  /** Every URL with a successful download maps to its caption, however many
      entries share the URL. */
  lemma {:induction false} RecordedValue(captions: map<string, string>, results: seq<Downloaded>,
                                         captionOf: string -> string, i: int)
    requires 0 <= i < |results| && results[i].path.Some?
    ensures results[i].url in RecordCaptions(captions, results, captionOf)
    ensures RecordCaptions(captions, results, captionOf)[results[i].url] == captionOf(results[i].url)
  {
    var init := results[..|results| - 1];
    var last := results[|results| - 1];
    if !(last.path.Some? && last.url == results[i].url) {
      assert i < |init| && init[i] == results[i];
      RecordedValue(captions, init, captionOf, i);
    }
  }

  /** A key no successful download has keeps its earlier caption. */
  lemma {:induction false} RecordKeepsOthers(captions: map<string, string>, results: seq<Downloaded>,
                                             captionOf: string -> string, k: string)
    requires k in captions
    requires forall i :: 0 <= i < |results| && results[i].path.Some? ==> results[i].url != k
    ensures k in RecordCaptions(captions, results, captionOf)
    ensures RecordCaptions(captions, results, captionOf)[k] == captions[k]
  {
    if results != [] {
      var init := results[..|results| - 1];
      assert forall i :: 0 <= i < |init| ==> init[i] == results[i];
      RecordKeepsOthers(captions, init, captionOf, k);
    }
  }

  /** When the first saved image is at `i`, some download succeeded and the
      loop has recorded nothing before it. */
  lemma FirstSaved(captions: map<string, string>, results: seq<Downloaded>, captionOf: string -> string, i: int)
    requires 0 <= i < |results| && results[i].path.Some?
    requires forall j :: 0 <= j < i ==> results[j].path.None?
    ensures AnySucceeded(results)
    ensures RecordCaptions(captions, results[..i], captionOf) == captions
  {
    assert !AnySucceeded(results[..i]) by {
      forall j | 0 <= j < i ensures results[..i][j].path.None? {
        assert results[..i][j] == results[j];
      }
    }
    RecordNothing(captions, results[..i], captionOf);
  }

  /** For the downloads of `process_images` the description in each caption is
      that of the first entry with the URL, never "Description not found.". */
  lemma DescriptionFromFirstEntry(data: seq<ImageRef>, download: string -> Fetch<()>, i: int)
    requires 0 <= i < |data|
    ensures exists j :: (0 <= j <= i && data[j].link == data[i].link &&
      FirstDescription(data, DownloadAll(data, download)[i].url) == data[j].description &&
      forall l :: 0 <= l < j ==> data[l].link != data[i].link)
  {
    var u := data[i].link;
    DownloadAllAt(data, download, i);
    assert DownloadAll(data, download)[i].url == u;
    var d := FirstDescription(data, u);
    var j :| 0 <= j < |data| && data[j].link == u && d == data[j].description &&
      forall l :: 0 <= l < j ==> data[l].link != u;
    assert j <= i;
  }

  class MetadataImageCaptioner {
    const url: string
    const promptTemplate: Template
    var imageData: seq<ImageRef>
    var captions: map<string, string>

    /** `MetadataImageCaptioner(url, prompt_template)`. */
    constructor (url: string, promptTemplate: Template)
      ensures this.url == url && this.promptTemplate == promptTemplate
      ensures imageData == [] && captions == map[]
    {
      this.url := url;
      this.promptTemplate := promptTemplate;
      imageData := [];
      captions := map[];
    }

    /** `process_images()`. An unreachable or empty page returns `{}` and
        changes nothing. Otherwise `image_data` becomes the page's upload
        images and every successful download records its caption in
        `captions`, which is returned; if the prompt template names a field
        other than `context` and `full_description`, the first successful
        download raises `KeyError` before any caption is recorded. */
    method ProcessImages(page: Fetch<Html>, download: string -> Fetch<()>, source: string -> Fetch<string>)
      returns (r: Result<map<string, string>, FormatError>)
      modifies this
      ensures var content := FetchContent(page);
        if content.None? || content.value.text == "" then
          r == Success(map[]) && captions == old(captions) && imageData == old(imageData)
        else
          imageData == UploadImages(content.value.images) &&
          var results := DownloadAll(imageData, download);
          if FitsCaption(promptTemplate) || !AnySucceeded(results) then
            r == Success(captions) && captions == RecordCaptions(old(captions), results, CaptionOf(imageData, source))
          else
            r.Failure? && captions == old(captions)
    {
      var content := FetchContent(page);
      if content.None? || content.value.text == "" {
        return Success(map[]);
      }
      var data := ExtractImages(content.value.images);
      imageData := data;
      var results := DownloadAll(data, download);
      forall i | 0 <= i < |results|
        ensures SavedUnderItsName(results[i])
      {
        SavedAt(data, download, i);
      }
      r := CaptionDownloads(data, results, source, CaptionOf(data, source));
    }

    /** The body of the loop of `process_images` for a saved image: the file
        name is the base name of the saved path, the context its stem and the
        description of the first entry with the URL, and the page text of the
        file supplies the rest. */
    method CaptionDownloaded(data: seq<ImageRef>, result: Downloaded, source: string -> Fetch<string>,
                             ghost captionOf: string -> string)
      returns (caption: Result<string, FormatError>)
      requires result.path.Some? && SavedUnderItsName(result)
      requires CaptionsFor(captionOf, data, source)
      ensures caption.Success? <==> FitsCaption(promptTemplate)
      ensures caption.Success? ==> caption.value == captionOf(result.url)
    {
      var filename := Basename(result.path.value);
      var fullInfo := FullInfo(filename, source);
      var cleanName := Stem(filename);
      var description := FirstDescription(data, result.url);
      caption := GenerateCaption(promptTemplate, cleanName + " " + description, fullInfo);
      assert caption.Success? ==> caption.value == CaptionFor(data, result.url, source);
    }

    /** One pass of the loop of `process_images`, over result `i`: a saved
        image records its caption, a failed download changes nothing, and a
        template that does not fit raises at a saved image, recording nothing. */
    method RecordResult(data: seq<ImageRef>, results: seq<Downloaded>, i: int,
                        source: string -> Fetch<string>, ghost captionOf: string -> string,
                        ghost start: map<string, string>)
      returns (failure: Option<FormatError>)
      requires 0 <= i < |results| && SavedUnderItsName(results[i])
      requires CaptionsFor(captionOf, data, source)
      requires captions == RecordCaptions(start, results[..i], captionOf)
      modifies `captions
      ensures failure.None? ==> captions == RecordCaptions(start, results[..i + 1], captionOf)
      ensures failure.None? && !FitsCaption(promptTemplate) ==> results[i].path.None?
      ensures failure.Some? ==> results[i].path.Some? && !FitsCaption(promptTemplate) && captions == old(captions)
    {
      RecordStep(start, results, captionOf, i);
      var result := results[i];
      if result.path.Some? {
        var caption := CaptionDownloaded(data, result, source, captionOf);
        if caption.Failure? {
          return Some(caption.error);
        }
        captions := captions[result.url := caption.value];
      }
      failure := None;
    }

    /** The loop of `process_images` over the download results, in order,
        where `captionOf` is the caption of a saved URL. */
    method CaptionDownloads(data: seq<ImageRef>, results: seq<Downloaded>,
                            source: string -> Fetch<string>, ghost captionOf: string -> string)
      returns (r: Result<map<string, string>, FormatError>)
      requires forall i {:trigger SavedUnderItsName(results[i])} :: 0 <= i < |results| ==> SavedUnderItsName(results[i])
      requires CaptionsFor(captionOf, data, source)
      modifies `captions
      ensures FitsCaption(promptTemplate) || !AnySucceeded(results) ==>
        r == Success(captions) && captions == RecordCaptions(old(captions), results, captionOf)
      ensures !FitsCaption(promptTemplate) && AnySucceeded(results) ==>
        r.Failure? && captions == old(captions)
    {
      ghost var fits := FitsCaption(promptTemplate);
      for i := 0 to |results|
        invariant captions == RecordCaptions(old(captions), results[..i], captionOf)
        invariant !fits ==> forall j :: 0 <= j < i ==> results[j].path.None?
      {
        var failure := RecordResult(data, results, i, source, captionOf, old(captions));
        if failure.Some? {
          FirstSaved(old(captions), results, captionOf, i);
          return Failure(failure.value);
        }
      }
      assert results[..|results|] == results;
      r := Success(captions);
    }
  }
}
