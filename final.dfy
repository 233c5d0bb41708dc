/** final.py: the captioner-selection decision tree with its resolution and
    keyword tests, the metadata the script makes up for an image URL, and the
    dispatch in `generate_captions`. */
module Final {
  import opened Text
  import opened Web
  import opened Paths
  import opened Formatting
  import Captioning
  import Llava

  /** The class `select_captioner` returns. */
  datatype Captioner = LlavaCaptioner | MetadataCaptioner

  /** The rule of `select_captioner` that fired (each prints its own message). */
  datatype Rule = BlankDescription | ShortDescription | HighResolution | ComplexContext | NoRule

  const DefaultThresholdLength := 100
  const MinWidth := 800
  const MinHeight := 600

  /** `img.size` of a decoded image. */
  datatype Dims = Dims(width: int, height: int)

  /** The GET `is_high_resolution` makes; the body is `None` when PIL cannot
      open the bytes (which raises). */
  type Probe = Fetch<Option<Dims>>

  /** `is_high_resolution(url, min_width, min_height)`: the image was fetched
      with status 200, decoded, and is at least as wide and as high as the
      thresholds. A failed request, another status or an undecodable body
      all give false. */
  function IsHighResolution(probe: Probe, minWidth: int, minHeight: int): (r: bool)
    ensures r ==> IsOk(probe) && probe.body.Some?
    ensures IsOk(probe) && probe.body.Some? ==>
      (r <==> probe.body.value.width >= minWidth && probe.body.value.height >= minHeight)
  {
    match probe
    case Failed => false
    case Response(status, dims) =>
      if status == 200 then
        match dims
        case Some(d) => d.width >= minWidth && d.height >= minHeight
        case None => false
      else false
  }

  /** Raising a threshold never turns a low-resolution image into a high one. */
  lemma HighResolutionMonotone(probe: Probe, w: int, h: int, w': int, h': int)
    requires w <= w' && h <= h'
    ensures IsHighResolution(probe, w', h') ==> IsHighResolution(probe, w, h)
  {
  }

  const ComplexKeywords := ["diagram", "chart", "scientific", "technical", "graph", "medical", "research", "Delhi"]

  /** `is_complex_context(metadata)`: some keyword occurs in the lowered description. */
  predicate IsComplexContext(metadata: map<string, string>) {
    var description := Lower(Get(metadata, "description", ""));
    exists i :: 0 <= i < |ComplexKeywords| && Contains(description, ComplexKeywords[i])
  }

  /** The keyword "Delhi" is compared with a lowered description, so it never
      matches: the test is decided by the seven lower-case keywords alone. */
  lemma ComplexContextIgnoresDelhi(metadata: map<string, string>)
    ensures !Contains(Lower(Get(metadata, "description", "")), "Delhi")
    ensures IsComplexContext(metadata) <==>
      exists i :: 0 <= i < |ComplexKeywords| - 1 && Contains(Lower(Get(metadata, "description", "")), ComplexKeywords[i])
  {
    NoUpperInLower(Get(metadata, "description", ""), "Delhi", 0);
    assert ComplexKeywords[|ComplexKeywords| - 1] == "Delhi";
  }

  /** The keyword test as evidently intended: keywords are lowered too, so
      "Delhi" matches a description mentioning Delhi in any case. */
  predicate IsComplexContextIntended(metadata: map<string, string>) {
    var description := Lower(Get(metadata, "description", ""));
    exists i :: 0 <= i < |ComplexKeywords| && Contains(description, Lower(ComplexKeywords[i]))
  }

  /** Under the intended test every keyword, "Delhi" included, is found
      wherever it occurs in the description in any capitalisation `s`. */
  lemma IntendedContextFindsEveryKeyword(metadata: map<string, string>, i: int, s: string)
    requires 0 <= i < |ComplexKeywords|
    requires Lower(s) == Lower(ComplexKeywords[i])
    requires Contains(Get(metadata, "description", ""), s)
    ensures IsComplexContextIntended(metadata)
  {
    LowerKeepsContains(Get(metadata, "description", ""), s);
  }

  /** A concrete description on which the two tests disagree. */
  lemma DelhiCounterexample()
    ensures !IsComplexContext(map["description" := "Delhi"])
    ensures IsComplexContextIntended(map["description" := "Delhi"])
  {
    var m := map["description" := "Delhi"];
    ComplexContextIgnoresDelhi(m);
    var lowered := Lower("Delhi");
    assert lowered == "delhi";
    forall i | 0 <= i < |ComplexKeywords| - 1 ensures !Contains(lowered, ComplexKeywords[i]) {
      var k := ComplexKeywords[i];
      if |k| <= |lowered| {
        assert k == "chart" || k == "graph";
        assert k[0] != lowered[0];
      }
    }
    assert Lower(ComplexKeywords[7]) == "delhi";
    assert OccursAt(lowered, Lower(ComplexKeywords[7]), 0);
  }

  /** All keywords but "Delhi" are already lower case. */
  lemma LowercaseKeywords(i: int)
    requires 0 <= i < |ComplexKeywords| - 1
    ensures Lower(ComplexKeywords[i]) == ComplexKeywords[i]
  {
    var k := ComplexKeywords[i];
    forall j | 0 <= j < |k| ensures LowerChar(k[j]) == k[j] {
      assert 'a' <= k[j] <= 'z';
    }
  }

  /** The description is missing, empty or only whitespace (`not d or d.strip() == ""`). */
  predicate IsBlank(description: string) {
    description == "" || Strip(description, Whitespace) == ""
  }

  /** `select_captioner`'s rules in their fixed order; the first that holds wins. */
  function SelectionRule(metadata: map<string, string>, imageUrl: string, probe: string -> Probe,
                         thresholdLength: int): Rule
  {
    var description := Get(metadata, "description", "");
    if IsBlank(description) then BlankDescription
    else if |description| < thresholdLength then ShortDescription
    else if IsHighResolution(probe(imageUrl), MinWidth, MinHeight) then HighResolution
    else if IsComplexContext(metadata) then ComplexContext
    else NoRule
  }

  /** `select_captioner(metadata, image_url, threshold_length)`: the metadata
      captioner only when no rule fires. The image probe is an oracle on the URL. */
  function SelectCaptioner(metadata: map<string, string>, imageUrl: string, probe: string -> Probe,
                           thresholdLength: int): (c: Captioner)
    ensures c == MetadataCaptioner <==>
      var d := Get(metadata, "description", "");
      !IsBlank(d) && |d| >= thresholdLength &&
      !IsHighResolution(probe(imageUrl), MinWidth, MinHeight) && !IsComplexContext(metadata)
  {
    if SelectionRule(metadata, imageUrl, probe, thresholdLength) == NoRule then MetadataCaptioner
    else LlavaCaptioner
  }

  /** A description that is missing or made only of whitespace selects Llava
      by the first rule, whatever the image and the keywords. */
  lemma BlankSelectsLlava(metadata: map<string, string>, imageUrl: string, probe: string -> Probe,
                          thresholdLength: int)
    requires forall i :: 0 <= i < |Get(metadata, "description", "")| ==>
      Get(metadata, "description", "")[i] in Whitespace
    ensures SelectionRule(metadata, imageUrl, probe, thresholdLength) == BlankDescription
    ensures SelectCaptioner(metadata, imageUrl, probe, thresholdLength) == LlavaCaptioner
  {
    StripEmptyIff(Get(metadata, "description", ""), Whitespace);
  }

  /** A description with a non-whitespace character is not blank, so the
      first rule does not fire for it. */
  lemma NonBlankPassesFirstRule(metadata: map<string, string>, imageUrl: string, probe: string -> Probe,
                                thresholdLength: int, k: int)
    requires 0 <= k < |Get(metadata, "description", "")|
    requires Get(metadata, "description", "")[k] !in Whitespace
    ensures SelectionRule(metadata, imageUrl, probe, thresholdLength) != BlankDescription
  {
    StripEmptyIff(Get(metadata, "description", ""), Whitespace);
  }

  /** The length rule is a strict comparison: with the default threshold a
      non-blank 99-character description selects Llava by it, while a
      100-character one passes on to the resolution and keyword rules. */
  lemma LengthRuleBoundary(metadata: map<string, string>, imageUrl: string, probe: string -> Probe)
    requires !IsBlank(Get(metadata, "description", ""))
    ensures |Get(metadata, "description", "")| == 99 ==>
      SelectionRule(metadata, imageUrl, probe, DefaultThresholdLength) == ShortDescription
    ensures |Get(metadata, "description", "")| == 100 ==>
      SelectionRule(metadata, imageUrl, probe, DefaultThresholdLength) in {HighResolution, ComplexContext, NoRule}
  {
  }

  /** The image is probed only for a non-blank description at least as long as
      the threshold: otherwise the choice is the same for every probe. */
  lemma ProbeOnlyForLongDescriptions(metadata: map<string, string>, imageUrl: string,
                                     p1: string -> Probe, p2: string -> Probe, thresholdLength: int)
    requires IsBlank(Get(metadata, "description", "")) ||
      |Get(metadata, "description", "")| < thresholdLength
    ensures SelectionRule(metadata, imageUrl, p1, thresholdLength) ==
      SelectionRule(metadata, imageUrl, p2, thresholdLength)
  {
  }

  /** Past the first two rules a high-resolution image selects Llava before
      the keywords are looked at. */
  lemma HighResolutionBeforeKeywords(metadata: map<string, string>, imageUrl: string, probe: string -> Probe,
                                     thresholdLength: int)
    requires !IsBlank(Get(metadata, "description", ""))
    requires |Get(metadata, "description", "")| >= thresholdLength
    requires IsHighResolution(probe(imageUrl), MinWidth, MinHeight)
    ensures SelectionRule(metadata, imageUrl, probe, thresholdLength) == HighResolution
  {
  }

  /** A lower-case keyword anywhere in a long, non-blank description of a
      low-resolution image selects Llava by the keyword rule. */
  lemma KeywordSelectsLlava(metadata: map<string, string>, imageUrl: string, probe: string -> Probe,
                            thresholdLength: int, i: int)
    requires 0 <= i < |ComplexKeywords| - 1
    requires !IsBlank(Get(metadata, "description", ""))
    requires |Get(metadata, "description", "")| >= thresholdLength
    requires !IsHighResolution(probe(imageUrl), MinWidth, MinHeight)
    requires Contains(Get(metadata, "description", ""), ComplexKeywords[i])
    ensures SelectionRule(metadata, imageUrl, probe, thresholdLength) == ComplexContext
  {
    LowercaseKeywords(i);
    LowerKeepsContains(Get(metadata, "description", ""), ComplexKeywords[i]);
  }

  const FixedDescription := "Description for image not available."

  /** `MetadataImageCaptioner.gather_image_metadata()` in final.py: no page is
      read; the title is the URL's basename and the description a fixed
      36-character sentence. */
  function GatherImageMetadata(imageUrl: string): (m: map<string, string>)
    ensures m.Keys == {"title", "description"}
    ensures m["title"] == Basename(imageUrl) && m["description"] == FixedDescription
    ensures '/' !in m["title"] && EndsWith(imageUrl, m["title"])
    ensures |m["description"]| == 36
  {
    map["title" := Basename(imageUrl), "description" := FixedDescription]
  }

  /** Since the made-up description has 36 characters, the selector always
      answers Llava by the length rule and never probes the image. */
  lemma GatheredMetadataSelectsLlava(imageUrl: string, probe: string -> Probe)
    ensures SelectionRule(GatherImageMetadata(imageUrl), imageUrl, probe, DefaultThresholdLength) == ShortDescription
    ensures SelectCaptioner(GatherImageMetadata(imageUrl), imageUrl, probe, DefaultThresholdLength) == LlavaCaptioner
  {
    NonBlankPassesFirstRule(GatherImageMetadata(imageUrl), imageUrl, probe, DefaultThresholdLength, 0);
  }

  /** `MetadataImageCaptioner.generate_caption(context, full_description)` in
      final.py: the prompt is formatted with `Title` and `Description` and
      then discarded (so a template naming another field raises `KeyError`);
      the caption is the placeholder f-string. */
  function GenerateCaption(template: Template, context: string, fullDescription: string): (r: Result<string, FormatError>)
    ensures r.Success? <==> FieldsIn(template, {"Title", "Description"})
    ensures r.Success? ==> r.value == Captioning.TemplateCaption(context, fullDescription)
  {
    var args := map["Title" := context, "Description" := fullDescription];
    assert args.Keys == {"Title", "Description"};
    match Format(template, args)
    case Failure(e) => Failure(e)
    case Success(_) => Success(Captioning.TemplateCaption(context, fullDescription))
  }

  /** How `test_model_with_image_url_and_text` ends: it posts a request to the
      model endpoint, or it caught an exception raised before the post. */
  datatype ModelRun =
    | Posted(endpoint: string, model: string, prompt: string)
    | DownloadFailed(downloadError: Llava.DownloadError)
    | EncodeFailed
    | PromptFailed(formatError: FormatError)

  /** `LlavaImageCaptioner.test_model_with_image_url_and_text` in final.py up to
      the POST: download and open the image (raises on a non-200 status or
      unreadable bytes), take the made-up metadata for the URL, re-encode the
      image as JPEG (raises for RGBA and palette images), build the prompt,
      post it. */
  function TestModel(imageUrl: string, template: Template, modelName: string, modelUrl: string,
                     image: Fetch<Llava.ImageBytes>): (run: ModelRun)
    ensures run.DownloadFailed? <==> !(IsOk(image) && image.body.Readable?)
    ensures run.EncodeFailed? <==> IsOk(image) && image.body.Readable? && !image.body.image.jpegEncodable
    ensures Llava.Encodable(image) ==>
      (run.Posted? <==> Llava.CreatePrompt(GatherImageMetadata(imageUrl), template).Success?)
    ensures run.Posted? ==>
      Llava.Encodable(image) && run.endpoint == modelUrl && run.model == modelName &&
      Llava.CreatePrompt(GatherImageMetadata(imageUrl), template) == Success(run.prompt)
  {
    match Llava.DownloadImage(image)
    case Failure(e) => DownloadFailed(e)
    case Success(pil) =>
      var metadata := GatherImageMetadata(imageUrl);
      if !pil.jpegEncodable then EncodeFailed
      else match Llava.CreatePrompt(metadata, template)
        case Failure(e) => PromptFailed(e)
        case Success(prompt) => Posted(modelUrl, modelName, prompt)
  }

  /** What `generate_captions` does: run the model path or build a template caption. */
  datatype Dispatch = RanModel(run: ModelRun) | CaptionedLocally(caption: Result<string, FormatError>)

  /** `generate_captions(image_url, page_url, prompt_template, model_name, model_url)`. */
  function GenerateCaptions(imageUrl: string, template: Template, modelName: string, modelUrl: string,
                            probe: string -> Probe, image: Fetch<Llava.ImageBytes>): Dispatch
  {
    var metadata := GatherImageMetadata(imageUrl);
    var captioner := SelectCaptioner(metadata, imageUrl, probe, DefaultThresholdLength);
    if captioner == LlavaCaptioner then
      RanModel(TestModel(imageUrl, template, modelName, modelUrl, image))
    else
      CaptionedLocally(GenerateCaption(template, metadata["title"], metadata["description"]))
  }

  /** `generate_captions` always takes the model path; when the image opens
      and re-encodes as JPEG and the template names only `Title` and
      `Description`, the posted prompt is that template filled with the URL's
      basename and the fixed sentence. */
  lemma GenerateCaptionsAlwaysUsesModel(imageUrl: string, template: Template, modelName: string,
                                        modelUrl: string, probe: string -> Probe, image: Fetch<Llava.ImageBytes>)
    ensures GenerateCaptions(imageUrl, template, modelName, modelUrl, probe, image).RanModel?
    ensures Llava.Encodable(image) && FieldsIn(template, {"Title", "Description"}) ==>
      GenerateCaptions(imageUrl, template, modelName, modelUrl, probe, image).run ==
        Posted(modelUrl, modelName,
               Format(template, map["Title" := Basename(imageUrl), "Description" := FixedDescription]).value)
  {
    GatheredMetadataSelectsLlava(imageUrl, probe);
    var m := GatherImageMetadata(imageUrl);
    assert Get(m, "title", Llava.NoTitle) == Basename(imageUrl);
    assert Get(m, "description", Llava.NoDescription) == FixedDescription;
  }
}
