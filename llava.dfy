/** `LlavaImageCaptioner` (img.py; final.py repeats `download_image` and
    `create_prompt` verbatim): the status check on the image download, the
    metadata read from a Wikimedia file page, and the prompt built from it. */
module Llava {
  import opened Web
  import opened Formatting

  /** An image PIL has opened; `save(format="JPEG")` raises for a mode JPEG
      cannot hold (RGBA, or the palette mode of many PNG and GIF files). */
  datatype PilImage = PilImage(jpegEncodable: bool)

  /** The body of an image response as PIL sees it: `Image.open` raises on
      bytes it cannot read (an SVG, an HTML error page). */
  datatype ImageBytes = Unreadable | Readable(image: PilImage)

  /** Why `download_image` raised. */
  datatype DownloadError = RequestRaised | BadStatus(status: nat) | CannotOpen

  /** `download_image(url)`: on status 200 the image PIL opens from the body,
      raising when it cannot; any other status raises "Failed to download
      image. Status code: ...", and a failing request raises its own
      exception. */
  function DownloadImage(response: Fetch<ImageBytes>): (r: Result<PilImage, DownloadError>)
    ensures r.Success? <==> IsOk(response) && response.body.Readable?
    ensures r.Success? ==> r.value == response.body.image
    ensures response.Response? && response.status != 200 ==> r == Failure(BadStatus(response.status))
    ensures IsOk(response) && response.body.Unreadable? ==> r == Failure(CannotOpen)
  {
    match response
    case Failed => Failure(RequestRaised)
    case Response(status, body) =>
      if status != 200 then Failure(BadStatus(status))
      else match body
        case Unreadable => Failure(CannotOpen)
        case Readable(image) => Success(image)
  }

  /** The image downloads and `encode_image` re-encodes it as JPEG without
      raising; the base64 text itself is not modelled. */
  predicate Encodable(response: Fetch<ImageBytes>) {
    DownloadImage(response).Success? && DownloadImage(response).value.jpegEncodable
  }

  /** What `gather_image_metadata` reads from a file page: the text of the
      `h1#firstHeading` element, and the `div.description` element with the
      text of its first `p`, each when present. */
  datatype DescriptionDiv = DescriptionDiv(paragraph: Option<string>)
  datatype FilePage = FilePage(heading: Option<string>, description: Option<DescriptionDiv>)

  const NoTitle := "No title"
  const NoDescription := "No description"

  /** The dictionary returned when the page cannot be fetched or read. */
  const DefaultMetadata: map<string, string> := map["title" := NoTitle, "description" := NoDescription]

  /** `gather_image_metadata(image_url)`: on status 200 the heading text (or
      "No title") and the first paragraph of the description block (or
      "No description" when the block or its paragraph is missing); on any
      other status or a raised request, the default dictionary. */
  function GatherImageMetadata(page: Fetch<FilePage>): (m: map<string, string>)
    ensures m.Keys == {"title", "description"}
    ensures !IsOk(page) ==> m == DefaultMetadata
    ensures IsOk(page) ==> m["title"] == page.body.heading.GetOr(NoTitle)
    ensures IsOk(page) && page.body.description.Some? && page.body.description.value.paragraph.Some? ==>
      m["description"] == page.body.description.value.paragraph.value
    ensures IsOk(page) && (page.body.description.None? || page.body.description.value.paragraph.None?) ==>
      m["description"] == NoDescription
  {
    match page
    case Failed => DefaultMetadata
    case Response(status, body) =>
      if status == 200 then
        var title := match body.heading
          case Some(text) => text
          case None => NoTitle;
        var description := match body.description
          case Some(div) => (match div.paragraph
            case Some(text) => text
            case None => NoDescription)
          case None => NoDescription;
        map["title" := title, "description" := description]
      else
        DefaultMetadata
  }

  /** Every failure path yields the same dictionary; on the success path a page
      with neither heading nor description block yields it too. */
  lemma GatherEmptyPageIsDefault(status: nat)
    ensures GatherImageMetadata(Response(status, FilePage(None, None))) == DefaultMetadata
    ensures GatherImageMetadata(Failed) == DefaultMetadata
  {
  }

  /** `create_prompt(metadata, template)`: the template with `{Title}` and
      `{Description}` replaced by the metadata's title and description, or by
      "No title" / "No description" when the key is missing. */
  function CreatePrompt(metadata: map<string, string>, template: Template): (r: Result<string, FormatError>)
    ensures r.Success? <==> FieldsIn(template, {"Title", "Description"})
  {
    var title := Get(metadata, "title", NoTitle);
    var description := Get(metadata, "description", NoDescription);
    var args := map["Title" := title, "Description" := description];
    assert args.Keys == {"Title", "Description"};
    Format(template, args)
  }

  /** With the key missing, the default takes the field's place. */
  lemma CreatePromptDefaults(metadata: map<string, string>)
    ensures "title" !in metadata ==> CreatePrompt(metadata, [Field("Title")]) == Success(NoTitle)
    ensures "description" !in metadata ==>
      CreatePrompt(metadata, [Field("Description")]) == Success(NoDescription)
    ensures "title" in metadata ==> CreatePrompt(metadata, [Field("Title")]) == Success(metadata["title"])
    ensures "description" in metadata ==>
      CreatePrompt(metadata, [Field("Description")]) == Success(metadata["description"])
  {
    var args := map["Title" := Get(metadata, "title", NoTitle),
                    "Description" := Get(metadata, "description", NoDescription)];
    FormatPiece(Field("Title"), args);
    FormatPiece(Field("Description"), args);
  }

  /** A prompt for metadata from `gather_image_metadata` always has both fields
      filled from it, so a template such as "Title: {Title}\nDescription: {Description}"
      formats to the page's title and description. */
  lemma PromptFromGatheredMetadata(page: Fetch<FilePage>, before: string, between: string)
    ensures CreatePrompt(GatherImageMetadata(page), [Literal(before), Field("Title"), Literal(between), Field("Description")])
      == Success(before + GatherImageMetadata(page)["title"] + between + GatherImageMetadata(page)["description"])
  {
    var m := GatherImageMetadata(page);
    var args := map["Title" := m["title"], "Description" := m["description"]];
    var t := [Literal(before), Field("Title"), Literal(between), Field("Description")];
    assert t == [Literal(before)] + [Field("Title")] + [Literal(between)] + [Field("Description")];
    FormatPiece(Literal(before), args);
    FormatPiece(Field("Title"), args);
    FormatPiece(Literal(between), args);
    FormatPiece(Field("Description"), args);
    FormatConcat([Literal(before)], [Field("Title")], args);
    FormatConcat([Literal(before)] + [Field("Title")], [Literal(between)], args);
    FormatConcat([Literal(before)] + [Field("Title")] + [Literal(between)], [Field("Description")], args);
  }
}
