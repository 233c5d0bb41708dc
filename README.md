# Wikipedia image captioning and wind-farm cost, modelled in Dafny

The repository holds two unrelated programs.

**The image-captioning scripts (Python).** They download images from Wikipedia, look up each image's Wikimedia file page, and produce captions. metaimg.py reads a Wikipedia page and keeps only the `img` elements served from `upload.wikimedia.org`, as does the `extract_images` method of final.py. metadata.py's `get_all_images` keeps every `img` element with a `src`, whatever its host. Its `process_single_image`, like final.py's `generate_captions`, starts from a single image URL instead of a Wikipedia article. A caption is either a placeholder f-string or the answer of a language model. `final.py` also decides between two captioners with a fixed rule tree.

The model covers:
- the captioner decision tree and its resolution and keyword tests;
- the image-list extraction of every script;
- the caption and prompt builders with their defaults;
- the metadata defaulting over an abstract fetched page;
- the `os.path` helpers the scripts call;
- the loops that turn download results into the URL→caption dictionary.

**The wind-farm program (`1.cpp`).** It places a control centre at the lower median of the x and of the y coordinates. It then reports Σ premium[i] · (|x[i] − cx| + |y[i] − cy|). Because `findMedian` sorts `x` and `y` in place, the coordinates in that sum are the sorted ones. They are paired with the premiums in input order, so the reported value is in general not the farms' own cost (see Findings).

The model keeps the source's form:
- `calculateCost` and the in-place sort inside `findMedian` are methods over arrays with loop invariants.
- `main` is a method that mutates the caller's arrays, as the C++ does.

The outside world enters as values:
- **HTTP request.** Every request is a `Fetch` value: the request raised, or it returned a status and a body. The body is an abstract view of what the script reads from it: the `img` attribute maps of a page, a file page's heading and description, or an image's size. A script that fetches several URLs receives an oracle from URL to `Fetch`.
- **Language model.** The model called by metadata.py is an oracle from prompt to reply.
- **Prompt templates.** `str.format` works on templates already split into literal text and named fields. A field without an argument raises `KeyError`.

Modules:
- `Text` and `Paths`: the Python string and `os.path` operations.
- `Web`: fetch results, `Option`/`Result`, first-success lookup.
- `Formatting`: `str.format`.
- `Captioning`: the parts final.py and metaimg.py share.
- One module per script: `Llava` (img.py), `Final` (final.py), `MetaImg` (metaimg.py), `Metadata` (metadata.py), `WindFarm` (1.cpp).

Three facts about the code that shape what the model proves:
- **Short descriptions select Llava.** In final.py a description under 100 characters selects Llava by the length rule (final.py:159-161). So does an 18-character one such as "A photo of a park.", whatever the image (`Final.SelectionRule`).
- **final.py always takes the Llava path.** final.py makes up the description "Description for image not available." for every image (final.py:69). It has 36 characters. Because 36 < 100, `generate_captions` always takes the Llava path (`Final.GatheredMetadataSelectsLlava`).
- **Three different metadata readers.** img.py takes the first heading and the first paragraph of the description block. metadata.py takes the whole text of the description block. metaimg.py takes the lowered text of the whole page. Each module models its own script.

## Model

| member | source | states |
|---|---|---|
| Text.Take | final.py:62 | `s[:n]` is a prefix of `s` of length `min(n, len(s))` |
| Text.EndsWithAny | metadata.py:41 | `endswith` with a tuple holds iff the string ends with one of the suffixes |
| Text.StripLeft | metadata.py:35 | `lstrip` leaves a suffix of the input that does not start with a stripped character |
| Text.StripRight | metadata.py:35 | `rstrip` leaves a prefix of the input that does not end with a stripped character |
| Text.StripEmptyIff | final.py:154 | `strip` yields the empty string iff every character is one it removes |
| Text.StripEnds | metadata.py:35 | a non-empty stripped string starts and ends with a character not in the strip set |
| Text.Strip | final.py:154 | `strip(chars)`: `rstrip` of `lstrip`; `StripEmptyIff` and `StripEnds` characterise it |
| Text.Contains | final.py:211 | `sub in s`: `sub` occurs at some index of `s` |
| Text.Lower | final.py:208 | `lower()` keeps the length and lowers each character |
| Text.LowerHasNoUpper | final.py:208 | a lowered string holds no upper-case ASCII letter |
| Text.NoUpperInLower | final.py:208-211 | a keyword with an upper-case letter never occurs in a lowered string |
| Text.LowerKeepsContains | final.py:208-211 | if `sub` occurs in `s`, then `sub.lower()` occurs in `s.lower()` |
| Paths.LastIndexOf | metaimg.py:47 | the index of the last occurrence of a character, or -1 when it does not occur |
| Paths.Basename | metaimg.py:47 | `basename` is a suffix of the path without `/`, preceded by `/` unless it is the whole path |
| Paths.BasenameOfJoin | metaimg.py:47-48 | a file name without `/` joined under a folder has that name as its basename |
| Paths.Join | metaimg.py:48 | `os.path.join(a, b)`: `b` when absolute, otherwise `a` and `b` with one `/` between; `BasenameOfJoin` states what the scripts rely on |
| Paths.SplitExt | metaimg.py:92 | root + extension is the path; the extension is empty or one dot followed by no dot and no `/` |
| Paths.DotsOnlyMeans | metaimg.py:92 | the leading-dots test of `splitext` holds iff the range is all dots |
| Paths.SplitExtHasExtension | metaimg.py:92 | the extension is non-empty iff the final component has a dot after some non-dot character |
| Paths.Stem | metaimg.py:92 | `splitext(p)[0]` is a prefix of `p` |
| Web.FirstOk | metadata.py:88-95 | the first candidate answering 200 supplies the body; there is none iff no candidate answers 200 |
| Formatting.Format | metaimg.py:58 | `format` succeeds iff every field has an argument; otherwise it raises `KeyError` for the first missing field |
| Formatting.FormatConcat | img.py:64 | formatting a concatenation of templates concatenates the results |
| Formatting.FormatPiece | img.py:64 | a literal formats to itself, a field to its argument |
| Captioning.ExtractImages | final.py:33-43 | the loop returns exactly `UploadImages` of the page's `img` elements |
| Captioning.UploadImages | metaimg.py:30-40 | the entries `extract_images` returns; `UploadImagesExactly` characterises them |
| Captioning.UploadImagesExactly | metaimg.py:34-40 | exactly the upload-host images are kept, in document order, duplicates included; entry k comes from the k-th such element |
| Captioning.UploadImagesAppend | metaimg.py:34-40 | extraction distributes over concatenation of pages |
| Captioning.UploadLinksAreHttps | final.py:39-40 | every kept link starts with `https://upload.wikimedia.org` |
| Captioning.TemplateCaption | final.py:62 | the caption is the lead, the quoted context, then at most 50 characters from the description's start, then `...` |
| Captioning.CaptionSeesFirst50 | metaimg.py:60 | descriptions that agree on their first 50 characters give the same caption |
| Captioning.CaptionKeepsShortDescription | metaimg.py:60 | a description of at most 50 characters appears in full |
| Llava.DownloadImage | img.py:10-17 | succeeds iff the status is 200 and PIL opens the body; any other status raises with that status, and unreadable bytes (an SVG, an HTML page) raise |
| Llava.GatherImageMetadata | img.py:27-57 | always both keys; heading or "No title"; first paragraph of the description block or "No description"; the defaults on a non-200 status or an exception |
| Llava.GatherEmptyPageIsDefault | img.py:49-55 | a failed request and an empty page both give the default dictionary |
| Llava.CreatePrompt | img.py:60-64 | formatting succeeds iff the template names only `Title` and `Description` |
| Llava.CreatePromptDefaults | img.py:62-63 | a missing title or description is replaced by "No title" / "No description"; a present one is used as it is |
| Llava.PromptFromGatheredMetadata | img.py:33-64 | a prompt built from gathered metadata holds the page's title and description in order |
| Final.IsHighResolution | final.py:178-200 | true iff fetched with status 200, decoded, and at least min_width × min_height; false on any failure |
| Final.HighResolutionMonotone | final.py:189 | raising the thresholds never makes an image high-resolution |
| Final.ComplexContextIgnoresDelhi | final.py:206-211 | "Delhi" never matches a lowered description; only the seven lower-case keywords decide |
| Final.IsComplexContext | final.py:203-216 | some keyword of the list occurs in the lowered description (`any` over the keywords); `ComplexContextIgnoresDelhi` characterises it |
| Final.IntendedContextFindsEveryKeyword | final.py:206-211 | under the intended test every keyword, "Delhi" included, is found when it occurs in the description in any capitalisation |
| Final.DelhiCounterexample | final.py:206-211 | the description "Delhi" is not complex as written but complex as intended |
| Final.LowercaseKeywords | final.py:206 | the first seven keywords are already lower case |
| Final.SelectCaptioner | final.py:142-175 | the metadata captioner is chosen iff the description is non-blank, at least the threshold, the image is not high-resolution and no keyword matches |
| Final.SelectionRule | final.py:151-175 | the rule of `select_captioner` that fires first, in the source's order; the rule lemmas below characterise it |
| Final.BlankSelectsLlava | final.py:151-156 | a missing, empty or whitespace-only description selects Llava by the first rule |
| Final.NonBlankPassesFirstRule | final.py:154 | a description with a non-whitespace character does not fire the first rule |
| Final.LengthRuleBoundary | final.py:159-161 | with the default threshold, 99 characters fire the length rule and 100 do not |
| Final.ProbeOnlyForLongDescriptions | final.py:153-164 | for a blank or short description the choice does not depend on the image probe |
| Final.HighResolutionBeforeKeywords | final.py:163-171 | a high-resolution image selects Llava before the keywords are tested |
| Final.KeywordSelectsLlava | final.py:168-171 | a lower-case keyword in a long description of a low-resolution image selects Llava by the keyword rule |
| Final.GatherImageMetadata | final.py:65-70 | the title is the URL's basename (no `/`, a suffix of the URL) and the description the fixed 36-character sentence |
| Final.GatheredMetadataSelectsLlava | final.py:228-231 | the made-up metadata always selects Llava by the length rule |
| Final.GenerateCaption | final.py:59-63 | formatting the discarded prompt raises iff the template names other fields; otherwise the caption is the placeholder f-string |
| Final.TestModel | final.py:76-127 | the download fails iff the status is not 200 or PIL cannot open the body; the JPEG re-encoding fails iff the opened image has a mode JPEG cannot hold; once both succeed the request is posted iff the prompt formats, and the posted prompt is `create_prompt` of the made-up metadata |
| Final.GenerateCaptionsAlwaysUsesModel | final.py:220-238 | `generate_captions` always takes the model path; when the image opens and re-encodes as JPEG, it posts the template filled with the basename and the fixed sentence |
| Final.GenerateCaptions | final.py:220-239 | made-up metadata, captioner selection, then the model path or the template caption; `GenerateCaptionsAlwaysUsesModel` states its outcome |
| MetaImg.FetchContent | metaimg.py:21-28 | the page body iff status 200, otherwise `None` |
| MetaImg.DownloadImage | metaimg.py:42-54 | the URL is kept on every path; a path iff status 200 and a writable name; the path is `images_wiki` joined with the URL's basename, so its basename is the URL's |
| MetaImg.DownloadAll | metaimg.py:85-86 | one result per image entry, result i the download of entry i's link |
| MetaImg.DownloadAllAt | metaimg.py:85-86 | result i is the download of entry i's link (task order) |
| MetaImg.SavedAt | metaimg.py:47-51 | every saved result is named after its URL's basename |
| MetaImg.FirstDescription | metaimg.py:93-96 | the description of the first entry with the URL, or "Description not found." when none has it |
| MetaImg.FullInfo | metaimg.py:63-73 | the lowered text of the first file page that answers 200, or `""`; `FullInfoCandidateOrder` states the order |
| MetaImg.FullInfoCandidateOrder | metaimg.py:63-73 | the Commons page is read when it answers 200, the Wikipedia page only when it does not, `""` when neither does |
| MetaImg.GenerateCaption | metaimg.py:56-61 | raises iff the template names other fields; otherwise the placeholder f-string |
| MetaImg.CaptionFor | metaimg.py:89-97 | the caption of a saved URL: the file name's stem, a space and the first entry's description as context, the file-page text as description |
| MetaImg.RecordCaptions | metaimg.py:88-100 | `self.captions` after the loop: each result with a saved path, in order, sets its URL to its caption; `RecordedKeys`, `RecordedValue`, `RecordKeepsOthers` and `RecordNothing` characterise it |
| MetaImg.RecordStep | metaimg.py:88-100 | one loop pass records a saved image's caption and ignores a failed one |
| MetaImg.RecordedKeys | metaimg.py:88-100 | the keys afterwards are the earlier keys plus the URLs of successful downloads; nothing is removed |
| MetaImg.RecordNothing | metaimg.py:88-100 | with no successful download the captions are unchanged |
| MetaImg.RecordedValue | metaimg.py:100 | every successfully downloaded URL maps to its caption |
| MetaImg.RecordKeepsOthers | metaimg.py:100 | an earlier key with no successful download keeps its caption across calls |
| MetaImg.FirstSaved | metaimg.py:88-100 | before the first saved image the loop has recorded nothing |
| MetaImg.DescriptionFromFirstEntry | metaimg.py:93-96 | every download's caption uses the description of the first entry with its link, never the fallback |
| MetaImg.MetadataImageCaptioner.constructor | metaimg.py:14-19 | a new captioner has no image data and no captions |
| MetaImg.MetadataImageCaptioner.ProcessImages | metaimg.py:75-103 | an unreachable or empty page returns `{}` and changes nothing; otherwise `image_data` is the page's upload images and the captions are those recorded for the downloads, or `KeyError` at the first saved image |
| MetaImg.MetadataImageCaptioner.CaptionDownloaded | metaimg.py:89-97 | a saved image's caption is built from its stem, first description and file-page text |
| MetaImg.MetadataImageCaptioner.RecordResult | metaimg.py:89-100 | one pass of the loop: a saved image records its caption, a failed download changes nothing, and a template naming other fields raises at a saved image with nothing recorded |
| MetaImg.MetadataImageCaptioner.CaptionDownloads | metaimg.py:88-100 | the loop records exactly the captions of the successful downloads, or raises before recording any |
| Metadata.WithSrc | metadata.py:36 | every kept element has a `src` |
| Metadata.WithSrcExactly | metadata.py:36 | exactly the elements with a `src` are kept, in document order |
| Metadata.AllImagesExactly | metadata.py:34-37 | entry k is built from the k-th element with a `src`; no such element is skipped |
| Metadata.AllImages | metadata.py:30-37 | the `(link, alt)` entries of the elements with a `src`; `AllImagesExactly` characterises them |
| Metadata.WithSrcKeepsAll | metadata.py:36 | when every element has a `src`, all are kept |
| Metadata.AllImagesOfSourcedTags | metadata.py:34-37 | when every element has a `src`, there is one entry per element, in order |
| Metadata.LinkIsTrimmedSource | metadata.py:35 | the link is the `src` with its leading and trailing runs of `/` removed |
| Metadata.ImageLinkIff | metadata.py:39-41 | an image link iff it ends with `.jpg`, `.jpeg`, `.png` or `.gif` |
| Metadata.IsImageLink | metadata.py:39-41 | `link.endswith(('.jpg', '.jpeg', '.png', '.gif'))`; `ImageLinkIff` characterises it |
| Metadata.NotImageByLastChar | metadata.py:41 | a link not ending in `g` or `f` is no image link |
| Metadata.UpperCaseExtensionsAreNotImages | metadata.py:41 | upper-case extensions are not recognised (case-sensitive test) |
| Metadata.CleanFilename | metadata.py:58-60 | the result is a prefix of the file name |
| Metadata.CleanFilenameDropsExtension | metadata.py:60 | exactly an appended image extension is removed |
| Metadata.ImageExtensionShape | metadata.py:41 | every image extension is a dot followed by characters that are neither `.` nor `/` |
| Metadata.CleanFilenameKeepsHiddenName | metadata.py:60 | a leading dot does not start an extension |
| Metadata.SavedInFolder | metadata.py:48-49 | the saved path lies in `images_wiki/` and keeps the file name |
| Metadata.DownloadImage | metadata.py:43-55 | `(path, url)` iff status 200 and a writable name, with the path exactly `os.path.join("images_wiki", basename of the URL)`; `(None, None)` on any failure |
| Metadata.PromptFillsBothFields | metadata.py:73-76 | the prompt template formats without error to the title and metadata in place |
| Metadata.GenerateCaption | metadata.py:71-84 | the reply's `response`, "No response generated." without it, "Caption generation failed." when the call raises |
| Metadata.Candidates | metadata.py:88-90 | the file pages tried are the two hosts followed by the file name, commons first |
| Metadata.MetadataCandidateOrder | metadata.py:86-98 | commons wins when it answers 200, Wikipedia is read only otherwise, the defaults when neither answers |
| Metadata.PageMetadata | metadata.py:93-94 | the heading text or "Unknown Title", the description text or "No metadata found." |
| Metadata.MetadataFor | metadata.py:86-98 | the pair read from the first candidate answering 200, or the defaults; `MetadataCandidateOrder` states the order |
| Metadata.EmptyPageGivesDefaults | metadata.py:93-94 | a page without heading and description gives "Unknown Title" / "No metadata found." |
| Metadata.SingleCaption | metadata.py:109-112 | the caption `process_single_image` stores under the image URL: the model's answer for the metadata of the first file page that answers, the pages being named from the URL's basename; `UnreachableMetadataPrompt` states the no-page case |
| Metadata.UnreachableMetadataPrompt | metadata.py:98 | with no file page reachable the model is asked about the default title and metadata |
| Metadata.MetadataImageCaptioner.constructor | metadata.py:66-69 | a new captioner has no captions |
| Metadata.MetadataImageCaptioner.GatherImageMetadata | metadata.py:86-98 | the loop with early return yields the metadata of the first candidate that answers 200, or the defaults |
| Metadata.MetadataImageCaptioner.ProcessSingleImage | metadata.py:100-115 | a failed download returns `{}` and changes nothing; otherwise exactly the image's URL is set to its caption and the dictionary is returned |
| WindFarm.CalculateCost | 1.cpp:9-17 | the loop returns the sum of premium[i] × (\|x[i]−cx\| + \|y[i]−cy\|) over the farms |
| WindFarm.CostNonNegative | 1.cpp:10-16 | non-negative premiums give a non-negative cost; all farms at the centre give 0 |
| WindFarm.CostOf | 1.cpp:9-17 | the premium-weighted Manhattan distance of the first n farms, summed in index order |
| WindFarm.Cost | 1.cpp:9-17 | the cost over all `x.size()` farms, which `CalculateCost` returns |
| WindFarm.Count | 1.cpp:22-26 | the count of elements on one side of a value is at most the length |
| WindFarm.CountPermutation | 1.cpp:22 | sorting keeps how many elements lie on each side of a value |
| WindFarm.SortedMedianBounds | 1.cpp:22-26 | in a sorted sequence, element (n−1)/2 has at least ⌈n/2⌉ elements ≤ it and at least ⌊n/2⌋+1 elements ≥ it |
| WindFarm.Sort | 1.cpp:22 | the array ends sorted and a permutation of its input |
| WindFarm.Swap | 1.cpp:22 | two elements are exchanged, nothing else changes |
| WindFarm.FindMedian | 1.cpp:20-27 | for n ≥ 1: sorts in place, returns v[n/2−1] for even n and v[n/2] for odd n, with the median bounds on the input |
| WindFarm.ConnectionCost | 1.cpp:40-45 | x and y end sorted, the centre is their lower medians (`x[(n-1)/2]`, `y[(n-1)/2]` of the sorted arrays, with the count bounds over the input), and the cost pairs sorted x, sorted y and unsorted premium |
| WindFarm.PairingCounterexample | 1.cpp:41-45 | two farms where the reported cost is 50 and the farms' own cost to the same centre is 10 |
| WindFarm.ConnectionCostIntended | 1.cpp:40-45 | medians on copies; the cost is that of the farms as given |

## Left out

- HTTP and concurrency. The `requests`/`aiohttp` calls and `asyncio.gather` become `Fetch` values or oracles. The results of `gather` come back in task order, so a plain sequence models them.
- BeautifulSoup. A page is the sequence of its `img` attribute maps, or a record of the heading and description block. HTML parsing and `get_text` whitespace handling are not modelled.
- PIL decoding, JPEG re-encoding and base64 in `encode_image`. An image body is reduced to whether `Image.open` reads it and whether the opened image can be saved as JPEG (`Llava.ImageBytes`); the base64 text is not modelled. The resolution probe is an oracle returning the size or `None`.
- The model endpoints. `ollama.generate` is an oracle from prompt to reply. The JSON POST in `test_model_with_image_url_and_text` is modelled up to the request it sends. The response printing is not modelled.
- File writes, `os.makedirs`, `shutil.rmtree`, and all `print` and logging. Whether `open` succeeds is reduced to the file name (`Paths.Writable`).
- `fetch_content` in metadata.py. No modelled operation of that file calls it.
- img.py's `test_model_with_image_url_and_text`. It repeats final.py's version (modelled as `Final.TestModel`), with img.py's page metadata.
- MetaImg.DownloadAll: each URL's outcome comes from a function of the URL, so two entries with the same link always share one outcome. metaimg.py:85-86 runs one task per entry, whose outcomes could differ.
- pttx.py. It is a text-to-speech script without logic.
- General `str.format`. Brace escapes, positional fields and format specs are left out; templates are given pre-split.
- Text.Lower: only ASCII letters are lowered; Python's full Unicode case mapping is not modelled.
- Text.Strip: `strip()` uses Python's `isspace` set; no other Unicode data is modelled.
- Final.IsHighResolution: the size probe is an oracle; decoding the bytes is not modelled.
- MetaImg.MetadataImageCaptioner.ProcessImages: returns the captions by value, so later aliasing between the returned dictionary and `self.captions` is not captured.
- Metadata.MetadataImageCaptioner.ProcessSingleImage: returns the captions by value, so later aliasing between the returned dictionary and `self.captions` is not captured.
- WindFarm.CalculateCost: coordinates and costs are unbounded integers. The 32-bit overflow of `int dist` and of `abs(x[i] - cx)`, and the `long long` range of the total, are not modelled.
- WindFarm.Sort: `std::sort` is modelled by an insertion sort with the same postcondition (sorted permutation); its algorithm and complexity are not.
- The optimality claimed in the comment at 1.cpp:44 is not proved. With unequal premiums it does not hold in general, and after the independent sorts the reported cost is not even the farms' own cost (see Findings).
- 1.cpp input and output (`cin`/`cout`). `main` is modelled from the filled vectors on, for n ≥ 1.

## Findings

| source | as written | input that shows it | evidently intended | confidence | as-written member | corrected member |
|---|---|---|---|---|---|---|
| final.py:206-211 | the keyword "Delhi" is searched for in the lowered description, so it can never match | description "Delhi": not complex | keywords compared case-insensitively, so "Delhi" matches | high; not executed | Final.DelhiCounterexample | Final.IntendedContextFindsEveryKeyword |
| 1.cpp:41-45 | `findMedian` sorts `x` and `y` in place, so `calculateCost` pairs sorted coordinates with premiums in input order | farms (10,0) premium 1 and (0,0) premium 5: centre (0,0), reported cost 50, the farms' own cost 10 | medians computed on copies, so the cost is that of the farms as given | high; not executed | WindFarm.PairingCounterexample | WindFarm.ConnectionCostIntended |
