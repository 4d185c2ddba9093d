# Image-generation service: decision logic

`app.py` is a Flask service that turns prompts and reference images into generated images.
It calls OpenAI, Ideogram and Gemini, and stores the results in Google Cloud Storage. Around
those calls sits a small amount of sequential decision logic, and that logic is what this
project models and proves things about:

- **URL validation** (`validate_image_url`). A URL is accepted when it has a scheme and a
  network location, and either its lower-cased path ends in an image extension or its
  network location contains a trusted domain name. Module `UrlValidator`.
- **The download cascade** (`download_image`). Four request strategies are tried in order.
  An attempt passes when:
  - the status is not an HTTP error;
  - the payload has at least 1024 bytes;
  - the payload decodes.

  The first passing attempt wins. Its image is brought to RGB, shrunk to fit 2048 x 2048 and
  returned as a JPEG data URL. Otherwise the error of the last attempt is reported. Module
  `Fetcher`; `respond` is the network-and-decoder oracle.
- **Data URLs.** The downloader and the Gemini adapter wrap a payload behind a
  `data:image/...;base64,` header. `generate_image` and `upload_cropped_image` recover it
  with `split(',')[1]`. Module `DataUrl`, on top of a model of Python's `str.split` in
  `Strings`.
- **Storage.** Covers the scratch file name `generated_<timestamp>_<uuid8>.png`, the object
  name `history_redesign/<basename>`, the batch loop that keeps a URL for every payload whose
  decode and upload both succeed, and `upload_cropped_image`. Module `Storage`; decoding and
  uploading are oracles.
- **Provider shaping.** Covers:
  - the OpenAI payload filter;
  - the payload handed to the edit call;
  - the Ideogram multipart form and its reference files;
  - the Ideogram and Gemini result filters;
  - the Gemini reference loop as written.

  Module `Providers`. Every list comprehension with an `if` is one filter-map, `Lists.Keep`.
- **Pipeline.** Lemmas across modules: a downloaded image reaches the edit call intact, the
  end-to-end count of OpenAI URLs, and a Gemini data URL passed to the cropped-image route is
  stripped back to its payload.

The loops of the source are methods with loop invariants, with one exception. The Gemini
output loop only appends one data URL per usable image, so it is the filter-map
`Providers.GeminiDataUrls`, like the list comprehensions. Four of the methods are proved
against a specification function:
- `Fetcher.DownloadImage` against `Fetcher.Download`;
- `Storage.MaterializeBatch` against `Storage.Materialized`;
- `Providers.PrepareReferenceFiles` against `Providers.ReferencesFrom`;
- `Providers.BuildIdeogramForm` against `Providers.IdeogramForm`.

The properties are then proved about those functions. The fifth method,
`Providers.GeminiReferences`, states its result directly: no reference, and every one of the
first three URLs failed. Timestamps, uuids, HTTP replies, image
decoding, base64 encoding and uploads are all parameters.

## Model

| member | source | states |
|---|---|---|
| UrlValidator.ValidateParsed | app.py:483-495 | acceptance requires a non-empty scheme and a non-empty network location |
| UrlValidator.ValidateImageUrl | app.py:483-495 | a URL whose parsed scheme or network location is empty is rejected, whatever its path |
| UrlValidator.TrustedDomainsSpelledOut | app.py:492-493 | the host test is exactly substring containment of i.ibb.co, imgur.com or cdn.discordapp.com; i.imgur.com adds nothing |
| UrlValidator.ParseAssembled | app.py:485 | on scheme://netloc path?query#fragment, the parser yields that scheme, netloc and path |
| UrlValidator.AssembledExample | app.py:485 | a URL spelled out from well-formed parts parses to those parts and is judged on them alone |
| UrlValidator.Parse | app.py:485 | the network location holds no '/', '?' or '#', and the path holds no '?' or '#' |
| UrlValidator.SplitScheme | app.py:485 | a scheme found is the lower-cased text before the first ':', which holds no ':', and the rest follows that ':'; with no scheme the URL is left whole |
| UrlValidator.SplitNetloc | app.py:485 | after "//" the network location runs up to the first '/', '?' or '#', and nothing is lost; without "//" there is no network location |
| UrlValidator.NoExtensionEndingIn | app.py:488-490 | a path whose lower-cased last character is not g, f or p has no listed extension |
| UrlValidator.EndsInPng | app.py:489-490 | a path ending in ".PNG" has a listed extension, because the test lower-cases the path first |
| UrlValidator.AllowListedHostAccepted | app.py:492-494 | a URL whose host contains a trusted name is accepted, whatever its path |
| UrlValidator.UnlistedHostNeedsExtension | app.py:488-494 | for any other host, acceptance holds exactly when the path has a listed extension |
| UrlValidator.TrustedHostWithoutExtensionAccepted | app.py:488-494 | the URL string https://i.imgur.com/example parses to its parts and is accepted although its path has no extension |
| UrlValidator.LookalikeHostAccepted | app.py:492-494 | the URL string https://imgur.com.attacker.example/x is accepted, because the host only needs to contain "imgur.com" |
| UrlValidator.UntrustedHostWithoutExtensionRejected | app.py:488-494 | the URL string https://random.com/file parses to its parts and is rejected |
| UrlValidator.QueryIsNotPath | app.py:485-490 | on a URL string whose ".png" sits only in the query, the path has no extension and an untrusted host is rejected |
| UrlValidator.UpperCaseExtensionAccepted | app.py:489-490 | the extension test ignores case: a URL string with path /A.PNG is accepted |
| UrlValidator.NoAuthorityRejected | app.py:485-487 | a URL without "//" after its scheme has no network location and is rejected |
| UrlValidator.FirstOf | app.py:485 | the index of the first delimiter; no delimiter occurs before it |
| Fetcher.DownloadImage | app.py:166-254 | the loop returns what `Download` specifies, and it attempts exactly the strategies up to and including the first passing one, or all of them |
| Fetcher.TimeoutsNonDecreasing | app.py:118-164 | there are four strategies and their timeouts never decrease (60, 60, 90, 120) |
| Fetcher.Download | app.py:168-254 | the download succeeds exactly when some strategy passes; a failure carries no last error exactly when there were no strategies |
| Fetcher.FailsOnlyWhenAllFail | app.py:168-254 | the download fails exactly when every attempt fails, and it then carries the last attempt's error |
| Fetcher.FirstPassWins | app.py:168-243 | a successful download carries the normalised image of the first strategy whose attempt passes |
| Fetcher.DownloadKeepsSmallSize | app.py:229-243 | when the first passing reply decodes within 2048 x 2048, the download returns an RGB image of that same size |
| Fetcher.StopsAtFirstPass | app.py:168-243 | strategies after the first passing one never change the outcome |
| Fetcher.FirstPassing | app.py:168-243 | the index of the first passing strategy: every earlier one fails |
| Fetcher.RunAttempt | app.py:201-246 | an attempt passes exactly when the status is not 4xx/5xx, the payload has at least 1024 bytes and it decodes; a passing image is RGB within 2048 x 2048 |
| Fetcher.SizeThresholdBoundary | app.py:211-212 | 1024 bytes pass and 1023 bytes fail with the too-small error |
| Fetcher.Normalize | app.py:219-232 | the result is RGB within 2048 x 2048; an image already within the bound keeps its size, and an RGB one is unchanged |
| Fetcher.ShrinkToFit | app.py:229-232 | a size within the box is kept; otherwise the result fits the box, one side equals it, and neither side grows |
| Fetcher.SuccessIsCanonical | app.py:216-243 | a successful download returns an RGB image within 2048 x 2048 as "data:image/jpeg;base64," plus its encoding |
| Fetcher.SmallImageKeepsSize | app.py:229-232 | a decoded image within 2048 x 2048 comes out with the same size |
| DataUrl.Wrap | app.py:243 | the data URL starts with its header and ends with its payload |
| DataUrl.SecondField | app.py:462 | `split(',')[1]` exists exactly when there is a comma, and it holds no comma |
| DataUrl.StripHeader | app.py:609-610 | with a comma the result is the second comma-separated field; without one the text is unchanged |
| DataUrl.UnwrapWrap | app.py:462 | for a comma-free payload, splitting the data URL gives the payload back |
| DataUrl.StripHeaderWrap | app.py:609-610 | stripping the header of a data URL gives its comma-free payload back |
| DataUrl.CommaInPayloadTruncates | app.py:462 | a payload that contains a comma comes back cut at that comma |
| DataUrl.PrefixesAreHeaders | app.py:243 | both the JPEG and the PNG prefix are comma-terminated headers without any other comma |
| Strings.Split | app.py:462 | `str.split(sep)`: at least one field, and no field contains the separator |
| Strings.Join | app.py:462 | the join starts with the first field, and with two or more fields the separator follows it |
| Strings.JoinSplit | app.py:462 | joining the fields with the separator rebuilds the text |
| Strings.SplitJoin | app.py:462 | splitting a join of separator-free fields gives the fields back |
| Strings.SplitAtFirst | app.py:462 | text before the first separator is the first field; the rest is split on its own |
| Strings.Lower | app.py:488 | lower-casing keeps the length and maps each character |
| Storage.ScratchFilename | app.py:63-66 | the name starts with "generated_", ends with ".png", has the stamp plus 8 uuid characters plus 15 characters, and holds no '/' |
| Storage.ScratchNamesCollideOnlyOnSameStampAndId | app.py:63-66 | two names from equally long stamps are equal only when the stamps and the uuid prefixes are |
| Storage.Take | app.py:65 | a slice `[:n]` such as `[:8]` is a prefix of the text, of length n or the whole text when shorter |
| Storage.JoinPath | app.py:69 | the joined path ends with the file name; an absolute name replaces the directory, otherwise the path starts with the directory |
| Storage.Basename | app.py:40 | the basename holds no '/', ends the path and follows its last '/' |
| Storage.BasenameOfJoin | app.py:69 | the basename of a joined directory and file name is the file name |
| Storage.BlobName | app.py:40-41 | a missing or empty destination gives exactly "history_redesign/" + basename; any other destination is used as given |
| Storage.ScratchFileBlobName | app.py:40-41 | a scratch file is stored as "history_redesign/generated_<stamp>_<uuid8>.png" |
| Storage.MaterializeOne | app.py:559-564 | a payload yields a URL exactly when its decode gives a non-empty path and its upload a non-empty URL, and the URL is the upload's |
| Storage.Materialized | app.py:558-564 | the batch never returns more URLs than it was given payloads |
| Storage.MaterializeBatch | app.py:558-564 | the loop returns the specified filter of the payloads, at most one URL per payload |
| Storage.FailureDropsOnlyThatPayload | app.py:558-564 | a failing payload is dropped and the URLs before and after it are kept, in order |
| Storage.EveryUrlFromASuccess | app.py:558-564 | every returned URL is non-empty and is the upload of some payload whose decode succeeded |
| Storage.EverySuccessKept | app.py:558-564 | every payload whose decode and upload succeed contributes its URL |
| Storage.FiveWithThirdFailing | app.py:590-596 | five payloads with the third failing give the other four URLs, in order |
| Storage.UploadCroppedImage | app.py:604-618 | the result is a non-empty URL or nothing; unless the decoder gives an empty path, it is what the batch gives for the header-stripped text |
| Storage.CroppedDataUrlUsesPayload | app.py:608-612 | a cropped data URL gives the same result as its bare payload, which is the one-payload batch step unless the decoder gives an empty path |
| Lists.Keep | app.py:475 | a filter-map never lengthens its input |
| Lists.KeepSound | app.py:662 | every output is the image of some input |
| Lists.KeepComplete | app.py:662 | every input with an image contributes it |
| Lists.KeepAppend | app.py:558-564 | filter-mapping a concatenation concatenates the results |
| Lists.DropOne | app.py:475 | an input without an image disappears and nothing else changes |
| Lists.KeepAll | app.py:475 | when every input has an image, the output has the same length and holds those images pointwise |
| Providers.OpenAiPayloads | app.py:475 | at most one payload per response entry |
| Providers.OneEntryWithoutPayloadDropped | app.py:589 | an entry without `b64_json` is dropped and the other payloads stay in order |
| Providers.EditReferencePayload | app.py:462 | a payload exists exactly when there is a reference containing a comma, and the payload is comma-free |
| Providers.TakeRefs | app.py:507 | `[:3]` is a prefix of length at most 3: either 3 or the whole list |
| Providers.Decimal | app.py:511 | the text is non-empty digits that denote the index, with no leading zero unless it is "0" |
| Providers.ReferenceFilename | app.py:511 | the name is eight characters longer than the index's decimal text (its parts are stated by ReferenceFilenameShape) |
| Providers.ReferenceFilenameShape | app.py:511 | the name starts with "ref_" followed by the index; it ends in ".png" exactly when the content type mentions png, and in ".jpg" otherwise |
| Providers.ReferenceNaming | app.py:510-511 | a missing Content-Type (default image/png) gives ".png"; a type without "png" gives ".jpg" |
| Providers.CheckReference | app.py:508-509 | a fetch succeeds exactly when a reply arrives with a status outside 400-599; it then gives the reply's content type, and a failure names the URL |
| Providers.ReferenceField | app.py:510-512 | the field is a style-reference file whose content type is the reply's, or image/png when missing |
| Providers.ReferencesFrom | app.py:504-513 | a successful preparation has one field per URL |
| Providers.PrepareReferenceFiles | app.py:504-513 | the loop returns the specified references of the first three URLs, or the first failing fetch's error |
| Providers.ReferencesSucceedWhenAllFetch | app.py:508-509 | preparing references succeeds exactly when every fetch succeeds |
| Providers.ReferencesInOrder | app.py:507-513 | when all fetches succeed there is one field per URL, numbered in order |
| Providers.ReferencesFromFirstError | app.py:508-509 | a failure reports the error of the first failing URL |
| Providers.BaseForm | app.py:645-651 | the form is exactly the five text fields prompt, num_images, rendering_speed, aspect_ratio and negative_prompt, with the prompt and count first |
| Providers.UploadFields | app.py:655-656 | one field per uploaded file, carrying its own name and type |
| Providers.IdeogramForm | app.py:645-658 | with uploads or without URLs the form is always built, and every built form starts with the five base fields |
| Providers.BuildIdeogramForm | app.py:645-658 | the loop builds the specified form: uploads if any, otherwise fetched URLs, otherwise no references |
| Providers.IdeogramFormShape | app.py:645-658 | the form starts with prompt, num_images, rendering_speed, aspect_ratio and negative_prompt, and is followed by at most three style references |
| Providers.UploadsTakePrecedence | app.py:654-656 | with uploads the URLs are never used, and field 5 + k is the k-th upload's own field, for at most three uploads |
| Providers.UrlReferences | app.py:657-658 | without uploads the form succeeds exactly when every fetch does, with field k being the k-th URL's reference |
| Providers.IdeogramUrl | app.py:662 | an item contributes exactly when its URL is present and non-empty, and then contributes that URL |
| Providers.IdeogramImageUrls | app.py:662 | a response without "data" gives no images |
| Providers.IdeogramUrlsAreItemUrls | app.py:662 | every returned URL is non-empty and is some item's URL |
| Providers.IdeogramItemWithoutUrlDropped | app.py:662 | an item with a missing or empty URL is dropped, and the rest keep their order |
| Providers.GeminiOutput | app.py:719-723 | an image gives an output exactly when its `bytes_base64` or its `data` is truthy, and the output is a PNG data URL |
| Providers.GeminiImageContribution | app.py:718-723 | truthy `bytes_base64` wins and gives its data URL; otherwise truthy `data` gives the encoded data URL; otherwise the image is dropped and the others keep their order |
| Providers.GeminiDataUrls | app.py:717-723 | at most one output per returned image |
| Providers.GeminiOutputsAreDataUrls | app.py:718-723 | every output is the PNG data URL of some image's truthy `bytes_base64`, or of the encoded `data` of an image whose `bytes_base64` is falsy |
| Providers.GeminiReferences | app.py:698-703 | as written every one of the first three URLs fails, and the reference list stays empty |
| Pipeline.DownloadedImageReachesEdit | app.py:243 | a downloaded image's data URL, passed to generation, hands the edit call exactly the normalised image's base64 text |
| Pipeline.OpenAiBatchBound | app.py:589-596 | with a decoder that fails on `None`: at most one URL per OpenAI entry, exactly one per entry when every entry's `b64_json` string is stored, and no URL from an entry whose `b64_json` is `None` |
| Pipeline.GeminiOutputToCroppedUpload | app.py:609-610 | a Gemini data URL passed to the cropped-image route is stripped back to its payload |

## Left out

- Flask routing covers request parsing, the `prompt`/`num_images` presence checks, JSON responses and status codes. It is glue around the modelled logic. For the same reason the Ideogram `HTTPError` status plumbing and the `image_url` fallback of the Gemini route are left out.
- The foreign calls appear only as oracle parameters:
  - OpenAI chat, edit and generate;
  - the Ideogram POST and the Gemini client;
  - `requests.get`;
  - the GCS client, `make_public` and `os.remove`;
  - PIL decoding and saving;
  - base64 encoding and decoding.

  The base64 codec (RFC 4648 section 4) is not modelled. The round trips assume a comma-free payload, which base64 text always is.
- The request strategies (headers, TLS verification, streaming, redirects and urllib3 retries) are carried only as data. Their effect on the network is what `respond` reports.
- `describe_image_with_gpt4o_2D`, the prompt summarising calls and their prompt templates are content or model calls, not decision logic.
- `create_local_url` and the local image route are not part of this model.
- The first definition of `validate_image_url` (app.py:97-112) is replaced at import time by the identical second one, which is the one modelled.
- Fetcher.ShrinkToFit: PIL's `thumbnail` rounds the scaled side to the nearest integer. The model takes the floor, with a minimum of 1. Only the bounds, the fitting side and the no-growth property are claimed.
- Fetcher.Normalize: alpha compositing onto white and the JPEG encoding are pixel work. Only the mode and the size are modelled.
- Strings.Lower: lower-cases ASCII letters only. Python's `str.lower` also folds non-ASCII letters, which matters only for non-ASCII paths.
- UrlValidator.Parse: `urlparse` is modelled as a simplified split into scheme, network location and path. The model leaves out:
  - `;params`;
  - the stripping of whitespace and control characters;
  - the `ValueError` for malformed IPv6 hosts (which the source's bare `except` turns into `False`).
- Storage.ScratchFilename: the timestamp and the uuid text are parameters instead of `datetime.now()` and `uuid4()`.
- Providers.PrepareReferenceFiles: the 180-second timeout and the response bodies are not modelled. A field carries the file name and content type, not the bytes.
- Storage.MaterializeBatch, Storage.Materialized, Providers.PrepareReferenceFiles, Providers.ReferencesFrom: decoding, uploading and fetching are oracles that are functions of their argument. Equal payloads or equal URLs in one batch therefore get equal outcomes. In the source every decode writes a fresh uuid-named scratch file and every upload or request is a separate call, so duplicates may fare differently.
- Storage.UploadCroppedImage: relates its result to the batch step only when the decoder does not return an empty path. On an empty path the route still calls `upload_to_gcs`, which the batch skips, so the two may differ.
- Providers.IdeogramImageUrls: only string URLs are modelled. A non-string truthy `url` value is outside the model.
