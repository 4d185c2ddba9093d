/**
 * Request and response shaping for the three image providers: the OpenAI edit and generate
 * responses (`b64_json` entries), the Ideogram multipart form with its style references and
 * its by-URL response, and the Gemini response turned into PNG data URLs. The HTTP calls
 * themselves are oracles.
 */
module Providers {
  import opened Wrappers
  import opened Strings
  import Lists
  import DataUrl

  // ---------------------------------------------------------------- OpenAI

  /** An entry of `response.data`: whether it has a `b64_json` attribute, and its value (possibly `None`). */
  datatype OpenAiImage = OpenAiImage(hasB64Json: bool, b64Json: Option<string>)

  function OpenAiEntry(img: OpenAiImage): Option<Option<string>>
  {
    if img.hasB64Json then Some(img.b64Json) else None
  }

  /** `[img.b64_json for img in response.data if hasattr(img, 'b64_json')]`: a `None` value is kept, only a missing attribute drops the entry. */
  function OpenAiPayloads(data: seq<OpenAiImage>): (payloads: seq<Option<string>>)
    ensures |payloads| <= |data|
  {
    Lists.Keep(data, OpenAiEntry)
  }

  /** A response where exactly one entry lacks `b64_json` yields one payload fewer than it has entries, the others in order. */
  lemma OneEntryWithoutPayloadDropped(before: seq<OpenAiImage>, missing: OpenAiImage, after: seq<OpenAiImage>)
    requires !missing.hasB64Json
    requires forall i :: 0 <= i < |before| ==> before[i].hasB64Json
    requires forall i :: 0 <= i < |after| ==> after[i].hasB64Json
    ensures |OpenAiPayloads(before + [missing] + after)| == |before + [missing] + after| - 1
    ensures OpenAiPayloads(before + [missing] + after) == OpenAiPayloads(before) + OpenAiPayloads(after)
  {
    Lists.DropOne(before, missing, after, OpenAiEntry);
    Lists.KeepAll(before, OpenAiEntry);
    Lists.KeepAll(after, OpenAiEntry);
  }

  /**
   * `base64_image.split(',')[1]` in `generate_image`. `None` stands for the two cases where the source
   * raises: `None.split` (no reference image) and a missing comma. `generate_image` re-raises either, so
   * the generation route answers 500 whenever it is called without `image_url`.
   */
  function EditReferencePayload(base64Image: Option<string>): (payload: Option<string>)
    ensures payload.Some? <==> base64Image.Some? && ',' in base64Image.value
    ensures payload.Some? ==> ',' !in payload.value
  {
    if base64Image.None? then None else DataUrl.SecondField(base64Image.value)
  }

  // -------------------------------------------------------------- Ideogram

  const DefaultRenderingSpeed: string := "TURBO"
  const DefaultAspectRatio: string := "16x9"
  const DefaultNegativePrompt: string := "no text, no watermark"
  const StyleReferenceField: string := "style_reference_images"
  /** At most this many references are sent. */
  const MaxReferences: nat := 3
  /** `resp.headers.get("Content-Type", "image/png")` */
  const DefaultContentType: string := "image/png"

  /** A multipart part: a plain text value, or a file with its name and content type (its bytes are not modelled). */
  datatype Part = Text(value: string) | File(filename: string, contentType: string)
  datatype FormField = FormField(name: string, part: Part)

  /** A file uploaded in the route's own multipart request. */
  datatype UploadedFile = UploadedFile(filename: string, mimetype: string)

  /** What fetching one reference URL observes. */
  datatype RefReply = RefTransportFailure(detail: string) | RefResponse(status: int, contentType: Option<string>)

  /** Why fetching a reference raised: the whole request then fails. */
  datatype RefError = RefTransport(url: string, detail: string) | RefHttpStatus(url: string, status: int)

  /** The five fixed text fields, in order. */
  function BaseForm(prompt: string, numImages: string): (form: seq<FormField>)
    ensures Names(form) == ["prompt", "num_images", "rendering_speed", "aspect_ratio", "negative_prompt"]
    ensures form[0].part == Text(prompt) && form[1].part == Text(numImages)
    ensures forall k :: 0 <= k < |form| ==> form[k].part.Text?
  {
    [ FormField("prompt", Text(prompt)),
      FormField("num_images", Text(numImages)),
      FormField("rendering_speed", Text(DefaultRenderingSpeed)),
      FormField("aspect_ratio", Text(DefaultAspectRatio)),
      FormField("negative_prompt", Text(DefaultNegativePrompt)) ]
  }

  /** Python's `xs[:3]`. */
  function TakeRefs<T>(xs: seq<T>): (r: seq<T>)
    ensures |r| <= MaxReferences && |r| <= |xs| && r == xs[..|r|]
    ensures |r| == MaxReferences || r == xs
  {
    if |xs| <= MaxReferences then xs else xs[..MaxReferences]
  }

  /** The number a string of decimal digits denotes, most significant digit first. */
  function DigitsValue(s: string): int
  {
    if s == [] then 0 else 10 * DigitsValue(s[..|s| - 1]) + (s[|s| - 1] as int - '0' as int)
  }

  /** Decimal digits of a natural number, as `str(n)` writes them: they denote `n`, with no leading zero. */
  function Decimal(n: nat): (s: string)
    ensures |s| > 0 && forall k :: 0 <= k < |s| ==> '0' <= s[k] <= '9'
    ensures DigitsValue(s) == n
    ensures s[0] == '0' ==> s == "0"
  {
    var digit := ['0' + (n % 10) as char];
    if n < 10 then digit
    else
      var s := Decimal(n / 10) + digit;
      assert s[..|s| - 1] == Decimal(n / 10);
      s
  }

  /** `f"ref_{idx}.png" if "png" in content_type else f"ref_{idx}.jpg"` */
  function ReferenceFilename(idx: nat, contentType: string): (name: string)
    ensures |name| == 8 + |Decimal(idx)|
  {
    "ref_" + Decimal(idx) + (if Contains(contentType, "png") then ".png" else ".jpg")
  }

  /** A reference name starts with "ref_", then its index, and ends in ".png" exactly when the type mentions png, else in ".jpg". */
  lemma ReferenceFilenameShape(idx: nat, contentType: string)
    ensures StartsWith(ReferenceFilename(idx, contentType), "ref_")
    ensures ReferenceFilename(idx, contentType)[4..4 + |Decimal(idx)|] == Decimal(idx)
    ensures EndsWith(ReferenceFilename(idx, contentType), ".png") <==> Contains(contentType, "png")
    ensures EndsWith(ReferenceFilename(idx, contentType), ".jpg") <==> !Contains(contentType, "png")
  {
    var name := ReferenceFilename(idx, contentType);
    assert name[..4] == "ref_";
    assert name[4..4 + |Decimal(idx)|] == Decimal(idx);
    assert name[|name| - 4..] == if Contains(contentType, "png") then ".png" else ".jpg";
  }

  /** A reference fetched by URL as a multipart file, named by its position and content type. */
  function ReferenceField(idx: nat, contentType: Option<string>): (field: FormField)
    ensures field.name == StyleReferenceField && field.part.File?
    ensures field.part.contentType == contentType.GetOr(DefaultContentType)
  {
    var ct := contentType.GetOr(DefaultContentType);
    FormField(StyleReferenceField, File(ReferenceFilename(idx, ct), ct))
  }

  /** One reference fetch: `requests.get` then `raise_for_status`. */
  function CheckReference(url: string, reply: RefReply): (r: Result<Option<string>, RefError>)
    ensures r.Success? <==> reply.RefResponse? && !(400 <= reply.status < 600)
    ensures r.Success? ==> r.value == reply.contentType
    ensures r.Failure? ==> r.error.url == url
  {
    match reply
    case RefTransportFailure(detail) => Failure(RefTransport(url, detail))
    case RefResponse(status, contentType) =>
      if 400 <= status < 600 then Failure(RefHttpStatus(url, status)) else Success(contentType)
  }

  /** The references built from `urls`, numbered from `idx`; the first failing fetch ends the whole list. */
  function ReferencesFrom(urls: seq<string>, fetch: string -> RefReply, idx: nat): (r: Result<seq<FormField>, RefError>)
    ensures r.Success? ==> |r.value| == |urls|
    decreases |urls|
  {
    if urls == [] then Success([])
    else match CheckReference(urls[0], fetch(urls[0]))
      case Failure(e) => Failure(e)
      case Success(contentType) =>
        match ReferencesFrom(urls[1..], fetch, idx + 1)
        case Failure(e) => Failure(e)
        case Success(rest) => Success([ReferenceField(idx, contentType)] + rest)
  }

  /** Prepend fields already built to a result still to come. */
  function Prepend(fields: seq<FormField>, r: Result<seq<FormField>, RefError>): Result<seq<FormField>, RefError>
  {
    match r
    case Success(rest) => Success(fields + rest)
    case Failure(e) => Failure(e)
  }

  /** Prepending twice is prepending the concatenation. */
  lemma PrependTwice(a: seq<FormField>, b: seq<FormField>, r: Result<seq<FormField>, RefError>)
    ensures Prepend(a, Prepend(b, r)) == Prepend(a + b, r)
  {
    if r.Success? {
      assert a + (b + r.value) == (a + b) + r.value;
    }
  }

  /** One step of `ReferencesFrom`: the first URL's outcome, then the rest numbered from the next index. */
  lemma ReferencesFromStep(urls: seq<string>, fetch: string -> RefReply, idx: nat)
    requires urls != []
    ensures var c := CheckReference(urls[0], fetch(urls[0]));
      ReferencesFrom(urls, fetch, idx) ==
        if c.Failure? then Failure(c.error) else Prepend([ReferenceField(idx, c.value)], ReferencesFrom(urls[1..], fetch, idx + 1))
  {
  }

  /** `_prepare_reference_files_from_urls`: fetch at most three URLs in order, appending one part per URL. */
  method PrepareReferenceFiles(urls: seq<string>, fetch: string -> RefReply) returns (r: Result<seq<FormField>, RefError>)
    ensures r == ReferencesFrom(TakeRefs(urls), fetch, 0)
  {
    var chosen := TakeRefs(urls);
    var refs: seq<FormField> := [];
    assert chosen[0..] == chosen;
    PrependTwice([], [], ReferencesFrom(chosen, fetch, 0));
    assert Prepend([], ReferencesFrom(chosen, fetch, 0)) == ReferencesFrom(chosen, fetch, 0) by {
      if ReferencesFrom(chosen, fetch, 0).Success? {
        assert [] + ReferencesFrom(chosen, fetch, 0).value == ReferencesFrom(chosen, fetch, 0).value;
      }
    }
    for idx := 0 to |chosen|
      invariant ReferencesFrom(chosen, fetch, 0) == Prepend(refs, ReferencesFrom(chosen[idx..], fetch, idx))
    {
      var reply := CheckReference(chosen[idx], fetch(chosen[idx]));
      ReferencesFromStep(chosen[idx..], fetch, idx);
      assert chosen[idx..][1..] == chosen[idx + 1..];
      if reply.Failure? {
        return Failure(reply.error);
      }
      PrependTwice(refs, [ReferenceField(idx, reply.value)], ReferencesFrom(chosen[idx + 1..], fetch, idx + 1));
      refs := refs + [ReferenceField(idx, reply.value)];
    }
    assert chosen[|chosen|..] == [];
    assert refs + [] == refs;
    r := Success(refs);
  }

  /** Fetching references succeeds exactly when every fetch succeeds. */
  lemma {:induction false} ReferencesSucceedWhenAllFetch(urls: seq<string>, fetch: string -> RefReply, idx: nat)
    ensures ReferencesFrom(urls, fetch, idx).Success? <==> forall k :: 0 <= k < |urls| ==> CheckReference(urls[k], fetch(urls[k])).Success?
  {
    if urls != [] {
      ReferencesSucceedWhenAllFetch(urls[1..], fetch, idx + 1);
      ReferencesFromStep(urls, fetch, idx);
      assert forall k :: 1 <= k < |urls| ==> urls[1..][k - 1] == urls[k];
    }
  }

  /** When every fetch succeeds there is one field per URL, numbered from `idx`, in order. */
  lemma {:induction false} ReferencesInOrder(urls: seq<string>, fetch: string -> RefReply, idx: nat)
    requires forall k :: 0 <= k < |urls| ==> CheckReference(urls[k], fetch(urls[k])).Success?
    ensures ReferencesFrom(urls, fetch, idx).Success?
    ensures |ReferencesFrom(urls, fetch, idx).value| == |urls|
    ensures forall k :: 0 <= k < |urls| ==>
      ReferencesFrom(urls, fetch, idx).value[k] == ReferenceField(idx + k, CheckReference(urls[k], fetch(urls[k])).value)
  {
    if urls != [] {
      ReferencesFromStep(urls, fetch, idx);
      var c := CheckReference(urls[0], fetch(urls[0]));
      assert c.Success?;
      forall k | 0 <= k < |urls[1..]|
        ensures CheckReference(urls[1..][k], fetch(urls[1..][k])).Success?
      {
        assert urls[1..][k] == urls[k + 1];
      }
      ReferencesInOrder(urls[1..], fetch, idx + 1);
      var tail := ReferencesFrom(urls[1..], fetch, idx + 1).value;
      var all := ReferencesFrom(urls, fetch, idx).value;
      assert all == [ReferenceField(idx, c.value)] + tail;
      forall k | 1 <= k < |urls|
        ensures all[k] == ReferenceField(idx + k, CheckReference(urls[k], fetch(urls[k])).value)
      {
        assert urls[1..][k - 1] == urls[k];
        assert all[k] == tail[k - 1];
      }
    }
  }

  /** When a fetch fails, the error reported is that of the first failing URL. */
  lemma {:induction false} ReferencesFromFirstError(urls: seq<string>, fetch: string -> RefReply, idx: nat, j: nat)
    requires j < |urls| && CheckReference(urls[j], fetch(urls[j])).Failure?
    requires forall k :: 0 <= k < j ==> CheckReference(urls[k], fetch(urls[k])).Success?
    ensures ReferencesFrom(urls, fetch, idx) == Failure(CheckReference(urls[j], fetch(urls[j])).error)
  {
    ReferencesFromStep(urls, fetch, idx);
    if j > 0 {
      ReferencesFromFirstError(urls[1..], fetch, idx + 1, j - 1);
    }
  }

  /** A file uploaded to the route, passed on with its own name and type. */
  function UploadField(f: UploadedFile): FormField
  {
    FormField(StyleReferenceField, File(f.filename, f.mimetype))
  }

  function UploadFields(files: seq<UploadedFile>): (fields: seq<FormField>)
    ensures |fields| == |files|
    ensures forall k :: 0 <= k < |files| ==> fields[k] == UploadField(files[k])
  {
    seq(|files|, k requires 0 <= k < |files| => UploadField(files[k]))
  }

  /** The form sent to Ideogram: uploaded files when there are any, otherwise the fetched URLs, otherwise no reference. */
  function IdeogramForm(prompt: string, numImages: string, uploads: seq<UploadedFile>, referenceUrls: seq<string>,
                        fetch: string -> RefReply): (r: Result<seq<FormField>, RefError>)
    ensures |uploads| > 0 || referenceUrls == [] ==> r.Success?
    ensures r.Success? ==> 5 <= |r.value| && r.value[..5] == BaseForm(prompt, numImages)
  {
    if |uploads| > 0 then Success(BaseForm(prompt, numImages) + UploadFields(TakeRefs(uploads)))
    else if |referenceUrls| > 0 then Prepend(BaseForm(prompt, numImages), ReferencesFrom(TakeRefs(referenceUrls), fetch, 0))
    else Success(BaseForm(prompt, numImages))
  }

  /** The building of `files_list` in the Ideogram route. */
  method BuildIdeogramForm(prompt: string, numImages: string, uploads: seq<UploadedFile>, referenceUrls: seq<string>,
                           fetch: string -> RefReply) returns (r: Result<seq<FormField>, RefError>)
    ensures r == IdeogramForm(prompt, numImages, uploads, referenceUrls, fetch)
  {
    var filesList := BaseForm(prompt, numImages);
    if |uploads| > 0 {
      var chosen := TakeRefs(uploads);
      for i := 0 to |chosen|
        invariant filesList == BaseForm(prompt, numImages) + UploadFields(chosen[..i])
      {
        filesList := filesList + [UploadField(chosen[i])];
      }
      assert chosen[..|chosen|] == chosen;
      r := Success(filesList);
    } else if |referenceUrls| > 0 {
      var refs := PrepareReferenceFiles(referenceUrls, fetch);
      if refs.Failure? {
        return Failure(refs.error);
      }
      r := Success(filesList + refs.value);
    } else {
      r := Success(filesList);
    }
  }

  /** Field names of a form, in order. */
  function Names(form: seq<FormField>): (names: seq<string>)
    ensures |names| == |form|
    ensures forall k :: 0 <= k < |form| ==> names[k] == form[k].name
  {
    seq(|form|, k requires 0 <= k < |form| => form[k].name)
  }

  /** The form always starts with the five fixed fields in order, then at most three style references and nothing else. */
  lemma IdeogramFormShape(prompt: string, numImages: string, uploads: seq<UploadedFile>, referenceUrls: seq<string>,
                          fetch: string -> RefReply)
    requires IdeogramForm(prompt, numImages, uploads, referenceUrls, fetch).Success?
    ensures var form := IdeogramForm(prompt, numImages, uploads, referenceUrls, fetch).value;
      && 5 <= |form| <= 5 + MaxReferences
      && Names(form)[..5] == ["prompt", "num_images", "rendering_speed", "aspect_ratio", "negative_prompt"]
      && form[..5] == BaseForm(prompt, numImages)
      && forall k :: 5 <= k < |form| ==> form[k].name == StyleReferenceField
  {
    var form := IdeogramForm(prompt, numImages, uploads, referenceUrls, fetch).value;
    if |uploads| == 0 && |referenceUrls| > 0 {
      ReferencesSucceedWhenAllFetch(TakeRefs(referenceUrls), fetch, 0);
      ReferencesInOrder(TakeRefs(referenceUrls), fetch, 0);
    }
    assert form[..5] == BaseForm(prompt, numImages);
    assert Names(form)[..5] == Names(BaseForm(prompt, numImages));
  }

  /** Uploaded files take precedence: with at least one upload, the reference URLs are neither fetched nor used. */
  lemma UploadsTakePrecedence(prompt: string, numImages: string, uploads: seq<UploadedFile>,
                              referenceUrls: seq<string>, fetch: string -> RefReply,
                              otherUrls: seq<string>, otherFetch: string -> RefReply)
    requires |uploads| > 0
    ensures IdeogramForm(prompt, numImages, uploads, referenceUrls, fetch)
         == IdeogramForm(prompt, numImages, uploads, otherUrls, otherFetch)
    ensures IdeogramForm(prompt, numImages, uploads, referenceUrls, fetch).Success?
    ensures |IdeogramForm(prompt, numImages, uploads, referenceUrls, fetch).value| == 5 + |TakeRefs(uploads)|
    ensures forall k :: 0 <= k < |TakeRefs(uploads)| ==>
              IdeogramForm(prompt, numImages, uploads, referenceUrls, fetch).value[5 + k] == UploadField(uploads[k])
  {
  }

  /** Without uploads, the URLs give one reference each (at most three, numbered from 0), or the first failing fetch's error. */
  lemma UrlReferences(prompt: string, numImages: string, referenceUrls: seq<string>, fetch: string -> RefReply)
    requires |referenceUrls| > 0
    ensures var r := IdeogramForm(prompt, numImages, [], referenceUrls, fetch);
      var chosen := TakeRefs(referenceUrls);
      && (r.Success? <==> forall k :: 0 <= k < |chosen| ==> CheckReference(chosen[k], fetch(chosen[k])).Success?)
      && (r.Success? ==> |r.value| == 5 + |chosen|
                         && forall k :: 0 <= k < |chosen| ==>
                              r.value[5 + k] == ReferenceField(k, CheckReference(chosen[k], fetch(chosen[k])).value))
  {
    var chosen := TakeRefs(referenceUrls);
    ReferencesSucceedWhenAllFetch(chosen, fetch, 0);
    if forall k :: 0 <= k < |chosen| ==> CheckReference(chosen[k], fetch(chosen[k])).Success? {
      ReferencesInOrder(chosen, fetch, 0);
    }
  }

  /** The reference file name: ".png" when the content type mentions png, including the default "image/png", else ".jpg". */
  lemma ReferenceNaming(idx: nat, contentType: Option<string>)
    ensures contentType.None? ==> EndsWith(ReferenceField(idx, contentType).part.filename, ".png")
    ensures contentType.Some? && !Contains(contentType.value, "png") ==> EndsWith(ReferenceField(idx, contentType).part.filename, ".jpg")
  {
    var ct := contentType.GetOr(DefaultContentType);
    assert OccursAt(DefaultContentType, "png", 6);
    ReferenceFilenameShape(idx, ct);
  }

  /** One entry of `ideogram_json["data"]`: its `url`, possibly missing or `None`. */
  datatype IdeogramItem = IdeogramItem(url: Option<string>)

  function IdeogramUrl(item: IdeogramItem): (url: Option<string>)
    ensures url.Some? <==> item.url.Some? && item.url.value != []
    ensures url.Some? ==> url == item.url
  {
    if item.url.Some? && item.url.value != [] then Some(item.url.value) else None
  }

  /** `[item.get("url") for item in ideogram_json.get("data", []) if item.get("url")]`: only truthy URLs, in order. */
  function IdeogramImageUrls(data: Option<seq<IdeogramItem>>): (urls: seq<string>)
    ensures data.None? ==> urls == []
  {
    Lists.Keep(data.GetOr([]), IdeogramUrl)
  }

  /** Every returned URL is non-empty and is the URL of some item of the response. */
  lemma IdeogramUrlsAreItemUrls(data: seq<IdeogramItem>, k: nat)
    requires k < |IdeogramImageUrls(Some(data))|
    ensures IdeogramImageUrls(Some(data))[k] != []
    ensures exists i :: 0 <= i < |data| && data[i].url == Some(IdeogramImageUrls(Some(data))[k])
  {
    Lists.KeepSound(data, IdeogramUrl, k);
  }

  /** An item with a missing or empty URL is dropped and the items around it keep their order. */
  lemma IdeogramItemWithoutUrlDropped(before: seq<IdeogramItem>, item: IdeogramItem, after: seq<IdeogramItem>)
    requires item.url.None? || item.url.value == []
    ensures IdeogramImageUrls(Some(before + [item] + after)) == IdeogramImageUrls(Some(before)) + IdeogramImageUrls(Some(after))
  {
    Lists.DropOne(before, item, after, IdeogramUrl);
  }

  // ---------------------------------------------------------------- Gemini

  /** An entry of `resp.images`: its `bytes_base64` text and its raw `data`, each possibly missing. */
  datatype GeminiImage = GeminiImage(bytesBase64: Option<string>, data: Option<seq<bv8>>)

  /** One entry as a PNG data URL: `bytes_base64` when truthy, else `data` encoded when truthy, else dropped. */
  function GeminiOutput(img: GeminiImage, encode: seq<bv8> -> string): (out: Option<string>)
    ensures out.Some? <==> (img.bytesBase64.Some? && img.bytesBase64.value != []) || (img.data.Some? && img.data.value != [])
    ensures out.Some? ==> StartsWith(out.value, DataUrl.PngPrefix)
  {
    if img.bytesBase64.Some? && img.bytesBase64.value != [] then Some(DataUrl.PngPrefix + img.bytesBase64.value)
    else if img.data.Some? && img.data.value != [] then Some(DataUrl.PngPrefix + encode(img.data.value))
    else None
  }

  /** `GeminiOutput` as the element step of a filter-map. */
  function GeminiEntry(encode: seq<bv8> -> string): GeminiImage -> Option<string>
  {
    (img: GeminiImage) => GeminiOutput(img, encode)
  }

  /** The output loop over `getattr(resp, "images", [])`. `encode` stands for `base64.b64encode`. */
  function GeminiDataUrls(images: Option<seq<GeminiImage>>, encode: seq<bv8> -> string): (out: seq<string>)
    ensures |out| <= |images.GetOr([])|
  {
    Lists.Keep(images.GetOr([]), GeminiEntry(encode))
  }

  /** Every Gemini output is a PNG data URL whose payload is the entry's text, or the encoding of its bytes. */
  lemma GeminiOutputsAreDataUrls(images: seq<GeminiImage>, encode: seq<bv8> -> string, k: nat)
    requires k < |GeminiDataUrls(Some(images), encode)|
    ensures StartsWith(GeminiDataUrls(Some(images), encode)[k], DataUrl.PngPrefix)
    ensures exists i ::
              && 0 <= i < |images|
              && (|| (&& images[i].bytesBase64.Some? && images[i].bytesBase64.value != []
                      && GeminiDataUrls(Some(images), encode)[k] == DataUrl.PngPrefix + images[i].bytesBase64.value)
                  || (&& (images[i].bytesBase64.None? || images[i].bytesBase64.value == [])
                      && images[i].data.Some? && images[i].data.value != []
                      && GeminiDataUrls(Some(images), encode)[k] == DataUrl.PngPrefix + encode(images[i].data.value)))
  {
    Lists.KeepSound(images, GeminiEntry(encode), k);
    var i :| 0 <= i < |images| && GeminiEntry(encode)(images[i]) == Some(GeminiDataUrls(Some(images), encode)[k]);
    var out := GeminiDataUrls(Some(images), encode)[k];
    assert out[..|DataUrl.PngPrefix|] == DataUrl.PngPrefix;
  }

  /**
   * What one image contributes, wherever it sits: its `bytes_base64` when truthy, whatever `data` holds;
   * otherwise its encoded `data` when truthy; otherwise nothing. The images around it keep their order.
   */
  lemma GeminiImageContribution(before: seq<GeminiImage>, img: GeminiImage, after: seq<GeminiImage>, encode: seq<bv8> -> string)
    ensures var out := GeminiDataUrls(Some(before + [img] + after), encode);
      var around := (GeminiDataUrls(Some(before), encode), GeminiDataUrls(Some(after), encode));
      && (img.bytesBase64.Some? && img.bytesBase64.value != [] ==>
            out == around.0 + [DataUrl.PngPrefix + img.bytesBase64.value] + around.1)
      && ((img.bytesBase64.None? || img.bytesBase64.value == []) && img.data.Some? && img.data.value != [] ==>
            out == around.0 + [DataUrl.PngPrefix + encode(img.data.value)] + around.1)
      && ((img.bytesBase64.None? || img.bytesBase64.value == []) && (img.data.None? || img.data.value == []) ==>
            out == around.0 + around.1)
  {
    var g := GeminiEntry(encode);
    Lists.KeepAppend(before + [img], after, g);
    Lists.KeepAppend(before, [img], g);
    Lists.KeepSingle(img, g);
  }

  /**
   * The reference loop of the Gemini route as written: `references.append(references(u))` calls the
   * list being built, which raises TypeError; the handler logs the URL and goes on. So every one of the
   * first three URLs is logged as failed and the reference list stays empty.
   */
  method GeminiReferences(urls: seq<string>) returns (references: seq<seq<bv8>>, failed: seq<string>)
    ensures references == []
    ensures failed == TakeRefs(urls)
  {
    references := [];
    failed := [];
    var chosen := TakeRefs(urls);
    for i := 0 to |chosen|
      invariant references == []
      invariant failed == chosen[..i]
    {
      // `references(u)` raises before anything is appended.
      failed := failed + [chosen[i]];
    }
    assert chosen[..|chosen|] == chosen;
  }
}
