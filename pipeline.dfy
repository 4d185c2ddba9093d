/**
 * How the pieces meet: in the generation route the downloader's data URL is passed straight
 * on as the `base64_image` of `generate_image`, and the payloads a provider returns feed the
 * upload batch.
 */
module Pipeline {
  import opened Wrappers
  import DataUrl
  import Lists
  import Fetcher
  import Providers
  import Storage

  /**
   * A downloaded image, passed on as `base64_image`, gives the edit call exactly the base64
   * text of the normalised image, provided the encoding has no comma (true of the base64 alphabet).
   */
  lemma DownloadedImageReachesEdit(strategies: seq<Fetcher.Strategy>, respond: Fetcher.Strategy -> Fetcher.AttemptReport,
                                   encode: Fetcher.Image -> string)
    requires Fetcher.Download(strategies, respond, encode).Success?
    requires ',' !in encode(Fetcher.Download(strategies, respond, encode).value.image)
    ensures var d := Fetcher.Download(strategies, respond, encode).value;
      && Fetcher.IsCanonical(d.image)
      && Providers.EditReferencePayload(Some(d.dataUrl)) == Some(encode(d.image))
  {
    var d := Fetcher.Download(strategies, respond, encode).value;
    Fetcher.SuccessIsCanonical(strategies, respond, encode);
    DataUrl.PrefixesAreHeaders();
    DataUrl.UnwrapWrap(DataUrl.JpegPrefix, encode(d.image));
  }

  /** Every entry carries a `b64_json` string, and that string is decoded and uploaded. */
  predicate EveryEntryStored(data: seq<Providers.OpenAiImage>, decodeToFile: Option<string> -> Option<string>,
                             upload: string -> Option<string>)
  {
    forall i :: 0 <= i < |data| ==>
      data[i].hasB64Json && data[i].b64Json.Some? && Storage.MaterializeOne(data[i].b64Json, decodeToFile, upload).Some?
  }

  /**
   * The OpenAI generation routes end to end: at most one public URL per entry of the response, and one
   * per entry when every entry carries a `b64_json` string that is stored. A `None` value passes the
   * `hasattr` filter but cannot be decoded, so such an entry yields no URL.
   */
  lemma OpenAiBatchBound(data: seq<Providers.OpenAiImage>, decodeToFile: Option<string> -> Option<string>,
                         upload: string -> Option<string>)
    requires decodeToFile(None) == None
    ensures |Storage.Materialized(Providers.OpenAiPayloads(data), decodeToFile, upload)| <= |data|
    ensures EveryEntryStored(data, decodeToFile, upload) ==>
              |Storage.Materialized(Providers.OpenAiPayloads(data), decodeToFile, upload)| == |data|
    ensures forall i :: 0 <= i < |data| && data[i].hasB64Json && data[i].b64Json.None? ==>
              Storage.MaterializeOne(data[i].b64Json, decodeToFile, upload).None?
  {
    if EveryEntryStored(data, decodeToFile, upload) {
      Lists.KeepAll(data, Providers.OpenAiEntry);
      var payloads := Providers.OpenAiPayloads(data);
      forall i | 0 <= i < |payloads| ensures Storage.Step(decodeToFile, upload)(payloads[i]).Some? {
        assert payloads[i] == data[i].b64Json;
      }
      Lists.KeepAll(payloads, Storage.Step(decodeToFile, upload));
    }
  }

  /** A Gemini output sent back to the cropped-image route is stripped to the payload it was built from. */
  lemma GeminiOutputToCroppedUpload(img: Providers.GeminiImage, encode: seq<bv8> -> string)
    requires img.bytesBase64.Some? && img.bytesBase64.value != [] && ',' !in img.bytesBase64.value
    ensures Providers.GeminiOutput(img, encode).Some?
    ensures DataUrl.StripHeader(Providers.GeminiOutput(img, encode).value) == img.bytesBase64.value
  {
    DataUrl.PrefixesAreHeaders();
    DataUrl.StripHeaderWrap(DataUrl.PngPrefix, img.bytesBase64.value);
  }
}
