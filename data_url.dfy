/**
 * Data URLs: `download_image` returns "data:image/jpeg;base64," followed by the payload,
 * the Gemini adapter wraps its payloads with "data:image/png;base64,", and both
 * `generate_image` and `upload_cropped_image` recover the payload with `split(',')[1]`.
 * The payload is base64 text, whose alphabet has no comma.
 */
module DataUrl {
  import opened Wrappers
  import opened Strings

  const JpegPrefix: string := "data:image/jpeg;base64,"
  const PngPrefix: string := "data:image/png;base64,"

  /** The header of a data URL: a text without comma, closed by the comma. */
  predicate IsHeader(prefix: string)
  {
    |prefix| > 0 && prefix[|prefix| - 1] == ',' && ',' !in prefix[..|prefix| - 1]
  }

  /** `prefix + payload`, as written by the downloader and by the Gemini adapter. */
  function Wrap(prefix: string, payload: string): (url: string)
    requires IsHeader(prefix)
    ensures StartsWith(url, prefix) && EndsWith(url, payload)
  {
    prefix + payload
  }

  /** `s.split(',')[1]`: the second comma-separated field, `None` where Python raises IndexError. */
  function SecondField(s: string): (r: Option<string>)
    ensures r.None? <==> ',' !in s
    ensures r.Some? ==> ',' !in r.value
  {
    var parts := Split(s, ',');
    if |parts| < 2 then
      assert ',' !in s by { SplitNoComma(s); }
      None
    else
      assert ',' in s by { JoinSplit(s, ','); }
      Some(parts[1])
  }

  /** The body of `upload_cropped_image`: keep the second field when there is a comma, else the text itself. */
  function StripHeader(s: string): (r: string)
    ensures ',' !in s ==> r == s
    ensures ',' in s ==> SecondField(s) == Some(r)
  {
    if ',' in s then SecondField(s).value else s
  }

  /** A text splits into a single piece exactly when it has no comma. */
  lemma SplitNoComma(s: string)
    ensures |Split(s, ',')| < 2 <==> ',' !in s
  {
    JoinSplit(s, ',');
    if ',' !in s {
      SplitNoSep(s, ',');
    }
  }

  /** The second field of a wrapped payload is the payload, when the payload has no comma. */
  lemma UnwrapWrap(prefix: string, payload: string)
    requires IsHeader(prefix) && ',' !in payload
    ensures SecondField(Wrap(prefix, payload)) == Some(payload)
  {
    var head := prefix[..|prefix| - 1];
    assert Wrap(prefix, payload) == head + [','] + payload;
    SplitAtFirst(head, ',', payload);
    SplitNoSep(payload, ',');
  }

  /** `upload_cropped_image` recovers the payload of a wrapped data URL. */
  lemma StripHeaderWrap(prefix: string, payload: string)
    requires IsHeader(prefix) && ',' !in payload
    ensures StripHeader(Wrap(prefix, payload)) == payload
  {
    UnwrapWrap(prefix, payload);
  }

  /** Both prefixes used by the program are data URL headers. */
  lemma PrefixesAreHeaders()
    ensures IsHeader(JpegPrefix) && IsHeader(PngPrefix)
  {
    assert JpegPrefix[..|JpegPrefix| - 1] == "data:image/jpeg;base64";
    assert PngPrefix[..|PngPrefix| - 1] == "data:image/png;base64";
  }

  /** A payload with a comma is cut at its first comma: the round trip needs the comma-free base64 alphabet. */
  lemma CommaInPayloadTruncates(prefix: string, a: string, b: string)
    requires IsHeader(prefix) && ',' !in a
    ensures SecondField(Wrap(prefix, a + [','] + b)) == Some(a)
  {
    var head := prefix[..|prefix| - 1];
    assert Wrap(prefix, a + [','] + b) == head + [','] + (a + [','] + b);
    SplitAtFirst(head, ',', a + [','] + b);
    SplitAtFirst(a, ',', b);
  }
}
