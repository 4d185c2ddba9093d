/**
 * `download_image`: fetch an image by trying a fixed list of request strategies in order.
 * An attempt passes when the response status is not an error, the payload has at least
 * 1024 bytes and the payload decodes as an image; the decoded image is then brought to
 * RGB and shrunk to fit 2048 x 2048, encoded, and returned as a JPEG data URL.
 * The network and the image decoder are an oracle: `respond(strategy)` is what one
 * attempt with that strategy observes.
 */
module Fetcher {
  import opened Wrappers
  import DataUrl

  datatype Header = Header(name: string, value: string)

  /** One entry of the `methods` list: a request configuration, treated as opaque data beside its timeout. */
  datatype Strategy = Strategy(timeout: nat, verify: bool, stream: bool, allowRedirects: bool, headers: seq<Header>)

  const Strategies: seq<Strategy> := [
    Strategy(60, true, true, true, [
      Header("User-Agent", "Mozilla/5.0 (Windows NT 10.0; Win64; x64) AppleWebKit/537.36 (KHTML, like Gecko) Chrome/120.0.0.0 Safari/537.36"),
      Header("Accept", "image/webp,image/apng,image/*,*/*;q=0.8"),
      Header("Accept-Language", "en-US,en;q=0.9"),
      Header("Accept-Encoding", "gzip, deflate, br"),
      Header("Connection", "keep-alive"),
      Header("Upgrade-Insecure-Requests", "1")]),
    Strategy(60, false, true, true, [
      Header("User-Agent", "Mozilla/5.0 (Windows NT 10.0; Win64; x64) AppleWebKit/537.36"),
      Header("Accept", "image/*,*/*;q=0.8")]),
    Strategy(90, false, false, true, [
      Header("User-Agent", "Python-requests/2.31.0"),
      Header("Accept", "*/*")]),
    Strategy(120, false, false, true, [])
  ]

  /** Smaller payloads are taken for an error page. */
  const MinPayloadBytes: nat := 1024
  /** Neither side of the returned image exceeds this. */
  const MaxDimension: nat := 2048

  /** A decoded image: its PIL mode name and its size. Pixels are not modelled. */
  datatype Image = Image(mode: string, width: nat, height: nat)

  /** What one attempt observes: a transport failure, or a response with its status, payload size and decoding outcome. */
  datatype AttemptReport =
    | TransportFailure(detail: string)
    | Received(status: int, byteCount: nat, decoded: Option<Image>)

  /** Why an attempt failed, one case per place the source raises. */
  datatype AttemptError =
    | Transport(detail: string)
    | HttpStatus(status: int)
    | TooSmall(byteCount: nat)
    | Undecodable

  /** "All download methods failed", carrying the last attempt's error (`None` only for an empty strategy list). */
  datatype DownloadError = AllMethodsFailed(lastError: Option<AttemptError>)

  /** A successful download: the normalised image and the data URL returned for it. */
  datatype Downloaded = Downloaded(image: Image, dataUrl: string)

  /** `response.raise_for_status()` raises for 4xx and 5xx statuses. */
  predicate IsHttpError(status: int)
  {
    400 <= status < 600
  }

  /** RGB, within the size bound: what the downloader promises about the image it encodes. */
  predicate IsCanonical(img: Image)
  {
    img.mode == "RGB" && img.width <= MaxDimension && img.height <= MaxDimension
  }

  /** `image.thumbnail((box, box))` on the size only: the longer side becomes `box`, the other is scaled down (at least 1). */
  function ShrinkToFit(width: nat, height: nat, box: nat): (size: (nat, nat))
    requires box > 0
    ensures size.0 <= box && size.1 <= box
    ensures width <= box && height <= box ==> size == (width, height)
    ensures !(width <= box && height <= box) ==> size.0 == box || size.1 == box
    ensures width > 0 && height > 0 ==> size.0 <= width && size.1 <= height
  {
    if width <= box && height <= box then (width, height)
    else if width >= height then (box, ScaledSide(height, width, box))
    else (ScaledSide(width, height, box), box)
  }

  /** The shorter side scaled by `box / longer`, rounded down but at least 1: within `box` and within its own length. */
  function ScaledSide(shorter: nat, longer: nat, box: nat): (side: nat)
    requires 0 < box < longer && shorter <= longer
    ensures 1 <= side <= box
    ensures shorter > 0 ==> side <= shorter
  {
    ScaledSideBound(shorter, longer, box);
    Max1(shorter * box / longer)
  }

  /** Scaling the shorter side by `box / longer` keeps it within `box` and within its own length. */
  lemma ScaledSideBound(shorter: nat, longer: nat, box: nat)
    requires 0 < box < longer && shorter <= longer
    ensures shorter * box / longer <= box
    ensures shorter * box / longer <= shorter
  {
    assert shorter * box <= box * longer;
    DivAtMost(shorter * box, box, longer);
    assert shorter * box <= shorter * longer;
    DivAtMost(shorter * box, shorter, longer);
  }

  lemma DivAtMost(a: nat, b: nat, d: nat)
    requires d > 0 && a <= b * d
    ensures a / d <= b
  {
    var q := a / d;
    assert q * d + a % d == a;
    if q > b {
      MulStrict(q, b, d);
    }
  }

  lemma MulStrict(x: nat, y: nat, d: nat)
    requires d > 0 && x > y
    ensures x * d > y * d
  {
    var e: nat := x - y - 1;
    assert x * d == y * d + d + e * d;
    assert e * d >= 0;
  }

  function Max1(n: nat): nat
  {
    if n == 0 then 1 else n
  }

  /** Mode conversion (compositing an RGBA image on white, or `convert('RGB')`) keeps the size; then the size bound is enforced. */
  function Normalize(img: Image): (r: Image)
    ensures IsCanonical(r)
    ensures img.width <= MaxDimension && img.height <= MaxDimension ==> r.width == img.width && r.height == img.height
    ensures img.mode == "RGB" && img.width <= MaxDimension && img.height <= MaxDimension ==> r == img
  {
    var rgb := if img.mode != "RGB" then Image("RGB", img.width, img.height) else img;
    if rgb.width > MaxDimension || rgb.height > MaxDimension then
      var size := ShrinkToFit(rgb.width, rgb.height, MaxDimension);
      Image("RGB", size.0, size.1)
    else rgb
  }

  /** One attempt of the loop body: status check, size check, decode, normalise. */
  function RunAttempt(report: AttemptReport): (r: Result<Image, AttemptError>)
    ensures r.Success? <==>
      report.Received? && !IsHttpError(report.status) && report.byteCount >= MinPayloadBytes && report.decoded.Some?
    ensures r.Success? ==> IsCanonical(r.value)
  {
    match report
    case TransportFailure(detail) => Failure(Transport(detail))
    case Received(status, byteCount, decoded) =>
      if IsHttpError(status) then Failure(HttpStatus(status))
      else if byteCount < MinPayloadBytes then Failure(TooSmall(byteCount))
      else if decoded.None? then Failure(Undecodable)
      else Success(Normalize(decoded.value))
  }

  predicate Passes(s: Strategy, respond: Strategy -> AttemptReport)
  {
    RunAttempt(respond(s)).Success?
  }

  /** Index of the first strategy whose attempt passes, or `|strategies|` when none does. */
  function FirstPassing(strategies: seq<Strategy>, respond: Strategy -> AttemptReport): (k: nat)
    ensures k <= |strategies|
    ensures forall j :: 0 <= j < k ==> !Passes(strategies[j], respond)
    ensures k < |strategies| ==> Passes(strategies[k], respond)
  {
    if strategies == [] then 0
    else if Passes(strategies[0], respond) then 0
    else 1 + FirstPassing(strategies[1..], respond)
  }

  /** What `download_image` returns or raises. `encode` stands for the JPEG encoding and base64 text of the image. */
  function Download(strategies: seq<Strategy>, respond: Strategy -> AttemptReport, encode: Image -> string): (r: Result<Downloaded, DownloadError>)
    ensures r.Success? <==> exists j :: 0 <= j < |strategies| && Passes(strategies[j], respond)
    ensures r.Failure? ==> (r.error.lastError.None? <==> strategies == [])
  {
    var k := FirstPassing(strategies, respond);
    if k < |strategies| then
      var img := RunAttempt(respond(strategies[k])).value;
      Success(Downloaded(img, DataUrl.JpegPrefix + encode(img)))
    else if strategies == [] then Failure(AllMethodsFailed(None))
    else Failure(AllMethodsFailed(Some(RunAttempt(respond(strategies[|strategies| - 1])).error)))
  }

  /**
   * The loop of `download_image`. `tried` lists the strategies attempted, in the order they were attempted.
   */
  method DownloadImage(strategies: seq<Strategy>, respond: Strategy -> AttemptReport, encode: Image -> string)
    returns (r: Result<Downloaded, DownloadError>, tried: seq<Strategy>)
    ensures r == Download(strategies, respond, encode)
    ensures tried == strategies[..if r.Success? then FirstPassing(strategies, respond) + 1 else |strategies|]
  {
    var lastError: Option<AttemptError> := None;
    tried := [];
    var i := 0;
    while i < |strategies|
      invariant 0 <= i <= |strategies|
      invariant tried == strategies[..i]
      invariant forall j :: 0 <= j < i ==> !Passes(strategies[j], respond)
      invariant lastError == if i == 0 then None else Some(RunAttempt(respond(strategies[i - 1])).error)
    {
      tried := tried + [strategies[i]];
      var outcome := RunAttempt(respond(strategies[i]));
      if outcome.Success? {
        assert FirstPassing(strategies, respond) == i;
        return Success(Downloaded(outcome.value, DataUrl.JpegPrefix + encode(outcome.value))), tried;
      }
      lastError := Some(outcome.error);
      i := i + 1;
    }
    r := Failure(AllMethodsFailed(lastError));
  }

  /** The strategies' timeouts never decrease along the list: 60, 60, 90, 120 seconds. */
  lemma TimeoutsNonDecreasing()
    ensures |Strategies| == 4
    ensures forall i, j :: 0 <= i <= j < |Strategies| ==> Strategies[i].timeout <= Strategies[j].timeout
  {
  }

  /** The download fails exactly when every strategy's attempt fails, and then it reports the last attempt's error. */
  lemma FailsOnlyWhenAllFail(strategies: seq<Strategy>, respond: Strategy -> AttemptReport, encode: Image -> string)
    ensures Download(strategies, respond, encode).Failure? <==> forall j :: 0 <= j < |strategies| ==> !Passes(strategies[j], respond)
    ensures Download(strategies, respond, encode).Failure? && |strategies| > 0 ==>
      Download(strategies, respond, encode).error.lastError == Some(RunAttempt(respond(strategies[|strategies| - 1])).error)
  {
  }

  /** Strategies after the first passing one make no difference: the cascade stops there. */
  lemma {:induction false} StopsAtFirstPass(strategies: seq<Strategy>, later: seq<Strategy>, respond: Strategy -> AttemptReport, encode: Image -> string)
    requires FirstPassing(strategies, respond) < |strategies|
    ensures Download(strategies + later, respond, encode) == Download(strategies, respond, encode)
  {
    FirstPassingPrefix(strategies, later, respond);
  }

  lemma {:induction false} FirstPassingPrefix(strategies: seq<Strategy>, later: seq<Strategy>, respond: Strategy -> AttemptReport)
    requires FirstPassing(strategies, respond) < |strategies|
    ensures FirstPassing(strategies + later, respond) == FirstPassing(strategies, respond)
  {
    if !Passes(strategies[0], respond) {
      assert (strategies + later)[1..] == strategies[1..] + later;
      FirstPassingPrefix(strategies[1..], later, respond);
    }
  }

  /** Whatever the responses, a successful download returns an RGB image within 2048 x 2048 wrapped as a JPEG data URL. */
  lemma SuccessIsCanonical(strategies: seq<Strategy>, respond: Strategy -> AttemptReport, encode: Image -> string)
    requires Download(strategies, respond, encode).Success?
    ensures IsCanonical(Download(strategies, respond, encode).value.image)
    ensures Download(strategies, respond, encode).value.dataUrl == DataUrl.JpegPrefix + encode(Download(strategies, respond, encode).value.image)
  {
  }

  /** A successful download carries the normalised image of the first strategy whose attempt passes. */
  lemma FirstPassWins(strategies: seq<Strategy>, respond: Strategy -> AttemptReport, encode: Image -> string)
    requires Download(strategies, respond, encode).Success?
    ensures FirstPassing(strategies, respond) < |strategies|
    ensures Download(strategies, respond, encode).value.image
         == RunAttempt(respond(strategies[FirstPassing(strategies, respond)])).value
  {
  }

  /**
   * When the first passing reply decodes to an image within 2048 x 2048, the download returns that
   * image's size in RGB: the source skips `thumbnail` for it.
   */
  lemma DownloadKeepsSmallSize(strategies: seq<Strategy>, respond: Strategy -> AttemptReport, encode: Image -> string)
    requires Download(strategies, respond, encode).Success?
    requires var report := respond(strategies[FirstPassing(strategies, respond)]);
      report.Received? && report.decoded.Some?
      && report.decoded.value.width <= MaxDimension && report.decoded.value.height <= MaxDimension
    ensures var decoded := respond(strategies[FirstPassing(strategies, respond)]).decoded.value;
      Download(strategies, respond, encode).value.image == Image("RGB", decoded.width, decoded.height)
  {
    FirstPassWins(strategies, respond, encode);
  }

  /** The size threshold is inclusive: a decodable 1024-byte payload with status 200 passes, a 1023-byte one does not. */
  lemma SizeThresholdBoundary(img: Image)
    ensures RunAttempt(Received(200, 1024, Some(img))).Success?
    ensures RunAttempt(Received(200, 1023, Some(img))) == Failure(TooSmall(1023))
  {
  }

  /** An image already within 2048 x 2048 keeps its size; an RGB one is returned unchanged. */
  lemma SmallImageKeepsSize(report: AttemptReport)
    requires RunAttempt(report).Success?
    requires report.decoded.value.width <= MaxDimension && report.decoded.value.height <= MaxDimension
    ensures RunAttempt(report).value.width == report.decoded.value.width
    ensures RunAttempt(report).value.height == report.decoded.value.height
  {
  }
}
