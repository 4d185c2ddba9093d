/**
 * Materialising generated images: `base64_to_image_file` writes a payload to a scratch file
 * named from a timestamp and a uuid, `upload_to_gcs` uploads it under "history_redesign/"
 * and returns its public URL, and the routes run both over a batch, dropping the payloads
 * for which either step returns `None`. Decoding and uploading are oracles.
 */
module Storage {
  import opened Wrappers
  import opened Strings
  import Lists
  import DataUrl

  const UploadFolder: string := "generated_images"
  const BlobFolder: string := "history_redesign/"
  /** `str(uuid.uuid4())[:8]` */
  const UuidPrefixLength: nat := 8

  /** Python's `s[:n]`. */
  function Take(s: string, n: nat): (r: string)
    ensures |r| == if |s| <= n then |s| else n
    ensures r == s[..|r|]
  {
    if |s| <= n then s else s[..n]
  }

  /** `f"generated_{timestamp}_{unique_id}.png"` with the uuid cut to 8 characters. */
  function ScratchFilename(timestamp: string, uuid: string): (name: string)
    ensures StartsWith(name, "generated_") && EndsWith(name, ".png")
    ensures |name| == |timestamp| + |Take(uuid, UuidPrefixLength)| + 15
    ensures '/' !in timestamp && '/' !in uuid ==> '/' !in name
  {
    "generated_" + timestamp + "_" + Take(uuid, UuidPrefixLength) + ".png"
  }

  /** `os.path.join(directory, name)` on POSIX for one relative or absolute component. */
  function JoinPath(directory: string, name: string): (path: string)
    ensures EndsWith(path, name)
    ensures StartsWith(name, "/") ==> path == name
    ensures !StartsWith(name, "/") ==> StartsWith(path, directory)
  {
    if StartsWith(name, "/") then name
    else if directory == [] || EndsWith(directory, "/") then directory + name
    else directory + "/" + name
  }

  /** `os.path.basename(path)`: the text after the last '/'. */
  function Basename(path: string): (base: string)
    ensures '/' !in base
    ensures EndsWith(path, base)
    ensures base == path || path[|path| - |base| - 1] == '/'
  {
    if path == [] || path[|path| - 1] == '/' then []
    else Basename(path[..|path| - 1]) + [path[|path| - 1]]
  }

  /** `destination_blob_name or f"history_redesign/{filename}"`: an empty or missing destination falls back to the folder rule. */
  function BlobName(localPath: string, destination: Option<string>): (name: string)
    ensures destination.None? || destination.value == [] ==> name == BlobFolder + Basename(localPath)
    ensures destination.Some? && destination.value != [] ==> name == destination.value
  {
    if destination.Some? && destination.value != [] then destination.value
    else BlobFolder + Basename(localPath)
  }

  /** The basename of a path that ends in '/' followed by a name without '/' is that name. */
  lemma {:induction false} BasenameAfterSlash(directory: string, name: string)
    requires '/' !in name
    ensures Basename(directory + "/" + name) == name
  {
    if name == [] {
      assert directory + "/" + name == directory + "/";
    } else {
      var p := directory + "/" + name;
      var init := name[..|name| - 1];
      assert p[..|p| - 1] == directory + "/" + init;
      BasenameAfterSlash(directory, init);
      assert init + [name[|name| - 1]] == name;
    }
  }

  /** Joining a directory and a plain file name, then taking the basename, gives the file name back. */
  lemma BasenameOfJoin(directory: string, name: string)
    requires '/' !in name && directory != [] && !EndsWith(directory, "/")
    ensures Basename(JoinPath(directory, name)) == name
  {
    BasenameAfterSlash(directory, name);
  }

  /** A scratch file written under "generated_images" is uploaded as "history_redesign/" + its file name. */
  lemma ScratchFileBlobName(timestamp: string, uuid: string)
    requires '/' !in timestamp && '/' !in uuid
    ensures BlobName(JoinPath(UploadFolder, ScratchFilename(timestamp, uuid)), None)
         == BlobFolder + ScratchFilename(timestamp, uuid)
  {
    BasenameOfJoin(UploadFolder, ScratchFilename(timestamp, uuid));
  }

  /** Two scratch names with equally long timestamps collide only when the timestamps and the uuids' first 8 characters agree. */
  lemma ScratchNamesCollideOnlyOnSameStampAndId(ts1: string, uuid1: string, ts2: string, uuid2: string)
    requires |ts1| == |ts2|
    requires ScratchFilename(ts1, uuid1) == ScratchFilename(ts2, uuid2)
    ensures ts1 == ts2 && Take(uuid1, UuidPrefixLength) == Take(uuid2, UuidPrefixLength)
  {
    var n1 := ScratchFilename(ts1, uuid1);
    var n2 := ScratchFilename(ts2, uuid2);
    var t1 := Take(uuid1, UuidPrefixLength);
    var t2 := Take(uuid2, UuidPrefixLength);
    assert n1[10..10 + |ts1|] == ts1;
    assert n2[10..10 + |ts2|] == ts2;
    assert |t1| == |t2|;
    assert n1[11 + |ts1|..11 + |ts1| + |t1|] == t1;
    assert n2[11 + |ts2|..11 + |ts2| + |t2|] == t2;
  }

  /** Python truthiness of an optional string: present and non-empty. */
  predicate Truthy(s: Option<string>)
  {
    s.Some? && s.value != []
  }

  /** One payload: decode to a scratch file, then upload it; nothing when either step's result is falsy. */
  function MaterializeOne<P>(payload: P, decodeToFile: P -> Option<string>, upload: string -> Option<string>): (url: Option<string>)
    ensures url.Some? <==> Truthy(decodeToFile(payload)) && Truthy(upload(decodeToFile(payload).value))
    ensures url.Some? ==> url.value != [] && upload(decodeToFile(payload).value) == url
  {
    match decodeToFile(payload)
    case None => None
    case Some(localPath) =>
      if localPath == [] then None
      else if Truthy(upload(localPath)) then upload(localPath) else None
  }

  /** `MaterializeOne` as the element step of a filter-map. */
  function Step<P>(decodeToFile: P -> Option<string>, upload: string -> Option<string>): P -> Option<string>
  {
    p => MaterializeOne(p, decodeToFile, upload)
  }

  /** The public URLs a batch yields: the successful payloads' URLs, in payload order. */
  function Materialized<P>(payloads: seq<P>, decodeToFile: P -> Option<string>, upload: string -> Option<string>): (urls: seq<string>)
    ensures |urls| <= |payloads|
  {
    Lists.Keep(payloads, Step(decodeToFile, upload))
  }

  /** The loop building `public_urls` in `generate_image_api` and `generate_image_from_prompt`. */
  method MaterializeBatch<P>(payloads: seq<P>, decodeToFile: P -> Option<string>, upload: string -> Option<string>)
    returns (publicUrls: seq<string>)
    ensures publicUrls == Materialized(payloads, decodeToFile, upload)
    ensures |publicUrls| <= |payloads|
  {
    publicUrls := [];
    for i := 0 to |payloads|
      invariant publicUrls == Materialized(payloads[..i], decodeToFile, upload)
    {
      Lists.KeepAppend(payloads[..i], [payloads[i]], Step(decodeToFile, upload));
      Lists.KeepSingle(payloads[i], Step(decodeToFile, upload));
      assert payloads[..i + 1] == payloads[..i] + [payloads[i]];
      var localPath := decodeToFile(payloads[i]);
      if localPath.Some? && localPath.value != [] {
        var url := upload(localPath.value);
        if url.Some? && url.value != [] {
          publicUrls := publicUrls + [url.value];
        }
      }
    }
    assert payloads[..|payloads|] == payloads;
  }

  /** One failing payload is dropped and the payloads after it are still materialised, in order. */
  lemma FailureDropsOnlyThatPayload<P>(before: seq<P>, failing: P, after: seq<P>,
                                       decodeToFile: P -> Option<string>, upload: string -> Option<string>)
    requires MaterializeOne(failing, decodeToFile, upload).None?
    ensures Materialized(before + [failing] + after, decodeToFile, upload)
         == Materialized(before, decodeToFile, upload) + Materialized(after, decodeToFile, upload)
  {
    Lists.DropOne(before, failing, after, Step(decodeToFile, upload));
  }

  /** Every URL in the batch's result is the upload of a payload whose decode and upload both succeeded. */
  lemma EveryUrlFromASuccess<P>(payloads: seq<P>, decodeToFile: P -> Option<string>, upload: string -> Option<string>, k: nat)
    requires k < |Materialized(payloads, decodeToFile, upload)|
    ensures Materialized(payloads, decodeToFile, upload)[k] != []
    ensures exists i ::
              && 0 <= i < |payloads| && decodeToFile(payloads[i]).Some?
              && upload(decodeToFile(payloads[i]).value) == Some(Materialized(payloads, decodeToFile, upload)[k])
  {
    Lists.KeepSound(payloads, Step(decodeToFile, upload), k);
    var i :| 0 <= i < |payloads| && Step(decodeToFile, upload)(payloads[i]) == Some(Materialized(payloads, decodeToFile, upload)[k]);
    assert decodeToFile(payloads[i]).Some?;
  }

  /** Every payload whose decode and upload both succeed contributes its URL. */
  lemma EverySuccessKept<P>(payloads: seq<P>, decodeToFile: P -> Option<string>, upload: string -> Option<string>, i: nat)
    requires i < |payloads| && MaterializeOne(payloads[i], decodeToFile, upload).Some?
    ensures MaterializeOne(payloads[i], decodeToFile, upload).value in Materialized(payloads, decodeToFile, upload)
  {
    Lists.KeepComplete(payloads, Step(decodeToFile, upload), i);
  }

  /** Five payloads of which the third fails: four URLs, the other payloads' URLs in their order. */
  lemma FiveWithThirdFailing<P>(payloads: seq<P>, decodeToFile: P -> Option<string>, upload: string -> Option<string>)
    requires |payloads| == 5
    requires MaterializeOne(payloads[2], decodeToFile, upload).None?
    requires forall i :: 0 <= i < 5 && i != 2 ==> MaterializeOne(payloads[i], decodeToFile, upload).Some?
    ensures Materialized(payloads, decodeToFile, upload) ==
      [ MaterializeOne(payloads[0], decodeToFile, upload).value, MaterializeOne(payloads[1], decodeToFile, upload).value,
        MaterializeOne(payloads[3], decodeToFile, upload).value, MaterializeOne(payloads[4], decodeToFile, upload).value ]
  {
    assert payloads == payloads[..2] + [payloads[2]] + payloads[3..];
    FailureDropsOnlyThatPayload(payloads[..2], payloads[2], payloads[3..], decodeToFile, upload);
    var g := Step(decodeToFile, upload);
    Lists.KeepAll(payloads[..2], g);
    Lists.KeepAll(payloads[3..], g);
  }

  /**
   * `upload_cropped_image`: strip the data URL header, decode, upload. The route hands the path to
   * `upload_to_gcs` without testing it; for a `None` path that call fails inside its own `try` and
   * returns `None`. Only a truthy public URL is answered with success.
   */
  function UploadCroppedImage(imageBase64: string, decodeToFile: string -> Option<string>, upload: string -> Option<string>): (url: Option<string>)
    ensures url.Some? ==> url.value != []
    ensures decodeToFile(DataUrl.StripHeader(imageBase64)) != Some([]) ==>
      Materialized([DataUrl.StripHeader(imageBase64)], decodeToFile, upload) == if url.Some? then [url.value] else []
  {
    var payload := DataUrl.StripHeader(imageBase64);
    Lists.KeepSingle(payload, Step(decodeToFile, upload));
    var publicUrl := match decodeToFile(payload) case None => None case Some(localPath) => upload(localPath);
    if Truthy(publicUrl) then publicUrl else None
  }

  /** A cropped image sent as a data URL is materialised from exactly its payload. */
  lemma CroppedDataUrlUsesPayload(prefix: string, payload: string, decodeToFile: string -> Option<string>, upload: string -> Option<string>)
    requires DataUrl.IsHeader(prefix) && ',' !in payload
    ensures UploadCroppedImage(DataUrl.Wrap(prefix, payload), decodeToFile, upload) == UploadCroppedImage(payload, decodeToFile, upload)
    ensures decodeToFile(payload) != Some([]) ==>
      UploadCroppedImage(DataUrl.Wrap(prefix, payload), decodeToFile, upload) == MaterializeOne(payload, decodeToFile, upload)
  {
    DataUrl.StripHeaderWrap(prefix, payload);
  }
}
