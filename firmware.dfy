/** Firmware upload checks of nextgen/src/main.rs; the image itself is only hashed, never flashed. */
module Firmware {
  import opened Wrappers
  import opened Rust
  import opened Hex
  import opened Crypto

  /** `MAX_FIRMWARE_SIZE`: 2 MiB. */
  const MaxFirmwareSize: nat := 2 * 1024 * 1024
  const OctetStream: string := "application/octet-stream"

  /** SHA-256 of a byte string; a parameter of the model. */
  type Sha256 = seq<byte> -> Bytes32

  datatype FirmwareValidationError = Empty | TooLarge(size: nat)
  {
    /** `FirmwareValidationError::message`. */
    function Message(): (m: string)
      ensures m == (if Empty? then "Firmware image cannot be empty" else "Firmware image exceeds 2 MiB limit")
    {
      match this
      case Empty => "Firmware image cannot be empty"
      case TooLarge(_) => "Firmware image exceeds 2 MiB limit"
    }
  }

  /** `FirmwareInfo`: what the device reports about the last upload. */
  datatype FirmwareInfo = FirmwareInfo(sha256: string, size: nat, uploadedAt: Option<string>, staged: bool)

  /** `enforce_firmware_constraints`: between one byte and 2 MiB inclusive. */
  function EnforceFirmwareConstraints(len: nat): (r: Result<(), FirmwareValidationError>)
    ensures r.Ok? <==> 0 < len <= MaxFirmwareSize
    ensures r == Err(Empty) <==> len == 0
    ensures r.Err? && r.error.TooLarge? ==> r.error.size == len && len > MaxFirmwareSize
  {
    if len == 0 then Err(Empty)
    else if len > MaxFirmwareSize then Err(TooLarge(len))
    else Ok(())
  }

  /** The `firmware_constraints_enforce_limits` test. */
  lemma FirmwareConstraintsEnforceLimits()
    ensures EnforceFirmwareConstraints(0) == Err(Empty)
    ensures EnforceFirmwareConstraints(MaxFirmwareSize + 1) == Err(TooLarge(MaxFirmwareSize + 1))
    ensures EnforceFirmwareConstraints(MaxFirmwareSize) == Ok(())
  {
  }

  /**
   * `build_firmware_metadata`: the digest as hex text, the size, the upload
   * time (`now_rfc3339()`, a parameter here) and not staged.
   */
  function BuildFirmwareMetadata(len: nat, digest: Bytes32, uploadedAt: string): (info: FirmwareInfo)
    ensures HexDecode(info.sha256) == Ok(digest) && |info.sha256| == 64
    ensures info.size == len && info.uploadedAt == Some(uploadedAt) && !info.staged
  {
    HexRoundTrip(digest);
    FirmwareInfo(HexEncode(digest), len, Some(uploadedAt), false)
  }

  /**
   * `is_octet_stream`: the media type before any ';', trimmed, is
   * application/octet-stream up to ASCII case; no header is a refusal.
   */
  function IsOctetStream(contentType: Option<string>): (r: bool)
    ensures r ==> contentType.Some?
    ensures r ==> EqIgnoreAsciiCase(Trim(Split(contentType.value, ';')[0]), OctetStream)
  {
    match contentType
    case None => false
    case Some(value) => EqIgnoreAsciiCase(Trim(Split(value, ';')[0]), OctetStream)
  }

  /** Parameters after the first ';' never change the verdict. */
  lemma OctetStreamIgnoresParameters(media: string, parameters: string)
    requires ';' !in media
    ensures IsOctetStream(Some(media + ";" + parameters)) == IsOctetStream(Some(media))
  {
    SplitCons(media, ';', parameters);
    SplitWithoutSeparator(media, ';');
  }

  /**
   * A media type that trims to application/octet-stream in any ASCII case is
   * accepted, alone or followed by parameters.
   */
  lemma OctetStreamIsAccepted(media: string, parameters: string)
    requires ';' !in media && EqIgnoreAsciiCase(Trim(media), OctetStream)
    ensures IsOctetStream(Some(media))
    ensures IsOctetStream(Some(media + ";" + parameters))
  {
    SplitWithoutSeparator(media, ';');
    OctetStreamIgnoresParameters(media, parameters);
  }

  /**
   * A media type whose trimmed text is not as long as application/octet-stream
   * is refused, whatever parameters follow it.
   */
  lemma OtherMediaTypeIsRefused(media: string, parameters: string)
    requires ';' !in media && |Trim(media)| != |OctetStream|
    ensures !IsOctetStream(Some(media))
    ensures !IsOctetStream(Some(media + ";" + parameters))
  {
    SplitWithoutSeparator(media, ';');
    OctetStreamIgnoresParameters(media, parameters);
  }

  /** No header, or application/json, is refused. */
  lemma OtherContentTypesAreRefused()
    ensures !IsOctetStream(None)
    ensures !IsOctetStream(Some("application/json"))
  {
    var json: string := "application/json";
    assert json[0] == 'a' && json[|json| - 1] == 'n';
    assert forall i :: 0 <= i < |json| ==> json[i] != ';';
    OtherMediaTypeIsRefused(json, "");
  }

  /**
   * The bytes the upload loop collects from successive chunks: everything up to
   * the first empty read (the end of the body).
   */
  function Payload(chunks: seq<seq<byte>>): (p: seq<byte>)
    ensures (forall k :: 0 <= k < |chunks| ==> chunks[k] == []) ==> p == []
  {
    if chunks == [] || chunks[0] == [] then [] else chunks[0] + Payload(chunks[1..])
  }

  /**
   * The outcome of the upload loop having collected `payload` with `chunks`
   * still to come: a read that takes the total above the limit stops the loop
   * with that total; the end of the body checks the total once more.
   */
  function UploadFrom(payload: seq<byte>, chunks: seq<seq<byte>>, sha: Sha256, uploadedAt: string)
    : Result<FirmwareInfo, FirmwareValidationError>
    decreases |chunks|
  {
    if chunks == [] || chunks[0] == [] then
      match EnforceFirmwareConstraints(|payload|)
      case Err(e) => Err(e)
      case Ok(_) => Ok(BuildFirmwareMetadata(|payload|, sha(payload), uploadedAt))
    else
      var next := payload + chunks[0];
      if |next| > MaxFirmwareSize then Err(TooLarge(|next|))
      else UploadFrom(next, chunks[1..], sha, uploadedAt)
  }

  lemma {:induction false} UploadFromMeaning(payload: seq<byte>, chunks: seq<seq<byte>>, sha: Sha256, uploadedAt: string)
    requires |payload| <= MaxFirmwareSize
    ensures var whole := payload + Payload(chunks);
      var r := UploadFrom(payload, chunks, sha, uploadedAt);
      (|whole| == 0 ==> r == Err(Empty))
      && (0 < |whole| <= MaxFirmwareSize ==> r == Ok(BuildFirmwareMetadata(|whole|, sha(whole), uploadedAt)))
      && (|whole| > MaxFirmwareSize ==> r.Err? && r.error.TooLarge? && MaxFirmwareSize < r.error.size <= |whole|)
    decreases |chunks|
  {
    if chunks == [] || chunks[0] == [] {
      assert payload + Payload(chunks) == payload;
    } else {
      var next := payload + chunks[0];
      assert payload + Payload(chunks) == next + Payload(chunks[1..]);
      if |next| <= MaxFirmwareSize {
        UploadFromMeaning(next, chunks[1..], sha, uploadedAt);
      }
    }
  }

  /**
   * What `handle_firmware_upload` makes of a body: metadata for the whole
   * payload when it is 1 byte to 2 MiB, `Empty` for an empty body, and
   * `TooLarge` (with a size above the limit) otherwise.
   */
  lemma UploadOutcome(chunks: seq<seq<byte>>, sha: Sha256, uploadedAt: string)
    ensures var whole := Payload(chunks);
      var r := UploadFrom([], chunks, sha, uploadedAt);
      (|whole| == 0 ==> r == Err(Empty))
      && (0 < |whole| <= MaxFirmwareSize ==> r == Ok(BuildFirmwareMetadata(|whole|, sha(whole), uploadedAt)))
      && (|whole| > MaxFirmwareSize ==> r.Err? && r.error.TooLarge? && MaxFirmwareSize < r.error.size <= |whole|)
  {
    UploadFromMeaning([], chunks, sha, uploadedAt);
    assert [] + Payload(chunks) == Payload(chunks);
  }

  /**
   * The read loop of `handle_firmware_upload`. `chunks` are the successive
   * results of `req.read` into the 4096-byte buffer; reading past them gives 0.
   */
  method ReceiveUpload(chunks: seq<seq<byte>>, sha: Sha256, uploadedAt: string)
    returns (r: Result<FirmwareInfo, FirmwareValidationError>)
    ensures r == UploadFrom([], chunks, sha, uploadedAt)
  {
    var payload: seq<byte> := [];
    var i := 0;
    while i < |chunks| && chunks[i] != []
      invariant 0 <= i <= |chunks|
      invariant |payload| <= MaxFirmwareSize
      invariant UploadFrom(payload, chunks[i..], sha, uploadedAt) == UploadFrom([], chunks, sha, uploadedAt)
    {
      assert chunks[i..][1..] == chunks[i + 1..];
      payload := payload + chunks[i];
      var check := EnforceFirmwareConstraints(|payload|);
      if check.Err? && check.error.TooLarge? {
        return Err(check.error);
      }
      i := i + 1;
    }
    var check := EnforceFirmwareConstraints(|payload|);
    if check.Err? {
      return Err(check.error);
    }
    var digest := sha(payload);
    r := Ok(BuildFirmwareMetadata(|payload|, digest, uploadedAt));
  }
}
