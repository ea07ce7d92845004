/** Bearer-token parsing and the 401 responses of nextgen/src/main.rs. */
module Auth {
  import opened Wrappers
  import opened Rust
  import opened Http

  const SessionExpiredHeader: string := "X-Session-Expired"
  const WwwAuthInvalid: string := "Bearer error=\"invalid_token\""
  const WwwAuthExpired: string := "Bearer error=\"invalid_token\", error_description=\"session expired\""

  /** The scheme: the text before the header's first space, trimmed. */
  function SchemePart(header: string): string
    requires ' ' in header
  {
    Trim(header[..IndexOf(header, ' ')])
  }

  /** The credentials: the text after the header's first space, trimmed. */
  function TokenPart(header: string): string
    requires ' ' in header
  {
    Trim(header[IndexOf(header, ' ') + 1..])
  }

  /**
   * `extract_bearer_token`: the header is cut at its first space; the part in
   * front, trimmed, must be "bearer" in any ASCII case, and the rest, trimmed,
   * is the token, which must not be empty.
   */
  function ExtractBearerToken(header: string): (r: Option<string>)
    ensures ' ' !in header ==> r.None?
    ensures r.Some? <==>
      (' ' in header && EqIgnoreAsciiCase(SchemePart(header), "bearer") && TokenPart(header) != [])
    ensures r.Some? ==> r.value == TokenPart(header)
  {
    if ' ' !in header then None
    else if EqIgnoreAsciiCase(SchemePart(header), "bearer") && TokenPart(header) != [] then
      Some(TokenPart(header))
    else None
  }

  /** A scheme spelled "bearer" in any case holds no space and no surrounding whitespace. */
  lemma BearerSchemeIsTrimmed(scheme: string)
    requires EqIgnoreAsciiCase(scheme, "bearer")
    ensures ' ' !in scheme && Trim(scheme) == scheme
  {
    forall k | 0 <= k < |scheme| ensures scheme[k] != ' ' {
      assert AsciiLower(scheme[k]) == "bearer"[k];
    }
    assert AsciiLower(scheme[0]) == 'b' && AsciiLower(scheme[5]) == 'r';
  }

  /** A scheme spelled "bearer" in any case, a space and a token without surrounding whitespace give the token back. */
  lemma BearerTokenRoundTrip(scheme: string, token: string)
    requires EqIgnoreAsciiCase(scheme, "bearer")
    requires token != [] && !IsWhitespace(token[0]) && !IsWhitespace(token[|token| - 1])
    ensures ExtractBearerToken(scheme + " " + token) == Some(token)
  {
    var header := scheme + " " + token;
    BearerSchemeIsTrimmed(scheme);
    IndexOfAfterPrefix(scheme, ' ', token);
    assert header[..|scheme|] == scheme;
    assert header[|scheme| + 1..] == token;
    assert SchemePart(header) == scheme;
    assert TokenPart(header) == token;
  }

  /** A header that starts with a space has an empty scheme and is refused. */
  lemma LeadingSpaceIsRefused(rest: string)
    ensures ExtractBearerToken(" " + rest) == None
  {
    var header := " " + rest;
    assert header[0] == ' ';
    assert header[..0] == [];
  }

  /** The credentials part is a slice of the header, found at `start`. */
  lemma TokenPartIsSlice(header: string) returns (start: nat)
    requires ' ' in header
    ensures SliceAt(header, start, TokenPart(header))
  {
    var off := IndexOf(header, ' ') + 1;
    TrimmedSuffixSliceAt(header, off);
    start := off + LeadingWhitespace(header[off..]);
  }

  /** The token is a slice of the header, found at `start`. */
  lemma ExtractedTokenIsSlice(header: string) returns (start: nat)
    requires ExtractBearerToken(header).Some?
    ensures SliceAt(header, start, ExtractBearerToken(header).value)
  {
    start := TokenPartIsSlice(header);
  }

  /** `AuthorizationFailure`. */
  datatype AuthorizationFailure = Missing | Invalid | Expired

  /**
   * `respond_unauthorized`: 401 in every case; an expired session is told
   * apart by its WWW-Authenticate text and an X-Session-Expired header.
   */
  function RespondUnauthorized(failure: AuthorizationFailure): (r: Response)
    ensures r.status == 401 && r.contentType == Some("text/plain")
    ensures failure.Expired? <==> (SessionExpiredHeader, "1") in r.headers
    ensures failure.Expired? ==> r.body == Text("Session expired") && ("WWW-Authenticate", WwwAuthExpired) in r.headers
    ensures !failure.Expired? ==> r.headers == [("WWW-Authenticate", WwwAuthInvalid)] && r.body == Text("Unauthorized")
  {
    match failure
    case Missing | Invalid =>
      Response(401, Some("text/plain"), [("WWW-Authenticate", WwwAuthInvalid)], Text("Unauthorized"))
    case Expired =>
      Response(401, Some("text/plain"),
        [("WWW-Authenticate", WwwAuthExpired), (SessionExpiredHeader, "1")], Text("Session expired"))
  }
}
