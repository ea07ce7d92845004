/** The HTTP responses the handlers of nextgen/src/main.rs produce, as values. */
module Http {
  import opened Wrappers
  import opened Firmware

  /** Response bodies: plain text, or one of the JSON documents the handlers build. */
  datatype Body =
    | NoBody
    | Text(message: string)
    | ProvisionedBody(token: string, username: string, expiresInSeconds: int)
    | TokenBody(token: string, expiresInSeconds: int)
    | ProvisioningStatusBody(provisioned: bool, shownUsername: Option<string>)
    | RelayBody(state: string, lastChange: Option<string>)
    | FlagBody(name: string)
    | FirmwareBody(info: FirmwareInfo)

  datatype Response = Response(status: nat, contentType: Option<string>, headers: seq<(string, string)>, body: Body)

  /** `respond_error`: the message as plain text. */
  function RespondError(status: nat, message: string): (r: Response)
    ensures r.status == status && r.body == Text(message) && r.headers == []
  {
    Response(status, Some("text/plain"), [], Text(message))
  }

  /** `respond_json`; serialisation of these bodies cannot fail. */
  function RespondJson(status: nat, body: Body): (r: Response)
    ensures r.status == status && r.body == body && r.contentType == Some("application/json") && r.headers == []
  {
    Response(status, Some("application/json"), [], body)
  }

  /** `respond_empty`. */
  function RespondEmpty(status: nat): (r: Response)
    ensures r.status == status && r.body == NoBody && r.contentType == None && r.headers == []
  {
    Response(status, None, [], NoBody)
  }
}
