/**
 How `initiate_file_upload` and `upload_file` in batchexamupload.py turn the
 responses of the learning-management system into a value or an exception.
 The HTTP requests themselves are not modelled: each function takes the
 response that came back.
 */
module Remote {
  import opened Wrappers
  import opened Strings

  /** The exceptions the uploader can raise. Only `CanvasException` is caught
      by the batch loop; the others end the whole run. */
  datatype Exception =
    | CanvasException(message: string)
    | KeyError(key: string)   // a ticket without `upload_url` or `upload_params`
    | MalformedJson           // a body that cannot be read as a JSON object
    | IndexError              // an assignment link with fewer than two '/'

  /** A Python call either returns a value or raises an exception. */
  datatype Outcome<+T> = Returned(value: T) | Raised(exception: Exception)

  /** The JSON object the initiation call answers with; a key the service
      left out is `None`. */
  datatype Ticket = Ticket(uploadUrl: Option<string>, uploadParams: Option<map<string, string>>)

  /** The response to the initiation POST; `body` is `None` when it does not
      decode to a JSON object. */
  datatype InitResponse = InitResponse(status: int, body: Option<Ticket>)

  /** The JSON body of an upload response. The `id` is kept in its printed
      form; `None` stands for a missing key, which `.get('id')` turns into
      Python's `None`. */
  datatype UploadBody = NotJsonObject | JsonObject(id: Option<string>)

  /** The response to the upload POST as `upload_file` receives it: status,
      `Location` header (if any) and body. */
  datatype UploadResponse = UploadResponse(status: int, location: Option<string>, body: UploadBody)

  const InitiationFailed: string := "File upload initiation failed."
  const UploadFailed: string := "File upload failed."

  /** The statuses `upload_file` accepts: ok, created and found (redirect). */
  predicate UploadAccepted(status: int)
  {
    status == 200 || status == 201 || status == 302
  }

  /** `headers.get('Location')` is truthy: present and not empty. */
  predicate HasLocation(response: UploadResponse)
  {
    response.location.Some? && response.location.value != ""
  }

  /** `initiate_file_upload`: anything but 200 raises a `CanvasException`;
      otherwise the decoded JSON ticket is returned. */
  function InitiateFileUpload(response: InitResponse): (r: Outcome<Ticket>)
    ensures r.Returned? <==> response.status == 200 && response.body.Some?
    ensures r.Returned? ==> r.value == response.body.value
    ensures r == Raised(CanvasException(InitiationFailed)) <==> response.status != 200
    ensures r.Raised? && response.status == 200 ==> r.exception == MalformedJson
  {
    if response.status != 200 then Raised(CanvasException(InitiationFailed))
    else if response.body.None? then Raised(MalformedJson)
    else Returned(response.body.value)
  }

  /** The two lookups `process_upload` does on the ticket, in order:
      `['upload_url']` first, then `['upload_params']`. */
  function TicketFields(ticket: Ticket): (r: Outcome<(string, map<string, string>)>)
    ensures r.Returned? <==> ticket.uploadUrl.Some? && ticket.uploadParams.Some?
    ensures r.Returned? ==> r.value == (ticket.uploadUrl.value, ticket.uploadParams.value)
    ensures r.Raised? ==> r.exception.KeyError? && !r.exception.CanvasException?
    ensures r.Raised? ==> r.exception.key == if ticket.uploadUrl.None? then "upload_url" else "upload_params"
  {
    match ticket
    case Ticket(None, _) => Raised(KeyError("upload_url"))
    case Ticket(Some(_), None) => Raised(KeyError("upload_params"))
    case Ticket(Some(url), Some(params)) => Returned((url, params))
  }

  /** `upload_file`: a status other than 200, 201 or 302 raises a
      `CanvasException`. Otherwise the file id is the last '/'-segment of a
      non-empty `Location`, or else the JSON `id` (possibly `None`). */
  function UploadFile(response: UploadResponse): (r: Outcome<Option<string>>)
    ensures r == Raised(CanvasException(UploadFailed)) <==> !UploadAccepted(response.status)
    ensures r.Returned? <==> UploadAccepted(response.status) && (HasLocation(response) || response.body.JsonObject?)
    ensures r.Raised? && UploadAccepted(response.status) ==> r.exception == MalformedJson
    ensures r.Returned? && HasLocation(response) ==> r.value == Some(LastSegment(response.location.value, '/'))
    ensures r.Returned? && !HasLocation(response) ==> r.value == response.body.id
  {
    if !UploadAccepted(response.status) then Raised(CanvasException(UploadFailed))
    else if HasLocation(response) then Returned(Some(LastSegment(response.location.value, '/')))
    else if response.body.NotJsonObject? then Raised(MalformedJson)
    else Returned(response.body.id)
  }

  /** A file id read from `Location` contains no '/', ends the header, and is
      either the whole header or follows its last '/'. */
  lemma LocationFileId(response: UploadResponse)
    requires UploadAccepted(response.status) && HasLocation(response)
    ensures UploadFile(response).Returned? && UploadFile(response).value.Some?
    ensures var id := UploadFile(response).value.value;
            var loc := response.location.value;
            && '/' !in id
            && |id| <= |loc| && loc[|loc| - |id|..] == id
            && (|id| < |loc| ==> loc[|loc| - |id| - 1] == '/')
  {
    LastSegmentIsSuffix(response.location.value, '/');
  }

  /** Corollary of `UploadFile`: a missing or empty `Location` falls back
      to the JSON `id`. */
  lemma NoLocationFallsBackToJson(response: UploadResponse, id: Option<string>)
    requires UploadAccepted(response.status)
    requires response.location == None || response.location == Some("")
    requires response.body == JsonObject(id)
    ensures UploadFile(response) == Returned(id)
  {
  }

  /** A response with status 302 and `Location` https://x/files/555 yields
      file id "555". */
  lemma RedirectExample(dir: string, id: string)
    requires dir == "https://x/files" && id == "555"
    ensures UploadFile(UploadResponse(302, Some(dir + "/" + id), NotJsonObject)) == Returned(Some(id))
  {
    assert '/' !in id;
    SplitAround(dir, id, '/');
    SplitFree(id, '/');
  }
}
