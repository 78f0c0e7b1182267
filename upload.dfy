/**
 * The upload middleware: files must be JSON, at most 5 MiB and one per
 * request, and every upload error becomes an error envelope whose `code` is
 * the HTTP status sent.
 */
module Upload {
  import opened Wrappers
  import opened Json
  import opened Http
  import opened Response

  const MaxFileSize := 5 * 1024 * 1024
  const MaxFiles := 1
  const JsonMime := "application/json"
  const FieldName := "file"

  const OnlyJson := "Only JSON files are allowed"
  const TooLarge := "File size too large. Maximum size is 5MB"
  const TooMany := "Too many files. Only one file is allowed"
  const UploadFailed := "File upload error"
  const InternalUploadError := "Internal server error during file upload"

  /** One file part of a multipart body: its form field, declared type, size in bytes and text. */
  datatype FilePart = FilePart(field: string, mimetype: string, size: nat, text: string)

  /** An upload error: one of multer's own errors (by code), or any other error (by message). */
  datatype UploadError = MulterError(code: string) | OtherError(message: string)

  /** `fileFilter`: a file is accepted exactly when its declared type is JSON. */
  function FileFilter(mimetype: string): (r: Result<bool, UploadError>)
    ensures r.Ok? <==> mimetype == JsonMime
    ensures r.Ok? ==> r.value
    ensures r.Err? ==> r.error == OtherError(OnlyJson)
  {
    if mimetype == JsonMime then Ok(true) else Err(OtherError(OnlyJson))
  }

  /**
   * `upload.single("file")` with the filter and limits above: the file that
   * reaches the controller, or the error handed to `handleUploadError`. The
   * first part is filtered, then its size is checked, then the number of parts.
   */
  function Receive(parts: seq<FilePart>): (r: Result<Option<FilePart>, UploadError>)
    ensures r.Ok? && r.value.Some? ==>
              |parts| == 1 && r.value.value == parts[0] &&
              parts[0].mimetype == JsonMime && parts[0].size <= MaxFileSize
    ensures r.Ok? && r.value.None? <==> parts == []
    ensures (parts != [] && parts[0].field == FieldName && parts[0].mimetype == JsonMime &&
             parts[0].size > MaxFileSize) ==> r == Err(MulterError("LIMIT_FILE_SIZE"))
    ensures (|parts| == 1 && parts[0].field == FieldName && parts[0].mimetype == JsonMime &&
             parts[0].size <= MaxFileSize) ==> r == Ok(Some(parts[0]))
    ensures (|parts| > 1 && parts[0].field == FieldName && parts[0].mimetype == JsonMime &&
             parts[0].size <= MaxFileSize) ==> r == Err(MulterError("LIMIT_FILE_COUNT"))
    ensures (parts != [] && parts[0].field == FieldName && parts[0].mimetype != JsonMime) ==> r == Err(OtherError(OnlyJson))
    ensures (parts != [] && parts[0].field != FieldName) ==> r == Err(MulterError("LIMIT_UNEXPECTED_FILE"))
  {
    if parts == [] then Ok(None)
    else
      var first := parts[0];
      if first.field != FieldName then Err(MulterError("LIMIT_UNEXPECTED_FILE"))
      else match FileFilter(first.mimetype)
        case Err(e) => Err(e)
        case Ok(_) =>
          if first.size > MaxFileSize then Err(MulterError("LIMIT_FILE_SIZE"))
          else if |parts| > MaxFiles then Err(MulterError("LIMIT_FILE_COUNT"))
          else Ok(Some(first))
  }

  /** The message and status `handleUploadError` answers an error with. */
  function Classify(err: UploadError): (r: (string, int))
    ensures r.1 == 400 || r.1 == 500
    ensures r.1 == 500 <==> err.OtherError? && err.message != OnlyJson
    ensures err.MulterError? ==> r.1 == 400 && r.0 == (if err.code == "LIMIT_FILE_SIZE" then TooLarge
                                                       else if err.code == "LIMIT_FILE_COUNT" then TooMany
                                                       else UploadFailed)
    ensures err.OtherError? && err.message == OnlyJson ==> r == (OnlyJson, 400)
  {
    match err
    case MulterError(code) =>
      if code == "LIMIT_FILE_SIZE" then (TooLarge, 400)
      else if code == "LIMIT_FILE_COUNT" then (TooMany, 400)
      else (UploadFailed, 400)
    case OtherError(message) =>
      if message == OnlyJson then (OnlyJson, 400)
      else (InternalUploadError, 500)
  }

  /** `handleUploadError`: status from the classification, and the error envelope as the body. */
  function HandleUploadError(err: UploadError): (r: Reply)
    ensures r.status == Classify(err).1
    ensures r.body == ErrorResponse(Classify(err).0, Classify(err).1)
  {
    var (message, status) := Classify(err);
    Reply(status, ErrorResponse(message, status))
  }

  /** Every upload error reply is `{status: "error", message, code}` with `code` the status sent. */
  lemma UploadErrorEnvelope(err: UploadError)
    ensures var r := HandleUploadError(err);
            r.body.fields == [Field("status", JStr("error")), Field("message", JStr(Classify(err).0)),
                              Field("code", JNum(r.status))]
  {
    ErrorResponseDefault(Classify(err).0, Classify(err).1);
  }

  /** A plain-text file is refused with 400 and the filter's message. */
  lemma RejectsNonJson()
    ensures var r := Receive([FilePart(FieldName, "text/plain", 15, "not a json file")]);
            r.Err? && HandleUploadError(r.error).status == 400 &&
            Classify(r.error).0 == OnlyJson
  {
  }

  /** A 6 MiB JSON file is refused with 400 and the size message. */
  lemma RejectsLargeFile()
    ensures var r := Receive([FilePart(FieldName, JsonMime, 6 * 1024 * 1024, "")]);
            r.Err? && HandleUploadError(r.error).status == 400 &&
            Classify(r.error).0 == TooLarge
  {
  }

  /** Two JSON files are refused with 400 and the file-count message. */
  lemma RejectsSecondFile(p: FilePart)
    requires p.field == FieldName && p.mimetype == JsonMime && p.size <= MaxFileSize
    ensures var r := Receive([p, p]);
            r.Err? && HandleUploadError(r.error).status == 400 &&
            Classify(r.error).0 == TooMany
  {
  }
}
