/**
 * The two request handlers of `index.mjs`: `POST /upload` validates its
 * JSON body, derives the object key and issues a put; `DELETE /upload`
 * validates its `s3Key` query parameter and issues a delete. Each handler
 * is a function from the request (and the backend's outcome) to the command
 * sent to the object store, if any, and the HTTP response.
 */
module Handlers {
  import opened JsText
  import opened StorageKey

  datatype Option<T> = None | Some(value: T)

  /** What the object store answered: success, or an error whose `message`
      the handler reports. */
  datatype Outcome = Ok | Err(message: JsString)

  /** The fields of the upload body; `None` is a field the body lacks. */
  datatype UploadBody = UploadBody(
    fileName: Option<JsString>,
    fileType: Option<JsString>,
    domainId: Option<JsString>,
    fileBase64: Option<JsString>)

  /** The parameters of `PutObjectCommand`. The payload is the base64 text;
      its decoding happens in the Node runtime and is not modelled. */
  datatype PutCommand = PutCommand(
    bucket: JsString,
    key: JsString,
    payload: JsString,
    contentType: JsString,
    contentDisposition: JsString)

  /** The parameters of `DeleteObjectCommand`. */
  datatype DeleteCommand = DeleteCommand(bucket: JsString, key: JsString)

  /** The JSON bodies the handlers send. */
  datatype ResponseBody =
    | ErrorBody(error: JsString)                    // { error }
    | FailureBody(error: JsString, details: JsString) // { error, details }
    | UploadSuccess(fileUrl: JsString, s3Key: JsString) // { success: true, fileUrl, s3Key }
    | DeleteSuccess                                // { success: true }

  datatype Response = Response(status: nat, body: ResponseBody)

  /** What a handler does for one request: the command it sends to the
      object store, if it sends one, and the response it returns. */
  datatype Handled<C> = Handled(command: Option<C>, response: Response)

  const MissingFields: JsString := Bmp("Missing required fields")
  const UploadFailed: JsString := Bmp("Upload failed")
  const MissingKey: JsString := Bmp("Missing s3Key")
  const DeleteFailed: JsString := Bmp("Delete failed")
  const Attachment: JsString := Bmp("attachment")

  /** JavaScript truthiness of a string field: present and not empty. */
  predicate Present(field: Option<JsString>) {
    field.Some? && field.value != []
  }

  /** The condition `!fileName || !fileType || !domainId || !fileBase64`. */
  predicate MissingField(body: UploadBody) {
    !Present(body.fileName) || !Present(body.fileType)
    || !Present(body.domainId) || !Present(body.fileBase64)
  }

  /** The put the upload handler issues for `body` at time `isoNow`, or none
      when a required field is missing. */
  function UploadCommand(body: UploadBody, isoNow: JsString, bucket: JsString): (r: Option<PutCommand>)
    ensures r.None? <==> MissingField(body)
    ensures r.Some? ==>
              && r.value.bucket == bucket
              && r.value.key == S3Key(body.domainId.value, isoNow, body.fileName.value)
              && r.value.payload == body.fileBase64.value
              && r.value.contentType == body.fileType.value
              && r.value.contentDisposition == Attachment
  {
    if MissingField(body) then None
    else Some(PutCommand(bucket, S3Key(body.domainId.value, isoNow, body.fileName.value),
                         body.fileBase64.value, body.fileType.value, Attachment))
  }

  /** `POST /upload`: a 400 without any put when a field is missing;
      otherwise the put, then `{ success, fileUrl, s3Key }` when the store
      accepts it or a 500 carrying the store's message when it fails. */
  function HandleUpload(body: UploadBody, isoNow: JsString, bucket: JsString, region: JsString,
                        outcome: Outcome): (h: Handled<PutCommand>)
    ensures h.command == UploadCommand(body, isoNow, bucket)
    ensures MissingField(body) ==> h.response == Response(400, ErrorBody(MissingFields))
    ensures !MissingField(body) && outcome.Ok? ==>
              var key := S3Key(body.domainId.value, isoNow, body.fileName.value);
              h.response == Response(200, UploadSuccess(FileUrl(bucket, region, key), key))
    ensures !MissingField(body) && outcome.Err? ==>
              h.response == Response(500, FailureBody(UploadFailed, outcome.message))
  {
    match UploadCommand(body, isoNow, bucket)
    case None => Handled(None, Response(400, ErrorBody(MissingFields)))
    case Some(put) =>
      var response := match outcome
        case Ok => Response(200, UploadSuccess(FileUrl(bucket, region, put.key), put.key))
        case Err(m) => Response(500, FailureBody(UploadFailed, m));
      Handled(Some(put), response)
  }

  /** The upload responds 400 exactly when a field is missing, 500 exactly
      when the fields are there and the store fails, and 200 otherwise. */
  lemma UploadStatus(body: UploadBody, isoNow: JsString, bucket: JsString, region: JsString, outcome: Outcome)
    ensures var status := HandleUpload(body, isoNow, bucket, region, outcome).response.status;
            && (status == 400 <==> MissingField(body))
            && (status == 500 <==> !MissingField(body) && outcome.Err?)
            && (status == 200 <==> !MissingField(body) && outcome.Ok?)
  {
  }

  /** A successful upload names the key it wrote: its `fileUrl` holds the
      bucket after `https://` and ends with `/` and `s3Key`, and the part of
      `s3Key` after its last `/` is the sanitised file name. */
  lemma UploadSuccessNamesKey(body: UploadBody, isoNow: JsString, bucket: JsString, region: JsString)
    requires !MissingField(body)
    ensures var h := HandleUpload(body, isoNow, bucket, region, Ok);
            && h.command.Some? && h.response.body.UploadSuccess?
            && h.response.body.s3Key == h.command.value.key
            && var url, key := h.response.body.fileUrl, h.response.body.s3Key;
               && |url| >= 9 + |bucket| + |key|
               && url[8..8 + |bucket|] == bucket
               && url[|url| - |key| - 1..] == [Slash] + key
               && SuffixAfterLast(key, Slash) == Sanitize(body.fileName.value)
  {
    S3KeyLastSegment(body.domainId.value, isoNow, body.fileName.value);
  }

  /** A failed put is answered with a 500 whose `details` are the store's
      message and whose body carries no success flag. */
  lemma UploadFailureDetails(body: UploadBody, isoNow: JsString, bucket: JsString, region: JsString, m: JsString)
    requires !MissingField(body)
    ensures var r := HandleUpload(body, isoNow, bucket, region, Err(m)).response;
            r.status == 500 && r.body.FailureBody? && r.body.details == m
  {
  }

  /** `DELETE /upload?s3Key=...`: a 400 without any delete when `s3Key` is
      missing or empty; otherwise a delete of exactly that key, unsanitised,
      then `{ success: true }` or a 500 carrying the store's message. */
  function HandleDelete(s3Key: Option<JsString>, bucket: JsString, outcome: Outcome): (h: Handled<DeleteCommand>)
    ensures h.command.None? <==> !Present(s3Key)
    ensures !Present(s3Key) ==> h.response == Response(400, ErrorBody(MissingKey))
    ensures Present(s3Key) ==> h.command == Some(DeleteCommand(bucket, s3Key.value))
    ensures Present(s3Key) && outcome.Ok? ==> h.response == Response(200, DeleteSuccess)
    ensures Present(s3Key) && outcome.Err? ==>
              h.response == Response(500, FailureBody(DeleteFailed, outcome.message))
  {
    if !Present(s3Key) then Handled(None, Response(400, ErrorBody(MissingKey)))
    else
      var response := match outcome
        case Ok => Response(200, DeleteSuccess)
        case Err(m) => Response(500, FailureBody(DeleteFailed, m));
      Handled(Some(DeleteCommand(bucket, s3Key.value)), response)
  }

  /** The delete responds 400 exactly when `s3Key` is missing or empty, 500
      exactly when it is there and the store fails, and 200 otherwise. */
  lemma DeleteStatus(s3Key: Option<JsString>, bucket: JsString, outcome: Outcome)
    ensures var status := HandleDelete(s3Key, bucket, outcome).response.status;
            && (status == 400 <==> !Present(s3Key))
            && (status == 500 <==> Present(s3Key) && outcome.Err?)
            && (status == 200 <==> Present(s3Key) && outcome.Ok?)
  {
  }

  /** Deleting with the `s3Key` a successful upload returned deletes the
      very object that upload wrote, in the same bucket. */
  lemma DeleteUndoesUpload(body: UploadBody, isoNow: JsString, bucket: JsString, region: JsString, outcome: Outcome)
    requires !MissingField(body)
    ensures var up := HandleUpload(body, isoNow, bucket, region, Ok);
            var del := HandleDelete(Some(up.response.body.s3Key), bucket, outcome);
            && up.command.Some? && del.command.Some?
            && del.command.value.bucket == up.command.value.bucket
            && del.command.value.key == up.command.value.key
  {
  }
}
