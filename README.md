# Upload server: request validation and storage keys

A model of the two HTTP handlers of a small Express server that stores
base64-encoded files in an S3 bucket (`index.mjs`).

- `POST /upload` takes a JSON body with `fileName`, `fileType`, `domainId`
  and `fileBase64`. If any of them is missing or empty it answers 400
  `{ error: "Missing required fields" }` and sends nothing to S3. Otherwise
  it builds the key `domainId/dateFolder/formattedFileName`, where
  `dateFolder` is the part of the current ISO-8601 timestamp before its
  first `T` and `formattedFileName` is the file name with every code unit
  outside `[A-Za-z0-9.]` replaced by `_`. It puts the object with
  `ContentType = fileType` and `ContentDisposition = attachment`, then
  answers `{ success: true, fileUrl, s3Key }`, where `fileUrl` is
  `https://<bucket>.s3.<region>.amazonaws.com/<key>`. When the put fails it
  answers 500 `{ error: "Upload failed", details: <message> }`.
- `DELETE /upload?s3Key=<key>` answers 400 `{ error: "Missing s3Key" }`
  without touching S3 if `s3Key` is missing or empty. Otherwise it deletes
  exactly that key, as given, then answers `{ success: true }`, or 500
  `{ error: "Delete failed", details: <message> }` when the delete fails.

The model is three modules, all pure functions and lemmas:

- `JsText` (`js_text.dfy`): JavaScript strings as sequences of UTF-16 code
  units, `Utf16` from Dafny text to code units, and the two string
  operations the key derivation needs: the first field of a `split`
  (`PrefixBefore`) and the part after the last separator (`SuffixAfterLast`).
- `StorageKey` (`storage_key.dfy`): the sanitiser, the date folder, the key
  and the public URL, with their properties.
- `Handlers` (`handlers.dfy`): the request body, the commands sent to S3,
  the responses, and the two handlers as functions of the request and the
  backend outcome.

Dafny's `char` is a Unicode scalar value and cannot hold a lone surrogate,
so strings are `seq<CodeUnit>` with `CodeUnit` the 16-bit range. The
sanitiser's regular expression has no `u` flag and so works on code units:
a character outside the Basic Multilingual Plane becomes two underscores
(`SanitizeAstral`). String literals in the examples are converted with
`Bmp`, which agrees with `Utf16` on such text (`Utf16Bmp`).

The clock, the S3 client and the region lookup are parameters: the handler
takes the ISO timestamp `isoNow`, the bucket, the resolved region and the
backend's `Outcome` (`Ok` or `Err(message)`). A handler returns a `Handled`
value: the command it sends to S3, or `None` when it sends none, and the
response.

The key is not safe against path traversal. The domain identifier is used
raw, and the dot survives sanitising, so a file named `..` keeps that name
(`S3KeyNotTraversalSafe`). The code's names are used
throughout: the body field is `fileBase64`, the response field and the
delete query parameter are `s3Key`.

## Model

| member | source | states |
|---|---|---|
| `JsText.EncodeChar` | index.mjs:24-30 | a character of the Basic Multilingual Plane is one code unit with its value; any other is a high and a low surrogate from which it is recovered |
| `JsText.Utf16` | index.mjs:24-30 | a JavaScript string has at least one code unit per character, and exactly one per character for text of the Basic Multilingual Plane |
| `Handlers.Present` | index.mjs:25 | no contract: a string field (a body field here, the `s3Key` query parameter at index.mjs:59) is truthy when it is present and not empty; its uses are stated by `UploadCommand`, `HandleDelete` and the status lemmas |
| `Handlers.MissingField` | index.mjs:25 | no contract: the test `!fileName \|\| !fileType \|\| !domainId \|\| !fileBase64`; `UploadCommand` and `UploadStatus` state its effect |
| `StorageKey.Sanitize` | index.mjs:30 | the sanitised name has the length of the input, and every unit of it is in `[A-Za-z0-9._]` |
| `StorageKey.SanitizeAt` | index.mjs:30 | at each position a unit of `[A-Za-z0-9.]` is kept and any other unit becomes `_` |
| `StorageKey.SanitizeIdempotent` | index.mjs:30 | sanitising a sanitised name returns it unchanged |
| `StorageKey.SanitizeFixedPoint` | index.mjs:30 | a name is unchanged by sanitising exactly when all of its units are in `[A-Za-z0-9._]` |
| `StorageKey.SanitizeConcat` | index.mjs:30 | the replacement is unit by unit: sanitising a concatenation concatenates the sanitised parts |
| `StorageKey.SanitizeAstral` | index.mjs:30 | a character outside the Basic Multilingual Plane becomes two underscores, since the regex has no `u` flag |
| `StorageKey.SanitizeNoSlash` | index.mjs:30-31 | the sanitised name holds no `/`, so it is one segment of the key |
| `StorageKey.SanitizeExample` | index.mjs:30 | an illustration: "My Report (Final).pdf" becomes "My_Report__Final_.pdf" |
| `StorageKey.SanitizeCollision` | index.mjs:30-31 | the distinct names "a b" and "a_b" sanitise to the same name, so their keys collide |
| `StorageKey.SanitizeKeepsDotDot` | index.mjs:30 | the name ".." is left as it is |
| `JsText.PrefixBefore` | index.mjs:29 | `split(sep)[0]` for a one-unit separator: the result holds no `sep`, is a prefix of the input, and is the whole input or is followed by `sep` |
| `StorageKey.DateFolder` | index.mjs:29 | the folder is the longest prefix of the timestamp without `T`: it holds no `T`, and it is the whole timestamp or is followed by a `T` |
| `StorageKey.DateFolderOfTimestamp` | index.mjs:29 | for a timestamp `D + "T" + rest` with no `T` in `D`, the folder is `D` |
| `StorageKey.DateFolderExample` | index.mjs:29 | the folder of 2024-05-01T12:30:00.000Z is 2024-05-01 |
| `JsText.PrefixBeforeIdempotent` | index.mjs:29 | taking the first `split` field of a first field gives it back |
| `StorageKey.S3Key` | index.mjs:31 | the key `domainId/dateFolder/sanitised`: it begins with the raw `domainId` and `/`, ends with `/` and the sanitised name, and is two units longer than its three parts; the S3Key lemmas below give its other properties |
| `StorageKey.S3KeyLastSegment` | index.mjs:30-31 | the part of the key after its last `/` is the sanitised file name |
| `StorageKey.S3KeyFirstSegment` | index.mjs:31 | for a `domainId` without `/`, the part of the key before its first `/` is `domainId` |
| `StorageKey.S3KeySameDay` | index.mjs:29-31 | two requests on the same UTC day with the same domain and name get the same key, `domainId/day/sanitised` |
| `StorageKey.S3KeyInjective` | index.mjs:29-31 | for domain identifiers without `/`, equal keys have equal domains, equal date folders and equal sanitised names |
| `StorageKey.S3KeyExample` | index.mjs:29-31 | domain `tenantA`, day 2024-05-01 and "My Report (Final).pdf" give `tenantA/2024-05-01/My_Report__Final_.pdf` |
| `StorageKey.S3KeyNotTraversalSafe` | index.mjs:30-31 | a file named `..` keeps that name as the last key segment, and a `domainId` of `../b` appears raw in the key |
| `StorageKey.FileUrl` | index.mjs:46 | the URL `https://<bucket>.s3.<region>.amazonaws.com/<key>` starts with `https://` followed by the bucket name, and ends with `/` followed by the key |
| `Handlers.UploadCommand` | index.mjs:24-41 | no put exactly when one of the four fields is missing or empty; otherwise the put has the bucket, the derived key, the payload, `ContentType == fileType` and `ContentDisposition == attachment` |
| `Handlers.HandleUpload` | index.mjs:22-52 | the put sent is `UploadCommand`'s; a missing field gives 400 "Missing required fields"; a successful put gives 200 with the URL and key; a failed put gives 500 "Upload failed" with the store's message |
| `Handlers.UploadStatus` | index.mjs:25-51 | the status is 400 exactly when a field is missing, 500 exactly when the fields are there and the put fails, 200 exactly when they are there and it succeeds |
| `Handlers.UploadSuccessNamesKey` | index.mjs:43-48 | after a successful upload the returned `s3Key` is the key put, the `fileUrl` holds the bucket and ends with `/` and `s3Key`, and the key's last segment is the sanitised name |
| `Handlers.UploadFailureDetails` | index.mjs:49-51 | a failed put answers 500 with a failure body whose `details` are the store's message |
| `Handlers.HandleDelete` | index.mjs:56-71 | no delete exactly when `s3Key` is missing or empty, answered 400 "Missing s3Key"; otherwise a delete of exactly the given key, answered 200 on success and 500 "Delete failed" with the store's message on failure |
| `Handlers.DeleteStatus` | index.mjs:58-70 | the status is 400 exactly when `s3Key` is missing or empty, 500 exactly when it is there and the delete fails, 200 otherwise |
| `Handlers.DeleteUndoesUpload` | index.mjs:58-66 | deleting with the `s3Key` a successful upload returned deletes the object that upload wrote, in the same bucket |

## Left out

- Express, cors and body-parser setup, the 200 MB body limit, `app.listen`
  and the `PORT` default (`index.mjs:6-8`, `index.mjs:76-79`): framework
  and I/O wiring.
- The S3 client, `s3.send` and `s3.config.region()` (`index.mjs:11-17`,
  `index.mjs:43`, `index.mjs:45`): calls into a foreign SDK. The backend is
  an abstract `Ok` or `Err(message)` outcome; bucket and region are
  parameters. A failure of the region lookup after a successful put, which
  the code also answers with 500, is not modelled.
- The bucket and credentials read from the environment (`index.mjs:12-19`):
  an unset bucket name would appear as the text `undefined`; the model
  takes the bucket as given.
- `Buffer.from(fileBase64, "base64")` (`index.mjs:33`): Node's lenient
  base64 decoder; the payload is carried as the opaque base64 text.
- `new Date().toISOString()` (`index.mjs:29`): a clock read; the timestamp
  is a parameter.
- `console.error` logging and the concurrent handling of requests, which
  share nothing.
- JavaScript type coercion: fields are assumed to be strings, so a truthy
  non-string `fileName` (whose `.replace` would throw into the 500 branch),
  a repeated `s3Key` query parameter (an array) and an `err.message` that
  is undefined are not modelled.
