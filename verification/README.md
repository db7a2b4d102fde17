# Upload handlers of a media-upload service, modelled in Dafny

The service accepts authenticated multipart uploads for a video record. The
thumbnail handler saves an image on local disk and points the record's
`ThumbnailURL` at it. The video handler makes the upload fast-start and
classifies its aspect ratio. It then stores the file in object storage under
`<class>/<name>.mp4` and writes the locator `bucket,key` into `VideoURL`.
It answers with the record, its `VideoURL` replaced by a presigned URL.

This project models the decision and string logic of those two handlers:

- `ContentTypes`: the two content-type validators, `readContentType` and
  `readVideoContentType`.
- `Strings`: Go's `strings.Split` with a one-character separator, with its
  inverse `Join`.
- `Storage`: the object key and the locator codec (encode with
  `%s,%s`, decode by splitting on `,` and demanding two pieces).
- `Signing`: `dbVideoToSignedVideo`, with presigning as an abstract function
  that may fail.
- `Checks`, `Requests`: the checks a handler makes, the status each failing
  check answers with, and the outcomes of every external call as plain values.
- `ThumbnailUpload`, `VideoUpload`: each handler as a pure function from those
  outcomes to a response. The response holds the failing check (hence the
  status), the asset file or stored object, the record written back and the
  record answered.
- `HandlerOrder`: where the two handlers' check orders differ.

Each handler also has a reference definition: a position for every check it
makes (`Step`) and a per-check pass condition (`Requests.Holds`). The
theorems `ThumbnailReportsFirstFailure` and `VideoReportsFirstFailure` say the
handler reports the first failing check in that order (`Checks.IsFirstFailure`).

Points where the code's behaviour may be surprising, which the model follows:

- The thumbnail handler reads the form before it fetches the record, and
  checks ownership before it interprets the content type. A non-owner
  sending a PDF gets 401, not 400.
- The video handler checks the record and its owner before it reads the
  form, the reverse of the thumbnail handler. A non-owner with a bad form
  body gets 400 from the thumbnail handler and 401 from the video handler.
- A non-owner gets 401 only if the record exists. An unknown record gets
  404, and in the thumbnail handler a bad form body gets 400 before either.
- `readContentType` accepts `image/` with an empty extension. It checks
  no pattern beyond "exactly one `/`, and `image` before it".
- The video handler writes the locator to the database before signing it.
  When signing fails the answer is 500, but the record already holds the
  locator.
- The thumbnail handler answers with the fetched record as it is, without
  passing it through `dbVideoToSignedVideo`. A record whose video was
  uploaded earlier therefore comes back with the raw `bucket,key` locator
  in `VideoURL`; only the video handler signs it.

## Model

| member | source | states |
|---|---|---|
| Strings.Split | handler_upload_thumbnail.go:104 | splitting always gives at least one piece, and no piece contains the separator |
| Strings.SplitFree | handler_upload_video.go:170 | a string without the separator splits into itself alone |
| Strings.SplitAround | handler_upload_video.go:170 | splitting `a + sep + b` gives the pieces of `a` followed by the pieces of `b` |
| Strings.SplitJoin | handler_upload_video.go:170 | splitting a join gives the pieces back when none holds the separator |
| Strings.JoinSplit | handler_upload_video.go:170 | joining the pieces of any string with the separator gives the string back |
| Strings.SplitCount | handler_upload_thumbnail.go:104-106 | the number of pieces is the number of separators plus one, so "two pieces" means "exactly one separator" |
| Strings.SplitInTwo | handler_upload_video.go:170-175 | exactly two pieces iff exactly one separator, and then the string is first piece, separator, second piece |
| Strings.LastPieceAfter | handler_upload_thumbnail.go:91 | the last piece of `a + sep + b` is `b` when `b` has no separator |
| Ids.Hex | handler_upload_thumbnail.go:91 | two lower-case hex digits per byte |
| Ids.Text | handler_upload_thumbnail.go:76 | a UUID prints as 36 characters: hyphens at positions 8, 13, 18 and 23, and a lower-case hex digit at every other position |
| Ids.TextHasNoSeparators | handler_upload_thumbnail.go:76 | a printed UUID holds no `/`, `,` or `.` |
| ContentTypes.ReadContentType | handler_upload_thumbnail.go:103-115 | every rejection carries the offending header |
| ContentTypes.ReadContentTypeOfImage | handler_upload_thumbnail.go:104-114 | `image/<ext>` with no further `/` is accepted with extension `<ext>` |
| ContentTypes.ReadContentTypeSound | handler_upload_thumbnail.go:104-114 | an accepted header is `image/` + extension, the extension has no `/`, and the header has exactly one `/` |
| ContentTypes.ReadContentTypeAccepts | handler_upload_thumbnail.go:103-115 | accepted iff the header starts with `image/` and has no other `/`; then `image/` + extension is the header |
| ContentTypes.ReadContentTypeAcceptsExamples | handler_upload_thumbnail.go:104-114 | `image/png` gives `png`, `image/` gives the empty extension, `image/svg+xml` gives `svg+xml` |
| ContentTypes.ReadContentTypeRejectsPdf | handler_upload_thumbnail.go:110-112 | `application/pdf` is rejected |
| ContentTypes.ReadContentTypeRejectsTwoSlashes | handler_upload_thumbnail.go:106-108 | a header with two slashes is rejected |
| ContentTypes.ReadVideoContentType | handler_upload_video.go:214-225 | passes iff the header parses to exactly `video/mp4`; a parse failure and any other media type are distinct errors |
| ContentTypes.NoHeaderPassesBoth | handler_upload_video.go:214-225 | with a parser that returns the header as is, no header passes both `readVideoContentType` and `readContentType` |
| Storage.Prefix | internal/content/videos.go:110-116 | the class prefixes are non-empty and hold no `/` or `,` |
| Storage.ObjectKeyShape | handler_upload_video.go:127-131 | a key built from a base64url name has no comma, splits on `/` into class prefix and `<name>.mp4`, and ends in `.mp4` |
| Storage.ObjectKey | handler_upload_video.go:131 | the key starts with the class prefix and `/`, and ends in `.mp4` |
| Storage.Encode | handler_upload_video.go:148 | the locator is the bucket, one comma, then the key, each recoverable by position |
| Storage.Decode | handler_upload_video.go:170-173 | every decoding failure is a malformed-locator error naming the input |
| Storage.DecodeAccepts | handler_upload_video.go:170-175 | decoding succeeds iff the string has exactly one comma; what it returns encodes back to the input, with comma-free parts |
| Storage.DecodeEncode | handler_upload_video.go:148 | round trip: a locator with comma-free bucket and key decodes to itself |
| Storage.DecodeEncodeNeedsCommaFree | handler_upload_video.go:170-173 | a comma in the bucket or key makes the encoded locator undecodable |
| Storage.StoredLocatorDecodes | handler_upload_video.go:131-148 | the locator the handler stores decodes to its bucket and key when the bucket has no comma |
| Signing.DbVideoToSignedVideo | handler_upload_video.go:164-184 | no `VideoURL`: the record comes back unchanged; on success only `VideoURL` differs, holding the signed URL; it fails iff signing the locator fails |
| Signing.SignStoredLocator | handler_upload_video.go:176-183 | a record holding a comma-free `bucket,key` is signed for exactly that bucket and key, and fails exactly when the presigner does |
| Signing.SignMalformedLocator | handler_upload_video.go:170-173 | a `VideoURL` without exactly one comma is reported as malformed, never returned |
| Signing.SignLocator | handler_upload_video.go:170-180 | an undecodable locator is a malformed-locator error; a decoded one succeeds iff presigning its bucket and key for 60 minutes succeeds, with that URL |
| Checks.StatusOf | handler_upload_thumbnail.go:18-89 | 400 exactly for a bad ID, form, file, empty type or rejected content type; 401 exactly for token and ownership failures; 404 exactly for the missing record; 500 for every other failure. The video handler's statuses (handler_upload_video.go:27-155, with `VideoType` at :78-82 and the 500s at :85-155) follow the same table |
| Checks.StatusOfRun | handler_upload_video.go:158 | 200 iff no check failed |
| Requests.Holds | handler_upload_video.go:27-156 | the pass condition of each check, judged on the request and server alone |
| ThumbnailUpload.HandleThumbnail | handler_upload_thumbnail.go:17-97 | the record is written back and returned iff every check passes; nothing goes to object storage; an asset file exists only on success or a failed copy |
| ThumbnailUpload.Step | handler_upload_thumbnail.go:18-89 | the thumbnail handler makes exactly the eleven checks of its code, at distinct positions below 11 |
| ThumbnailUpload.ThumbnailStepsDistinct | handler_upload_thumbnail.go:18-89 | no two checks of the thumbnail handler share a position |
| ThumbnailUpload.AssetName | handler_upload_thumbnail.go:76 | the file name is the UUID's 36-character text, a dot, then the extension |
| ThumbnailUpload.ThumbnailUrl | handler_upload_thumbnail.go:91 | the URL starts with `http://localhost:` and ends in `/` followed by the asset name |
| ThumbnailUpload.ThumbnailReportedCheckFails | handler_upload_thumbnail.go:18-89 | the check a run reports is one the thumbnail handler makes, and it fails |
| ThumbnailUpload.ThumbnailFailingCheckReported | handler_upload_thumbnail.go:18-89 | any failing check is reported, or a check earlier in the thumbnail handler's order is |
| ThumbnailUpload.ThumbnailReportsFirstFailure | handler_upload_thumbnail.go:18-89 | the reported check is the first failing one in the thumbnail handler's order |
| ThumbnailUpload.ThumbnailFailureDetermined | handler_upload_thumbnail.go:18-89 | any first failure in the thumbnail order is the one the handler reports |
| ThumbnailUpload.ThumbnailUrlNamesAsset | handler_upload_thumbnail.go:76-91 | the asset file name `<id>.<ext>` is the last `/`-separated piece of the thumbnail URL string |
| ThumbnailUpload.ThumbnailSuccess | handler_upload_thumbnail.go:76-96 | on success: 200; only `ThumbnailURL` changes, to `http://localhost:<port>/assets/<id>.<ext>`; the file is `<id>.<ext>` under the assets root, equal to the last `/`-separated piece of the URL string |
| ThumbnailUpload.ThumbnailBadId | handler_upload_thumbnail.go:18-23 | a malformed ID gets 400 |
| ThumbnailUpload.ThumbnailBadToken | handler_upload_thumbnail.go:25-35 | with a valid ID, a missing or invalid token gets 401 |
| ThumbnailUpload.ThumbnailBadBodyBeforeLookup | handler_upload_thumbnail.go:39-62 | once authenticated, a bad form, missing file or empty content type gets 400 whether or not the record exists |
| ThumbnailUpload.ThumbnailNonOwnerBeforeContentType | handler_upload_thumbnail.go:64-74 | a non-owner gets 401 even with a non-image content type, and nothing is written |
| ThumbnailUpload.ThumbnailMissingRecord | handler_upload_thumbnail.go:58-62 | once authenticated with a well-formed body, an unknown record gets 404 |
| ThumbnailUpload.ThumbnailRejectsNonImage | handler_upload_thumbnail.go:70-74 | the owner sending a type `readContentType` rejects gets 400, and no file or record is written |
| ThumbnailUpload.ThumbnailLateFailuresAre500 | handler_upload_thumbnail.go:78-96 | a failed create or copy of the asset file gets 500, and 200 iff every check passes |
| VideoUpload.ObjectContentType | handler_upload_video.go:132 | the object's content type is `video/mp4`, the one type the validator accepts |
| VideoUpload.HandleVideo | handler_upload_video.go:24-159 | an answer body only on success; the record is written back iff the object was stored, on success or when signing fails |
| VideoUpload.Step | handler_upload_video.go:27-156 | the video handler makes exactly the sixteen checks of its code, at distinct positions below 16 |
| VideoUpload.VideoStepsDistinct | handler_upload_video.go:27-156 | no two checks of the video handler share a position |
| VideoUpload.Publish | handler_upload_video.go:131-158 | after storing the object the run either succeeds or fails at signing, having stored both object and record |
| VideoUpload.VideoReportedCheckFails | handler_upload_video.go:27-156 | the check a run reports is one the video handler makes, and it fails |
| VideoUpload.VideoFailingCheckReported | handler_upload_video.go:27-156 | any failing check is reported, or a check earlier in the video handler's order is |
| VideoUpload.VideoReportsFirstFailure | handler_upload_video.go:27-156 | the reported check is the first failing one in the video handler's order |
| VideoUpload.VideoFailureDetermined | handler_upload_video.go:27-156 | any first failure in the video order is the one the handler reports |
| VideoUpload.VideoReachesPublish | handler_upload_video.go:27-145 | a run that writes the record back passed every validation and processing step, with the owner authenticated |
| VideoUpload.PublishStoresLocator | handler_upload_video.go:129-150 | the object is `<class>/<name>.mp4` in the bucket with type `video/mp4`; the record written back differs only in `VideoURL`, the locator |
| VideoUpload.PublishAnswersSignedUrl | handler_upload_video.go:148-158 | with a comma-free bucket and base64url name, success answers the record with only `VideoURL` changed to the 60-minute presigned URL; presigning failure gives 500 |
| VideoUpload.VideoBucketWithComma | handler_upload_video.go:148-155 | a comma in the bucket name makes every stored upload end in 500 |
| VideoUpload.VideoBadId | handler_upload_video.go:27-31 | a malformed ID gets 400 |
| VideoUpload.VideoBadToken | handler_upload_video.go:33-43 | with a valid ID, a missing or invalid token gets 401 |
| VideoUpload.VideoMissingRecordBeforeBody | handler_upload_video.go:45-49 | once authenticated, an unknown record gets 404 whatever the body |
| VideoUpload.VideoNonOwnerBeforeBody | handler_upload_video.go:51-63 | a non-owner gets 401 whatever the body, and nothing is written |
| VideoUpload.VideoRejectsOtherTypes | handler_upload_video.go:78-82 | a media type other than `video/mp4` gets 400 once authentication and ownership pass |
| VideoUpload.VideoLateFailuresAre500 | handler_upload_video.go:85-158 | every failure from staging onwards is 500, and 200 iff every check passes |
| HandlerOrder.FormAndOwnerOrder | handler_upload_thumbnail.go:39-68 | the thumbnail handler reads the form before checking ownership; the video handler checks ownership first |
| HandlerOrder.NonOwnerWithBadBody | handler_upload_video.go:51-63 | a non-owner with a bad form gets 400 from the thumbnail handler and 401 from the video handler |
| HandlerOrder.MissingRecordWithBadBody | handler_upload_video.go:45-63 | an unknown record with a bad form gets 400 from the thumbnail handler and 404 from the video handler |
| HandlerOrder.SameAuthentication | handler_upload_thumbnail.go:18-35 | both handlers reject a bad ID or token with the same check, answering 400 or 401 |

## Left out

- `internal/content/videos.go`: `ProcessVideoForFastStart` runs ffmpeg and `GetVideoAspectRatio` runs ffprobe. The model takes their outcomes as inputs (`Io.fastStarted`, `Io.aspect`). It does not model the floating-point comparison against 16/9 and 9/16, or indexing `Streams[0]` of empty probe output.
- Object storage: `PutObject` is an outcome flag. `generatePresignedURL` is an abstract function of bucket, key and expiry that may fail.
- `uuid.Parse`, `auth.GetBearerToken`, `auth.ValidateJWT` and `mime.ParseMediaType` are abstract. They appear as an optional parsed ID, an optional token, a token-to-user function and a header-to-media-type function.
- ContentTypes.ReadVideoContentType: with the parser abstract, the model cannot say which headers (case, parameters, whitespace) parse to `video/mp4`. It states acceptance only in terms of the parser's result. Its parse-failure error `InvalidMediaType` carries the header, while the Go code wraps the parser's own error (`%w`) and never formats the header.
- Multipart parsing, the 10 MiB and 1 GiB memory limits passed to `ParseMultipartForm`, and the discarded `http.MaxBytesReader` are not modelled. Parsing and `FormFile` are outcome values.
- Temporary files and their deferred removal concern the filesystem, not decision logic. Byte copying (`io.Copy`) and file handles are reduced to success flags.
- `crypto/rand` and base64 encoding: the object name is an input. Properties that need it comma-free assume it is over the unpadded base64url alphabet (section 5 of RFC 4648). The model does not fix its 43-character length.
- `filepath.Join` is kept as a (directory, name) pair. Its lexical cleaning of the directory part is not modelled.
- Persistence: `UpdateVideo` is the record in `Response.stored`. Its ignored error, the database itself and concurrent requests (last writer wins) are not modelled.
- `database.Video` is not part of this model. The record's fields follow the handlers' use of `CreateVideoParams.UserID`, `ThumbnailURL` and `VideoURL`; neither handler reads the record's `ID`, which is carried unchanged to `UpdateVideo`. The model assumes, without stating it as an invariant of `Server.db`, that the record stored under a key has that key as its `id`. Title, description and timestamps stand for the columns carried unchanged.
- Strings: Go strings are byte sequences, while the model's strings are sequences of Unicode characters. Splitting on the ASCII `/` and `,` gives the same pieces for valid UTF-8. A header or locator holding invalid UTF-8 has no counterpart in the model.
- ThumbnailUpload.ThumbnailUrlNamesAsset: URL parsing is not modelled, so the contract speaks of the URL string, not its path. `readContentType` accepts `image/png#1` with extension `png#1`. The file is then `<id>.png#1`, but the URL's path ends in `<id>.png` because `#1` is a fragment. A `?` (query) or a `%` escape in the extension breaks the match the same way.
- ThumbnailUpload.ThumbnailSuccess: its last clause is the same string-level fact, so for an extension holding `#`, `?` or `%` the stored URL does not address the saved file. URL parsing is not modelled.
- Signing.SignLocator: the presign-failure error `PresignFailed` carries the bucket and key, while the Go code wraps the presigner's error (`%w`) without formatting them. The same holds for `Signing.SignStoredLocator`, whose contract names this error, and for the error `Signing.DbVideoToSignedVideo` passes on. The wrapped library errors are not modelled.
- Form fields: the thumbnail handler reads the form file `thumbnail` and the video handler reads `video`. The model has one `fileType`, so a lemma that gives the same `Upload` to both handlers (as in `HandlerOrder`) compares two forms that hold the same content type in their respective fields.
- Error messages and logging: a response records which check failed, not the message text.
