/** What an upload handler sees: the request, the outcomes of the calls it
    makes into libraries, the filesystem and object storage, and the server
    configuration; and what it produces. Each external call is represented
    by its outcome, so a handler is a pure function of these values. */
module Requests {
  import opened Results
  import opened Ids
  import opened Records
  import opened ContentTypes
  import opened Storage
  import opened Signing
  import opened Checks

  /** Outcomes of the filesystem, media-tool and storage calls. Each handler
      reads only its own fields. */
  datatype Io = Io(
    assetCreated: bool,             // thumbnail: os.Create of the asset file
    assetCopied: bool,              // thumbnail: io.Copy into it
    tempCreated: bool,              // video: os.CreateTemp
    tempCopied: bool,               // video: io.Copy into the temp file
    fastStarted: bool,              // video: ProcessVideoForFastStart
    aspect: Option<AspectClass>,    // video: GetVideoAspectRatio, None on error
    processedOpened: bool,          // video: os.Open of the processed file
    objectName: string,             // video: base64url text of 32 random bytes
    objectPut: bool)                // video: PutObject

  /** One upload request. */
  datatype Upload = Upload(
    pathId: Option<Uuid>,           // uuid.Parse of the `videoID` path value
    token: Option<string>,          // auth.GetBearerToken of the headers
    formParsed: bool,               // ParseMultipartForm succeeded
    fileType: Option<string>,       // Content-Type of the handler's form file (`thumbnail` or `video`);
                                    // None when FormFile fails
    io: Io)

  /** The server's configuration and collaborators. */
  datatype Server = Server(
    validateJwt: string -> Option<Uuid>,  // auth.ValidateJWT with the server's secret
    db: map<Uuid, Video>,                 // the records GetVideo can find, by ID;
                                          // assumed, not checked: db[k].id == k
    port: string,
    assetsRoot: string,
    bucket: string,
    parseMediaType: MediaTypeParser,
    presign: Presigner)

  /** A local asset file: the directory it is joined under and its name. */
  datatype AssetFile = AssetFile(dir: string, name: string)

  /** An object written to storage. */
  datatype StoredObject = StoredObject(bucket: string, key: string, contentType: string)

  /** What a handler run leaves behind: the check that failed (None on
      success), the local asset file it created, the object it stored, the
      record it wrote back with `UpdateVideo`, and the record it answered
      with. */
  datatype Response = Response(
    failed: Option<Check>,
    asset: Option<AssetFile>,
    savedObject: Option<StoredObject>,
    stored: Option<Video>,
    body: Option<Video>)
  {
    function Status(): nat
    {
      StatusOfRun(failed)
    }
  }

  /** An early return with an error response and no effects. */
  function Reject(c: Check): Response
  {
    Response(Some(c), None, None, None, None)
  }

  /** The user the bearer token authenticates, if any. */
  function User(u: Upload, srv: Server): Option<Uuid>
  {
    if u.token.Some? then srv.validateJwt(u.token.value) else None
  }

  /** The record the path's ID names, if it parses and exists. */
  function Record(u: Upload, srv: Server): Option<Video>
  {
    if u.pathId.Some? && u.pathId.value in srv.db then Some(srv.db[u.pathId.value]) else None
  }

  /** The locator stored for the video object named by `name`. */
  function StoredLocator(srv: Server, a: AspectClass, name: string): string
  {
    Encode(Locator(srv.bucket, ObjectKey(a, name)))
  }

  /** Whether check `c` passes for this request, judged on its own. A check
      that depends on an earlier step passes vacuously when that step has no
      value to check; the handlers never reach it in that case. */
  predicate Holds(c: Check, u: Upload, srv: Server)
  {
    match c
    case ParseId => u.pathId.Some?
    case FindToken => u.token.Some?
    case ValidateToken => u.token.None? || srv.validateJwt(u.token.value).Some?
    case FindRecord => u.pathId.None? || u.pathId.value in srv.db
    case CheckOwner =>
      Record(u, srv).None? || User(u, srv).None? || Record(u, srv).value.userId == User(u, srv).value
    case ParseForm => u.formParsed
    case FindFile => u.fileType.Some?
    case ReadFileType => u.fileType.None? || u.fileType.value != ""
    case ImageType => u.fileType.None? || ReadContentType(u.fileType.value).Success?
    case VideoType => u.fileType.None? || ReadVideoContentType(u.fileType.value, srv.parseMediaType).Pass?
    case CreateAsset => u.io.assetCreated
    case CopyAsset => u.io.assetCopied
    case CreateTemp => u.io.tempCreated
    case CopyTemp => u.io.tempCopied
    case FastStart => u.io.fastStarted
    case ProbeAspect => u.io.aspect.Some?
    case OpenProcessed => u.io.processedOpened
    case PutObject => u.io.objectPut
    case SignUrl =>
      u.io.aspect.None? || SignLocator(StoredLocator(srv, u.io.aspect.value, u.io.objectName), srv.presign).Success?
  }
}
