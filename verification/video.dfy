/** `handlerUploadVideo`: validate the request, stage the upload, make it
    fast-start, classify its aspect ratio, store it under
    `<class>/<name>.mp4`, write the locator `bucket,key` into `VideoURL` and
    answer with the record whose `VideoURL` is a presigned URL. */
module VideoUpload {
  import opened Results
  import opened Records
  import opened ContentTypes
  import opened Storage
  import opened Signing
  import opened Checks
  import opened Requests

  /** The order in which the video handler makes its checks: the record
      and its owner are checked before the form is read. */
  function Step(c: Check): (s: Option<nat>)
    ensures s.Some? <==> c !in {ImageType, CreateAsset, CopyAsset}
    ensures s.Some? ==> s.value < 16
  {
    match c
    case ParseId => Some(0)
    case FindToken => Some(1)
    case ValidateToken => Some(2)
    case FindRecord => Some(3)
    case CheckOwner => Some(4)
    case ParseForm => Some(5)
    case FindFile => Some(6)
    case ReadFileType => Some(7)
    case VideoType => Some(8)
    case CreateTemp => Some(9)
    case CopyTemp => Some(10)
    case FastStart => Some(11)
    case ProbeAspect => Some(12)
    case OpenProcessed => Some(13)
    case PutObject => Some(14)
    case SignUrl => Some(15)
    case _ => None
  }

  /** The content type the object is stored with, `video/<extension>`. */
  function ObjectContentType(): (t: string)
    ensures t == Mp4MediaType
  {
    "video/" + VideoExtension
  }

  /** One run of the handler. */
  function HandleVideo(u: Upload, srv: Server): (r: Response)
    ensures r.asset.None?
    ensures r.body.Some? <==> r.failed.None?
    ensures r.stored.Some? <==> r.failed.None? || r.failed == Some(SignUrl)
    ensures r.savedObject.Some? <==> r.stored.Some?
  {
    if u.pathId.None? then Reject(ParseId)
    else
      var id := u.pathId.value;
      if u.token.None? then Reject(FindToken)
      else
        var user := srv.validateJwt(u.token.value);
        if user.None? then Reject(ValidateToken)
        else if id !in srv.db then Reject(FindRecord)
        else
          var rec := srv.db[id];
          if rec.userId != user.value then Reject(CheckOwner)
          else if !u.formParsed then Reject(ParseForm)
          else if u.fileType.None? then Reject(FindFile)
          else if u.fileType.value == "" then Reject(ReadFileType)
          else if ReadVideoContentType(u.fileType.value, srv.parseMediaType).Fail? then Reject(VideoType)
          else if !u.io.tempCreated then Reject(CreateTemp)
          else if !u.io.tempCopied then Reject(CopyTemp)
          else if !u.io.fastStarted then Reject(FastStart)
          else if u.io.aspect.None? then Reject(ProbeAspect)
          else if !u.io.processedOpened then Reject(OpenProcessed)
          else if !u.io.objectPut then Reject(PutObject)
          else Publish(rec, srv, u.io.aspect.value, u.io.objectName)
  }

  /** The steps after the object is stored: write the locator into the
      record, then answer with the record signed. */
  function Publish(rec: Video, srv: Server, a: AspectClass, name: string): (r: Response)
    ensures r.stored.Some? && r.savedObject.Some? && r.asset.None?
    ensures r.failed.None? || r.failed == Some(SignUrl)
    ensures r.failed.None? <==> SignLocator(StoredLocator(srv, a, name), srv.presign).Success?
  {
    var key := ObjectKey(a, name);
    var obj := StoredObject(srv.bucket, key, ObjectContentType());
    var stored := rec.(videoUrl := Some(StoredLocator(srv, a, name)));
    match DbVideoToSignedVideo(stored, srv.presign)
    case Failure(_) => Response(Some(SignUrl), None, Some(obj), Some(stored), None)
    case Success(signed) => Response(None, None, Some(obj), Some(stored), Some(signed))
  }

  /** The check a run reports is one the handler makes, and it fails. */
  lemma VideoReportedCheckFails(u: Upload, srv: Server)
    ensures var failed := HandleVideo(u, srv).failed;
            failed.Some? ==> Step(failed.value).Some? && !Holds(failed.value, u, srv)
  {
    if HandleVideo(u, srv).stored.Some? {
      VideoReachesPublish(u, srv);
    }
  }

  /** A failing check is reported, unless an earlier one is. */
  lemma VideoFailingCheckReported(u: Upload, srv: Server, c: Check)
    requires Step(c).Some? && !Holds(c, u, srv)
    ensures var failed := HandleVideo(u, srv).failed;
            failed.Some? && Step(failed.value).value <= Step(c).value
  {
    if HandleVideo(u, srv).stored.Some? {
      VideoReachesPublish(u, srv);
    }
  }

  /** The handler reports the first check, in its order, that fails. */
  lemma VideoReportsFirstFailure(u: Upload, srv: Server)
    ensures IsFirstFailure(Step, c => Holds(c, u, srv), HandleVideo(u, srv).failed)
  {
    VideoReportedCheckFails(u, srv);
    forall c | Step(c).Some? && !Holds(c, u, srv)
      ensures HandleVideo(u, srv).failed.Some?
      ensures Step(HandleVideo(u, srv).failed.value).value <= Step(c).value
    {
      VideoFailingCheckReported(u, srv, c);
    }
    FirstFailureOf(Step, c => Holds(c, u, srv), HandleVideo(u, srv).failed);
  }

  /** A run that writes the record back has passed every validation and
      processing step, and ends by publishing the fetched record. */
  lemma VideoReachesPublish(u: Upload, srv: Server)
    requires HandleVideo(u, srv).stored.Some?
    ensures u.pathId.Some? && u.pathId.value in srv.db && u.io.aspect.Some?
    ensures User(u, srv) == Some(srv.db[u.pathId.value].userId)
    ensures u.formParsed && u.fileType.Some?
    ensures ReadVideoContentType(u.fileType.value, srv.parseMediaType).Pass?
    ensures u.io.tempCreated && u.io.tempCopied && u.io.fastStarted
    ensures u.io.processedOpened && u.io.objectPut
    ensures HandleVideo(u, srv) ==
              Publish(srv.db[u.pathId.value], srv, u.io.aspect.value, u.io.objectName)
  {
  }

  /** Once the object is put, the record written back differs from the
      fetched one only in `VideoURL`, which holds the locator of the object;
      the object is `<class>/<name>.mp4` in the configured bucket with
      content type `video/mp4`. */
  lemma PublishStoresLocator(rec: Video, srv: Server, a: AspectClass, name: string)
    ensures var r := Publish(rec, srv, a, name);
            var key := ObjectKey(a, name);
            && r.savedObject == Some(StoredObject(srv.bucket, key, Mp4MediaType))
            && r.stored == Some(rec.(videoUrl := Some(StoredLocator(srv, a, name))))
  {
  }

  /** With a comma-free bucket name and a base64url object name, the
      answer on success is the fetched record with only `VideoURL` changed,
      to the URL presigned for the stored bucket and key for 60 minutes; and
      signing fails exactly when presigning does. */
  lemma PublishAnswersSignedUrl(rec: Video, srv: Server, a: AspectClass, name: string)
    requires Comma !in srv.bucket && IsObjectName(name)
    ensures var r := Publish(rec, srv, a, name);
            match srv.presign(srv.bucket, ObjectKey(a, name), PresignExpirySeconds)
            case Some(signed) =>
              && r.failed.None?
              && r.body == Some(rec.(videoUrl := Some(signed)))
            case None =>
              && r.failed == Some(SignUrl)
              && r.Status() == StatusInternalServerError
  {
    var key := ObjectKey(a, name);
    var stored := rec.(videoUrl := Some(StoredLocator(srv, a, name)));
    ObjectKeyShape(a, name);
    SignStoredLocator(stored, Locator(srv.bucket, key), srv.presign);
  }

  /** A comma in the configured bucket name makes every upload end in 500
      after the object has been stored and the record written: the stored
      locator cannot be split back into bucket and key. */
  lemma VideoBucketWithComma(u: Upload, srv: Server)
    requires Comma in srv.bucket
    requires HandleVideo(u, srv).stored.Some?
    ensures HandleVideo(u, srv).failed == Some(SignUrl)
    ensures HandleVideo(u, srv).Status() == StatusInternalServerError
  {
    VideoReachesPublish(u, srv);
    var key := ObjectKey(u.io.aspect.value, u.io.objectName);
    DecodeEncodeNeedsCommaFree(Locator(srv.bucket, key));
  }

  /** A malformed ID is answered with 400 before anything else is looked at. */
  lemma VideoBadId(u: Upload, srv: Server)
    requires u.pathId.None?
    ensures HandleVideo(u, srv).Status() == StatusBadRequest
  {
  }

  /** With a valid ID, a missing or invalid token is answered with 401. */
  lemma VideoBadToken(u: Upload, srv: Server)
    requires u.pathId.Some? && User(u, srv).None?
    ensures HandleVideo(u, srv).Status() == StatusUnauthorized
  {
  }

  /** Once authenticated, an unknown record is answered with 404 whatever
      the form body holds. */
  lemma VideoMissingRecordBeforeBody(u: Upload, srv: Server)
    requires u.pathId.Some? && User(u, srv).Some? && u.pathId.value !in srv.db
    ensures HandleVideo(u, srv).Status() == StatusNotFound
  {
  }

  /** A non-owner is answered with 401 whatever the form body holds, since
      ownership is checked before the form is parsed. */
  lemma VideoNonOwnerBeforeBody(u: Upload, srv: Server)
    requires Record(u, srv).Some? && User(u, srv).Some?
    requires Record(u, srv).value.userId != User(u, srv).value
    ensures HandleVideo(u, srv).Status() == StatusUnauthorized
    ensures HandleVideo(u, srv).stored.None?
  {
  }

  /** A header whose media type is anything but `video/mp4` is answered
      with 400 once the request has passed authentication and ownership. */
  lemma VideoRejectsOtherTypes(u: Upload, srv: Server, mediaType: string)
    requires u.formParsed && u.fileType.Some? && u.fileType.value != ""
    requires Record(u, srv).Some? && User(u, srv).Some?
    requires Record(u, srv).value.userId == User(u, srv).value
    requires srv.parseMediaType(u.fileType.value) == Some(mediaType) && mediaType != Mp4MediaType
    ensures HandleVideo(u, srv).failed == Some(VideoType)
    ensures HandleVideo(u, srv).Status() == StatusBadRequest
  {
  }

  /** Every failure after the request has been validated (staging,
      fast-start, probing, storing or signing) is answered with 500, and 200
      is answered only when every check passes. */
  lemma VideoLateFailuresAre500(u: Upload, srv: Server)
    ensures var r := HandleVideo(u, srv);
            r.failed.Some? && Step(r.failed.value).value >= Step(CreateTemp).value ==>
              r.Status() == StatusInternalServerError
    ensures HandleVideo(u, srv).Status() == StatusOK <==>
              forall c :: Step(c).Some? ==> Holds(c, u, srv)
  {
    VideoReportsFirstFailure(u, srv);
  }

  /** The video handler makes each of its checks at its own position. */
  lemma VideoStepsDistinct()
    ensures forall c, d :: Step(c).Some? && Step(c) == Step(d) ==> c == d
  {
  }

  /** The reported check is determined by which checks pass: any first
      failure in the handler's order is the one the handler reports. */
  lemma VideoFailureDetermined(u: Upload, srv: Server, f: Option<Check>)
    requires IsFirstFailure(Step, c => Holds(c, u, srv), f)
    ensures HandleVideo(u, srv).failed == f
  {
    VideoReportsFirstFailure(u, srv);
    VideoStepsDistinct();
    FirstFailureUnique(Step, c => Holds(c, u, srv), f, HandleVideo(u, srv).failed);
  }
}
