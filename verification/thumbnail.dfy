/** `handlerUploadThumbnail`: validate the request, save the image as
    `<assetsRoot>/<id>.<ext>` and point the record's `ThumbnailURL` at it. */
module ThumbnailUpload {
  import opened Results
  import opened Ids
  import opened ContentTypes
  import opened Checks
  import opened Requests
  import Strings

  /** The order in which the thumbnail handler makes its checks: the form
      is read before the record is fetched, and ownership is checked before
      the content type is interpreted. */
  function Step(c: Check): (s: Option<nat>)
    ensures s.Some? <==>
              c !in {VideoType, CreateTemp, CopyTemp, FastStart, ProbeAspect, OpenProcessed, PutObject, SignUrl}
    ensures s.Some? ==> s.value < 11
  {
    match c
    case ParseId => Some(0)
    case FindToken => Some(1)
    case ValidateToken => Some(2)
    case ParseForm => Some(3)
    case FindFile => Some(4)
    case ReadFileType => Some(5)
    case FindRecord => Some(6)
    case CheckOwner => Some(7)
    case ImageType => Some(8)
    case CreateAsset => Some(9)
    case CopyAsset => Some(10)
    case _ => None
  }

  /** The asset's file name, `<id>.<ext>`. */
  function AssetName(id: Uuid, ext: string): (name: string)
    ensures |name| == 37 + |ext|
    ensures name[..36] == Text(id) && name[36] == '.' && name[37..] == ext
  {
    Text(id) + "." + ext
  }

  /** The URL the record is given, `http://localhost:<port>/assets/<id>.<ext>`. */
  function ThumbnailUrl(port: string, id: Uuid, ext: string): (url: string)
    ensures |url| > 38 + |ext|
    ensures url[..17] == "http://localhost:"
    ensures url[|url| - 38 - |ext|..] == "/" + AssetName(id, ext)
  {
    "http://localhost:" + port + "/assets/" + AssetName(id, ext)
  }

  /** One run of the handler. */
  function HandleThumbnail(u: Upload, srv: Server): (r: Response)
    ensures r.stored.Some? <==> r.failed.None?
    ensures r.body == r.stored
    ensures r.savedObject.None?
    ensures r.asset.Some? ==> r.failed.None? || r.failed == Some(CopyAsset)
  {
    if u.pathId.None? then Reject(ParseId)
    else
      var id := u.pathId.value;
      if u.token.None? then Reject(FindToken)
      else
        var user := srv.validateJwt(u.token.value);
        if user.None? then Reject(ValidateToken)
        else if !u.formParsed then Reject(ParseForm)
        else if u.fileType.None? then Reject(FindFile)
        else if u.fileType.value == "" then Reject(ReadFileType)
        else if id !in srv.db then Reject(FindRecord)
        else
          var rec := srv.db[id];
          if rec.userId != user.value then Reject(CheckOwner)
          else
            match ReadContentType(u.fileType.value)
            case Failure(_) => Reject(ImageType)
            case Success(ext) =>
              var file := AssetFile(srv.assetsRoot, AssetName(id, ext));
              if !u.io.assetCreated then Reject(CreateAsset)
              else if !u.io.assetCopied then Response(Some(CopyAsset), Some(file), None, None, None)
              else
                var updated := rec.(thumbnailUrl := Some(ThumbnailUrl(srv.port, id, ext)));
                Response(None, Some(file), None, Some(updated), Some(updated))
  }

  /** The check a run reports is one the handler makes, and it fails. */
  lemma ThumbnailReportedCheckFails(u: Upload, srv: Server)
    ensures var failed := HandleThumbnail(u, srv).failed;
            failed.Some? ==> Step(failed.value).Some? && !Holds(failed.value, u, srv)
  {
  }

  /** A failing check is reported, unless an earlier one is. */
  lemma ThumbnailFailingCheckReported(u: Upload, srv: Server, c: Check)
    requires Step(c).Some? && !Holds(c, u, srv)
    ensures var failed := HandleThumbnail(u, srv).failed;
            failed.Some? && Step(failed.value).value <= Step(c).value
  {
  }

  /** The handler reports the first check, in its order, that fails. */
  lemma ThumbnailReportsFirstFailure(u: Upload, srv: Server)
    ensures IsFirstFailure(Step, c => Holds(c, u, srv), HandleThumbnail(u, srv).failed)
  {
    ThumbnailReportedCheckFails(u, srv);
    forall c | Step(c).Some? && !Holds(c, u, srv)
      ensures HandleThumbnail(u, srv).failed.Some?
      ensures Step(HandleThumbnail(u, srv).failed.value).value <= Step(c).value
    {
      ThumbnailFailingCheckReported(u, srv, c);
    }
    FirstFailureOf(Step, c => Holds(c, u, srv), HandleThumbnail(u, srv).failed);
  }

  /** The asset file name is the last `/`-separated piece of the thumbnail
      URL string, for any port and any extension `readContentType` can
      return. URL parsing is not modelled: for an extension holding `#`,
      `?` or `%` the URL's path does not end in this name. */
  lemma ThumbnailUrlNamesAsset(port: string, id: Uuid, ext: string)
    requires '/' !in ext
    ensures Strings.LastPiece(ThumbnailUrl(port, id, ext), '/') == AssetName(id, ext)
  {
    TextHasNoSeparators(id);
    var name := AssetName(id, ext);
    assert '/' !in name by {
      forall k | 0 <= k < |name| ensures name[k] != '/' {
        if k < |Text(id)| {
          assert name[k] == Text(id)[k];
        } else if k > |Text(id)| {
          assert name[k] == ext[k - |Text(id)| - 1];
        }
      }
    }
    var dir := "http://localhost:" + port + "/assets";
    assert ThumbnailUrl(port, id, ext) == dir + ['/'] + name;
    Strings.LastPieceAfter(dir, name, '/');
  }

  /** On success the record written back and returned differs from the
      stored one only in `ThumbnailURL`; the saved file's name is the last
      `/`-separated piece of that URL string. */
  lemma ThumbnailSuccess(u: Upload, srv: Server)
    requires HandleThumbnail(u, srv).failed.None?
    ensures u.pathId.Some? && u.pathId.value in srv.db
    ensures u.fileType.Some? && ReadContentType(u.fileType.value).Success?
    ensures var id := u.pathId.value;
            var ext := ReadContentType(u.fileType.value).value;
            var r := HandleThumbnail(u, srv);
            && r.Status() == StatusOK
            && r.stored == Some(srv.db[id].(thumbnailUrl := Some(ThumbnailUrl(srv.port, id, ext))))
            && r.asset == Some(AssetFile(srv.assetsRoot, AssetName(id, ext)))
            && Strings.LastPiece(ThumbnailUrl(srv.port, id, ext), '/') == r.asset.value.name
  {
    var id := u.pathId.value;
    var ext := ReadContentType(u.fileType.value).value;
    ReadContentTypeSound(u.fileType.value);
    ThumbnailUrlNamesAsset(srv.port, id, ext);
  }

  /** A malformed ID is answered with 400 before anything else is looked at. */
  lemma ThumbnailBadId(u: Upload, srv: Server)
    requires u.pathId.None?
    ensures HandleThumbnail(u, srv).Status() == StatusBadRequest
  {
  }

  /** With a valid ID, a missing or invalid token is answered with 401. */
  lemma ThumbnailBadToken(u: Upload, srv: Server)
    requires u.pathId.Some? && User(u, srv).None?
    ensures HandleThumbnail(u, srv).Status() == StatusUnauthorized
  {
  }

  /** Once authenticated, a bad form, a missing file or an empty content
      type is answered with 400 whether or not the record exists. */
  lemma ThumbnailBadBodyBeforeLookup(u: Upload, srv: Server)
    requires u.pathId.Some? && User(u, srv).Some?
    requires !u.formParsed || u.fileType.None? || u.fileType == Some("")
    ensures HandleThumbnail(u, srv).Status() == StatusBadRequest
  {
    ThumbnailReportsFirstFailure(u, srv);
    var holds := c => Holds(c, u, srv);
    var failed := HandleThumbnail(u, srv).failed;
    var early := if !u.formParsed then ParseForm else if u.fileType.None? then FindFile else ReadFileType;
    EarlierFailureWins(Step, holds, failed, early, FindRecord);
  }

  /** A non-owner is answered with 401 even when the content type is not an
      image type, since ownership is checked first. */
  lemma ThumbnailNonOwnerBeforeContentType(u: Upload, srv: Server)
    requires u.formParsed && u.fileType.Some? && u.fileType.value != ""
    requires Record(u, srv).Some? && User(u, srv).Some?
    requires Record(u, srv).value.userId != User(u, srv).value
    ensures HandleThumbnail(u, srv).Status() == StatusUnauthorized
    ensures HandleThumbnail(u, srv).stored.None?
  {
  }

  /** The thumbnail handler makes each of its checks at its own position. */
  lemma ThumbnailStepsDistinct()
    ensures forall c, d :: Step(c).Some? && Step(c) == Step(d) ==> c == d
  {
  }

  /** The reported check is determined by which checks pass: any first
      failure in the handler's order is the one the handler reports. */
  lemma ThumbnailFailureDetermined(u: Upload, srv: Server, f: Option<Check>)
    requires IsFirstFailure(Step, c => Holds(c, u, srv), f)
    ensures HandleThumbnail(u, srv).failed == f
  {
    ThumbnailReportsFirstFailure(u, srv);
    ThumbnailStepsDistinct();
    FirstFailureUnique(Step, c => Holds(c, u, srv), f, HandleThumbnail(u, srv).failed);
  }

  /** Once authenticated and with a well-formed body, an unknown record is
      answered with 404. */
  lemma ThumbnailMissingRecord(u: Upload, srv: Server)
    requires u.pathId.Some? && User(u, srv).Some? && u.pathId.value !in srv.db
    requires u.formParsed && u.fileType.Some? && u.fileType.value != ""
    ensures HandleThumbnail(u, srv).failed == Some(FindRecord)
    ensures HandleThumbnail(u, srv).Status() == StatusNotFound
  {
  }

  /** The owner sending a type `readContentType` rejects is answered with
      400, and nothing is saved. */
  lemma ThumbnailRejectsNonImage(u: Upload, srv: Server)
    requires u.formParsed && u.fileType.Some? && u.fileType.value != ""
    requires Record(u, srv).Some? && User(u, srv).Some?
    requires Record(u, srv).value.userId == User(u, srv).value
    requires ReadContentType(u.fileType.value).Failure?
    ensures HandleThumbnail(u, srv).failed == Some(ImageType)
    ensures HandleThumbnail(u, srv).Status() == StatusBadRequest
    ensures HandleThumbnail(u, srv).asset.None? && HandleThumbnail(u, srv).stored.None?
  {
  }

  /** Every failure to create or fill the asset file is answered with 500,
      and 200 is answered only when every check passes. */
  lemma ThumbnailLateFailuresAre500(u: Upload, srv: Server)
    ensures var r := HandleThumbnail(u, srv);
            r.failed.Some? && Step(r.failed.value).value >= Step(CreateAsset).value ==>
              r.Status() == StatusInternalServerError
    ensures HandleThumbnail(u, srv).Status() == StatusOK <==>
              forall c :: Step(c).Some? ==> Holds(c, u, srv)
  {
    ThumbnailReportsFirstFailure(u, srv);
  }
}
