/** How the two upload handlers differ in the order of their checks, and
    where they agree. */
module HandlerOrder {
  import opened Checks
  import opened Requests
  import ThumbnailUpload
  import VideoUpload

  /** The thumbnail handler reads the form before checking ownership; the
      video handler checks ownership first. */
  lemma FormAndOwnerOrder()
    ensures ThumbnailUpload.Step(ParseForm).value < ThumbnailUpload.Step(CheckOwner).value
    ensures VideoUpload.Step(CheckOwner).value < VideoUpload.Step(ParseForm).value
  {
  }

  /** A non-owner sending a bad form body gets 400 from the thumbnail
      handler but 401 from the video handler. */
  lemma NonOwnerWithBadBody(u: Upload, srv: Server)
    requires !u.formParsed
    requires Record(u, srv).Some? && User(u, srv).Some?
    requires Record(u, srv).value.userId != User(u, srv).value
    ensures ThumbnailUpload.HandleThumbnail(u, srv).Status() == StatusBadRequest
    ensures VideoUpload.HandleVideo(u, srv).Status() == StatusUnauthorized
  {
    ThumbnailUpload.ThumbnailBadBodyBeforeLookup(u, srv);
    VideoUpload.VideoNonOwnerBeforeBody(u, srv);
  }

  /** An authenticated request for an unknown record with a bad form body
      gets 400 from the thumbnail handler but 404 from the video handler. */
  lemma MissingRecordWithBadBody(u: Upload, srv: Server)
    requires !u.formParsed
    requires u.pathId.Some? && u.pathId.value !in srv.db && User(u, srv).Some?
    ensures ThumbnailUpload.HandleThumbnail(u, srv).Status() == StatusBadRequest
    ensures VideoUpload.HandleVideo(u, srv).Status() == StatusNotFound
  {
    ThumbnailUpload.ThumbnailBadBodyBeforeLookup(u, srv);
  }

  /** Up to and including authentication the handlers agree: both reject
      the same requests with the same check. */
  lemma SameAuthentication(u: Upload, srv: Server)
    requires u.pathId.None? || User(u, srv).None?
    ensures ThumbnailUpload.HandleThumbnail(u, srv).failed == VideoUpload.HandleVideo(u, srv).failed
    ensures ThumbnailUpload.HandleThumbnail(u, srv).failed.Some?
    ensures StatusOf(ThumbnailUpload.HandleThumbnail(u, srv).failed.value) in {StatusBadRequest, StatusUnauthorized}
  {
  }
}
