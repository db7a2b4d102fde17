/** `dbVideoToSignedVideo`: before a record leaves the server, a locator in
    its `VideoURL` is replaced by a time-limited presigned URL. */
module Signing {
  import opened Results
  import opened Records
  import opened Storage

  /** The expiry passed to presigning: 60 minutes, in seconds. */
  const PresignExpirySeconds: nat := 60 * 60

  /** `generatePresignedURL`, kept abstract: given a bucket, a key and an
      expiry it yields a URL or fails. */
  type Presigner = (string, string, nat) -> Option<string>

  /** Decode a stored locator and presign the object it names. */
  function SignLocator(url: string, presign: Presigner): (r: Result<string>)
    ensures Decode(url).Failure? ==> r == Failure(MalformedLocator(url))
    ensures Decode(url).Success? ==>
              var l := Decode(url).value;
              (r.Success? <==> presign(l.bucket, l.key, PresignExpirySeconds).Some?)
              && (r.Success? ==> Some(r.value) == presign(l.bucket, l.key, PresignExpirySeconds))
              && (r.Failure? ==> r.error == PresignFailed(l.bucket, l.key))
  {
    match Decode(url)
    case Failure(e) => Failure(e)
    case Success(l) =>
      match presign(l.bucket, l.key, PresignExpirySeconds)
      case None => Failure(PresignFailed(l.bucket, l.key))
      case Some(signed) => Success(signed)
  }

  /** `dbVideoToSignedVideo`. A record without a video URL comes back as it
      is; otherwise the result is either an error or the record with only
      `VideoURL` replaced by the signed URL. */
  function DbVideoToSignedVideo(v: Video, presign: Presigner): (r: Result<Video>)
    ensures v.videoUrl.None? ==> r == Success(v)
    ensures r.Success? ==> r.value == v.(videoUrl := r.value.videoUrl)
    ensures v.videoUrl.Some? ==>
              (r.Success? <==> SignLocator(v.videoUrl.value, presign).Success?)
    ensures v.videoUrl.Some? && r.Success? ==>
              r.value.videoUrl == Some(SignLocator(v.videoUrl.value, presign).value)
  {
    match v.videoUrl
    case None => Success(v)
    case Some(url) =>
      match SignLocator(url, presign)
      case Failure(e) => Failure(e)
      case Success(signed) => Success(v.(videoUrl := Some(signed)))
  }

  /** Signing a record that holds a locator `bucket,key` with comma-free
      parts asks the presigner about exactly that bucket and key for 60
      minutes, and fails exactly when the presigner fails. */
  lemma SignStoredLocator(v: Video, l: Locator, presign: Presigner)
    requires Comma !in l.bucket && Comma !in l.key
    requires v.videoUrl == Some(Encode(l))
    ensures match presign(l.bucket, l.key, PresignExpirySeconds)
            case Some(signed) => DbVideoToSignedVideo(v, presign) == Success(v.(videoUrl := Some(signed)))
            case None => DbVideoToSignedVideo(v, presign) == Failure(PresignFailed(l.bucket, l.key))
  {
    DecodeEncode(l);
  }

  /** A record holding something that is not a single-comma locator is
      never returned: signing reports it as malformed. */
  lemma SignMalformedLocator(v: Video, presign: Presigner)
    requires v.videoUrl.Some? && multiset(v.videoUrl.value)[Comma] != 1
    ensures DbVideoToSignedVideo(v, presign) == Failure(MalformedLocator(v.videoUrl.value))
  {
    DecodeAccepts(v.videoUrl.value);
  }
}
