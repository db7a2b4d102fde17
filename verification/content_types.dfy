/** The two content-type validators applied to the `Content-Type` header of
    the uploaded form file. */
module ContentTypes {
  import opened Results
  import Strings

  /** The only media type the video handler accepts; also the content type
      it stores the object under. */
  const Mp4MediaType: string := "video/mp4"

  /** `readContentType`: split on `/`; exactly two pieces, the first being
      `image`, and the second is the file extension. */
  function ReadContentType(ts: string): (r: Result<string>)
    ensures r.Failure? ==> r.error == NotImageType(ts)
  {
    var parts := Strings.Split(ts, '/');
    if |parts| != 2 then Failure(NotImageType(ts))
    else if parts[0] != "image" then Failure(NotImageType(ts))
    else Success(parts[1])
  }

  /** Every `image/<ext>` header with no further `/` is accepted, and the
      extension returned is `<ext>`. */
  lemma ReadContentTypeOfImage(ext: string)
    requires '/' !in ext
    ensures ReadContentType("image/" + ext) == Success(ext)
  {
    var ts := "image/" + ext;
    assert ts == "image" + ['/'] + ext;
    Strings.SplitAround("image", ext, '/');
    assert '/' !in "image";
    Strings.SplitFree("image", '/');
    Strings.SplitFree(ext, '/');
  }

  /** An accepted header is `image/` followed by the returned extension,
      which holds no `/`; the header therefore has exactly one `/`. */
  lemma ReadContentTypeSound(ts: string)
    requires ReadContentType(ts).Success?
    ensures ts == "image/" + ReadContentType(ts).value
    ensures '/' !in ReadContentType(ts).value
    ensures multiset(ts)['/'] == 1
  {
    var parts := Strings.Split(ts, '/');
    Strings.SplitInTwo(ts, '/');
    assert parts[0] == "image";
    assert ts == "image" + ['/'] + parts[1];
    assert "image" + ['/'] == "image/";
  }

  /** `readContentType` accepts exactly the headers that start with
      `image/` and contain no other `/`; the extension it returns is the
      rest of the header, so prefixing `image/` gives the header back. */
  lemma ReadContentTypeAccepts(ts: string)
    ensures ReadContentType(ts).Success? <==>
              |ts| >= 6 && ts[..6] == "image/" && '/' !in ts[6..]
    ensures ReadContentType(ts).Success? ==>
              && multiset(ts)['/'] == 1
              && '/' !in ReadContentType(ts).value
              && ts == "image/" + ReadContentType(ts).value
  {
    if |ts| >= 6 && ts[..6] == "image/" && '/' !in ts[6..] {
      assert ts == "image/" + ts[6..];
      ReadContentTypeOfImage(ts[6..]);
    }
    if ReadContentType(ts).Success? {
      ReadContentTypeSound(ts);
      var ext := ReadContentType(ts).value;
      assert ts[..6] == "image/" && ts[6..] == ext;
    }
  }

  /** Concrete accepted headers: a PNG, a bare `image/` (empty extension),
      and a subtype with a `+`. */
  lemma ReadContentTypeAcceptsExamples()
    ensures ReadContentType("image/png") == Success("png")
    ensures ReadContentType("image/") == Success("")
    ensures ReadContentType("image/svg+xml") == Success("svg+xml")
  {
    ReadContentTypeOfImage("png");
    assert "image/" + "png" == "image/png";
    ReadContentTypeOfImage("");
    assert "image/" + "" == "image/";
    ReadContentTypeOfImage("svg+xml");
    assert "image/" + "svg+xml" == "image/svg+xml";
  }

  /** A PDF header is rejected. */
  lemma ReadContentTypeRejectsPdf()
    ensures ReadContentType("application/pdf") == Failure(NotImageType("application/pdf"))
  {
    var pdf := "application/pdf";
    assert pdf[..6][0] != "image/"[0];
    ReadContentTypeAccepts(pdf);
  }

  /** An image header with a second slash is rejected. */
  lemma ReadContentTypeRejectsTwoSlashes()
    ensures ReadContentType("image/png/x").Failure?
  {
    var twice := "image/png/x";
    assert twice[6..][3] == '/';
    ReadContentTypeAccepts(twice);
  }

  /** `mime.ParseMediaType`, kept abstract: the media type it reads from a
      header, or `None` when the header does not parse. */
  type MediaTypeParser = string -> Option<string>

  /** `readVideoContentType`: the header must parse, and its media type must
      be exactly `video/mp4`. */
  function ReadVideoContentType(ts: string, parseMediaType: MediaTypeParser): (r: Outcome)
    ensures r.Pass? <==> parseMediaType(ts) == Some(Mp4MediaType)
    ensures parseMediaType(ts).None? ==> r == Fail(InvalidMediaType(ts))
    ensures parseMediaType(ts).Some? && parseMediaType(ts).value != Mp4MediaType ==>
              r == Fail(NotMp4(parseMediaType(ts).value))
  {
    match parseMediaType(ts)
    case None => Fail(InvalidMediaType(ts))
    case Some(mediaType) =>
      if mediaType != Mp4MediaType then Fail(NotMp4(mediaType)) else Pass
  }

  /** No header is accepted by both validators when the media-type parser
      returns the header unchanged: the video handler's only type is not an
      image type. */
  lemma NoHeaderPassesBoth(ts: string, parseMediaType: MediaTypeParser)
    requires parseMediaType(ts) == Some(ts)
    ensures !(ReadVideoContentType(ts, parseMediaType).Pass? && ReadContentType(ts).Success?)
  {
    if ReadVideoContentType(ts, parseMediaType).Pass? {
      ReadContentTypeAccepts(ts);
      assert ts == Mp4MediaType;
    }
  }
}
