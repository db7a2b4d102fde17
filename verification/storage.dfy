/** Where an uploaded video lives in object storage, and how that place is
    written into the record's `VideoURL`: the locator `bucket,key`, read back
    by splitting on the comma. */
module Storage {
  import opened Results
  import Strings

  /** The aspect-ratio class the prober reports; it prefixes the object key. */
  datatype AspectClass = Landscape | Portrait | Other

  /** The prefix string `GetVideoAspectRatio` returns for each class. */
  function Prefix(a: AspectClass): (p: string)
    ensures '/' !in p && ',' !in p && |p| > 0
  {
    match a
    case Landscape => "landscape"
    case Portrait => "portrait"
    case Other => "other"
  }

  /** The extension every stored video gets. */
  const VideoExtension: string := "mp4"

  /** The alphabet of unpadded base64url (section 5 of RFC 4648), in which
      the random object names are written. */
  predicate IsBase64UrlChar(ch: char)
  {
    || ('A' <= ch <= 'Z') || ('a' <= ch <= 'z') || ('0' <= ch <= '9')
    || ch == '-' || ch == '_'
  }

  predicate IsObjectName(name: string)
  {
    forall k :: 0 <= k < |name| ==> IsBase64UrlChar(name[k])
  }

  /** The object key `<prefix>/<name>.mp4`. */
  function ObjectKey(a: AspectClass, name: string): (key: string)
    ensures |key| == |Prefix(a)| + |name| + 5
    ensures key[..|Prefix(a)|] == Prefix(a) && key[|Prefix(a)|] == '/'
    ensures key[|key| - 4..] == ".mp4"
  {
    Prefix(a) + "/" + name + "." + VideoExtension
  }

  /** A key built from a base64url name has no comma, splits on `/` into the
      class prefix and the file name, and ends in `.mp4`. */
  lemma ObjectKeyShape(a: AspectClass, name: string)
    requires IsObjectName(name)
    ensures ',' !in ObjectKey(a, name)
    ensures Strings.Split(ObjectKey(a, name), '/') == [Prefix(a), name + ".mp4"]
    ensures |ObjectKey(a, name)| >= 4
    ensures ObjectKey(a, name)[|ObjectKey(a, name)| - 4..] == ".mp4"
  {
    var key := ObjectKey(a, name);
    var file := name + ".mp4";
    assert key == Prefix(a) + ['/'] + file;
    forall k | 0 <= k < |file|
      ensures file[k] != '/' && file[k] != ','
    {
      if k < |name| {
        assert IsBase64UrlChar(name[k]);
      }
    }
    Strings.SplitAround(Prefix(a), file, '/');
    Strings.SplitFree(Prefix(a), '/');
    Strings.SplitFree(file, '/');
  }

  /** The place an object was stored: a bucket and a key in it. */
  datatype Locator = Locator(bucket: string, key: string)

  /** The separator between bucket and key. */
  const Comma: char := ','

  /** The stored form, `fmt.Sprintf("%s,%s", bucket, key)`. */
  function Encode(l: Locator): (s: string)
    ensures |s| == |l.bucket| + 1 + |l.key| && s[|l.bucket|] == Comma
    ensures s[..|l.bucket|] == l.bucket && s[|l.bucket| + 1..] == l.key
  {
    l.bucket + [Comma] + l.key
  }

  /** The reading side of `dbVideoToSignedVideo`: split on commas and insist
      on exactly two pieces. */
  function Decode(s: string): (r: Result<Locator>)
    ensures r.Failure? ==> r.error == MalformedLocator(s)
  {
    var parts := Strings.Split(s, Comma);
    if |parts| != 2 then Failure(MalformedLocator(s))
    else Success(Locator(parts[0], parts[1]))
  }

  /** Decoding succeeds exactly on strings with one comma, and what it
      returns encodes back to the input, with comma-free components. */
  lemma DecodeAccepts(s: string)
    ensures Decode(s).Success? <==> multiset(s)[Comma] == 1
    ensures Decode(s).Success? ==>
              && Encode(Decode(s).value) == s
              && Comma !in Decode(s).value.bucket
              && Comma !in Decode(s).value.key
  {
    Strings.SplitInTwo(s, Comma);
  }

  /** Round trip: a locator whose bucket and key have no comma decodes to
      itself. */
  lemma DecodeEncode(l: Locator)
    requires Comma !in l.bucket && Comma !in l.key
    ensures Decode(Encode(l)) == Success(l)
  {
    Strings.SplitAround(l.bucket, l.key, Comma);
    Strings.SplitFree(l.bucket, Comma);
    Strings.SplitFree(l.key, Comma);
  }

  /** The round trip's condition is needed: a comma in either component
      makes the stored locator undecodable. */
  lemma DecodeEncodeNeedsCommaFree(l: Locator)
    requires Comma in l.bucket || Comma in l.key
    ensures Decode(Encode(l)) == Failure(MalformedLocator(Encode(l)))
  {
    var s := Encode(l);
    assert multiset(s) == multiset(l.bucket) + multiset{Comma} + multiset(l.key);
    if Comma in l.bucket {
      assert Comma in multiset(l.bucket);
    } else {
      assert Comma in multiset(l.key);
    }
    DecodeAccepts(s);
  }

  /** The locator the video handler stores decodes back to its bucket and
      object key whenever the configured bucket name has no comma. */
  lemma StoredLocatorDecodes(bucket: string, a: AspectClass, name: string)
    requires Comma !in bucket && IsObjectName(name)
    ensures Decode(Encode(Locator(bucket, ObjectKey(a, name)))) ==
              Success(Locator(bucket, ObjectKey(a, name)))
  {
    ObjectKeyShape(a, name);
    DecodeEncode(Locator(bucket, ObjectKey(a, name)));
  }
}
