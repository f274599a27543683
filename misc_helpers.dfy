/** `getResizedImage`: the link to the image resizer service for an image URL. */
module MiscHelpers {
  import opened Wrappers
  import opened Text
  import opened Encoding

  /** What an empty image URL is replaced by. */
  const BrokenImage := "https://paramlabs.fra1.cdn.digitaloceanspaces.com/static/broken-image.png"
  const DefaultSize: nat := 640
  const ResizerPath := "/resizer/url="

  /** The `url` parameter: the percent-encoded base64 of the URL's UTF-8 bytes. */
  function ImageParam(imageUrl: string): string {
    EncodeURIComponent(Base64(Utf8(imageUrl)))
  }

  /** What the resizer does with the `url` parameter: percent-decode, base64
      decode, UTF-8 decode. */
  function ReadImageParam(param: string): Option<string> {
    match DecodeURIComponent(param)
    case None => None
    case Some(b64) =>
      match Unbase64(b64)
      case None => None
      case Some(bytes) => Unutf8(bytes)
  }

  /** The parameter carries the image URL intact. */
  lemma ImageParamRoundTrip(imageUrl: string)
    ensures ReadImageParam(ImageParam(imageUrl)) == Some(imageUrl)
  {
    var b64 := Base64(Utf8(imageUrl));
    URIRoundTrip(b64);
    Base64RoundTrip(Utf8(imageUrl));
    Utf8RoundTrip(imageUrl);
  }

  /** The parameter holds no `&`, `=`, `+` or `/`, so it cannot run into the
      `w` parameter or be altered by form decoding. */
  lemma ImageParamIsSafe(imageUrl: string)
    ensures forall k :: 0 <= k < |ImageParam(imageUrl)| ==> ImageParam(imageUrl)[k] !in "&=+/"
  {
    EncodedIsSafe(Base64(Utf8(imageUrl)));
  }

  /** `getResizedImage(imageUrl, size)`; `publicUrl` is the configured public
      URL and an absent `size` is 640. */
  function GetResizedImage(publicUrl: string, imageUrl: string, size: Option<nat>): (r: string)
    ensures imageUrl == "" ==> r == BrokenImage
    ensures imageUrl != "" ==> StartsWith(r, publicUrl + ResizerPath)
  {
    if imageUrl == "" then BrokenImage
    else publicUrl + ResizerPath + ImageParam(imageUrl) + "&w=" + DecimalString(size.GetOr(DefaultSize))
  }

  lemma NoAmpersand(imageUrl: string)
    ensures '&' !in ImageParam(imageUrl)
  {
    ImageParamIsSafe(imageUrl);
  }

  lemma SplitPair(x: string, w: string)
    requires '&' !in x && '&' !in w
    ensures Split(x + ['&'] + w, '&') == [x, w]
  {
    SplitCons(x, '&', w);
  }

  lemma QueryOf(prefix: string, x: string, d: string)
    ensures (prefix + x + "&w=" + d)[|prefix|..] == x + ['&'] + ("w=" + d)
  {
    assert prefix + x + "&w=" + d == prefix + (x + ['&'] + ("w=" + d));
  }

  /** After the resizer path, the link holds exactly two parameters: the
      image URL, which reads back intact, and the width. */
  lemma ResizedQuery(publicUrl: string, imageUrl: string, size: Option<nat>)
    requires imageUrl != ""
    ensures var r := GetResizedImage(publicUrl, imageUrl, size);
      var query := r[|publicUrl + ResizerPath|..];
      && Split(query, '&') == [ImageParam(imageUrl), "w=" + DecimalString(size.GetOr(DefaultSize))]
      && ReadImageParam(Split(query, '&')[0]) == Some(imageUrl)
  {
    var x := ImageParam(imageUrl);
    var w := "w=" + DecimalString(size.GetOr(DefaultSize));
    QueryOf(publicUrl + ResizerPath, x, DecimalString(size.GetOr(DefaultSize)));
    NoAmpersand(imageUrl);
    assert '&' !in w;
    SplitPair(x, w);
    ImageParamRoundTrip(imageUrl);
  }
}
