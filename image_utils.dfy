/**
 * The image source a book card shows
 * (frontend/FH_book/src/utils/imageUtils.js): a URL or data URL as given,
 * a long bare string or a byte array as a JPEG data URL, and otherwise a
 * placeholder carrying the start of the title.
 */
module ImageUtils {
  import opened Text
  import opened Values
  import Base64

  const PlaceholderPrefix: string := "https://placehold.co/300x400/4A6572/FFFFFF?text="
  const DefaultPlaceholder: string := "https://placehold.co/300x400/4A6572/FFFFFF?text=Book"
  const JpegPrefix: string := "data:image/jpeg;base64,"

  /** The placeholder: the first 20 characters of the title, URL-encoded, or "Book" for no title. */
  function Placeholder(title: string): (url: string)
    ensures StartsWith(url, PlaceholderPrefix)
    ensures title == "" ==> url == DefaultPlaceholder
    ensures title != "" ==> url == PlaceholderPrefix + EncodeURIComponent(Prefix(title, 20))
    ensures title != "" ==> PercentDecode(url[|PlaceholderPrefix|..]) == Utf8Bytes(Prefix(title, 20))
  {
    EncodeUnreserved("Book");
    var shown := if title != "" then Prefix(title, 20) else "Book";
    DecodeEncode(shown);
    var url := PlaceholderPrefix + EncodeURIComponent(shown);
    assert url[|PlaceholderPrefix|..] == EncodeURIComponent(shown);
    url
  }

  /** `new Uint8Array(values)` on one element: the value modulo 256. */
  function ToUint8(x: int): (b: int)
    ensures Base64.IsByte(b)
    ensures Base64.IsByte(x) ==> b == x
  {
    x % 256
  }

  /** The string of byte-valued characters the loop builds. */
  function Latin1(values: seq<int>): (s: string)
    ensures |s| == |values|
    ensures forall i :: 0 <= i < |s| ==> s[i] as int == ToUint8(values[i])
  {
    seq(|values|, i requires 0 <= i < |values| => ToUint8(values[i]) as char)
  }

  /** The codes of a string of byte-valued characters, as `btoa` reads them. */
  function Codes(s: string): (bs: seq<int>)
    requires forall i :: 0 <= i < |s| ==> s[i] as int < 256
    ensures Base64.Bytes(bs) && |bs| == |s|
  {
    seq(|s|, i requires 0 <= i < |s| => s[i] as int)
  }

  /** What `getImageSrc` returns. */
  function ImageSrc(book: Option<Book>): (src: string)
    ensures book.None? ==> src == DefaultPlaceholder
    ensures book.Some? && book.value.image.ImageText? && book.value.image.s != "" ==>
      var s := book.value.image.s;
      src == (if StartsWith(s, "http") || StartsWith(s, "data:") then s
              else if Utf16Length(s) > 100 then JpegPrefix + s
              else s)
    ensures book.Some? && book.value.image.ByteArray? ==>
      src == JpegPrefix + Base64.Encode(Codes(Latin1(book.value.image.bytes)))
    ensures book.Some? && !book.value.image.ByteArray? && !(book.value.image.ImageText? && book.value.image.s != "") ==>
      src == Placeholder(book.value.title)
  {
    match book
    case None => DefaultPlaceholder
    case Some(b) =>
      match b.image
      case ImageText(s) =>
        if s == "" then Placeholder(b.title)
        else if StartsWith(s, "http") || StartsWith(s, "data:") then s
        else if Utf16Length(s) > 100 then JpegPrefix + s
        else s
      case ByteArray(values) => JpegPrefix + Base64.Encode(Codes(Latin1(values)))
      case _ => Placeholder(b.title)
  }

  /**
   * `getImageSrc`, with its loop turning the byte array into a string one
   * `String.fromCharCode` at a time. `btoa` cannot throw on that string, so
   * the fallback after the catch is never taken for a byte array.
   */
  method GetImageSrc(book: Option<Book>) returns (src: string)
    ensures src == ImageSrc(book)
  {
    if book.None? {
      return DefaultPlaceholder;
    }
    var b := book.value;
    if b.image.ImageText? && b.image.s != "" {
      var s := b.image.s;
      if StartsWith(s, "http") || StartsWith(s, "data:") {
        return s;
      }
      if Utf16Length(s) > 100 {
        return JpegPrefix + s;
      }
      return s;
    }
    if b.image.ByteArray? {
      var values := b.image.bytes;
      var binary := "";
      for i := 0 to |values|
        invariant binary == Latin1(values[..i])
      {
        binary := binary + [ToUint8(values[i]) as char];
      }
      assert values[..|values|] == values;
      return JpegPrefix + Base64.Encode(Codes(binary));
    }
    src := Placeholder(b.title);
  }

  // ---------------------------------------------------------------------
  // Facts

  /** A byte array's data URL carries the bytes: decoding after the prefix gives them back. */
  lemma ByteArrayRoundTrip(values: seq<int>)
    requires Base64.Bytes(values)
    ensures var src := ImageSrc(Some(Book(0, "", "", "", "", Missing, Missing, ByteArray(values))));
      StartsWith(src, JpegPrefix)
      && |src[|JpegPrefix|..]| % 4 == 0
      && Base64.Decode(src[|JpegPrefix|..]) == values
  {
    var src := ImageSrc(Some(Book(0, "", "", "", "", Missing, Missing, ByteArray(values))));
    DataUrlOfBytes(values, src);
    Base64.RoundTrip(values);
  }

  lemma DataUrlOfBytes(values: seq<int>, src: string)
    requires Base64.Bytes(values)
    requires src == ImageSrc(Some(Book(0, "", "", "", "", Missing, Missing, ByteArray(values))))
    ensures StartsWith(src, JpegPrefix) && src[|JpegPrefix|..] == Base64.Encode(values)
  {
    CodesOfBytes(values);
    PrefixSplit(JpegPrefix, Base64.Encode(values));
  }

  lemma CodesOfBytes(values: seq<int>)
    requires Base64.Bytes(values)
    ensures Codes(Latin1(values)) == values
  {
  }

  lemma PrefixSplit(p: string, rest: string)
    ensures StartsWith(p + rest, p) && (p + rest)[|p|..] == rest
  {
    assert (p + rest)[..|p|] == p;
  }

  /** Every result is one of: the image text itself, a JPEG data URL, or a placeholder. */
  lemma SourceKinds(book: Option<Book>)
    ensures var src := ImageSrc(book);
      || StartsWith(src, JpegPrefix)
      || StartsWith(src, PlaceholderPrefix)
      || (book.Some? && book.value.image.ImageText? && src == book.value.image.s)
  {
    var src := ImageSrc(book);
    if book.Some? && (book.value.image.ByteArray? ||
                      (book.value.image.ImageText? && book.value.image.s != "" &&
                       !StartsWith(book.value.image.s, "http") && !StartsWith(book.value.image.s, "data:") &&
                       Utf16Length(book.value.image.s) > 100)) {
      assert src[..|JpegPrefix|] == JpegPrefix;
    }
  }

  /** An empty image string is treated as no image: the placeholder by title. */
  lemma EmptyImageIsPlaceholder(title: string)
    ensures ImageSrc(Some(Book(1, title, "", "", "", Missing, Missing, ImageText("")))) == Placeholder(title)
  {
  }

  /** A title is cut to its first 20 characters before encoding. */
  lemma LongTitleCut(title: string)
    requires |title| > 20
    ensures Placeholder(title) == PlaceholderPrefix + EncodeURIComponent(title[..20])
  {
  }
}
