/** The `Base64Img` value object of the earlier revision: an uploaded image
    given as base64 text, checked and framed as a `data:` URI (RFC 2397)
    before it is handed to the image host. The two base64 engines (RFC 4648
    section 4, with and without padding) and the magic-byte sniffer are
    parameters. */
module Base64Image {
  import opened Wrappers
  import opened Text

  newtype Byte = b: int | 0 <= b < 256

  /** A base64 engine's `decode`: the bytes, or the text of its error. */
  type Decoder = string -> Result<seq<Byte>, string>

  /** The checked value: the complete data URI. */
  datatype Base64Img = Base64Img(value: string)

  /** Why `new` refuses its input. */
  datatype ImgError =
    | EmptyData                                  // "data can not be empty !!"
    | InvalidBase64(detail: string, length: nat) // the second engine's error and the cleaned byte length
    | UnsupportedType(mime: string)              // a sniffed type that is not an allowed image
    | UnknownType(head: seq<Byte>)               // nothing sniffed; the first bytes, at most 10

  /** The image types accepted. */
  predicate Allowed(mime: string) {
    mime == "image/png" || mime == "image/jpeg" || mime == "image/jpg" || mime == "image/webp"
  }

  /** The input with every whitespace character removed. */
  function Clean(data: string): string {
    RemoveAll(data, RustWhitespace)
  }

  /** The padded engine first; the unpadded one only when that fails. */
  function DecodeEither(clean: string, padded: Decoder, unpadded: Decoder): Result<seq<Byte>, ImgError> {
    match padded(clean)
    case Ok(bs) => Ok(bs)
    case Err(_) =>
      match unpadded(clean)
      case Ok(bs) => Ok(bs)
      case Err(e) => Err(InvalidBase64(e, Utf8Len(clean)))
  }

  /** The bytes quoted when no type is recognised. */
  function Head(bytes: seq<Byte>): (h: seq<Byte>)
    ensures |h| <= 10 && h <= bytes
    ensures |bytes| <= 10 ==> h == bytes
  {
    bytes[..if |bytes| < 10 then |bytes| else 10]
  }

  /** `format!("data:{};base64,{}", mime, payload)`. */
  function Frame(mime: string, payload: string): string {
    "data:" + mime + ";base64," + payload
  }

  /** `Base64Img::new`. `infer` stands for `infer::get(..).mime_type()`. */
  function New(data: string, padded: Decoder, unpadded: Decoder, infer: seq<Byte> -> Option<string>): Result<Base64Img, ImgError> {
    var clean := Clean(data);
    if clean == [] then Err(EmptyData)
    else
      match DecodeEither(clean, padded, unpadded)
      case Err(e) => Err(e)
      case Ok(bytes) =>
        match infer(bytes)
        case None => Err(UnknownType(Head(bytes)))
        case Some(mime) => if Allowed(mime) then Ok(Base64Img(Frame(mime, clean))) else Err(UnsupportedType(mime))
  }

  /** `into_inner`: the stored text, unchanged. */
  function IntoInner(img: Base64Img): string {
    img.value
  }

  /** The bytes chosen by the decoder fallback. */
  function Decoded(clean: string, padded: Decoder, unpadded: Decoder): Option<seq<Byte>> {
    if padded(clean).Ok? then Some(padded(clean).value)
    else if unpadded(clean).Ok? then Some(unpadded(clean).value)
    else None
  }

  /** Reads a base64 data URI back: its media type and its payload. */
  function ParseDataUri(v: string): Option<(string, string)> {
    if !StartsWith(v, "data:") then None
    else
      var rest := v[5..];
      if ';' !in rest then None
      else
        var i := IndexOf(rest, ';');
        var after := rest[i..];
        if StartsWith(after, ";base64,") then Some((rest[..i], after[8..])) else None
  }

  // ---------------------------------------------------------------------
  // Properties
  // ---------------------------------------------------------------------

  /** Cleaning leaves no whitespace, and cleaning twice is cleaning once. */
  lemma {:induction false} CleanIdempotent(s: string)
    ensures forall i :: 0 <= i < |Clean(s)| ==> !RustWhitespace(Clean(s)[i])
    ensures Clean(Clean(s)) == Clean(s)
  {
    if s != [] {
      CleanIdempotent(s[1..]);
      if !RustWhitespace(s[0]) {
        var r := Clean(s[1..]);
        assert ([s[0]] + r)[1..] == r;
      }
    }
  }

  /** Cleaning distributes over concatenation. */
  lemma {:induction false} CleanConcat(a: string, b: string)
    ensures Clean(a + b) == Clean(a) + Clean(b)
  {
    if a != [] {
      assert (a + b)[1..] == a[1..] + b;
      CleanConcat(a[1..], b);
    } else {
      assert a + b == b;
    }
  }

  /** Input made only of whitespace cleans to nothing. */
  lemma {:induction false} CleanBlank(s: string)
    requires forall i :: 0 <= i < |s| ==> RustWhitespace(s[i])
    ensures Clean(s) == []
  {
    if s != [] {
      CleanBlank(s[1..]);
    }
  }

  /** `new` accepts exactly when something is left after cleaning, one of
      the engines decodes it and the sniffed type is an allowed image; the
      stored value is then the data URI of that type around the cleaned
      text, which is never re-encoded. */
  lemma NewOkIff(data: string, padded: Decoder, unpadded: Decoder, infer: seq<Byte> -> Option<string>)
    ensures var r := New(data, padded, unpadded, infer);
      var d := Decoded(Clean(data), padded, unpadded);
      r.Ok? <==> Clean(data) != [] && d.Some? && infer(d.value).Some? && Allowed(infer(d.value).value)
    ensures var r := New(data, padded, unpadded, infer);
      var d := Decoded(Clean(data), padded, unpadded);
      r.Ok? ==> IntoInner(r.value) == Frame(infer(d.value).value, Clean(data))
  {
  }

  /** Each refusal and its detail. */
  lemma NewErrors(data: string, padded: Decoder, unpadded: Decoder, infer: seq<Byte> -> Option<string>)
    ensures Clean(data) == [] <==> New(data, padded, unpadded, infer) == Err(EmptyData)
    ensures var clean := Clean(data);
      clean != [] && padded(clean).Err? && unpadded(clean).Err? ==>
        New(data, padded, unpadded, infer) == Err(InvalidBase64(unpadded(clean).error, Utf8Len(clean)))
    ensures var clean := Clean(data);
      var d := Decoded(clean, padded, unpadded);
      clean != [] && d.Some? && infer(d.value).None? ==>
        New(data, padded, unpadded, infer) == Err(UnknownType(Head(d.value)))
    ensures var clean := Clean(data);
      var d := Decoded(clean, padded, unpadded);
      clean != [] && d.Some? && infer(d.value).Some? && !Allowed(infer(d.value).value) ==>
        New(data, padded, unpadded, infer) == Err(UnsupportedType(infer(d.value).value))
  {
  }

  /** Blank input is refused as empty, whatever the engines say. */
  lemma BlankRefused(data: string, padded: Decoder, unpadded: Decoder, infer: seq<Byte> -> Option<string>)
    requires forall i :: 0 <= i < |data| ==> RustWhitespace(data[i])
    ensures New(data, padded, unpadded, infer) == Err(EmptyData)
  {
    CleanBlank(data);
  }

  /** The unpadded engine is consulted only when the padded one fails. */
  lemma PaddedFirst(data: string, padded: Decoder, u1: Decoder, u2: Decoder, infer: seq<Byte> -> Option<string>)
    requires padded(Clean(data)).Ok?
    ensures New(data, padded, u1, infer) == New(data, padded, u2, infer)
  {
  }

  /** Whitespace anywhere in the input, line breaks of wrapped base64
      included, changes nothing. */
  lemma WhitespaceIgnored(a: string, c: char, b: string, padded: Decoder, unpadded: Decoder, infer: seq<Byte> -> Option<string>)
    requires RustWhitespace(c)
    ensures New(a + [c] + b, padded, unpadded, infer) == New(a + b, padded, unpadded, infer)
  {
    CleanConcat(a + [c], b);
    CleanConcat(a, [c]);
    CleanConcat(a, b);
    assert Clean([c]) == [] by {
      assert [c][0] == c && [c][1..] == [];
    }
    assert Clean(a + [c] + b) == Clean(a + b);
  }

  /** Checking the cleaned text again gives the same answer. */
  lemma NewOfClean(data: string, padded: Decoder, unpadded: Decoder, infer: seq<Byte> -> Option<string>)
    ensures New(Clean(data), padded, unpadded, infer) == New(data, padded, unpadded, infer)
  {
    CleanIdempotent(data);
  }

  /** The data URI frame reads back as its media type and payload when the
      type has no ';'. */
  lemma FrameParse(mime: string, payload: string)
    requires ';' !in mime
    ensures ParseDataUri(Frame(mime, payload)) == Some((mime, payload))
  {
    var v := Frame(mime, payload);
    assert v[..5] == "data:";
    var rest := v[5..];
    assert rest == mime + ";base64," + payload;
    assert rest[|mime|] == ';';
    var i := IndexOf(rest, ';');
    assert rest[..|mime|] == mime;
    assert i == |mime|;
    assert rest[i..] == ";base64," + payload;
    assert rest[i..][..8] == ";base64,";
  }

  /** No allowed type has a ';'. */
  lemma AllowedPlain(mime: string)
    requires Allowed(mime)
    ensures ';' !in mime
  {
    assert forall k :: 0 <= k < |mime| ==> 'a' <= mime[k] <= 'z' || mime[k] == '/';
  }

  /** An accepted image's value reads back as an allowed type and the
      cleaned input: the framing loses nothing. */
  lemma NewRoundTrip(data: string, padded: Decoder, unpadded: Decoder, infer: seq<Byte> -> Option<string>)
    requires New(data, padded, unpadded, infer).Ok?
    ensures var p := ParseDataUri(IntoInner(New(data, padded, unpadded, infer).value));
      p.Some? && Allowed(p.value.0) && p.value.1 == Clean(data)
      && p.value.0 == infer(Decoded(Clean(data), padded, unpadded).value).value
  {
    NewOkIff(data, padded, unpadded, infer);
    var mime := infer(Decoded(Clean(data), padded, unpadded).value).value;
    AllowedPlain(mime);
    FrameParse(mime, Clean(data));
  }
}
