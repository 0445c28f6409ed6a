/** The deterministic part of services/geminiService.ts: what `generateCardContent` does with
    the answers of its two model calls. The calls themselves are oracles (functions from their
    input to a reply that may be a thrown error), and so is `JSON.parse`. */
module GeminiService {
  import opened Wrappers
  import opened Types

  /** `part.inlineData` of one part of a model answer. */
  datatype InlineData = InlineData(data: Option<string>)

  datatype Part = Part(text: Option<string>, inlineData: Option<InlineData>)

  datatype Content = Content(parts: Option<seq<Part>>)

  datatype Candidate = Candidate(content: Option<Content>)

  /** The answer of the image call: `candidates` may be absent. */
  datatype ImageResponse = ImageResponse(candidates: Option<seq<Candidate>>)

  /** The answer of the text call: only its `text` is used. */
  datatype TextResponse = TextResponse(text: Option<string>)

  /** What `JSON.parse` gives: an object (its string-valued properties), `null` (any property
      access on it throws) or a syntax error (it throws). */
  datatype Json = Object(fields: map<string, string>) | Null | Unparsable

  const DefaultImageUrl := "https://picsum.photos/600/800"
  const ImageDataPrefix := "data:image/png;base64,"
  const StylisticSuffix := "Japanese photography style, airy aesthetic, soft lighting, film grain, Hasselblad, overexposed highlights, emotional atmosphere, high quality, 8k, photorealistic but artistic"

  /** The record returned from the catch block. */
  const FallbackCard := CardContent(
    "https://images.unsplash.com/photo-1482638202371-aa1c17ffb50b?q=80&w=600&auto=format&fit=crop",
    Some("一番大切なものは、目に見えない。"),
    Some("真正重要的東西，是用眼睛看不見的。"),
    Some("Saint-Exupéry"),
    Some("The Little Prince"))

  /** `part.inlineData && part.inlineData.data`: the empty string is falsy. */
  predicate HasImageData(p: Part)
  {
    p.inlineData.Some? && p.inlineData.value.data.Some? && p.inlineData.value.data.value != ""
  }

  function ImageData(p: Part): string
    requires HasImageData(p)
  {
    p.inlineData.value.data.value
  }

  /** The value `imageUrl` has after the `for` loop over `parts`. */
  function SelectImageUrl(parts: seq<Part>): string
  {
    if parts == [] then DefaultImageUrl
    else if HasImageData(parts[0]) then ImageDataPrefix + ImageData(parts[0])
    else SelectImageUrl(parts[1..])
  }

  /** The first part that carries image data decides the URL; later parts are ignored. */
  lemma {:induction false} FirstImagePartWins(parts: seq<Part>, i: nat)
    requires i < |parts| && HasImageData(parts[i])
    requires forall j :: 0 <= j < i ==> !HasImageData(parts[j])
    ensures SelectImageUrl(parts) == ImageDataPrefix + ImageData(parts[i])
  {
    if i > 0 {
      assert !HasImageData(parts[0]);
      FirstImagePartWins(parts[1..], i - 1);
    }
  }

  /** With no part carrying image data, the default URL is kept. */
  lemma {:induction false} NoImagePartKeepsDefault(parts: seq<Part>)
    requires forall j :: 0 <= j < |parts| ==> !HasImageData(parts[j])
    ensures SelectImageUrl(parts) == DefaultImageUrl
  {
    if parts != [] {
      assert !HasImageData(parts[0]);
      NoImagePartKeepsDefault(parts[1..]);
    }
  }

  /** The selected URL is the default exactly when no part carries image data (image data
      is never empty, so a data URI is never the default). */
  lemma {:induction false} DefaultIffNoImagePart(parts: seq<Part>)
    ensures SelectImageUrl(parts) == DefaultImageUrl
        <==> forall j :: 0 <= j < |parts| ==> !HasImageData(parts[j])
  {
    if parts != [] {
      DefaultIffNoImagePart(parts[1..]);
      if HasImageData(parts[0]) {
        assert SelectImageUrl(parts)[..|ImageDataPrefix|] == ImageDataPrefix;
        assert DefaultImageUrl[..|ImageDataPrefix|] != ImageDataPrefix;
      } else {
        assert forall j :: 1 <= j < |parts| ==> parts[j] == parts[1..][j - 1];
      }
    }
  }

  /** The `for ... of` loop with `break` that reassigns `imageUrl`. */
  method FindImageUrl(parts: seq<Part>) returns (imageUrl: string)
    ensures imageUrl == SelectImageUrl(parts)
  {
    imageUrl := DefaultImageUrl;
    var i := 0;
    while i < |parts|
      invariant 0 <= i <= |parts|
      invariant imageUrl == DefaultImageUrl
      invariant SelectImageUrl(parts) == SelectImageUrl(parts[i..])
    {
      if HasImageData(parts[i]) {
        imageUrl := ImageDataPrefix + ImageData(parts[i]);
        break;
      }
      assert parts[i..][1..] == parts[i + 1..];
      i := i + 1;
    }
  }

  /** The image URL of an image answer, or Threw when reading it throws: an empty
      `candidates` array or a first candidate without `content` raises a TypeError. */
  function ImageUrlOf(response: ImageResponse): (r: Reply<string>)
    ensures response.candidates.None? ==> r == Returned(DefaultImageUrl)
    ensures r.Threw? <==> response.candidates.Some?
                          && (|response.candidates.value| == 0 || response.candidates.value[0].content.None?)
    ensures response.candidates.Some? && |response.candidates.value| > 0
            && response.candidates.value[0].content.Some? ==>
              r == Returned(match response.candidates.value[0].content.value.parts
                            case None => DefaultImageUrl
                            case Some(ps) => SelectImageUrl(ps))
  {
    match response.candidates
    case None => Returned(DefaultImageUrl)
    case Some(cs) =>
      if |cs| == 0 || cs[0].content.None? then Threw
      else match cs[0].content.value.parts
        case None => Returned(DefaultImageUrl)
        case Some(parts) => Returned(SelectImageUrl(parts))
  }

  /** `textResponse.text || "{}"` parsed: empty or missing text is the empty object and is
      never handed to the parser. */
  function ParseText(response: TextResponse, parse: string -> Json): (data: Json)
    ensures (response.text.None? || response.text.value == "") ==> data == Object(map[])
    ensures response.text.Some? && response.text.value != "" ==> data == parse(response.text.value)
  {
    if response.text.None? || response.text.value == "" then Object(map[])
    else parse(response.text.value)
  }

  /** A property of the parsed JSON; a missing one is `undefined`. */
  function Property(fields: map<string, string>, name: string): Option<string>
  {
    if name in fields then Some(fields[name]) else None
  }

  /** A template-literal interpolation: `undefined` prints as "undefined". */
  function Interpolate(v: Option<string>): string
  {
    v.GetOr("undefined")
  }

  /** `${data.imagePrompt}, ${stylisticSuffix}`. */
  function ImagePrompt(fields: map<string, string>): (prompt: string)
    ensures "imagePrompt" in fields ==> prompt == fields["imagePrompt"] + ", " + StylisticSuffix
    ensures "imagePrompt" !in fields ==> prompt == "undefined, " + StylisticSuffix
  {
    Interpolate(Property(fields, "imagePrompt")) + ", " + StylisticSuffix
  }

  /** The try block: Threw when any step before the return throws. */
  function TryGenerate(
    day: int, userDescription: string,
    textCall: (int, string) -> Reply<TextResponse>,
    parse: string -> Json,
    imageCall: string -> Reply<ImageResponse>): Reply<CardContent>
  {
    match textCall(day, userDescription)
    case Threw => Threw
    case Returned(text) =>
      match ParseText(text, parse)
      case Unparsable => Threw
      case Null => Threw
      case Object(fields) =>
        match imageCall(ImagePrompt(fields))
        case Threw => Threw
        case Returned(image) =>
          match ImageUrlOf(image)
          case Threw => Threw
          case Returned(url) =>
            Returned(CardContent(url,
              Property(fields, "quoteJp"), Property(fields, "quoteZh"),
              Property(fields, "source"), Property(fields, "workTitle")))
  }

  /** `generateCardContent`. It never rejects: whatever the oracles do, a card comes back,
      and it is the fixed fallback record whenever the try block throws. */
  function GenerateCardContent(
    day: int, userDescription: string,
    textCall: (int, string) -> Reply<TextResponse>,
    parse: string -> Json,
    imageCall: string -> Reply<ImageResponse>): (card: CardContent)
    ensures TryGenerate(day, userDescription, textCall, parse, imageCall).Threw? ==> card == FallbackCard
  {
    match TryGenerate(day, userDescription, textCall, parse, imageCall)
    case Threw => FallbackCard
    case Returned(c) => c
  }

  /** A failed text call, an unparsable or `null` answer, a failed image call or an image
      answer whose first candidate cannot be read each give exactly the fallback record. */
  lemma EveryExceptionGivesFallback(
    day: int, userDescription: string,
    textCall: (int, string) -> Reply<TextResponse>,
    parse: string -> Json,
    imageCall: string -> Reply<ImageResponse>)
    ensures var text := textCall(day, userDescription);
            var data := if text.Threw? then Unparsable else ParseText(text.value, parse);
            (text.Threw? || !data.Object?
             || imageCall(ImagePrompt(data.fields)).Threw?
             || ImageUrlOf(imageCall(ImagePrompt(data.fields)).value).Threw?)
            ==> GenerateCardContent(day, userDescription, textCall, parse, imageCall) == FallbackCard
  {
  }

  /** On the success path the four text fields are the parsed properties, copied verbatim,
      and the image URL is the one selected from the image answer. */
  lemma SuccessCopiesFields(
    day: int, userDescription: string,
    textCall: (int, string) -> Reply<TextResponse>,
    parse: string -> Json,
    imageCall: string -> Reply<ImageResponse>,
    text: TextResponse, fields: map<string, string>, image: ImageResponse, url: string)
    requires textCall(day, userDescription) == Returned(text)
    requires ParseText(text, parse) == Object(fields)
    requires imageCall(ImagePrompt(fields)) == Returned(image)
    requires ImageUrlOf(image) == Returned(url)
    ensures var card := GenerateCardContent(day, userDescription, textCall, parse, imageCall);
            && card.imageUrl == url
            && card.quoteJp == Property(fields, "quoteJp")
            && card.quoteZh == Property(fields, "quoteZh")
            && card.source == Property(fields, "source")
            && card.workTitle == Property(fields, "workTitle")
  {
  }

  /** Every card's image URL is the default, a PNG data URI, or the fallback record's. */
  lemma ImageUrlShapes(
    day: int, userDescription: string,
    textCall: (int, string) -> Reply<TextResponse>,
    parse: string -> Json,
    imageCall: string -> Reply<ImageResponse>)
    ensures var card := GenerateCardContent(day, userDescription, textCall, parse, imageCall);
            || card == FallbackCard
            || card.imageUrl == DefaultImageUrl
            || (|card.imageUrl| > |ImageDataPrefix| && card.imageUrl[..|ImageDataPrefix|] == ImageDataPrefix)
  {
    var r := TryGenerate(day, userDescription, textCall, parse, imageCall);
    if r.Returned? {
      var text := textCall(day, userDescription).value;
      var fields := ParseText(text, parse).fields;
      var image := imageCall(ImagePrompt(fields)).value;
      var cs := image.candidates;
      if cs.Some? && cs.value[0].content.value.parts.Some? {
        SelectedUrlShape(cs.value[0].content.value.parts.value);
      }
    }
  }

  lemma {:induction false} SelectedUrlShape(parts: seq<Part>)
    ensures var u := SelectImageUrl(parts);
            || u == DefaultImageUrl
            || (|u| > |ImageDataPrefix| && u[..|ImageDataPrefix|] == ImageDataPrefix)
  {
    if parts != [] && !HasImageData(parts[0]) {
      SelectedUrlShape(parts[1..]);
    }
  }
}
