/**
 * The decision logic of `GeminiService`: which image a response carries,
 * which request each call sends, and which result or error each call ends
 * with. The backend is not called: each operation takes the backend's reply
 * as a parameter and returns the request it sent (None when it threw before
 * sending one).
 */
module GeminiService {
  import opened Wrappers
  import opened Text
  import Patterns

  /** A thrown value; `message` is absent when the value has none. */
  datatype Error = Error(message: Option<string>)

  const MissingKeyError: Error := Error(Some("MISSING_GEMINI_API_KEY"))
  const ProKeyRequiredError: Error := Error(Some("PRO_KEY_REQUIRED"))
  const NoImageError: Error := Error(Some("No image data found in response"))
  /** What the backend says when the key is not entitled to the model. */
  const EntityNotFound: string := "Requested entity was not found"

  datatype InlineData = InlineData(data: Option<string>, mimeType: Option<string>)

  /** A content part; a response part may carry inline data, text, both or neither. */
  datatype Part = Part(inlineData: Option<InlineData>, text: Option<string>)

  datatype Content = Content(parts: Option<seq<Part>>)
  datatype Candidate = Candidate(content: Option<Content>)

  /** A backend response; `text` is the SDK's accessor over the text parts. */
  datatype Response = Response(candidates: Option<seq<Candidate>>, text: Option<string>)

  /** How the backend answered. */
  datatype Reply = Answered(response: Response) | Failed(error: Error)

  datatype Model = FlashImage | ProImage | FlashText

  /** The model identifiers the backend is asked for. */
  function ModelName(m: Model): string {
    match m
    case FlashImage => "gemini-2.5-flash-image"
    case ProImage => "gemini-3-pro-image-preview"
    case FlashText => "gemini-3-flash-preview"
  }

  datatype AspectRatio = Square | Portrait3x4 | Landscape4x3 | Portrait9x16 | Landscape16x9
  datatype ImageSize = Size1K | Size2K | Size4K
  datatype Modality = TextModality | ImageModality

  datatype ImageConfig = ImageConfig(aspectRatio: AspectRatio, imageSize: Option<ImageSize>)
  datatype GenerateConfig = GenerateConfig(responseModalities: seq<Modality>, imageConfig: ImageConfig)

  /** What `generateContent` is asked: the model, the content parts and the optional config. */
  datatype Request = Request(model: Model, parts: seq<Part>, config: Option<GenerateConfig>)

  datatype ImageKind = Photo | Pattern | Scene

  const AnalyzePrompt: string := "Analyze this image. Is it: 1) A physical carpet photo? 2) A digital pattern? 3) A scene with a carpet? Reply only 'PHOTO', 'PATTERN', or 'SCENE'."

  function TextPart(text: string): Part {
    Part(None, Some(text))
  }

  function InlinePart(data: string, mimeType: string): Part {
    Part(Some(InlineData(Some(data), Some(mimeType))), None)
  }

  /** `getClient`'s key check: a missing or empty key throws; otherwise the client carries the key. */
  function GetClient(apiKey: Option<string>): (r: Result<string, Error>)
    ensures r.Success? <==> apiKey.Some? && apiKey.value != ""
    ensures r.Success? ==> r.value == apiKey.value
    ensures r.Failure? ==> r.error == MissingKeyError
  {
    if apiKey.None? || apiKey.value == "" then Failure(MissingKeyError) else Success(apiKey.value)
  }

  /** `part.inlineData?.data` is a non-empty string. */
  predicate HasInlineData(p: Part) {
    p.inlineData.Some? && p.inlineData.value.data.Some? && p.inlineData.value.data.value != ""
  }

  /** `mimeType || 'image/png'`: an absent or empty mime type falls back to PNG. */
  function MimeOrDefault(mimeType: Option<string>): (m: string)
    ensures m != ""
    ensures mimeType.Some? && mimeType.value != "" ==> m == mimeType.value
    ensures mimeType.None? || mimeType.value == "" ==> m == Patterns.DefaultMime
  {
    if mimeType.Some? && mimeType.value != "" then mimeType.value else Patterns.DefaultMime
  }

  /** The image one part yields: its inline data as a data URL, else an image data URL in its text. */
  function PartImage(p: Part): (r: Option<string>)
    ensures HasInlineData(p) ==> r.Some?
    ensures r.Some? ==> HasInlineData(p) || p.text.Some?
  {
    if HasInlineData(p) then
      Some(Patterns.DataUrl(MimeOrDefault(p.inlineData.value.mimeType), p.inlineData.value.data.value))
    else if p.text.Some? then Patterns.FindImageDataUrl(p.text.value)
    else None
  }

  /** The image of the first part that yields one. */
  function FirstImage(parts: seq<Part>): (r: Option<string>)
    ensures r.Some? ==> exists k :: 0 <= k < |parts| && r == PartImage(parts[k])
  {
    if parts == [] then None
    else if PartImage(parts[0]).Some? then PartImage(parts[0])
    else
      var rest := FirstImage(parts[1..]);
      assert rest.Some? ==> exists k :: 1 <= k < |parts| && rest == PartImage(parts[k]) by {
        if rest.Some? {
          var k :| 0 <= k < |parts[1..]| && rest == PartImage(parts[1..][k]);
          assert parts[1..][k] == parts[k + 1];
        }
      }
      rest
  }

  /** `response.candidates?.[0]?.content?.parts`: the parts of the first candidate, if all are present. */
  function ResponseParts(r: Response): (parts: Option<seq<Part>>)
    ensures parts.Some? <==> (r.candidates.Some? && |r.candidates.value| > 0
      && r.candidates.value[0].content.Some? && r.candidates.value[0].content.value.parts.Some?)
    ensures parts.Some? ==> parts.value == r.candidates.value[0].content.value.parts.value
  {
    if r.candidates.None? || |r.candidates.value| == 0 then None
    else match r.candidates.value[0].content
      case None => None
      case Some(c) => c.parts
  }

  /** Only the first candidate is read: later candidates never change the parts. */
  lemma ResponsePartsFirstCandidate(first: Candidate, later: seq<Candidate>, text: Option<string>)
    ensures ResponseParts(Response(Some([first] + later), text)) == ResponseParts(Response(Some([first]), None))
  {
  }

  /** The image a response carries, as `extractImageFromParts` finds it. */
  function ResponseImage(r: Response): Option<string> {
    match ResponseParts(r)
    case None => None
    case Some(parts) => FirstImage(parts)
  }

  /** The inline part built from a source image: its mime type and its payload without the header. */
  function SourcePart(image: string): (p: Part)
    ensures p.text.None? && p.inlineData.Some?
    ensures p.inlineData.value.mimeType.Some? && p.inlineData.value.mimeType.value != ""
    ensures p.inlineData.value.data.Some?
    ensures var d := p.inlineData.value.data.value; |d| <= |image| && d == image[|image| - |d|..]
  {
    InlinePart(Patterns.StripDataUrlHeader(image), Patterns.MimeType(image))
  }

  /** A source image is attached only when it is a non-empty string. */
  predicate IsGiven(source: Option<string>) {
    source.Some? && source.value != ""
  }

  /** `extractImageFromParts`: scans the parts in order and returns the first image found. */
  method ExtractImageFromParts(parts: Option<seq<Part>>) returns (image: Option<string>)
    ensures parts.None? ==> image.None?
    ensures parts.Some? ==> image == FirstImage(parts.value)
  {
    if parts.None? {
      return None;
    }
    var ps := parts.value;
    for i := 0 to |ps|
      invariant FirstImage(ps[i..]) == FirstImage(ps)
    {
      assert ps[i..][1..] == ps[i + 1..];
      var part := ps[i];
      if part.inlineData.Some? && part.inlineData.value.data.Some? && part.inlineData.value.data.value != "" {
        var mimeType := MimeOrDefault(part.inlineData.value.mimeType);
        return Some(Patterns.DataUrl(mimeType, part.inlineData.value.data.value));
      }
      if part.text.Some? {
        var found := Patterns.FindImageDataUrl(part.text.value);
        if found.Some? {
          return found;
        }
      }
    }
    return None;
  }

  /** The catch block of `generateImage`: an unentitled key becomes PRO_KEY_REQUIRED, anything else is rethrown. */
  function MapGenerateError(e: Error): (r: Error)
    ensures r == ProKeyRequiredError || r == e
    ensures e.message.Some? && Contains(e.message.value, EntityNotFound) ==> r == ProKeyRequiredError
    ensures (e.message.None? || !Contains(e.message.value, EntityNotFound)) ==> r == e
  {
    if e.message.Some? && Contains(e.message.value, EntityNotFound) then ProKeyRequiredError else e
  }

  /** `generateImage`. */
  method GenerateImage(apiKey: Option<string>, prompt: string, aspectRatio: AspectRatio, isPro: bool, reply: Reply)
    returns (sent: Option<Request>, result: Result<string, Error>)
    ensures sent.None? <==> GetClient(apiKey).Failure?
    ensures sent.None? ==> result == Failure(MissingKeyError)
    ensures sent.Some? ==> sent.value.parts == [TextPart(prompt)]
    ensures sent.Some? ==> (sent.value.model == ProImage <==> isPro) && (sent.value.model == FlashImage <==> !isPro)
    ensures sent.Some? ==> ModelName(sent.value.model) == if isPro then "gemini-3-pro-image-preview" else "gemini-2.5-flash-image"
    ensures sent.Some? ==> (sent.value.config.Some?
      && sent.value.config.value.responseModalities == [TextModality, ImageModality]
      && sent.value.config.value.imageConfig.aspectRatio == aspectRatio
      && (sent.value.config.value.imageConfig.imageSize == Some(Size1K) <==> isPro)
      && (sent.value.config.value.imageConfig.imageSize.None? <==> !isPro))
    ensures sent.Some? && reply.Answered? && ResponseImage(reply.response).Some? ==>
      result == Success(ResponseImage(reply.response).value)
    ensures sent.Some? && reply.Answered? && ResponseImage(reply.response).None? ==> result == Failure(NoImageError)
    ensures sent.Some? && reply.Failed? ==> result == Failure(MapGenerateError(reply.error))
    ensures result.Success? ==> StartsWith(result.value, Patterns.SchemePrefix) && Contains(result.value, Patterns.Base64Marker)
  {
    var client := GetClient(apiKey);
    if client.Failure? {
      return None, Failure(client.error);
    }
    var model := if isPro then ProImage else FlashImage;
    var imageSize := if isPro then Some(Size1K) else None;
    sent := Some(Request(model, [TextPart(prompt)],
                         Some(GenerateConfig([TextModality, ImageModality], ImageConfig(aspectRatio, imageSize)))));
    var thrown: Error;
    match reply {
      case Answered(response) =>
        var imageData := ExtractImageFromParts(ResponseParts(response));
        if imageData.Some? {
          FirstImageIsDataUrl(ResponseParts(response).value);
          return sent, Success(imageData.value);
        }
        thrown := NoImageError;
      case Failed(error) =>
        thrown := error;
    }
    OwnErrorsPassThrough();
    result := Failure(MapGenerateError(thrown));
  }

  /** `processImage`: the same flash model for generating and editing; a given source image goes first. */
  method ProcessImage(apiKey: Option<string>, source: Option<string>, prompt: string, aspectRatio: AspectRatio, reply: Reply)
    returns (sent: Option<Request>, result: Result<string, Error>)
    ensures sent.None? <==> GetClient(apiKey).Failure?
    ensures sent.None? ==> result == Failure(MissingKeyError)
    ensures sent.Some? ==> (sent.value.model == FlashImage && ModelName(sent.value.model) == "gemini-2.5-flash-image"
      && sent.value.config == Some(GenerateConfig([TextModality, ImageModality], ImageConfig(aspectRatio, None))))
    ensures sent.Some? ==> (|sent.value.parts| == (if IsGiven(source) then 2 else 1)
      && sent.value.parts[|sent.value.parts| - 1] == TextPart(prompt)
      && (IsGiven(source) ==> sent.value.parts[0] == SourcePart(source.value)))
    ensures sent.Some? && reply.Answered? && ResponseImage(reply.response).Some? ==>
      result == Success(ResponseImage(reply.response).value)
    ensures sent.Some? && reply.Answered? && ResponseImage(reply.response).None? ==> result == Failure(NoImageError)
    ensures sent.Some? && reply.Failed? ==> result == Failure(reply.error)
    ensures result.Success? ==> StartsWith(result.value, Patterns.SchemePrefix) && Contains(result.value, Patterns.Base64Marker)
  {
    var client := GetClient(apiKey);
    if client.Failure? {
      return None, Failure(client.error);
    }
    var parts := [TextPart(prompt)];
    if source.Some? && source.value != "" {
      var mimeType := Patterns.MimeType(source.value);
      var cleanBase64 := Patterns.StripDataUrlHeader(source.value);
      parts := [InlinePart(cleanBase64, mimeType)] + parts;
    }
    sent := Some(Request(FlashImage, parts,
                         Some(GenerateConfig([TextModality, ImageModality], ImageConfig(aspectRatio, None)))));
    match reply
    case Answered(response) =>
      var imageData := ExtractImageFromParts(ResponseParts(response));
      if imageData.Some? {
        FirstImageIsDataUrl(ResponseParts(response).value);
        return sent, Success(imageData.value);
      }
      result := Failure(NoImageError);
    case Failed(error) =>
      result := Failure(error);
  }

  /**
   * The reply's verdict. It depends only on the upper-cased reply: SCENE wins
   * over PATTERN, and PHOTO is the default, also for a missing reply.
   */
  function Classify(text: Option<string>): (k: ImageKind)
    ensures text.None? ==> k == Photo
    ensures text.Some? ==> (k == Scene <==> Contains(Upper(text.value), "SCENE"))
    ensures text.Some? ==> (k == Pattern <==> !Contains(Upper(text.value), "SCENE") && Contains(Upper(text.value), "PATTERN"))
    ensures text.Some? ==> (k == Photo <==> !Contains(Upper(text.value), "SCENE") && !Contains(Upper(text.value), "PATTERN"))
  {
    if text.None? then Photo
    else
      NoSpaceInKeywords();
      ContainsUpperTrim(text.value, "SCENE");
      ContainsUpperTrim(text.value, "PATTERN");
      var result := Upper(Trim(text.value));
      if Contains(result, "SCENE") then Scene
      else if Contains(result, "PATTERN") then Pattern
      else Photo
  }

  /** `analyzeImageType`: no config, no catch; the backend's errors propagate as they are. */
  method AnalyzeImageType(apiKey: Option<string>, image: string, reply: Reply)
    returns (sent: Option<Request>, result: Result<ImageKind, Error>)
    ensures sent.None? <==> GetClient(apiKey).Failure?
    ensures sent.None? ==> result == Failure(MissingKeyError)
    ensures sent.Some? ==> sent.value == Request(FlashText, [SourcePart(image), TextPart(AnalyzePrompt)], None)
    ensures sent.Some? ==> ModelName(sent.value.model) == "gemini-3-flash-preview"
    ensures sent.Some? && reply.Failed? ==> result == Failure(reply.error)
    ensures sent.Some? && reply.Answered? ==> result == Success(Classify(reply.response.text))
  {
    var client := GetClient(apiKey);
    if client.Failure? {
      return None, Failure(client.error);
    }
    var mimeType := Patterns.MimeType(image);
    var cleanBase64 := Patterns.StripDataUrlHeader(image);
    sent := Some(Request(FlashText, [InlinePart(cleanBase64, mimeType), TextPart(AnalyzePrompt)], None));
    match reply
    case Answered(response) =>
      result := Success(Classify(response.text));
    case Failed(error) =>
      result := Failure(error);
  }

  // ---- Properties ----

  /** No image is found exactly when no part yields one. */
  lemma {:induction false} FirstImageNone(parts: seq<Part>)
    ensures FirstImage(parts).None? <==> forall k :: 0 <= k < |parts| ==> PartImage(parts[k]).None?
  {
    if parts != [] {
      FirstImageNone(parts[1..]);
      assert forall k :: 1 <= k < |parts| ==> parts[k] == parts[1..][k - 1];
    }
  }

  /** The first part that yields an image decides the result. */
  lemma {:induction false} FirstImageFirstWins(parts: seq<Part>, k: nat)
    requires k < |parts| && PartImage(parts[k]).Some?
    requires forall j :: 0 <= j < k ==> PartImage(parts[j]).None?
    ensures FirstImage(parts) == PartImage(parts[k])
  {
    if k > 0 {
      assert forall j :: 0 <= j < k - 1 ==> parts[1..][j] == parts[j + 1];
      FirstImageFirstWins(parts[1..], k - 1);
    }
  }

  /** Every image a part yields is a data URL: "data:" first, ";base64," inside. */
  lemma PartImageIsDataUrl(p: Part)
    requires PartImage(p).Some?
    ensures HasInlineData(p) ==>
      PartImage(p).value == Patterns.DataUrl(MimeOrDefault(p.inlineData.value.mimeType), p.inlineData.value.data.value)
    ensures !HasInlineData(p) ==> p.text.Some? && PartImage(p) == Patterns.FindImageDataUrl(p.text.value)
    ensures StartsWith(PartImage(p).value, Patterns.SchemePrefix)
    ensures Contains(PartImage(p).value, Patterns.Base64Marker)
  {
    var u := PartImage(p).value;
    if HasInlineData(p) {
      Patterns.DataUrlLayout(MimeOrDefault(p.inlineData.value.mimeType), p.inlineData.value.data.value);
    } else {
      Patterns.ImageDataUrlShape(p.text.value);
      assert u[..|Patterns.SchemePrefix|] == u[..|Patterns.ImagePrefix|][..|Patterns.SchemePrefix|];
    }
  }

  lemma {:induction false} FirstImageIsDataUrl(parts: seq<Part>)
    requires FirstImage(parts).Some?
    ensures StartsWith(FirstImage(parts).value, Patterns.SchemePrefix)
    ensures Contains(FirstImage(parts).value, Patterns.Base64Marker)
  {
    if PartImage(parts[0]).Some? {
      PartImageIsDataUrl(parts[0]);
    } else {
      FirstImageIsDataUrl(parts[1..]);
    }
  }

  /** The errors the service raises itself pass through the catch block unchanged. */
  lemma OwnErrorsPassThrough()
    ensures MapGenerateError(MissingKeyError) == MissingKeyError
    ensures MapGenerateError(NoImageError) == NoImageError
    ensures MapGenerateError(ProKeyRequiredError) == ProKeyRequiredError
  {
    var s := NoImageError.message.value;
    assert s[0] != EntityNotFound[0] && s[1] != EntityNotFound[0];
    assert !OccursAt(s, EntityNotFound, 0) by { assert s[0..|EntityNotFound|][0] == s[0]; }
    assert !OccursAt(s, EntityNotFound, 1) by { assert s[1..1 + |EntityNotFound|][0] == s[1]; }
  }

  lemma NoSpaceInKeywords()
    ensures forall x :: 0 <= x < |"SCENE"| ==> !IsJsSpace("SCENE"[x])
    ensures forall x :: 0 <= x < |"PATTERN"| ==> !IsJsSpace("PATTERN"[x])
  {
  }

  /** A missing or empty reply is a photo. */
  lemma ClassifyDefault()
    ensures Classify(None) == Photo
    ensures Classify(Some("")) == Photo
  {
  }

  /**
   * An image the backend returned as inline data with an `image/<word>` mime
   * type, fed back as a source image, is sent as the same inline data.
   */
  lemma InlineImageRoundTrip(data: string, subtype: string, text: Option<string>)
    requires data != [] && subtype != [] && Patterns.AllIn(Patterns.Word, subtype, 0, |subtype|)
    ensures var p := Part(Some(InlineData(Some(data), Some("image/" + subtype))), text);
      PartImage(p).Some? && SourcePart(PartImage(p).value) == InlinePart(data, "image/" + subtype)
  {
    var mime := "image/" + subtype;
    forall x | 0 <= x < |mime| ensures mime[x] != ';' && !Patterns.IsLineTerminator(mime[x]) {
      if x >= 6 {
        assert mime[x] == subtype[x - 6];
      }
    }
    Patterns.MimeTypeOfDataUrl(mime, data);
    Patterns.StripDataUrlHeaderOfDataUrl(subtype, data);
  }

  /**
   * An `image/svg+xml` source keeps its header: the whole data URL is sent
   * as the inline payload, since `\w+` does not match "svg+xml".
   */
  lemma SvgSourceKeepsHeader(data: string)
    ensures SourcePart(Patterns.DataUrl("image/svg+xml", data)).inlineData.value.data
      == Some(Patterns.DataUrl("image/svg+xml", data))
  {
    var subtype := "svg+xml";
    assert subtype[3] == '+';
    assert forall x :: 0 <= x < |subtype| ==> subtype[x] != ';';
    Patterns.StripKeepsOtherSubtypes(subtype, data, 3);
    assert "image/" + subtype == "image/svg+xml";
  }
}
