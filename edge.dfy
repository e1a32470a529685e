/**
 * The server-side relay of
 * supabase/functions/generate-marketing-content/index.ts: it checks the
 * request body, builds one request holding the prompt and every image,
 * sends it with the server's API key and recovers the JSON the model wrote.
 */
module EdgeFunction {
  import opened Wrappers
  import opened Builtins
  import opened Json
  import opened Gemini

  // ---------------------------------------------------------------------------
  // The request

  /** An image of the request body; `base64Data` is preferred over `base64`. */
  datatype EdgeImage = EdgeImage(mimeType: string, base64Data: Option<string>, base64: Option<string>)

  /** `config`; a field is None when it is null or absent. */
  datatype Config = Config(featuresCount: Option<int>, hashtagsCount: Option<int>, descriptionSentences: Option<int>)

  /** `{ images, config }`; `images` is None when it is missing or not an array. */
  datatype Payload = Payload(images: Option<seq<EdgeImage>>, config: Option<Config>)

  /**
   * A CORS preflight, or a call whose body is None when `req.json()` throws
   * or yields null; an array, number or string body reaches the image guard
   * with no `images` and is refused there.
   */
  datatype Request = Preflight | Call(body: Option<Payload>)

  /** The three counts the prompt text asks the model for. */
  datatype Prompt = Prompt(descriptionSentences: int, features: int, hashtags: int)

  /** A part of the outgoing request: the prompt text, or one inline image. */
  datatype RequestPart = TextPart(prompt: Prompt) | InlineData(mimeType: string, data: Option<string>)

  /** The thrown errors; all are answered with status 500 and code IMAGE_PROCESSING_FAILED. */
  datatype EdgeError =
    | UnreadableBody
    | NoImages
    | MissingApiKey
    | GeminiRequestFailed
    | InvalidGeminiResponse
    | JsonSyntax(inSlice: bool)

  /** What the handler answers. */
  datatype Reply =
    | PreflightOk
    | Success(content: Value, imagesCount: nat, modelUsed: string)
    | Failure(error: EdgeError)

  /** The model name reported in processing_info (the request itself goes to gemini-2.5-flash). */
  const ModelUsed := "gemini-1.5-flash"

  const DefaultFeatures := 3
  const DefaultHashtags := 4
  const DefaultDescriptionSentences := 3
  const MaxFeatures := 6
  const MaxHashtags := 8
  const MaxDescriptionSentences := 6

  /** `images` passes the guard: present, an array, and not empty. */
  predicate HasImages(images: Option<seq<EdgeImage>>)
  {
    images.Some? && |images.value| > 0
  }

  /** `!GEMINI_API_KEY` fails for an unset or empty key. */
  predicate HasKey(apiKey: Option<string>)
  {
    apiKey.Some? && apiKey.value != []
  }

  // ---------------------------------------------------------------------------
  // Counts

  /** `fc = Math.max(1, Math.min(6, config?.featuresCount ?? 3))` */
  function FeatureCount(config: Option<Config>): (fc: int)
    ensures 1 <= fc <= MaxFeatures
    ensures config.None? || config.value.featuresCount.None? ==> fc == DefaultFeatures
    ensures config.Some? && config.value.featuresCount.Some? && 1 <= config.value.featuresCount.value <= MaxFeatures
            ==> fc == config.value.featuresCount.value
  {
    var n := if config.Some? then GetOr(config.value.featuresCount, DefaultFeatures) else DefaultFeatures;
    Clamp(1, MaxFeatures, n)
  }

  /** `hc = Math.max(1, Math.min(8, config?.hashtagsCount ?? 4))` */
  function HashtagCount(config: Option<Config>): (hc: int)
    ensures 1 <= hc <= MaxHashtags
    ensures config.None? || config.value.hashtagsCount.None? ==> hc == DefaultHashtags
    ensures config.Some? && config.value.hashtagsCount.Some? && 1 <= config.value.hashtagsCount.value <= MaxHashtags
            ==> hc == config.value.hashtagsCount.value
  {
    var n := if config.Some? then GetOr(config.value.hashtagsCount, DefaultHashtags) else DefaultHashtags;
    Clamp(1, MaxHashtags, n)
  }

  /** `dc = Math.max(1, Math.min(6, config?.descriptionSentences ?? 3))` */
  function DescriptionSentenceCount(config: Option<Config>): (dc: int)
    ensures 1 <= dc <= MaxDescriptionSentences
    ensures config.None? || config.value.descriptionSentences.None? ==> dc == DefaultDescriptionSentences
    ensures config.Some? && config.value.descriptionSentences.Some?
            && 1 <= config.value.descriptionSentences.value <= MaxDescriptionSentences
            ==> dc == config.value.descriptionSentences.value
  {
    var n := if config.Some? then GetOr(config.value.descriptionSentences, DefaultDescriptionSentences)
             else DefaultDescriptionSentences;
    Clamp(1, MaxDescriptionSentences, n)
  }

  // ---------------------------------------------------------------------------
  // The outgoing request

  /** `images.map(...)`: one inline-data part per image, in order, preferring a non-empty `base64Data`. */
  function ImageParts(images: seq<EdgeImage>): (r: seq<RequestPart>)
    ensures |r| == |images|
    ensures forall i :: 0 <= i < |images| ==> r[i].InlineData? && r[i].mimeType == images[i].mimeType
    ensures forall i :: 0 <= i < |images| && images[i].base64Data.Some? && images[i].base64Data.value != [] ==>
              r[i].data == images[i].base64Data
    ensures forall i :: 0 <= i < |images| && !(images[i].base64Data.Some? && images[i].base64Data.value != []) ==>
              r[i].data == images[i].base64
  {
    if images == [] then []
    else
      var img := images[0];
      var data := if img.base64Data.Some? && img.base64Data.value != [] then img.base64Data else img.base64;
      [InlineData(img.mimeType, data)] + ImageParts(images[1..])
  }

  /** `parts: [{ text: prompt }, ...imageParts]` */
  function RequestParts(images: seq<EdgeImage>, config: Option<Config>): seq<RequestPart>
  {
    [TextPart(Prompt(DescriptionSentenceCount(config), FeatureCount(config), HashtagCount(config)))]
    + ImageParts(images)
  }

  // ---------------------------------------------------------------------------
  // Recovering the text

  /** `parts.map(p => typeof p?.text === 'string' ? p.text : '')` */
  function PartTexts(parts: seq<Part>): (r: seq<string>)
    ensures |r| == |parts|
    ensures forall k :: 0 <= k < |parts| ==> r[k] == GetOr(parts[k].text, [])
  {
    seq(|parts|, k requires 0 <= k < |parts| => GetOr(parts[k].text, []))
  }

  /** The fallback: the newline join of all part texts, cut to its outermost braces, or ''. */
  function JoinedFallback(parts: seq<Part>): string
  {
    var joined := Join(PartTexts(parts), "\n");
    var s := IndexOf(joined, '{');
    var e := LastIndexOf(joined, '}');
    if s != -1 && e != -1 && e > s then joined[s..e + 1] else []
  }

  /**
   * The fallback only runs when no part has non-blank text, so every text
   * it joins is whitespace and the join holds no `{`: it always gives ''.
   */
  lemma JoinedFallbackIsEmpty(parts: seq<Part>)
    requires forall k :: 0 <= k < |parts| ==> !HasText(parts[k])
    ensures JoinedFallback(parts) == []
  {
    var texts := PartTexts(parts);
    assert forall k :: 0 <= k < |texts| ==> AllWhitespace(texts[k]);
    JoinWhitespace(texts, "\n");
    var joined := Join(texts, "\n");
    assert '{' !in joined by {
      forall k | 0 <= k < |joined| ensures joined[k] != '{' {
        assert IsWhitespace(joined[k]);
      }
    }
  }

  /**
   * `generatedText`: the (untrimmed) text of the first part whose text is
   * non-blank; otherwise the joined fallback, which yields ''.
   */
  function SelectText(parts: seq<Part>): (r: string)
    ensures r != [] ==>
      exists k :: 0 <= k < |parts| && HasText(parts[k]) && parts[k].text == Some(r)
                  && forall j :: 0 <= j < k ==> !HasText(parts[j])
    ensures r == [] <==> forall k :: 0 <= k < |parts| ==> !HasText(parts[k])
    ensures forall k :: 0 <= k < |parts| && HasText(parts[k]) && (forall j :: 0 <= j < k ==> !HasText(parts[j])) ==>
              r == parts[k].text.value
  {
    match FindTextPart(parts)
    case Some(k) => parts[k].text.value
    case None =>
      JoinedFallbackIsEmpty(parts);
      JoinedFallback(parts)
  }

  /** Drops a leading "```json" and the whitespace after it. */
  function DropOpeningFence(c: string): (r: string)
    requires IsTrimmed(c)
    ensures IsTrimmed(r)
    ensures !StartsWith(c, "```json") ==> r == c
    ensures StartsWith(c, "```json") ==> exists w :: AllWhitespace(w) && c == "```json" + w + r
  {
    if StartsWith(c, "```json") then
      TrimStartTrimmed(c[7..]);
      TrimStartSplits(c[7..]);
      assert c == c[..7] + c[7..];
      TrimStart(c[7..])
    else c
  }

  /** Drops a trailing "```" and the whitespace before it. */
  function DropClosingFence(c: string): (r: string)
    requires IsTrimmed(c)
    ensures IsTrimmed(r)
    ensures !EndsWith(c, "```") ==> r == c
    ensures EndsWith(c, "```") ==> exists w :: AllWhitespace(w) && c == r + w + "```"
  {
    if EndsWith(c, "```") then
      TrimEndTrimmed(c[..|c| - 3]);
      TrimEndSplits(c[..|c| - 3]);
      assert c == c[..|c| - 3] + c[|c| - 3..];
      TrimEnd(c[..|c| - 3])
    else c
  }

  /**
   * `cleanText`: the trimmed text, without a leading "```json" and the
   * whitespace after it, then without a trailing "```" and the whitespace
   * before it; each is removed only where the text starts or ends with it.
   */
  function StripFences(t: string): (r: string)
    ensures |r| <= |t|
    ensures IsTrimmed(r)
    ensures !StartsWith(Trim(t), "```json") && !EndsWith(Trim(t), "```") ==> r == Trim(t)
    ensures IsTrimmed(t) && !StartsWith(t, "```json") && !EndsWith(t, "```") ==> r == t
  {
    DropClosingFence(DropOpeningFence(Trim(t)))
  }

  lemma OpeningFenceDropped(body: string)
    requires IsTrimmed(body)
    ensures DropOpeningFence("```json\n" + body + "\n```") == if body == [] then "```" else body + "\n```"
  {
    var t := "```json\n" + body + "\n```";
    assert t[..7] == "```json";
    if body == [] {
      assert t[7..] == "\n\n" + "```";
      TrimStartPastSpace("\n\n", "```");
    } else {
      assert t[7..] == "\n" + (body + "\n```");
      TrimStartPastSpace("\n", body + "\n```");
    }
  }

  lemma ClosingFenceDropped(body: string)
    requires IsTrimmed(body)
    ensures DropClosingFence(if body == [] then "```" else body + "\n```") == body
  {
    if body == [] {
      assert "```"[..0] == [] + [];
      TrimEndPastSpace([], []);
    } else {
      var c := body + "\n```";
      assert c[|c| - 3..] == "```";
      assert c[..|c| - 3] == body + "\n";
      TrimEndPastSpace(body, "\n");
    }
  }

  /** A trimmed body wrapped in a ```json fence comes out as the body. */
  lemma FencedBodyRecovered(body: string)
    requires IsTrimmed(body)
    ensures StripFences("```json\n" + body + "\n```") == body
  {
    var t := "```json\n" + body + "\n```";
    assert IsTrimmed(t);
    OpeningFenceDropped(body);
    ClosingFenceDropped(body);
  }

  /** A reply cut off before its closing fence still loses its opening fence. */
  lemma OpenFenceOnlyRecovered(body: string)
    requires IsTrimmed(body)
    requires !EndsWith(body, "```")
    ensures StripFences("```json\n" + body) == body
  {
    var t := "```json\n" + body;
    if body == [] {
      BareOpeningFenceTrimmed();
      assert "```json"[7..] == [];
    } else {
      assert IsTrimmed(t);
      assert Trim(t) == t;
      assert t[..7] == "```json";
      assert t[7..] == "\n" + body;
      TrimStartPastSpace("\n", body);
      assert DropOpeningFence(t) == body;
    }
  }

  /** The trailing newline of a bare opening fence is trimmed away. */
  lemma BareOpeningFenceTrimmed()
    ensures Trim("```json\n") == "```json"
  {
    var t := "```json\n";
    TrimStartPastSpace([], t);
    assert t == "```json" + "\n";
    TrimEndPastSpace("```json", "\n");
  }

  /** The newline before a closing fence keeps short text from reading as an opening fence. */
  lemma NoOpeningBeforeClosing(body: string)
    requires body == [] || !IsWhitespace(body[0])
    requires !StartsWith(body, "```json")
    ensures !StartsWith(body + "\n```", "```json")
  {
    var t := body + "\n```";
    if |body| >= 7 {
      assert t[..7] == body[..7];
    } else {
      assert t[|body|] == '\n';
    }
  }

  /** A reply without an opening fence loses only its closing fence. */
  lemma CloseFenceOnlyRecovered(body: string)
    requires IsTrimmed(body)
    requires !StartsWith(body, "```json")
    ensures StripFences(body + "\n```") == body
  {
    var t := body + "\n```";
    if body == [] {
      assert t == "\n" + "```";
      TrimStartPastSpace("\n", "```");
      TrimEndPastSpace("```", []);
      assert "```"[..0] == [] + [];
      TrimEndPastSpace([], []);
    } else {
      assert IsTrimmed(t);
      assert Trim(t) == t;
      NoOpeningBeforeClosing(body);
      ClosingFenceDropped(body);
    }
  }

  /**
   * The two-step parse: the cleaned text is parsed directly; only if that
   * fails, and a `{` precedes a `}`, the brace slice is parsed; with no such
   * pair the first error is re-raised.
   */
  function ParseWithFallback(clean: string, parse: string -> Option<Value>): (r: Result<Value, EdgeError>)
    ensures parse(clean).Some? ==> r == Ok(parse(clean).value)
    ensures r.Ok? <==> parse(clean).Some? || (BracePair(clean) && parse(SliceToBraces(clean)).Some?)
    ensures r.Ok? && parse(clean).None? ==> parse(SliceToBraces(clean)) == Some(r.value)
    ensures r.Err? ==> r.error == JsonSyntax(BracePair(clean))
  {
    match parse(clean)
    case Some(v) => Ok(v)
    case None =>
      // the brace test and slice are the ones SliceToBraces performs
      if BracePair(clean) then
        match parse(SliceToBraces(clean))
        case Some(v) => Ok(v)
        case None => Err(JsonSyntax(true))
      else Err(JsonSyntax(false))
  }

  /** Commentary around an object that makes the direct parse fail is cut away by the second step. */
  lemma CommentaryParsed(pre: string, body: string, post: string, parse: string -> Option<Value>)
    requires '{' !in pre && '}' !in post
    requires 2 <= |body| && body[0] == '{' && body[|body| - 1] == '}'
    requires parse(pre + body + post).None?
    ensures ParseWithFallback(pre + body + post, parse) ==
            if parse(body).Some? then Ok(parse(body).value) else Err(JsonSyntax(true))
  {
    var t := pre + body + post;
    SliceToBracesRecovers(pre, body, post);
    assert t[|pre|] == '{' && t[|pre| + |body| - 1] == '}';
    assert BracePair(t);
  }

  /** `!data.candidates || !data.candidates[0] || !data.candidates[0].content` */
  predicate EnvelopeOk(data: Response)
  {
    data.candidates.Some? && |data.candidates.value| > 0 && data.candidates.value[0].content.Some?
  }

  /** `candidate.content?.parts || []` */
  function ContentParts(data: Response): seq<Part>
    requires EnvelopeOk(data)
  {
    GetOr(data.candidates.value[0].content.value.parts, [])
  }

  /** Lines 102-142: from the decoded response to the parsed content. */
  function Recover(data: Response, parse: string -> Option<Value>): (r: Result<Value, EdgeError>)
    ensures !EnvelopeOk(data) ==> r == Err(InvalidGeminiResponse)
    ensures EnvelopeOk(data) ==>
      var parts := ContentParts(data);
      && ((forall k :: 0 <= k < |parts| ==> !HasText(parts[k])) ==> r == ParseWithFallback([], parse))
      && (forall k :: 0 <= k < |parts| && HasText(parts[k]) && (forall j :: 0 <= j < k ==> !HasText(parts[j])) ==>
            r == ParseWithFallback(StripFences(parts[k].text.value), parse))
  {
    if !EnvelopeOk(data) then Err(InvalidGeminiResponse)
    else
      var generatedText := SelectText(ContentParts(data));
      var cleanText := StripFences(generatedText);
      ParseWithFallback(cleanText, parse)
  }

  // ---------------------------------------------------------------------------
  // The handler

  /**
   * The request handler. `apiKey` is the server's GEMINI_API_KEY, `gemini`
   * the reply to a request with the given parts (None when the call fails
   * or the status is not OK), `parse` is JSON.parse. `sent` is the request
   * that went out, if any.
   */
  method HandleRequest(req: Request, apiKey: Option<string>,
                       gemini: seq<RequestPart> -> Option<Response>, parse: string -> Option<Value>)
    returns (reply: Reply, sent: Option<seq<RequestPart>>)
    ensures req.Preflight? ==> reply == PreflightOk && sent == None
    ensures req.Call? && req.body.None? ==> reply == Failure(UnreadableBody) && sent == None
    ensures req.Call? && req.body.Some? && !HasImages(req.body.value.images) ==>
              reply == Failure(NoImages) && sent == None
    ensures req.Call? && req.body.Some? && HasImages(req.body.value.images) && !HasKey(apiKey) ==>
              reply == Failure(MissingApiKey) && sent == None
    ensures req.Call? && req.body.Some? && HasImages(req.body.value.images) && HasKey(apiKey) ==>
              sent == Some(RequestParts(req.body.value.images.value, req.body.value.config))
    ensures sent.Some? && gemini(sent.value).None? ==> reply == Failure(GeminiRequestFailed)
    ensures sent.Some? && gemini(sent.value).Some? ==>
              reply == match Recover(gemini(sent.value).value, parse)
                       case Ok(v) => Success(v, |req.body.value.images.value|, ModelUsed)
                       case Err(e) => Failure(e)
    ensures reply.Success? ==> sent.Some? && reply.imagesCount == |sent.value| - 1 == |req.body.value.images.value|
  {
    sent := None;
    if req.Preflight? {
      return PreflightOk, sent;
    }
    if req.body.None? {
      return Failure(UnreadableBody), sent;
    }
    var images := req.body.value.images;
    var config := req.body.value.config;
    if images.None? || |images.value| == 0 {
      return Failure(NoImages), sent;
    }
    if apiKey.None? || apiKey.value == [] {
      return Failure(MissingApiKey), sent;
    }
    var imageParts := ImageParts(images.value);
    var fc := FeatureCount(config);
    var hc := HashtagCount(config);
    var dc := DescriptionSentenceCount(config);
    var parts := [TextPart(Prompt(dc, fc, hc))] + imageParts;
    sent := Some(parts);
    var response := gemini(parts);
    if response.None? {
      return Failure(GeminiRequestFailed), sent;
    }
    match Recover(response.value, parse)
    case Ok(content) =>
      reply := Success(content, |images.value|, ModelUsed);
    case Err(e) =>
      reply := Failure(e);
  }
}
