/**
 * The browser client of src/App.tsx: the three output-count controls, the
 * text recovery of `generateContentForImage` and the sequential batch of
 * `generateContent`, which sends one request per uploaded image.
 */
module App {
  import opened Wrappers
  import opened Builtins
  import opened Json
  import opened Gemini

  // ---------------------------------------------------------------------------
  // Output-count controls

  const MaxFeatures := 6
  const MaxHashtags := 8
  const MaxDescriptionSentences := 10

  /** Values the three controls start from. */
  const InitialFeatures := 3
  const InitialHashtags := 4
  const InitialDescriptionSentences := 10

  /** The key-features control: `Math.max(1, Math.min(6, value))`. */
  function FeaturesInput(n: int): (r: int)
    ensures 1 <= r <= MaxFeatures
    ensures 1 <= n <= MaxFeatures ==> r == n
    ensures n < 1 ==> r == 1
    ensures n > MaxFeatures ==> r == MaxFeatures
  {
    Clamp(1, MaxFeatures, n)
  }

  /** The hashtags control: `Math.max(1, Math.min(8, value))`. */
  function HashtagsInput(n: int): (r: int)
    ensures 1 <= r <= MaxHashtags
    ensures 1 <= n <= MaxHashtags ==> r == n
    ensures n < 1 ==> r == 1
    ensures n > MaxHashtags ==> r == MaxHashtags
  {
    Clamp(1, MaxHashtags, n)
  }

  /** The description-sentences control: `Math.max(1, Math.min(10, value))`. */
  function DescriptionSentencesInput(n: int): (r: int)
    ensures 1 <= r <= MaxDescriptionSentences
    ensures 1 <= n <= MaxDescriptionSentences ==> r == n
    ensures n < 1 ==> r == 1
    ensures n > MaxDescriptionSentences ==> r == MaxDescriptionSentences
  {
    Clamp(1, MaxDescriptionSentences, n)
  }

  /** Re-entering a value a control already shows leaves it alone, and the initial values are in range. */
  lemma ControlsIdempotent(n: int)
    ensures FeaturesInput(FeaturesInput(n)) == FeaturesInput(n)
    ensures HashtagsInput(HashtagsInput(n)) == HashtagsInput(n)
    ensures DescriptionSentencesInput(DescriptionSentencesInput(n)) == DescriptionSentencesInput(n)
    ensures FeaturesInput(InitialFeatures) == InitialFeatures
    ensures HashtagsInput(InitialHashtags) == InitialHashtags
    ensures DescriptionSentencesInput(InitialDescriptionSentences) == InitialDescriptionSentences
  {
  }

  // ---------------------------------------------------------------------------
  // One image: generateContentForImage

  /** An uploaded image, as far as the batch uses it: its file name. */
  datatype UploadedImage = UploadedImage(name: string)

  /** A processed image: its position in the batch, its file name and the parsed product. */
  datatype ProductMarketing = ProductMarketing(imageIndex: nat, imageName: string, product: Value)

  /** `data.candidates?.[0]?.content?.parts`, with no parts when any link of the chain is absent. */
  function FirstCandidateParts(data: Response): seq<Part>
  {
    match data.candidates
    case Some(cs) =>
      if |cs| > 0 && cs[0].content.Some? && cs[0].content.value.parts.Some?
      then cs[0].content.value.parts.value
      else []
    case None => []
  }

  /**
   * `(textPart?.text || '').trim()` where textPart is the first part of the
   * first candidate whose text is a non-blank string.
   */
  function SelectedText(data: Response): (r: string)
    ensures IsTrimmed(r)
    ensures r == [] <==> forall k :: 0 <= k < |FirstCandidateParts(data)| ==> !HasText(FirstCandidateParts(data)[k])
    ensures r != [] ==>
      var parts := FirstCandidateParts(data);
      exists k :: 0 <= k < |parts| && HasText(parts[k]) && r == Trim(parts[k].text.value)
                  && forall j :: 0 <= j < k ==> !HasText(parts[j])
  {
    var parts := FirstCandidateParts(data);
    match FindTextPart(parts)
    case Some(k) => Trim(parts[k].text.value)
    case None => Trim([])
  }

  /**
   * Markdown fence cleaning: when the text holds "```json", every
   * "```json" and then every "```" is removed, each with one newline
   * that follows it; then any "```" left is removed.
   */
  function CleanFences(t: string): (r: string)
    ensures !Contains(r, "```")
    ensures !Contains(t, "```") ==> r == t
  {
    var t1 := if Contains(t, "```json") then RemoveAll(RemoveAll(t, "```json", true), "```", true) else t;
    assert Contains(t, "```json") ==> Contains(t, "```") by {
      if Contains(t, "```json") { assert "```" + "json" == "```json"; ContainsLonger(t, "```", "json"); }
    }
    if Contains(t1, "```") then
      RemoveTicksLeavesNoFence(t1);
      RemoveAll(t1, "```", false)
    else t1
  }

  /** The text handed to `JSON.parse`: the cleaned text cut to its outermost braces. */
  function JsonText(t: string): (r: string)
    ensures !Contains(r, "```")
    ensures BracePair(CleanFences(t)) ==> 2 <= |r| && r[0] == '{' && r[|r| - 1] == '}'
    ensures !BracePair(CleanFences(t)) ==> r == CleanFences(t)
  {
    var c := CleanFences(t);
    SliceKeepsAbsence(c, "```");
    SliceToBraces(c)
  }

  /** The "```json" pass removes the opening fence with its newline and nothing else. */
  lemma OpeningFenceRemoved(body: string)
    requires !Contains(body, "```")
    ensures RemoveAll("```json\n" + body + "\n```", "```json", true) == body + "\n```"
  {
    var t := "```json\n" + body + "\n```";
    assert StartsWith(t, "```json");
    assert t[7..][0] == '\n' && t[7..][1..] == body + "\n```";
    assert !Contains(body, "```json") by {
      if Contains(body, "```json") { assert "```" + "json" == "```json"; ContainsLonger(body, "```", "json"); }
    }
    RemoveAllConcat(body, "\n```", "```json", true);
    assert RemoveAll("\n```", "```json", true) == "\n```";
  }

  /** The "```" pass then removes the closing fence. */
  lemma ClosingFenceRemoved(body: string)
    requires !Contains(body, "```")
    ensures RemoveAll(body + "\n```", "```", true) == body + "\n"
  {
    RemoveAllConcat(body, "\n```", "```", true);
    assert "\n```"[1..] == "```";
    assert RemoveAll("```", "```", true) == [];
    assert RemoveAll("\n```", "```", true) == "\n";
  }

  /** A JSON object wrapped in a ```json fence comes out as the object itself. */
  lemma FencedObjectRecovered(body: string)
    requires 2 <= |body| && body[0] == '{' && body[|body| - 1] == '}'
    requires !Contains(body, "```")
    ensures JsonText("```json\n" + body + "\n```") == body
  {
    var t := "```json\n" + body + "\n```";
    assert StartsWith(t, "```json");
    OpeningFenceRemoved(body);
    ClosingFenceRemoved(body);
    NotContainsConcat(body, "\n", "```");
    assert CleanFences(t) == body + "\n";
    SliceToBracesRecovers([], body, "\n");
    assert [] + body + "\n" == body + "\n";
  }

  /** Commentary the model writes around the object, outside any fence, is cut away. */
  lemma CommentaryRecovered(pre: string, body: string, post: string)
    requires 2 <= |body| && body[0] == '{' && body[|body| - 1] == '}'
    requires '{' !in pre && '}' !in post
    requires !Contains(pre + body + post, "```")
    ensures JsonText(pre + body + post) == body
  {
    SliceToBracesRecovers(pre, body, post);
  }

  /**
   * generateContentForImage: the reply to the image's request (None when the
   * request failed or the status was not OK) yields a product exactly when
   * the recovered text parses to a truthy value; every failure becomes None.
   */
  function GenerateContentForImage(reply: Option<Response>, parse: string -> Option<Value>,
                                   imageIndex: nat, imageName: string): (r: Option<ProductMarketing>)
    ensures r.Some? <==> reply.Some? && parse(JsonText(SelectedText(reply.value))).Some?
                         && Truthy(parse(JsonText(SelectedText(reply.value))).value)
    ensures r.Some? ==> r.value.imageIndex == imageIndex && r.value.imageName == imageName
                        && parse(JsonText(SelectedText(reply.value))) == Some(r.value.product)
  {
    match reply
    case None => None
    case Some(data) =>
      match parse(JsonText(SelectedText(data)))
      case None => None
      case Some(v) => if Truthy(v) then Some(ProductMarketing(imageIndex, imageName, v)) else None
  }

  // ---------------------------------------------------------------------------
  // The batch: generateContent

  /** The result object the batch stores: GeneratedContentArray. */
  datatype BatchResult = BatchResult(
    products: seq<ProductMarketing>,
    totalProducts: nat,
    processedImages: nat,
    skippedImages: int,
    errors: seq<string>)

  /** Why a batch did not start. */
  datatype Refusal = NoImagesSelected | MissingApiKey

  /** The error line shown once the batch is over; None clears it. */
  datatype Notice =
    | AllImagesFailed
    | SomeImagesFailed(succeeded: nat, total: nat, errors: seq<string>)

  datatype Outcome = Refused(reason: Refusal) | Finished(result: BatchResult, notice: Option<Notice>)

  /** The entry pushed to `errors` for an image that failed: "failed to process image <name>". */
  function FailureMessage(name: string): string
  {
    "فشل في معالجة الصورة " + name
  }

  /** The per-image results of a batch, position by position. */
  function Attempts(images: seq<UploadedImage>, reply: nat -> Option<Response>,
                    parse: string -> Option<Value>): seq<Option<ProductMarketing>>
  {
    seq(|images|, i requires 0 <= i < |images| => GenerateContentForImage(reply(i), parse, i, images[i].name))
  }

  /** Every result carries the position it was produced for. */
  predicate Indexed(results: seq<Option<ProductMarketing>>)
  {
    forall i :: 0 <= i < |results| && results[i].Some? ==> results[i].value.imageIndex == i
  }

  /** The products, in order, of the results that succeeded. */
  function Successes(results: seq<Option<ProductMarketing>>): seq<ProductMarketing>
  {
    if results == [] then []
    else
      var last := results[|results| - 1];
      Successes(results[..|results| - 1]) + (if last.Some? then [last.value] else [])
  }

  /** The error entries, in order, of the results that failed. */
  function Failures(images: seq<UploadedImage>, results: seq<Option<ProductMarketing>>): seq<string>
    requires |results| <= |images|
  {
    if results == [] then []
    else
      var n := |results| - 1;
      Failures(images, results[..n]) + (if results[n].None? then [FailureMessage(images[n].name)] else [])
  }

  /** One more result adds its product, or its error entry, at the end. */
  lemma BatchStep(images: seq<UploadedImage>, results: seq<Option<ProductMarketing>>, i: nat)
    requires i < |results| <= |images|
    ensures Successes(results[..i + 1]) == Successes(results[..i]) + (if results[i].Some? then [results[i].value] else [])
    ensures Failures(images, results[..i + 1]) ==
            Failures(images, results[..i]) + (if results[i].None? then [FailureMessage(images[i].name)] else [])
  {
    assert results[..i + 1][..i] == results[..i];
  }

  /** Every image ends up either among the products or among the errors. */
  lemma {:induction false} SuccessesAndFailuresPartition(images: seq<UploadedImage>, results: seq<Option<ProductMarketing>>)
    requires |results| <= |images|
    ensures |Successes(results)| + |Failures(images, results)| == |results|
  {
    if results != [] {
      SuccessesAndFailuresPartition(images, results[..|results| - 1]);
    }
  }

  /**
   * Products keep submission order: each product comes from the result at its
   * own imageIndex, and imageIndex strictly increases along the list.
   */
  lemma {:induction false} SuccessesInOrder(results: seq<Option<ProductMarketing>>)
    requires Indexed(results)
    ensures forall k :: 0 <= k < |Successes(results)| ==>
      var p := Successes(results)[k];
      p.imageIndex < |results| && results[p.imageIndex] == Some(p)
    ensures forall k, l :: 0 <= k < l < |Successes(results)| ==>
      Successes(results)[k].imageIndex < Successes(results)[l].imageIndex
  {
    if results != [] {
      var n := |results| - 1;
      var init := results[..n];
      assert Indexed(init) by {
        forall i | 0 <= i < |init| && init[i].Some? ensures init[i].value.imageIndex == i {
          assert init[i] == results[i];
        }
      }
      SuccessesInOrder(init);
      var s := Successes(init);
      assert forall k :: 0 <= k < |s| ==> init[s[k].imageIndex] == results[s[k].imageIndex];
    }
  }

  /** No successful result is dropped: each one is among the products. */
  lemma {:induction false} SuccessesComplete(results: seq<Option<ProductMarketing>>)
    ensures forall i :: 0 <= i < |results| && results[i].Some? ==> results[i].value in Successes(results)
  {
    if results != [] {
      var n := |results| - 1;
      var init := results[..n];
      SuccessesComplete(init);
      forall i | 0 <= i < |results| && results[i].Some?
        ensures results[i].value in Successes(results)
      {
        if i < n {
          assert init[i] == results[i];
        }
      }
    }
  }

  /** There are no products exactly when every image failed. */
  lemma {:induction false} NoSuccessesIff(results: seq<Option<ProductMarketing>>)
    ensures Successes(results) == [] <==> forall i :: 0 <= i < |results| ==> results[i].None?
  {
    if results != [] {
      var n := |results| - 1;
      NoSuccessesIff(results[..n]);
      assert forall i :: 0 <= i < n ==> results[..n][i] == results[i];
    }
  }

  /** There are no error entries exactly when every image succeeded. */
  lemma {:induction false} NoFailuresIff(images: seq<UploadedImage>, results: seq<Option<ProductMarketing>>)
    requires |results| <= |images|
    ensures Failures(images, results) == [] <==> forall i :: 0 <= i < |results| ==> results[i].Some?
  {
    if results != [] {
      var n := |results| - 1;
      NoFailuresIff(images, results[..n]);
      assert forall i :: 0 <= i < n ==> results[..n][i] == results[i];
    }
  }

  /** The attempts of a batch are indexed by their position. */
  lemma AttemptsIndexed(images: seq<UploadedImage>, reply: nat -> Option<Response>, parse: string -> Option<Value>)
    ensures Indexed(Attempts(images, reply, parse))
  {
    var results := Attempts(images, reply, parse);
    forall i | 0 <= i < |results| && results[i].Some? ensures results[i].value.imageIndex == i {
      assert results[i] == GenerateContentForImage(reply(i), parse, i, images[i].name);
    }
  }

  /** What a finished batch reports, stated over its attempts. */
  lemma BatchSummary(images: seq<UploadedImage>, reply: nat -> Option<Response>, parse: string -> Option<Value>)
    ensures var results := Attempts(images, reply, parse);
      var products := Successes(results);
      var errors := Failures(images, results);
      && |products| + |errors| == |images|
      && (|products| == 0 <==> forall i :: 0 <= i < |images| ==> results[i].None?)
      && (|errors| == 0 <==> forall i :: 0 <= i < |images| ==> results[i].Some?)
      && (forall k, l :: 0 <= k < l < |products| ==> products[k].imageIndex < products[l].imageIndex)
      && (forall k :: 0 <= k < |products| ==>
            products[k].imageIndex < |images| && results[products[k].imageIndex] == Some(products[k]))
  {
    var results := Attempts(images, reply, parse);
    SuccessesAndFailuresPartition(images, results);
    AttemptsIndexed(images, reply, parse);
    SuccessesInOrder(results);
    NoSuccessesIff(results);
    NoFailuresIff(images, results);
  }

  /** The message chosen at the end of a batch. */
  function FinalNotice(products: seq<ProductMarketing>, total: nat, errors: seq<string>): Option<Notice>
  {
    if |products| == 0 then Some(AllImagesFailed)
    else if |errors| > 0 then Some(SomeImagesFailed(|products|, total, errors))
    else None
  }

  /**
   * The loop of generateContent: each image in turn gets one request, its
   * product or its error entry is appended, and the count goes up by one.
   */
  method ProcessImages(images: seq<UploadedImage>, reply: nat -> Option<Response>, parse: string -> Option<Value>)
    returns (products: seq<ProductMarketing>, errors: seq<string>, processedCount: nat)
    ensures products == Successes(Attempts(images, reply, parse))
    ensures errors == Failures(images, Attempts(images, reply, parse))
    ensures processedCount == |images|
  {
    ghost var results := Attempts(images, reply, parse);
    products, errors, processedCount := [], [], 0;
    for i := 0 to |images|
      invariant processedCount == i
      invariant products == Successes(results[..i])
      invariant errors == Failures(images, results[..i])
    {
      var result := GenerateContentForImage(reply(i), parse, i, images[i].name);
      assert result == results[i];
      BatchStep(images, results, i);
      if result.Some? {
        products := products + [result.value];
      } else {
        errors := errors + [FailureMessage(images[i].name)];
      }
      processedCount := processedCount + 1;
    }
    assert results[..|images|] == results;
  }

  /**
   * generateContent: refuses an empty selection or a missing key, otherwise
   * processes every image in order, one request each, collecting products
   * and error entries; a failed image never stops the loop.
   */
  method GenerateContent(images: seq<UploadedImage>, apiKey: string,
                         reply: nat -> Option<Response>, parse: string -> Option<Value>)
    returns (outcome: Outcome)
    ensures |images| == 0 ==> outcome == Refused(NoImagesSelected)
    ensures |images| > 0 && apiKey == [] ==> outcome == Refused(MissingApiKey)
    ensures |images| > 0 && apiKey != [] ==> outcome.Finished?
    ensures outcome.Finished? ==>
      var b := outcome.result;
      var results := Attempts(images, reply, parse);
      && b.products == Successes(results)
      && b.errors == Failures(images, results)
      && b.totalProducts == |images| && b.processedImages == |images|
      && |b.products| + |b.errors| == |images|
      && b.skippedImages == |images| - |b.products| == |b.errors|
      && outcome.notice == FinalNotice(b.products, |images|, b.errors)
      && (outcome.notice == Some(AllImagesFailed) <==> forall i :: 0 <= i < |images| ==> results[i].None?)
      && (outcome.notice == None <==> forall i :: 0 <= i < |images| ==> results[i].Some?)
      && (forall k, l :: 0 <= k < l < |b.products| ==> b.products[k].imageIndex < b.products[l].imageIndex)
      && (forall k :: 0 <= k < |b.products| ==>
            b.products[k].imageIndex < |images| && results[b.products[k].imageIndex] == Some(b.products[k]))
  {
    if |images| == 0 {
      return Refused(NoImagesSelected);
    }
    if apiKey == [] {
      return Refused(MissingApiKey);
    }
    var products, errors, processedCount := ProcessImages(images, reply, parse);
    BatchSummary(images, reply, parse);
    var batch := BatchResult(products, |images|, processedCount, |images| - |products|, errors);
    outcome := Finished(batch, FinalNotice(products, |images|, errors));
  }
}
