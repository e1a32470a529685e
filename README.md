# Marketing-content generator: text recovery and batching

The application turns product photos into Arabic marketing copy.
It sends each image to Google's Gemini model.
The model is asked to answer with a JSON object, and the application recovers that object from whatever text comes back.
There are two copies of this logic:

- the browser client (`src/App.tsx`) sends one request per image, in order, and collects products and error lines;
- the server-side relay (`supabase/functions/generate-marketing-content/index.ts`) sends one request holding every image, using the server's API key.

This project models, in Dafny:

- the integer count controls of both sides;
- the client's per-image recovery: first non-blank text part, trim, markdown fence removal, cut to the outermost braces, parse, reject a falsy value;
- the client's batch loop and the message it chooses at the end;
- the relay's request handling: the input guard, the key check, the request parts, the envelope check, text selection with its joined fallback, anchored fence stripping, and the parse with a brace-slice retry.

Modules:

- `Wrappers`: `Option` and `Result`.
- `Builtins`: the JavaScript string built-ins the code relies on, as recursive definitions:
  - `trim` and the `\s` whitespace set;
  - `includes`, `startsWith`, `endsWith`;
  - `indexOf` and `lastIndexOf` of a character;
  - a global regex `replace` of a literal, with an optional following `\n`;
  - `join`;
  - `Math.max(lo, Math.min(hi, n))`.
- `Json`: JSON values and JavaScript truthiness.
- `Gemini`: the response envelope, the first text part, and the cut to the outermost braces. Both sides share these.
- `App`: `src/App.tsx`.
- `EdgeFunction`: the relay.

Three things are parameters rather than code:

- `JSON.parse` is a parameter `parse: string -> Option<Value>`, where None means it throws.
- On the client, the network reply to the i-th request is `reply: nat -> Option<Response>`. None means a network error, a non-OK status, or a body that is not JSON.
- On the relay, the reply to a request with the given parts is `gemini: seq<RequestPart> -> Option<Response>`. The handler also returns the parts it sent, so its contract can say what went out.

Two facts the proofs establish about the relay:

- The joined fallback of its text selection can never produce text. It only runs when no part has non-blank text. Then every text joined is whitespace, and the `'\n'`-join holds no `{`. `EdgeFunction.JoinedFallbackIsEmpty` proves it, and `EdgeFunction.SelectText` states the consequence: the selected text is empty exactly when no part is non-blank.
- The fence stripping always yields trimmed text, and a trimmed body wrapped in a `` ```json `` fence comes back unchanged.

The two sides differ, and the model keeps each as written:

- The client clamps description sentences to [1, 10] and starts at 10. The relay clamps them to [1, 6] with default 3.
- The client removes fences anywhere in the text. The relay strips them only at the two ends.
- The relay reports `model_used` as `gemini-1.5-flash` (`ModelUsed`), while its request goes to `gemini-2.5-flash`. The model keeps the reported constant.

## Model

| member | source | states |
|---|---|---|
| App.FeaturesInput | src/App.tsx:576 | the key-features count is kept in [1,6]; values already in range are kept, smaller ones become 1, larger ones 6 |
| App.HashtagsInput | src/App.tsx:582 | the hashtags count is kept in [1,8]; in-range values are kept, out-of-range ones go to the nearer bound |
| App.DescriptionSentencesInput | src/App.tsx:588 | the description-sentences count is kept in [1,10]; in-range values are kept, out-of-range ones go to the nearer bound |
| App.ControlsIdempotent | src/App.tsx:576-588 | applying a control twice changes nothing, and the initial values 3, 4 and 10 are inside their ranges |
| App.SelectedText | src/App.tsx:202-204 | the selected text is trimmed; it is empty exactly when no part of the first candidate has non-blank text; otherwise it is the trimmed text of the first such part |
| App.CleanFences | src/App.tsx:207-212 | after fence cleaning no "```" is left, and text without "```" is unchanged |
| App.JsonText | src/App.tsx:207-219 | the text to parse holds no "```"; when a `{` precedes a `}` it starts with `{` and ends with `}`; otherwise it is the cleaned text |
| App.OpeningFenceRemoved | src/App.tsx:208 | the "```json" pass removes an opening fence and its newline and nothing else |
| App.ClosingFenceRemoved | src/App.tsx:208 | the "```" pass removes the closing fence, and its newline when one follows |
| App.FencedObjectRecovered | src/App.tsx:207-219 | an object wrapped in a ```json fence is recovered exactly |
| App.CommentaryRecovered | src/App.tsx:215-219 | commentary around an object is cut away when it opens or closes no brace |
| App.GenerateContentForImage | src/App.tsx:201-235 | a product results exactly when a reply arrived and the recovered text parses to a truthy value; the product carries the image's position, its name and the parsed value; every failure yields null |
| App.SuccessesAndFailuresPartition | src/App.tsx:258-268 | each attempt adds exactly one product or one error line, so products plus errors equal the attempts |
| App.SuccessesInOrder | src/App.tsx:262-265 | products keep submission order, with strictly increasing image indices, and each is the result of its own attempt |
| App.SuccessesComplete | src/App.tsx:262-265 | every successful attempt's product is among the products |
| App.NoSuccessesIff | src/App.tsx:286-287 | there are no products exactly when every attempt failed |
| App.NoFailuresIff | src/App.tsx:288-291 | there are no error lines exactly when every attempt succeeded |
| App.AttemptsIndexed | src/App.tsx:227-231 | the result of the i-th attempt carries index i |
| App.BatchStep | src/App.tsx:262-268 | one more attempt appends its product, or its error line, at the end and changes nothing before |
| App.ProcessImages | src/App.tsx:253-274 | the loop sends one request per image in order; the products it collects are the successes and the errors are the failures, in order; the processed count equals the number of images |
| App.BatchSummary | src/App.tsx:253-292 | a whole batch: the counts add up, the no-products and no-errors cases are as above, and products are ordered and traced to their attempts |
| App.GenerateContent | src/App.tsx:239-292 | no images or no key refuses before any request; otherwise every image is tried once, in order, whatever fails; products and errors are the successes and failures; processed and total equal the image count; skipped equals the error count; the message (helper `App.FinalNotice`) is all-failed, partial or cleared, by the stated conditions |
| Gemini.FindTextPart | src/App.tsx:203 | finds the first part whose text is a non-blank string, and finds nothing exactly when there is none |
| Gemini.BracePairIndices | src/App.tsx:215-217 | the first `{` precedes the last `}` exactly when some `{` precedes some `}` |
| Gemini.IndicesAreOutermost | src/App.tsx:215-216 | when a `{` precedes a `}`, `indexOf('{')` and `lastIndexOf('}')` find the first `{` and the last `}`, in that order |
| Gemini.SliceToBraces | src/App.tsx:215-219 | with a `{` before a `}`, the result runs from the first `{` to the last `}`, which are the positions `indexOf` and `lastIndexOf` report; otherwise the text is unchanged |
| Gemini.SliceKeepsAbsence | src/App.tsx:215-219 | cutting to the braces cannot create a fence |
| Gemini.SliceToBracesRecovers | supabase/functions/generate-marketing-content/index.ts:134-138 | an object is cut out exactly from text that opens no brace before it and closes none after it |
| Builtins.Trim | src/App.tsx:204 | `trim()` returns text with no whitespace at either end and no longer than its input; it is empty exactly for all-whitespace text, and trimmed text is unchanged |
| Builtins.TrimRemovesOnlySpace | src/App.tsx:204 | `trim()` returns a contiguous piece of the text, and only whitespace stands before and after that piece |
| Builtins.TrimStartSplits | supabase/functions/generate-marketing-content/index.ts:124 | the `\s*` run after the opening fence is a whitespace prefix: the text is that prefix followed by what is kept |
| Builtins.TrimEndSplits | supabase/functions/generate-marketing-content/index.ts:127 | the `\s*` run before the closing fence is a whitespace suffix: the text is what is kept followed by that suffix |
| Builtins.IndexOf | src/App.tsx:215 | `indexOf` is -1 exactly when the character is absent, and otherwise its first position |
| Builtins.LastIndexOf | src/App.tsx:216 | `lastIndexOf` is -1 exactly when the character is absent, and otherwise its last position |
| Builtins.RemoveAll | src/App.tsx:208 | a global replace never lengthens text |
| Builtins.RemoveAllWithoutMatch | src/App.tsx:208 | a global replace leaves text without the pattern unchanged |
| Builtins.RemoveAllConcat | src/App.tsx:208 | a replace leaves a pattern-free prefix untouched when no match can span the seam |
| Builtins.RemoveTicksLeavesNoFence | src/App.tsx:210-212 | removing every "```" leaves no "```"; a leading run of n backticks becomes one of n mod 3 |
| Builtins.ContainsLonger | src/App.tsx:207-210 | text containing "```json" contains "```" |
| Builtins.JoinWhitespace | supabase/functions/generate-marketing-content/index.ts:113 | `Builtins.Join` of whitespace texts with a whitespace separator gives whitespace |
| Builtins.Clamp | src/App.tsx:576 | `Math.max(lo, Math.min(hi, n))` lies in [lo,hi], is n inside it, and is the nearer bound outside it |
| EdgeFunction.FeatureCount | supabase/functions/generate-marketing-content/index.ts:40 | `fc` is in [1,6], is 3 when the field is absent, and is the given value when that lies in range |
| EdgeFunction.HashtagCount | supabase/functions/generate-marketing-content/index.ts:41 | `hc` is in [1,8], is 4 when the field is absent, and is the given value when that lies in range |
| EdgeFunction.DescriptionSentenceCount | supabase/functions/generate-marketing-content/index.ts:42 | `dc` is in [1,6], is 3 when the field is absent, and is the given value when that lies in range |
| EdgeFunction.ImageParts | supabase/functions/generate-marketing-content/index.ts:33-38 | one inline-data part per image, in order, with the image's MIME type; the data is a non-empty `base64Data`, else `base64` |
| EdgeFunction.JoinedFallbackIsEmpty | supabase/functions/generate-marketing-content/index.ts:112-119 | when no part has non-blank text, the joined fallback (helper `EdgeFunction.JoinedFallback`, which slices the `'\n'`-join of the part texts between its first `{` and last `}`) yields '' |
| EdgeFunction.SelectText | supabase/functions/generate-marketing-content/index.ts:109-119 | the selected text is the untrimmed text of the first part with non-blank text; it is '' exactly when there is no such part |
| EdgeFunction.DropOpeningFence | supabase/functions/generate-marketing-content/index.ts:123-125 | text that does not start with "```json" is unchanged; text that does is "```json", then a whitespace run, then the result; trimmed text stays trimmed |
| EdgeFunction.DropClosingFence | supabase/functions/generate-marketing-content/index.ts:126-128 | text that does not end with "```" is unchanged; text that does is the result, then a whitespace run, then "```"; trimmed text stays trimmed |
| EdgeFunction.StripFences | supabase/functions/generate-marketing-content/index.ts:122-128 | `cleanText` is DropClosingFence applied to DropOpeningFence of the trimmed text, each step stated in its own row; the cleaned text is trimmed and no longer than the input; trimmed text with neither fence at its ends is returned unchanged |
| EdgeFunction.OpeningFenceDropped | supabase/functions/generate-marketing-content/index.ts:123-125 | an opening ```json fence is dropped together with the newline after it |
| EdgeFunction.ClosingFenceDropped | supabase/functions/generate-marketing-content/index.ts:126-128 | a closing fence is dropped together with the newline before it |
| EdgeFunction.FencedBodyRecovered | supabase/functions/generate-marketing-content/index.ts:122-128 | a trimmed body wrapped in a ```json fence comes out unchanged |
| EdgeFunction.OpenFenceOnlyRecovered | supabase/functions/generate-marketing-content/index.ts:122-128 | a trimmed body after "```json" and a newline, with no closing fence, comes out unchanged |
| EdgeFunction.CloseFenceOnlyRecovered | supabase/functions/generate-marketing-content/index.ts:122-128 | a trimmed body not starting with "```json", followed by a newline and "```", comes out unchanged |
| EdgeFunction.ParseWithFallback | supabase/functions/generate-marketing-content/index.ts:130-142 | a successful direct parse wins; otherwise the brace slice is parsed when a `{` precedes a `}`; parsing succeeds exactly when one of the two does; the error records whether the slice was tried |
| EdgeFunction.CommentaryParsed | supabase/functions/generate-marketing-content/index.ts:133-138 | when commentary breaks the direct parse, the object inside is what the retry parses |
| EdgeFunction.Recover | supabase/functions/generate-marketing-content/index.ts:104-142 | a missing candidate or content is an invalid-response error; otherwise the result is the two-step parse of the stripped text of the first non-blank part, or of '' when there is none |
| EdgeFunction.HandleRequest | supabase/functions/generate-marketing-content/index.ts:13-175 | preflight is answered at once; an unreadable body, then missing images, then a missing key are rejected before any request; otherwise exactly the prompt followed by the image parts (helper `EdgeFunction.RequestParts`) is sent; a failed call is an error; otherwise the reply is the recovered content, with images_count equal to the number of images |

## Left out

- Network I/O: the Gemini `fetch` calls, HTTP statuses and `response.text()`. They become the `reply` and `gemini` parameters. The webhook POST is not modelled.
- `JSON.parse` and `JSON.stringify`: the JSON grammar is not modelled. `parse` is a parameter.
- `FileReader`, data URIs, base64 encoding, and the 5 MiB and `image/` upload filter. These are browser APIs.
- React state, rendering, clipboard, export and the progress `setError(null)` inside the loop. This is user interface.
- `supabase/functions/send-to-webhook/index.ts` and `src/vite-env.d.ts` are not part of this model.
- The prompt wording and the generation settings (temperature, token limit, response schema). In the relay a prompt is modelled by the three counts it states.
- The client's per-image request is not modelled: neither its prompt, which carries `featuresCount`, `hashtagsCount` and `descriptionSentences`, nor its image part, built from `image.file.type` and the second comma-separated field of the data URI, `split(',')[1]` (src/App.tsx:131-182). The `reply` parameter of the batch depends only on the image's position, so in the client the clamped count controls feed nothing into a request.
- Timestamps, CORS header values, console logging and the wording of error messages. Errors are modelled by their kind; all of them are answered with status 500.
- The text of the partial-failure message is not modelled; `SomeImagesFailed` keeps the counts and the error list it is built from.
- The client's outer `catch` is not modelled. `generateContentForImage` catches every failure itself, so nothing reaches it.
- Characters are Unicode scalar values, not UTF-16 code units. Text with characters outside the Basic Multilingual Plane is indexed differently.
- No required-field check follows the parse, as in the source: any truthy value (client) or any value (relay) is accepted.
- App.FeaturesInput: counts are integers; `Number()` coercion of non-numeric text (NaN) and fractional values is not modelled.
- App.HashtagsInput: counts are integers; `Number()` coercion, NaN and fractions are not modelled.
- App.DescriptionSentencesInput: counts are integers; `Number()` coercion, NaN and fractions are not modelled.
- EdgeFunction.FeatureCount: a config field is an integer or absent; `Number()` of strings, NaN and fractions are not modelled.
- EdgeFunction.HashtagCount: a config field is an integer or absent; `Number()` of strings, NaN and fractions are not modelled.
- EdgeFunction.DescriptionSentenceCount: a config field is an integer or absent; `Number()` of strings, NaN and fractions are not modelled.
- EdgeFunction.ImageParts: an image's `mimeType` is a string; a missing or non-string MIME type, or an image that is not an object, is not modelled.
