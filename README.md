# GeminiService decision logic in Dafny

This project models the client wrapper `GeminiService` of a browser image
studio (`2/geminiService.ts`). The wrapper sends prompts, and optionally a
source image, to a hosted image-generation backend and turns the backend's
answer into an image data URL or an error. The model covers the logic around
the network call:

- the API-key check that runs before any request (`getClient`);
- the scan of the response parts for the first image (`extractImageFromParts`),
  including the `BASE64_IMAGE_REGEX` search inside text parts;
- the requests built by `generateImage`, `processImage` and
  `analyzeImageType`: model, parts, aspect ratio and the Pro-only image size;
- the parsing of a source data URL: the mime type through `data:(.*?);base64`
  and the removal of the `^data:image\/\w+;base64,` header;
- the error mapping of `generateImage` and the error propagation of the other two;
- the classification of the analysis reply into PHOTO, PATTERN or SCENE.

The backend is a parameter. Each operation takes the backend's `Reply`, which
is either a `Response` or a thrown `Error`. It returns the `Request` it sent,
or `None` when it threw before sending one, together with its result.

Modules:

- `Wrappers`: `Option` and `Result`.
- `Text`: `indexOf`/`includes`, ASCII `toUpperCase` and ECMAScript `trim`.
- `Patterns`: the three regular expressions. Each has a declarative
  description of the substring the JavaScript engine reports (`Split`,
  `IsMatch`: leftmost start, greedy `+`, lazy `*?`, `.` stopping at line
  terminators, `^` anchoring). Each also has an executable matcher (`MatchAt`,
  `Leftmost`), and the two are proved equal.
- `GeminiService`: parts, responses, requests, errors and the three service
  operations. The `for` loop of `extractImageFromParts` is a method proved
  against the specification function `FirstImage`. The `unshift` of
  `processImage` is kept as an update of the local parts sequence.

The aspect ratios are the five values `1:1`, `3:4`, `4:3`, `9:16` and `16:9`.
They come from the `AspectRatio` type in the application's `types.ts`. The
copy of that file next to `2/geminiService.ts` is not part of this model, so
the values are taken from the sibling application's copy.

## Model

| member | source | states |
|---|---|---|
| `Text.Contains` | 2/geminiService.ts:71 | `includes` holds exactly when the needle occurs at some index |
| `Text.IndexFrom` | 2/geminiService.ts:71 | `indexOf` from a start index: the index found holds the needle and no earlier index from the start does; none exactly when no index from the start holds it |
| `Text.Upper` | 2/geminiService.ts:146 | `toUpperCase` keeps the length and upper-cases each character on its own |
| `Text.Trim` | 2/geminiService.ts:146 | `trim` returns a slice of the input with only whitespace cut from either end, and the result neither starts nor ends with whitespace |
| `Text.ContainsUpperTrim` | 2/geminiService.ts:146 | trimming before upper-casing never changes whether a space-free keyword occurs in the reply |
| `Patterns.MatchAtIff` | 2/geminiService.ts:5 | the executable matcher reports the end `e` at start `i` exactly when the engine's match at `i` is `s[i..e]`, for all three patterns |
| `Patterns.Leftmost` | 2/geminiService.ts:30 | `match` reports a match at the smallest start that has one, and no start before it has one |
| `Patterns.FindImageDataUrl` | 2/geminiService.ts:29-33 | none exactly when no substring matches `BASE64_IMAGE_REGEX`; otherwise a matching substring of the text with no match starting earlier |
| `Patterns.ImageDataUrlShape` | 2/geminiService.ts:29-33 | what a text part yields starts with `data:image/` and contains `;base64,` |
| `Patterns.ImageDataUrlRoundTrip` | 2/geminiService.ts:5 | an image data URL with a subtype in `[a-zA-Z0-9.+-]+` and a non-empty base64 body is found whole |
| `Patterns.MimeType` | 2/geminiService.ts:98 | the mime type is never empty; when `data:(.*?);base64` matches, it is the lazy group of the leftmost match, or `image/png` when that group is empty; with no match it is `image/png` |
| `Patterns.MimeTypeOfDataUrl` | 2/geminiService.ts:98 | the mime type written into `data:<mime>;base64,<data>` is read back when it is non-empty and has no `;` or line terminator |
| `Patterns.StripDataUrlHeader` | 2/geminiService.ts:99 | the result is a suffix of the input; it differs from the input exactly when the anchored header matches, and it is what follows that header |
| `Patterns.StripDataUrlHeaderOfDataUrl` | 2/geminiService.ts:99 | for an `image/<\w+>` data URL, stripping leaves exactly the payload |
| `Patterns.StripKeepsOtherSubtypes` | 2/geminiService.ts:99 | a subtype with a character outside `\w` (and no `;`) leaves the whole data URL unchanged |
| `GeminiService.GetClient` | 2/geminiService.ts:10-13 | the call proceeds exactly when the key is present and non-empty; otherwise it fails with `MISSING_GEMINI_API_KEY` |
| `GeminiService.ExtractImageFromParts` | 2/geminiService.ts:22-37 | absent parts give no image; otherwise the loop returns the image of the first part that yields one (`FirstImage`) |
| `GeminiService.PartImage` | 2/geminiService.ts:25-33 | a part with inline data always yields an image; any image comes from the inline data or the text |
| `GeminiService.FirstImage` | 2/geminiService.ts:24-36 | any image found is the image of one of the parts |
| `GeminiService.ResponseParts` | 2/geminiService.ts:63 | `candidates?.[0]?.content?.parts` is present exactly when every link of that chain is present, and is then the first candidate's parts |
| `GeminiService.ResponsePartsFirstCandidate` | 2/geminiService.ts:63 | only the first candidate is read; later candidates and the reply text never change the parts |
| `GeminiService.FirstImageNone` | 2/geminiService.ts:22-36 | no image is found exactly when no part has inline data or a text with an image data URL |
| `GeminiService.FirstImageFirstWins` | 2/geminiService.ts:24-34 | the first qualifying part decides the result, whatever later parts hold |
| `GeminiService.PartImageIsDataUrl` | 2/geminiService.ts:25-33 | an inline part yields exactly `data:` + mime + `;base64,` + data, the mime being `image/png` when absent or empty; any other part yields the `BASE64_IMAGE_REGEX` match of its text; both start with `data:` and contain `;base64,` |
| `GeminiService.FirstImageIsDataUrl` | 2/geminiService.ts:24-36 | every extracted image is a data URL |
| `GeminiService.MapGenerateError` | 2/geminiService.ts:68-79 | a message containing "Requested entity was not found" becomes `PRO_KEY_REQUIRED`; every other error is rethrown unchanged |
| `GeminiService.OwnErrorsPassThrough` | 2/geminiService.ts:67-78 | `MISSING_GEMINI_API_KEY`, "No image data found in response" and `PRO_KEY_REQUIRED` pass the catch block unchanged |
| `GeminiService.GenerateImage` | 2/geminiService.ts:43-80 | a missing key sends nothing and fails with `MISSING_GEMINI_API_KEY`; the model is `gemini-3-pro-image-preview` when `isPro` and `gemini-2.5-flash-image` otherwise, and `imageSize` is `1K` exactly when `isPro`; the only part is the prompt; a found image is returned, an empty extraction fails with "No image data found in response", a backend error goes through `MapGenerateError`; every success is a data URL |
| `GeminiService.ProcessImage` | 2/geminiService.ts:86-126 | a missing key sends nothing; `gemini-2.5-flash-image` is used with no image size; the parts are `[source, prompt]` for a non-empty source and `[prompt]` otherwise, with the prompt always last and the source part carrying the parsed mime type and stripped payload; backend errors are rethrown unchanged |
| `GeminiService.AnalyzeImageType` | 2/geminiService.ts:131-150 | a missing key sends nothing; the request is `gemini-3-flash-preview` with `[image, question]` and no config; a backend error propagates; a reply is classified by `Classify` |
| `GeminiService.SourcePart` | 2/geminiService.ts:97-100 | the source part is inline data only, with a non-empty mime type and a payload that is a suffix of the image |
| `GeminiService.Classify` | 2/geminiService.ts:146-149 | PHOTO for a missing reply; otherwise SCENE exactly when the upper-cased reply contains SCENE, even if it also contains PATTERN; PATTERN exactly when it contains PATTERN and not SCENE; PHOTO otherwise |
| `GeminiService.ClassifyDefault` | 2/geminiService.ts:146-149 | a missing or empty reply gives PHOTO |
| `GeminiService.InlineImageRoundTrip` | 2/geminiService.ts:27 | an inline image with an `image/<\w+>` mime type, fed back as a source image, is sent as the same data and mime type |
| `GeminiService.SvgSourceKeepsHeader` | 2/geminiService.ts:99 | an `image/svg+xml` source is sent with its whole data URL as the payload, because `\w+` does not match `svg+xml` |

## Left out

- The `GoogleGenAI` SDK call, `async`/`await` and the client object are left out: they are network I/O. The reply is a parameter, and the SDK's `response.text` accessor is a field of `Response`.
- `process.env`, the `GEMINI_BASE_URL` option and `console.error` logging are left out: they are environment reading and side effects. The key is an `Option<string>` parameter.
- `Text.UpperChar`: upper-cases ASCII letters only. Non-ASCII case mappings of `toUpperCase` are not modelled (for example U+017F becoming `S`, or ligatures that expand).
- Values thrown without an `Error` shape are not modelled. A thrown value is an `Error` with an optional message. A part that is not an object (for example `null`, which would make the scan throw) is not modelled either.
- `Part`: a non-string truthy `inlineData.data` or `mimeType` is not modelled; both fields are optional strings.
- `GenerateImage`, `ProcessImage`: the default arguments `aspectRatio = '1:1'` and `isPro = false` (lines 43 and 89) are not separate entry points; omitting them is the same as passing `Square` and `false`.
- The pipeline orchestrator, nearest-aspect-ratio matching and the React views are not part of this model.
