# ScanMyFood Vertex AI service: MIME-type resolution and JSON-span extraction

This project models the two pieces of logic that `VertexAiServiceImpl` in the
Spring backend works out for itself. The rest of the class calls an external
generative-model API.

- **MIME-type resolution** (`determineMimeType`). Each uploaded image is sent to
  the model tagged with a MIME type. If the upload declares a content type that
  is present and is not exactly `application/octet-stream`, that type is used
  unchanged. Otherwise the service looks at the original file name, ignoring
  letter case: `.png` gives `image/png`, and `.jpg` or `.jpeg` gives
  `image/jpeg`. Anything else gives `image/jpeg`. Both Java references may be
  `null`, so they are modelled as `Option<string>` (`mime_type.dfy`, modules
  `Ascii` and `MimeType`).
- **Embedded-JSON extraction** (`extractJsonFromResponse`). The model's reply is
  free text. The service runs the regular expression `\{.*\}` with `DOTALL`
  and `find()`. Because `.*` is greedy, the match runs from the first `{` in
  the text to the last `}` in the text. If no `}` follows the first `{`, the
  service throws `IOException("No valid JSON found in the response")`. The
  model defines the span by the first and last index (`ExtractSpan`). It also
  states the regular expression on its own terms, as the leftmost match and
  then the longest one at that start (`IsFoundMatch`). It proves that the two
  definitions agree. It then proves that the span is contiguous, that it is
  bracketed by braces, that extraction fails exactly when there is no match,
  and that extraction is idempotent (`json_extraction.dfy`, module
  `JsonExtraction`).

Both functions are pure in the source, so both are Dafny functions with lemmas.
Java's `null` and thrown exceptions become the `Option` and `Result` types in
`wrappers.dfy`.

The code does not look for a matching or balanced closing brace. It takes the
outermost span from the first `{` to the last `}`, stray braces in the
surrounding text included. `ExampleStrayBraces` shows the greedy span taking in
the narration between two objects.

## Model

| member | source | states |
|---|---|---|
| `Ascii.ToLower` | spring-backend/src/main/java/com/scanmyfood/backend/services/VertexAiServiceImpl.java:54-57 | lower-casing keeps the length and maps each character on its own (ASCII letters only) |
| `Ascii.EndsWithLowerIff` | spring-backend/src/main/java/com/scanmyfood/backend/services/VertexAiServiceImpl.java:54-57 | `toLowerCase().endsWith(ext)` holds exactly when the name's last characters spell `ext` with letter case ignored |
| `MimeType.DetermineMimeType` | spring-backend/src/main/java/com/scanmyfood/backend/services/VertexAiServiceImpl.java:49-65 | a declared type other than `application/octet-stream` is returned unchanged, whatever the file name is; otherwise the result is `image/png` or `image/jpeg`, and it is `image/png` exactly when the name ends in `.png` in any letter case |
| `MimeType.PngInAnyCase` | spring-backend/src/main/java/com/scanmyfood/backend/services/VertexAiServiceImpl.java:51-55 | with no usable declared type, any stem followed by `.png` in any mix of cases gives `image/png` |
| `MimeType.JpegInAnyCase` | spring-backend/src/main/java/com/scanmyfood/backend/services/VertexAiServiceImpl.java:51-58 | with no usable declared type, any stem followed by `.jpg` or `.jpeg` in any mix of cases gives `image/jpeg` |
| `MimeType.UnknownFallsBackToJpeg` | spring-backend/src/main/java/com/scanmyfood/backend/services/VertexAiServiceImpl.java:51-62 | with no usable declared type, a missing file name or an unrecognised extension gives `image/jpeg` |
| `MimeType.ExampleUpperCasePng` | spring-backend/src/main/java/com/scanmyfood/backend/services/VertexAiServiceImpl.java:50-55 | `photo.PNG` with no declared type resolves to `image/png` |
| `MimeType.ExampleOctetStreamJpeg` | spring-backend/src/main/java/com/scanmyfood/backend/services/VertexAiServiceImpl.java:50-58 | `x.jpeg` declared as `application/octet-stream` resolves to `image/jpeg` |
| `MimeType.ExampleDeclaredPassThrough` | spring-backend/src/main/java/com/scanmyfood/backend/services/VertexAiServiceImpl.java:50-51 | a declared empty string, or octet-stream in another letter case, is returned unchanged even for a `.png` name (`equals` is case-sensitive) |
| `JsonExtraction.FirstIndexOf` | spring-backend/src/main/java/com/scanmyfood/backend/services/VertexAiServiceImpl.java:332-335 | the index found holds the character and no earlier index does; when none is found, the character does not occur |
| `JsonExtraction.LastIndexOf` | spring-backend/src/main/java/com/scanmyfood/backend/services/VertexAiServiceImpl.java:332-335 | the index found holds the character and no later index does; when none is found, the character does not occur |
| `JsonExtraction.ExtractSpan` | spring-backend/src/main/java/com/scanmyfood/backend/services/VertexAiServiceImpl.java:330-339 | a failure carries the message "No valid JSON found in the response"; a success is at least two characters long, starts with `{` and ends with `}` |
| `JsonExtraction.ExtractJsonFromResponse` | spring-backend/src/main/java/com/scanmyfood/backend/services/VertexAiServiceImpl.java:330-341 | when `\{.*\}` matches nowhere, the result is the "No valid JSON found in the response" error and the parser is not consulted; otherwise the result is the parser applied to exactly the match `find()` reports (leftmost start, then longest end) |
| `JsonExtraction.ExtractFailsIff` | spring-backend/src/main/java/com/scanmyfood/backend/services/VertexAiServiceImpl.java:332-339 | extraction fails if and only if the regular expression matches nowhere, which is the same as no `}` coming after any `{` |
| `JsonExtraction.ExtractSpanIsFoundMatch` | spring-backend/src/main/java/com/scanmyfood/backend/services/VertexAiServiceImpl.java:332-336 | a successful span is the leftmost, then longest, match of `\{.*\}` under DOTALL |
| `JsonExtraction.FoundMatchIsExtracted` | spring-backend/src/main/java/com/scanmyfood/backend/services/VertexAiServiceImpl.java:332-336 | conversely, the match that `find()` reports is exactly what extraction returns |
| `JsonExtraction.ExtractSpanAt` | spring-backend/src/main/java/com/scanmyfood/backend/services/VertexAiServiceImpl.java:332-336 | a `{` with no `{` before it and a later `}` with no `}` after it bound the extracted span |
| `JsonExtraction.ExtractSpanSplitsText` | spring-backend/src/main/java/com/scanmyfood/backend/services/VertexAiServiceImpl.java:332-336 | on success the text is a prefix without `{`, then the span, then a suffix without `}`, so line breaks inside the span are kept |
| `JsonExtraction.ExtractSpanOfSplit` | spring-backend/src/main/java/com/scanmyfood/backend/services/VertexAiServiceImpl.java:332-336 | conversely, for any prefix without `{`, braced span and suffix without `}`, extraction from their concatenation returns that span |
| `JsonExtraction.ExtractSpanIdempotent` | spring-backend/src/main/java/com/scanmyfood/backend/services/VertexAiServiceImpl.java:332-336 | extracting from an extracted span returns that same span |
| `JsonExtraction.ExampleSurroundingText` | spring-backend/src/main/java/com/scanmyfood/backend/services/VertexAiServiceImpl.java:332-336 | `blah {"a":1} blah` yields `{"a":1}` |
| `JsonExtraction.ExampleStrayBraces` | spring-backend/src/main/java/com/scanmyfood/backend/services/VertexAiServiceImpl.java:332-336 | `x {a} y {b} z` yields `{a} y {b}`: the greedy match takes in the narration between the two objects |
| `JsonExtraction.ExampleReversedBraces` | spring-backend/src/main/java/com/scanmyfood/backend/services/VertexAiServiceImpl.java:332-339 | `}{` fails with "No valid JSON found in the response" |
| `JsonExtraction.ExampleNoBraces` | spring-backend/src/main/java/com/scanmyfood/backend/services/VertexAiServiceImpl.java:332-339 | text without `{` fails with "No valid JSON found in the response" |
| `JsonExtraction.ExampleEmptyObject` | spring-backend/src/main/java/com/scanmyfood/backend/services/VertexAiServiceImpl.java:332-336 | `{}` is accepted as it stands |

## Left out

- `Ascii.ToLower`: models ASCII lower-casing only. Java's `String.toLowerCase()` is Unicode-aware and depends on the default locale. For example, `İ` lower-cases to two characters, and under a Turkish locale `I` does not become `i`. The model does not capture those cases.
- The JSON parse (`objectMapper.readValue`, line 337) is a call into Jackson. It is passed to `ExtractJsonFromResponse` as the function parameter `readValue`, and its behaviour is not modelled.
- `analyzeProductImages`, `analyzeFoodImage` and `analyzeFoodDescription` (lines 67-328) are not modelled. They build the Vertex AI client, send the network request and read the first candidate of the response, and all of that is I/O against an external SDK.
- The prompt text blocks inside those methods are not modelled. They are fixed literals with at most one `%s` substitution.
- Logging, and the re-wrapping of every exception as a `RuntimeException` with a "Failed to analyze ..." message, are not modelled. This is plumbing around the analysis calls.
- The constructor and the project, location and credential fields (lines 27-44) are not modelled. They are configuration wiring.
- `MultipartFile` is reduced to its two fields that are read, the declared content type and the original file name.
