# Storybook generator: scene editing, batch image generation and image-response handling

This project models the logic of a browser application that turns a children's
story into an illustrated storybook. The story is split into scenes by a text
model; the user edits the scene list; a batch run then asks an image model for
one picture per scene.

Two parts of the application are modelled and proved:

- **The `App` component (App.tsx).** The story state is a title, a moral, an ordered list of
  scenes and the `isEditing` / `isProcessing` flags, or `null` when there is no story.
  - Module `StoryEdits` models the state updaters as functions:
    - the story built by `handleAnalyze`;
    - `updateScene` (a merge into every scene with the id);
    - `addScene` (a splice after an index);
    - `removeScene` (a filter).
  - Module `Batch` specifies the batch run `handleGenerateImages` pass by pass.
  - Module `AppComponent` holds class `App`. Its fields are the component's state (`input`, `story`, `loading`, `error`), and its methods are the handlers. `App.GenerateImages` is the batch loop, proved against `Batch.GenerateImages` with a loop invariant.
- **`generateSceneImage` (services/geminiService.ts).** Module `GeminiService` models these rules:
  - the prompt falls back to the original when the translation is missing or empty;
  - the fixed style suffix is appended to the request;
  - the image is taken from the first part of the response that carries inline data;
  - the two error cases (no parts; no image part);
  - every error is re-raised with its message, or with a default message when that is empty.

Supporting modules:
- `JsText` models `String.prototype.trim` (ECMAScript whitespace and line terminators) and the decimal rendering of numbers in template literals. The decimal rendering is proved injective by a parse round trip.
- `Types` holds the records of types.ts.
- `Wrappers` holds `Option` and `Result`.

Inputs from outside the program are parameters:
- the outcome of `analyzeStory` is a `Result<Analysis, string>`;
- the translation call's outcome, and the image model's answer to the request text, are an `ImageCall` per scene;
- `Date.now()` is a natural-number parameter `now` for `addScene`; for `handleAnalyze`, which reads the clock once per scene inside the `map` callback, it is a sequence `nows` with one reading per scene.

Scene ids are modelled as the strings the code builds: `scene-<now>-<index>` from the analysis and `scene-<now>` from an insertion. The model proves two facts about them:
- analyzed ids are pairwise different, however the clock moves between callbacks;
- an inserted id never equals an analyzed one.

Where the code and the intended design differ, the model follows the code:
- Editing a scene's prompt does not clear its image. The handler passes only `{ imagePrompt }` (App.tsx:186). `TextEditKeepsImage` proves that the image is kept.
- The batch run does not skip scenes that already have an image. `GenerateImagesPerScene` proves that a success replaces the old image.
- There is no retry or backoff around the model calls.
- A response whose parts list is present but empty is not the safety-filter case. `!parts` is false for an empty array, so it gives the no-image-data error.
- A failing translation call fails the whole image call. The fallback to the original prompt applies only when the translation text is absent or blank.
- Scene ids are strings, not the `number` declared in types.ts:3. `isEditing` is part of the state although types.ts does not declare it.
- `isGenerating` is optional in types.ts. Every scene the code creates sets it, so it is a plain flag here.

## Model

| member | source | states |
|---|---|---|
| JsText.LeadingWhitespace | App.tsx:27 | counts the whitespace `trim()` drops at the start: every counted character is whitespace and the next one, if any, is not |
| JsText.TrailingWhitespaceStart | App.tsx:27 | locates the whitespace `trim()` drops at the end: every character from there on is whitespace and the one before, if any, is not |
| JsText.Trim | App.tsx:27 | `trim()` yields the slice left after the leading and trailing whitespace is removed, everything dropped is whitespace, and the result neither starts nor ends with whitespace |
| JsText.TrimEmptyIff | App.tsx:27 | `!input.trim()` holds exactly when the input is all whitespace (both directions) |
| JsText.Decimal | App.tsx:37 | `${n}` is a non-empty string of decimal digits |
| JsText.DecimalRoundTrip | App.tsx:37 | parsing the rendered digits gives back the number |
| JsText.DecimalInjective | App.tsx:37 | different numbers render as different strings |
| GeminiService.ChoosePrompt | services/geminiService.ts:77 | the prompt is the trimmed translation when that is non-empty, and the original prompt unchanged when the translation is absent or blank |
| GeminiService.RequestText | services/geminiService.ts:84 | the text sent to the image model is the chosen prompt followed by the fixed style suffix, and stripping the suffix gives the prompt back |
| GeminiService.FirstCandidateParts | services/geminiService.ts:94 | the optional chain `candidates?.[0]?.content?.parts` is present exactly when there is a first candidate whose content has parts, and then it is those parts |
| GeminiService.FirstInlineFrom | services/geminiService.ts:98-102 | returns the first index of a part carrying inline data, with no such part before it, or none exactly when no part carries inline data |
| GeminiService.DataUri | services/geminiService.ts:100 | the result is `data:image/png;base64,` followed by the part's data (rendered "undefined" when absent) |
| GeminiService.ExtractImage | services/geminiService.ts:94-104 | missing parts give the safety-filter error; parts without inline data give the no-image-data error; otherwise the data URI of the first inline part; a success is always a data URI |
| GeminiService.LaterPartsIgnored | services/geminiService.ts:98-102 | parts after the first inline-data part never affect which part is chosen |
| GeminiService.LaterPartsIgnoredFrom | services/geminiService.ts:98-102 | the same, for the search started at any index up to that part |
| GeminiService.Rewrap | services/geminiService.ts:105-108 | the re-raised message is the original message when non-empty and exactly "图像生成失败" otherwise, so it is never empty |
| GeminiService.GenerateSceneImage | services/geminiService.ts:62-108 | a failed translation call or image call fails with the re-wrapped message; otherwise the result is the extraction from the response to prompt plus suffix; success is always a data URI and a failure message is never empty |
| StoryEdits.AnalyzedSceneId | App.tsx:37 | `scene-${Date.now()}-${idx}`: the `scene-` prefix, the digits of the clock reading, then a dash |
| StoryEdits.AddedSceneId | App.tsx:61 | `scene-${Date.now()}`: the `scene-` prefix followed by digits only |
| StoryEdits.TimeDigits | App.tsx:37 | after the prefix of an analyzed id the time digits are followed by a non-digit |
| StoryEdits.DigitRunUnique | App.tsx:37 | a leading run of digits ended by a non-digit has only one possible length, so the time part of an analyzed id is read back uniquely |
| StoryEdits.AnalyzedSceneIdInjective | App.tsx:35-39 | two analyzed ids are equal only for the same clock reading and the same index, whatever the clock reads in each `map` callback; so scenes at different indices receive different ids |
| StoryEdits.AddedIdNotAnalyzed | App.tsx:61 | an id made by `addScene` never equals an id made by `handleAnalyze`, for any two timestamps |
| StoryEdits.Merge | App.tsx:55 | `{ ...s, ...updates }`: every field the update sets comes from it, every other field is kept from the scene |
| StoryEdits.UpdateScenes | App.tsx:55 | same length and order; every scene with the id is merged with the update, every other scene is unchanged |
| StoryEdits.UpdateScene | App.tsx:52-57 | a null story stays null; title, moral and flags are unchanged and only the scenes are updated |
| StoryEdits.UpdateAbsentIdIsNoOp | App.tsx:52-57 | updating an id no scene has leaves the story as it was |
| StoryEdits.TextEditKeepsImage | App.tsx:186 | an update of text or prompt only leaves every scene's image and generating flag as they were |
| StoryEdits.SpliceStart | App.tsx:69 | the insertion point is clamped into the list and equals the requested start when that is in range |
| StoryEdits.InsertScene | App.tsx:68-70 | one more scene, the same scenes plus the new one as a multiset; for an index in range the new scene sits at index+1, earlier scenes are unchanged and later ones shift right by one |
| StoryEdits.NewScene | App.tsx:60-65 | the inserted scene has the `scene-<now>` id, the placeholder prompt and text, no image and is not generating |
| StoryEdits.AddScene | App.tsx:59-72 | a null story stays null; otherwise only the scene list changes, by inserting the default new scene after the index |
| StoryEdits.RemoveScenes | App.tsx:77 | the filter never makes the list longer |
| StoryEdits.RemoveScenesMembers | App.tsx:77 | a scene is kept exactly when it was in the list and lacks the id (both directions) |
| StoryEdits.RemoveDistributes | App.tsx:77 | filtering a concatenation filters each part and keeps their order, so kept scenes keep their relative order |
| StoryEdits.RemoveAbsentIsNoOp | App.tsx:74-79 | removing an id no scene has changes nothing |
| StoryEdits.RemoveAround | App.tsx:77 | removing the id of one scene between runs without it leaves exactly the two runs |
| StoryEdits.OnlyOneWithId | App.tsx:74-79 | with distinct ids, no scene before or after scene k carries scene k's id |
| StoryEdits.RemoveUnique | App.tsx:74-79 | with distinct ids, removing scene k's id removes exactly scene k |
| StoryEdits.RemoveScene | App.tsx:74-79 | a null story stays null; title, moral and flags are unchanged and only the scene list is filtered |
| StoryEdits.AddThenRemove | App.tsx:59-79 | removing a just-inserted scene whose id was new restores the story |
| StoryEdits.AddToAnalyzedThenRemove | App.tsx:32-79 | on an analyzed story, whatever the clock read per scene, removing a scene inserted at any later time restores the story |
| StoryEdits.BuildScenes | App.tsx:35-39 | one scene per analyzed scene with its text and prompt, no image, not generating, scene `idx` carrying the id built from the clock reading of its own callback, and pairwise different ids however the clock moves |
| StoryEdits.BuildStory | App.tsx:32-42 | the analyzed story is in editing mode, not processing, with the analysis's title and moral, one scene per analyzed scene, same text and prompt, no image, not generating, and pairwise different ids |
| Batch.Attempt | App.tsx:89-96 | one pass of the loop body keeps the number of scenes (its per-scene effect is `Batch.AttemptAt`) |
| Batch.AttemptAt | App.tsx:89-96 | one pass settles every scene carrying the snapshot scene's id (image recorded on success, kept on failure, flag cleared) and leaves the other scenes unchanged |
| Batch.StartBatch | App.tsx:84 | the story leaves editing mode and starts processing; nothing else changes and no story stays none |
| Batch.FinishBatch | App.tsx:98 | processing ends; nothing else changes and no story stays none |
| Batch.RunAttempts | App.tsx:86-97 | the loop never changes the number of scenes |
| Batch.RunAttemptsStep | App.tsx:86-97 | one more turn of the loop is the previous turns followed by an attempt at the next snapshot scene with its own call |
| Batch.GenerateImages | App.tsx:82-99 | the run ends out of editing mode and not processing, with title, moral and scene count unchanged |
| Batch.RunAttemptsSettles | App.tsx:86-97 | whatever the ids, the loop keeps places, ids, prompts and texts; scenes whose id is in the snapshot end not generating; every image is the old one or a data URI |
| Batch.RunAttemptsPerScene | App.tsx:88-96 | with distinct ids, after i passes the first i scenes are each settled by their own call and the rest are untouched |
| Batch.GenerateImagesPerScene | App.tsx:86-97 | with distinct ids every scene is attempted in order from its own prompt; a failure does not stop later scenes; success replaces any earlier image and failure keeps it |
| Batch.GenerateImagesSettles | App.tsx:82-99 | whatever the ids and outcomes, afterwards no scene is generating, order, ids, prompts and texts are kept, and every image is the old one or a data URI |
| AppComponent.App.constructor | App.tsx:20-23 | the initial state: the given input, no story, not loading, no error |
| AppComponent.App.EditInput | App.tsx:137 | the input becomes the typed text |
| AppComponent.App.Analyze | App.tsx:26-49 | whitespace-only input changes nothing; otherwise on success the analyzed story replaces the old one and the error is cleared, and on failure the story is kept and the failure message is set; loading ends false |
| AppComponent.App.UpdateScene | App.tsx:52-57 | the story becomes `StoryEdits.UpdateScene` of the old story |
| AppComponent.App.AddScene | App.tsx:59-72 | the story becomes `StoryEdits.AddScene` of the old story |
| AppComponent.App.RemoveScene | App.tsx:74-79 | the story becomes `StoryEdits.RemoveScene` of the old story |
| AppComponent.App.GenerateImages | App.tsx:82-99 | the loop over the snapshot yields exactly `Batch.GenerateImages` of the old story; the invariant keeps the story processing and out of editing mode, with the first i passes applied |
| AppComponent.App.GenerateForScene | App.tsx:89-96 | one turn of the loop: marking, the image call and the settling update together are exactly `Batch.Attempt` on the current scenes |
| AppComponent.App.EditAgain | App.tsx:267 | an existing story returns to editing mode with nothing else changed; no story stays none |
| AppComponent.App.DiscardStory | App.tsx:273 | the story is dropped (the same handler is on the cancel button at App.tsx:214) |

## Left out

- The network calls to the Gemini models (`generateContent`) and the API key lookup (services/geminiService.ts:5, 12, 67, 80) are foreign I/O. Their outcomes are the `Analysis` result and `ImageCall` parameters.
- The body of `analyzeStory` is left out (services/geminiService.ts:10-57). It is an advisory prompt, a response schema and `JSON.parse` of model output, so the parsed analysis is taken as given.
- The request text of the translation call, and the aspect-ratio setting of the image call, are left out. They are advisory input to the model.
- `handlePrint` (App.tsx:101-120) is left out. It is DOM queries, a new window, HTML writing and a timed print.
- All JSX rendering, the loading and error banners, the error-dismiss button and components/StoryCard.tsx are left out. They are UI with no logic beyond the truthiness check on `imageUrl`.
- React's asynchronous state scheduling is not modelled. Each `setStory(prev => …)` is one atomic update. Edits interleaved with an awaited call are not modelled. No update during the batch sets the story to null.
- Collisions between `Date.now()` ids are not excluded. Two insertions in the same millisecond get the same id, exactly as in the code. `UpdateScene`, `RemoveScene` and the batch are stated for any ids, and their per-scene results assume distinct ids.
- `console.error` logging is left out.
- The default story text shown in the input box (App.tsx:7-17) is sample content. The constructor takes the initial input as a parameter.
- The `scene-<now>-<index>` ids of one analysis are distinct, but ids of two different analyses may coincide. This does not matter, because an analysis replaces all scenes.
