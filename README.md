# Polaroid AI page: a Dafny model

Polaroid AI is a single React page. The user uploads two photos, picks any
of three prompts (Portrait, High Five, Hug) and starts a run. For each
chosen prompt, in order, the page sends one request to an image-generation
service. It shows a simulated progress bar per prompt and collects the
returned images into a gallery, where each image can be downloaded.

This project models the logic of that page, `src/app/page.tsx`, and proves
properties of it:

- `selection.dfy` (module `Selection`): the prompt toggle (`handlePromptToggle`).
  The selection is a list used as a set.
- `prompts.dfy` (module `Prompts`):
  - the static `promptOptions` table;
  - the table restricted to the selection (`promptOptions.filter(...)`), which follows the order of the table.
- `response.dfy` (module `Response`):
  - the service's answer as the page reads it;
  - the first part whose MIME type starts with `image/`;
  - the `data:` URI built from that part;
  - `dataUrl.split(',')[1]`, which `fileToBase64` uses.
- `progress.dfy` (module `Progress`): the per-slot status and progress arrays and the copy-and-overwrite updaters the page applies to them, including the interval's guarded tick.
- `generation.dfy` (module `Generation`): what a run produces, as pure functions of its inputs. A run's inputs are:
  - the chosen prompts;
  - one `Attempt` per request: the progress ticks that fire while that request is in flight, and how it ends;
  - the two photos.

  `LoopReport` and `RunReport` give:
  - the images on screen;
  - the requests sent;
  - the error thrown;
  - the progress intervals left running.
- `page.dfy` (module `Page`): the component's state as the fields of the class `Home`, and the handlers as methods that update those fields.
  - `Generate` is `handleGenerate`: guards, set-up, the `try` block, `catch` and `finally`.
  - `RunPrompts` is the `for` loop, with its loop invariants.
  - `StartRequest` and `ReceiveResponse` are the two halves of one loop pass.
  - `ShowGallery` and `GalleryAfterRun`: when the gallery appears after a run.

  `RequestPrompt`, `RunPrompts`, `TryGenerate` and `Generate` are proved against the functions of `Generation`. The other handlers state their new fields directly, through `Selection.Toggle` and `Progress.Tick` where they apply.
- `download.dfy` (module `Download`): the download file name `polaroid-${alt.toLowerCase().replace(/\s+/g, '-')}.png`.

The environment supplies, as inputs:

- the network: each request ends in an `Outcome`;
- the file reader: each photo either has a data URL or fails to read;
- the timers: the increments of the progress interval.

Every request the page sends is recorded in the field `requests`. Every
progress interval it starts and never clears is recorded in the field
`liveIntervals`.

In several places the code behaves differently from what its names, its
state and its UI text suggest. The model follows the code:

- **Prompt order.** `selectedPrompts` records the prompts in the order they
  were clicked, but prompts run and results appear in the order of the
  `promptOptions` table (line 89).
  `TableOrderNotClickOrder` shows a selection made as "hug, then portrait"
  that runs portrait first.
- **No failure status.** The progress cards know only `pending`,
  `generating` and `completed` (lines 365-400), and the code sets no other
  status. A failure leaves its slot `generating` until the `finally` block
  replaces all the slots with three `pending` ones (`SlotsAfterLoop`).
- **Leaked intervals.** Each progress interval looks as if it belongs to its
  request, but it is cleared only after an OK
  response whose body has been parsed (line 139). A rejected `fetch`, a
  rejected `response.json()` or a non-OK status throws before that line, so
  that slot's interval keeps running after the run is over. The model
  records this in `liveIntervals` (see `LeakOnlyBeforeClear`).
  `IntervalFires` can still tick such a slot after the `finally` block.
- **File name.** A label such as "High Five" reads as if each space became
  a `-`. The download name in fact replaces each run of whitespace (the
  characters of JavaScript's `\s`) with one `-`.
- **One request per prompt.** A run sends exactly one request per selected
  prompt only when every request succeeds. Otherwise it stops after the
  first failure (`StopsAtFirstFailure`, `SentInPromptOrder`).

## Model

| member | source | states |
|---|---|---|
| Selection.Toggle | poloroid-ai/src/app/page.tsx:34-40 | the id ends up selected exactly when it was not selected before; a present id has every copy removed, and the rest keep their order; an absent id is appended at the end; every other id keeps its membership |
| Selection.Without | poloroid-ai/src/app/page.tsx:37 | `filter(id => id !== x)` removes every copy of `x` and nothing else, keeps the order of the rest (a subsequence), and is shorter by the number of copies removed |
| Selection.ToggleKeepsNoDuplicates | poloroid-ai/src/app/page.tsx:34-40 | toggling keeps a duplicate-free selection duplicate-free |
| Selection.ToggleRemovesSlot | poloroid-ai/src/app/page.tsx:34-40 | on a duplicate-free selection, toggling the id at index k cuts out exactly that slot |
| Selection.ToggleTwiceAbsent | poloroid-ai/src/app/page.tsx:34-40 | toggling an absent id twice gives back the original selection |
| Selection.ToggleTwicePresent | poloroid-ai/src/app/page.tsx:34-40 | toggling a present id twice moves it to the end, so the selection comes back only when the id was already last |
| Prompts.PromptOptions | poloroid-ai/src/app/page.tsx:5-21 | the `promptOptions` table: the ids, labels and prompt texts of Portrait, High Five and Hug, in that order |
| Prompts.SelectionValid | poloroid-ai/src/app/page.tsx:299-301 | what the selection always is: each id at most once, only table ids, since the table's buttons are its only writers |
| Prompts.TableIdsDistinct | poloroid-ai/src/app/page.tsx:5-21 | the three table ids are distinct |
| Prompts.SelectedOptions | poloroid-ai/src/app/page.tsx:89 | the restricted table holds exactly the table rows whose id is selected, in table order (a subsequence of the table) |
| Prompts.Chosen | poloroid-ai/src/app/page.tsx:89 | `selectedPromptObjects` never has more entries than the selection, and each of its ids is selected |
| Prompts.SelectedAtMostSelection | poloroid-ai/src/app/page.tsx:89 | with distinct table ids, the restriction is never longer than the selection |
| Prompts.SelectedMatchesSelection | poloroid-ai/src/app/page.tsx:89 | a duplicate-free selection of table ids yields exactly one row per selected id |
| Prompts.SelectionValidMatches | poloroid-ai/src/app/page.tsx:77-79 | for a valid selection, the loop runs over exactly as many prompts as there are progress and status slots |
| Prompts.ToggleKeepsSelectionValid | poloroid-ai/src/app/page.tsx:34-40 | toggling a table id keeps the selection duplicate-free and made of table ids |
| Prompts.TableOrderNotClickOrder | poloroid-ai/src/app/page.tsx:89 | selecting hug then portrait runs portrait first, then hug |
| Response.FindImagePart | poloroid-ai/src/app/page.tsx:134-136 | `parts.find(...)` returns the index of the FIRST part with inline data of an `image/` MIME type, and none exactly when no part qualifies |
| Response.IsOk | poloroid-ai/src/app/page.tsx:129 | `response.ok`: the status is in 200..299 |
| Response.IsImagePart | poloroid-ai/src/app/page.tsx:135 | the `find` predicate: the part has inline data whose MIME type starts with `image/` |
| Response.ImageOf | poloroid-ai/src/app/page.tsx:129-136 | a request yields an image exactly when its status is OK, the parts path is present and some part qualifies; the image is the inline data of the FIRST qualifying part, and has an `image/` MIME type |
| Response.DataUri | poloroid-ai/src/app/page.tsx:143 | the image `src`: `data:`, the MIME type, `;base64,`, then the payload (its round trip is `DataUriRoundTrip`) |
| Response.Base64Field | poloroid-ai/src/app/page.tsx:180 | `split(',')[1]` is undefined exactly when there is no comma; otherwise it is the text after the first comma, up to the next comma or the end, and holds no comma |
| Response.DataUriRoundTrip | poloroid-ai/src/app/page.tsx:143 | `split(',')[1]` of the `data:<mime>;base64,<data>` URI gives back `data` when neither part holds a comma |
| Progress.Filled | poloroid-ai/src/app/page.tsx:78-79 | `new Array(n).fill(v)` has length n and every slot equal to v |
| Progress.SetSlot | poloroid-ai/src/app/page.tsx:95-99 | the copy-and-overwrite updater changes slot i to the new value, and leaves every other slot and the length unchanged |
| Progress.Tick | poloroid-ai/src/app/page.tsx:103-108 | one tick changes only slot i, and only when that slot is below 90; it never shrinks the slot, adds less than 10, leaves a slot past the end absent, keeps a slot below 100 below 100, and keeps every slot within 0..100 |
| Progress.Ticks | poloroid-ai/src/app/page.tsx:102-110 | the interval's updater applied once per firing, in order, to slot i |
| Progress.TicksBounded | poloroid-ai/src/app/page.tsx:102-110 | after any number of ticks, slot i has not shrunk and is still below 100, and no other slot has moved |
| Progress.TicksSnoc | poloroid-ai/src/app/page.tsx:102-110 | one more tick firing is one more application of the updater |
| Download.IsWhitespace | poloroid-ai/src/app/page.tsx:439 | the characters JavaScript's `\s` matches: ECMAScript's WhiteSpace and LineTerminator characters |
| Download.LowerChar | poloroid-ai/src/app/page.tsx:439 | an upper-case ASCII letter becomes the lower-case letter at the same place in the alphabet; any other character is unchanged; whitespace stays whitespace |
| Download.ToLower | poloroid-ai/src/app/page.tsx:439 | `toLowerCase()` keeps the length and lower-cases each character on its own |
| Download.SkipWhitespace | poloroid-ai/src/app/page.tsx:439 | dropping a leading run of whitespace leaves a suffix of the text, drops only whitespace and stops at the first non-space |
| Download.ReplaceWhitespaceRuns | poloroid-ai/src/app/page.tsx:439 | `replace(/\s+/g, '-')` leaves no whitespace and never lengthens the text |
| Download.DownloadFilename | poloroid-ai/src/app/page.tsx:439 | the name the download button passes: `polaroid-`, the label lower-cased with each whitespace run replaced by `-`, then `.png` |
| Download.FilenameShape | poloroid-ai/src/app/page.tsx:439 | every download name starts with `polaroid-`, ends with `.png` and holds no whitespace and no upper-case ASCII letter |
| Download.ReplaceWord | poloroid-ai/src/app/page.tsx:439 | a word without whitespace is left unchanged |
| Download.ReplaceRun | poloroid-ai/src/app/page.tsx:439 | a whole run of whitespace between a word and the rest becomes one `-` |
| Download.TwoWordReplace | poloroid-ai/src/app/page.tsx:439 | two words separated by a space become the words joined by `-`, including an empty second word (a trailing space becomes a trailing `-`) |
| Download.TwoWordFilename | poloroid-ai/src/app/page.tsx:439 | a two-word label such as "High Five" downloads as `polaroid-<first>-<second>.png`, both words lower-cased |
| Download.SingleWordFilename | poloroid-ai/src/app/page.tsx:439 | a label without whitespace, such as "Portrait", downloads as `polaroid-<label lower-cased>.png` |
| Download.LowerWord | poloroid-ai/src/app/page.tsx:439 | a word whose letters each lower-case to those of another word lower-cases to that word |
| Download.HighFiveWords | poloroid-ai/src/app/page.tsx:13 | the High Five caption of the table is "High", a space and "Five", which lower-case to "high" and "five" |
| Download.HighFiveFilename | poloroid-ai/src/app/page.tsx:439 | the High Five result downloads as `polaroid-high-five.png` |
| Generation.FirstFailure | poloroid-ai/src/app/page.tsx:91-164 | the index of the first of n requests that fails, or n: every request before it succeeds, and the one at it fails |
| Generation.ImageFor | poloroid-ai/src/app/page.tsx:142-144 | the result pushed for a prompt: the data URI of the returned image as `src`, the prompt's label as `alt` |
| Generation.Images | poloroid-ai/src/app/page.tsx:141-145 | the images of the first m prompts, one per prompt |
| Generation.Encoded | poloroid-ai/src/app/page.tsx:82-83 | `fileToBase64` on a photo that reads: its MIME type and the `split(',')[1]` field of its data URL, as the request carries them (lines 116-117) |
| Generation.Requests | poloroid-ai/src/app/page.tsx:112-127 | the bodies of the first m requests, one per prompt |
| Generation.FailureOf | poloroid-ai/src/app/page.tsx:129-131 | why a failing request aborts the run: a rejected request is a transport error, a non-OK status its `HttpFailed` status, an OK response without an image `NoImage` of the prompt's label (line 162) |
| Generation.LeavesIntervalRunning | poloroid-ai/src/app/page.tsx:129-139 | a request leaves its interval running when it ends before `clearInterval`: on a rejection or a non-OK status |
| Generation.LoopReport | poloroid-ai/src/app/page.tsx:91-164 | what the loop leaves: the images of the prompts before the first failure, the requests up to and including it, that failure's reason, and its interval when it ends before `clearInterval` |
| Generation.RunReport | poloroid-ai/src/app/page.tsx:81-164 | the `try` block: a photo that does not read throws `ReadFailed` before any request; otherwise `LoopReport` over the encoded photos |
| Generation.ImagesShape | poloroid-ai/src/app/page.tsx:141-145 | the j-th image has the j-th prompt's label as `alt` and the j-th response's data URI as `src` |
| Generation.RequestsShape | poloroid-ai/src/app/page.tsx:112-121 | the j-th request carries the j-th prompt's text and both photos |
| Generation.RunEndsAt | poloroid-ai/src/app/page.tsx:129-131 | when request k is the first to fail (k = n if none fails), the run shows the images before k and sends k+1 requests (n when none fails) |
| Generation.ReportAt | poloroid-ai/src/app/page.tsx:91-164 | spells out a run's images, requests, error and leaked interval once the first failure k is known |
| Generation.AllSucceed | poloroid-ai/src/app/page.tsx:91-164 | when every request succeeds: one image per prompt, the j-th built from the j-th prompt and response, one request per prompt, no error and no leaked interval |
| Generation.StopsAtFirstFailure | poloroid-ai/src/app/page.tsx:161-163 | when request k is the first to fail: exactly the images before k, requests up to and including k only, and the error is the reason request k failed |
| Generation.ThrowsIffAFailure | poloroid-ai/src/app/page.tsx:129-131 | a run throws exactly when some request fails, and shows one image per prompt exactly when it does not throw |
| Generation.SentInPromptOrder | poloroid-ai/src/app/page.tsx:91-127 | requests go out one per prompt, in prompt order, never more than there are prompts, and never fewer than the images shown |
| Generation.LeakOnlyBeforeClear | poloroid-ai/src/app/page.tsx:129-139 | at most one interval is left running, and one is left exactly when the run ended on a rejected request or a non-OK status (never on a missing image) |
| Generation.ImageSourcesRoundTrip | poloroid-ai/src/app/page.tsx:143 | every image shown comes from a successful request, and, when its MIME type and payload hold no comma, `split(',')[1]` of its `src` gives back that request's base64 payload |
| Page.UploadMessage | poloroid-ai/src/app/page.tsx:63 | the message for a missing photo |
| Page.SelectMessage | poloroid-ai/src/app/page.tsx:68 | the message for an empty selection |
| Page.GenericMessage | poloroid-ai/src/app/page.tsx:167 | the message the `catch` block shows for anything thrown |
| Page.ShowGallery | poloroid-ai/src/app/page.tsx:424 | the gallery condition: not loading, some image, and as many images as selected ids |
| Page.Validated | poloroid-ai/src/app/page.tsx:62-70 | the run gets past its guards: both photos are there and at least one prompt is selected |
| Page.SlotsBefore | poloroid-ai/src/app/page.tsx:91-164 | while the loop is at i: the slots before i completed at 100, the rest still pending at 0 |
| Page.SlotCompletes | poloroid-ai/src/app/page.tsx:147-157 | slot i completing at 100 while every other slot is unchanged moves the loop on to i+1 |
| Page.SlotFails | poloroid-ai/src/app/page.tsx:129-163 | slot i failing while still generating below 100, every other slot unchanged, leaves the slots as `SlotsAfterLoop` at i |
| Page.SlotsAfterLoop | poloroid-ai/src/app/page.tsx:91-164 | the slots once the loop stops at k: the slots before k completed at 100, a failing slot k left generating below 100, the later slots still pending at 0 |
| Page.GalleryAfterRun | poloroid-ai/src/app/page.tsx:424 | after a run over a valid selection, the gallery shows exactly when both photos were read, a prompt was selected and every request returned an image |
| Page.Home.constructor | poloroid-ai/src/app/page.tsx:24-31 | the initial state: nothing selected, no results, no error, not loading, empty progress and status arrays |
| Page.Home.TogglePrompt | poloroid-ai/src/app/page.tsx:34-40 | the selection becomes its toggle, and stays valid when a table id is clicked |
| Page.Home.FileUpload | poloroid-ai/src/app/page.tsx:42-47 | the chosen file replaces only its own upload box |
| Page.Home.IntervalFires | poloroid-ai/src/app/page.tsx:102-110 | a running interval applies one tick to its slot and keeps the state valid |
| Page.Home.StartRequest | poloroid-ai/src/app/page.tsx:92-127 | slot i becomes generating, its interval starts and ticks within bounds, and one request is appended |
| Page.Home.ReceiveResponse | poloroid-ai/src/app/page.tsx:129-163 | an image completes the slot (progress 100, completed) and is appended; any other outcome throws its reason and leaves the slots alone; the interval is cleared only after an OK response |
| Page.Home.RequestPrompt | poloroid-ai/src/app/page.tsx:91-164 | one loop pass: throws exactly when request i fails, changes only slot i (completed at 100 on success, generating below 100 on failure), and appends exactly one request |
| Page.Home.RunPrompts | poloroid-ai/src/app/page.tsx:88-164 | the loop's images, requests, error and leaked intervals are those of `LoopReport`, and the slots are `SlotsAfterLoop` at the first failure |
| Page.Home.TryGenerate | poloroid-ai/src/app/page.tsx:81-164 | the `try` block's effect is `RunReport`: an unreadable photo throws before any request and leaves the slots as they were; otherwise the loop runs and leaves the slots as `SlotsAfterLoop` says; either way both slot arrays keep their length |
| Page.Home.StartRun | poloroid-ai/src/app/page.tsx:72-79 | the error is cleared, loading starts, results are emptied, and there is one pending slot at zero per selected id |
| Page.Home.Finally | poloroid-ai/src/app/page.tsx:168-172 | loading ends, three zero progress slots and three pending statuses, whatever the number of prompts |
| Page.Home.Generate | poloroid-ai/src/app/page.tsx:58-173 | reading the two upload fields: a missing photo or an empty selection sets its own message and changes nothing else; otherwise the `finally` values hold, the generic message is set exactly when something was thrown, and the images, requests, error and leaked intervals are those of `RunReport`; from a valid state, the gallery then shows exactly when both photos were read and every selected prompt's request returned an image |

## Left out

- The network: `fetch`, JSON parsing, the API URL and the API key (lines 85-86, 123-133). Each request's outcome is an input `Outcome`. A request beyond the supplied outcomes counts as rejected.
- `FileReader` and the base64 encoding itself (lines 175-189). A photo either has a data URL or fails to read. Only the `split(',')[1]` step is modelled.
- Timers and `Math.random()`: the 200 ms schedule is not modelled, and increments are arbitrary reals in [0, 10) rather than floating point.
  - During a run, the ticks of the current slot's interval are an input.
  - A leaked interval firing while a later run is in progress is not modelled: `Generate` is one atomic step.
- React's batching and the interleaving of functional state updates. Each setter takes effect at once, in program order.
- `handleDownload` and the DOM anchor it creates (lines 49-56), and all JSX and CSS (lines 191-470), except the gallery condition and the download name.
- `console.error` (line 166): logging only.
- The error messages `API response failed. Status: …` and `No image returned for prompt: …` are kept as the `RunError` values `HttpFailed(status)` and `NoImage(label)`. Their text is never shown: the `catch` block replaces it with the generic message.
- A part whose inline data has no `mimeType` makes `startsWith` throw a TypeError, which the `catch` block turns into the generic message. The model gives every inline data a MIME type.
- Download.ToLower: lower-cases ASCII letters only. JavaScript's `toLowerCase()` also maps the rest of Unicode, which none of the three labels uses.
- Download.HighFiveFilename: states the name as the concatenation `"polaroid-" + ("high" + "-" + "five") + ".png"`, which is the string `polaroid-high-five.png`. Its proof takes the caption as a parameter equal to the table's. Comparing the flattened 22-character literal, or unfolding the string functions on the literal, is too costly to verify directly. The Portrait and Hug labels are covered only by the general `SingleWordFilename`.
- Page.Home.Generate: reads the photos from the `uploadedFiles` fields, where `handleGenerate` reads the first file of each input through its ref (lines 59-60). The two agree because each input's `onChange` passes its first file to `handleFileUpload` (lines 213, 255). The DOM inputs are not modelled.
- Page.Home.Generate and Page.GalleryAfterRun: user events during a run are not interleaved with it. While a run is in flight only the generate button is disabled (line 320); the prompt toggles (lines 299-301) and the uploads (lines 208-214) stay live. The gallery statement assumes the selection is the one the run started with.
- Page.Home.IntervalFires: requires the slot's interval to be running. Environment events are modelled only as they can occur.
