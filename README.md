# Scroll-driven frame player and its deployment check, in Dafny

This project models two parts of a landing page:

- The page's hero section plays an image sequence as the visitor scrolls. The frame-sequence player that does this lives in `script.js`. It preloads `frameCount` images (`frame_0001.jpg` … `frame_0251.jpg`) and counts their load and error events. Once every image has reported, it starts the animation. It maps a scroll target to a clamped frame index and requests that frame. A request is accepted only when the image is decoded and either the request is forced or the in-flight flag `isRendering` is clear. The flag is not a count of scheduled draws: a resize, or an earlier draw finishing, can clear it while another draw is still scheduled. The accepted frame is drawn one display refresh later, with a cover fit; the draw caches a snapshot of the canvas and releases the in-flight flag. There is a three-tier safe render for re-entry into the section, and a resize handler that clears the canvas, drops the snapshot and redraws the current frame.
- The pre-deployment script `deploy-check.js` runs over a snapshot of the file system. It reports the required files, the frame images (count, first and last in sorted order, badly named ones), the file sizes against a 5 MiB ceiling and the deployment workflow. It exits with status 1 exactly when something required is missing.

The files:

- `naming.dfy` (module `FrameNaming`): the file names the player gives its frames (`toString` and `padStart`), and the naming rule `^frame_\d{4}\.(jpg|png)$` the deployment check enforces. Lemmas tie the two together: a player's name passes the rule exactly when the number fits in four digits, and the number reads back from the name.
- `ordering.dfy` (module `NameOrder`): the order `Array.prototype.sort()` uses when it has no comparator is a strict total order. The sort is sorted and a permutation of its input, and the sorted arrangement is unique.
- `playback.dfy` (module `Playback`) has two layers.
  - The draw-relevant controller state is the value `PlayState`. Each operation on it is a function with its meaning in its contract: `RenderRequest`, `DrawStep`, `SafeRender`, `Resize` and `UpdateHook`. Each also preserves the invariant `Coherent`. A snapshot, whether cached or shown, always has the current canvas size. Only decoded frames are scheduled, shown or cached.
  - The class `FramePlayer` holds the page's mutable state as fields. Each of its methods is proved to perform the corresponding step on those fields. Each also keeps `Valid()`: the load counters agree with the image statuses, and the animation is initialised exactly once, when the last image reports.
  - Three scenario methods drive a player through start-up, the last image loading and a resize: `ScenarioStartUp`, `ScenarioLastImage` and `ScenarioResize`.
- `deploy.dfy` (module `DeployCheck`): the deployment check.
  - The console output is a list of abstract `Line` reports. `Transcript` is the whole list, in order.
  - `RunDeployCheck` is the imperative script, and it is proved to produce that transcript and the exit status of `DeployReady`.

Browser and platform facts the model relies on:

- An image is `Pending`, `Loaded` or `Failed`.
  - Failed is "`complete` with `naturalWidth` 0".
  - The browser fires exactly one of load or error for each image.
- Assigning `canvas.width` or `canvas.height` clears the canvas.
- Scheduled `requestAnimationFrame` callbacks run oldest first. They are the sequence `pendingDraws`, and `RunNextDraw` runs the oldest.
- The delayed safe renders of the re-entry hook are the sequence `delayedRenders`, and `RunDelayedRender` runs the oldest.
- An exception inside the draw callback is the `DrawFault` parameter of the draw step.
- In the deployment check, a path exists when it has a size. A directory can be listed when it has a listing.

## Model

| member | source | states |
|---|---|---|
| Playback.Clamp | script.js:159 | the effective index is in `[0, frameCount)`; an index in range is kept, a negative one becomes 0 and one past the end becomes the last frame |
| Playback.ProgressTarget | script.js:285-286 | the re-entry and entry target `Math.round(progress * (frameCount - 1))` is a valid frame for a progress in [0, 1], frame 0 at 0 and the last frame at 1 |
| Playback.ProgressMidpoint | script.js:285 | with 251 frames, the midpoint of the scroll range targets frame 125 |
| Playback.CoverFit | script.js:191-198 | the cover fit scales the image to cover the canvas on both axes and to match it on one axis; it keeps the aspect ratio and centres the image |
| Playback.CreateFrameCache | script.js:132-155 | a snapshot is returned exactly when the image exists and is decoded; it is of that frame at the current canvas size |
| Playback.RenderRequest | script.js:157-186 | an accepted request (forced or the in-flight flag clear, image decoded) marks a render in flight, moves to the clamped frame and schedules exactly one draw; any other request changes nothing; the invariant is preserved |
| Playback.DrawStep | script.js:187-209 | the oldest draw always releases the in-flight flag and leaves the index and canvas size alone; a clean draw shows the frame and caches a snapshot of it at the canvas size; a draw that throws keeps the old snapshot, and the canvas is blank or shows the frame depending on where it threw; the invariant is preserved |
| Playback.SafeRender | script.js:213-228 | a complete frame is force-requested, so a failed one changes nothing; otherwise the cached snapshot is shown without touching index, flag or draws; without a snapshot frame 0 is force-requested; the invariant is preserved |
| Playback.Resize | script.js:38-50 | the canvas takes the new size, is cleared and loses its snapshot; when the current slot holds an image, the flag is released and the current frame re-requested, scheduled exactly when it is decoded; the invariant is preserved |
| Playback.UpdateHook | script.js:251-262 | the scroll update changes the state exactly when the in-flight flag is clear and the clamped frame is decoded, and then it requests that frame |
| Playback.NonForcedCoalescing | script.js:162-180 | once a non-forced request has set the in-flight flag, every further non-forced request, same frame or not, changes nothing |
| Playback.ResizeWhileInFlight | script.js:46-48 | a resize while a draw is scheduled clears the flag and schedules a second draw of the same frame, so two draws from non-forced requests can be pending at once |
| Playback.RequestThenDraw | script.js:181-208 | an accepted request followed by its draw shows the clamped frame, caches its snapshot at the canvas size and leaves nothing in flight |
| Playback.ResizeThenDraw | script.js:38-50 | a resize followed by the draw it schedules shows the same frame, with the snapshot at the new size |
| Playback.ScenarioClampedRequests | script.js:159 | with four decoded frames, a request for 10 paints frame 3 and a request for -2 paints frame 0 |
| Playback.ScenarioFailedFrame | script.js:213-228 | with frame 2 failed and frame 1 shown, `renderFrame(2)`, forced or not, and `safeRenderFrame(2)` leave the state unchanged |
| Playback.ReportUpdate | script.js:64-82 | one load or error event raises the reported count by exactly one, and the decoded count by one exactly when the image loaded |
| Playback.AllReported | script.js:69-82 | the reported count equals the number of images exactly when no image is still pending |
| Playback.PendingNotReported | script.js:78 | while an image is pending, the reported count is below the number of images |
| Playback.PendingFrames | script.js:59-85 | the preloaded list has one pending image per frame, frame `i` with source `./frames/frame_` + padded `i + 1` + `.jpg`, and nothing is reported yet |
| Playback.PreloadImages | script.js:56-86 | the preload loop produces exactly `PendingFrames(frameCount)` |
| Playback.TrackedInitially | script.js:26-27 | fresh images agree with a zero load counter, no progress report and no initialisation |
| Playback.TrackedAfterEvent | script.js:64-82 | before the event nothing has been initialised; after it the counter has risen by one, the progress reports by one exactly on a load, and the animation is initialised exactly when this event is the last to report |
| Playback.CoherentUnderLoad | script.js:64-82 | a load or error event keeps whatever was decoded decoded, so it preserves the invariant |
| Playback.NothingToDraw | script.js:52 | before any image exists, nothing can be in flight, scheduled, cached or shown |
| Playback.IdleCoherent | script.js:32-34 | a state with nothing in flight, scheduled, cached or shown satisfies the invariant |
| Playback.ClearedCoherent | script.js:39-47 | a state cleared and stripped of its snapshot (with or without the in-flight flag) still satisfies the invariant |
| Playback.StartUpResize | script.js:37-52 | the first `setCanvasSize()`, before any image exists, only sets the canvas size |
| Playback.StartPage | script.js:24-59 | start-up: `preloadImages()` creates `PendingFrames(frameCount)`; the counters are zero, the index is 0, nothing is in flight, cached, shown or scheduled, and the canvas has the viewport size |
| Playback.FramePlayer.constructor | script.js:26-35 | the initial module state over images none of which has reported: counters zero, index 0, no flag, snapshot, drawing or scheduled draw |
| Playback.FramePlayer.RenderFrame | script.js:157-186 | the fields change exactly as `RenderRequest` says, and `Valid()` is kept |
| Playback.FramePlayer.RunNextDraw | script.js:187-209 | the fields change exactly as `DrawStep` says, and `Valid()` is kept |
| Playback.FramePlayer.SafeRenderFrame | script.js:213-228 | the fields change exactly as `SafeRender` says, and `Valid()` is kept |
| Playback.FramePlayer.SetCanvasSize | script.js:38-50 | the fields change exactly as `Resize` says, and `Valid()` is kept |
| Playback.FramePlayer.ImageEvent | script.js:64-82 | the image becomes loaded or failed and the counter rises by one; a progress update is recorded only on a load; on the last report the animation is initialised and requests frame 0; before that, the drawing state is unchanged |
| Playback.FramePlayer.OnUpdate | script.js:251-262 | the fields change exactly as `UpdateHook` says |
| Playback.FramePlayer.OnEnter | script.js:301-310 | the clamped target is safe-rendered at once, as `SafeRender` says |
| Playback.FramePlayer.OnEnterBack | script.js:281-297 | the clamped target is queued for a delayed safe render, and nothing else changes |
| Playback.FramePlayer.RunDelayedRender | script.js:294-296 | the oldest delayed target is safe-rendered, as `SafeRender` says; with none queued nothing changes |
| FrameNaming.ValidFrameName | deploy-check.js:43 | definition: the whole name is `frame_`, four ASCII digits, `.` and `jpg` or `png` |
| FrameNaming.FrameFileName | script.js:61-62 | definition: `frame_` + `(i + 1).toString().padStart(4, "0")` + `.jpg` for the 0-based frame `i` |
| FrameNaming.FrameSource | script.js:62 | definition: `./frames/` + the frame's file name |
| FrameNaming.EndsWith | deploy-check.js:33 | definition: `endsWith`, the suffix is the last characters of the name |
| FrameNaming.IsImageFile | deploy-check.js:33 | definition: the name ends with `.jpg` or `.png` |
| FrameNaming.ToDecimal | script.js:61 | `toString()` gives at least one decimal digit and no leading zero |
| FrameNaming.PadStart | script.js:61 | `padStart` returns the string unchanged when it is long enough; otherwise the fill fills the front up to the width |
| FrameNaming.DecimalLength | script.js:61 | a number's decimal form has at most `k` digits exactly when the number is below `10^k` |
| FrameNaming.ParseToDecimal | script.js:61 | reading a number's decimal form back gives the number |
| FrameNaming.FrameFileNameValid | script.js:59-62 | the name the player gives frame `i` passes the deployment naming rule exactly when `i + 1` fits in four digits |
| FrameNaming.FrameNumberRoundTrip | script.js:59-62 | the number written in frame `i`'s file name is `i + 1` |
| FrameNaming.FrameFileNameInjective | script.js:59-62 | different frames get different file names |
| FrameNaming.ValidNameIsImageFile | deploy-check.js:33-43 | every name that passes the naming rule also passes the `.jpg`/`.png` listing filter |
| NameOrder.Before | deploy-check.js:34 | definition: the comparison of the default `sort()`, character by character, a proper prefix first |
| NameOrder.BeforeTotal | deploy-check.js:34 | any two strings are equal or one sorts before the other |
| NameOrder.BeforeAsymmetric | deploy-check.js:34 | no two strings each sort before the other |
| NameOrder.BeforeTransitive | deploy-check.js:34 | the default sort order is transitive |
| NameOrder.SortNames | deploy-check.js:34 | `sort()` returns a sorted permutation of the names |
| NameOrder.SortedUnique | deploy-check.js:34 | two sorted permutations of the same names are equal, so the sorted listing is determined |
| NameOrder.SortedEnds | deploy-check.js:38-39 | a sorted list starts with its least element and ends with its greatest |
| NameOrder.SortedTail | deploy-check.js:34 | dropping the head of a sorted list leaves it sorted |
| DeployCheck.DeployReady | deploy-check.js:16-105 | definition: the verdict `allFilesExist`: the four required files, a `frames` directory with a `.jpg`/`.png` entry, and the workflow file exist |
| DeployCheck.Filter | deploy-check.js:33 | `filter` keeps exactly the elements that satisfy the predicate, each as many times as in the input; a sorted input gives a sorted result |
| DeployCheck.FilterConcat | deploy-check.js:33 | `filter` keeps the input order: filtering a joined list is joining the filtered parts |
| DeployCheck.FilterFront | deploy-check.js:33 | filtering a list starts with its first element when that element satisfies the predicate, then filters the rest |
| DeployCheck.FrameListing | deploy-check.js:31-34 | the listed frames are a sorted permutation of the `.jpg`/`.png` entries of the directory, duplicates included |
| DeployCheck.FrameListingCount | deploy-check.js:37 | the reported image count is the number of `.jpg`/`.png` entries |
| DeployCheck.FrameListingEnds | deploy-check.js:36-39 | the reported first and last frames are the least and the greatest image entry |
| DeployCheck.InvalidNames | deploy-check.js:42-44 | the badly named frames are the listed frames that break the naming rule, each as often as it is listed, in the sorted order of the listing |
| DeployCheck.ShownAreLowest | deploy-check.js:42-48 | the badly named frames listed one by one come no later in the sort order than any that are left out |
| DeployCheck.InvalidListing | deploy-check.js:46-52 | the badly named frames warning is empty exactly when every frame is well named, and holds only warnings of that kind |
| DeployCheck.Shown | deploy-check.js:48 | the names listed one by one are the first `min(5, n)` badly named frames |
| DeployCheck.InvalidListingNames | deploy-check.js:46-51 | the warning opens with the count, then names the first five in order; it has `1 + min(5, n)` reports, plus one when `n > 5` |
| DeployCheck.InvalidListingMore | deploy-check.js:49-51 | an "and N more" report is present exactly when `n > 5`, with `N = n - 5` |
| DeployCheck.InvalidListingListed | deploy-check.js:48 | a name is listed one by one exactly when it is among the first five badly named frames |
| DeployCheck.OverCeiling | deploy-check.js:67-69 | comparing `size / (1024 * 1024)` with the ceiling in MiB is the same as comparing the byte count with the ceiling times 1 MiB |
| DeployCheck.CheckFileSize | deploy-check.js:64-80 | the result is false exactly when the file exists and is over the ceiling; an existing file gets one report, "ok" or "over" to match; a missing file passes and is not reported |
| DeployCheck.ListedNames | deploy-check.js:48 | one "listed" report per name, in order, naming that name |
| DeployCheck.PresenceLines | deploy-check.js:19-26 | one report per required file, in order, "present" or "missing" to match whether it exists |
| DeployCheck.PresenceMissing | deploy-check.js:19-26 | a file is reported missing exactly when it is listed and does not exist |
| DeployCheck.SizeLines | deploy-check.js:82 | the size section holds only "ok" and "over" reports |
| DeployCheck.FramesLines | deploy-check.js:28-60 | the frames section holds only frame-count, badly-named, empty and missing reports |
| DeployCheck.SizeOverListed | deploy-check.js:82 | a size warning is issued for exactly the listed files that exist and exceed 5 MiB, with their size |
| DeployCheck.Transcript | deploy-check.js:11-105 | definition: the required-file reports; then, unless `frames` cannot be listed, the frames section, the size reports, the workflow report and the verdict |
| DeployCheck.InTranscript | deploy-check.js:13-105 | a report is in the transcript exactly when it is in the required-file section, or (when `frames` can be listed) in the frames, sizes, workflow or verdict sections |
| DeployCheck.RunDeployCheck | deploy-check.js:13-105 | the exit status is 0 exactly when every required file, a `frames` directory with an image entry and the workflow exist, and 1 otherwise; the reports are `Transcript` |
| DeployCheck.CheckRequiredFiles | deploy-check.js:14-26 | the flag stays true exactly when every required file exists; the reports are one per file |
| DeployCheck.CheckFramesDir | deploy-check.js:28-60 | the frames section succeeds exactly when `frames` exists and holds a `.jpg`/`.png` entry; its reports are `FramesLines` |
| DeployCheck.ReportSizes | deploy-check.js:82 | `checkFileSize` on every required file, with the result discarded: only reports are produced |
| DeployCheck.MissingFileReported | deploy-check.js:19-26 | the transcript reports a file missing exactly when it is a required file that does not exist |
| DeployCheck.OversizedFileReported | deploy-check.js:64-82 | the transcript has a size warning exactly for the required files over 5 MiB, unless the run stopped at an unlistable `frames` |
| DeployCheck.ReadyReported | deploy-check.js:93-105 | the transcript says "ready" exactly when the verdict is success |
| DeployCheck.WarningsDoNotFail | deploy-check.js:82 | a complete project with an oversized required file still exits 0, and the oversize is reported |
| DeployCheck.WarningsOnlyExample | deploy-check.js:93-96 | an example project with a badly named frame, a non-image entry and a 6 MiB script passes the verdict |

## Left out

- The smooth-scroll and animation libraries are left out, because they are external: Lenis, the GSAP ticker and the `ScrollTrigger.create` configuration. The scroll hooks are modelled as calls with a target index (script.js:1-22, 239-250).
- The tween object `frameAnimation` is left out, together with the assignments to `frameAnimation.frame` in the hooks. `OnUpdate` takes the rounded tween value as an integer input.
- Floating-point behaviour is not modelled. Progress and the cover fit are exact `real`s, and `Math.round` is floor of `x + 0.5` on an exact real.
- The cover-fit geometry is a side function (`CoverFit`). A draw is recorded as "shows frame k", not as pixels.
- The hero fade-out, the entrance timelines and `initHeroContentAnimation` are left out, because they are cosmetic library calls (script.js:263-276, 318-401).
- The loading indicator is left out because it is user-interface code: its DOM, its progress-bar text and `hideLoadingIndicator`. Only the fact that a progress update happens, and the count it is given, is kept (`progressReports`).
- Timing is left out: the `requestAnimationFrame` delay and the 0.05 s delayed call. Both are explicit later steps (`RunNextDraw`, `RunDelayedRender`).
- `console.log` and `console.warn` output is left out, and so is the console wording of the deployment check (emoji, `toFixed`, the follow-up instructions).
- The file system is an input value. There are no calls into `fs` or `path`.
- Playback.StartPage: this requires `frameCount >= 1`. The page uses the constant 251, so the empty image set never occurs there.
- Playback.FramePlayer.constructor: this assigns the viewport size directly instead of running `SetCanvasSize`. `StartUpResize` proves that the two have the same effect before any image exists. It takes the images as a parameter. `StartPage` creates them with `PreloadImages` and then constructs the player, so the page's order does not hold here: in the page, the canvas is sized before the images exist.
- Playback.FramePlayer.ImageEvent: this changes an image's status and runs its load or error handler in one step. In the browser `complete` and `naturalWidth` change first and the handler runs as a later task. The model does not capture an operation that runs in that gap: a resize there, with frame 0 decoded but its handler not yet run, redraws frame 0 in the page (script.js:46-48) and does nothing in the model. The same gap affects `OnUpdate` and the safe renders only after the animation has started, that is, once every handler has run, so there it cannot arise.
- Playback.FramePlayer.Valid: this does not keep each image's source. `StartPage` ensures the sources (`PendingFrames`), and `ImageEvent` changes only the status.
- NameOrder.Before: this compares `char`s, which are Unicode scalar values. JavaScript compares UTF-16 code units, so the two orders differ only between characters above U+FFFF and characters in U+E000–U+FFFF.
- DeployCheck.RunDeployCheck: when `frames` exists but is not a directory, `readdirSync` throws. The model ends the run there with status 1 and the reports so far. The uncaught exception's stack trace is not modelled.
- The required files are reported in the source's fixed order. The frame listing is modelled for arbitrary directory contents.

## Notes on the code

The model follows the code as written in each of these cases.

- The comment at script.js:219 says the cached snapshot is used when the target frame is unavailable. The test at script.js:216 checks only `complete`, so a failed image (complete, `naturalWidth` 0) takes the first tier. It is force-requested, and `renderFrame` drops the request at its decode check (script.js:174). The cache is then not shown. `ScenarioFailedFrame` states this.
- The last tier, at script.js:223-226 ("last resort: render the first frame"), force-requests frame 0. That request does nothing when frame 0 is not decoded, so the canvas keeps whatever it showed, blank after a resize (`SafeRender`).
- The comment at script.js:45 calls the resize redraw forced. The call at script.js:48 is `renderFrame(currentFrameIndex)`, a non-forced request. It is accepted because the line before it clears `isRendering`, so it is scheduled exactly when the current image is decoded (`Resize`). The test at script.js:46 is only that the slot holds an image.
- `createFrameCache` tests only the image (script.js:133-136). A zero-by-zero canvas still gets a snapshot (`CreateFrameCache`).
- Progress is updated only by the load handler (script.js:66-67). The error handler counts the image but reports no progress (script.js:75-82, `ImageEvent`).
