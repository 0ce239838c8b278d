# KD-gallery, modelled in Dafny

KD-gallery is a single-page React gallery of loading animations. This project models the logic behind its pages and widgets:

- **Catalogue page.** Searching the catalogue and grouping the results by category, in the fixed category order. The category buttons, the per-category section styles and the choice between a placeholder, category sections and a flat grid.
- **Animation card.** The `throttle` helper and the preview markup, with script blocks stripped for canvas ("Westworld") animations. The script's capture. The rewrite of its frame requests into visibility-gated ones. The per-canvas global slots that pause and resume an off-screen canvas.
- **Fullscreen viewer.** The filter settings record: defaults, single-field updates and reset. The CSS `filter` string. The speed and pause styles. The colour-overlay lookup. The markup put into the preview. The frame clock injected into canvas scripts.
- **Sound manager.** Per-type pools of three audio elements, preloaded on mount and emptied on unmount. A 100 ms throttle on hover sounds. Round-robin choice of the element to play.
- **Code viewer.** Tabs over a list of files. The HTML-escaping stage of its highlighter. The line-number gutter, the minimap, the status bar and the copy button.
- **Featured cube.** Six faces, each streaming a project file one character per tick into a 140-character window. The "copy project" text.
- **Legacy loader cards.** The animation record and the code-viewer file each card builds from its title.
- **Bounties page.** The status filter, the list or placeholder, the summary figures (total, completed count, unique winners, rounded average prize) and the badge colours.

Each source file has its own module:

| module | file |
|---|---|
| `Catalogue` | `catalogue.dfy` |
| `Card` | `card.dfy` |
| `Viewer` | `viewer.dfy` |
| `Sound` | `sound.dfy` |
| `Editor` | `editor.dfy` |
| `Cube` | `cube.dfy` |
| `Legacy` | `legacy.dfy` |
| `Bounties` | `bounties.dfy` |

Three more modules hold what the others share:

- `text.dfy` holds `Wrappers` (Option/Result), `Sequences` and `Text`. `Text` models the string operations the components use: ASCII lower-casing, `includes`/`indexOf`, global `replace`, `split`/`join`, removal of `<script>…</script>` blocks and number formatting.
- `throttling.dfy` holds the "at least `gap` ms since the last accepted call" rule. Both the card's `throttle` and the sound manager's hover throttle use it.

Objects and hooks whose state changes step by step are classes whose methods update fields:

- the sound manager;
- the code viewer modal;
- the cube's faces;
- the canvas slot registry;
- the throttle closure;
- the injected frame clocks.

Everything else is functions over datatypes. Times (`Date.now()`, frame timestamps) are parameters of the methods that use them.

## Model

| member | source | states |
|---|---|---|
| Text.ToLower | App.tsx:56-58 | lower-casing keeps the length and lowers each character on its own |
| Text.IndexOf | App.tsx:56-58 | the result is an occurrence at or after `from` with none before it, and `None` only when no occurrence exists from `from` on |
| Text.ContainsIff | App.tsx:56-58 | `includes` holds exactly when the pattern occurs at some position |
| Text.ReplaceAllIsSplitJoin | components/CodeEditorModal.tsx:42-44 | a global replace equals splitting at the pattern and joining with the replacement |
| Text.JoinSplit | components/CodeEditorModal.tsx:116 | joining the pieces of a split with the separator gives the text back |
| Text.SplitPiecesAreFree | components/CodeEditorModal.tsx:116 | no piece of a split contains the separator |
| Text.SplitCharCount | components/CodeEditorModal.tsx:116 | splitting at a character gives one piece more than the character's occurrences |
| Text.ReplaceAllSingle | components/CodeEditorModal.tsx:42 | a global replace of a one-character pattern replaces each occurrence of that character, character by character |
| Text.ReplaceAllSameLength | components/FullscreenViewer.tsx:229-230 | replacing with a text of the pattern's length keeps the length |
| Text.NatTextRoundTrip | components/FullscreenViewer.tsx:173-180 | reading back the decimal text of a number gives the number |
| Text.RemoveScriptsShrinks | components/AnimationCard.tsx:213 | stripping script blocks never lengthens markup and leaves script-free markup unchanged |
| Throttling.FiredSpaced | components/AnimationCard.tsx:11-20 | the calls a throttle lets through are at least `gap` apart, starting from the initial reference time |
| Throttling.FiredAreCalls | components/AnimationCard.tsx:13-18 | only actual calls get through, and the reference time is the last call that got through |
| Throttling.FiredSnoc | components/AnimationCard.tsx:15-18 | a new call gets through exactly when `gap` has passed since the reference time, and only then moves it |
| Card.Throttle.constructor | components/AnimationCard.tsx:11-12 | a new throttle has reference time 0 and no calls |
| Card.Throttle.Call | components/AnimationCard.tsx:13-19 | `fn` runs iff `now - lastCall >= delay`; the reference time moves only then; all calls that ran are `delay` apart |
| Card.PreviewHtml | components/AnimationCard.tsx:211-215 | a non-Westworld preview is the markup as written; a Westworld one is the markup with its script blocks removed (what Card.RemoveScriptsOfBlock characterises), never longer, and the markup itself when there is no script |
| Card.BlockBodyFree | components/AnimationCard.tsx:45-46 | a capture is non-empty and holds no closing tag (the match is lazy) |
| Card.ScriptBody | components/AnimationCard.tsx:45-46 | the inline script is non-empty and holds no `</script>` |
| Card.ScriptBodyOfBlock | components/AnimationCard.tsx:45-46 | for a script block after script-free text, the capture is exactly that block's non-empty body |
| Card.RemoveScriptsOfBlock | components/AnimationCard.tsx:213 | stripping removes the first script block whole, keeps the text before it and continues after it |
| Card.CanvasIdHasNoColon | components/AnimationCard.tsx:33 | a canvas id made from a React id contains no colon |
| Card.RewriteGuardsEveryRequest | components/AnimationCard.tsx:56-59 | the script splits into pieces free of `requestAnimationFrame(animate)`; joined with the call they give the script, joined with the guarded call the rewritten script |
| Card.CaptureFirst | components/AnimationCard.tsx:66-90 | every request the script makes is forwarded in order; a script that finishes gets the original `requestAnimationFrame` back and captures its first request, if any; one that throws leaves the wrapper installed and captures nothing |
| Card.CanvasRegistry.Prepare | components/AnimationCard.tsx:62-63 | the canvas becomes visible with no recorded frame; other canvases are unchanged |
| Card.CanvasRegistry.GuardedRequest | components/AnimationCard.tsx:58 | a frame is requested and recorded iff the canvas's visible flag is set |
| Card.CanvasRegistry.StoreCaptured | components/AnimationCard.tsx:79-81 | the captured function, if any, becomes the canvas's animate function |
| Card.CanvasRegistry.OnIntersect | components/AnimationCard.tsx:93-108 | the flag follows visibility; hiding clears the recorded frame; the animation restarts iff it turns visible with no recorded frame and a stored animate function |
| Card.CanvasRegistry.Cleanup | components/AnimationCard.tsx:115-123 | the recorded frame, if any, is cancelled, and all three slots of the canvas are deleted |
| Sound.TypeIndex | components/SoundManager.tsx:38 | each sound type has its position in the preload order |
| Sound.PreloadStep | components/SoundManager.tsx:39-45 | filling the next type's pool keeps every earlier pool full |
| Sound.NextIndex | components/SoundManager.tsx:77 | the next index stays inside the pool and wraps to 0 after the last element |
| Sound.SlotsAt | components/SoundManager.tsx:75-77 | successive plays use consecutive slots modulo the pool size |
| Sound.RoundRobinUsesEverySlot | components/SoundManager.tsx:75-77 | from any starting index, a pool's size in plays uses each slot exactly once |
| Sound.SoundManager.constructor | components/SoundManager.tsx:17-33 | pools are empty, every index is 0 and the last hover time is 0 |
| Sound.SoundManager.Preload | components/SoundManager.tsx:37-46 | every pool holds three elements of its own sound; indices and the hover time are untouched |
| Sound.SoundManager.FillPool | components/SoundManager.tsx:40-45 | three new elements of the type are appended to its pool; nothing else changes |
| Sound.SoundManager.Play | components/SoundManager.tsx:60-87 | a hover within 100 ms is dropped; an accepted hover moves the hover time; a sound plays iff accepted and its pool is non-empty; it then plays the current slot and only that type's index advances, round-robin; every hover joins the request history, the accepted hovers grow by this one exactly when it is accepted, and all accepted hovers so far are 100 ms apart |
| Sound.SoundManager.Cleanup | components/SoundManager.tsx:49-56 | every pool is emptied; indices and the hover time stay |
| Sound.AcceptedHoversSpaced | components/SoundManager.tsx:62-68 | the hovers the 100 ms rule accepts from any request history are at least 100 ms apart (the history Sound.SoundManager.Play keeps) |
| Catalogue.CategoryIndex | App.tsx:67 | each category has its position in the display order |
| Catalogue.FilterAnimations | App.tsx:55-59 | an animation is kept iff it is in the catalogue and its lower-cased name, description or category contains the lower-cased term, and it is kept as many times as it occurs there |
| Catalogue.FilterKeepsOrder | App.tsx:55-59 | the search results keep the catalogue's order |
| Catalogue.EmptyTermKeepsAll | App.tsx:55-59 | the empty term keeps the whole catalogue, in order |
| Catalogue.CategoryTermKeepsCategory | App.tsx:58 | searching for a category's name keeps every animation of that category |
| Catalogue.Buckets | App.tsx:66-81 | each category's bucket holds exactly its animations, in search-result order |
| Catalogue.GroupAnimations | App.tsx:61-84 | there are no groups iff a term is set; otherwise the groups are the non-empty categories in display order |
| Catalogue.GroupsUpToShape | App.tsx:67-84 | groups are non-empty, hold exactly their category's animations, and appear in strictly increasing category order |
| Catalogue.GroupsUpToComplete | App.tsx:75-84 | every category with a matching animation has a group |
| Catalogue.GroupedIsPermutation | App.tsx:66-84 | the groups together hold exactly the search results, as a multiset |
| Catalogue.ClickHighlightsOnlyThatButton | App.tsx:138-150 | after a click on a button, that button and no other is highlighted |
| Catalogue.CategoryStyle | App.tsx:26 | a configured category gets its own style; any other category name gets the folder fallback |
| Catalogue.EveryCategoryConfigured | App.tsx:11-26 | no category of the catalogue falls back to the folder style |
| Catalogue.GalleryViewFor | App.tsx:160-185 | the placeholder shows iff nothing matches; the sections show only for the empty term; the flat grid shows the search results |
| Catalogue.SectionsShowWholeCatalogue | App.tsx:160-176 | with no term, a non-empty catalogue shows as sections holding every animation |
| Viewer.SpeedValue | components/FullscreenViewer.tsx:36 | every selectable speed is positive |
| Viewer.Reciprocal | components/FullscreenViewer.tsx:36 | the selectable speeds are closed under reciprocals |
| Viewer.UpdateFilter | components/FullscreenViewer.tsx:198-200 | the updated field has the new value and every other field keeps its value |
| Viewer.FieldsDetermineSettings | components/FullscreenViewer.tsx:198-200 | two settings with the same value in every field are equal |
| Viewer.UpdateWithOwnValue | components/FullscreenViewer.tsx:198-200 | setting a field to its current value changes nothing |
| Viewer.UpdateOverrides | components/FullscreenViewer.tsx:198-200 | a second update of the same field overrides the first |
| Viewer.OnOpenChange | components/FullscreenViewer.tsx:46-50 | opening resets to the defaults (no filter, transparent overlay); closing keeps the settings |
| Viewer.ResetFilters | components/FullscreenViewer.tsx:202-205 | every field gets its default value, so no filter applies and the animation runs |
| Viewer.PushedIffDeparts | components/FullscreenViewer.tsx:173-180 | within the sliders' ranges, a filter is emitted iff its setting departs from the neutral value |
| Viewer.PartsCharacterised | components/FullscreenViewer.tsx:171-181 | the emitted filters are exactly those departing from neutral, in the fixed order, at most one each |
| Viewer.FilterNoneIffNeutral | components/FullscreenViewer.tsx:181 | the string is `none` iff no filter is emitted, which in range means every setting is neutral; the defaults give `none` |
| Viewer.GetFilterString | components/FullscreenViewer.tsx:171-182 | the eight conditional pushes and the join give the specified filter string |
| Viewer.SpeedStyleFor | components/FullscreenViewer.tsx:184-190 | paused iff the pause flag is set; otherwise the duration divided by the speed |
| Viewer.PausedIgnoresSpeed | components/FullscreenViewer.tsx:186-188 | while paused, the speed does not affect the style |
| Viewer.FindOverlay | components/FullscreenViewer.tsx:194 | the result is the first overlay of the list with that id (no earlier one has it), and `None` iff none has it |
| Viewer.OverlayIdsDistinct | components/FullscreenViewer.tsx:27-34 | the overlay ids are pairwise distinct |
| Viewer.OverlayLookup | components/FullscreenViewer.tsx:192-196 | each overlay's id yields its own gradient; `none` and unknown ids yield `transparent` |
| Viewer.WestworldHtml | components/FullscreenViewer.tsx:227-230 | the fullscreen Westworld markup has exactly the length of the script-stripped markup (the 120→240 swaps keep lengths), never more than the original; when the stripped markup has no `width="120"` or `height="120"` it is the stripped markup itself |
| Viewer.ModifiedHtmlKeepsMarkup | components/FullscreenViewer.tsx:233-256 | CSS-animation markup is the original between an opening and a closing part, each empty iff it is not the cube and no speed wrapper applies |
| Viewer.SpeedWrapperMultiplier | components/FullscreenViewer.tsx:252-255 | an unpaused non-1x ordinary animation is wrapped in a div whose multiplier is the reciprocal of the speed |
| Viewer.AsWrittenClockFrozen | components/FullscreenViewer.tsx:73-92 | from its start value, the injected clock as written hands every frame the time 0 |
| Viewer.AsWrittenClockCounterexample | components/FullscreenViewer.tsx:85-91 | frames at 16 and 32 ms at 1x give 0 and 0 as written, and 16 and 32 with the corrected clock |
| Viewer.AsWrittenClock.constructor | components/FullscreenViewer.tsx:73 | the clock starts at 0, not stopped |
| Viewer.AsWrittenClock.OnFrame | components/FullscreenViewer.tsx:76-92 | a stopped clock drops the frame; a paused clock defers it; otherwise the clock advances by the written rule and delivers the new time |
| Viewer.ScaledStepBounded | components/FullscreenViewer.tsx:85-91 | a step never goes back; it is 16 ms times the speed after a stall over 200 ms, and the gap times the speed otherwise |
| Viewer.ScaledRunFollowsRealTime | components/FullscreenViewer.tsx:88-91 | with no stall, the animation's time is the start time plus the elapsed real time times the speed |
| Viewer.ScaledRunClampsStalls | components/FullscreenViewer.tsx:85-87 | across stalls, each frame advances the animation's time by exactly 16 ms times the speed |
| Viewer.FrameClock.constructor | components/FullscreenViewer.tsx:105-107 | a new clock is at its start state, not stopped, with the panel's pause and speed |
| Viewer.FrameClock.OnFrame | components/FullscreenViewer.tsx:76-92 | same gate as above; a delivered frame advances the clock by the corrected step |
| Viewer.FrameClock.SetControls | components/FullscreenViewer.tsx:162-168 | the pause flag and speed follow the panel; the clock's time is untouched |
| Viewer.FrameClock.Stop | components/FullscreenViewer.tsx:114-116 | the clock is stopped and nothing else changes |
| Editor.EscapeIsCharwise | components/CodeEditorModal.tsx:42-44 | the three passes, `&` first, equal escaping each character to its own entity |
| Editor.UnescapeEscape | components/CodeEditorModal.tsx:42-44 | decoding the entities gives back exactly the code that was escaped |
| Editor.EscapeRemovesBrackets | components/CodeEditorModal.tsx:42-44 | no `<` or `>` survives the escaping stage |
| Editor.OrderMatters | components/CodeEditorModal.tsx:42-43 | escaping `<` before `&` would turn `<` into `&amp;lt;` |
| Editor.LineNumbers | components/CodeEditorModal.tsx:116-117 | the gutter numbers its rows 1, 2, … up to the line count |
| Editor.LineCountIsBreaksPlusOne | components/CodeEditorModal.tsx:116 | the gutter has one row more than the content has line breaks, so at least one |
| Editor.Minimap | components/CodeEditorModal.tsx:133 | the minimap is a prefix of at most 5000 characters, the whole text when it fits |
| Editor.TabIconByExtension | components/CodeEditorModal.tsx:97 | `.html` gets the code icon, `.css` the CSS icon, any other name the JavaScript icon |
| Editor.ViewOf | components/CodeEditorModal.tsx:116-143 | the view's tab, gutter, minimap, character count and file name all come from the active file |
| Editor.StatusCountsWholeFile | components/CodeEditorModal.tsx:133-143 | for a file over 5000 characters, the status bar counts more characters than the minimap shows |
| Editor.CodeEditorModal.constructor | components/CodeEditorModal.tsx:16-17 | the first tab is active and nothing is copied |
| Editor.CodeEditorModal.SetOpen | components/CodeEditorModal.tsx:21-28 | opening resets the active tab to the first; closing keeps it |
| Editor.CodeEditorModal.ClickTab | components/CodeEditorModal.tsx:86-89 | the clicked tab becomes active; nothing else changes |
| Editor.CodeEditorModal.Copy | components/CodeEditorModal.tsx:30-33 | the clipboard receives exactly the active file's content and the button shows the copied state |
| Editor.CodeEditorModal.CopiedTimeout | components/CodeEditorModal.tsx:34 | the copied state ends; nothing else changes |
| Editor.CodeEditorModal.Render | components/CodeEditorModal.tsx:37 | nothing is rendered iff closed; when open, the active file's view is rendered |
| Cube.Tail | components/FeaturedCube.tsx:92 | `slice(-n)` is the last `n` characters, or all of a shorter text |
| Cube.WindowStep | components/FeaturedCube.tsx:92 | appending a character and keeping 140 moves the window of the streamed prefix one character on |
| Cube.RunShowsWindow | components/FeaturedCube.tsx:86-104 | with each state update applied at its call, after `n` ticks a face shows the last 140 characters of its file's first `n`; one tick past the end it is empty and restarts |
| Cube.QueuedRunReadsAhead | components/FeaturedCube.tsx:90-95 | if the updater runs after `charIndex++`, a face shows its file's window shifted by one character: characters 1 to `n` after `n` ticks |
| Cube.QueuedRunEndsUndefined | components/FeaturedCube.tsx:90-95 | if the updater runs after `charIndex++`, the last tick of a pass leaves the face ending in `undefined` |
| Cube.QueuedUpdaterCounterexample | components/FeaturedCube.tsx:90-95 | on the file "ab", applying the update at the call shows "a" then "ab", and queuing it shows "b" then "bundefined" |
| Cube.FacesStreamTheirFiles | components/FeaturedCube.tsx:86 | face `i` streams file `i mod 3` under that file's label |
| Cube.CopyTextIsSections | components/FeaturedCube.tsx:69 | the copied project is each file under its `/* name */` header, joined by blank lines |
| Cube.FeaturedCube.constructor | components/FeaturedCube.tsx:7 | all six faces start empty at position 0 |
| Cube.FeaturedCube.Tick | components/FeaturedCube.tsx:88-104 | only the ticking face changes; with its update applied at the call, it keeps showing the window of the part of its file streamed so far, at most 140 characters |
| Legacy.Slug | components/LegacyFeaturedLoaders.tsx:42 | the id has the title's length; each character is its lower-cased letter or digit, or `-` |
| Legacy.SlugCharacters | components/LegacyFeaturedLoaders.tsx:42 | an id holds only `a-z`, `0-9` and `-`; capitals are lowered, letters and digits kept, anything else dashed |
| Legacy.SlugIdempotent | components/LegacyFeaturedLoaders.tsx:42 | slugging an id again changes nothing |
| Legacy.FeaturedSlugs | components/LegacyFeaturedLoaders.tsx:249-264 | the two featured cards get the ids `solar-system` and `3d-sphere-scan` |
| Legacy.LoaderAnimation | components/LegacyFeaturedLoaders.tsx:41-49 | the record carries the slug id, the title, the description, the Shape Shift category, the markup and the author |
| Legacy.EditorFile | components/LegacyFeaturedLoaders.tsx:128 | the file is named after the lower-cased title plus `.html` and holds the card's code |
| Legacy.EditorFileIsHtml | components/LegacyFeaturedLoaders.tsx:128 | the card's file opens under the HTML icon, and its stem agrees with the id except where the id has `-` |
| Bounties.WithStatus | components/BountiesPage.tsx:160 | exactly the bounties with the status: each kept iff it has it, with every occurrence kept |
| Bounties.FilterBounties | components/BountiesPage.tsx:158-160 | `ALL` shows every bounty; a status shows the bounties with it |
| Bounties.WithStatusKeepsOrder | components/BountiesPage.tsx:160 | filtering keeps the list's order |
| Bounties.ListSection | components/BountiesPage.tsx:226-241 | the placeholder shows iff the filtered list is empty; otherwise the cards are that list |
| Bounties.PageButtonViews | components/BountiesPage.tsx:204-237 | on the shipped list, the buttons read ALL, COMPLETED, OPEN and IN PROGRESS; ALL and COMPLETED list all five bounties, OPEN and IN PROGRESS show the placeholder |
| Bounties.CompletedAtMostTotal | components/BountiesPage.tsx:155-156 | the completed count is the length of the `COMPLETED` filter, at most the total, and 0 iff nothing is completed |
| Bounties.TotalPrizeSplits | components/BountiesPage.tsx:252 | the total is the total of the bounties with a status plus that of the others |
| Bounties.WinnersCharacterised | components/BountiesPage.tsx:262 | the unique winners are exactly the winners of bounties that have one, and are no more than the bounties won |
| Bounties.RoundDiv | components/BountiesPage.tsx:268 | `Math.round(t / c)`: the result lies within half of `c` of `t / c`, rounding half upward |
| Bounties.RoundDivUnique | components/BountiesPage.tsx:268 | that condition fixes the result uniquely |
| Bounties.AveragePrize | components/BountiesPage.tsx:268 | with completions, the rounded quotient; with none, not a number |
| Bounties.AverageUnguarded | components/BountiesPage.tsx:268 | with no completions the figure is `NaN` (no bounties) or `Infinity` (positive total) |
| Bounties.GuardedAveragePrize | components/BountiesPage.tsx:268 | an error iff nothing is completed; otherwise the rounded quotient |
| Bounties.PageCompleted | components/BountiesPage.tsx:6-67 | the shipped list has five bounties, all completed |
| Bounties.PageAverage | components/BountiesPage.tsx:252-268 | the shipped total is 800 and the average 160 |
| Bounties.PageWinners | components/BountiesPage.tsx:262 | the shipped list has four unique winners |
| Bounties.ColoursDistinguishKnownValues | components/BountiesPage.tsx:73-97 | only unknown values get the grey badge; known difficulties have distinct colours; `OPEN` and `IN_PROGRESS` share the beginner and intermediate colours |

## Left out

- The AI generator page and its network service: they call an external API.
- Browser plumbing is left out: `new Function` evaluation, `IntersectionObserver` wiring, timers, the clipboard, `Audio` playback and volumes, and body overflow styles. The model keeps the state these act on and takes their results as parameters.
- Mouse tilt, glare and the slider fill percentages: they are floating-point presentation.
- The highlighter's colouring passes after escaping (components/CodeEditorModal.tsx:45-52) are not modelled. They are presentation regexes over already-escaped text. Only the escaping stage is.
- The regex that swaps `document.currentScript…querySelector('canvas')` for `getElementById` (components/AnimationCard.tsx:54, components/FullscreenViewer.tsx:97) is not modelled. Its lazy `[\s\S]*?` span is not modelled either. The same goes for the `120`→`240` rewrites inside the fullscreen canvas script (components/FullscreenViewer.tsx:98-100).
- Catalogue.CategoryStyle: the configuration is a map, so a name that a JavaScript object inherits from `Object.prototype` (such as `constructor`) gets the fallback in the model but the inherited member on the page. The grouping only ever passes the six category names.
- The bounty buttons' highlight is the plain comparison of the selected filter with the button's own, so it is not modelled as a member of its own.
- Text.ToLower: lower-cases ASCII only. JavaScript's Unicode case mapping is not modelled.
- Strings are sequences of characters, not of UTF-16 code units. For text outside the Basic Multilingual Plane (emoji, for instance), JavaScript's `.length`, `slice` and indexing count two units per character where the model counts one. This affects Editor.ViewOf and Editor.StatusCountsWholeFile (the status bar's count), Editor.Minimap (the 5000 cut), Cube.Tail and Cube.FeaturedCube.Tick (the 140 window) and Legacy.Slug (a surrogate pair becomes two `-`, so the length clause differs). The shipped texts are ASCII.
- Viewer.FrameClock.OnFrame: the `|| 1` fallback for a missing speed is not modelled, because the speed is always one of the five options.
- Viewer.AsWrittenClock.OnFrame: the deferred re-request in the paused case is reported as `Deferred` and not replayed.
- Cube: the three project files' text is a constructor parameter. The literal bodies in components/FeaturedCube.tsx:19-57 are not copied into the model.
- Cube.FeaturedCube.Tick: applies the face's state update at the `setFaceTexts` call, before `charIndex++`, as a synchronously rendered component does. Whether React queues the updater depends on how the app's root is created, and that setup is not part of this model. A queued updater reads `content[charIndex]` after the increment. It appends the next character instead, and `undefined` at the end of a pass. Cube.QueuedRun models that reading, and the three `Cube.Queued…` lemmas state what it shows.
- Cube.FeaturedCube.Tick: the interval ids kept for cleanup are not modelled. One `Tick` call stands for one interval firing of one face.
- Sound.SoundManager.Preload: requires every pool to be empty, as it is at mount. A second mount without cleanup would append to non-empty pools; `FillPool` states that append for any pool.
- Card.Throttle: the delay is a natural number. The helper is declared in components/AnimationCard.tsx but no handler in the file calls it.
- Card.CanvasRegistry.OnIntersect: requires the canvas to have been prepared, which the observer guarantees because it is created after the slots. When the animation restarts, the new frame id is not recorded, as in the source.
- Card.CanvasRegistry: the three `window` slots are keyed by canvas id and not by their full `__anim_…` names. Card.GuardedCall builds the names used in the script.
- Card.ScriptBody: when a block is present, its contract says only that a capture is non-empty and free of the closing tag. That the capture is the body of the first block is stated by Card.ScriptBodyOfBlock.
- Catalogue.Buckets: the branch for a category outside the fixed order (App.tsx:78-80) is unreachable, because the category type is closed.
- JSX layout, icons and class strings outside the functions listed above are not modelled.

## Findings

| source | as written | input that shows it | evidently intended | confidence | as-written member | corrected member |
|---|---|---|---|---|---|---|
| components/FullscreenViewer.tsx:73-92 | `lastTime` starts at 0 and holds both the last real frame time and the scaled time. On the first frame `lastTime \|\| ts` is `ts`, so the delivered time is 0 and `lastTime` stays 0. Every later frame repeats this. | frames at 16 ms and 32 ms at speed 1 deliver 0 and 0 | deliver 16 and 32: the real frame time kept apart from the scaled time, which advances by the elapsed time times the speed, or by 16 ms times the speed after a stall over 200 ms | medium; not executed | Viewer.AsWrittenClockCounterexample | Viewer.ScaledRunFollowsRealTime |
| components/BountiesPage.tsx:268 | the average prize divides by the completed count without a guard | a list with no completed bounty shows `NaN` (empty list) or `Infinity` (a positive total) | report no average when nothing is completed | low, unreachable with the shipped list of five completed bounties; not executed | Bounties.AverageUnguarded | Bounties.GuardedAveragePrize |
