# Some Jazz Playing — landing page logic, modelled in Dafny

The landing page of "Some Jazz Playing" shows a full-screen collage of three
rotating photo frames over a validated image list, and plays a radio stream in
the background with a small "Sound on / Pause / Play" button. This project
models the decision logic of that page (`src/app/page.js`) and proves its
properties:

- **Image validation** (`images.dfy`, module `Images`): `safeImg` rejects an
  entry with no object, a non-string `src` or a blank `src`, keeps `src`
  untrimmed and supplies the default `alt` "Some Jazz Playing"; the pipeline
  `IMAGES.map(safeImg).filter(Boolean)` keeps exactly the accepted entries in
  their original order. The JavaScript semantics it relies on (truthiness,
  `||`, `String.prototype.trim` with the ECMAScript whitespace set) are in
  `js_values.dfy` (module `JsValues`).
- **Rotation** (`collage.dfy`, module `Collage`): the frame index
  `(tick + offset) % Math.max(images.length, 1)`, `AutoPhoto`'s second wrap
  `images[index % images.length]`, the `tick` counter as class `Rotator`
  (the interval exists only with two images or more), and `AutoPhoto`'s
  two-phase fade-out/swap as class `Photo`.
- **Audio** (`audio.dfy`, module `Audio`): the hook's state (`playing`,
  `needsTap`, `volume`, the pending autoplay timer, and the `<audio>`
  element's `paused`, `muted` and `volume`) as datatype `Session`, each event
  (autoplay timer, toggle click, volume change) as the function `Step`, and the
  same state held in place by class `AudioController`, whose methods are
  proved to perform `Step`. `play()` is an input: `allowed` says whether the
  browser's autoplay policy lets it resolve. An element that is already
  playing resolves `play()` (function `Play`, after the HTML media element's
  behaviour). The button label is `ButtonText`/`ButtonTitle`.

Timer firings and clicks are discrete method calls or `Event` values; nothing
about wall-clock time is modelled.

## Model

| member | source | states |
|---|---|---|
| `JsValues.Or` | src/app/page.js:35 | `v || d` yields one of its operands, is truthy exactly when one of them is, and is `v` when `v` is truthy and `d` otherwise |
| `JsValues.TrimStart` | src/app/page.js:34 | the result is the suffix of the input left after a blank prefix and does not start with whitespace |
| `JsValues.TrimEnd` | src/app/page.js:34 | the result is the prefix of the input before a blank suffix and does not end with whitespace |
| `JsValues.Trim` | src/app/page.js:34 | `s.trim()` is empty exactly when `s` consists of whitespace only; a non-empty result starts and ends with non-whitespace; the result is the slice of `s` between a blank prefix and a blank suffix |
| `Images.Rejected` | src/app/page.js:34 | an entry is rejected exactly when it is missing, its `src` is not a string, or `src.trim()` is empty, stated over the whitespace-only definition |
| `Images.SafeImg` | src/app/page.js:33-36 | returns null exactly for a missing item, a non-string `src` or a blank `src`; otherwise keeps `src` unchanged, takes `alt` when truthy and "Some Jazz Playing" otherwise, so `alt` is always truthy |
| `Images.Checked` | src/app/page.js:176 | `IMAGES.map(safeImg)`: same length, entry i is `safeImg` of item i |
| `Images.Compact` | src/app/page.js:176 | `filter(Boolean)` is no longer than its input and every kept value was present in it |
| `Images.PresentFromInRange` | src/app/page.js:176 | every recorded position is in range and holds a present value |
| `Images.PresentFromIncreasing` | src/app/page.js:176 | the recorded positions strictly increase, so `filter` keeps the original order |
| `Images.PresentFromComplete` | src/app/page.js:176 | every position holding a present value is recorded, so `filter` drops nothing valid |
| `Images.CompactSelects` | src/app/page.js:176 | the k-th kept value is the value at the k-th present position |
| `Images.ValidImages` | src/app/page.js:176 | the rendered list is no longer than `IMAGES` |
| `Images.ValidImagesSelectsInOrder` | src/app/page.js:176 | the rendered list holds exactly the accepted entries, each as `safeImg` built it, in their original relative order |
| `Images.ValidImagesWellFormed` | src/app/page.js:33-36 | every rendered image has a non-blank `src` and a truthy `alt` |
| `Images.CompactAllPresent` | src/app/page.js:176 | a list with no null entry is kept whole and in order |
| `Images.ConfiguredImagesAllRendered` | src/app/page.js:15-26 | all ten configured images pass `safeImg`, so the page renders all ten, in order, with `alt` "Jazz" |
| `Collage.Idx` | src/app/page.js:153 | `idx(offset)` lies in `[0, length)` for a non-empty list and is 0 when the list has fewer than two images |
| `Collage.IdxPeriodic` | src/app/page.js:153 | advancing `tick` by the list length returns every frame to the same index |
| `Collage.IdxAdvance` | src/app/page.js:149-153 | one tick moves every frame to the next index, wrapping from the last to the first |
| `Collage.ShiftedIndex` | src/app/page.js:153 | the frame at offset k shows the index k places after frame 0's, modulo the length |
| `Collage.FramesDistinct` | src/app/page.js:157-167 | the frames at offsets 0, 2 and 4 show three different images exactly when the list has 3 or at least 5 images |
| `Collage.PhotoSlot` | src/app/page.js:112 | `images[index % images.length]` is undefined exactly for an empty list, is always an element of the list, and is `images[index]` for an index already in range |
| `Collage.FrameImage` | src/app/page.js:153-166 | on a non-empty list a frame shows `images[idx(offset)]`: the second wrap changes nothing |
| `Collage.PhotoAlt` | src/app/page.js:132 | `safe?.alt || altFallback` is the image's own `alt` when that is truthy and exactly the fallback otherwise (empty slot or falsy `alt`); it is truthy whenever the fallback is non-empty |
| `Collage.SlotSource` | src/app/page.js:117 | `safe?.src` is undefined exactly for an empty slot and is the image's `src` otherwise |
| `Collage.Showable` | src/app/page.js:118 | `if (!next) return` lets through exactly a defined, truthy (non-empty) string |
| `Collage.FrameSourceShowable` | src/app/page.js:116-118 | on a validated, non-empty list every frame's source is showable, so the effect never takes its early return |
| `Collage.FrameAltIsOwn` | src/app/page.js:132 | on a validated list a frame's `alt` is always the image's own, never the fallback |
| `Collage.Rotator.constructor` | src/app/page.js:145-151 | `tick` starts at 0 and the interval is started exactly when there are at least two images |
| `Collage.Rotator.IntervalElapsed` | src/app/page.js:149 | `tick` grows by one when the interval exists and stays put otherwise; with fewer than two images `tick` stays 0 |
| `Collage.Rotator.FrameIndex` | src/app/page.js:153 | the current frame index is in range, and is 0 for every frame with fewer than two images |
| `Collage.Photo.constructor` | src/app/page.js:113-125 | `shown` starts at the slot's source; a showable source is faded out and a swap to it is scheduled, otherwise `fadeIn` stays true |
| `Collage.Photo.Render` | src/app/page.js:116-125 | when `safe?.src` changes the pending swap is cancelled and a showable source is faded out and scheduled; `shown` does not change; an unchanged source changes nothing |
| `Collage.Photo.SwapTimerFires` | src/app/page.js:120-123 | the pending source goes on screen and fades in; a pending swap always means faded out |
| `Audio.Play` | src/app/page.js:60 | the assumed `play()` semantics: it resolves exactly when the element ends up playing, i.e. when it was already playing or the autoplay policy allows it; `muted` and `volume` are untouched |
| `Audio.Step` | src/app/page.js:44-92 | one event (`tryPlay`, `toggle`, the volume effect): the element's presence never changes, only a volume change touches the volume, and only the timer clears the pending autoplay attempt |
| `Audio.ButtonText` | src/app/page.js:206-222 | the text is "Sound on" exactly when a tap is needed, "Pause" exactly when playing without a prompt, "Play" otherwise |
| `Audio.ButtonTitle` | src/app/page.js:206-222 | the title is "Enable audio" exactly when a tap is needed, and the button text otherwise |
| `Audio.Mounted` | src/app/page.js:39-56 | after mount nothing plays, no prompt is shown, volume is 0.75, and the autoplay attempt is pending exactly when an element exists |
| `Audio.StepConsistent` | src/app/page.js:38-92 | every event keeps the hook consistent: `playing` mirrors the element, no prompt while playing, never muted, volume applied |
| `Audio.RunConsistent` | src/app/page.js:38-92 | every sequence of events keeps the hook consistent |
| `Audio.LabelTracksElement` | src/app/page.js:206-222 | the button says "Pause" exactly while the element plays, "Sound on" (title "Enable audio") exactly while a tap is needed, "Play" otherwise |
| `Audio.ReachableLabelTracksElement` | src/app/page.js:206-222 | in every state reachable from mount the label tells the truth and the element is unmuted |
| `Audio.AutoplayAttempt` | src/app/page.js:55-67 | the full new state: `play()` resolves when allowed or when a click already started the element; success sets `playing` and clears `needsTap`, failure clears `playing` and sets `needsTap`; the attempt is not repeated and nothing else changes |
| `Audio.TogglePaused` | src/app/page.js:80-91 | a toggle on a paused element plays it; success starts the element, sets `playing` and clears `needsTap`, failure sets only `needsTap`; volume and the pending autoplay attempt are untouched either way |
| `Audio.TogglePlaying` | src/app/page.js:85-88 | a toggle on a playing element pauses it and clears `playing`, leaving `needsTap` and the rest alone |
| `Audio.ToggleWithoutElement` | src/app/page.js:77-78 | with no audio element a toggle changes nothing |
| `Audio.ToggleWhenBlocked` | src/app/page.js:76-92 | from the "Sound on" state a toggle makes a fresh play request: if allowed the element starts, `playing` is set and the prompt cleared with nothing else changed; otherwise the state is unchanged |
| `Audio.ToggleTwiceFromPlaying` | src/app/page.js:76-92 | pausing and then playing again, when allowed, returns to the same state |
| `Audio.VolumeOnlyChangesVolume` | src/app/page.js:44-48 | a volume change stores the value, applies it to the element, and leaves play state and prompt alone |
| `Audio.AudioElement.PlayRequest` | src/app/page.js:60 | the element's `play()` changes it and answers exactly as `Play` says |
| `Audio.AudioElement.Pause` | src/app/page.js:86 | `pause()` sets `paused` and changes nothing else |
| `Audio.AudioController.constructor` | src/app/page.js:38-74 | the in-place state starts at `Mounted`; the element is fresh, unmuted and at volume 0.75 |
| `Audio.AudioController.AutoplayTimerFires` | src/app/page.js:58-71 | the timer's `tryPlay` performs the autoplay step and keeps the hook consistent |
| `Audio.AudioController.Toggle` | src/app/page.js:76-92 | `toggle` performs the toggle step on the element and the state and keeps the hook consistent |
| `Audio.AudioController.SetVolume` | src/app/page.js:224-231 | moving the range input performs the volume step and keeps the hook consistent |

The constant `Images.Configured` is `IMAGES` (src/app/page.js:15-26): ten entries with `src` `/zine/<file>` and `alt` "Jazz"; what the page does with it is stated by `Images.ConfiguredImagesAllRendered`.

`Collage.RotationScenario` walks three images `/a.jpg`, `/b.jpg`, `/c.jpg`
through three intervals and swaps and shows that frame 0 displays `/a.jpg`,
`/b.jpg`, `/c.jpg` and `/a.jpg` again.

## Left out

- Rendering: `MagazineFrame`, the JSX layout, the title, the "Enter" link, the vignette and gradients, and the opacity transition itself (only the `fadeIn` flag is modelled).
- Wall-clock timing of `setInterval(3600)`, `setTimeout(150)` and `setTimeout(160)`: timer firings are discrete events. Cleanup on unmount is not modelled; the cleanup that matters while mounted (the swap timer cancelled when `safe?.src` changes) is.
- The `<audio>` element's streaming, `preload`, `loop` and the stream URL: `play()` is an `allowed` input, and nothing but the page's own `toggle` pauses the element. A pause from the browser's or the operating system's media controls (a media key, a Media Session pause) is not modelled: after one, the source leaves `playing` true, the button still says "Pause", and a click plays again. `Audio.Consistent` and `Audio.ReachableLabelTracksElement` rely on excluding this case and the next one.
- A `play()` rejected for a reason other than the autoplay policy is not modelled: a stream that fails to load (`NotSupportedError`) or a play interrupted by a pause or reload (`AbortError`). An allowed `play()` unpauses the element at once, so such a rejection can leave the element unpaused while the catch sets `needsTap` and `playing` is false; the button then says "Sound on" and the next click takes the pause branch. `Audio.Play` assumes a rejected `play()` leaves the element paused, and `Audio.Consistent` and `Audio.ReachableLabelTracksElement` rely on that.
- The `play()` promise is awaited: the model treats each attempt as finishing before the next event, so interleavings of a pending `play()` with other clicks or timers are not modelled.
- Floating point: volume is a `real` stored and passed through unchanged; JavaScript's 2^53 limit on `tick` is not modelled (integers are unbounded).
- Audio.AudioController.SetVolume: requires a volume in [0, 1], which the range input (min 0, max 1) guarantees; the element's exception for values outside that range is not modelled.
- `Page`'s choice between the collage and the plain black background (`hasImages`) is covered only by `Images.ConfiguredImagesAllRendered`, which shows the list is never empty.
- Behaviour worth knowing, not claimed as a defect: in `AutoPhoto`, a change to a falsy `safe?.src` after a showable one cancels the pending swap but leaves `fadeIn` false (see `Collage.Photo.Render`). With validated images a frame's source is never falsy (`Collage.FrameSourceShowable`).
