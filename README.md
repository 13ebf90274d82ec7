# sora-ai front end: the sequential logic under the presentation

This project models, in Dafny, the small pieces of state and arithmetic that sit
under the sora-ai landing page and demo page, and proves what they promise.

- **Interactive ASCII background** (`components/InteractiveASCII/index.tsx`).
  `initAsciiChars` tiles the ASCII art over a grid of `ceil(width / 8)` columns and
  `ceil(height / 10)` rows. Rows wrap around the art's lines and columns wrap around
  each line. Every non-space cell gets a glyph at pixel `(8j, 10 + 10i)`, white at
  opacity 0.3. The component keeps the glyph list, the recorded canvas size, the
  frame interval and the time of the last processed frame. It rebuilds the glyphs
  only when the window size changes. It processes a frame only when a full frame
  interval has passed. In each processed frame it recolours every glyph: a glyph in
  the cursor square takes a chosen colour, and every other glyph goes back to its
  base colour. These are modelled as the class `AsciiCanvas.InteractiveAscii`,
  whose `chars` field is an array that `Animate` updates in place.
- **Chat feed** (`app/demo/components/ChatSection.tsx`). Adding a bot message
  appends it and keeps the last 20 messages. The feed is therefore always a sliding
  window over everything shown so far. The delays of the initial and follow-up
  messages are modelled as well.
- **Quiz widget** (`app/demo/components/QuizSection.tsx`). Every three seconds the
  answer percentages are nudged by -5..4 and clamped to [0, 100]. The reaction
  counters, leaderboard scores and streaks only grow. The current user's
  balance, rank, percentile and name stay as they were. Selecting an answer and
  toggling the leaderboard are record updates.
- **Live commentary** (`app/demo/components/LivePlayCommentary.tsx`). The items
  whose start time has passed are visible, latest first. The starts of the script
  strictly increase, so the visible set is always a prefix of the script. Because
  of that, the effect may compare only counts before it replaces the state.
- **Landing page** (`app/page.tsx`). The KSA clock shows the time at UTC+3 as
  zero-padded `HH:MM` and `SS`, and its colon blinks on every tick. The
  `isMuted`/`hasInteracted` flags form a small state machine, and the audio
  element's `muted` property mirrors `isMuted`. The system prompt rotates through
  twelve fixed prompts, and each rotation bumps an animation key.

Every `Math.random()` value is a parameter `u` with `0 <= u < 1`.
`Math.floor(u * n)` is `RandomDraw.FloorIndex(u, n)`, an index in `[0, n)`.
Contracts therefore hold for every possible draw. Times, opacities and the
cursor-square test are exact `real`s. Pixel positions and millisecond clocks are
`int`s. Dafny's `/` and `%` agree with JavaScript's `Date` field arithmetic
(floor division), and the operands of the grid's `%` are never negative.

`initAsciiChars` keeps the source's `%` in the method
`AsciiGrid.InitAsciiChars`. The specification functions (`Grid`, `RowGlyphs`,
`LineAt`, `SymbolAt`) use `Wrap`, a remainder by repeated subtraction, and
`AsciiGrid.WrapIsMod` proves that the two agree.

If an art line is empty, the source computes `j % 0`, which is `NaN`, and pushes
an `undefined` glyph. The model keeps that case as the symbol `Undefined`
(`AsciiGrid.EmptyLineGivesUndefined`). The art text itself
(`components/InteractiveASCII/constants`) is not part of this model, so every
result holds for any art string. That includes one ending in a newline, whose
last line is empty.

## Model

| member | source | states |
|---|---|---|
| RandomDraw.FloorIndex | app/demo/components/ChatSection.tsx:63-64 | `Math.floor(Math.random() * n)` is an index in [0, n), the floor of `u * n` |
| RandomDraw.FloorIndexOnto | app/page.tsx:340 | every index in [0, n) is produced by some draw |
| AsciiText.SplitLines | components/InteractiveASCII/index.tsx:65 | `split('\n')` always yields at least one line |
| AsciiText.SplitLinesHaveNoNewline | components/InteractiveASCII/index.tsx:65 | no line produced by the split contains a newline |
| AsciiText.JoinSplit | components/InteractiveASCII/index.tsx:65 | joining the split lines with newlines gives the art back |
| AsciiText.SplitJoin | components/InteractiveASCII/index.tsx:65 | splitting newline-free lines after joining them gives the lines back |
| AsciiGrid.CeilDivCovers | components/InteractiveASCII/index.tsx:60-61 | `Math.ceil(a / b)` is the least number of `b`-wide cells that cover `a` |
| AsciiGrid.GridCoversCanvas | components/InteractiveASCII/index.tsx:57-61 | the columns (8 px) and rows (10 px) cover the canvas, and one fewer would not |
| AsciiGrid.CeilDiv | components/InteractiveASCII/index.tsx:60-61 | `Math.ceil(a / b)` on non-negative integers; its meaning is stated by `CeilDivCovers` |
| AsciiGrid.LineFromArt | components/InteractiveASCII/index.tsx:69 | every grid row draws one of the art's lines, and row `i` draws line `i` while `i` is below the line count |
| AsciiGrid.SymbolAt | components/InteractiveASCII/index.tsx:71-72 | the symbol is `undefined` exactly when the line is empty |
| AsciiGrid.SymbolFromLine | components/InteractiveASCII/index.tsx:71-72 | a cell's letter is a character of its line, and column `j` shows character `j` while `j` is below the line's length |
| AsciiGrid.GlyphAt | components/InteractiveASCII/index.tsx:74-82 | a cell's glyph is `rgba(255, 255, 255, 0.3)` with base opacity 0.3 |
| AsciiGrid.RowGlyphs | components/InteractiveASCII/index.tsx:70-84 | one row yields at most one glyph per column |
| AsciiGrid.Grid | components/InteractiveASCII/index.tsx:68-85 | the glyph list of the first `rows` rows; what it holds is stated by `GridMember`, `GridSize` and `GridOrdered` |
| AsciiGrid.WrapIsMod | components/InteractiveASCII/index.tsx:69-71 | the wrapped row and column indices are `i % lines.length` and `j % line.length` |
| AsciiGrid.InitAsciiChars | components/InteractiveASCII/index.tsx:55-89 | the nested loops build exactly the grid: row-major, one glyph per non-space cell |
| AsciiGrid.GridSize | components/InteractiveASCII/index.tsx:68-85 | a grid of `rows` x `cols` cells has at most `rows * cols` glyphs |
| AsciiGrid.CanvasGlyphCount | components/InteractiveASCII/index.tsx:57-86 | a canvas gets at most `ceil(h / 10) * ceil(w / 8)` glyphs |
| AsciiGrid.GridMember | components/InteractiveASCII/index.tsx:68-83 | a glyph is built if and only if it is the glyph of some non-space cell (i, j) inside the grid |
| AsciiGrid.CellInGrid | components/InteractiveASCII/index.tsx:68-83 | a cell inside the grid contributes its glyph exactly when its symbol is not a space |
| AsciiGrid.GridHasNoSpace | components/InteractiveASCII/index.tsx:73 | no built glyph is a space |
| AsciiGrid.GridInBaseColour | components/InteractiveASCII/index.tsx:76-82 | every built glyph is `rgba(255, 255, 255, 0.3)` with base opacity 0.3 |
| AsciiGrid.EmptyLineGivesUndefined | components/InteractiveASCII/index.tsx:71-73 | a row drawn from an empty art line yields `undefined` glyphs |
| AsciiGrid.Tiling | components/InteractiveASCII/index.tsx:69-72 | shifting a cell by the line count, or by its line's length, gives the same symbol |
| AsciiGrid.RowOrdered | components/InteractiveASCII/index.tsx:70-84 | within a row, glyphs share `y = 10 + 10i` and `x` strictly increases |
| AsciiGrid.GridOrdered | components/InteractiveASCII/index.tsx:68-85 | glyphs come out row-major: `y` never decreases, and `x` increases along one `y` |
| AsciiCanvas.Recoloured | components/InteractiveASCII/index.tsx:226-251 | a frame keeps position, symbol and base opacity, and outside the square resets to the base colour |
| AsciiCanvas.InSquare | components/InteractiveASCII/index.tsx:226 | a glyph is in the square iff the pointer is active and the glyph lies within `halfWidth` horizontally and `halfHeight` vertically of the pointer |
| AsciiCanvas.InteractiveAscii.constructor | components/InteractiveASCII/index.tsx:38-44 | no glyphs, size 0 x 0, last frame at 0, frame interval `1000 / fps` |
| AsciiCanvas.InteractiveAscii.SetFps | components/InteractiveASCII/index.tsx:269-271 | the frame interval becomes `1000 / fps` |
| AsciiCanvas.InteractiveAscii.UpdateCanvasSize | components/InteractiveASCII/index.tsx:92-106 | with a canvas and a changed size, records the size and rebuilds the glyphs; otherwise nothing changes |
| AsciiCanvas.InteractiveAscii.Animate | components/InteractiveASCII/index.tsx:192-259 | a frame is processed iff `timestamp - last >= interval`, and only then is `last` set; every glyph is recoloured by the square rule; positions and symbols never change |
| ChatSection.Slice | app/demo/components/ChatSection.tsx:78 | `slice(start)` returns the suffix of the length JavaScript gives, for negative and non-negative starts |
| ChatSection.Append | app/demo/components/ChatSection.tsx:67-79 | the length is `min(n + 1, 20)`, the new message is last, the result is a suffix of `prev + [m]`, nothing is dropped below 20, and only the oldest is dropped at 20 |
| ChatSection.Window | app/demo/components/ChatSection.tsx:78 | `slice(-20)` keeps at most 20 messages, keeps a short history whole, and keeps the last ones in order |
| ChatSection.AppendAll | app/demo/components/ChatSection.tsx:67-79 | repeated additions from a feed of at most 20 stay within 20, and the last message added is last |
| ChatSection.AddBotMessage | app/demo/components/ChatSection.tsx:62-80 | the added message has text from `BOT_MESSAGES`, a user from `BOT_USERS`, `'Just now'` and the clock as id, after the kept old messages |
| ChatSection.AppendToWindow | app/demo/components/ChatSection.tsx:78 | appending to the last 20 of a history gives the last 20 of the longer history |
| ChatSection.SlidingWindow | app/demo/components/ChatSection.tsx:67-79 | after any sequence of additions, the feed is the last `min(n, 20)` of everything shown, in order |
| ChatSection.FeedBounded | app/demo/components/ChatSection.tsx:40-79 | the feed never holds more than 20 messages |
| ChatSection.InitialDelays | app/demo/components/ChatSection.tsx:83-85 | the three initial messages are scheduled at 2000, 4000 and 6000 ms |
| ChatSection.FollowUpDelay | app/demo/components/ChatSection.tsx:89 | a follow-up delay lies in [3000, 7999] ms |
| QuizSection.Clamp | app/demo/components/QuizSection.tsx:84 | the result lies in [0, 100]: it equals the input when that is in range, 100 above and 0 below |
| QuizSection.Jiggle | app/demo/components/QuizSection.tsx:81-85 | a percentage stays in [0, 100] and moves by -5..4 |
| QuizSection.StreakBump | app/demo/components/QuizSection.tsx:94 | the streak grows by 1 exactly when the draw exceeds 0.8, and by 0 otherwise |
| QuizSection.Tick | app/demo/components/QuizSection.tsx:79-103 | answers keep their count and stay in [0, 100]; likes grow by 0..4, comments and shares by 0..1; rows keep names, scores grow by 0..2, streaks by 0..1; balance, rank, percentile, name and points won are unchanged |
| QuizSection.Run | app/demo/components/QuizSection.tsx:77-104 | repeated updates keep the number of answers and leaderboard rows |
| QuizSection.RunKeepsInvariants | app/demo/components/QuizSection.tsx:77-104 | after any number of updates the four percentages are valid and no counter is below where it started |
| QuizSection.SelectAnswer | app/demo/components/QuizSection.tsx:109-111 | selects the answer and shows stats and points, leaving question and leaderboard flag as they were |
| QuizSection.ToggleLeaderboard | app/demo/components/QuizSection.tsx:113-115 | flips only `showLeaderboard` |
| QuizSection.ToggleTwice | app/demo/components/QuizSection.tsx:113-115 | toggling twice restores the state |
| QuizSection.SelectIndependent | app/demo/components/QuizSection.tsx:109-115 | selecting is idempotent and commutes with toggling the leaderboard |
| QuizSection.OptionStats | app/demo/components/QuizSection.tsx:167-182 | one entry per option, a percentage in [0, 100] exactly when stats are shown |
| QuizSection.StatsAlwaysRenderable | app/demo/components/QuizSection.tsx:167-178 | after any updates from the mock stats, every option's `answers[index]` is in range |
| LivePlayCommentary.ScriptScheduled | app/demo/components/LivePlayCommentary.tsx:32-73 | every item ends after it starts and before the next one starts |
| LivePlayCommentary.ScheduledStartsIncrease | app/demo/components/LivePlayCommentary.tsx:32-73 | in such a script the starts strictly increase |
| LivePlayCommentary.Started | app/demo/components/LivePlayCommentary.tsx:103 | the kept indices of the first `n` items are in range and their items have started |
| LivePlayCommentary.VisibleAt | app/demo/components/LivePlayCommentary.tsx:103 | the visible indices are in range and their items have started |
| LivePlayCommentary.StartedMember | app/demo/components/LivePlayCommentary.tsx:103 | an index is kept iff it is in range and its item has started |
| LivePlayCommentary.StartedAscending | app/demo/components/LivePlayCommentary.tsx:103 | the kept indices strictly ascend |
| LivePlayCommentary.VisibleExactly | app/demo/components/LivePlayCommentary.tsx:103 | the visible indices are exactly those with `start <= currentTime`, ascending |
| LivePlayCommentary.StartedIsPrefix | app/demo/components/LivePlayCommentary.tsx:103 | with increasing starts, the kept indices are `0 .. c - 1` and every later item starts after `t` |
| LivePlayCommentary.VisibleIsPrefix | app/demo/components/LivePlayCommentary.tsx:103 | the visible set of the script is always a prefix |
| LivePlayCommentary.VisibleMonotone | app/demo/components/LivePlayCommentary.tsx:103 | what is visible at `t1` is visible at any `t2 >= t1` |
| LivePlayCommentary.SameCountSameSet | app/demo/components/LivePlayCommentary.tsx:105-108 | a stored prefix of the same count as the new visible set equals it, so comparing counts loses nothing |
| LivePlayCommentary.FilterIn | app/demo/components/LivePlayCommentary.tsx:143 | the filter keeps at most `n` items, each one of the first `n` |
| LivePlayCommentary.Reverse | app/demo/components/LivePlayCommentary.tsx:144 | `reverse()` keeps the length and the same items |
| LivePlayCommentary.Rendered | app/demo/components/LivePlayCommentary.tsx:142-145 | the display shows at most all the items, each one of the script |
| LivePlayCommentary.ReverseAt | app/demo/components/LivePlayCommentary.tsx:144 | `reverse()` puts element `n - 1 - k` at position `k` |
| LivePlayCommentary.FilterPrefix | app/demo/components/LivePlayCommentary.tsx:143 | filtering by a visible prefix of `c` indices keeps the first `c` items |
| LivePlayCommentary.RenderedLatestFirst | app/demo/components/LivePlayCommentary.tsx:142-145 | the display shows `c` items, the latest first |
| LivePlayCommentary.Render | app/demo/components/LivePlayCommentary.tsx:111-113 | nothing is rendered exactly when the video is paused |
| LivePlayCommentary.CommentaryPanel.constructor | app/demo/components/LivePlayCommentary.tsx:94 | the visible set starts empty |
| LivePlayCommentary.CommentaryPanel.Effect | app/demo/components/LivePlayCommentary.tsx:96-109 | paused: cleared; playing: ends up exactly the visible set, replaced iff the count differs; the slot always holds a prefix |
| LandingPage.DecimalString | app/page.tsx:265-267 | `toString()` of a non-negative integer is a non-empty string of digits |
| LandingPage.DecimalStringValue | app/page.tsx:265-267 | the digits of `toString()` read back as the number |
| LandingPage.DecimalStringLength | app/page.tsx:265-267 | `toString()` has one digit exactly below 10, and at most two below 100 |
| LandingPage.HoursOf | app/page.tsx:265 | `getHours()` is in [0, 24) |
| LandingPage.MinutesOf | app/page.tsx:266 | `getMinutes()` is in [0, 60) |
| LandingPage.SecondsOf | app/page.tsx:267 | `getSeconds()` is in [0, 60) |
| LandingPage.PadStart | app/page.tsx:265-267 | `padStart` reaches the target length, keeps the string as a suffix and fills the rest |
| LandingPage.TwoDigits | app/page.tsx:265-267 | `toString().padStart(2, '0')` is at least two digits |
| LandingPage.TwoDigitsRoundTrip | app/page.tsx:265-267 | a field below 100 prints as exactly two digits that read back as the field |
| LandingPage.ReadingFormat | app/page.tsx:265-270 | any local time shows as `HH:MM` and `SS`, two digits per field that read back as its hour, minute and second |
| LandingPage.KsaReading | app/page.tsx:262-270 | one `updateTime()`: the reading of `now + 3h + offset` in local time; its shape is stated by `KsaFormat` |
| LandingPage.KsaFormat | app/page.tsx:262-270 | for any local offsets, even across a daylight-saving change, the clock shows `HH:MM` and `SS` whose fields read back as the local time of the shifted instant |
| LandingPage.KsaIsUtcPlusThree | app/page.tsx:262-270 | with the same local offset at both instants, the clock shows `HH:MM` and `SS` equal to the UTC fields of `now + 3h` |
| LandingPage.KsaClock.constructor | app/page.tsx:255-257 | empty time and seconds, not blinking |
| LandingPage.KsaClock.UpdateTime | app/page.tsx:261-272 | the reading is the KSA reading of `now` and the blink flag flips |
| LandingPage.OnToggleMute | app/page.tsx:54-70 | marks the page interacted with and flips the mute flag |
| LandingPage.OnInteraction | app/page.tsx:73-86 | marks the page interacted with and does nothing once it already was |
| LandingPage.BubbleIsHarmless | app/page.tsx:89-94 | the page click bubbling from the mute button adds nothing to the toggle |
| LandingPage.OnClick | app/page.tsx:89-94 | any click marks the page interacted with; a mute-button click flips the mute flag and a page click keeps it |
| LandingPage.ReplayFlags | app/page.tsx:54-86 | after any clicks, `hasInteracted` is set iff it was or some click happened, and mute parity follows the mute clicks |
| LandingPage.AudioControls.constructor | app/page.tsx:11-12 | muted, not interacted with, and the element muted |
| LandingPage.AudioControls.ToggleMute | app/page.tsx:47-70 | the flags follow `OnToggleMute`, the element's `muted` mirrors `isMuted`, and playback is attempted iff it unmutes |
| LandingPage.AudioControls.HandleInteraction | app/page.tsx:73-86 | the flags follow `OnInteraction`, and playback is attempted only on the first interaction when unmuted |
| LandingPage.PickPrompt | app/page.tsx:340 | the picked prompt is one of the twelve system prompts |
| LandingPage.PromptRotator.constructor | app/page.tsx:317-318 | no prompt and key 0 |
| LandingPage.PromptRotator.Mount | app/page.tsx:338-340 | an initial prompt from the list, with the key unchanged |
| LandingPage.PromptRotator.Rotate | app/page.tsx:343-346 | the key grows by exactly 1 and the prompt is one of the list |

## Left out

- Canvas drawing (`fillRect`, `fillText`, the font), `requestAnimationFrame` and its cancellation, the window and mouse/touch listeners, and lodash `throttle`: these are browser I/O and a foreign library. The pointer position and whether it is in the canvas are parameters of `Animate`.
- AsciiCanvas.InteractiveAscii.Animate: the colour a glyph inside the cursor square receives is the parameter `pick(k)`. It stands for both in-square branches: the random palette colour and the distance-faded white. Their probabilities and the floating-point distance and opacity arithmetic are not modelled. The in-square test itself is modelled.
- The animation effect's early return (index.tsx:183-186) is not modelled. The effect checks for glyphs and a 2D context once, when it is set up. If the glyph list is empty at that moment, the source never requests an animation frame, so no frame is processed and the last-frame time stays where it was until the effect runs again, even after a later resize fills the list. `Animate` instead processes frames whenever it is called.
- AsciiCanvas.InteractiveAscii.constructor and SetFps require `fps > 0`. A zero or negative `fps` gives `Infinity` or a negative interval in the source, and that case is not modelled.
- The ASCII art text (`components/InteractiveASCII/constants`) is not part of this model. Every property holds for any art string.
- JavaScript strings are UTF-16 code units. Here a string is a sequence of Dafny characters. In the chat this only matters for the emoji of the initial messages. In the grid it matters for art lines that contain characters outside the Basic Multilingual Plane: the source measures and indexes such lines in code units (index.tsx:69-72), so they tile differently from this model.
- Timer scheduling (`setTimeout` and `setInterval` ordering and interleaving, cleanup on unmount): each callback is one call. Only the delay arithmetic is kept (`InitialDelays`, `FollowUpDelay`). The ten-second follow-up period is a constant.
- Chat message ids come from `Date.now()`, here the parameter `now`. Their uniqueness is not claimed.
- `Date` and time-zone internals: `getTimezoneOffset()` at `now` and at the shifted instant are two parameters. `KsaFormat` holds for any two offsets. LandingPage.KsaIsUtcPlusThree, the equality with the UTC fields of `now + 3h`, holds only when the two are equal. Across a daylight-saving change they differ and the clock is off by the difference.
- Audio `play()`/`pause()`, their promise rejections, the volume and looping, and the effect that plays once `hasInteracted` becomes true: they are modelled only as the `tryPlay` results of `ToggleMute` and `HandleInteraction`.
- React state batching and stale closures are not modelled. In the source, the page's `handleInteraction`, reached when a mute-button click bubbles up, reads the state from before the click. `OnClick` instead applies it to the state after the toggle. The flags come out the same either way (`BubbleIsHarmless`). The playback attempt of that bubbled handler is not modelled.
- framer-motion variants and `AnimatePresence`, `AnimatedNumber`, `AnimatedBackground.tsx`, `VideoPlayer.tsx`, `tailwind.config.ts`, `app/layout.tsx` and `app/demo/page.tsx`: presentation and composition with no logic to verify.
- Rendering of the quiz leaderboard, the chat list and the commentary timestamps (`toFixed(1)`): only the indices and order of what is shown are modelled.
