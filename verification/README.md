# Gesture-based adaptive reader — a Dafny model of its core

The system is a reading application for older adults. A window shows a text
one page at a time. The reader can:
- enlarge or shrink the font,
- widen or narrow the line spacing,
- turn pages,
- have the page read aloud.

Hand gestures in front of a webcam can also trigger these operations.

This project models the logic behind that, in four parts:

- **Gesture classification** (`hand_geometry.dfy`, module `HandGeometry`).
  The classifier takes the 21 hand landmarks of one frame. It decides which
  fingers are extended and where the thumb points. It then tries the six
  gesture tests in their fixed priority order.
- **Stabiliser, gate and per-frame step** (`gesture_control.dfy`, module
  `GestureControl`).
  - The stabiliser keeps the last ten raw labels. It reports a gesture only
    once five samples are held and one label holds at least 60% of them.
  - The gate forwards a stable gesture only after the cooldown, and never the
    same gesture twice in a row unless the hand leaves the frame in between
    (a frame without a hand forgets the last dispatched gesture).
  - One poll of the camera is the pure function `Step`, and the class
    `GestureController` is proved to follow it. `Run` chains `Step` over a
    sequence of frames.
- **Reader window** (`reader.dfy`, module `Reader`).
  - Pagination greedily packs paragraphs into pages under a character limit.
    It is specified by page boundaries (`GreedyCuts`, `PagesOf`). The builder
    loop `BuildPages` is proved to meet that specification, and the
    specification is proved to determine the pages uniquely.
  - Font size, line spacing, page navigation, the speech controls and the
    gesture-action dispatch are methods of the class `ReaderWindow`.
- **Speech engine control** (`speech.dfy`, module `Speech`). This covers:
  - the flags `is_speaking`, `is_paused` and `should_stop`,
  - the rate clamp and the voice menu,
  - the flag logic of `speak`.

Two supporting modules complete the project:
- `text.dfy` (module `Text`) models Python's `str.strip()` and
  `str.split('\n\n')` on character sequences.
- `config.dfy` (module `Config`) holds the configuration constants, the
  gesture and action vocabularies, and the gesture-to-action table.

Line spacing is counted in quarters of a line. The configured values 1.0, 1.5
and 3.0 and the step 0.25 are exact binary fractions, so this integer model
matches the source's floating-point arithmetic exactly. Landmark coordinates
and times are mathematical reals. The clock is a parameter: `now` is the time
at which a frame is processed.

Pagination is meant to return the reader to the first page, but the code skips
that reset for a blank text. `ReaderWindow.PaginateAsWritten` models the code
as it is. The rest of the model uses `ReaderWindow.Paginate`, the corrected
version (see Findings).

## Model

| member | source | states |
|---|---|---|
| Config.ActionFor | config.py:77-83 | the definition: the gesture-to-action table without the swipe entries; its properties are ActionForBijective and ParseActionName |
| Config.ParseAction | gui.py:700-711 | a name found in the reader's action table gives the action with exactly that name; any other name gives None |
| Config.ParseActionName | config.py:77-83 | every action the gesture table can produce is found in the reader's action table |
| Config.GestureNameInjective | config.py:77-83 | distinct gestures have distinct names, so looking up the table by name is well defined |
| Config.ActionForBijective | config.py:77-83 | each of the six reader actions is reached from exactly one of the six gestures |
| HandGeometry.FingerState | gesture_controller.py:66-84 | the definition: each of the four fingers is extended iff its tip is strictly above (smaller y than) its PIP joint |
| HandGeometry.ThumbDirectionOf | gesture_controller.py:86-119 | the definition: up, down, side or curled from the thumb tip's rise above the wrist and horizontal spread, tested in that order |
| HandGeometry.IsThumbUp | gesture_controller.py:121-132 | the definition: thumb up and all four fingers curled |
| HandGeometry.IsThumbDown | gesture_controller.py:134-145 | the definition: thumb down and all four fingers curled |
| HandGeometry.IsOpenPalm | gesture_controller.py:147-154 | the definition: all four fingers extended and the thumb up or to the side |
| HandGeometry.ThumbTucked | gesture_controller.py:164-188 | the definition: the thumb tip within 0.15 of the palm centre on both axes, or within 0.12 of the wrist vertically |
| HandGeometry.IsFist | gesture_controller.py:156-190 | the definition: all four fingers curled and the thumb tucked |
| HandGeometry.IsPeaceSign | gesture_controller.py:192-196 | the definition: index and middle extended, ring and pinky curled |
| HandGeometry.IsPointingUp | gesture_controller.py:198-201 | the definition: only the index finger extended |
| HandGeometry.Detect | gesture_controller.py:203-221 | the definition: the six tests in the order thumbs up, thumbs down, point up, peace, open palm, fist; the first that holds wins, none gives None. Its properties are the lemmas below |
| HandGeometry.DetectIsClassifyFeatures | gesture_controller.py:203-221 | the priority chain equals a decision table. All fingers curled: thumbs up, thumbs down or fist, by the thumb. Index finger only: point up. Index and middle: peace. All fingers extended: open palm when the thumb is up or to the side. Anything else: no gesture |
| HandGeometry.FingerStateIgnoresThumb | gesture_controller.py:66-84 | only the tip and PIP heights of the index, middle, ring and pinky fingers decide the finger flags |
| HandGeometry.ThumbDirectionCases | gesture_controller.py:86-119 | the thumb points up iff its tip is more than 0.15 above the wrist, and down iff it is more than 0.10 below. It points to the side iff neither holds and it is more than 0.12 away horizontally. Otherwise it is curled |
| HandGeometry.ThumbBeatsFist | gesture_controller.py:121-145 | with all fingers curled, a thumb pointing up gives thumbs up and a thumb pointing down gives thumbs down |
| HandGeometry.FistHasNeutralThumb | gesture_controller.py:156-190 | a fist has four curled fingers and a tucked thumb that points neither up nor down |
| HandGeometry.FingerPatternDecides | gesture_controller.py:147-154 | the fingers alone decide point up and peace. An open hand is open palm exactly when the thumb is up or to the side, and no gesture otherwise. Mixed finger patterns are no gesture |
| HandGeometry.ThumbIrrelevantForPointAndPeace | gesture_controller.py:192-201 | for the point-up and peace finger patterns, the thumb does not change the result |
| HandGeometry.ThumbsUpAndFistOverlap | gesture_controller.py:203-221 | some hand passes both the thumbs-up test and the fist test, and the priority order classifies it as thumbs up |
| GestureControl.Push | gesture_controller.py:39 | appending to the history keeps the last ten labels, with the new one last |
| GestureControl.PushAll | gesture_controller.py:39 | the history never holds more than ten labels |
| GestureControl.PushAllKeepsNewest | gesture_controller.py:228 | after any sequence of appends, the history is the last ten labels appended since it was last emptied, in order, None included |
| GestureControl.Stabilize | gesture_controller.py:230-250 | the specification of the stable label: None under five samples, otherwise the gesture holding at least 60% of the history, if any. Its properties are StabilizeIff and the lemmas beside it |
| GestureControl.GatePasses | gesture_controller.py:256-262 | the definition of the gate: the cooldown has elapsed since the last dispatch and the gesture differs from the last one dispatched |
| GestureControl.Step | gesture_controller.py:317-409 | the specification of one poll: unavailable, no hand (history and last gesture cleared), or a hand (classify, push, stabilise, gate, record). Its properties are StepEffects, and ProcessFrame is proved to follow it |
| GestureControl.Run | gesture_controller.py:317-409 | the specification of successive polls: Step chained over a sequence of frames, collecting each frame's stable label and the dispatches with their times |
| GestureControl.CountsDisjoint | gesture_controller.py:234-237 | two different labels together never occupy more entries than the history holds |
| GestureControl.QualifiedIsStrictMajority | gesture_controller.py:246-248 | a label with at least a 60% share outnumbers every other label, None included |
| GestureControl.QualifiedUnique | gesture_controller.py:246-248 | at most one label can hold a 60% share |
| GestureControl.StabilizeIff | gesture_controller.py:230-250 | with at least five samples, the stable label is g exactly when g holds at least 60% of the history, whatever the maximum's tie-break |
| GestureControl.StabilizeIsStrictMajority | gesture_controller.py:230-250 | a reported label outnumbers every other label in the history |
| GestureControl.SixOfTenStabilizes | gesture_controller.py:246-248 | in a full history, six of ten is enough and five of ten is not |
| GestureControl.CountAppend | gesture_controller.py:235-237 | appending a label raises its own count by one and leaves every other count unchanged |
| GestureControl.CountNone | gesture_controller.py:239-240 | a history of only None labels counts no gesture |
| GestureControl.MostCommon | gesture_controller.py:234-244 | the counting loop and the maximum return no gesture iff every label is None. Otherwise they return a gesture with the highest count, together with that count |
| GestureControl.StepEffects | gesture_controller.py:317-409 | effects of one poll:<br>- an unavailable frame changes nothing;<br>- a frame without a hand empties the history and forgets the last gesture;<br>- a hand pushes its label;<br>- a dispatch happens only for a stable gesture that passed the gate, and records the gesture and the time |
| GestureControl.RunRespectsCooldown | gesture_controller.py:252-262 | over any run of frames, successive dispatches are at least the cooldown apart. The first is at least the cooldown after the last dispatch before the run |
| GestureControl.RunNeverRepeats | gesture_controller.py:260-265 | without a frame that loses the hand, the same gesture is never dispatched twice in a row |
| GestureControl.RunColdStart | gesture_controller.py:230-231 | while fewer than five labels can have been collected, nothing is stable and nothing is dispatched |
| GestureControl.HandLossRestartsCold | gesture_controller.py:406-409 | after a frame without a hand, that frame and the next four report nothing and dispatch nothing |
| GestureControl.GestureController.constructor | gesture_controller.py:14-41 | the controller starts with an empty history, no last gesture, last time 0 and the configured cooldown |
| GestureControl.GestureController.StableGesture | gesture_controller.py:223-250 | pushes the raw label and returns exactly the specified stable label of the new history |
| GestureControl.GestureController.TriggerGesture | gesture_controller.py:252-271 | when the gate passes: records the gesture and the time, and produces the callback event with the mapped action. Otherwise: leaves the state unchanged and fires nothing |
| GestureControl.GestureController.ProcessFrame | gesture_controller.py:317-409 | the new state, the stable label and the event are exactly those of the specified step |
| Text.StripStartSpec | gui.py:368 | strip's start index skips exactly the leading whitespace |
| Text.StripEndSpec | gui.py:368 | strip's end index drops exactly the trailing whitespace |
| Text.Strip | gui.py:368 | stripping never lengthens a text |
| Text.StripSpec | gui.py:368-370 | strip gives the empty text iff the text is blank. Otherwise the result is the stretch from the first to the last visible character, and it starts and ends with a visible character |
| Text.StripIdempotent | gui.py:382 | stripping a stripped text changes nothing |
| Text.StripEndIgnoresTrailingSpace | gui.py:385-386 | whitespace appended to a text is all removed by strip |
| Text.StripOfTerminated | gui.py:379-382 | a page that ends with a blank line strips to no more than its text before that line |
| Text.StripKeepsVisibleStart | gui.py:368 | a text starting with a visible character keeps it first after strip |
| Text.SeparatorIndex | gui.py:374 | the separator found is the leftmost one, or none is found when the text has none |
| Text.Split | gui.py:374 | splitting yields at least one part, none longer than the text |
| Text.JoinSplit | gui.py:374 | splitting loses nothing: joining the parts with the separator gives the text back |
| Text.SplitPartsHaveNoSeparator | gui.py:374 | no part contains the separator |
| Text.SplitFirstPart | gui.py:374 | a text starting with a visible character has a non-empty first part starting with it |
| Speech.ClampRate | tts_engine.py:76 | the rate lies within [80, 250]. A rate already inside is kept; one outside becomes the nearer bound |
| Speech.ClampRateIdempotent | tts_engine.py:74-77 | setting a clamped rate again changes nothing |
| Speech.SpokenText | tts_engine.py:159-160 | the text handed on is all of it for a start index of 0 or less, the suffix from the index for an index inside the text, and empty past its end |
| Speech.SpeechEngine.constructor | tts_engine.py:17-41 | the engine starts stopped and unpaused, at rate 150, with the Aria voice |
| Speech.SpeechEngine.GetState | tts_engine.py:212-219 | stopped iff not speaking, paused iff speaking and paused, playing iff speaking and not paused |
| Speech.SpeechEngine.SetVoice | tts_engine.py:65-68 | an index inside the voice menu selects that voice; any other index is ignored |
| Speech.SpeechEngine.SetRate | tts_engine.py:74-77 | the stored rate is the requested one clamped into [80, 250] |
| Speech.SpeechEngine.Pause | tts_engine.py:174-179 | pauses exactly when playing, and reports whether it did |
| Speech.SpeechEngine.Resume | tts_engine.py:181-186 | resumes exactly when paused, and reports whether it did |
| Speech.SpeechEngine.TogglePause | tts_engine.py:188-193 | with the pause flag set it behaves as resume, otherwise as pause |
| Speech.SpeechEngine.Stop | tts_engine.py:195-210 | sets the stop flag and clears the pause and speaking flags, so the state is stopped |
| Speech.SpeechEngine.Speak | tts_engine.py:152-172 | always stops first. A blank remaining text leaves the engine stopped with the stop flag set. Otherwise the engine is playing with the stop flag cleared |
| Reader.GroupAppend | gui.py:378-379 | a paragraph added to the page being built is appended followed by a blank line, and a fitting paragraph keeps the page within the limit |
| Reader.GroupStart | gui.py:377-379 | the first page's text starts with the first paragraph's first character |
| Reader.StripAll | gui.py:382 | one stripped page per closed group |
| Reader.StripAllIndex | gui.py:382 | each page is its group stripped |
| Reader.BuildingClose | gui.py:380-383 | closing the page when a paragraph does not fit keeps the greedy boundaries |
| Reader.BuildingFinishCuts | gui.py:385-386 | closing the last page at the end of the paragraphs completes the greedy boundaries |
| Reader.BuildingFinishPages | gui.py:385-386 | the final page is kept only when it is not blank after strip |
| Reader.BuildPages | gui.py:377-386 | the pages built are the greedy pagination of the paragraphs: a paragraph joins the current page iff the page's length plus the paragraph's is below the limit; each page is its paragraphs, each followed by a blank line, stripped; a blank last page is dropped |
| Reader.PaginatedNonEmpty | gui.py:388-389 | when the text starts with a visible character, the greedy pagination has at least one page, so the fallback page is never needed |
| Reader.PagesAreStripped | gui.py:382-386 | every page is whitespace-stripped |
| Reader.ShortMultiParagraphPages | gui.py:378-379 | a page holding two or more paragraphs is shorter than the page limit |
| Reader.GroupOf | gui.py:377 | every paragraph falls on exactly one page: there is a page whose boundaries enclose it, and no other page's do |
| Reader.LongParagraphStandsAlone | gui.py:378-383 | a paragraph at least as long as the limit starts a page of its own and is alone on it |
| Reader.NextCutDetermined | gui.py:378-383 | where a page starts determines where it ends |
| Reader.GreedyCutsUnique | gui.py:377-386 | the greedy rule determines the page boundaries |
| Reader.PaginationUnique | gui.py:365-391 | two paginations of the same paragraphs have the same boundaries and the same pages |
| Reader.ReaderWindow.LineSpacing | gui.py:410-412 | current_line_spacing, the factor the widget's spacing is derived from, lies in [1.0, 3.0] |
| Reader.ReaderWindow.constructor | gui.py:18-60 | the window opens on page 0 at the default font size and spacing, 2000 characters per page, gestures off. Its pages are the pagination of the given text: the placeholder page for a blank text, the greedy pagination otherwise. Its speech engine is stopped, unpaused, with the stop flag clear, at rate 150 with the default voice |
| Reader.ReaderWindow.Paginate | gui.py:365-391 | the corrected pagination. A blank text gives the single placeholder page; any other text gives the greedy pagination of the paragraphs of its stripped form. Either way there is at least one page, and the reader is on page 0 |
| Reader.ReaderWindow.PaginateAsWritten | gui.py:365-391 | pagination as the code has it: the same pages, but a blank text leaves the current page where it was |
| Reader.ReaderWindow.IncreaseFont | gui.py:488-495 | below the maximum the font grows by one step, otherwise it is unchanged; it always stays within [12, 48] |
| Reader.ReaderWindow.DecreaseFont | gui.py:497-504 | above the minimum the font shrinks by one step, otherwise it is unchanged; it always stays within [12, 48] |
| Reader.ReaderWindow.IncreaseSpacing | gui.py:506-511 | below the maximum the spacing grows by a quarter, otherwise it is unchanged; it always stays within [1.0, 3.0] |
| Reader.ReaderWindow.DecreaseSpacing | gui.py:513-518 | above the minimum the spacing shrinks by a quarter, otherwise it is unchanged; it always stays within [1.0, 3.0] |
| Reader.ReaderWindow.NextPage | gui.py:520-525 | before the last page: stops speech and moves one page on. On the last page: nothing changes. The page index stays in range |
| Reader.ReaderWindow.PreviousPage | gui.py:527-532 | after the first page: stops speech and moves one page back. On the first page: nothing changes |
| Reader.ReaderWindow.TtsPlay | gui.py:454-459 | speaks the current page from its start: playing unless the page is blank |
| Reader.ReaderWindow.TtsPause | gui.py:461-469 | playing becomes paused, paused becomes playing, stopped is left alone |
| Reader.ReaderWindow.TtsStop | gui.py:471-474 | speech ends stopped, with the stop flag set |
| Reader.ReaderWindow.TtsToggle | gui.py:476-484 | stopped starts reading the current page: playing with the stop flag clear, or stopped with it set for a blank page. Playing pauses and paused resumes, both leaving the stop and speaking flags as they were |
| Reader.ReaderWindow.ExecuteGestureAction | gui.py:691-712 | with gestures disabled or an unknown action name, nothing changes. Otherwise exactly the named operation runs, with that operation's effect on the font, the page and the speech engine, and nothing else changes |
| Reader.Requested | gui.py:693-711 | an operation is requested only while gestures are enabled, and only the one whose name is the action |
| Reader.BlankTextLeavesStalePage | gui.py:369-371 | the code as written: a reader on page 2 or later that re-paginates a blank text ends with a current page past its only page |

## Left out

- Camera capture, the MediaPipe hand tracker and all drawing on the frame
  (gesture_controller.py:273-315, 326-333, 340-347, 355-402, 411-413,
  417-420). A frame is given as unavailable, handless, or one hand's 21
  landmarks; the classification and stabilisation calls at 349-353 and the
  dispatch at 405 are modelled.
- More than one hand per frame: the tracker is configured for at most one
  hand.
- The wall clock (`time.time()`): it is the parameter `now`.
- Floating-point rounding: landmark coordinates and times are reals.
  `_rate_to_percent` (tts_engine.py:79-86) truncates a float and is not
  modelled; its result only goes to the speech service.
- All tkinter widgets, themes, labels, keyboard shortcuts and the
  text-display refresh. `_display_current_page` only reads the state
  modelled here.
- File loading (`open_file`, `_load_text_file`, `_load_pdf`, gui.py:534-589).
  A successful load sets a new `fullText`, stops speech (gui.py:555) and
  re-paginates. A PDF without text sets `fullText` to the blank join
  (gui.py:583) and then fails (gui.py:585-586) before pagination, so the old
  pages stay; the model does not capture that mismatch between `fullText` and
  `pages`.
- `toggle_gestures` and the gesture-camera window (gui.py:591-686), which
  start and stop the camera. `gesturesEnabled` is set only by the
  constructor, and `ExecuteGestureAction` takes it as it finds it.
- The main-loop scheduling (`root.after`) and threads.
- The speech worker thread, the edge-tts and pygame calls, temporary files and
  `time.sleep`. The worker clears `is_speaking` when playback ends;
  `SpeechEngine` leaves that flag change to the caller.
- `get_available_voices`, `get_rate` and `cleanup`: plain reads and resource
  release.
- The sample text: the constructor takes the text to show.
- The swipe entries of the gesture table and `GESTURE_CONFIDENCE_THRESHOLD`.
  No swipe is ever detected, and the threshold is never read.
- The application entry point.
- Reader.ReaderWindow.Paginate: keeps the source's fallback to the whole text
  as one page when no page was built. `PaginatedNonEmpty` proves that this
  case cannot occur.
- GestureControl.GestureController.TriggerGesture: the source also checks that
  the gesture has an action (gesture_controller.py:270). Every gesture has
  one, so only the callback check remains.

## Findings

| source | as written | input that shows it | evidently intended | confidence | as-written member | corrected member |
|---|---|---|---|---|---|---|
| gui.py:369-371 | for a blank text, pagination returns early with the single placeholder page and leaves current_page unchanged | a reader on page 2 or later opens a blank .txt file (gui.py:549-557): current_page stays at 1 or more while there is one page, so showing the page indexes past the end of the page list | current_page reset to 0, as for any other text | not executed | Reader.ReaderWindow.PaginateAsWritten (exhibited by Reader.BlankTextLeavesStalePage) | Reader.ReaderWindow.Paginate |
