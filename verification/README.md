# Verified models of CuTTY's algorithms and state machines

CuTTY is a terminal emulator. This project models the parts of it whose correctness rests on an
argument rather than on a single function: text batching, background coalescing and underline
collection, redraw throttling and timers, the layout cache, PTY reading and writing, the fair mutex,
grid arithmetic, word motions, selections, and keyboard hints. Each part is written in the form the
program has, as classes and loops where it updates things in place and as functions where it computes,
and each is proved against a specification that is simpler than the code.

`dafny verify dfyconfig.toml` checks everything.

| file | models |
|---|---|
| `Content.dfy` | cells, flags, colours and sizes that the display modules share |
| `Arithmetic.dfy`, `Sequences.dfy` | facts about division and concatenation that several modules need |
| `Glyphs.dfy` | the per-cell text painter and the batching painter that replaces it |
| `Backgrounds.dfy` | snapped cell rectangles and their coalescing |
| `Underlines.dfy` | collecting the lines below and through cells |
| `LayoutCache.dfy` | shaping with a layout cache and a memo of checked fallbacks |
| `FrameTimer.dfy` | the timer that keeps frames on the refresh grid |
| `Scheduler.dfy` | the timer list |
| `Redraw.dfy` | window event handlers as functions, and what each of them keeps |
| `WindowContext.dfy` | the same handlers, updating a window and the scheduler in place, and keeping its invariant |
| `Processor.dfy` | runs of the whole event loop, with all windows, timers and events |
| `Effects.dfy` | what each handler and event does to timers and windows, spelled out |
| `Throttle.dfy` | the event loop with frame timers: how often a window is redrawn |
| `FairMutex.dfy` | the two-mutex protocol as a transition system |
| `PtyRead.dfy`, `PtyWrite.dfy` | the two directions of PTY traffic |
| `GridIndex.dfy` | points, boundaries and their arithmetic |
| `ViMotion.dfy` | moving by words |
| `Selection.dfy` | half-cell anchors, ranges and scrolling |
| `HintLabels.dfy`, `HintMatches.dfy`, `HintState.dfy` | hint labels, the matches they are for, and typing them |

Everything from outside is a parameter: the shaper and its state, font coverage and the fallback
collection, the clock's readings, what the operating system answers to reads and writes, which
attempts to lock the terminal fail, and what terminal, configuration and window system answer to a
handler. Coordinates are real numbers, and snapped edges are integers.

## What the proofs found

Where a property one would expect does not hold, the model follows the code, and the exact condition
under which the property holds is proved.

- A Simple selection from the right of the last column to the left of the first column of the next
  line covers no cell, but `to_range` returns one cell (`SimpleRangeExact`, `LineBreakSelectsCell`).
- A Block selection of one column, entered at its right edge above and left at its left edge below,
  covers that column, but `to_range` returns a range without cells (`BlockRangeExact`,
  `ReversedColumnIsDropped`).
- A first anchor that has scrolled out of the history is clamped to the first cell but keeps its side,
  and a block's anchor loses its column (`ScrolledOutSimpleRange`, `ScrolledOutBlockRange`).
- When a scrolled region ends at the bottom line of the screen, content that is scrolled below the
  screen stays selected on the bottom line (`RotateTracksContent`, `ScrolledAwayStaysSelected`).
- Resynchronising the frame timer cuts the elapsed time to microseconds, so a sync point lies up to a
  microsecond behind its tick, and one advance can be shorter than the interval by less than that,
  exactly under a condition on the state and the time of the call
  (`AdvancesByInterval`, `ShortAdvance`).
- `pty_read` returns early when a read fails, and drops what it has buffered exactly if until then every
  attempt to lock the terminal failed and the buffer did not fill up (`CallDropsIffHangsUp`,
  `HangUpDropsBytes`).
- When a read fails after bytes were parsed, `pty_read` does not ask for the redraw they need; they stay
  undrawn until something else asks for one (`CallFailsAfterParsing`, `HangUpSkipsRedraw`).
- A selection with one anchor in the scrolled region can lose content that has not moved, when its other
  end leaves the region (`RotateAcrossRegion`, `ScrollingDropsWhatStays`).
- The documentation of `FairMutex` says that a waiting thread gets the lock before another thread can
  re-lock it (`cutty_terminal/src/sync.rs:9-10`). In every state this holds exactly for a thread that
  has reached the data mutex (`ProtectedIffWaitingAtData`); one that waits for the `next` mutex can be
  overtaken by any other thread, again and again (`NextWaiterStarves`, `WaiterAtNextCanBeOvertaken`).
- Hint alphabets may contain a character twice. Labels can be typed, and are free of prefixes, exactly
  if they do not (`TypingWorksIffDistinct`, `PrefixFreeIffDistinct`); otherwise a label can select
  another match (`DuplicateAlphabetSelectsWrongMatch`).

## Model

| member | source | states |
|---|---|---|
| Glyphs.PaintCellTexts | cutty/src/display/mod.rs:973-1014 | for every list of cells and every shaper, batching puts the same glyphs on screen as painting cell by cell, in the same order and with the same font, size, coordinates, colour and absolute position; it leaves the text system in the same state and the batch empty, makes no more draw calls, and at most one when two or more cells with visible text agree in style |
| Glyphs.PaintOne | cutty/src/display/mod.rs:984-1008 | one turn of the loop keeps the painter in step with the per-cell painter, up to the one cell it holds back, and keeps a single-style frame undrawn |
| Glyphs.PaintOrBatch | cutty/src/display/mod.rs:985-1007 | a visible cell becomes the pending cell, and batching goes on exactly if it agrees with the one before; if all agree nothing is drawn yet |
| Glyphs.BatchTwo | cutty/src/display/mod.rs:996-1000 | starting a batch gives the held-back cell and the new cell to it, in this order |
| Glyphs.PaintCellText | cutty/src/display/mod.rs:953-971 | the reference painter makes exactly the draw calls of the cell's layout; what they put on screen is what they would put there for the cell in the first line and column, moved by whole cell widths and heights |
| Glyphs.CellMoved | cutty/src/display/mod.rs:1085-1088 | a cell that is moved by some lines and columns has the same glyphs, moved by as many cell heights and cell widths, and leaves the text system the same |
| Glyphs.FirstCellOrigin | cutty/src/display/mod.rs:1085-1088 | the layout of the cell in the first line and column starts at the padding plus the glyph offset |
| Glyphs.LayoutCallsAppend | cutty/src/display/mod.rs:1079-1115 | a layout is painted line by line |
| Glyphs.LineCallsAppend | cutty/src/display/mod.rs:1090-1114 | a line is painted item by item, and inline boxes paint nothing |
| Glyphs.RunOnScreen | cutty/src/display/mod.rs:1453-1461 | the glyphs of a run appear in order, in its font and the colour of the cell: the first at the run's offset plus its own, each further one an advance plus the difference of their own offsets on, all up from the baseline |
| Glyphs.BatchCellText | cutty/src/display/mod.rs:1016-1036 | what is drawn or waits in the batch grows by exactly the glyphs the reference painter would draw for the cell, for no more draw calls |
| Glyphs.BatchLayout | cutty/src/display/mod.rs:1039-1074 | the same for a layout; runs of one style leave the scene untouched |
| Glyphs.PaintLayout | cutty/src/display/mod.rs:1076-1116 | one call for each glyph run, with the pen moving by each advance |
| Glyphs.GlyphBatch.Push | cutty/src/display/mod.rs:334-379 | adds exactly the glyphs, at their absolute places, whether or not the batch is flushed first or switched to absolute positions; one more draw call is owed unless the style is the current one of a non-empty batch |
| Glyphs.GlyphBatch.Flush | cutty/src/display/mod.rs:381-402 | draws what waits, with one call, or none for an empty batch; what is on screen or waiting does not change |
| Glyphs.GlyphBatch.Reset | cutty/src/display/mod.rs:326-331 | leaves an empty batch that is compatible with nothing |
| Glyphs.PlaceTranslated | cutty/src/display/mod.rs:367-378 | moving the glyphs of a batch and of a new run into absolute positions does not move them on screen |
| Glyphs.FilterAgreesWithShaping | cutty/src/display/mod.rs:1436-1443 | the filter keeps exactly the cells that shaping would give a layout, and the others do not touch the text system |
| Glyphs.ShapingIgnoresPlaceAndColor | cutty/src/display/text.rs:105-134 | shaping a cell depends on its characters and its font variant alone, with bold and dim being one variant: colours and places split neither layouts nor the state of the text system, and of a hidden cell nothing matters |
| Glyphs.ShapedText | cutty/src/display/text.rs:105-134 | what is shaped: nothing of hidden cells, tabs and plain spaces, otherwise the character with its zero-width characters, in a bold face for bold or dim cells and an italic one for italic cells |
| Glyphs.AgreeingCellsPaintAlike | cutty/src/display/mod.rs:1445-1451 | cells whose text styles agree paint the same text at the same place alike |
| Backgrounds.PaintCellBackgrounds | cutty/src/display/mod.rs:897-951 | for every list of cells, starting canvas and blend function the canvas is that of filling each visible cell separately, and there is exactly one fill for each maximal run of cells that continue one another |
| Backgrounds.Runs | cutty/src/display/mod.rs:930-942 | there are never more runs than visible cells |
| Backgrounds.Widen | cutty/src/display/mod.rs:937-938 | filling a widened rectangle is filling its two parts |
| Backgrounds.NeighboursMeet | cutty/src/display/mod.rs:914-936 | neighbouring cells of a line painted alike always share a snapped edge, so they are always coalesced |
| Backgrounds.CellRectEdges | cutty/src/display/mod.rs:880-893 | all four edges of a cell are edges of the snapped grid behind the padding, and it is painted in its background |
| Backgrounds.LinesMeet | cutty/src/display/mod.rs:880-893 | a cell ends where the cell below it begins |
| Backgrounds.RoundIsNearest | cutty/src/display/rects.rs:260-262 | an edge is rounded to the nearest pixel |
| Backgrounds.NextFill | cutty/src/display/mod.rs:874-877 | separately, each cell adds its rectangle unless its background is fully transparent |
| Backgrounds.SnappedSpan | cutty/src/display/rects.rs:260-262 | a snapped cell is at least as wide as the floor and at most as wide as the ceiling of the cell size |
| Backgrounds.CellRectWidth | cutty/src/display/mod.rs:880-893 | no cell rectangle, wide or not, has a negative width |
| Underlines.CollectLines | cutty/src/display/mod.rs:634-653 | for each flag the lines mark exactly the columns of the cells with the flag, wide cells twice, in order and in their colours, with one line for each run of cells that continue one another, and no line leaves its row |
| Underlines.UpdatedRecords | cutty/src/display/rects.rs:189-213 | one more cell, with or without the flag, keeps this |
| Underlines.CellMarksExactly | cutty/src/display/rects.rs:189-213 | what is marked for a flag are the columns of the cells with it, two for a wide one, in the text colour for strikeouts and the underline colour otherwise |
| Underlines.LinesOfNeighbours | cutty/src/display/rects.rs:199-212 | the first cell with a flag starts a line, and a later one goes on with the line before it exactly if it comes right behind the last flagged cell, in the same row and colour |
| Underlines.RenderLines.UpdateFlag | cutty/src/display/rects.rs:189-213 | updates the lines of one flag in place and no others |
| Underlines.RenderLines.Update | cutty/src/display/rects.rs:180-187 | updates the lines of all six flags, each from its own old lines |
| LayoutCache.TextSystem.ShapeWithOrder | cutty/src/display/text.rs:199-252 | with either order of looking into the cache and ensuring fallbacks, the layout, the font, the metrics and the fallback table are those of a system without a cache, and the cache afterwards does not depend on the order |
| LayoutCache.TextSystem.Replay | cutty/src/display/text.rs:91-278 | this holds over every sequence of font updates and shape calls |
| LayoutCache.TextSystem.EnsureFallbacks | cutty/src/display/text.rs:321-344 | the memo changes nothing: the table is the one without a memo and settles the whole text, and the cache is dropped exactly if some character was not settled |
| LayoutCache.TextSystem.EnsureCharacter | cutty/src/display/text.rs:324-338 | afterwards the character is settled, all memoised characters still are, and a change is reported exactly if it was not settled before |
| LayoutCache.TextSystem.SeedFallbacks | cutty/src/display/text.rs:364-371 | the table changes, and says so, exactly if there is a family to add |
| LayoutCache.TextSystem.FindFallbackFamilies | cutty/src/display/text.rs:373-400 | all searched families that support the character, those first that also support the script's sample text |
| LayoutCache.TextSystem.UpdateFont | cutty/src/display/text.rs:91-97 | the font and its metrics are the new ones, the fallback table stays, and no layout and no memo entry of the old font is left |
| LayoutCache.TextSystem.BuildAndCacheLayout | cutty/src/display/text.rs:254-278 | the layout that is cached is the fresh one, and only its key changes |
| LayoutCache.Library.EnsureIdempotent | cutty/src/display/text.rs:321-344 | ensuring the fallbacks of a text twice is ensuring them once |
| LayoutCache.Library.EnsuredSettles | cutty/src/display/text.rs:321-344 | ensuring fallbacks settles every character of the text and only adds families |
| LayoutCache.Library.EnsuredNoChange | cutty/src/display/text.rs:210-216 | a text whose characters are settled needs no fallbacks, which is why a cache hit may skip them |
| LayoutCache.Library.AppendSettles | cutty/src/display/text.rs:364-371 | appending the families found for an unsupported character is a change and settles it |
| LayoutCache.Library.SettledGrows | cutty/src/display/text.rs:329-331 | a settled character stays settled when families are added |
| LayoutCache.Library.KeyPrefersLocale | cutty/src/display/text.rs:346-353 | a character has the key of its script, with the locale exactly if the library tracks the two together |
| LayoutCache.Library.CandidatesInOrder | cutty/src/display/text.rs:373-400 | the candidates are the searched families that support the character, those that support the sample text as well before the others |
| LayoutCache.Library.SelectNext | cutty/src/display/text.rs:387-396 | each of the two groups stays in the order of the search, and a sample that is the character itself prefers nobody |
| FrameTimer.FrameTimer.ComputeTimeout | cutty/src/display/mod.rs:1685-1706 | for every interval, unless a remainder by zero would be taken: the timeout ends when the next frame is due, or at once if that has passed; a call with another interval waits for one interval and starts a new grid; the new sync point is the next frame, or less than an interval old after a missed one, and is the one of the specification the lemmas below are about |
| FrameTimer.TimeoutEndsAtNextFrame | cutty/src/display/mod.rs:1688-1705 | the same of the specification: time and timeout add up to the later of now and the next frame |
| FrameTimer.CallStaysOnGrid | cutty/src/display/mod.rs:1685-1706 | every sync point lies on a multiple of the interval after the base, less than a microsecond late; each call moves at least one tick; a new interval starts a new grid |
| FrameTimer.AdvancesByInterval | cutty/src/display/mod.rs:1695-1705 | consecutive calls advance by more than the interval less a microsecond, and by the whole interval if and only if the call is not a resync in the tick after the last one that comes at an earlier part of its microsecond; the condition is on the state and the time before the call |
| FrameTimer.CutElapsed | cutty/src/display/mod.rs:1697-1700 | taking the microsecond remainder off leaves the same tick and a phase below one microsecond |
| FrameTimer.ShortAdvance | cutty/src/display/mod.rs:1697-1700 | at 60 Hz, an advance that is 0.999 microseconds short |
| FrameTimer.StaysThrottled | cutty/src/display/mod.rs:1685-1706 | over every run of callers that wait out each timeout, the timeout is at most the interval and the n-th call is at tick n or later, not ahead of the time it is ready |
| FrameTimer.WaitingCallersAreThrottled | cutty/src/display/mod.rs:1685-1706 | n such calls after the reset take at least n - 1 intervals |
| FrameTimer.WaitingCall | cutty/src/display/mod.rs:1695-1705 | one such call keeps the throttling |
| FrameTimer.ImpatientCallersWait | cutty/src/display/mod.rs:1702-1705 | the n-th of several calls at one time is put off by n intervals |
| Throttle.FramedRedrawsAreThrottled | cutty/src/display/mod.rs:1415-1432 | over every run of the event loop with frame timers, at one refresh interval: the redraws made while the window had its frame number at most two more than the intervals since it was first drawn, however often the window system asks for redraws without one |
| Throttle.PacedStep | cutty/src/display/mod.rs:1415-1432 | every step keeps the account behind this: frames had, sent and waited for stem from one drawing each, and all but one for each interval are still to come |
| Throttle.PacedDraw | cutty/src/display/mod.rs:1415-1432 | a drawing uses up the frame and asks for the next, which comes no earlier than its interval |
| Throttle.OpenedWindowIsNew | cutty/src/window_context.rs:116-205 | in every reachable state, opening a window with an unused id starts such a run |
| Scheduler.Scheduler.Update | cutty/src/scheduler.rs:58-73 | with a monotone clock it terminates, sends the event of each timer that is due at its start once and in list order, and returns the earliest remaining deadline; the list is then exactly that of the timers that were not due and one timer for each fired repeating one, with its event, id and interval and due an interval after a reading of the clock during the call |
| Scheduler.Scheduler.FireDue | cutty/src/scheduler.rs:61-70 | the loop fires what it set out to fire, although timers are put back while it runs |
| Scheduler.Scheduler.FireFirst | cutty/src/scheduler.rs:62-69 | one turn sends the first timer's event and, if it repeats, inserts the same timer due an interval after now |
| Scheduler.Scheduler.Schedule | cutty/src/scheduler.rs:76-90 | inserts the timer before the first one with a later deadline and keeps the list sorted, for every interval |
| Scheduler.Scheduler.Unschedule | cutty/src/scheduler.rs:93-96 | removes and returns the first timer with the id, or changes nothing |
| Scheduler.Scheduler.Scheduled | cutty/src/scheduler.rs:99-101 | whether there is a timer with the id |
| Scheduler.Scheduler.UnscheduleWindow | cutty/src/scheduler.rs:107-109 | drops the timers of the window and keeps the rest in order |
| Scheduler.InsertWellFormed | cutty/src/scheduler.rs:79-89 | insertion keeps the list sorted by deadline |
| Scheduler.InsertContents | cutty/src/scheduler.rs:79-89 | insertion adds the timer and loses none |
| Scheduler.InsertStable | cutty/src/scheduler.rs:79-89 | insertion keeps the order of timers with equal deadlines, the new one coming last |
| Scheduler.SortedStableUnique | cutty/src/scheduler.rs:79-89 | order by deadline and order among ties leave only one possible list |
| Scheduler.InsertAt | cutty/src/scheduler.rs:79-89 | inserting at the found position is the sorted insertion |
| Scheduler.InsertAfterDue | cutty/src/scheduler.rs:64-66 | a renewed timer goes behind everything that is still to be fired |
| Scheduler.RequeueCount | cutty/src/scheduler.rs:61-70 | after firing, each id has the timers that were not due and those that repeat |
| Scheduler.RequeuePutsBack | cutty/src/scheduler.rs:62-69 | the timers afterwards are those that were not due and each fired repeating one anew, each at its own reading of the clock |
| Scheduler.RequeueInvariant | cutty/src/scheduler.rs:61-72 | after firing, the list is sorted and nothing in it is due |
| Scheduler.CountRemove | cutty/src/scheduler.rs:93-96 | one unschedule takes away one timer of its id and no other |
| Scheduler.FindInsert | cutty/src/scheduler.rs:79-96 | a timer whose id is new is the one that is found, and others are found as before |
| Scheduler.FindRemove | cutty/src/scheduler.rs:93-96 | removing one id leaves what is found for the others |
| Scheduler.DropWindowCount | cutty/src/scheduler.rs:107-109 | no timer of the window is left, and no other one is lost |
| Scheduler.DropWindowAppend | cutty/src/scheduler.rs:107-109 | timers are kept or dropped one by one, in order |
| Processor.NoLostRedraw | cutty/src/event.rs:272-469 | in every reachable state a window that is dirty, visible and has handled its events has a redraw pending at the window system, or has no frame and a frame timer or event on its way |
| Processor.TimerDiscipline | cutty/src/event.rs:1584-1634 | in every reachable state each topic but frames has at most one timer for a window, so one unschedule cancels it; when blinking has timed out there is no blink timer and the cursor is shown |
| Processor.StepOk | cutty/src/event.rs:234-469 | every step of the event loop keeps the invariant behind both |
| Processor.RedrawOk | cutty/src/window_context.rs:313-441 | a redraw, asked for or not, keeps it |
| Processor.DrainOk | cutty/src/window_context.rs:404-441 | handling a window's queue before waiting keeps it |
| Processor.DeliverOk | cutty/src/event.rs:388-442 | delivering a user event keeps it, also when it closes the window or is for a window that is gone |
| Processor.FireOk | cutty/src/event.rs:464-468 | firing timers keeps it: a frame timer that is gone has become an event |
| Processor.FrameRequestsRedraw | cutty/src/event.rs:422-429 | the frame event of a dirty window requests its redraw |
| Processor.RedrawDraws | cutty/src/window_context.rs:313-441 | a redraw, whatever is in the queue: a window that its queue leaves hidden stays dirty and keeps its frame; a visible one is drawn, gives up its frame for exactly one frame timer, and is dirty or requested afterwards only for a bell that has not finished |
| Processor.QuietWindowIsDrawn | cutty/src/window_context.rs:432-440 | a window for which nothing is under way has its frame, and is clean or hidden |
| Processor.DrainedWindowIsRequested | cutty/src/window_context.rs:404-440 | handling a queue, whatever is in it, empties it and never makes the window clean; the last occlusion event decides whether it is hidden, and if it is dirty and visible it has asked for its redraw or waits for its frame |
| Processor.DrawnWithinThreeSteps | cutty/src/event.rs:422-469 | in every run in which a dirty and visible window waits, at most two of its own steps, a frame timer that fires and its event, come before the redraw, and no other step sets it back |
| Processor.WaitingHasNext | cutty/src/event.rs:422-429 | a waiting window has the timer, the event or the redraw that its next step needs |
| Processor.FiredFrameIsSent | cutty/src/scheduler.rs:62-69 | a frame timer that fires sends the frame event of its window |
| Redraw.HandleOk | cutty/src/event.rs:1804-1824 | every handler keeps the timer discipline and the blink state, and leaves frames, requests and other windows' timers alone |
| Redraw.HandleAllOk | cutty/src/window_context.rs:404-406 | and so does every queue of events |
| Redraw.UpdateCursorBlinkingOk | cutty/src/event.rs:1584-1613 | restarting or stopping the blinking, from any state, leaves at most one timer of each blink topic |
| Redraw.OnTypingStartOk | cutty/src/event.rs:1164-1185 | typing restarts the blink timer without doubling it |
| Redraw.SearchOk | cutty/src/event.rs:1517-1568 | a search that is put off or settled leaves at most one search timer |
| Redraw.SearchDelayOk | cutty/src/input/keyboard.rs:280-288 | resetting the search delay leaves at most one search timer |
| Redraw.CancelOk | cutty/src/scheduler.rs:93-96 | with the discipline kept, one unschedule leaves no timer of its id |
| WindowContext.WindowContext.HandleEvent | cutty/src/window_context.rs:356-441 | handles the queue in order, then submits updates and requests a redraw only for a dirty, visible window that has a frame, and not while a redraw is handled; in place, the window stays valid: nothing it has to draw is forgotten, and the timers of all windows stay disciplined |
| WindowContext.WindowContext.Process | cutty/src/event.rs:1804-1824 | one event, in place, keeps the timer discipline and the blink state, and leaves frames, requests and other windows' timers alone |
| WindowContext.WindowContext.QueueEvent | cutty/src/window_context.rs:366-369 | other events are only queued, and the window stays valid |
| WindowContext.WindowContext.UpdateConfig | cutty/src/window_context.rs:275-279 | a new configuration queues an update of the blinking and makes the window dirty, which stays valid |
| WindowContext.WindowContext.AfterQueue | cutty/src/window_context.rs:408-440 | the end of the handler, after the queue |
| WindowContext.WindowContext.Draw | cutty/src/window_context.rs:313-345 | clears the request; a hidden window stays dirty; an unfinished bell asks for the next redraw, or leaves the window dirty without a frame; the frame is taken and a frame timer scheduled; afterwards the window is valid again, and no timer of another window has changed |
| WindowContext.WindowContext.RequestFrame | cutty/src/display/mod.rs:1415-1432 | takes the frame and schedules its event |
| WindowContext.WindowContext.RequestRedraw | cutty/src/display/window.rs:250-255 | asks the window system once; may only be called while the window has a frame |
| WindowContext.WindowContext.OnRedrawRequested | cutty/src/event.rs:256-269 | the queue is handled, then the window is drawn; a valid window stays valid, whether it asked for the redraw or not |
| WindowContext.WindowContext.OnWakeup | cutty/src/event.rs:388-395 | new content makes the window dirty, and requests a redraw if it has a frame; the window stays valid |
| WindowContext.WindowContext.OnFrame | cutty/src/event.rs:422-429 | the frame arrives, and a dirty window requests its redraw; the window stays valid although the event it waited for is gone |
| WindowContext.WindowContext.UpdateCursorBlinking | cutty/src/event.rs:1598-1613 | both blink timers are replaced or cancelled in place, as specified |
| WindowContext.WindowContext.ScheduleBlinking | cutty/src/event.rs:1615-1621 | a repeating timer, never faster than the minimum interval |
| WindowContext.WindowContext.ScheduleBlinkingTimeout | cutty/src/event.rs:1623-1634 | one timer, or none with a timeout of zero |
| WindowContext.WindowContext.OnTypingStart | cutty/src/event.rs:1164-1185 | the blink timer restarts with a shown cursor, or blinking resumes after a timeout |
| WindowContext.WindowContext.GotoMatch | cutty/src/event.rs:1517-1568 | a settled search cancels the delayed search, one that hit its limit schedules it once |
| WindowContext.WindowContext.ResetSearchDelay | cutty/src/input/keyboard.rs:280-288 | a pending delayed search starts anew with the same event |
| WindowContext.WindowContext.UpdateSelectionScrolling | cutty/src/input/mod.rs:1131-1147 | the scrolling timer is replaced, or cancelled inside the text area |
| WindowContext.WindowContext.BlinkCursorEvent | cutty/src/event.rs:1809-1816 | the cursor toggles unless blinking has timed out |
| WindowContext.WindowContext.BlinkCursorTimeoutEvent | cutty/src/event.rs:1817-1824 | the blink timer is cancelled and the cursor shown |
| Effects.TickToggles | cutty/src/event.rs:1809-1816 | a tick hides a shown cursor or shows a hidden one and makes the window dirty, and does nothing after the timeout |
| Effects.TimeoutStops | cutty/src/event.rs:1817-1824 | the timeout takes the blink timer away, shows the cursor and makes the window dirty |
| Effects.BlinkingStarts | cutty/src/event.rs:1598-1634 | starting to blink, from any state, leaves one blink timer due and repeating after the configured interval, but at least 10 ms, and one timeout due after the configured time, or none if that is zero |
| Effects.BlinkingEnds | cutty/src/event.rs:1598-1613 | ceasing to blink leaves neither timer, and shows the cursor |
| Effects.TypingShowsCursor | cutty/src/event.rs:1164-1185 | typing shows a blinking cursor and starts its timer anew; the window becomes dirty only if the cursor was hidden |
| Effects.TypingEndsTimeout | cutty/src/event.rs:1164-1185 | typing after the timeout is starting to blink afresh; without timer and timeout it does nothing |
| Effects.TypingHidesMouse | cutty/src/event.rs:1178-1184 | hiding the mouse while typing makes hint highlights stale and does nothing else |
| Effects.SearchSchedulesOnce | cutty/src/event.rs:1517-1568 | a settled search leaves no delayed search; one that hit its limit leaves a pending one as it is, or schedules one in half a second; either makes the window dirty |
| Effects.SearchResets | cutty/src/input/keyboard.rs:280-288 | resetting the delay puts a pending search off to half a second from now, with its event, and schedules none where there was none |
| Effects.ScrollingRepeats | cutty/src/input/mod.rs:1131-1147 | outside the text area scrolling repeats every 15 ms, from now on; inside there is no timer for it |
| Effects.QueueFromFront | cutty/src/window_context.rs:404-406 | a queue is handled from its front, every event once |
| Effects.EmptyQueueIsLeft | cutty/src/window_context.rs:366-402 | without queued events nothing happens, not even a request, and otherwise the queue is used up |
| Effects.UpdatesMakeDirty | cutty/src/window_context.rs:408-429 | after the queue a window is dirty exactly if it was, or has an update pending, or its stale highlights have changed; nothing is pending or stale then |
| Effects.RequestedAfterQueue | cutty/src/window_context.rs:432-440 | a redraw is requested then exactly for a dirty, visible window that has a frame, and not while one is handled; if it was requested before, the window system is not asked again |
| Effects.DrawingAsksForFrame | cutty/src/display/mod.rs:1415-1432 | drawing a visible window adds exactly one frame timer, due after the timeout, and a hidden one none |
| Effects.WakeupMakesDirty | cutty/src/event.rs:388-395 | new content makes the window dirty and requests its redraw exactly if it has a frame; nothing else changes |
| Effects.FrameArrives | cutty/src/event.rs:422-429 | a frame requests the redraw exactly of a dirty window; nothing else changes |
| Effects.EventIsDelivered | cutty/src/event.rs:388-442 | the oldest event reaches its window, or every window if it is for none in particular, and no other one; an exit closes the window with all its timers unless it is held, and an event for a window that is gone does nothing |
| Effects.TimersFire | cutty/src/event.rs:464-468 | firing timers does to the timers and to the inbox what the scheduler promises, and changes no window |
| Effects.WindowOpens | cutty/src/window_context.rs:116-205 | a new window has a frame, nothing to draw and nothing to do |
| FairMutex.StepKeepsInv | cutty_terminal/src/sync.rs:28-48 | one step keeps each mutex with the one thread that says it holds it |
| FairMutex.OnlyHolderOfNextAcquires | cutty_terminal/src/sync.rs:33-48 | in every interleaving of disciplined clients only the holder of `next` acquires the data |
| FairMutex.NoOvertaking | cutty_terminal/src/sync.rs:33-38 | while a thread waits at the data mutex nobody but the holder of that moment ever has it |
| FairMutex.NeverStuck | cutty_terminal/src/sync.rs:28-48 | unless all threads are idle some thread can make progress |
| FairMutex.CallsComplete | cutty_terminal/src/event_loop.rs:116-170 | once no new calls start, there are at most five progress steps a thread, however many attempts to lock fail in between, and when no progress is left every thread has been served |
| FairMutex.ProgressShrinksRank | cutty_terminal/src/event_loop.rs:138-146 | every progress step uses up rank, and a failed attempt to lock changes nothing |
| FairMutex.BareClientOvertakes | cutty_terminal/src/sync.rs:41-43 | without the discipline, a client can overtake a waiting thread again and again |
| FairMutex.ProtectedIffWaitingAtData | cutty_terminal/src/sync.rs:9-10 | in every state, a waiting thread cannot be overtaken by another one in any run if and only if it waits at the data mutex |
| FairMutex.NextWaiterStarves | cutty_terminal/src/sync.rs:28-38 | in every state, any other thread can acquire the data any number of times while a thread waits for `next`, all clients keeping the discipline |
| FairMutex.DataWaiterIsProtected | cutty_terminal/src/sync.rs:33-38 | in every run in which a thread waits at the data mutex nobody acquires it first |
| FairMutex.WaiterAtNextCanBeOvertaken | cutty_terminal/src/sync.rs:9-10 | a concrete run of two threads in which the holder of the data releases it and locks it again while the other one waits for `next` |
| PtyWrite.EventLoop.Notify | cutty_terminal/src/event_loop.rs:335-346 | the input is accepted: written, drained and queued bytes together are all accepted bytes in order; empty input is kept out |
| PtyWrite.EventLoop.Send | cutty_terminal/src/event_loop.rs:389-396 | any message comes last in the channel, and no byte is lost or doubled |
| PtyWrite.EventLoop.Peek | cutty_terminal/src/event_loop.rs:467-473 | shows the next message without changing what will be received |
| PtyWrite.EventLoop.Recv | cutty_terminal/src/event_loop.rs:475-484 | takes the next message, a peeked one first |
| PtyWrite.EventLoop.DrainRecvChannel | cutty_terminal/src/event_loop.rs:91-101 | moves input to the write list until the channel is empty or a shutdown is received, which leaves the later messages; no byte is lost, and an empty buffer in front stays there |
| PtyWrite.EventLoop.PtyWrite | cutty_terminal/src/event_loop.rs:174-203 | terminates; written and drained bytes together do not change, whatever the PTY accepts; nothing needs writing afterwards unless the last answer was a block, a write of nothing, or an error; with an empty buffer in front nothing is ever written again, and write interest stays |
| PtyWrite.EventLoop.WriteOnce | cutty_terminal/src/event_loop.rs:178-199 | each positive write leaves fewer drained bytes, and every other answer keeps the buffer where it was |
| PtyWrite.EventLoop.EnsureNext | cutty_terminal/src/event_loop.rs:408-417 | taking the next buffer changes no bytes |
| PtyWrite.NeedsWriteIffUnsent | cutty_terminal/src/event_loop.rs:425-427 | write interest is wanted exactly when drained bytes are unsent |
| PtyWrite.StuckNeedsEmptyInput | cutty_terminal/src/event_loop.rs:340-343 | the front buffer has nothing to write only if an empty input was let in, and then write interest is wanted all the same |
| PtyWrite.WriteStep | cutty_terminal/src/event_loop.rs:442-454 | a write of n bytes takes exactly those bytes off the front of what is drained |
| PtyWrite.ReceivingStopsAtShutdown | cutty_terminal/src/event_loop.rs:91-101 | receiving takes everything up to the first shutdown message and leaves what comes after it |
| PtyRead.PtyRead | cutty_terminal/src/event_loop.rs:104-171 | for every sequence of reads and failing lock attempts the call reads, parses and leaves what the specification of the loop says; it asks for a redraw if and only if it returns normally and has parsed more than the parser holds back |
| PtyRead.CallFailsAfterParsing | cutty_terminal/src/event_loop.rs:122-168 | a call returns early with bytes parsed, and so without asking for their redraw, if and only if a read fails after the terminal was locked and before enough was parsed; the condition is on the reads and lock attempts that the call meets |
| PtyRead.HangUpSkipsRedraw | cutty_terminal/src/event_loop.rs:126-135 | one byte is read and parsed, and no redraw is asked for when the next read fails |
| PtyRead.ReadAndParse | cutty_terminal/src/event_loop.rs:120-163 | one turn: the buffer never overflows, and is parsed as a whole or kept as a whole |
| PtyRead.LockTerminal | cutty_terminal/src/event_loop.rs:138-146 | the terminal is locked if it is free or the buffer is full |
| PtyRead.Loop.Conserves | cutty_terminal/src/event_loop.rs:104-171 | parsed bytes followed by those left in the buffer are the bytes read, a normal return leaves none, and one call parses fewer than MAX_LOCKED_READ + READ_BUFFER_SIZE |
| PtyRead.CallDropsIffHangsUp | cutty_terminal/src/event_loop.rs:120-146 | a call drops bytes if and only if a read fails while the buffer holds bytes, has not been full, and every attempt to lock so far has failed; the condition is on the reads and lock attempts that the call meets |
| PtyRead.Loop.DropsAllOrNothing | cutty_terminal/src/event_loop.rs:126-135 | what is dropped is then all that the call has read, and nothing was parsed |
| PtyRead.ReturnsWhenDone | cutty_terminal/src/event_loop.rs:122-163 | a call returns early exactly if its last read fails, and normally only when it has parsed enough or its last read finds nothing |
| PtyRead.HangUpDropsBytes | cutty_terminal/src/event_loop.rs:126-135 | one byte read while the terminal is busy is dropped when the next read fails |
| GridIndex.AddIsIndexAddition | cutty_terminal/src/index.rs:79-87 | adding columns is addition of indices: modulo the number of cells without a boundary, and saturating at the first and last cell of the grid or screen with one; the result is in the grid |
| GridIndex.SubIsIndexSubtraction | cutty_terminal/src/index.rs:65-74 | the same for subtraction |
| GridIndex.SubUndoesAdd | cutty_terminal/src/index.rs:65-87 | without a boundary subtraction undoes addition, for any offset |
| GridIndex.AddUndoesSub | cutty_terminal/src/index.rs:65-87 | and addition undoes subtraction |
| GridIndex.ClampIndex | cutty_terminal/src/index.rs:92-114 | clamping a point on any line, in terms of its index, for all three boundaries |
| GridIndex.ClampColumn | cutty_terminal/src/index.rs:96-97 | a column behind the last one is clamped first, whatever the boundary |
| GridIndex.ClampLineToEdges | cutty_terminal/src/index.rs:141-148 | clamping a line alone leads to the nearest line of the screen or the grid |
| GridIndex.WrapLine | cutty_terminal/src/index.rs:149-162 | without a boundary lines wrap around the whole grid, in both directions |
| GridIndex.LineOrder | cutty_terminal/src/index.rs:123-129 | the order on points is the order of their indices |
| ViMotion.Word | cutty_terminal/src/vi_mode.rs:329-367 | all four motions terminate on every grid and end at the nearest word start or end strictly beyond the cursor, or beyond the far end of the wide character it is in, in reading order, or else at the last or first cell |
| ViMotion.ExpandWideEndsCharacter | cutty_terminal/src/term/mod.rs:901-926 | expanding leads exactly to the last or the first cell of the character a point is in, with its spacers, also across a line break |
| ViMotion.TargetUnique | cutty_terminal/src/vi_mode.rs:329-367 | there is only one such cell |
| ViMotion.MotionBackUndoesForward | cutty_terminal/src/vi_mode.rs:329-367 | a motion to the next word edge and one back, from wide characters as well, lead to the word edge they started from, on every grid whose wide characters are whole and no whitespace |
| ViMotion.BackUndoesForward | cutty_terminal/src/vi_mode.rs:338-364 | the same for the targets of the two motions, where each starts in the cell itself |
| ViMotion.SkipToFarEdge | cutty_terminal/src/vi_mode.rs:338-352 | skipping blanks and then a word stops at the nearest far edge |
| ViMotion.SkipToNearEdge | cutty_terminal/src/vi_mode.rs:354-364 | skipping a word and then blanks stops at the nearest near edge |
| ViMotion.MirrorTarget | cutty_terminal/src/vi_mode.rs:329-367 | a motion to the left is a motion to the right on the reversed cells |
| ViMotion.Term.Step | cutty_terminal/src/vi_mode.rs:384-410 | advancing moves one cell in reading order and stops exactly where the boundary test holds |
| Selection.SimpleRangeExact | cutty_terminal/src/selection.rs:326-359 | the range has exactly the fully covered cells, if and only if the selection is not just a line break |
| Selection.LineBreakSelectsCell | cutty_terminal/src/selection.rs:326-359 | a line break that counts as one cell |
| Selection.BlockRangeExact | cutty_terminal/src/selection.rs:361-383 | the same for blocks, if and only if the block is not a reversed single column |
| Selection.ReversedColumnIsDropped | cutty_terminal/src/selection.rs:361-383 | such a column |
| Selection.ScrolledOutSimpleRange | cutty_terminal/src/selection.rs:283-291 | exactly when the range is right although the first anchor has left the history |
| Selection.ScrolledOutLosesCell | cutty_terminal/src/selection.rs:283-291 | a range that lacks the first cell of the grid |
| Selection.ScrolledOutBlockRange | cutty_terminal/src/selection.rs:283-292 | the same for blocks |
| Selection.ScrolledOutWidensBlock | cutty_terminal/src/selection.rs:283-292 | a block that gains two columns |
| Selection.CoversIsInterval | cutty_terminal/src/selection.rs:386-392 | outside blocks the covered cells are those between the two half-cell boundaries in reading order |
| Selection.IncludeAllSpans | cutty_terminal/src/selection.rs:252-268 | afterwards the anchors are on the same cells, the selection is not empty, and its range is exactly the run or rectangle from anchor cell to anchor cell |
| Selection.RotateTracksContent | cutty_terminal/src/selection.rs:137-191 | with both anchors in the scrolled region the covered cells are exactly the old ones moved by delta and cut to the region, if and only if nothing is held at the bottom line |
| Selection.RotateAcrossRegion | cutty_terminal/src/selection.rs:152-188 | a selection that reaches out of the scrolled region, or lies outside, keeps exactly the content it had that is still on screen, in place or moved, if and only if the anchor that moves stays on its side of the region's border or comes to lie on it, or there is nothing to lose |
| Selection.RotateMovesAnchors | cutty_terminal/src/selection.rs:152-190 | of a selection that is kept, start and end each stay what they are: in the region and not cut at its border an anchor keeps column and side and moves by delta, outside it stays; a block's anchors keep column and side even when they are cut |
| Selection.RotateExchanged | cutty_terminal/src/selection.rs:147-190 | rotating with start and end exchanged is rotating and then exchanging them, whenever they are on different cells |
| Selection.ScrollingDropsWhatStays | cutty_terminal/src/selection.rs:171-178 | a selection that is dropped with lines that did not move |
| Selection.ScrolledAwayStaysSelected | cutty_terminal/src/selection.rs:153-154 | a selection that is held there, scrolled by no more than the region |
| Selection.MoveAnchors | cutty_terminal/src/selection.rs:152-190 | the ordered anchors are moved, clamped and dropped step by step as specified |
| Selection.Selection.Rotate | cutty_terminal/src/selection.rs:137-191 | rotates in place, with the anchors keeping their roles |
| Selection.Selection.IncludeAll | cutty_terminal/src/selection.rs:252-268 | only the sides change, as specified |
| Selection.Selection.Update | cutty_terminal/src/selection.rs:133-135 | only the end anchor changes |
| HintLabels.Generator.Next | cutty/src/display/hint.rs:283-287 | the n-th call returns the n-th word |
| HintLabels.Generator.Increment | cutty/src/display/hint.rs:290-314 | the carry loop counts up by one in the numeration of the words |
| HintLabels.Split.RankOfUnrank | cutty/src/display/hint.rs:283-314 | the k-th word has rank k, so labels never repeat |
| HintLabels.Split.UnrankOfRank | cutty/src/display/hint.rs:283-314 | every word of heads and one tail appears |
| HintLabels.Split.RankIsShortlex | cutty/src/display/hint.rs:289-314 | ranks order words by length and then alphabetically |
| HintLabels.LabelsInShortlexOrder | cutty/src/display/hint.rs:283-314 | labels come in that order of their index words |
| HintLabels.LabelTextsInOrder | cutty/src/display/hint.rs:283-314 | for distinct characters, of the labels as they are shown the earlier one is shorter, or equally long and smaller, by the order of the alphabet, at the first character in which they differ; and only then |
| HintLabels.LabelIsLabelText | cutty/src/display/hint.rs:260-287 | every label is some characters of the second half of the alphabet followed by one of the first half |
| HintLabels.EveryLabelTextAppears | cutty/src/display/hint.rs:260-314 | every such text is a label |
| HintLabels.PrefixFreeIffDistinct | cutty/src/display/hint.rs:260-267 | no label is a prefix of another, if and only if the alphabet has no character twice |
| HintLabels.LabelPrefixUnique | cutty/src/display/hint.rs:260-267 | with distinct characters a label that starts another one is that one |
| HintLabels.DuplicateBreaksPrefixes | cutty/src/display/hint.rs:260-267 | every duplicate gives two labels of which one starts with the other |
| HintState.TypingWorksIffDistinct | cutty/src/display/hint.rs:132-173 | for every accepted alphabet: typing the label of every match, for every number of matches, selects nothing early and then that match, if and only if the alphabet has no character twice |
| HintState.TypingSelectsMatch | cutty/src/display/hint.rs:132-173 | with distinct characters, the state and the selections after each key of a label |
| HintState.PrefixCannotBeTyped | cutty/src/display/hint.rs:148-172 | of two labels of which one starts with the other, one does not select its match |
| HintState.UnmatchedCharacterIsIgnored | cutty/src/display/hint.rs:148-150 | a character that continues no label changes nothing |
| HintState.EraseUndoesKey | cutty/src/display/hint.rs:134-137 | backspace takes back the last accepted character |
| HintState.BackspaceRemovesKey | cutty/src/display/hint.rs:134-137 | backspace and the unit separator remove the last key, if there is one |
| HintState.CancelLeavesHintMode | cutty/src/display/hint.rs:138-140 | ESC and Ctrl+C leave hint mode and forget the keys |
| HintState.NoMatchesNoHints | cutty/src/display/hint.rs:105-109 | without matches any key leaves hint mode, and outside of it no key selects anything |
| HintState.DuplicateAlphabetSelectsWrongMatch | cutty/src/config/ui_config.rs:284-296 | the alphabet "jj" is accepted, and the first key of the label of match 0 selects match 1 |
| HintState.NextKey | cutty/src/display/hint.rs:148-172 | one character of a label, in any prefix of it, is accepted, and selects the match if it is the last |
| HintState.TableIsPrefixFree | cutty/src/display/hint.rs:115-128 | the labels of the visible matches are free of prefixes |
| HintState.LabelTableAt | cutty/src/display/hint.rs:115-128 | the last match has the first label, the one before it the second, and so on |
| HintState.HintState.KeyboardInput | cutty/src/display/hint.rs:132-173 | the state and the selection after a key press are those of the specification above |
| HintState.HintState.UpdateMatches | cutty/src/display/hint.rs:74-129 | the found matches are sorted and deduplicated, and labels are given out from the last to the first, each with the typed keys taken off or empty |
| HintMatches.VisibleMatches | cutty/src/display/hint.rs:111-113 | the matches with labels have increasing starts, and are exactly the longest of the found ones at each start |
| HintState.HintState.LabelMatches | cutty/src/display/hint.rs:115-128 | the loop that gives out the labels |
| HintState.HintState.FindLabel | cutty/src/display/hint.rs:148-150 | finds the last match that the typed keys can still reach |
| HintState.HintState.Stop | cutty/src/display/hint.rs:66-71 | leaves hint mode with nothing typed and no labels |

## Left out

- Rounding of `f32` coordinates and metrics: they are real numbers here, so batching moves glyphs exactly.
- Integer widths: lines, columns, durations and counts are unbounded, so overflow of `i32` and `usize` is not modelled.
- SnappedSpan: rounds over the reals, which agrees with `f32::round` on the non-negative products that occur.
- Update: terminates for positive intervals of the timers that repeat, as all callers give; with an interval of zero and a clock that stands still the loop would not end.
- CallStaysOnGrid: is about positive intervals of whole microseconds, which is how the only caller computes them.
- FramedRedrawsAreThrottled: is about one refresh interval and a window that stays open; a change of the monitor starts the grid anew.
- PtyRead: the number of attempts to lock that fail is finite and fixed when the call starts, because the lease keeps every disciplined thread from taking the terminal afterwards; an interrupted read is one that would block.
- ExpandWideEndsCharacter: asks for a grid in which wide characters have all their cells; Word itself only asks that the expansion stays in the grid.
- UpdateMatches: finding and post-processing the matches is not modelled; the found list is an input.
- ShapeWithOrder: what the font library does is assumed: it reports every change of a fallback list, keeps the families in it, and has those that were appended.
- DrainRecvChannel: a resize changes no bytes, and its effect on the PTY is not modelled; nor is the panic on a closed channel.
- UpdateCursorBlinking: whether the cursor should blink, from configuration, terminal mode, focus and input method, is an input.
- HandleEvent: what `update_highlighted_hints` answers is an input, and an event with several effects is several inputs.
- NoLostRedraw: one round of the event loop before waiting is a step for each window and one for the timers, in any order; all orders of the real loop are among these. Events for all windows are queued for all of them.
- FairMutex: the locks of the operating system are free mutexes that any waiting thread may take; the eventual fairness they add is not modelled.
- CollectLines: its cells are those after hint highlighting, which underlines some of them first.
- `RenderLine::rects` and the shapes of underlines: what collected lines look like is arithmetic on metrics.
- Semantic and Lines selections, `contains_cell`, and the semantic, bracket and first or last occupied cell motions: they rest on searches in the grid that are not modelled.
- The writer that records PTY bytes for reference tests, and the synchronized-update logic of the parser.
- Touch gestures, the message bar, string shortening and display damage.
- GPU, window creation, clipboard, IPC, configuration files, signals and logging: input and output.
