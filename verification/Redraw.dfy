/**
 Windows as the event loop sees them: redraw throttling, event queues and timers.

 Every function here is one handler of the program, on values; the class in WindowContext.dfy runs
 the same handlers in place. What the configuration, the terminal, the window system and the clock
 answer is part of the input of each step.
 */
module Redraw {
  import opened Arithmetic
  import opened Content
  import opened Scheduler

  const MILLISECOND: nat := 1_000_000
  const MIN_BLINK_INTERVAL: nat := 10
  const TYPING_SEARCH_DELAY: nat := 500 * MILLISECOND
  const SELECTION_SCROLLING_INTERVAL: nat := 15 * MILLISECOND

  // ----- Events -----

  datatype Payload = Wakeup | FrameReady | BlinkTick | BlinkTimedOut | SearchNext | ScrollTick | Exit | Other

  datatype Event = Event(window: Option<nat>, payload: Payload)

  datatype SearchOutcome = NoSearch | Settled | LimitReached

  /** What a queued event makes its handlers do; an event that does several things is several inputs. */
  datatype Input =
    | ToggleCursor
    | StopBlinking
    | UpdateBlinking(blinking: bool)
    | StartTyping(blinking: bool, hidesMouse: bool)
    | GotoMatch(outcome: SearchOutcome)
    | ResetSearch
    | ResetSearchDelay(searching: bool)
    | ScrollSelection(scrolling: bool)
    | SetOccluded(occluded: bool)
    | Plain(dirty: bool, update: bool, highlight: bool)

  datatype Win = Win(
    dirty: bool,
    occluded: bool,
    hasFrame: bool,
    requested: bool,
    osRedraw: bool,
    pendingUpdate: bool,
    highlightDirty: bool,
    timedOut: bool,
    cursorHidden: bool,
    queue: seq<Input>,
    blinkInterval: nat,
    blinkTimeout: nat)

  function NewWindow(blinkInterval: nat, blinkTimeout: nat): Win {
    Win(false, false, true, false, false, false, false, false, false, [], blinkInterval, blinkTimeout)
  }

  // ----- Timers -----

  /** The scheduler's list, and its clock with the number of readings taken. */
  datatype Timers = Timers(list: seq<Timer<Event>>, clock: Clock, tick: nat)

  function Add(ts: Timers, event: Event, interval: nat, repeat: bool, id: TimerId): Timers {
    Timers(Insert(ts.list, Timer(ts.clock(ts.tick) + interval, event, id,
                                 if repeat then Some(interval) else None)),
           ts.clock, ts.tick + 1)
  }

  function Cancel(ts: Timers, id: TimerId): Timers {
    ts.(list := Remove(ts.list, id))
  }

  predicate IsScheduled(ts: Timers, id: TimerId) {
    Count(ts.list, id) > 0
  }

  // ----- Handlers -----

  function ScheduleBlinking(w: Win, ts: Timers, id: nat): Timers {
    Add(ts, Event(Some(id), BlinkTick), Max(w.blinkInterval, MIN_BLINK_INTERVAL) * MILLISECOND, true,
        TimerId(BlinkCursor, id))
  }

  function ScheduleBlinkingTimeout(w: Win, ts: Timers, id: nat): Timers {
    if w.blinkTimeout == 0 then ts
    else Add(ts, Event(Some(id), BlinkTimedOut), w.blinkTimeout, false, TimerId(BlinkTimeout, id))
  }

  function UpdateCursorBlinking(w: Win, ts: Timers, id: nat, blinking: bool): (Win, Timers) {
    var ts1 := Cancel(Cancel(ts, TimerId(BlinkCursor, id)), TimerId(BlinkTimeout, id));
    if blinking then
      (w.(timedOut := false), ScheduleBlinkingTimeout(w, ScheduleBlinking(w, ts1, id), id))
    else (w.(timedOut := false, cursorHidden := false, dirty := true), ts1)
  }

  function PauseBlinking(w: Win, ts: Timers, id: nat, blinking: bool): (Win, Timers) {
    if IsScheduled(ts, TimerId(BlinkCursor, id)) then
      (w.(cursorHidden := false, dirty := w.dirty || w.cursorHidden),
       ScheduleBlinking(w, Cancel(ts, TimerId(BlinkCursor, id)), id))
    else if w.timedOut then UpdateCursorBlinking(w, ts, id, blinking)
    else (w, ts)
  }

  function OnTypingStart(w: Win, ts: Timers, id: nat, blinking: bool, hidesMouse: bool)
    : (Win, Timers)
  {
    var (w1, ts1) := PauseBlinking(w, ts, id, blinking);
    (if hidesMouse then w1.(highlightDirty := true) else w1, ts1)
  }

  function OnGotoMatch(w: Win, ts: Timers, id: nat, outcome: SearchOutcome): (Win, Timers) {
    var timer := TimerId(DelayedSearch, id);
    match outcome
    case NoSearch => (w, ts)
    case Settled => (w.(dirty := true), Cancel(ts, timer))
    case LimitReached =>
      (w.(dirty := true),
       if IsScheduled(ts, timer) then ts
       else Add(ts, Event(Some(id), SearchNext), TYPING_SEARCH_DELAY, false, timer))
  }

  function Handle(w: Win, ts: Timers, id: nat, input: Input): (Win, Timers) {
    match input
    case ToggleCursor =>
      (if w.timedOut then w else w.(cursorHidden := !w.cursorHidden, dirty := true), ts)
    case StopBlinking =>
      (w.(timedOut := true, cursorHidden := false, dirty := true),
       Cancel(ts, TimerId(BlinkCursor, id)))
    case UpdateBlinking(blinking) => UpdateCursorBlinking(w, ts, id, blinking)
    case StartTyping(blinking, hidesMouse) => OnTypingStart(w, ts, id, blinking, hidesMouse)
    case GotoMatch(outcome) => OnGotoMatch(w, ts, id, outcome)
    case ResetSearch => (w, Cancel(ts, TimerId(DelayedSearch, id)))
    case ResetSearchDelay(searching) =>
      var timer := TimerId(DelayedSearch, id);
      (w, if searching && IsScheduled(ts, timer) then
            Add(Cancel(ts, timer), Find(ts.list, timer).value.event, TYPING_SEARCH_DELAY, false, timer)
          else ts)
    case ScrollSelection(scrolling) =>
      var timer := TimerId(SelectionScrolling, id);
      (w, if scrolling then
            Add(Cancel(ts, timer), Event(Some(id), ScrollTick), SELECTION_SCROLLING_INTERVAL, true, timer)
          else Cancel(ts, timer))
    case SetOccluded(occluded) => (w.(occluded := occluded), ts)
    case Plain(dirty, update, highlight) =>
      (w.(dirty := w.dirty || dirty, pendingUpdate := w.pendingUpdate || update,
          highlightDirty := w.highlightDirty || highlight), ts)
  }

  /** The first n inputs, in order. */
  function HandleAll(w: Win, ts: Timers, id: nat, inputs: seq<Input>, n: nat): (Win, Timers)
    requires n <= |inputs|
  {
    if n == 0 then (w, ts) else
      var (w1, ts1) := HandleAll(w, ts, id, inputs, n - 1);
      Handle(w1, ts1, id, inputs[n - 1])
  }

  /** A redraw is only requested for a window that has a frame. */
  function RequestRedraw(w: Win): Win
    requires w.hasFrame
  {
    if w.requested then w else w.(requested := true, osRedraw := true)
  }

  /** The end of `handle_event`, after the queue has been processed. */
  function AfterQueue(w: Win, isRedraw: bool, highlights: bool): Win {
    var w1 := if w.pendingUpdate then w.(pendingUpdate := false, dirty := true) else w;
    var w2 := if w1.dirty || w1.highlightDirty then
                w1.(dirty := w1.dirty || highlights, highlightDirty := false)
              else w1;
    if w2.dirty && w2.hasFrame && !w2.occluded && !isRedraw then RequestRedraw(w2) else w2
  }

  /** `handle_event` for `AboutToWait` and `RedrawRequested`; other events are only queued. */
  function HandleEvent(w: Win, ts: Timers, id: nat, isRedraw: bool, highlights: bool): (Win, Timers) {
    if w.queue == [] then (w, ts) else
      var (w1, ts1) := HandleAll(w.(queue := []), ts, id, w.queue, |w.queue|);
      (AfterQueue(w1, isRedraw, highlights), ts1)
  }

  function Draw(w: Win, ts: Timers, id: nat, bellDone: bool, timeout: nat): (Win, Timers) {
    var w1 := w.(requested := false);
    if w1.occluded then (w1, ts) else
      var w2 := w1.(dirty := false);
      var w3 := if bellDone then w2
                else if w2.hasFrame then RequestRedraw(w2)
                else w2.(dirty := true);
      (w3.(hasFrame := false),
       Add(ts, Event(Some(id), FrameReady), timeout, false, TimerId(Frame, id)))
  }

  function OnRedrawRequested(w: Win, ts: Timers, id: nat, highlights: bool, bellDone: bool, timeout: nat)
    : (Win, Timers)
  {
    var (w1, ts1) := HandleEvent(w.(osRedraw := false), ts, id, true, highlights);
    Draw(w1, ts1, id, bellDone, timeout)
  }

  function OnWakeup(w: Win): Win {
    var w1 := w.(dirty := true);
    if w1.hasFrame then RequestRedraw(w1) else w1
  }

  function OnFrame(w: Win): Win {
    var w1 := w.(hasFrame := true);
    if w1.dirty then RequestRedraw(w1) else w1
  }

  // ----- What holds of timers -----

  predicate FrameTimersOk(list: seq<Timer<Event>>) {
    forall i :: 0 <= i < |list| && list[i].id.topic == Frame ==>
      list[i].event == Event(Some(list[i].id.window), FrameReady) && list[i].interval == None
  }

  /** Except for frames, there is at most one timer for a topic and a window. */
  ghost predicate AtMostOne(list: seq<Timer<Event>>) {
    forall id: TimerId :: id.topic != Frame ==> Count(list, id) <= 1
  }

  ghost predicate TimersOk(list: seq<Timer<Event>>) {
    WellFormed(list) && FrameTimersOk(list) && AtMostOne(list)
  }

  /** Blinking that has timed out has no timer left, and the cursor is shown. */
  predicate BlinkOk(w: Win, list: seq<Timer<Event>>, id: nat) {
    w.timedOut ==> !w.cursorHidden && Count(list, TimerId(BlinkCursor, id)) == 0
  }

  /** Only timers of one window, and none of its frame timers, were touched. */
  ghost predicate OthersSame(a: seq<Timer<Event>>, b: seq<Timer<Event>>, window: nat) {
    forall id: TimerId :: id.window != window || id.topic == Frame ==> Count(a, id) == Count(b, id)
  }

  /** One `unschedule` cancels such a topic completely. */
  lemma CancelOk(ts: Timers, id: TimerId)
    requires TimersOk(ts.list) && id.topic != Frame
    ensures TimersOk(Cancel(ts, id).list)
    ensures forall other: TimerId ::
              Count(Cancel(ts, id).list, other) == if other == id then 0 else Count(ts.list, other)
  {
    var less := Remove(ts.list, id);
    RemoveWellFormed(ts.list, id);
    RemoveMembers(ts.list, id);
    assert Count(ts.list, id) <= 1;
    forall other: TimerId
      ensures Count(less, other) == if other == id then 0 else Count(ts.list, other)
    {
      CountRemove(ts.list, id, other);
    }
  }

  lemma AddCount(ts: Timers, event: Event, interval: nat, repeat: bool, id: TimerId)
    ensures forall other: TimerId ::
              Count(Add(ts, event, interval, repeat, id).list, other)
              == Count(ts.list, other) + if other == id then 1 else 0
  {
    forall other: TimerId
      ensures Count(Add(ts, event, interval, repeat, id).list, other)
           == Count(ts.list, other) + if other == id then 1 else 0
    {
      CountInsert(ts.list, Timer(ts.clock(ts.tick) + interval, event, id,
                                 if repeat then Some(interval) else None), other);
    }
  }

  lemma AddOk(ts: Timers, event: Event, interval: nat, repeat: bool, id: TimerId)
    requires TimersOk(ts.list) && (repeat ==> interval > 0)
    requires if id.topic == Frame then event == Event(Some(id.window), FrameReady) && !repeat
             else Count(ts.list, id) == 0
    ensures TimersOk(Add(ts, event, interval, repeat, id).list)
    ensures forall other: TimerId ::
              Count(Add(ts, event, interval, repeat, id).list, other)
              == Count(ts.list, other) + if other == id then 1 else 0
  {
    var timer := Timer(ts.clock(ts.tick) + interval, event, id,
                       if repeat then Some(interval) else None);
    InsertWellFormed(ts.list, timer);
    InsertFrameTimersOk(ts.list, timer);
    AddCount(ts, event, interval, repeat, id);
  }

  lemma InsertFrameTimersOk(list: seq<Timer<Event>>, timer: Timer<Event>)
    requires FrameTimersOk(list)
    requires timer.id.topic == Frame ==>
               timer.event == Event(Some(timer.id.window), FrameReady) && timer.interval == None
    ensures FrameTimersOk(Insert(list, timer))
  {
    InsertMembers(list, timer);
  }

  /** The handlers keep the timer discipline and touch nothing that redraws depend on. */
  ghost predicate HandlerOk(w: Win, ts: Timers, id: nat, w': Win, ts': Timers) {
    && TimersOk(ts'.list) && BlinkOk(w', ts'.list, id) && OthersSame(ts.list, ts'.list, id)
    && w'.hasFrame == w.hasFrame && w'.requested == w.requested && w'.osRedraw == w.osRedraw
    && w'.queue == w.queue
  }

  lemma ScheduleBlinkingOk(w: Win, ts: Timers, id: nat)
    requires TimersOk(ts.list) && Count(ts.list, TimerId(BlinkCursor, id)) == 0
    ensures TimersOk(ScheduleBlinking(w, ts, id).list)
    ensures OthersSame(ts.list, ScheduleBlinking(w, ts, id).list, id)
    ensures Count(ScheduleBlinking(w, ts, id).list, TimerId(BlinkTimeout, id))
         == Count(ts.list, TimerId(BlinkTimeout, id))
  {
    AddOk(ts, Event(Some(id), BlinkTick), Max(w.blinkInterval, MIN_BLINK_INTERVAL) * MILLISECOND,
          true, TimerId(BlinkCursor, id));
  }

  lemma UpdateCursorBlinkingOk(w: Win, ts: Timers, id: nat, blinking: bool)
    requires TimersOk(ts.list)
    ensures var (w', ts') := UpdateCursorBlinking(w, ts, id, blinking);
            HandlerOk(w, ts, id, w', ts')
  {
    var ts0 := Cancel(ts, TimerId(BlinkCursor, id));
    var ts1 := Cancel(ts0, TimerId(BlinkTimeout, id));
    CancelOk(ts, TimerId(BlinkCursor, id));
    CancelOk(ts0, TimerId(BlinkTimeout, id));
    assert OthersSame(ts.list, ts1.list, id);
    if blinking {
      StartBlinkingOk(w, ts1, id);
    }
  }

  lemma StartBlinkingOk(w: Win, ts: Timers, id: nat)
    requires TimersOk(ts.list)
    requires Count(ts.list, TimerId(BlinkCursor, id)) == Count(ts.list, TimerId(BlinkTimeout, id)) == 0
    ensures var ts' := ScheduleBlinkingTimeout(w, ScheduleBlinking(w, ts, id), id);
            TimersOk(ts'.list) && OthersSame(ts.list, ts'.list, id)
  {
    ScheduleBlinkingOk(w, ts, id);
    if w.blinkTimeout != 0 {
      AddOk(ScheduleBlinking(w, ts, id), Event(Some(id), BlinkTimedOut), w.blinkTimeout, false,
            TimerId(BlinkTimeout, id));
    }
  }

  lemma OnTypingStartOk(w: Win, ts: Timers, id: nat, blinking: bool, hidesMouse: bool)
    requires TimersOk(ts.list) && BlinkOk(w, ts.list, id)
    ensures var (w', ts') := OnTypingStart(w, ts, id, blinking, hidesMouse);
            HandlerOk(w, ts, id, w', ts')
  {
    if IsScheduled(ts, TimerId(BlinkCursor, id)) {
      CancelOk(ts, TimerId(BlinkCursor, id));
      ScheduleBlinkingOk(w, Cancel(ts, TimerId(BlinkCursor, id)), id);
    } else if w.timedOut {
      UpdateCursorBlinkingOk(w, ts, id, blinking);
    }
  }

  /** Cancelling a topic other than blinking, or starting it once when it has no timer. */
  lemma ReplaceOk(w: Win, ts: Timers, event: Event, interval: nat, repeat: bool, timer: TimerId)
    requires TimersOk(ts.list) && BlinkOk(w, ts.list, timer.window)
    requires timer.topic == DelayedSearch || timer.topic == SelectionScrolling
    requires repeat ==> interval > 0
    ensures HandlerOk(w, ts, timer.window, w, Cancel(ts, timer))
    ensures HandlerOk(w, ts, timer.window, w, Add(Cancel(ts, timer), event, interval, repeat, timer))
    ensures !IsScheduled(ts, timer) ==>
              HandlerOk(w, ts, timer.window, w, Add(ts, event, interval, repeat, timer))
  {
    CancelOk(ts, timer);
    AddOk(Cancel(ts, timer), event, interval, repeat, timer);
    if !IsScheduled(ts, timer) {
      AddOk(ts, event, interval, repeat, timer);
    }
  }

  lemma SearchOk(w: Win, ts: Timers, id: nat, outcome: SearchOutcome)
    requires TimersOk(ts.list) && BlinkOk(w, ts.list, id)
    ensures var (w', ts') := OnGotoMatch(w, ts, id, outcome); HandlerOk(w, ts, id, w', ts')
  {
    ReplaceOk(w, ts, Event(Some(id), SearchNext), TYPING_SEARCH_DELAY, false,
              TimerId(DelayedSearch, id));
  }

  lemma SearchDelayOk(w: Win, ts: Timers, id: nat, searching: bool)
    requires TimersOk(ts.list) && BlinkOk(w, ts.list, id)
    ensures var (w', ts') := Handle(w, ts, id, ResetSearchDelay(searching));
            HandlerOk(w, ts, id, w', ts')
  {
    var timer := TimerId(DelayedSearch, id);
    if searching && IsScheduled(ts, timer) {
      ReplaceOk(w, ts, Find(ts.list, timer).value.event, TYPING_SEARCH_DELAY, false, timer);
    }
  }

  lemma HandleOk(w: Win, ts: Timers, id: nat, input: Input)
    requires TimersOk(ts.list) && BlinkOk(w, ts.list, id)
    ensures var (w', ts') := Handle(w, ts, id, input); HandlerOk(w, ts, id, w', ts')
  {
    match input {
      case StopBlinking => CancelOk(ts, TimerId(BlinkCursor, id));
      case UpdateBlinking(blinking) => UpdateCursorBlinkingOk(w, ts, id, blinking);
      case StartTyping(blinking, hidesMouse) => OnTypingStartOk(w, ts, id, blinking, hidesMouse);
      case GotoMatch(outcome) => SearchOk(w, ts, id, outcome);
      case ResetSearch => SearchOk(w, ts, id, Settled);
      case ResetSearchDelay(searching) => SearchDelayOk(w, ts, id, searching);
      case ScrollSelection(_) =>
        ReplaceOk(w, ts, Event(Some(id), ScrollTick), SELECTION_SCROLLING_INTERVAL, true,
                  TimerId(SelectionScrolling, id));
      case _ =>
    }
  }

  lemma HandlerOkChain(w: Win, ts: Timers, id: nat, w1: Win, ts1: Timers, w2: Win, ts2: Timers)
    requires HandlerOk(w, ts, id, w1, ts1) && HandlerOk(w1, ts1, id, w2, ts2)
    ensures HandlerOk(w, ts, id, w2, ts2)
  {
  }

  lemma {:induction false} HandleAllOk(w: Win, ts: Timers, id: nat, inputs: seq<Input>, n: nat)
    requires TimersOk(ts.list) && BlinkOk(w, ts.list, id) && n <= |inputs|
    ensures HandlerOk(w, ts, id, HandleAll(w, ts, id, inputs, n).0, HandleAll(w, ts, id, inputs, n).1)
  {
    if n > 0 {
      HandleAllOk(w, ts, id, inputs, n - 1);
      var (w1, ts1) := HandleAll(w, ts, id, inputs, n - 1);
      HandleOk(w1, ts1, id, inputs[n - 1]);
      var (w2, ts2) := Handle(w1, ts1, id, inputs[n - 1]);
      HandlerOkChain(w, ts, id, w1, ts1, w2, ts2);
    }
  }

  // ----- What holds of a window between the events of a run -----

  function Push(w: Win, input: Input): Win {
    w.(queue := w.queue + [input])
  }

  /** A frame is on its way: its timer is running, or its event has not been delivered. */
  predicate FramePending(list: seq<Timer<Event>>, inbox: seq<Event>, id: nat) {
    Count(list, TimerId(Frame, id)) > 0 || Event(Some(id), FrameReady) in inbox
  }

  /** Nothing the window wants to draw has been forgotten, and its blink state is right. */
  predicate WinOk(w: Win, list: seq<Timer<Event>>, inbox: seq<Event>, id: nat) {
    && (!w.hasFrame ==> FramePending(list, inbox, id))
    && (w.requested ==> w.osRedraw)
    && (w.dirty && !w.occluded && w.queue == [] ==> w.requested || !w.hasFrame)
    && BlinkOk(w, list, id)
  }

  lemma {:induction false} HandleAllClock(w: Win, ts: Timers, id: nat, inputs: seq<Input>, n: nat)
    requires n <= |inputs|
    ensures HandleAll(w, ts, id, inputs, n).1.clock == ts.clock
  {
    if n > 0 {
      HandleAllClock(w, ts, id, inputs, n - 1);
    }
  }

  /** The end of the handler leaves frames, the cursor and the queue alone ... */
  lemma AfterQueueKeeps(w: Win, isRedraw: bool, highlights: bool)
    ensures var w' := AfterQueue(w, isRedraw, highlights);
            && w'.queue == w.queue && w'.hasFrame == w.hasFrame
            && w'.timedOut == w.timedOut && w'.cursorHidden == w.cursorHidden
  {
  }

  /** ... and requests what it has to. */
  lemma AfterQueueRequests(w: Win, isRedraw: bool, highlights: bool)
    ensures var w' := AfterQueue(w, isRedraw, highlights);
            !isRedraw && w'.dirty && !w'.occluded ==> w'.requested || !w'.hasFrame
  {
  }

  lemma AfterQueueAsks(w: Win, isRedraw: bool, highlights: bool)
    requires w.requested ==> w.osRedraw
    ensures var w' := AfterQueue(w, isRedraw, highlights); w'.requested ==> w'.osRedraw
  {
  }

  /** After its queue has been handled, a window waits for nothing but a redraw or a frame. */
  lemma HandleEventOk(w: Win, ts: Timers, inbox: seq<Event>, id: nat, isRedraw: bool, highlights: bool)
    requires TimersOk(ts.list) && BlinkOk(w, ts.list, id)
    requires !w.hasFrame ==> FramePending(ts.list, inbox, id)
    ensures var (w', ts') := HandleEvent(w, ts, id, isRedraw, highlights);
            && TimersOk(ts'.list) && ts'.clock == ts.clock && OthersSame(ts.list, ts'.list, id)
            && BlinkOk(w', ts'.list, id) && w'.queue == [] && w'.hasFrame == w.hasFrame
            && (!w'.hasFrame ==> FramePending(ts'.list, inbox, id))
            && (w.queue != [] && !isRedraw && w'.dirty && !w'.occluded ==> w'.requested || !w'.hasFrame)
            && ((w.requested ==> w.osRedraw) ==> (w'.requested ==> w'.osRedraw))
  {
    if w.queue != [] {
      HandleAllOk(w.(queue := []), ts, id, w.queue, |w.queue|);
      HandleAllClock(w.(queue := []), ts, id, w.queue, |w.queue|);
      var w1 := HandleAll(w.(queue := []), ts, id, w.queue, |w.queue|).0;
      AfterQueueKeeps(w1, isRedraw, highlights);
      AfterQueueRequests(w1, isRedraw, highlights);
      if w1.requested ==> w1.osRedraw {
        AfterQueueAsks(w1, isRedraw, highlights);
      }
    }
  }

  lemma DrawOk(w: Win, ts: Timers, inbox: seq<Event>, id: nat, bellDone: bool, timeout: nat)
    requires TimersOk(ts.list) && BlinkOk(w, ts.list, id) && w.queue == []
    requires !w.hasFrame ==> FramePending(ts.list, inbox, id)
    ensures var (w', ts') := Draw(w, ts, id, bellDone, timeout);
            && TimersOk(ts'.list) && ts'.clock == ts.clock && WinOk(w', ts'.list, inbox, id)
            && forall k: TimerId :: k.window != id ==> Count(ts.list, k) == Count(ts'.list, k)
  {
    if !w.occluded {
      AddOk(ts, Event(Some(id), FrameReady), timeout, false, TimerId(Frame, id));
    }
  }

  /** A window to which the delivered event says nothing, or something other than a frame. */
  lemma OtherEventOk(w: Win, list: seq<Timer<Event>>, inbox: seq<Event>, id: nat)
    requires inbox != [] && WinOk(w, list, inbox, id) && inbox[0] != Event(Some(id), FrameReady)
    ensures WinOk(w, list, inbox[1..], id)
    ensures WinOk(OnWakeup(w), list, inbox[1..], id)
    ensures forall input :: WinOk(Push(w, input), list, inbox[1..], id)
  {
    assert inbox == [inbox[0]] + inbox[1..];
  }

  /** A window that gets its frame event waits for no other one. */
  lemma FrameEventOk(w: Win, list: seq<Timer<Event>>, inbox: seq<Event>, id: nat)
    requires inbox != [] && WinOk(w, list, inbox, id)
    ensures WinOk(OnFrame(w), list, inbox[1..], id)
  {
  }

  /** Whether the window is hidden after the first n inputs. */
  function OccludedAfter(occluded: bool, inputs: seq<Input>, n: nat): bool
    requires n <= |inputs|
  {
    if n == 0 then occluded
    else if inputs[n - 1].SetOccluded? then inputs[n - 1].occluded
    else OccludedAfter(occluded, inputs, n - 1)
  }

  /** Only occlusion events hide or show a window, and no event makes it clean. */
  lemma {:induction false} HandleAllVisibility(w: Win, ts: Timers, id: nat, inputs: seq<Input>, n: nat)
    requires n <= |inputs|
    ensures var w' := HandleAll(w, ts, id, inputs, n).0;
            w'.occluded == OccludedAfter(w.occluded, inputs, n) && (w.dirty ==> w'.dirty)
  {
    if n > 0 {
      HandleAllVisibility(w, ts, id, inputs, n - 1);
      var (w1, ts1) := HandleAll(w, ts, id, inputs, n - 1);
      HandleVisibility(w1, ts1, id, inputs[n - 1]);
    }
  }

  /** The second state is as visible as the first, and as dirty or dirtier. */
  predicate KeepsVisibility(w: Win, w': Win) {
    w'.occluded == w.occluded && (w.dirty ==> w'.dirty)
  }

  lemma HandleVisibility(w: Win, ts: Timers, id: nat, input: Input)
    ensures var w' := Handle(w, ts, id, input).0;
            if input.SetOccluded? then w' == w.(occluded := input.occluded) else KeepsVisibility(w, w')
  {
    match input {
      case UpdateBlinking(blinking) => BlinkingVisibility(w, ts, id, blinking);
      case StartTyping(blinking, hidesMouse) => TypingVisibility(w, ts, id, blinking, hidesMouse);
      case GotoMatch(outcome) => SearchVisibility(w, ts, id, outcome);
      case Plain(dirty, update, highlight) => PlainVisibility(w, ts, id, dirty, update, highlight);
      case ResetSearchDelay(_) => assert Handle(w, ts, id, input).0 == w;
      case ScrollSelection(_) => assert Handle(w, ts, id, input).0 == w;
      case _ =>
    }
  }

  lemma PlainVisibility(w: Win, ts: Timers, id: nat, dirty: bool, update: bool, highlight: bool)
    ensures KeepsVisibility(w, Handle(w, ts, id, Plain(dirty, update, highlight)).0)
  {
  }

  lemma BlinkingVisibility(w: Win, ts: Timers, id: nat, blinking: bool)
    ensures KeepsVisibility(w, UpdateCursorBlinking(w, ts, id, blinking).0)
  {
  }

  lemma SearchVisibility(w: Win, ts: Timers, id: nat, outcome: SearchOutcome)
    ensures KeepsVisibility(w, OnGotoMatch(w, ts, id, outcome).0)
  {
  }

  lemma PauseVisibility(w: Win, ts: Timers, id: nat, blinking: bool)
    ensures KeepsVisibility(w, PauseBlinking(w, ts, id, blinking).0)
  {
    BlinkingVisibility(w, ts, id, blinking);
  }

  lemma TypingVisibility(w: Win, ts: Timers, id: nat, blinking: bool, hidesMouse: bool)
    ensures KeepsVisibility(w, OnTypingStart(w, ts, id, blinking, hidesMouse).0)
  {
    PauseVisibility(w, ts, id, blinking);
  }

  lemma AfterQueueVisibility(w: Win, isRedraw: bool, highlights: bool)
    ensures var w' := AfterQueue(w, isRedraw, highlights);
            w'.occluded == w.occluded && (w.dirty ==> w'.dirty)
  {
  }

  lemma HandleEventVisibility(w: Win, ts: Timers, id: nat, isRedraw: bool, highlights: bool)
    ensures var w' := HandleEvent(w, ts, id, isRedraw, highlights).0;
            && w'.occluded == OccludedAfter(w.occluded, w.queue, |w.queue|)
            && (w.dirty ==> w'.dirty)
  {
    if w.queue != [] {
      HandleAllVisibility(w.(queue := []), ts, id, w.queue, |w.queue|);
      AfterQueueVisibility(HandleAll(w.(queue := []), ts, id, w.queue, |w.queue|).0, isRedraw, highlights);
    }
  }

  /** What drawing does to the window, and that only a visible one asks for a frame. */
  lemma DrawEffect(w: Win, ts: Timers, id: nat, bellDone: bool, timeout: nat)
    ensures var (w', ts') := Draw(w, ts, id, bellDone, timeout);
            var frames := Count(ts'.list, TimerId(Frame, id)) - Count(ts.list, TimerId(Frame, id));
            && w'.queue == w.queue && w'.occluded == w.occluded
            && (if w.occluded then
                  frames == 0 && w'.hasFrame == w.hasFrame && w'.dirty == w.dirty
                else
                  && frames == 1 && !w'.hasFrame
                  && (w'.dirty <==> !bellDone && !w.hasFrame)
                  && (w'.requested <==> !bellDone && w.hasFrame))
  {
    AddCount(ts, Event(Some(id), FrameReady), timeout, false, TimerId(Frame, id));
  }

  /** A redraw, before and after: what happened to the window and to its frame timers. */
  predicate DrawsOnce(w: Win, list: seq<Timer<Event>>, id: nat, bellDone: bool,
                      w': Win, list': seq<Timer<Event>>)
  {
    var frames := Count(list', TimerId(Frame, id)) - Count(list, TimerId(Frame, id));
    && w'.queue == [] && w'.occluded == OccludedAfter(w.occluded, w.queue, |w.queue|)
    && (w'.occluded ==> frames == 0 && w'.hasFrame == w.hasFrame && (w.dirty ==> w'.dirty))
    && (!w'.occluded ==>
          && frames == 1 && !w'.hasFrame
          && (w'.dirty <==> !bellDone && !w.hasFrame)
          && (w'.requested <==> !bellDone && w.hasFrame))
  }

  lemma OnRedrawRequestedEffect(w: Win, ts: Timers, inbox: seq<Event>, id: nat, highlights: bool,
                                bellDone: bool, timeout: nat)
    requires TimersOk(ts.list) && WinOk(w, ts.list, inbox, id)
    ensures var (w', ts') := OnRedrawRequested(w, ts, id, highlights, bellDone, timeout);
            DrawsOnce(w, ts.list, id, bellDone, w', ts'.list)
  {
    var w0 := w.(osRedraw := false);
    HandleEventOk(w0, ts, inbox, id, true, highlights);
    HandleEventVisibility(w0, ts, id, true, highlights);
    var (w1, ts1) := HandleEvent(w0, ts, id, true, highlights);
    assert Count(ts1.list, TimerId(Frame, id)) == Count(ts.list, TimerId(Frame, id));
    DrawEffect(w1, ts1, id, bellDone, timeout);
  }
}
