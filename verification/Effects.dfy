/**
 What each handler and each event of the event loop does, spelled out: which timer it leaves, when
 that is due and what it sends, and which flags of which window change.
 */
module Effects {
  import opened Arithmetic
  import opened Content
  import opened Scheduler
  import opened Redraw
  import opened Processor

  // ----- Timers -----

  /** Starting a timer where there is none: it is the one that is found, and others stay. */
  lemma Started(ts: Timers, event: Event, interval: nat, repeat: bool, k: TimerId, other: TimerId)
    requires Count(ts.list, k) == 0
    ensures var ts' := Add(ts, event, interval, repeat, k);
            && Find(ts'.list, k) == Some(Timer(ts.clock(ts.tick) + interval, event, k,
                                               if repeat then Some(interval) else None))
            && (other != k ==> Find(ts'.list, other) == Find(ts.list, other))
            && ts'.clock == ts.clock && ts'.tick == ts.tick + 1
  {
    var timer := Timer(ts.clock(ts.tick) + interval, event, k, if repeat then Some(interval) else None);
    FindInsert(ts.list, timer, k);
    if other != k {
      FindInsert(ts.list, timer, other);
    }
  }

  lemma Stopped(ts: Timers, k: TimerId, other: TimerId)
    requires TimersOk(ts.list) && k.topic != Frame
    ensures var ts' := Cancel(ts, k);
            && TimersOk(ts'.list) && Find(ts'.list, k) == None && Count(ts'.list, k) == 0
            && (other != k ==> Find(ts'.list, other) == Find(ts.list, other))
            && ts'.clock == ts.clock && ts'.tick == ts.tick
  {
    CancelOk(ts, k);
    if other != k {
      FindRemove(ts.list, k, other);
    }
  }

  /** Stopping a timer and starting it anew. */
  lemma Restarted(ts: Timers, event: Event, interval: nat, repeat: bool, k: TimerId, other: TimerId)
    requires TimersOk(ts.list) && k.topic != Frame
    ensures var ts' := Add(Cancel(ts, k), event, interval, repeat, k);
            && Find(ts'.list, k) == Some(Timer(ts.clock(ts.tick) + interval, event, k,
                                               if repeat then Some(interval) else None))
            && (other != k ==> Find(ts'.list, other) == Find(ts.list, other))
  {
    Stopped(ts, k, other);
    Started(Cancel(ts, k), event, interval, repeat, k, other);
  }

  // ----- Blinking -----

  /** The blink timer of a window, started at a reading of the clock; it never ticks too fast. */
  function BlinkTimer(w: Win, id: nat, now: int): Timer<Event> {
    var interval := (if w.blinkInterval < 10 then 10 else w.blinkInterval) * 1_000_000;
    Timer(now + interval, Event(Some(id), BlinkTick), TimerId(BlinkCursor, id), Some(interval))
  }

  /** Each tick hides a shown cursor or shows a hidden one, until blinking has timed out. */
  lemma TickToggles(w: Win, ts: Timers, id: nat)
    ensures var (w', ts') := Handle(w, ts, id, ToggleCursor);
            && ts' == ts
            && if w.timedOut then w' == w
               else w' == w.(cursorHidden := w'.cursorHidden, dirty := true)
                    && w'.cursorHidden != w.cursorHidden
  {
  }

  lemma TimeoutStops(w: Win, ts: Timers, id: nat)
    requires TimersOk(ts.list)
    ensures var (w', ts') := Handle(w, ts, id, StopBlinking);
            && w' == w.(timedOut := true, cursorHidden := false, dirty := true)
            && Find(ts'.list, TimerId(BlinkCursor, id)) == None
            && Find(ts'.list, TimerId(BlinkTimeout, id)) == Find(ts.list, TimerId(BlinkTimeout, id))
  {
    Stopped(ts, TimerId(BlinkCursor, id), TimerId(BlinkTimeout, id));
  }

  lemma BlinkIsScheduled(w: Win, ts: Timers, id: nat, other: TimerId)
    requires Count(ts.list, TimerId(BlinkCursor, id)) == 0
    ensures var ts' := ScheduleBlinking(w, ts, id);
            && Find(ts'.list, TimerId(BlinkCursor, id)) == Some(BlinkTimer(w, id, ts.clock(ts.tick)))
            && (other != TimerId(BlinkCursor, id) ==> Find(ts'.list, other) == Find(ts.list, other))
            && ts'.clock == ts.clock && ts'.tick == ts.tick + 1
  {
    Started(ts, Event(Some(id), BlinkTick), Max(w.blinkInterval, MIN_BLINK_INTERVAL) * MILLISECOND, true,
            TimerId(BlinkCursor, id), other);
  }

  /** A timeout of zero disables it. */
  lemma TimeoutIsScheduled(w: Win, ts: Timers, id: nat, other: TimerId)
    requires Count(ts.list, TimerId(BlinkTimeout, id)) == 0
    ensures var ts' := ScheduleBlinkingTimeout(w, ts, id);
            && Find(ts'.list, TimerId(BlinkTimeout, id))
               == (if w.blinkTimeout == 0 then None
                   else Some(Timer(ts.clock(ts.tick) + w.blinkTimeout, Event(Some(id), BlinkTimedOut),
                                   TimerId(BlinkTimeout, id), None)))
            && (other != TimerId(BlinkTimeout, id) ==> Find(ts'.list, other) == Find(ts.list, other))
  {
    if w.blinkTimeout != 0 {
      Started(ts, Event(Some(id), BlinkTimedOut), w.blinkTimeout, false, TimerId(BlinkTimeout, id), other);
    }
  }

  lemma BlinkTimersStopped(ts: Timers, id: nat) returns (ts': Timers)
    requires TimersOk(ts.list)
    ensures ts' == Cancel(Cancel(ts, TimerId(BlinkCursor, id)), TimerId(BlinkTimeout, id))
    ensures Count(ts'.list, TimerId(BlinkCursor, id)) == Count(ts'.list, TimerId(BlinkTimeout, id)) == 0
    ensures ts'.clock == ts.clock && ts'.tick == ts.tick
  {
    var blink, timeout := TimerId(BlinkCursor, id), TimerId(BlinkTimeout, id);
    Stopped(ts, blink, timeout);
    Stopped(Cancel(ts, blink), timeout, blink);
    ts' := Cancel(Cancel(ts, blink), timeout);
  }

  /** Blinking starts afresh, with a timeout unless that is disabled. */
  lemma BlinkingStarts(w: Win, ts: Timers, id: nat)
    requires TimersOk(ts.list)
    ensures Handle(w, ts, id, UpdateBlinking(true)).0 == w.(timedOut := false)
    ensures var ts' := Handle(w, ts, id, UpdateBlinking(true)).1;
            && Find(ts'.list, TimerId(BlinkCursor, id)) == Some(BlinkTimer(w, id, ts.clock(ts.tick)))
            && Find(ts'.list, TimerId(BlinkTimeout, id))
               == if w.blinkTimeout == 0 then None
                  else Some(Timer(ts.clock(ts.tick + 1) + w.blinkTimeout, Event(Some(id), BlinkTimedOut),
                                  TimerId(BlinkTimeout, id), None))
  {
    var stopped := BlinkTimersStopped(ts, id);
    BlinkIsScheduled(w, stopped, id, TimerId(BlinkTimeout, id));
    TimeoutIsScheduled(w, ScheduleBlinking(w, stopped, id), id, TimerId(BlinkCursor, id));
  }

  lemma BlinkingEnds(w: Win, ts: Timers, id: nat)
    requires TimersOk(ts.list)
    ensures var (w', ts') := Handle(w, ts, id, UpdateBlinking(false));
            && w' == w.(timedOut := false, cursorHidden := false, dirty := true)
            && Find(ts'.list, TimerId(BlinkCursor, id)) == None
            && Find(ts'.list, TimerId(BlinkTimeout, id)) == None
  {
    var stopped := BlinkTimersStopped(ts, id);
  }

  /** Typing shows a cursor that blinks, and its timer starts anew. */
  lemma TypingShowsCursor(w: Win, ts: Timers, id: nat, blinking: bool, hidesMouse: bool)
    requires TimersOk(ts.list) && Find(ts.list, TimerId(BlinkCursor, id)).Some?
    ensures Handle(w, ts, id, StartTyping(blinking, hidesMouse)).0
         == w.(cursorHidden := false, dirty := w.dirty || w.cursorHidden,
               highlightDirty := w.highlightDirty || hidesMouse)
    ensures Find(Handle(w, ts, id, StartTyping(blinking, hidesMouse)).1.list, TimerId(BlinkCursor, id))
         == Some(BlinkTimer(w, id, ts.clock(ts.tick)))
  {
    var blink := TimerId(BlinkCursor, id);
    Stopped(ts, blink, blink);
    BlinkIsScheduled(w, Cancel(ts, blink), id, blink);
  }

  /** Typing ends a timeout, so that blinking starts afresh, and otherwise leaves the timers alone. */
  lemma TypingEndsTimeout(w: Win, ts: Timers, id: nat, blinking: bool)
    requires Find(ts.list, TimerId(BlinkCursor, id)).None?
    ensures Handle(w, ts, id, StartTyping(blinking, false))
         == if w.timedOut then Handle(w, ts, id, UpdateBlinking(blinking)) else (w, ts)
  {
    assert !IsScheduled(ts, TimerId(BlinkCursor, id));
  }

  /** Hiding the mouse makes the highlight of hints stale, and that is all it does. */
  lemma TypingHidesMouse(w: Win, ts: Timers, id: nat, blinking: bool)
    ensures Handle(w, ts, id, StartTyping(blinking, true)).0
         == Handle(w, ts, id, StartTyping(blinking, false)).0.(highlightDirty := true)
    ensures Handle(w, ts, id, StartTyping(blinking, true)).1
         == Handle(w, ts, id, StartTyping(blinking, false)).1
  {
  }

  // ----- Searching and scrolling -----

  /** A search that is settled needs no timer; one that hit its limit has one, started only once. */
  lemma SearchSchedulesOnce(w: Win, ts: Timers, id: nat, outcome: SearchOutcome)
    requires TimersOk(ts.list)
    ensures var (w', ts') := Handle(w, ts, id, GotoMatch(outcome));
            var (found, found') := (Find(ts.list, TimerId(DelayedSearch, id)),
                                    Find(ts'.list, TimerId(DelayedSearch, id)));
            match outcome
            case NoSearch => w' == w && ts' == ts
            case Settled => w' == w.(dirty := true) && found' == None
            case LimitReached =>
              && w' == w.(dirty := true)
              && found' == if found.Some? then found
                           else Some(Timer(ts.clock(ts.tick) + 500_000_000, Event(Some(id), SearchNext),
                                           TimerId(DelayedSearch, id), None))
  {
    var k := TimerId(DelayedSearch, id);
    match outcome
    case NoSearch =>
    case Settled => Stopped(ts, k, k);
    case LimitReached =>
      if !IsScheduled(ts, k) {
        Started(ts, Event(Some(id), SearchNext), TYPING_SEARCH_DELAY, false, k, k);
      }
  }

  lemma SearchResets(w: Win, ts: Timers, id: nat, searching: bool)
    requires TimersOk(ts.list)
    ensures var k := TimerId(DelayedSearch, id);
            var (reset, delayed) := (Handle(w, ts, id, ResetSearch),
                                     Handle(w, ts, id, ResetSearchDelay(searching)));
            && reset.0 == delayed.0 == w && Find(reset.1.list, k) == None
            && Find(delayed.1.list, k)
               == if searching && Find(ts.list, k).Some? then
                    Some(Timer(ts.clock(ts.tick) + 500_000_000, Find(ts.list, k).value.event, k, None))
                  else Find(ts.list, k)
  {
    var k := TimerId(DelayedSearch, id);
    Stopped(ts, k, k);
    if searching && IsScheduled(ts, k) {
      Restarted(ts, Find(ts.list, k).value.event, TYPING_SEARCH_DELAY, false, k, k);
    }
  }

  lemma ScrollingRepeats(w: Win, ts: Timers, id: nat, scrolling: bool)
    requires TimersOk(ts.list)
    ensures var (w', ts') := Handle(w, ts, id, ScrollSelection(scrolling));
            && w' == w
            && Find(ts'.list, TimerId(SelectionScrolling, id))
               == if scrolling then
                    Some(Timer(ts.clock(ts.tick) + 15_000_000, Event(Some(id), ScrollTick),
                               TimerId(SelectionScrolling, id), Some(15_000_000)))
                  else None
  {
    var k := TimerId(SelectionScrolling, id);
    Stopped(ts, k, k);
    if scrolling {
      Restarted(ts, Event(Some(id), ScrollTick), SELECTION_SCROLLING_INTERVAL, true, k, k);
    }
  }

  // ----- Queues and redraws -----

  lemma FlagsAreSet(w: Win, ts: Timers, id: nat, occluded: bool, dirty: bool, update: bool, highlight: bool)
    ensures Handle(w, ts, id, SetOccluded(occluded)) == (w.(occluded := occluded), ts)
    ensures Handle(w, ts, id, Plain(dirty, update, highlight))
         == (w.(dirty := dirty || w.dirty, pendingUpdate := update || w.pendingUpdate,
                highlightDirty := highlight || w.highlightDirty), ts)
  {
  }

  /** A queue is handled from its front, every event once. */
  lemma {:induction false} QueueFromFront(w: Win, ts: Timers, id: nat, inputs: seq<Input>, n: nat)
    requires n < |inputs|
    ensures HandleAll(w, ts, id, inputs, 0) == (w, ts)
    ensures var (w1, ts1) := Handle(w, ts, id, inputs[0]);
            HandleAll(w, ts, id, inputs, n + 1) == HandleAll(w1, ts1, id, inputs[1..], n)
  {
    if n > 0 {
      QueueFromFront(w, ts, id, inputs, n - 1);
      assert inputs[1..][n - 1] == inputs[n];
    } else {
      assert HandleAll(w, ts, id, inputs, 0) == (w, ts);
    }
  }

  /** Without queued events nothing happens, not even a request; otherwise the queue is used up. */
  lemma EmptyQueueIsLeft(w: Win, ts: Timers, id: nat, isRedraw: bool, highlights: bool)
    requires TimersOk(ts.list) && BlinkOk(w, ts.list, id)
    ensures w.queue == [] ==> HandleEvent(w, ts, id, isRedraw, highlights) == (w, ts)
    ensures HandleEvent(w, ts, id, isRedraw, highlights).0.queue == []
  {
    if w.queue != [] {
      HandleAllOk(w.(queue := []), ts, id, w.queue, |w.queue|);
    }
  }

  lemma RequestIsMadeOnce(w: Win)
    requires w.hasFrame
    ensures RequestRedraw(w) == w.(requested := true, osRedraw := w.osRedraw || !w.requested)
  {
  }

  /** When a queue has been handled, an update makes the window dirty, and so may a highlight. */
  lemma UpdatesMakeDirty(w: Win, isRedraw: bool, highlights: bool)
    ensures var w' := AfterQueue(w, isRedraw, highlights);
            && (w'.dirty <==> w.dirty || w.pendingUpdate || (w.highlightDirty && highlights))
            && !w'.pendingUpdate && !w'.highlightDirty
  {
  }

  /** A redraw is requested then for a dirty and visible window that has a frame, but not in a redraw. */
  lemma RequestedAfterQueue(w: Win, isRedraw: bool, highlights: bool)
    ensures var w' := AfterQueue(w, isRedraw, highlights);
            if w'.dirty && w.hasFrame && !w.occluded && !isRedraw
            then w'.requested && (w'.osRedraw <==> w.osRedraw || !w.requested)
            else w'.requested == w.requested && w'.osRedraw == w.osRedraw
  {
    if w.pendingUpdate || w.dirty {
    } else if w.highlightDirty {
    }
  }

  /** A drawing asks for one frame, after the timeout. */
  lemma DrawingAsksForFrame(w: Win, ts: Timers, id: nat, bellDone: bool, timeout: nat)
    ensures Draw(w, ts, id, bellDone, timeout).1.list
         == if w.occluded then ts.list
            else Insert(ts.list, Timer(ts.clock(ts.tick) + timeout, Event(Some(id), FrameReady),
                                       TimerId(Frame, id), None))
  {
  }

  lemma WakeupMakesDirty(w: Win)
    ensures OnWakeup(w)
         == w.(dirty := true, requested := w.requested || w.hasFrame,
               osRedraw := w.osRedraw || (w.hasFrame && !w.requested))
  {
  }

  lemma FrameArrives(w: Win)
    ensures OnFrame(w)
         == w.(hasFrame := true, requested := w.requested || w.dirty,
               osRedraw := w.osRedraw || (w.dirty && !w.requested))
  {
  }

  // ----- Events of the event loop -----

  /** Windows other than this one stay as they are. */
  ghost predicate OthersStay(g: Gui, g': Gui, id: nat) {
    forall k :: k != id ==> (k in g'.windows <==> k in g.windows)
                            && (k in g.windows ==> g'.windows[k] == g.windows[k])
  }

  /**
   The oldest event is taken from the inbox. One for a window wakes it up, brings its frame, closes it
   with all its timers unless it is held, or is queued; one for no window in particular is queued for
   every window, and one for a window that is gone does nothing.
   */
  lemma EventIsDelivered(g: Gui, meaning: nat -> Input, hold: bool)
    requires g.inbox != []
    ensures var g' := Apply(g, Deliver(meaning, hold));
            && g'.inbox == g.inbox[1..]
            && match g.inbox[0].window
               case None =>
                 && g'.ts == g.ts && g'.windows.Keys == g.windows.Keys
                 && forall k :: k in g.windows ==>
                      g'.windows[k] == g.windows[k].(queue := g.windows[k].queue + [meaning(k)])
               case Some(id) =>
                 && OthersStay(g, g', id)
                 && if id !in g.windows then id !in g'.windows && g'.ts == g.ts
                    else if g.inbox[0].payload.Exit? && !hold then
                      id !in g'.windows && g'.ts == g.ts.(list := DropWindow(g.ts.list, id))
                    else
                      && g'.ts == g.ts && id in g'.windows
                      && g'.windows[id] == DeliveredTo(g.windows[id], g.inbox[0].payload, meaning(id))
  {
  }

  function DeliveredTo(w: Win, payload: Payload, meaning: Input): Win {
    match payload
    case Wakeup => OnWakeup(w)
    case FrameReady => OnFrame(w)
    case Exit => w
    case _ => w.(queue := w.queue + [meaning])
  }

  /** Firing timers changes no window, and does to list and inbox what the scheduler does. */
  lemma TimersFire(g: Gui)
    ensures Fire(g).windows == g.windows
    ensures IsFired(g.ts.list, g.inbox, g.ts.clock, g.ts.tick, Fire(g).ts.list, Fire(g).inbox)
  {
    FiredAndPutBack(g.ts.list, g.inbox, g.ts.clock, g.ts.tick, Fire(g).ts.list, Fire(g).inbox);
  }

  /** A new window has a frame, nothing to draw and nothing to do. */
  lemma WindowOpens(g: Gui, id: nat, blinkInterval: nat, blinkTimeout: nat)
    requires id !in g.windows
    ensures var g' := Apply(g, Open(id, blinkInterval, blinkTimeout));
            && OthersStay(g, g', id) && g'.ts == g.ts && g'.inbox == g.inbox && id in g'.windows
            && var w := g'.windows[id];
               && w.hasFrame && !w.dirty && !w.occluded && !w.requested && !w.osRedraw && w.queue == []
               && !w.timedOut && !w.cursorHidden && !w.pendingUpdate && !w.highlightDirty
               && w.blinkInterval == blinkInterval && w.blinkTimeout == blinkTimeout
  {
  }

  /** Window events and configuration updates are queued; an update makes the window dirty at once. */
  lemma InputIsQueued(g: Gui, id: nat, input: Input, blinking: bool)
    requires id in g.windows
    ensures Apply(g, WindowEvent(id, input))
         == g.(windows := g.windows[id := g.windows[id].(queue := g.windows[id].queue + [input])])
    ensures Apply(g, UpdateConfig(id, blinking))
         == g.(windows := g.windows[id := g.windows[id].(queue := g.windows[id].queue
                                                                  + [UpdateBlinking(blinking)],
                                                         dirty := true)])
  {
  }
}
