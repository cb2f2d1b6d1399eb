/**
 One window's handlers, which update its flags and the shared scheduler in place.

 Each of them does what its function in Redraw.dfy says, and every entry of the event loop keeps the
 window valid: no redraw is lost, and the timers stay disciplined. `inbox` stands for the user events
 that the event loop has not delivered, oldest first.
 */
module WindowContext {
  import opened Arithmetic
  import opened Content
  import opened Scheduler
  import opened Redraw

  class WindowContext {
    const id: nat
    const scheduler: Scheduler<Event>
    const blinkInterval: nat
    const blinkTimeout: nat
    var dirty: bool
    var occluded: bool
    var hasFrame: bool
    var requestedRedraw: bool
    /** The window system owes the window a `RedrawRequested`. */
    var osRedraw: bool
    var pendingUpdate: bool
    var highlightDirty: bool
    var cursorBlinkTimedOut: bool
    var cursorHidden: bool
    var eventQueue: seq<Input>

    function View(): Win
      reads this
    {
      Win(dirty, occluded, hasFrame, requestedRedraw, osRedraw, pendingUpdate, highlightDirty,
          cursorBlinkTimedOut, cursorHidden, eventQueue, blinkInterval, blinkTimeout)
    }

    function Pending(): Timers
      reads scheduler
    {
      Timers(scheduler.timers, scheduler.clock, scheduler.tick)
    }

    /** The timers are disciplined, and the blink state fits them. */
    ghost predicate Steady()
      reads this, scheduler
    {
      && scheduler.Valid() && TimersOk(scheduler.timers)
      && BlinkOk(View(), scheduler.timers, id)
    }

    /** Besides, a window without a frame has one on its way. */
    ghost predicate Handling(inbox: seq<Event>)
      reads this, scheduler
    {
      Steady() && (!hasFrame ==> FramePending(scheduler.timers, inbox, id))
    }

    /** Besides, whatever the window has to draw has been asked for, or waits for the frame. */
    ghost predicate Valid(inbox: seq<Event>)
      reads this, scheduler
    {
      Handling(inbox) && WinOk(View(), scheduler.timers, inbox, id)
    }

    constructor (id: nat, scheduler: Scheduler<Event>, blinkInterval: nat, blinkTimeout: nat,
                 ghost inbox: seq<Event>)
      requires scheduler.Valid() && TimersOk(scheduler.timers)
      ensures Valid(inbox)
      ensures View() == NewWindow(blinkInterval, blinkTimeout)
      ensures this.id == id && this.scheduler == scheduler
    {
      this.id, this.scheduler := id, scheduler;
      this.blinkInterval, this.blinkTimeout := blinkInterval, blinkTimeout;
      dirty, occluded, hasFrame, requestedRedraw, osRedraw := false, false, true, false, false;
      pendingUpdate, highlightDirty := false, false;
      cursorBlinkTimedOut, cursorHidden, eventQueue := false, false, [];
    }

    /** Only ever called while the window has a frame. */
    method RequestRedraw()
      requires hasFrame
      modifies this`requestedRedraw, this`osRedraw
      ensures View() == Redraw.RequestRedraw(old(View()))
    {
      if !requestedRedraw {
        requestedRedraw := true;
        osRedraw := true;
      }
    }

    method CancelTimer(timer: TimerId)
      requires scheduler.Valid()
      modifies scheduler
      ensures scheduler.Valid() && Pending() == Cancel(old(Pending()), timer)
    {
      var _ := scheduler.Unschedule(timer);
    }

    method CancelIfScheduled(timer: TimerId) returns (scheduled: bool)
      requires scheduler.Valid()
      modifies scheduler
      ensures scheduler.Valid()
      ensures scheduled <==> IsScheduled(old(Pending()), timer)
      ensures Pending() == if scheduled then Cancel(old(Pending()), timer) else old(Pending())
    {
      var found := scheduler.Unschedule(timer);
      if found.None? {
        RemoveNothing(old(scheduler.timers), timer);
      }
      scheduled := found.Some?;
    }

    // ----- Blinking -----

    method ScheduleBlinking()
      requires scheduler.Valid()
      modifies scheduler
      ensures scheduler.Valid()
      ensures Pending() == Redraw.ScheduleBlinking(View(), old(Pending()), id)
    {
      var interval := Max(blinkInterval, MIN_BLINK_INTERVAL) * MILLISECOND;
      scheduler.Schedule(Event(Some(id), BlinkTick), interval, true, TimerId(BlinkCursor, id));
    }

    method ScheduleBlinkingTimeout()
      requires scheduler.Valid()
      modifies scheduler
      ensures scheduler.Valid()
      ensures Pending() == Redraw.ScheduleBlinkingTimeout(View(), old(Pending()), id)
    {
      if blinkTimeout == 0 {
        return;
      }
      scheduler.Schedule(Event(Some(id), BlinkTimedOut), blinkTimeout, false, TimerId(BlinkTimeout, id));
    }

    method UpdateCursorBlinking(blinking: bool)
      requires scheduler.Valid()
      modifies this, scheduler
      ensures scheduler.Valid()
      ensures (View(), Pending()) == Redraw.UpdateCursorBlinking(old(View()), old(Pending()), id, blinking)
    {
      CancelTimer(TimerId(BlinkCursor, id));
      CancelTimer(TimerId(BlinkTimeout, id));

      cursorBlinkTimedOut := false;

      if blinking {
        ScheduleBlinking();
        ScheduleBlinkingTimeout();
      } else {
        cursorHidden := false;
        dirty := true;
      }
    }

    method OnTypingStart(blinking: bool, hidesMouse: bool)
      requires scheduler.Valid()
      modifies this, scheduler
      ensures scheduler.Valid()
      ensures (View(), Pending())
           == Redraw.OnTypingStart(old(View()), old(Pending()), id, blinking, hidesMouse)
    {
      PauseBlinking(blinking);
      ghost var paused, pending := View(), Pending();
      if hidesMouse {
        highlightDirty := true;
      }
      assert View() == if hidesMouse then paused.(highlightDirty := true) else paused;
      assert Pending() == pending;
    }

    method PauseBlinking(blinking: bool)
      requires scheduler.Valid()
      modifies this, scheduler
      ensures scheduler.Valid()
      ensures (View(), Pending())
           == Redraw.PauseBlinking(old(View()), old(Pending()), id, blinking)
    {
      var blinks := CancelIfScheduled(TimerId(BlinkCursor, id));
      if blinks {
        ScheduleBlinking();
        if cursorHidden {
          dirty := true;
        }
        cursorHidden := false;
      } else if cursorBlinkTimedOut {
        UpdateCursorBlinking(blinking);
      }
    }

    // ----- Searching -----

    method GotoMatch(outcome: SearchOutcome)
      requires scheduler.Valid()
      modifies this, scheduler
      ensures scheduler.Valid()
      ensures (View(), Pending()) == Redraw.OnGotoMatch(old(View()), old(Pending()), id, outcome)
    {
      var timer := TimerId(DelayedSearch, id);
      match outcome {
        case NoSearch => return;
        case Settled =>
          CancelTimer(timer);
        case LimitReached =>
          var scheduled := scheduler.Scheduled(timer);
          if !scheduled {
            scheduler.Schedule(Event(Some(id), SearchNext), TYPING_SEARCH_DELAY, false, timer);
          }
      }
      dirty := true;
    }

    method ResetSearchDelay(searching: bool)
      requires scheduler.Valid()
      modifies scheduler
      ensures scheduler.Valid()
      ensures (View(), Pending())
           == Redraw.Handle(old(View()), old(Pending()), id, Redraw.ResetSearchDelay(searching))
    {
      if searching {
        var found := scheduler.Unschedule(TimerId(DelayedSearch, id));
        if found.Some? {
          scheduler.Schedule(found.value.event, TYPING_SEARCH_DELAY, false, found.value.id);
        } else {
          RemoveNothing(old(scheduler.timers), TimerId(DelayedSearch, id));
        }
      }
    }

    method UpdateSelectionScrolling(scrolling: bool)
      requires scheduler.Valid()
      modifies scheduler
      ensures scheduler.Valid()
      ensures (View(), Pending())
           == Redraw.Handle(old(View()), old(Pending()), id, ScrollSelection(scrolling))
    {
      var timer := TimerId(SelectionScrolling, id);
      CancelTimer(timer);
      if scrolling {
        scheduler.Schedule(Event(Some(id), ScrollTick), SELECTION_SCROLLING_INTERVAL, true, timer);
      }
    }

    // ----- Events -----

    method BlinkCursorEvent()
      modifies this
      ensures (View(), Pending()) == Redraw.Handle(old(View()), old(Pending()), id, ToggleCursor)
    {
      if !cursorBlinkTimedOut {
        cursorHidden := !cursorHidden;
        dirty := true;
      }
    }

    method BlinkCursorTimeoutEvent()
      requires scheduler.Valid()
      modifies this, scheduler
      ensures scheduler.Valid()
      ensures (View(), Pending()) == Redraw.Handle(old(View()), old(Pending()), id, StopBlinking)
    {
      CancelTimer(TimerId(BlinkCursor, id));
      cursorBlinkTimedOut := true;
      cursorHidden := false;
      dirty := true;
    }

    /** One queued input, which leaves frames, requests and other windows' timers alone. */
    method Process(input: Input)
      requires Steady()
      modifies this, scheduler
      ensures Steady() && HandlerOk(old(View()), old(Pending()), id, View(), Pending())
      ensures (View(), Pending()) == Redraw.Handle(old(View()), old(Pending()), id, input)
    {
      HandleOk(View(), Pending(), id, input);
      Dispatch(input);
    }

    method Dispatch(input: Input)
      requires scheduler.Valid()
      modifies this, scheduler
      ensures scheduler.Valid()
      ensures (View(), Pending()) == Redraw.Handle(old(View()), old(Pending()), id, input)
    {
      match input {
        case ToggleCursor => BlinkCursorEvent();
        case StopBlinking => BlinkCursorTimeoutEvent();
        case UpdateBlinking(blinking) => UpdateCursorBlinking(blinking);
        case StartTyping(blinking, hidesMouse) => OnTypingStart(blinking, hidesMouse);
        case GotoMatch(outcome) => GotoMatch(outcome);
        case ResetSearch => CancelTimer(TimerId(DelayedSearch, id));
        case ResetSearchDelay(searching) => ResetSearchDelay(searching);
        case ScrollSelection(scrolling) => UpdateSelectionScrolling(scrolling);
        case SetOccluded(hidden) => occluded := hidden;
        case Plain(dirties, update, highlight) => Mark(dirties, update, highlight);
      }
    }

    method Mark(dirties: bool, update: bool, highlight: bool)
      modifies this
      ensures (View(), Pending())
           == Redraw.Handle(old(View()), old(Pending()), id, Plain(dirties, update, highlight))
    {
      if dirties {
        dirty := true;
      }
      if update {
        pendingUpdate := true;
      }
      if highlight {
        highlightDirty := true;
      }
    }

    /** `handle_event` for all other events of the window. */
    method QueueEvent(input: Input, ghost inbox: seq<Event>)
      requires Valid(inbox)
      modifies this`eventQueue
      ensures Valid(inbox) && View() == Push(old(View()), input)
    {
      eventQueue := eventQueue + [input];
    }

    /** The end of `update_config`. */
    method UpdateConfig(blinking: bool, ghost inbox: seq<Event>)
      requires Valid(inbox)
      modifies this
      ensures Valid(inbox)
      ensures View() == Push(old(View()), UpdateBlinking(blinking)).(dirty := true)
    {
      eventQueue := eventQueue + [UpdateBlinking(blinking)];
      dirty := true;
    }

    /** `handle_event` for `AboutToWait` and `RedrawRequested`. */
    method HandleEvent(isRedraw: bool, highlights: bool, ghost inbox: seq<Event>)
      requires Handling(inbox)
      modifies this, scheduler
      ensures Handling(inbox) && eventQueue == []
      ensures old(Valid(inbox)) && !isRedraw ==> Valid(inbox)
      ensures OthersSame(old(scheduler.timers), scheduler.timers, id)
      ensures (View(), Pending())
           == Redraw.HandleEvent(old(View()), old(Pending()), id, isRedraw, highlights)
    {
      HandleEventOk(View(), Pending(), inbox, id, isRedraw, highlights);
      if eventQueue == [] {
        return;
      }
      ProcessQueue();
      AfterQueue(isRedraw, highlights);
    }

    method ProcessQueue()
      requires Steady()
      modifies this, scheduler
      ensures Steady()
      ensures (View(), Pending())
           == HandleAll(old(View()).(queue := []), old(Pending()), id, old(eventQueue), |old(eventQueue)|)
    {
      var inputs := eventQueue;
      eventQueue := [];
      ghost var w, ts := View(), Pending();
      for i := 0 to |inputs|
        invariant Steady() && (View(), Pending()) == HandleAll(w, ts, id, inputs, i)
      {
        ProcessNext(inputs[i], w, ts, inputs, i);
      }
    }

    method ProcessNext(input: Input, ghost w: Win, ghost ts: Timers, ghost inputs: seq<Input>, ghost i: nat)
      requires Steady() && i < |inputs| && inputs[i] == input
      requires (View(), Pending()) == HandleAll(w, ts, id, inputs, i)
      modifies this, scheduler
      ensures Steady() && (View(), Pending()) == HandleAll(w, ts, id, inputs, i + 1)
    {
      Process(input);
    }

    method AfterQueue(isRedraw: bool, highlights: bool)
      modifies this
      ensures View() == Redraw.AfterQueue(old(View()), isRedraw, highlights)
    {
      if pendingUpdate {
        pendingUpdate := false;
        dirty := true;
      }
      if dirty || highlightDirty {
        dirty := dirty || highlights;
        highlightDirty := false;
      }
      if dirty && hasFrame && !occluded && !isRedraw {
        RequestRedraw();
      }
    }

    method Draw(bellDone: bool, timeout: nat, ghost inbox: seq<Event>)
      requires Handling(inbox) && eventQueue == []
      modifies this, scheduler
      ensures Valid(inbox)
      ensures forall k: TimerId :: k.window != id ==>
                Count(scheduler.timers, k) == Count(old(scheduler.timers), k)
      ensures (View(), Pending()) == Redraw.Draw(old(View()), old(Pending()), id, bellDone, timeout)
    {
      DrawOk(View(), Pending(), inbox, id, bellDone, timeout);
      DrawVisible(bellDone, timeout);
    }

    method DrawVisible(bellDone: bool, timeout: nat)
      requires scheduler.Valid()
      modifies this, scheduler
      ensures scheduler.Valid()
      ensures (View(), Pending()) == Redraw.Draw(old(View()), old(Pending()), id, bellDone, timeout)
    {
      requestedRedraw := false;
      if occluded {
        return;
      }
      dirty := false;
      if !bellDone {
        if hasFrame {
          RequestRedraw();
        } else {
          dirty := true;
        }
      }
      RequestFrame(timeout);
    }

    method RequestFrame(timeout: nat)
      requires scheduler.Valid()
      modifies this`hasFrame, scheduler
      ensures scheduler.Valid() && !hasFrame
      ensures Pending() == Add(old(Pending()), Event(Some(id), FrameReady), timeout, false,
                               TimerId(Frame, id))
    {
      hasFrame := false;
      scheduler.Schedule(Event(Some(id), FrameReady), timeout, false, TimerId(Frame, id));
    }

    /** A `RedrawRequested` from the window system, whether the window asked for it or not. */
    method OnRedrawRequested(highlights: bool, bellDone: bool, timeout: nat, ghost inbox: seq<Event>)
      requires Valid(inbox)
      modifies this, scheduler
      ensures Valid(inbox)
      ensures forall k: TimerId :: k.window != id ==>
                Count(scheduler.timers, k) == Count(old(scheduler.timers), k)
      ensures (View(), Pending())
           == Redraw.OnRedrawRequested(old(View()), old(Pending()), id, highlights, bellDone, timeout)
    {
      ghost var w, ts := View(), Pending();
      osRedraw := false;
      assert View() == w.(osRedraw := false) && BlinkOk(View(), scheduler.timers, id);
      HandleEvent(true, highlights, inbox);
      ghost var w1, ts1 := View(), Pending();
      Draw(bellDone, timeout, inbox);
      RedrawIsDraw(w, ts, id, highlights, bellDone, timeout, w1, ts1);
    }

    /** The terminal has new content; the event is the oldest one of the inbox. */
    method OnWakeup(ghost inbox: seq<Event>)
      requires Valid(inbox) && inbox != [] && inbox[0] == Event(Some(id), Wakeup)
      modifies this
      ensures Valid(inbox[1..]) && View() == Redraw.OnWakeup(old(View()))
    {
      OtherEventOk(View(), scheduler.timers, inbox, id);
      dirty := true;
      if hasFrame {
        RequestRedraw();
      }
    }

    /** The frame that the window waits for; this bypasses the queue. */
    method OnFrame(ghost inbox: seq<Event>)
      requires Valid(inbox) && inbox != [] && inbox[0] == Event(Some(id), FrameReady)
      modifies this
      ensures Valid(inbox[1..]) && View() == Redraw.OnFrame(old(View()))
    {
      FrameEventOk(View(), scheduler.timers, inbox, id);
      hasFrame := true;
      if dirty {
        RequestRedraw();
      }
    }
  }

  lemma RedrawIsDraw(w: Win, ts: Timers, id: nat, highlights: bool, bellDone: bool, timeout: nat,
                     w1: Win, ts1: Timers)
    requires (w1, ts1) == Redraw.HandleEvent(w.(osRedraw := false), ts, id, true, highlights)
    ensures Redraw.OnRedrawRequested(w, ts, id, highlights, bellDone, timeout)
         == Redraw.Draw(w1, ts1, id, bellDone, timeout)
  {
  }

  /** Without a timer of this id, removing one changes nothing. */
  lemma {:induction false} RemoveNothing(timers: seq<Timer<Event>>, id: TimerId)
    requires Count(timers, id) == 0
    ensures Remove(timers, id) == timers
  {
    if timers != [] {
      RemoveNothing(timers[1..], id);
      assert timers == [timers[0]] + timers[1..];
    }
  }
}
