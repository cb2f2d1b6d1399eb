/**
 Frame timers and the event loop together: how often a window is redrawn.

 A window may be drawn without a frame when the window system asks for it, and each drawing asks for
 another frame. What is bounded by the refresh rate are the redraws that use up a frame.
 */
module Throttle {
  import opened Arithmetic
  import opened Content
  import opened Scheduler
  import opened Redraw
  import opened Processor
  import FrameTimer

  // ----- Frame timers after a point in time -----

  predicate IsLate(timer: Timer<Event>, id: nat, t: int) {
    timer.id == TimerId(Frame, id) && timer.deadline > t
  }

  /** Frame timers of a window with deadlines after t. */
  function Late(list: seq<Timer<Event>>, id: nat, t: int): nat {
    if list == [] then 0 else (if IsLate(list[0], id, t) then 1 else 0) + Late(list[1..], id, t)
  }

  lemma {:induction false} LateIsCounted(list: seq<Timer<Event>>, id: nat, t: int)
    ensures Late(list, id, t) <= Count(list, TimerId(Frame, id))
  {
    if list != [] {
      LateIsCounted(list[1..], id, t);
    }
  }

  lemma {:induction false} LateInsert(list: seq<Timer<Event>>, timer: Timer<Event>, id: nat, t: int)
    ensures Late(Insert(list, timer), id, t) == Late(list, id, t) + if IsLate(timer, id, t) then 1 else 0
  {
    if list == [] {
    } else if list[0].deadline > timer.deadline {
      assert ([timer] + list)[1..] == list;
    } else {
      LateInsert(list[1..], timer, id, t);
      assert ([list[0]] + Insert(list[1..], timer))[1..] == Insert(list[1..], timer);
    }
  }

  lemma {:induction false} LateRemove(list: seq<Timer<Event>>, k: TimerId, id: nat, t: int)
    requires k != TimerId(Frame, id)
    ensures Late(Remove(list, k), id, t) == Late(list, id, t)
  {
    if list != [] && list[0].id != k {
      LateRemove(list[1..], k, id, t);
      assert ([list[0]] + Remove(list[1..], k))[1..] == Remove(list[1..], k);
    }
  }

  lemma {:induction false} LateDropWindow(list: seq<Timer<Event>>, window: nat, id: nat, t: int)
    requires window != id
    ensures Late(DropWindow(list, window), id, t) == Late(list, id, t)
  {
    if list != [] {
      LateDropWindow(list[1..], window, id, t);
      var rest := DropWindow(list[1..], window);
      assert ([list[0]] + rest)[1..] == rest;
    }
  }

  /** Firing what is due leaves the timers after that, since frame timers do not repeat. */
  lemma {:induction false} LateRequeue(list: seq<Timer<Event>>, fired: seq<Timer<Event>>, clock: Clock,
                                       tick: nat, id: nat, t: int)
    requires FrameTimersOk(fired)
    ensures Late(Requeue(list, fired, clock, tick), id, t) == Late(list, id, t)
    decreases fired
  {
    if fired != [] {
      assert FrameTimersOk(fired[1..]);
      if fired[0].interval.Some? {
        assert fired[0].id.topic != Frame;
        var timer := Renewed(fired[0], clock(tick));
        LateInsert(list, timer, id, t);
        LateRequeue(Insert(list, timer), fired[1..], clock, tick + 1, id, t);
      } else {
        LateRequeue(list, fired[1..], clock, tick, id, t);
      }
    }
  }

  lemma {:induction false} LateSuffix(list: seq<Timer<Event>>, n: nat, id: nat, t: int)
    requires n <= |list| && forall i :: 0 <= i < n ==> list[i].deadline <= t
    ensures Late(list[n..], id, t) == Late(list, id, t)
  {
    if n > 0 {
      LateSuffix(list[1..], n - 1, id, t);
      assert list[1..][n - 1..] == list[n..];
    }
  }

  ghost predicate SameLate(a: seq<Timer<Event>>, b: seq<Timer<Event>>, id: nat) {
    forall t: int :: Late(a, id, t) == Late(b, id, t)
  }

  // ----- Handlers leave frame timers alone -----

  lemma CancelLate(ts: Timers, k: TimerId, id: nat)
    requires k != TimerId(Frame, id)
    ensures SameLate(ts.list, Cancel(ts, k).list, id)
  {
    forall t: int ensures Late(ts.list, id, t) == Late(Cancel(ts, k).list, id, t) {
      LateRemove(ts.list, k, id, t);
    }
  }

  lemma AddLate(ts: Timers, event: Event, interval: nat, repeat: bool, k: TimerId, id: nat)
    requires k != TimerId(Frame, id)
    ensures SameLate(ts.list, Add(ts, event, interval, repeat, k).list, id)
  {
    forall t: int ensures Late(ts.list, id, t) == Late(Add(ts, event, interval, repeat, k).list, id, t) {
      LateInsert(ts.list, Timer(ts.clock(ts.tick) + interval, event, k,
                                if repeat then Some(interval) else None), id, t);
    }
  }

  /** Only frame timers send frame events. */
  predicate Genuine(list: seq<Timer<Event>>) {
    forall i :: 0 <= i < |list| && list[i].event.payload.FrameReady? ==> list[i].id.topic == Frame
  }

  lemma InsertGenuine(list: seq<Timer<Event>>, timer: Timer<Event>)
    requires Genuine(list) && (timer.event.payload.FrameReady? ==> timer.id.topic == Frame)
    ensures Genuine(Insert(list, timer))
  {
    InsertMembers(list, timer);
  }

  lemma RemoveGenuine(list: seq<Timer<Event>>, k: TimerId)
    requires Genuine(list)
    ensures Genuine(Remove(list, k))
  {
    RemoveMembers(list, k);
  }

  /** The handlers of one window change no frame timer, and readings of the clock only go on. */
  ghost predicate Quiet(ts: Timers, ts': Timers, id: nat) {
    && SameLate(ts.list, ts'.list, id) && ts'.clock == ts.clock && ts.tick <= ts'.tick
    && (Genuine(ts.list) ==> Genuine(ts'.list))
  }

  lemma QuietCancel(ts: Timers, k: TimerId, id: nat)
    requires k.topic != Frame
    ensures Quiet(ts, Cancel(ts, k), id)
  {
    CancelLate(ts, k, id);
    if Genuine(ts.list) {
      RemoveGenuine(ts.list, k);
    }
  }

  lemma QuietAdd(ts: Timers, event: Event, interval: nat, repeat: bool, k: TimerId, id: nat)
    requires k.topic != Frame && (Genuine(ts.list) ==> !event.payload.FrameReady?)
    ensures Quiet(ts, Add(ts, event, interval, repeat, k), id)
  {
    AddLate(ts, event, interval, repeat, k, id);
    if Genuine(ts.list) {
      InsertGenuine(ts.list, Timer(ts.clock(ts.tick) + interval, event, k,
                                   if repeat then Some(interval) else None));
    }
  }

  lemma QuietChain(ts: Timers, ts1: Timers, ts2: Timers, id: nat)
    requires Quiet(ts, ts1, id) && Quiet(ts1, ts2, id)
    ensures Quiet(ts, ts2, id)
  {
    forall t: int ensures Late(ts.list, id, t) == Late(ts2.list, id, t) {
      assert Late(ts.list, id, t) == Late(ts1.list, id, t);
    }
  }

  lemma QuietBlinking(w: Win, ts: Timers, win: nat, id: nat)
    ensures Quiet(ts, ScheduleBlinking(w, ts, win), id)
  {
    QuietAdd(ts, Event(Some(win), BlinkTick), Max(w.blinkInterval, MIN_BLINK_INTERVAL) * MILLISECOND,
             true, TimerId(BlinkCursor, win), id);
  }

  lemma QuietBlinkingTimeout(w: Win, ts: Timers, win: nat, id: nat)
    ensures Quiet(ts, ScheduleBlinkingTimeout(w, ts, win), id)
  {
    if w.blinkTimeout != 0 {
      QuietAdd(ts, Event(Some(win), BlinkTimedOut), w.blinkTimeout, false, TimerId(BlinkTimeout, win), id);
    }
  }

  lemma QuietUpdate(w: Win, ts: Timers, win: nat, blinking: bool, id: nat)
    ensures Quiet(ts, UpdateCursorBlinking(w, ts, win, blinking).1, id)
  {
    var ts0 := Cancel(ts, TimerId(BlinkCursor, win));
    var ts1 := Cancel(ts0, TimerId(BlinkTimeout, win));
    QuietCancel(ts, TimerId(BlinkCursor, win), id);
    QuietCancel(ts0, TimerId(BlinkTimeout, win), id);
    QuietChain(ts, ts0, ts1, id);
    if blinking {
      var ts2 := ScheduleBlinking(w, ts1, win);
      QuietBlinking(w, ts1, win, id);
      QuietBlinkingTimeout(w, ts2, win, id);
      QuietChain(ts, ts1, ts2, id);
      QuietChain(ts, ts2, ScheduleBlinkingTimeout(w, ts2, win), id);
    }
  }

  lemma QuietTyping(w: Win, ts: Timers, win: nat, blinking: bool, hidesMouse: bool, id: nat)
    ensures Quiet(ts, OnTypingStart(w, ts, win, blinking, hidesMouse).1, id)
  {
    if IsScheduled(ts, TimerId(BlinkCursor, win)) {
      var ts1 := Cancel(ts, TimerId(BlinkCursor, win));
      QuietCancel(ts, TimerId(BlinkCursor, win), id);
      QuietBlinking(w, ts1, win, id);
      QuietChain(ts, ts1, ScheduleBlinking(w, ts1, win), id);
    } else if w.timedOut {
      QuietUpdate(w, ts, win, blinking, id);
    }
  }

  /** Cancelling a timer and putting one of another event in its place. */
  lemma QuietReplace(ts: Timers, event: Event, interval: nat, repeat: bool, k: TimerId, id: nat)
    requires k.topic != Frame && (Genuine(ts.list) ==> !event.payload.FrameReady?)
    ensures Quiet(ts, Cancel(ts, k), id)
    ensures Quiet(ts, Add(ts, event, interval, repeat, k), id)
    ensures Quiet(ts, Add(Cancel(ts, k), event, interval, repeat, k), id)
  {
    QuietCancel(ts, k, id);
    QuietAdd(ts, event, interval, repeat, k, id);
    if !Genuine(ts.list) {
      AddLate(Cancel(ts, k), event, interval, repeat, k, id);
      forall t: int
        ensures Late(ts.list, id, t) == Late(Add(Cancel(ts, k), event, interval, repeat, k).list, id, t)
      {
        assert Late(ts.list, id, t) == Late(Cancel(ts, k).list, id, t);
      }
    } else {
      QuietAdd(Cancel(ts, k), event, interval, repeat, k, id);
      QuietChain(ts, Cancel(ts, k), Add(Cancel(ts, k), event, interval, repeat, k), id);
    }
  }

  lemma FoundIsGenuine(list: seq<Timer<Event>>, k: TimerId)
    requires Genuine(list) && k.topic != Frame && Find(list, k).Some?
    ensures !Find(list, k).value.event.payload.FrameReady?
  {
    var i :| 0 <= i < |list| && list[i] == Find(list, k).value;
  }

  lemma QuietHandle(w: Win, ts: Timers, win: nat, input: Input, id: nat)
    ensures Quiet(ts, Handle(w, ts, win, input).1, id)
  {
    match input {
      case StopBlinking => QuietCancel(ts, TimerId(BlinkCursor, win), id);
      case UpdateBlinking(blinking) => QuietUpdate(w, ts, win, blinking, id);
      case StartTyping(blinking, hidesMouse) => QuietTyping(w, ts, win, blinking, hidesMouse, id);
      case GotoMatch(_) =>
        QuietReplace(ts, Event(Some(win), SearchNext), TYPING_SEARCH_DELAY, false,
                     TimerId(DelayedSearch, win), id);
      case ResetSearch => QuietCancel(ts, TimerId(DelayedSearch, win), id);
      case ResetSearchDelay(searching) => QuietSearchDelay(w, ts, win, searching, id);
      case ScrollSelection(_) =>
        QuietReplace(ts, Event(Some(win), ScrollTick), SELECTION_SCROLLING_INTERVAL, true,
                     TimerId(SelectionScrolling, win), id);
      case _ =>
    }
  }

  lemma QuietSearchDelay(w: Win, ts: Timers, win: nat, searching: bool, id: nat)
    ensures Quiet(ts, Handle(w, ts, win, ResetSearchDelay(searching)).1, id)
  {
    var k := TimerId(DelayedSearch, win);
    if searching && IsScheduled(ts, k) {
      if Genuine(ts.list) {
        FoundIsGenuine(ts.list, k);
      }
      QuietReplace(ts, Find(ts.list, k).value.event, TYPING_SEARCH_DELAY, false, k, id);
    }
  }

  lemma {:induction false} QuietHandleAll(w: Win, ts: Timers, win: nat, inputs: seq<Input>, n: nat, id: nat)
    requires n <= |inputs|
    ensures Quiet(ts, HandleAll(w, ts, win, inputs, n).1, id)
  {
    if n > 0 {
      QuietHandleAll(w, ts, win, inputs, n - 1, id);
      var (w1, ts1) := HandleAll(w, ts, win, inputs, n - 1);
      QuietHandle(w1, ts1, win, inputs[n - 1], id);
      QuietChain(ts, ts1, Handle(w1, ts1, win, inputs[n - 1]).1, id);
    }
  }

  lemma QuietHandleEvent(w: Win, ts: Timers, win: nat, isRedraw: bool, highlights: bool, id: nat)
    ensures Quiet(ts, HandleEvent(w, ts, win, isRedraw, highlights).1, id)
  {
    if w.queue != [] {
      QuietHandleAll(w.(queue := []), ts, win, w.queue, |w.queue|, id);
    }
  }

  // ----- Frame events -----

  function FrameEvents(inbox: seq<Event>, id: nat): nat {
    if inbox == [] then 0
    else (if inbox[0] == Event(Some(id), FrameReady) then 1 else 0) + FrameEvents(inbox[1..], id)
  }

  lemma {:induction false} FrameEventsAppend(a: seq<Event>, b: seq<Event>, id: nat)
    ensures FrameEvents(a + b, id) == FrameEvents(a, id) + FrameEvents(b, id)
  {
    if a == [] {
      assert a + b == b;
    } else {
      FrameEventsAppend(a[1..], b, id);
      assert (a + b)[1..] == a[1..] + b;
    }
  }

  /** Each frame timer that fires sends one frame event, and nothing else does. */
  lemma {:induction false} FiredFrameEvents(fired: seq<Timer<Event>>, id: nat)
    requires FrameTimersOk(fired) && Genuine(fired)
    ensures FrameEvents(Events(fired), id) == Count(fired, TimerId(Frame, id))
  {
    if fired != [] {
      assert FrameTimersOk(fired[1..]) && Genuine(fired[1..]);
      FiredFrameEvents(fired[1..], id);
      assert Events(fired)[1..] == Events(fired[1..]);
      assert fired[0].event.payload.FrameReady? <==> fired[0].id.topic == Frame;
    }
  }

  lemma {:induction false} FramesDoNotRepeat(fired: seq<Timer<Event>>, id: nat)
    requires FrameTimersOk(fired)
    ensures Count(Repeating(fired), TimerId(Frame, id)) == 0
  {
    if fired != [] {
      assert FrameTimersOk(fired[1..]);
      FramesDoNotRepeat(fired[1..], id);
      var head := if fired[0].interval.Some? then [fired[0]] else [];
      CountAppend(head, Repeating(fired[1..]), TimerId(Frame, id));
    }
  }

  // ----- The pace of one window -----

  /** The window's frame timer, how often it has been drawn, and how often with a frame. */
  datatype Pace = Pace(timer: FrameTimer.State, calls: nat, framed: nat)

  /** The last reading of the clock. */
  function Reading(ts: Timers): int {
    if ts.tick == 0 then ts.clock(0) else ts.clock(ts.tick - 1)
  }

  /** After each time, all the frames asked for but one for each interval so far are still to come. */
  ghost predicate StillToCome(list: seq<Timer<Event>>, id: nat, interval: nat, base: int, calls: nat, from: int)
    requires interval > 0
  {
    forall t: int :: t >= from ==> Late(list, id, t) + (t - base) / interval + 1 >= calls
  }

  /**
   A frame that the window has, is sent or waits for stems from one drawing each, and from the frame
   that the window had at first.
   */
  ghost predicate IsPaced(p: Pace, interval: nat, ts: Timers, inbox: seq<Event>, hasFrame: bool, id: nat)
    requires interval > 0
  {
    && Genuine(ts.list)
    && p.framed + (if hasFrame then 1 else 0) + FrameEvents(inbox, id)
       + Count(ts.list, TimerId(Frame, id)) <= 1 + p.calls
    && if p.calls == 0 then p.framed == 0 && p.timer.interval != interval
       else
         && p.timer.OnGrid() && p.timer.interval == interval && p.timer.Tick() >= p.calls - 1
         && ts.tick > 0 && p.timer.base <= Reading(ts)
         && StillToCome(ts.list, id, interval, p.timer.base, p.calls, Reading(ts))
  }

  lemma ReadingGrows(ts: Timers, ts': Timers)
    requires Monotone(ts.clock) && ts'.clock == ts.clock && ts.tick <= ts'.tick
    ensures Reading(ts) <= Reading(ts')
  {
  }

  lemma PacedQuiet(p: Pace, interval: nat, ts: Timers, ts': Timers, inbox: seq<Event>, hasFrame: bool, id: nat)
    requires interval > 0 && Monotone(ts.clock) && IsPaced(p, interval, ts, inbox, hasFrame, id)
    requires Quiet(ts, ts', id)
    requires Count(ts'.list, TimerId(Frame, id)) == Count(ts.list, TimerId(Frame, id))
    ensures IsPaced(p, interval, ts', inbox, hasFrame, id)
  {
    ReadingGrows(ts, ts');
    if p.calls > 0 {
      forall t: int | t >= Reading(ts')
        ensures Late(ts'.list, id, t) + (t - p.timer.base) / interval + 1 >= p.calls
      {
        assert Late(ts.list, id, t) == Late(ts'.list, id, t);
      }
    }
  }

  /** A deadline lies at or after the sync point that its call has set. */
  lemma DeadlineAfterSync(s: FrameTimer.State, interval: nat, now: int, reading: int)
    requires FrameTimer.ValidInterval(interval) && now <= reading
    ensures var (s', timeout) := FrameTimer.Compute(s, interval, now);
            reading + timeout >= s'.lastSynced
  {
  }

  /** The sync point of call number `calls` is at least that many intervals after the base. */
  lemma SyncAfterCalls(s: FrameTimer.State, interval: nat, now: int, calls: nat)
    requires FrameTimer.ValidInterval(interval) && s.interval == interval && s.OnGrid()
    requires s.base <= now && s.Tick() >= calls - 1
    ensures var s' := FrameTimer.Compute(s, interval, now).0;
            && s'.OnGrid() && s'.interval == interval && s'.base == s.base && s'.Tick() >= calls
            && s'.lastSynced - s.base >= calls * interval
  {
    FrameTimer.CallStaysOnGrid(s, interval, now);
    var s' := FrameTimer.Compute(s, interval, now).0;
    assert s'.lastSynced - s'.base == s'.Tick() * interval + s'.Phase();
    MulMonotonic(calls, s'.Tick(), interval);
  }

  /** Frames still to come have not been used up. */
  lemma PaceIsBounded(p: Pace, interval: nat, ts: Timers, inbox: seq<Event>, hasFrame: bool, id: nat)
    requires interval > 0 && IsPaced(p, interval, ts, inbox, hasFrame, id)
    ensures p.framed <= if p.calls == 0 then 0 else (Reading(ts) - p.timer.base) / interval + 2
  {
    if p.calls > 0 {
      LateIsCounted(ts.list, id, Reading(ts));
    }
  }

  /** One more frame asked for, which comes no earlier than its interval. */
  lemma OneMoreToCome(list: seq<Timer<Event>>, timer: Timer<Event>, id: nat, interval: nat, base: int,
                      calls: nat, from: int, from': int)
    requires interval > 0 && from <= from' && base <= from'
    requires calls > 0 ==> StillToCome(list, id, interval, base, calls, from)
    requires timer.id == TimerId(Frame, id) && timer.deadline - base >= calls * interval
    ensures StillToCome(Insert(list, timer), id, interval, base, calls + 1, from')
  {
    forall t: int | t >= from'
      ensures Late(Insert(list, timer), id, t) + (t - base) / interval + 1 >= calls + 1
    {
      LateInsert(list, timer, id, t);
      QuotientAtLeast(t - base, interval, 0);
      if t < timer.deadline {
        assert calls > 0 ==> Late(list, id, t) + (t - base) / interval + 1 >= calls;
      } else {
        QuotientAtLeast(t - base, interval, calls);
      }
    }
  }

  function Frames(ts: Timers, id: nat, timeout: nat): Timers {
    Add(ts, Event(Some(id), FrameReady), timeout, false, TimerId(Frame, id))
  }

  /** A drawing uses up the frame, if there is one, and asks for the next. */
  lemma PacedDraw(p: Pace, interval: nat, ts: Timers, inbox: seq<Event>, hasFrame: bool, id: nat,
                  now: int, timeout: nat)
    requires FrameTimer.ValidInterval(interval) && IsPaced(p, interval, ts, inbox, hasFrame, id)
    requires (ts.tick > 0 ==> ts.clock(ts.tick - 1) <= now) && now <= ts.clock(ts.tick)
    requires Monotone(ts.clock)
    requires timeout == FrameTimer.Compute(p.timer, interval, now).1
    ensures IsPaced(Pace(FrameTimer.Compute(p.timer, interval, now).0, p.calls + 1,
                         p.framed + if hasFrame then 1 else 0),
                    interval, Frames(ts, id, timeout), inbox, false, id)
  {
    var s' := FrameTimer.Compute(p.timer, interval, now).0;
    var timer := Timer(ts.clock(ts.tick) + timeout, Event(Some(id), FrameReady), TimerId(Frame, id), None);
    InsertGenuine(ts.list, timer);
    CountInsert(ts.list, timer, TimerId(Frame, id));
    DeadlineAfterSync(p.timer, interval, now, ts.clock(ts.tick));
    if p.calls == 0 {
      DivModUnique(0, interval, 0, 0);
    } else {
      SyncAfterCalls(p.timer, interval, now, p.calls);
    }
    OneMoreToCome(ts.list, timer, id, interval, s'.base, p.calls, Reading(ts), ts.clock(ts.tick));
  }

  /** Firing the timers that are due turns frame timers into frame events. */
  lemma PacedFire(p: Pace, interval: nat, g: Gui, hasFrame: bool, id: nat)
    requires interval > 0 && Inv(g) && IsPaced(p, interval, g.ts, g.inbox, hasFrame, id)
    ensures IsPaced(p, interval, Fire(g).ts, Fire(g).inbox, hasFrame, id)
  {
    var due := DueCount(g.ts.list, g.ts.clock(g.ts.tick));
    FiredFrames(g.ts.list, due, g.ts.clock, g.ts.tick + 1, g.inbox, id);
    ReadingGrows(g.ts, Fire(g).ts);
    if p.calls > 0 {
      FiredStillToCome(g.ts.list, due, g.ts.clock, g.ts.tick + 1, id, interval, p.timer.base, p.calls,
                       Reading(g.ts), Reading(Fire(g).ts));
    }
  }

  /** Frame timers and frame events together are as many as before. */
  lemma FiredFrames(list: seq<Timer<Event>>, due: nat, clock: Clock, tick: nat, inbox: seq<Event>, id: nat)
    requires TimersOk(list) && Genuine(list) && due <= |list|
    ensures var list' := Requeue(list[due..], list[..due], clock, tick);
            && Genuine(list')
            && FrameEvents(inbox + Events(list[..due]), id) + Count(list', TimerId(Frame, id))
               == FrameEvents(inbox, id) + Count(list, TimerId(Frame, id))
  {
    var fired, rest := list[..due], list[due..];
    PrefixOk(list, due);
    FiredGenuine(rest, fired, clock, tick);
    FrameEventsAppend(inbox, Events(fired), id);
    FiredFrameEvents(fired, id);
    FramesDoNotRepeat(fired, id);
    RequeueCount(rest, fired, clock, tick, TimerId(Frame, id));
    CountAppend(fired, rest, TimerId(Frame, id));
    assert list == fired + rest;
  }

  lemma FiredStillToCome(list: seq<Timer<Event>>, due: nat, clock: Clock, tick: nat, id: nat,
                         interval: nat, base: int, calls: nat, from: int, from': int)
    requires interval > 0 && TimersOk(list) && due <= |list| && from <= from'
    requires forall i :: 0 <= i < due ==> list[i].deadline <= from'
    requires StillToCome(list, id, interval, base, calls, from)
    ensures StillToCome(Requeue(list[due..], list[..due], clock, tick), id, interval, base, calls, from')
  {
    PrefixOk(list, due);
    forall t: int | t >= from'
      ensures Late(Requeue(list[due..], list[..due], clock, tick), id, t) + (t - base) / interval + 1 >= calls
    {
      LateSuffix(list, due, id, t);
      LateRequeue(list[due..], list[..due], clock, tick, id, t);
    }
  }

  lemma {:induction false} FiredGenuine(list: seq<Timer<Event>>, fired: seq<Timer<Event>>, clock: Clock, tick: nat)
    requires Genuine(list) && Genuine(fired)
    ensures Genuine(Requeue(list, fired, clock, tick))
    decreases fired
  {
    if fired != [] {
      assert Genuine(fired[1..]);
      if fired[0].interval.Some? {
        InsertGenuine(list, Renewed(fired[0], clock(tick)));
        FiredGenuine(Insert(list, Renewed(fired[0], clock(tick))), fired[1..], clock, tick + 1);
      } else {
        FiredGenuine(list, fired[1..], clock, tick);
      }
    }
  }

  // ----- Steps -----

  /** The step draws the window, which its queue leaves visible. */
  predicate Draws(g: Gui, step: Step, id: nat) {
    && step.RedrawRequested? && step.id == id && id in g.windows
    && !OccludedAfter(g.windows[id].occluded, g.windows[id].queue, |g.windows[id].queue|)
  }

  /** The timers when the frame timer is asked, after the queue has been handled. */
  function BeforeDrawing(g: Gui, step: Step): Timers
    requires step.RedrawRequested? && step.id in g.windows
  {
    HandleEvent(g.windows[step.id].(osRedraw := false), g.ts, step.id, true, step.highlights).1
  }

  /** The frame timer reads the clock between two readings of the scheduler, and gives the timeout. */
  predicate IsTimed(g: Gui, step: Step, p: Pace, id: nat, interval: nat, now: int) {
    Draws(g, step, id) ==>
      var ts := BeforeDrawing(g, step);
      && (ts.tick > 0 ==> ts.clock(ts.tick - 1) <= now) && now <= ts.clock(ts.tick)
      && FrameTimer.Defined(p.timer, interval, now)
      && step.timeout == FrameTimer.Compute(p.timer, interval, now).1
  }

  function NextPace(g: Gui, step: Step, p: Pace, id: nat, interval: nat, now: int): Pace {
    if Draws(g, step, id) && FrameTimer.Defined(p.timer, interval, now) then
      Pace(FrameTimer.Compute(p.timer, interval, now).0, p.calls + 1,
           p.framed + if g.windows[id].hasFrame then 1 else 0)
    else p
  }

  ghost predicate KeepsPace(g: Gui, p: Pace, id: nat, interval: nat)
    requires interval > 0
  {
    Inv(g) && id in g.windows && IsPaced(p, interval, g.ts, g.inbox, g.windows[id].hasFrame, id)
  }

  /** A window handles its queue. */
  lemma PacedHandleEvent(g: Gui, p: Pace, interval: nat, win: nat, isRedraw: bool, highlights: bool, id: nat)
    requires interval > 0 && KeepsPace(g, p, id, interval) && win in g.windows
    ensures var w := if isRedraw then g.windows[win].(osRedraw := false) else g.windows[win];
            var (w', ts') := HandleEvent(w, g.ts, win, isRedraw, highlights);
            && IsPaced(p, interval, ts', g.inbox, g.windows[id].hasFrame, id)
            && ts'.clock == g.ts.clock && w'.hasFrame == w.hasFrame
  {
    assert WinOk(g.windows[win], g.ts.list, g.inbox, win);
    var w := if isRedraw then g.windows[win].(osRedraw := false) else g.windows[win];
    var ts' := HandleEvent(w, g.ts, win, isRedraw, highlights).1;
    HandleEventOk(w, g.ts, g.inbox, win, isRedraw, highlights);
    QuietHandleEvent(w, g.ts, win, isRedraw, highlights, id);
    assert Count(ts'.list, TimerId(Frame, id)) == Count(g.ts.list, TimerId(Frame, id));
    PacedQuiet(p, interval, g.ts, ts', g.inbox, g.windows[id].hasFrame, id);
  }

  /** Another window is drawn. */
  lemma PacedOtherDraw(p: Pace, interval: nat, w: Win, ts: Timers, inbox: seq<Event>, hasFrame: bool,
                       win: nat, bellDone: bool, timeout: nat, id: nat)
    requires interval > 0 && Monotone(ts.clock) && IsPaced(p, interval, ts, inbox, hasFrame, id)
    requires win != id
    ensures IsPaced(p, interval, Draw(w, ts, win, bellDone, timeout).1, inbox, hasFrame, id)
  {
    if !w.occluded {
      var ts' := Frames(ts, win, timeout);
      AddLate(ts, Event(Some(win), FrameReady), timeout, false, TimerId(Frame, win), id);
      AddCount(ts, Event(Some(win), FrameReady), timeout, false, TimerId(Frame, win));
      InsertGenuine(ts.list, Timer(ts.clock(ts.tick) + timeout, Event(Some(win), FrameReady),
                                   TimerId(Frame, win), None));
      PacedQuiet(p, interval, ts, ts', inbox, hasFrame, id);
    }
  }

  lemma DrawFrames(w: Win, ts: Timers, win: nat, bellDone: bool, timeout: nat)
    ensures var (w', ts') := Draw(w, ts, win, bellDone, timeout);
            && ts' == (if w.occluded then ts else Frames(ts, win, timeout))
            && w'.hasFrame == (w.occluded && w.hasFrame)
  {
  }

  lemma ApplyRedraw(g: Gui, step: Step, w1: Win, ts1: Timers)
    requires Enabled(g, step) && step.RedrawRequested?
    requires (w1, ts1)
          == HandleEvent(g.windows[step.id].(osRedraw := false), g.ts, step.id, true, step.highlights)
    ensures var g' := Apply(g, step);
            var (w2, ts2) := Draw(w1, ts1, step.id, step.bellDone, step.timeout);
            g'.windows == g.windows[step.id := w2] && g'.ts == ts2 && g'.inbox == g.inbox
  {
  }

  lemma PacedRedraw(g: Gui, step: Step, p: Pace, id: nat, interval: nat, now: int)
    requires FrameTimer.ValidInterval(interval) && KeepsPace(g, p, id, interval)
    requires Enabled(g, step) && step.RedrawRequested? && IsTimed(g, step, p, id, interval, now)
    ensures var g' := Apply(g, step);
            IsPaced(NextPace(g, step, p, id, interval, now), interval, g'.ts, g'.inbox,
                    g'.windows[id].hasFrame, id)
  {
    var win := step.id;
    var w0 := g.windows[win].(osRedraw := false);
    PacedHandleEvent(g, p, interval, win, true, step.highlights, id);
    HandleEventVisibility(w0, g.ts, win, true, step.highlights);
    var (w1, ts1) := HandleEvent(w0, g.ts, win, true, step.highlights);
    ApplyRedraw(g, step, w1, ts1);
    if win != id {
      PacedOtherDraw(p, interval, w1, ts1, g.inbox, g.windows[id].hasFrame, win, step.bellDone,
                     step.timeout, id);
    } else {
      DrawFrames(w1, ts1, id, step.bellDone, step.timeout);
      if !w1.occluded {
        PacedDraw(p, interval, ts1, g.inbox, g.windows[id].hasFrame, id, now, step.timeout);
      }
    }
  }

  /** An event is taken from the inbox; the window may get a frame only from a frame event. */
  lemma PacedPop(p: Pace, interval: nat, ts: Timers, inbox: seq<Event>, hasFrame: bool, hasFrame': bool, id: nat)
    requires interval > 0 && inbox != [] && IsPaced(p, interval, ts, inbox, hasFrame, id)
    requires hasFrame' ==> hasFrame || inbox[0] == Event(Some(id), FrameReady)
    ensures IsPaced(p, interval, ts, inbox[1..], hasFrame', id)
  {
  }

  lemma DeliverFrame(g: Gui, event: Event, meaning: nat -> Input, hold: bool, id: nat)
    requires id in g.windows && id in DeliverEvent(g, event, meaning, hold).windows
    ensures var g' := DeliverEvent(g, event, meaning, hold);
            && g'.inbox == g.inbox
            && (g'.windows[id].hasFrame ==> g.windows[id].hasFrame || event == Event(Some(id), FrameReady))
            && (g'.ts == g.ts
                || (event.window.Some? && event.window.value != id
                    && g'.ts == g.ts.(list := DropWindow(g.ts.list, event.window.value))))
  {
  }

  lemma PacedDeliver(g: Gui, step: Step, p: Pace, id: nat, interval: nat)
    requires interval > 0 && KeepsPace(g, p, id, interval)
    requires Enabled(g, step) && step.Deliver? && id in Apply(g, step).windows
    ensures var g' := Apply(g, step);
            IsPaced(p, interval, g'.ts, g'.inbox, g'.windows[id].hasFrame, id)
  {
    var g' := Apply(g, step);
    DeliverFrame(g.(inbox := g.inbox[1..]), g.inbox[0], step.meaning, step.hold, id);
    PacedPop(p, interval, g.ts, g.inbox, g.windows[id].hasFrame, g'.windows[id].hasFrame, id);
    if g'.ts != g.ts {
      PacedDropWindow(p, interval, g.ts, g'.inbox, g'.windows[id].hasFrame, g.inbox[0].window.value, id);
    }
  }

  lemma PacedDropWindow(p: Pace, interval: nat, ts: Timers, inbox: seq<Event>, hasFrame: bool, win: nat, id: nat)
    requires interval > 0 && Monotone(ts.clock) && IsPaced(p, interval, ts, inbox, hasFrame, id)
    requires win != id
    ensures IsPaced(p, interval, ts.(list := DropWindow(ts.list, win)), inbox, hasFrame, id)
  {
    forall t: int ensures Late(ts.list, id, t) == Late(DropWindow(ts.list, win), id, t) {
      LateDropWindow(ts.list, win, id, t);
    }
    DropWindowMembers(ts.list, win);
    DropWindowCount(ts.list, win, TimerId(Frame, id));
    PacedQuiet(p, interval, ts, ts.(list := DropWindow(ts.list, win)), inbox, hasFrame, id);
  }

  lemma PacedStep(g: Gui, step: Step, p: Pace, id: nat, interval: nat, now: int)
    requires FrameTimer.ValidInterval(interval) && KeepsPace(g, p, id, interval)
    requires Enabled(g, step) && id in Apply(g, step).windows
    requires step != Send(Event(Some(id), FrameReady)) && IsTimed(g, step, p, id, interval, now)
    ensures KeepsPace(Apply(g, step), NextPace(g, step, p, id, interval, now), id, interval)
  {
    StepOk(g, step);
    match step {
      case Send(event) => FrameEventsAppend(g.inbox, [event], id);
      case RedrawRequested(_, _, _, _) => PacedRedraw(g, step, p, id, interval, now);
      case Deliver(_, _) => PacedDeliver(g, step, p, id, interval);
      case Drain(win, highlights) => PacedHandleEvent(g, p, interval, win, false, highlights, id);
      case UpdateTimers => PacedFire(p, interval, g, g.windows[id].hasFrame, id);
      case _ =>
    }
  }

  // ----- Runs -----

  /** Step k of a run, before and after, with what the frame timer reads in it. */
  ghost predicate IsTimedStep(states: seq<Gui>, steps: seq<Step>, nows: seq<int>, paces: seq<Pace>,
                              id: nat, interval: nat, k: nat)
    requires k < |steps| == |nows| && |states| == |paces| == |steps| + 1
  {
    && IsTimed(states[k], steps[k], paces[k], id, interval, nows[k])
    && paces[k + 1] == NextPace(states[k], steps[k], paces[k], id, interval, nows[k])
    && steps[k] != Send(Event(Some(id), FrameReady))
    && id in states[k + 1].windows
  }

  /**
   A run in which the window stays open, its frame events come from its frame timers, and those from
   its drawings, all at one refresh interval.
   */
  ghost predicate IsTimedRun(states: seq<Gui>, steps: seq<Step>, nows: seq<int>, paces: seq<Pace>,
                             id: nat, interval: nat)
  {
    && IsRun(states, steps) && |nows| == |steps| && |paces| == |states|
    && forall k :: 0 <= k < |steps| ==> IsTimedStep(states, steps, nows, paces, id, interval, k)
  }

  /** The window is new: no frame has been asked for. */
  ghost predicate IsNew(g: Gui, p: Pace, id: nat, interval: nat) {
    && Inv(g) && Genuine(g.ts.list) && id in g.windows
    && p.timer.interval != interval && p.calls == p.framed == 0
    && Count(g.ts.list, TimerId(Frame, id)) == 0 && FrameEvents(g.inbox, id) == 0
  }

  lemma PacedTo(g: Gui, step: Step, g': Gui, p: Pace, p': Pace, id: nat, interval: nat, now: int)
    requires FrameTimer.ValidInterval(interval) && KeepsPace(g, p, id, interval)
    requires Enabled(g, step) && g' == Apply(g, step) && id in g'.windows
    requires step != Send(Event(Some(id), FrameReady)) && IsTimed(g, step, p, id, interval, now)
    requires p' == NextPace(g, step, p, id, interval, now)
    ensures KeepsPace(g', p', id, interval)
  {
    PacedStep(g, step, p, id, interval, now);
  }

  lemma {:induction false} RunKeepsPace(states: seq<Gui>, steps: seq<Step>, nows: seq<int>,
                                        paces: seq<Pace>, id: nat, interval: nat, n: nat)
    requires FrameTimer.ValidInterval(interval) && n <= |steps|
    requires IsTimedRun(states, steps, nows, paces, id, interval) && IsNew(states[0], paces[0], id, interval)
    ensures KeepsPace(states[n], paces[n], id, interval)
  {
    if n > 0 {
      RunKeepsPace(states, steps, nows, paces, id, interval, n - 1);
      assert IsStep(states, steps, n - 1) && IsTimedStep(states, steps, nows, paces, id, interval, n - 1);
      PacedTo(states[n - 1], steps[n - 1], states[n], paces[n - 1], paces[n], id, interval, nows[n - 1]);
    }
  }

  /**
   Redraws are throttled to the refresh rate: in every such run, the redraws made while the window had
   its frame number at most two more than the intervals that have passed since it was first drawn,
   however often the window system asks for redraws in between.
   */
  lemma FramedRedrawsAreThrottled(states: seq<Gui>, steps: seq<Step>, nows: seq<int>, paces: seq<Pace>,
                                  id: nat, interval: nat, n: nat)
    requires FrameTimer.ValidInterval(interval) && n <= |steps|
    requires IsTimedRun(states, steps, nows, paces, id, interval) && IsNew(states[0], paces[0], id, interval)
    ensures paces[n].calls == 0 ==> paces[n].framed == 0
    ensures paces[n].calls > 0 ==>
              paces[n].framed <= (Reading(states[n].ts) - paces[n].timer.base) / interval + 2
  {
    RunKeepsPace(states, steps, nows, paces, id, interval, n);
    PaceIsBounded(paces[n], interval, states[n].ts, states[n].inbox, states[n].windows[id].hasFrame, id);
  }

  // ----- Where such runs start -----

  lemma StepKeepsGenuine(g: Gui, step: Step)
    requires Inv(g) && Genuine(g.ts.list) && Enabled(g, step)
    ensures Genuine(Apply(g, step).ts.list)
  {
    match step {
      case RedrawRequested(id, highlights, bellDone, timeout) =>
        var w := g.windows[id].(osRedraw := false);
        QuietHandleEvent(w, g.ts, id, true, highlights, id);
        var (w1, ts1) := HandleEvent(w, g.ts, id, true, highlights);
        DrawFrames(w1, ts1, id, bellDone, timeout);
        InsertGenuine(ts1.list, Timer(ts1.clock(ts1.tick) + timeout, Event(Some(id), FrameReady),
                                      TimerId(Frame, id), None));
      case Deliver(_, _) =>
        if g.inbox[0].window.Some? {
          DropWindowMembers(g.ts.list, g.inbox[0].window.value);
        }
      case Drain(id, highlights) => QuietHandleEvent(g.windows[id], g.ts, id, false, highlights, id);
      case UpdateTimers =>
        var due := DueCount(g.ts.list, g.ts.clock(g.ts.tick));
        FiredGenuine(g.ts.list[due..], g.ts.list[..due], g.ts.clock, g.ts.tick + 1);
      case _ =>
    }
  }

  lemma {:induction false} RunIsGenuine(states: seq<Gui>, steps: seq<Step>, n: nat)
    requires IsRun(states, steps) && Initial(states[0]) && Monotone(states[0].ts.clock) && n <= |steps|
    ensures Inv(states[n]) && Genuine(states[n].ts.list)
  {
    RunOk(states, steps, n);
    if n > 0 {
      RunIsGenuine(states, steps, n - 1);
      assert IsStep(states, steps, n - 1);
      StepKeepsGenuine(states[n - 1], steps[n - 1]);
    }
  }

  /** Opening a window whose id is not in use, in any reachable state, is such a start. */
  lemma OpenedWindowIsNew(states: seq<Gui>, steps: seq<Step>, n: nat, id: nat, blinkInterval: nat,
                          blinkTimeout: nat, now: int, interval: nat)
    requires IsRun(states, steps) && Initial(states[0]) && Monotone(states[0].ts.clock) && n <= |steps|
    requires id !in states[n].windows && interval > 0
    requires Count(states[n].ts.list, TimerId(Frame, id)) == 0 && FrameEvents(states[n].inbox, id) == 0
    ensures IsNew(Apply(states[n], Open(id, blinkInterval, blinkTimeout)),
                  Pace(FrameTimer.State(now, now, 0), 0, 0), id, interval)
  {
    RunIsGenuine(states, steps, n);
    StepOk(states[n], Open(id, blinkInterval, blinkTimeout));
  }
}
