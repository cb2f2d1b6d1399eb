/** Runs of the whole event loop: all windows, the scheduler and the events between them. */
module Processor {
  import opened Content
  import opened Scheduler
  import opened Redraw

  /** `inbox` holds the user events that the event loop has not delivered, oldest first. */
  datatype Gui = Gui(windows: map<nat, Win>, ts: Timers, inbox: seq<Event>)

  datatype Step =
    /** A new window. */
    | Open(id: nat, blinkInterval: nat, blinkTimeout: nat)
    /** Some thread sends an event: the terminal of a window wakes it up, or any other event. */
    | Send(event: Event)
    /** The window system has an event for a window; it is queued. */
    | WindowEvent(id: nat, input: Input)
    /** The window system asks for a redraw, because it was requested or on its own. */
    | RedrawRequested(id: nat, highlights: bool, bellDone: bool, timeout: nat)
    /** The oldest user event is delivered; `meaning` is what it queues for a window. */
    | Deliver(meaning: nat -> Input, hold: bool)
    /** The event loop is about to wait: the queue of one window, or the timers. */
    | Drain(id: nat, highlights: bool)
    | UpdateTimers
    /** A new configuration queues an update of the cursor blinking. */
    | UpdateConfig(id: nat, blinking: bool)

  ghost predicate Enabled(g: Gui, step: Step) {
    match step
    case Open(id, _, _) => id !in g.windows
    case Send(_) => true
    case WindowEvent(id, _) => id in g.windows
    case RedrawRequested(id, _, _, _) => id in g.windows
    case Deliver(_, _) => g.inbox != []
    case Drain(id, _) => id in g.windows
    case UpdateTimers => true
    case UpdateConfig(id, _) => id in g.windows
  }

  function DeliverEvent(g: Gui, event: Event, meaning: nat -> Input, hold: bool): Gui {
    match event.window
    case None => g.(windows := map id | id in g.windows :: Push(g.windows[id], meaning(id)))
    case Some(id) =>
      if id !in g.windows then g
      else match event.payload
        case Wakeup => g.(windows := g.windows[id := OnWakeup(g.windows[id])])
        case FrameReady => g.(windows := g.windows[id := OnFrame(g.windows[id])])
        case Exit =>
          if hold then g
          else g.(windows := g.windows - {id}, ts := g.ts.(list := DropWindow(g.ts.list, id)))
        case _ => g.(windows := g.windows[id := Push(g.windows[id], meaning(id))])
  }

  /** `Scheduler.update`: the due timers are fired, and the repeating ones put back. */
  function Fire(g: Gui): Gui {
    var now := g.ts.clock(g.ts.tick);
    var due := DueCount(g.ts.list, now);
    var (fired, rest) := (g.ts.list[..due], g.ts.list[due..]);
    g.(ts := Timers(Requeue(rest, fired, g.ts.clock, g.ts.tick + 1), g.ts.clock,
                    g.ts.tick + 1 + |Repeating(fired)|),
       inbox := g.inbox + Events(fired))
  }

  ghost function Apply(g: Gui, step: Step): Gui
    requires Enabled(g, step)
  {
    match step
    case Open(id, blinkInterval, blinkTimeout) =>
      g.(windows := g.windows[id := NewWindow(blinkInterval, blinkTimeout)])
    case Send(event) => g.(inbox := g.inbox + [event])
    case WindowEvent(id, input) => g.(windows := g.windows[id := Push(g.windows[id], input)])
    case RedrawRequested(id, highlights, bellDone, timeout) =>
      var (w, ts) := OnRedrawRequested(g.windows[id], g.ts, id, highlights, bellDone, timeout);
      g.(windows := g.windows[id := w], ts := ts)
    case Deliver(meaning, hold) =>
      DeliverEvent(g.(inbox := g.inbox[1..]), g.inbox[0], meaning, hold)
    case Drain(id, highlights) =>
      var (w, ts) := HandleEvent(g.windows[id], g.ts, id, false, highlights);
      g.(windows := g.windows[id := w], ts := ts)
    case UpdateTimers => Fire(g)
    case UpdateConfig(id, blinking) =>
      g.(windows := g.windows[id := Push(g.windows[id], UpdateBlinking(blinking)).(dirty := true)])
  }

  // ----- The invariant -----

  ghost predicate WindowsOk(windows: map<nat, Win>, list: seq<Timer<Event>>, inbox: seq<Event>) {
    forall id :: id in windows ==> WinOk(windows[id], list, inbox, id)
  }

  ghost predicate Inv(g: Gui) {
    TimersOk(g.ts.list) && Monotone(g.ts.clock) && WindowsOk(g.windows, g.ts.list, g.inbox)
  }

  predicate Initial(g: Gui) {
    g.windows == map[] && g.ts.list == [] && g.inbox == []
  }

  // ----- Steps keep it -----

  /** A change to one window that leaves the timers of other windows alone. */
  lemma OneWindowOk(g: Gui, id: nat, w: Win, ts: Timers)
    requires Inv(g) && id in g.windows
    requires TimersOk(ts.list) && ts.clock == g.ts.clock && WinOk(w, ts.list, g.inbox, id)
    requires forall k: TimerId :: k.window != id ==> Count(g.ts.list, k) == Count(ts.list, k)
    ensures Inv(g.(windows := g.windows[id := w], ts := ts))
  {
    forall k | k in g.windows && k != id ensures WinOk(g.windows[k], ts.list, g.inbox, k) {
      assert Count(g.ts.list, TimerId(Frame, k)) == Count(ts.list, TimerId(Frame, k));
      assert Count(g.ts.list, TimerId(BlinkCursor, k)) == Count(ts.list, TimerId(BlinkCursor, k));
    }
  }

  lemma DrainOk(g: Gui, id: nat, highlights: bool)
    requires Inv(g) && id in g.windows
    ensures Inv(Apply(g, Drain(id, highlights)))
  {
    HandleEventOk(g.windows[id], g.ts, g.inbox, id, false, highlights);
    var (w, ts) := HandleEvent(g.windows[id], g.ts, id, false, highlights);
    OneWindowOk(g, id, w, ts);
  }

  lemma RedrawOk(g: Gui, id: nat, highlights: bool, bellDone: bool, timeout: nat)
    requires Inv(g) && id in g.windows
    ensures Inv(Apply(g, RedrawRequested(id, highlights, bellDone, timeout)))
  {
    var w0 := g.windows[id].(osRedraw := false);
    HandleEventOk(w0, g.ts, g.inbox, id, true, highlights);
    var (w1, ts1) := HandleEvent(w0, g.ts, id, true, highlights);
    DrawOk(w1, ts1, g.inbox, id, bellDone, timeout);
    var (w2, ts2) := Draw(w1, ts1, id, bellDone, timeout);
    OneWindowOk(g, id, w2, ts2);
  }

  lemma DeliverOk(g: Gui, meaning: nat -> Input, hold: bool)
    requires Inv(g) && g.inbox != []
    ensures Inv(Apply(g, Deliver(meaning, hold)))
  {
    var g' := Apply(g, Deliver(meaning, hold));
    if g.inbox[0].window.Some? {
      DropOk(g.ts.list, g.inbox[0].window.value);
    }
    forall id | id in g'.windows ensures WinOk(g'.windows[id], g'.ts.list, g'.inbox, id) {
      if g.inbox[0].window == Some(id) {
        AddressedWindowOk(g, meaning, hold, id);
      } else {
        OtherWindowOk(g, meaning, hold, id);
      }
    }
  }

  lemma AddressedWindowOk(g: Gui, meaning: nat -> Input, hold: bool, id: nat)
    requires Inv(g) && g.inbox != [] && g.inbox[0].window == Some(id)
    requires id in Apply(g, Deliver(meaning, hold)).windows
    ensures var g' := Apply(g, Deliver(meaning, hold));
            WinOk(g'.windows[id], g'.ts.list, g'.inbox, id)
  {
    assert WinOk(g.windows[id], g.ts.list, g.inbox, id);
    if g.inbox[0].payload.FrameReady? {
      FrameEventOk(g.windows[id], g.ts.list, g.inbox, id);
    } else {
      OtherEventOk(g.windows[id], g.ts.list, g.inbox, id);
    }
  }

  lemma OtherWindowOk(g: Gui, meaning: nat -> Input, hold: bool, id: nat)
    requires Inv(g) && g.inbox != [] && g.inbox[0].window != Some(id)
    requires id in Apply(g, Deliver(meaning, hold)).windows
    ensures var g' := Apply(g, Deliver(meaning, hold));
            WinOk(g'.windows[id], g'.ts.list, g'.inbox, id)
  {
    var g' := Apply(g, Deliver(meaning, hold));
    assert WinOk(g.windows[id], g.ts.list, g.inbox, id);
    OtherEventOk(g.windows[id], g.ts.list, g.inbox, id);
    match g.inbox[0].window
    case None =>
    case Some(other) =>
      assert g'.windows[id] == g.windows[id];
      DropOk(g.ts.list, other);
      SameCounts(g.windows[id], g.ts.list, g'.ts.list, g'.inbox, id);
  }

  lemma SameCounts(w: Win, list: seq<Timer<Event>>, list': seq<Timer<Event>>, inbox: seq<Event>, id: nat)
    requires WinOk(w, list, inbox, id)
    requires Count(list', TimerId(Frame, id)) == Count(list, TimerId(Frame, id))
    requires Count(list', TimerId(BlinkCursor, id)) == Count(list, TimerId(BlinkCursor, id))
    ensures WinOk(w, list', inbox, id)
  {
  }

  lemma DropOk(list: seq<Timer<Event>>, window: nat)
    requires TimersOk(list)
    ensures TimersOk(DropWindow(list, window))
    ensures forall id: TimerId ::
              Count(DropWindow(list, window), id) == if id.window == window then 0 else Count(list, id)
  {
    DropWindowWellFormed(list, window);
    DropWindowMembers(list, window);
    forall id: TimerId
      ensures Count(DropWindow(list, window), id)
           == if id.window == window then 0 else Count(list, id)
    {
      DropWindowCount(list, window, id);
    }
  }

  // ----- Firing timers -----

  lemma {:induction false} RequeueFrames(list: seq<Timer<Event>>, fired: seq<Timer<Event>>,
                                         clock: Clock, tick: nat)
    requires FrameTimersOk(list) && FrameTimersOk(fired)
    ensures FrameTimersOk(Requeue(list, fired, clock, tick))
    decreases fired
  {
    if fired != [] {
      if fired[0].interval.Some? {
        InsertMembers(list, Renewed(fired[0], clock(tick)));
        RequeueFrames(Insert(list, Renewed(fired[0], clock(tick))), fired[1..], clock, tick + 1);
      } else {
        RequeueFrames(list, fired[1..], clock, tick);
      }
    }
  }

  /** A frame timer that fires sends its window's frame event. */
  lemma {:induction false} FiredFrameIsSent(fired: seq<Timer<Event>>, id: nat)
    requires FrameTimersOk(fired) && Count(fired, TimerId(Frame, id)) > 0
    ensures Event(Some(id), FrameReady) in Events(fired)
  {
    if fired[0].id == TimerId(Frame, id) {
      assert Events(fired)[0] == Event(Some(id), FrameReady);
    } else {
      FiredFrameIsSent(fired[1..], id);
      assert Events(fired)[1..] == Events(fired[1..]);
    }
  }

  /** What firing does to the number of timers. */
  ghost predicate Fired(list: seq<Timer<Event>>, fired: seq<Timer<Event>>, list': seq<Timer<Event>>) {
    forall id: TimerId ::
      Count(list, id) - Count(fired, id) <= Count(list', id) <= Count(list, id)
  }

  lemma RequeueFired(fired: seq<Timer<Event>>, rest: seq<Timer<Event>>, clock: Clock, tick: nat)
    ensures Fired(fired + rest, fired, Requeue(rest, fired, clock, tick))
  {
    forall id: TimerId
      ensures Count(fired + rest, id) - Count(fired, id)
           <= Count(Requeue(rest, fired, clock, tick), id) <= Count(fired + rest, id)
    {
      RequeueCount(rest, fired, clock, tick, id);
      RepeatingCount(fired, id);
      CountAppend(fired, rest, id);
    }
  }

  lemma FiredWindowOk(w: Win, list: seq<Timer<Event>>, fired: seq<Timer<Event>>,
                      list': seq<Timer<Event>>, inbox: seq<Event>, id: nat)
    requires WinOk(w, list, inbox, id) && Fired(list, fired, list') && FrameTimersOk(fired)
    ensures WinOk(w, list', inbox + Events(fired), id)
  {
    if Count(fired, TimerId(Frame, id)) > 0 {
      FiredFrameIsSent(fired, id);
    }
    assert Count(list', TimerId(BlinkCursor, id)) <= Count(list, TimerId(BlinkCursor, id));
    assert Count(list, TimerId(Frame, id)) - Count(fired, TimerId(Frame, id))
        <= Count(list', TimerId(Frame, id));
  }

  lemma PrefixOk(list: seq<Timer<Event>>, n: nat)
    requires WellFormed(list) && FrameTimersOk(list) && n <= |list|
    ensures WellFormed(list[..n]) && FrameTimersOk(list[..n])
  {
  }

  lemma SuffixOk(list: seq<Timer<Event>>, n: nat)
    requires WellFormed(list) && FrameTimersOk(list) && n <= |list|
    ensures WellFormed(list[n..]) && FrameTimersOk(list[n..])
  {
  }

  lemma SuffixLater(list: seq<Timer<Event>>, n: nat, now: int)
    requires Sorted(list) && n <= |list| && (n < |list| ==> list[n].deadline > now)
    ensures AllLater(list[n..], now)
  {
  }

  lemma FiredTimersOk(list: seq<Timer<Event>>, due: nat, clock: Clock, tick: nat, now: int)
    requires TimersOk(list) && Monotone(clock) && now <= clock(tick) && due == DueCount(list, now)
    ensures TimersOk(Requeue(list[due..], list[..due], clock, tick))
    ensures Fired(list, list[..due], Requeue(list[due..], list[..due], clock, tick))
    ensures FrameTimersOk(list[..due])
  {
    PrefixOk(list, due);
    SuffixOk(list, due);
    SuffixLater(list, due, now);
    var fired, rest := list[..due], list[due..];
    assert list == fired + rest;
    RequeueInvariant(rest, fired, clock, tick, now);
    RequeueFrames(rest, fired, clock, tick);
    RequeueFired(fired, rest, clock, tick);
    NoMoreTimers(list, fired, Requeue(rest, fired, clock, tick));
  }

  lemma NoMoreTimers(list: seq<Timer<Event>>, fired: seq<Timer<Event>>, list': seq<Timer<Event>>)
    requires AtMostOne(list) && Fired(list, fired, list')
    ensures AtMostOne(list')
  {
    forall id: TimerId | id.topic != Frame ensures Count(list', id) <= 1 {
      assert Count(list', id) <= Count(list, id);
    }
  }

  lemma FireOk(g: Gui)
    requires Inv(g)
    ensures Inv(Fire(g))
  {
    var list, clock, tick := g.ts.list, g.ts.clock, g.ts.tick;
    var due := DueCount(list, clock(tick));
    FiredTimersOk(list, due, clock, tick + 1, clock(tick));
    var list' := Requeue(list[due..], list[..due], clock, tick + 1);
    forall id | id in g.windows
      ensures WinOk(g.windows[id], list', g.inbox + Events(list[..due]), id)
    {
      FiredWindowOk(g.windows[id], list, list[..due], list', g.inbox, id);
    }
  }

  lemma StepOk(g: Gui, step: Step)
    requires Inv(g) && Enabled(g, step)
    ensures Inv(Apply(g, step))
  {
    match step {
      case RedrawRequested(id, highlights, bellDone, timeout) =>
        RedrawOk(g, id, highlights, bellDone, timeout);
      case Deliver(meaning, hold) => DeliverOk(g, meaning, hold);
      case Drain(id, highlights) => DrainOk(g, id, highlights);
      case UpdateTimers => FireOk(g);
      case _ =>
    }
  }

  // ----- Runs -----

  ghost predicate IsRun(states: seq<Gui>, steps: seq<Step>) {
    && |states| == |steps| + 1
    && forall i :: 0 <= i < |steps| ==> IsStep(states, steps, i)
  }

  ghost predicate IsStep(states: seq<Gui>, steps: seq<Step>, i: nat)
    requires |states| == |steps| + 1 && i < |steps|
  {
    Enabled(states[i], steps[i]) && states[i + 1] == Apply(states[i], steps[i])
  }

  lemma {:induction false} RunOk(states: seq<Gui>, steps: seq<Step>, i: nat)
    requires IsRun(states, steps) && Initial(states[0]) && Monotone(states[0].ts.clock)
    requires i <= |steps|
    ensures Inv(states[i])
  {
    if i > 0 {
      RunOk(states, steps, i - 1);
      assert IsStep(states, steps, i - 1);
      StepOk(states[i - 1], steps[i - 1]);
    }
  }

  /**
   No redraw is lost: in every reachable state, a window that is dirty and visible and has handled
   its events has a redraw pending at the window system, or waits for a frame that is on its way.
   */
  lemma NoLostRedraw(states: seq<Gui>, steps: seq<Step>, i: nat, id: nat)
    requires IsRun(states, steps) && Initial(states[0]) && Monotone(states[0].ts.clock)
    requires i <= |steps| && id in states[i].windows
    ensures var w := states[i].windows[id];
            && (w.dirty && !w.occluded && w.queue == [] ==>
                  (w.requested && w.osRedraw)
                  || (!w.hasFrame && FramePending(states[i].ts.list, states[i].inbox, id)))
            && (!w.hasFrame ==> FramePending(states[i].ts.list, states[i].inbox, id))
  {
    RunOk(states, steps, i);
    assert WinOk(states[i].windows[id], states[i].ts.list, states[i].inbox, id);
  }

  /**
   Timer discipline: in every reachable state each topic but frames has at most one timer for a
   window, so that one `unschedule` cancels it; and when blinking has timed out there is no blink
   timer and the cursor is shown.
   */
  lemma TimerDiscipline(states: seq<Gui>, steps: seq<Step>, i: nat, id: TimerId)
    requires IsRun(states, steps) && Initial(states[0]) && Monotone(states[0].ts.clock)
    requires i <= |steps|
    ensures id.topic != Frame ==> Count(states[i].ts.list, id) <= 1
                                  && Count(Remove(states[i].ts.list, id), id) == 0
    ensures id.window in states[i].windows && states[i].windows[id.window].timedOut ==>
              !states[i].windows[id.window].cursorHidden
              && Count(states[i].ts.list, TimerId(BlinkCursor, id.window)) == 0
    ensures Sorted(states[i].ts.list)
  {
    RunOk(states, steps, i);
    CountRemove(states[i].ts.list, id, id);
    if id.window in states[i].windows {
      assert WinOk(states[i].windows[id.window], states[i].ts.list, states[i].inbox, id.window);
    }
  }

  // ----- What a pending redraw leads to -----

  /** Delivering the frame event of a dirty window requests its redraw. */
  lemma FrameRequestsRedraw(g: Gui, id: nat, meaning: nat -> Input, hold: bool)
    requires Inv(g) && id in g.windows && g.windows[id].dirty
    requires g.inbox != [] && g.inbox[0] == Event(Some(id), FrameReady)
    ensures var w := Apply(g, Deliver(meaning, hold)).windows[id];
            w.hasFrame && w.requested && w.osRedraw && w.dirty
  {
    assert WinOk(g.windows[id], g.ts.list, g.inbox, id);
  }

  /**
   When the window system asks for a redraw, the queue is handled first. A window that is hidden then
   stays as dirty as it was and keeps its frame; a visible one gives its frame away for one frame
   timer, and is left dirty, or asks for the next redraw, only for a bell that has not finished.
   */
  lemma RedrawDraws(g: Gui, id: nat, highlights: bool, bellDone: bool, timeout: nat)
    requires Inv(g) && id in g.windows
    ensures var g' := Apply(g, RedrawRequested(id, highlights, bellDone, timeout));
            DrawsOnce(g.windows[id], g.ts.list, id, bellDone, g'.windows[id], g'.ts.list)
  {
    OnRedrawRequestedEffect(g.windows[id], g.ts, g.inbox, id, highlights, bellDone, timeout);
    var (w, ts) := OnRedrawRequested(g.windows[id], g.ts, id, highlights, bellDone, timeout);
    assert Apply(g, RedrawRequested(id, highlights, bellDone, timeout))
        == g.(windows := g.windows[id := w], ts := ts);
  }

  /** Where nothing is under way for a window, it has its frame and is drawn, unless it is hidden. */
  lemma QuietWindowIsDrawn(g: Gui, id: nat)
    requires Inv(g) && id in g.windows
    requires g.windows[id].queue == [] && !g.windows[id].osRedraw
    requires !FramePending(g.ts.list, g.inbox, id)
    ensures g.windows[id].hasFrame && (g.windows[id].dirty ==> g.windows[id].occluded)
  {
    assert WinOk(g.windows[id], g.ts.list, g.inbox, id);
  }

  /**
   Draining forgets no redraw, whatever is in the queue: a window stays dirty, and if the last word of
   its queue is that it is visible, it has asked for its redraw or waits for its frame.
   */
  lemma DrainedWindowIsRequested(g: Gui, id: nat, highlights: bool)
    requires Inv(g) && id in g.windows
    ensures var g' := Apply(g, Drain(id, highlights));
            var w, w' := g.windows[id], g'.windows[id];
            && w'.queue == [] && (w.dirty ==> w'.dirty)
            && w'.occluded == OccludedAfter(w.occluded, w.queue, |w.queue|)
            && (w'.dirty && !w'.occluded ==>
                  (w'.requested && w'.osRedraw)
                  || (!w'.hasFrame && FramePending(g'.ts.list, g'.inbox, id)))
  {
    DrainOk(g, id, highlights);
    var w := g.windows[id];
    HandleEventOk(w, g.ts, g.inbox, id, false, highlights);
    HandleEventVisibility(w, g.ts, id, false, highlights);
    var g' := Apply(g, Drain(id, highlights));
    assert WinOk(g'.windows[id], g'.ts.list, g'.inbox, id);
  }

  // ----- How many steps a waiting window needs -----

  /** The window has something to draw, and nothing else to do first. */
  predicate IsWaiting(g: Gui, id: nat) {
    && id in g.windows && g.windows[id].queue == []
    && g.windows[id].dirty && !g.windows[id].occluded
  }

  /** Steps to the drawing: a frame timer fires, its event is delivered, and the redraw happens. */
  function Distance(g: Gui, id: nat): nat
    requires IsWaiting(g, id)
  {
    if g.windows[id].requested then 1
    else if Event(Some(id), FrameReady) in g.inbox then 2
    else 3
  }

  predicate IsRedrawOf(step: Step, id: nat) { step.RedrawRequested? && step.id == id }

  /** The step that the window waits for. */
  predicate IsOwnStep(g: Gui, step: Step, id: nat)
    requires IsWaiting(g, id)
  {
    match Distance(g, id)
    case 1 => IsRedrawOf(step, id)
    case 2 => step.Deliver? && g.inbox != [] && g.inbox[0] == Event(Some(id), FrameReady)
    case _ =>
      step.UpdateTimers?
      && Count(g.ts.list[..DueCount(g.ts.list, g.ts.clock(g.ts.tick))], TimerId(Frame, id)) > 0
  }

  /** There always is such a step to wait for. */
  lemma WaitingHasNext(g: Gui, id: nat)
    requires Inv(g) && IsWaiting(g, id)
    ensures match Distance(g, id)
            case 1 => g.windows[id].osRedraw
            case 2 => Event(Some(id), FrameReady) in g.inbox
            case _ => Count(g.ts.list, TimerId(Frame, id)) > 0
  {
    assert WinOk(g.windows[id], g.ts.list, g.inbox, id);
  }

  /** Until it is drawn, its own steps bring a waiting window closer and no other step sets it back. */
  lemma WaitingComesCloser(g: Gui, step: Step, id: nat)
    requires Inv(g) && Enabled(g, step) && IsWaiting(g, id) && IsWaiting(Apply(g, step), id)
    requires !IsRedrawOf(step, id)
    ensures Distance(Apply(g, step), id) + (if IsOwnStep(g, step, id) then 1 else 0) <= Distance(g, id)
  {
    WaitingHasNext(g, id);
    match step {
      case RedrawRequested(win, highlights, bellDone, timeout) =>
        var (w, ts) := OnRedrawRequested(g.windows[win], g.ts, win, highlights, bellDone, timeout);
        assert Apply(g, step) == g.(windows := g.windows[win := w], ts := ts);
      case Deliver(meaning, hold) =>
        if g.inbox[0] == Event(Some(id), FrameReady) {
          FrameRequestsRedraw(g, id, meaning, hold);
        } else {
          DeliverKeepsWaiting(g, meaning, hold, id);
        }
      case UpdateTimers =>
        var fired := g.ts.list[..DueCount(g.ts.list, g.ts.clock(g.ts.tick))];
        PrefixOk(g.ts.list, |fired|);
        if Count(fired, TimerId(Frame, id)) > 0 {
          FiredFrameIsSent(fired, id);
        }
      case _ =>
    }
  }

  lemma DeliverKeepsWaiting(g: Gui, meaning: nat -> Input, hold: bool, id: nat)
    requires g.inbox != [] && IsWaiting(g, id) && IsWaiting(Apply(g, Deliver(meaning, hold)), id)
    requires g.inbox[0] != Event(Some(id), FrameReady)
    ensures Distance(Apply(g, Deliver(meaning, hold)), id) <= Distance(g, id)
  {
    DeliverKeepsRequest(g.(inbox := g.inbox[1..]), g.inbox[0], meaning, hold, id);
    assert g.inbox == [g.inbox[0]] + g.inbox[1..];
  }

  lemma DeliverKeepsRequest(g: Gui, event: Event, meaning: nat -> Input, hold: bool, id: nat)
    requires id in g.windows && id in DeliverEvent(g, event, meaning, hold).windows
    ensures var g' := DeliverEvent(g, event, meaning, hold);
            g'.inbox == g.inbox && (g.windows[id].requested ==> g'.windows[id].requested)
  {
    match event.window
    case None =>
    case Some(win) =>
      if win in g.windows {
        KeepsRequest(g.windows[win], meaning(win));
      }
  }

  lemma KeepsRequest(w: Win, input: Input)
    ensures w.requested ==> OnWakeup(w).requested && OnFrame(w).requested && Push(w, input).requested
  {
  }

  /** How many of the first n steps are the window's own. */
  ghost function OwnSteps(states: seq<Gui>, steps: seq<Step>, id: nat, n: nat): nat
    requires n <= |steps| && |states| == |steps| + 1
    requires forall k :: 0 <= k < |states| ==> IsWaiting(states[k], id)
  {
    if n == 0 then 0
    else OwnSteps(states, steps, id, n - 1) + if IsOwnStep(states[n - 1], steps[n - 1], id) then 1 else 0
  }

  /**
   A dirty and visible window is drawn by its third own step at the latest: in every run in which it
   waits and is not drawn, at most two steps are its own.
   */
  lemma {:induction false} DrawnWithinThreeSteps(states: seq<Gui>, steps: seq<Step>, id: nat, n: nat)
    requires IsRun(states, steps) && Inv(states[0]) && n <= |steps|
    requires forall k :: 0 <= k < |states| ==> IsWaiting(states[k], id)
    requires forall k :: 0 <= k < |steps| ==> !IsRedrawOf(steps[k], id)
    ensures Inv(states[n])
    ensures OwnSteps(states, steps, id, n) + Distance(states[n], id) <= Distance(states[0], id) <= 3
  {
    if n > 0 {
      DrawnWithinThreeSteps(states, steps, id, n - 1);
      assert IsStep(states, steps, n - 1);
      StepOk(states[n - 1], steps[n - 1]);
      WaitingComesCloser(states[n - 1], steps[n - 1], id);
    }
  }
}
