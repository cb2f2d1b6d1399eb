/** Timers that emit events at a later time. */
module Scheduler {
  import opened Content
  import opened Sequences

  datatype Topic = SelectionScrolling | DelayedSearch | BlinkCursor | BlinkTimeout | Frame

  datatype TimerId = TimerId(topic: Topic, window: nat)

  datatype Timer<+E> = Timer(deadline: int, event: E, id: TimerId, interval: Option<nat>)

  // ----- The timer list -----

  predicate Sorted<E>(timers: seq<Timer<E>>) {
    forall i, j :: 0 <= i < j < |timers| ==> timers[i].deadline <= timers[j].deadline
  }

  /** Sorted by deadline, with positive intervals for the timers that repeat. */
  predicate WellFormed<E>(timers: seq<Timer<E>>) {
    Sorted(timers) && forall i :: 0 <= i < |timers| ==> timers[i].interval != Some(0)
  }

  predicate AllLater<E>(timers: seq<Timer<E>>, now: int) {
    forall i :: 0 <= i < |timers| ==> timers[i].deadline > now
  }

  predicate AllDue<E>(timers: seq<Timer<E>>, now: int) {
    forall i :: 0 <= i < |timers| ==> timers[i].deadline <= now
  }

  /** Insert before the first timer with a later deadline. */
  function Insert<E>(timers: seq<Timer<E>>, timer: Timer<E>): (all: seq<Timer<E>>)
    ensures |all| == |timers| + 1
  {
    if timers == [] then [timer]
    else if timers[0].deadline > timer.deadline then [timer] + timers
    else [timers[0]] + Insert(timers[1..], timer)
  }

  lemma {:induction false} InsertContents<E>(timers: seq<Timer<E>>, timer: Timer<E>)
    ensures multiset(Insert(timers, timer)) == multiset(timers) + multiset{timer}
  {
    if timers != [] && timers[0].deadline <= timer.deadline {
      InsertContents(timers[1..], timer);
      assert timers == [timers[0]] + timers[1..];
    }
  }

  lemma {:induction false} InsertMembers<E>(timers: seq<Timer<E>>, timer: Timer<E>)
    ensures forall i :: 0 <= i < |Insert(timers, timer)| ==>
              Insert(timers, timer)[i] == timer || Insert(timers, timer)[i] in timers
  {
    if timers != [] && timers[0].deadline <= timer.deadline {
      InsertMembers(timers[1..], timer);
    }
  }

  lemma {:induction false} InsertSorted<E>(timers: seq<Timer<E>>, timer: Timer<E>)
    requires Sorted(timers)
    ensures Sorted(Insert(timers, timer))
  {
    if timers != [] && timers[0].deadline <= timer.deadline {
      InsertSorted(timers[1..], timer);
      InsertMembers(timers[1..], timer);
    }
  }

  lemma InsertWellFormed<E>(timers: seq<Timer<E>>, timer: Timer<E>)
    requires WellFormed(timers) && timer.interval != Some(0)
    ensures WellFormed(Insert(timers, timer))
  {
    InsertSorted(timers, timer);
    InsertMembers(timers, timer);
  }

  /** The timers with one deadline, in list order. */
  function WithDeadline<E>(timers: seq<Timer<E>>, deadline: int): seq<Timer<E>> {
    if timers == [] then []
    else (if timers[0].deadline == deadline then [timers[0]] else [])
         + WithDeadline(timers[1..], deadline)
  }

  /** Insertion is stable: a new timer comes after all timers with the same deadline. */
  lemma {:induction false} InsertStable<E>(timers: seq<Timer<E>>, timer: Timer<E>, deadline: int)
    requires Sorted(timers)
    ensures WithDeadline(Insert(timers, timer), deadline)
         == WithDeadline(timers, deadline) + if timer.deadline == deadline then [timer] else []
  {
    if timers == [] {
    } else if timers[0].deadline > timer.deadline {
      assert ([timer] + timers)[1..] == timers;
      if deadline == timer.deadline {
        NoneEarlier(timers, deadline);
      }
    } else {
      InsertStable(timers[1..], timer, deadline);
      var head := if timers[0].deadline == deadline then [timers[0]] else [];
      var last := if timer.deadline == deadline then [timer] else [];
      var rest := WithDeadline(timers[1..], deadline);
      assert Insert(timers, timer)[1..] == Insert(timers[1..], timer);
      assert (head + rest) + last == head + (rest + last);
    }
  }

  lemma {:induction false} NoneEarlier<E>(timers: seq<Timer<E>>, deadline: int)
    requires Sorted(timers) && (timers != [] ==> timers[0].deadline > deadline)
    ensures WithDeadline(timers, deadline) == []
  {
    if timers != [] {
      NoneEarlier(timers[1..], deadline);
    }
  }

  /** Order by deadline and order among equal deadlines leave only one possible list. */
  lemma {:induction false} SortedStableUnique<E>(a: seq<Timer<E>>, b: seq<Timer<E>>)
    requires Sorted(a) && Sorted(b)
    requires forall deadline :: WithDeadline(a, deadline) == WithDeadline(b, deadline)
    ensures a == b
  {
    if a == [] {
      HeadShows(b);
    } else {
      SameHead(a, b);
      forall deadline
        ensures WithDeadline(a[1..], deadline) == WithDeadline(b[1..], deadline)
      {
        var head := if a[0].deadline == deadline then [a[0]] else [];
        assert WithDeadline(a, deadline) == WithDeadline(b, deadline);
        assert (head + WithDeadline(a[1..], deadline))[|head|..] == WithDeadline(a[1..], deadline);
        assert (head + WithDeadline(b[1..], deadline))[|head|..] == WithDeadline(b[1..], deadline);
      }
      SortedStableUnique(a[1..], b[1..]);
      assert a == [a[0]] + a[1..] && b == [b[0]] + b[1..];
    }
  }

  lemma HeadShows<E>(timers: seq<Timer<E>>)
    ensures timers != [] ==> WithDeadline(timers, timers[0].deadline) != []
  {
  }

  lemma SameHead<E>(a: seq<Timer<E>>, b: seq<Timer<E>>)
    requires Sorted(a) && Sorted(b) && a != []
    requires forall deadline :: WithDeadline(a, deadline) == WithDeadline(b, deadline)
    ensures b != [] && a[0] == b[0]
  {
    assert WithDeadline(a, a[0].deadline)[0] == a[0];
    assert WithDeadline(b, a[0].deadline) == WithDeadline(a, a[0].deadline);
    assert b != [];
    assert WithDeadline(b, b[0].deadline)[0] == b[0];
    assert WithDeadline(a, b[0].deadline) == WithDeadline(b, b[0].deadline);
    if a[0].deadline < b[0].deadline {
      NoneEarlier(b, a[0].deadline);
    } else if b[0].deadline < a[0].deadline {
      NoneEarlier(a, b[0].deadline);
    }
  }

  // ----- Counting timers by id -----

  function Count<E>(timers: seq<Timer<E>>, id: TimerId): nat {
    if timers == [] then 0
    else (if timers[0].id == id then 1 else 0) + Count(timers[1..], id)
  }

  lemma {:induction false} CountAppend<E>(a: seq<Timer<E>>, b: seq<Timer<E>>, id: TimerId)
    ensures Count(a + b, id) == Count(a, id) + Count(b, id)
  {
    if a == [] {
      assert a + b == b;
    } else {
      CountAppend(a[1..], b, id);
      assert (a + b)[1..] == a[1..] + b;
    }
  }

  lemma {:induction false} CountInsert<E>(timers: seq<Timer<E>>, timer: Timer<E>, id: TimerId)
    ensures Count(Insert(timers, timer), id)
         == Count(timers, id) + if timer.id == id then 1 else 0
  {
    if timers == [] {
    } else if timers[0].deadline > timer.deadline {
      assert ([timer] + timers)[1..] == timers;
    } else {
      CountInsert(timers[1..], timer, id);
      assert ([timers[0]] + Insert(timers[1..], timer))[1..] == Insert(timers[1..], timer);
    }
  }

  /** Remove the first timer with an id, if there is one. */
  function Remove<E>(timers: seq<Timer<E>>, id: TimerId): seq<Timer<E>> {
    if timers == [] then []
    else if timers[0].id == id then timers[1..]
    else [timers[0]] + Remove(timers[1..], id)
  }

  function Find<E>(timers: seq<Timer<E>>, id: TimerId): (found: Option<Timer<E>>)
    ensures found.Some? ==> found.value in timers && found.value.id == id
    ensures found.None? <==> Count(timers, id) == 0
  {
    if timers == [] then None
    else if timers[0].id == id then Some(timers[0])
    else Find(timers[1..], id)
  }

  /** A timer that is the first of its id is found, and no other insertion hides it. */
  lemma {:induction false} FindInsert<E>(timers: seq<Timer<E>>, timer: Timer<E>, id: TimerId)
    requires timer.id == id ==> Count(timers, id) == 0
    ensures Find(Insert(timers, timer), id) == if timer.id == id then Some(timer) else Find(timers, id)
  {
    if timers == [] {
    } else if timers[0].deadline > timer.deadline {
      assert ([timer] + timers)[1..] == timers;
    } else {
      FindInsert(timers[1..], timer, id);
      assert ([timers[0]] + Insert(timers[1..], timer))[1..] == Insert(timers[1..], timer);
    }
  }

  lemma {:induction false} FindRemove<E>(timers: seq<Timer<E>>, id: TimerId, other: TimerId)
    requires other != id
    ensures Find(Remove(timers, id), other) == Find(timers, other)
  {
    if timers != [] && timers[0].id != id {
      FindRemove(timers[1..], id, other);
      assert ([timers[0]] + Remove(timers[1..], id))[1..] == Remove(timers[1..], id);
    }
  }

  /** One `unschedule` takes away one timer of its id, and nothing else. */
  lemma {:induction false} CountRemove<E>(timers: seq<Timer<E>>, id: TimerId, other: TimerId)
    ensures Count(Remove(timers, id), other)
         == if other == id && Count(timers, id) > 0 then Count(timers, id) - 1
            else Count(timers, other)
  {
    if timers != [] && timers[0].id != id {
      CountRemove(timers[1..], id, other);
      assert ([timers[0]] + Remove(timers[1..], id))[1..] == Remove(timers[1..], id);
    }
  }

  lemma {:induction false} RemoveMembers<E>(timers: seq<Timer<E>>, id: TimerId)
    ensures forall i :: 0 <= i < |Remove(timers, id)| ==> Remove(timers, id)[i] in timers
  {
    if timers != [] && timers[0].id != id {
      RemoveMembers(timers[1..], id);
    }
  }

  lemma {:induction false} RemoveWellFormed<E>(timers: seq<Timer<E>>, id: TimerId)
    requires WellFormed(timers)
    ensures WellFormed(Remove(timers, id))
  {
    if timers != [] && timers[0].id != id {
      RemoveWellFormed(timers[1..], id);
      RemoveMembers(timers[1..], id);
    }
  }

  /** The first timer with an id, found by position. */
  lemma {:induction false} RemoveAt<E>(timers: seq<Timer<E>>, id: TimerId, index: nat)
    requires index <= |timers| && forall i :: 0 <= i < index ==> timers[i].id != id
    ensures index == |timers| ==> Remove(timers, id) == timers && Find(timers, id) == None
    ensures index < |timers| && timers[index].id == id ==>
              && Remove(timers, id) == timers[..index] + timers[index + 1..]
              && Find(timers, id) == Some(timers[index])
  {
    if index > 0 {
      RemoveAt(timers[1..], id, index - 1);
      assert timers == [timers[0]] + timers[1..];
      if index < |timers| && timers[index].id == id {
        assert timers[..index] + timers[index + 1..]
            == [timers[0]] + (timers[1..][..index - 1] + timers[1..][index..]);
      }
    }
  }

  /** Drop all timers of a window. */
  function DropWindow<E>(timers: seq<Timer<E>>, window: nat): seq<Timer<E>> {
    if timers == [] then []
    else if timers[0].id.window == window then DropWindow(timers[1..], window)
    else [timers[0]] + DropWindow(timers[1..], window)
  }

  lemma {:induction false} DropWindowMembers<E>(timers: seq<Timer<E>>, window: nat)
    ensures forall i :: 0 <= i < |DropWindow(timers, window)| ==>
              DropWindow(timers, window)[i] in timers
  {
    if timers != [] {
      DropWindowMembers(timers[1..], window);
    }
  }

  lemma {:induction false} DropWindowCount<E>(timers: seq<Timer<E>>, window: nat, id: TimerId)
    ensures Count(DropWindow(timers, window), id)
         == if id.window == window then 0 else Count(timers, id)
  {
    if timers != [] {
      DropWindowCount(timers[1..], window, id);
      var rest := DropWindow(timers[1..], window);
      assert ([timers[0]] + rest)[1..] == rest;
    }
  }

  /** Timers are dropped one by one, exactly those of the window, and the rest stay in order. */
  lemma {:induction false} DropWindowAppend<E>(a: seq<Timer<E>>, b: seq<Timer<E>>, window: nat)
    ensures DropWindow(a + b, window) == DropWindow(a, window) + DropWindow(b, window)
  {
    if a == [] {
      assert a + b == b;
    } else {
      DropWindowAppend(a[1..], b, window);
      assert (a + b)[1..] == a[1..] + b;
      if a[0].id.window != window {
        Associative([a[0]], DropWindow(a[1..], window), DropWindow(b, window));
      }
    }
  }

  lemma DropWindowOne<E>(timer: Timer<E>, window: nat)
    ensures DropWindow([timer], window) == if timer.id.window == window then [] else [timer]
  {
  }

  lemma {:induction false} DropWindowWellFormed<E>(timers: seq<Timer<E>>, window: nat)
    requires WellFormed(timers)
    ensures WellFormed(DropWindow(timers, window))
  {
    if timers != [] {
      DropWindowWellFormed(timers[1..], window);
      DropWindowMembers(timers[1..], window);
    }
  }

  // ----- Firing due timers -----

  /** Readings of the clock, one for each time it is asked. */
  type Clock = nat -> int

  ghost predicate Monotone(clock: Clock) {
    forall i: nat, j: nat :: i <= j ==> clock(i) <= clock(j)
  }

  function DueCount<E>(timers: seq<Timer<E>>, now: int): (n: nat)
    ensures n <= |timers|
    ensures forall i :: 0 <= i < n ==> timers[i].deadline <= now
    ensures n < |timers| ==> timers[n].deadline > now
  {
    if timers != [] && timers[0].deadline <= now then 1 + DueCount(timers[1..], now) else 0
  }

  function Renewed<E>(timer: Timer<E>, now: int): Timer<E>
    requires timer.interval.Some?
  {
    timer.(deadline := now + timer.interval.value)
  }

  /** Put the repeating ones of the fired timers back, each at its own reading of the clock. */
  function Requeue<E>(timers: seq<Timer<E>>, fired: seq<Timer<E>>, clock: Clock, tick: nat)
    : seq<Timer<E>>
    decreases fired
  {
    if fired == [] then timers
    else if fired[0].interval.Some? then
      Requeue(Insert(timers, Renewed(fired[0], clock(tick))), fired[1..], clock, tick + 1)
    else Requeue(timers, fired[1..], clock, tick)
  }

  predicate AllRepeat<E>(timers: seq<Timer<E>>) {
    forall i :: 0 <= i < |timers| ==> timers[i].interval.Some?
  }

  function Repeating<E>(timers: seq<Timer<E>>): (repeating: seq<Timer<E>>)
    ensures AllRepeat(repeating)
  {
    if timers == [] then []
    else (if timers[0].interval.Some? then [timers[0]] else []) + Repeating(timers[1..])
  }

  /** Exactly the repeating timers come back, with nothing lost or doubled. */
  lemma {:induction false} RequeueCount<E>(timers: seq<Timer<E>>, fired: seq<Timer<E>>,
                                           clock: Clock, tick: nat, id: TimerId)
    ensures Count(Requeue(timers, fired, clock, tick), id)
         == Count(timers, id) + Count(Repeating(fired), id)
    decreases fired
  {
    if fired != [] {
      var head := if fired[0].interval.Some? then [fired[0]] else [];
      CountAppend(head, Repeating(fired[1..]), id);
      if fired[0].interval.Some? {
        var timer := Renewed(fired[0], clock(tick));
        CountInsert(timers, timer, id);
        RequeueCount(Insert(timers, timer), fired[1..], clock, tick + 1, id);
      } else {
        RequeueCount(timers, fired[1..], clock, tick, id);
      }
    }
  }

  lemma {:induction false} RepeatingCount<E>(timers: seq<Timer<E>>, id: TimerId)
    ensures Count(Repeating(timers), id) <= Count(timers, id)
  {
    if timers != [] {
      RepeatingCount(timers[1..], id);
      var head := if timers[0].interval.Some? then [timers[0]] else [];
      CountAppend(head, Repeating(timers[1..]), id);
    }
  }

  /** New timers for repeating ones: each one interval after its own reading of the clock. */
  function RenewedAll<E>(repeating: seq<Timer<E>>, clock: Clock, tick: nat): (renewed: seq<Timer<E>>)
    requires AllRepeat(repeating)
    ensures |renewed| == |repeating|
    ensures forall j :: 0 <= j < |repeating| ==>
              renewed[j] == Timer(clock(tick + j) + repeating[j].interval.value, repeating[j].event,
                                  repeating[j].id, repeating[j].interval)
  {
    if repeating == [] then []
    else [Renewed(repeating[0], clock(tick))] + RenewedAll(repeating[1..], clock, tick + 1)
  }

  /**
   The list consists of the timers that stay and of one timer for each repeating one: with its event,
   id and interval, due one interval after a reading of the clock, one reading each.
   */
  ghost predicate IsPutBack<E>(all: seq<Timer<E>>, stay: seq<Timer<E>>, repeating: seq<Timer<E>>,
                               clock: Clock, tick: nat)
  {
    AllRepeat(repeating) && multiset(all) == multiset(stay) + multiset(RenewedAll(repeating, clock, tick))
  }

  lemma PutBackMore<E>(all: seq<Timer<E>>, stay: seq<Timer<E>>, timer: Timer<E>, rest: seq<Timer<E>>,
                       clock: Clock, tick: nat)
    requires timer.interval.Some?
    requires IsPutBack(all, Insert(stay, Renewed(timer, clock(tick))), rest, clock, tick + 1)
    ensures IsPutBack(all, stay, [timer] + rest, clock, tick)
  {
    InsertContents(stay, Renewed(timer, clock(tick)));
    assert ([timer] + rest)[1..] == rest;
  }

  lemma {:induction false} RequeuePutsBack<E>(timers: seq<Timer<E>>, fired: seq<Timer<E>>,
                                              clock: Clock, tick: nat)
    ensures IsPutBack(Requeue(timers, fired, clock, tick), timers, Repeating(fired), clock, tick)
    decreases fired
  {
    if fired == [] {
      assert RenewedAll<E>([], clock, tick) == [];
    } else if fired[0].interval.Some? {
      RequeuePutsBack(Insert(timers, Renewed(fired[0], clock(tick))), fired[1..], clock, tick + 1);
      PutBackMore(Requeue(timers, fired, clock, tick), timers, fired[0], Repeating(fired[1..]), clock, tick);
    } else {
      RequeuePutsBack(timers, fired[1..], clock, tick);
      assert [] + Repeating(fired[1..]) == Repeating(fired[1..]);
    }
  }

  /** The repeating ones are picked out one by one and stay in order. */
  lemma {:induction false} RepeatingAppend<E>(a: seq<Timer<E>>, b: seq<Timer<E>>)
    ensures Repeating(a + b) == Repeating(a) + Repeating(b)
  {
    if a == [] {
      assert a + b == b;
    } else {
      RepeatingAppend(a[1..], b);
      assert (a + b)[1..] == a[1..] + b;
      Associative(if a[0].interval.Some? then [a[0]] else [], Repeating(a[1..]), Repeating(b));
    }
  }

  lemma RepeatingOne<E>(timer: Timer<E>)
    ensures Repeating([timer]) == if timer.interval.Some? then [timer] else []
  {
  }

  /** The list stays well-formed, and nothing in it is due. */
  lemma {:induction false} RequeueInvariant<E>(timers: seq<Timer<E>>, fired: seq<Timer<E>>,
                                               clock: Clock, tick: nat, now: int)
    requires WellFormed(timers) && WellFormed(fired) && AllLater(timers, now)
    requires Monotone(clock) && now <= clock(tick)
    ensures var all := Requeue(timers, fired, clock, tick);
            WellFormed(all) && AllLater(all, now)
    decreases fired
  {
    if fired != [] {
      if fired[0].interval.Some? {
        RenewLater(timers, fired[0], clock(tick), now);
        RequeueInvariant(Insert(timers, Renewed(fired[0], clock(tick))), fired[1..],
                         clock, tick + 1, now);
      } else {
        RequeueInvariant(timers, fired[1..], clock, tick, now);
      }
    }
  }

  lemma RenewLater<E>(timers: seq<Timer<E>>, timer: Timer<E>, reading: int, now: int)
    requires WellFormed(timers) && AllLater(timers, now) && now <= reading
    requires timer.interval.Some? && timer.interval != Some(0)
    ensures var all := Insert(timers, Renewed(timer, reading));
            WellFormed(all) && AllLater(all, now)
  {
    InsertWellFormed(timers, Renewed(timer, reading));
    InsertMembers(timers, Renewed(timer, reading));
  }

  /** A renewed timer is inserted behind everything that is still due. */
  lemma {:induction false} InsertAfterDue<E>(due: seq<Timer<E>>, rest: seq<Timer<E>>, timer: Timer<E>)
    requires forall i :: 0 <= i < |due| ==> due[i].deadline <= timer.deadline
    ensures Insert(due + rest, timer) == due + Insert(rest, timer)
  {
    if due == [] {
      assert due + rest == rest && due + Insert(rest, timer) == Insert(rest, timer);
    } else {
      InsertAfterDue(due[1..], rest, timer);
      assert (due + rest)[1..] == due[1..] + rest;
      assert due + Insert(rest, timer) == [due[0]] + (due[1..] + Insert(rest, timer));
    }
  }

  function Events<E>(timers: seq<Timer<E>>): seq<E> {
    seq(|timers|, i requires 0 <= i < |timers| => timers[i].event)
  }

  lemma InsertAt<E>(timers: seq<Timer<E>>, timer: Timer<E>, index: nat)
    requires index <= |timers| && AllDue(timers[..index], timer.deadline)
    requires index < |timers| ==> timers[index].deadline > timer.deadline
    ensures Insert(timers, timer) == timers[..index] + [timer] + timers[index..]
  {
    assert timers == timers[..index] + timers[index..];
    InsertAfterDue(timers[..index], timers[index..], timer);
  }

  class Scheduler<!E> {
    var timers: seq<Timer<E>>
    /** Events given to the event loop, oldest first. */
    var sent: seq<E>
    const clock: Clock
    var tick: nat

    ghost predicate Valid()
      reads this
    {
      WellFormed(timers) && Monotone(clock)
    }

    constructor (clock: Clock)
      requires Monotone(clock)
      ensures Valid() && timers == [] && sent == [] && tick == 0 && this.clock == clock
    {
      timers, sent, tick := [], [], 0;
      this.clock := clock;
    }

    method Now() returns (now: int)
      modifies this`tick
      ensures now == clock(old(tick)) && tick == old(tick) + 1
    {
      now := clock(tick);
      tick := tick + 1;
    }

    method Schedule(event: E, interval: nat, repeat: bool, id: TimerId)
      requires Sorted(timers)
      modifies this`timers, this`tick
      ensures Sorted(timers) && tick == old(tick) + 1
      ensures old(Valid()) && (repeat ==> interval > 0) ==> Valid()
      ensures timers == Insert(old(timers), Timer(clock(old(tick)) + interval, event, id,
                                                  if repeat then Some(interval) else None))
    {
      var now := Now();
      var timer := Timer(now + interval, event, id, if repeat then Some(interval) else None);

      var index := 0;
      while index < |timers| && timers[index].deadline <= timer.deadline
        invariant 0 <= index <= |timers| && AllDue(timers[..index], timer.deadline)
      {
        index := index + 1;
      }
      InsertAt(timers, timer, index);
      InsertSorted(timers, timer);
      InsertMembers(timers, timer);
      timers := timers[..index] + [timer] + timers[index..];
    }

    method Unschedule(id: TimerId) returns (timer: Option<Timer<E>>)
      requires Valid()
      modifies this`timers
      ensures Valid()
      ensures timers == Remove(old(timers), id) && timer == Find(old(timers), id)
    {
      var index := 0;
      while index < |timers| && timers[index].id != id
        invariant 0 <= index <= |timers|
        invariant forall i :: 0 <= i < index ==> timers[i].id != id
      {
        index := index + 1;
      }
      RemoveAt(timers, id, index);
      RemoveWellFormed(timers, id);
      if index == |timers| {
        return None;
      }
      timer := Some(timers[index]);
      timers := timers[..index] + timers[index + 1..];
    }

    method Scheduled(id: TimerId) returns (found: bool)
      ensures found <==> Count(timers, id) > 0
    {
      found := Find(timers, id).Some?;
    }

    method UnscheduleWindow(window: nat)
      requires Valid()
      modifies this`timers
      ensures Valid() && timers == DropWindow(old(timers), window)
    {
      DropWindowWellFormed(timers, window);
      var kept: seq<Timer<E>> := [];
      for i := 0 to |timers|
        invariant DropWindow(timers, window) == kept + DropWindow(timers[i..], window)
      {
        var timer, rest := timers[i], DropWindow(timers[i + 1..], window);
        assert timers[i..][0] == timer && timers[i..][1..] == timers[i + 1..];
        if timer.id.window != window {
          assert kept + ([timer] + rest) == (kept + [timer]) + rest;
          kept := kept + [timer];
        }
      }
      assert timers[|timers|..] == [] && kept + [] == kept;
      timers := kept;
    }

    /** One turn of the loop of `update`. */
    method FireFirst()
      requires Valid() && timers != []
      modifies this`timers, this`sent, this`tick
      ensures Valid() && sent == old(sent) + [old(timers)[0].event]
      ensures var timer := old(timers)[0];
              if timer.interval.Some? then
                && tick == old(tick) + 1
                && timers == Insert(old(timers)[1..],
                                    Timer(clock(old(tick)) + timer.interval.value, timer.event,
                                          timer.id, timer.interval))
              else tick == old(tick) && timers == old(timers)[1..]
    {
      var timer := timers[0];
      SuffixWellFormed(timers, 1);
      timers := timers[1..];
      if timer.interval.Some? {
        Schedule(timer.event, timer.interval.value, true, timer.id);
      }
      sent := sent + [timer.event];
    }

    method FireNext(now: int, ghost p: Progress<E>, ghost goal: Goal<E>) returns (ghost next: Progress<E>)
      requires Valid() && now <= clock(tick) && p.Leads(timers, sent, now, clock, tick, goal)
      requires timers != [] && timers[0].deadline <= now
      modifies this`timers, this`sent, this`tick
      ensures Valid() && old(tick) <= tick && |next.waiting| < |p.waiting|
      ensures next.Leads(timers, sent, now, clock, tick, goal)
    {
      p.Step(timers, sent, now, clock, tick, goal);
      next := p.Next(clock, tick);
      FireFirst();
    }

    /** The loop of `update`. */
    method FireDue(now: int, ghost start: Progress<E>, ghost goal: Goal<E>)
      requires Valid() && now <= clock(tick) && start.Leads(timers, sent, now, clock, tick, goal)
      modifies this`timers, this`sent, this`tick
      ensures Valid() && timers == goal.timers && sent == goal.sent && AllLater(timers, now)
    {
      ghost var p := start;
      while timers != [] && timers[0].deadline <= now
        invariant old(tick) <= tick && Valid()
        invariant p.Leads(timers, sent, now, clock, tick, goal)
        decreases |p.waiting|
      {
        p := FireNext(now, p, goal);
      }
      p.Done(timers, sent, now, clock, tick, goal);
    }

    /**
     Fires every timer that is due at the start, once and in list order, puts exactly the repeating
     ones back, and returns the earliest remaining deadline, which lies after the start.
     */
    method Update() returns (next: Option<int>)
      requires Valid()
      modifies this`timers, this`sent, this`tick
      ensures Valid()
      ensures var now := clock(old(tick));
              var due := DueCount(old(timers), now);
              && sent == old(sent) + Events(old(timers)[..due])
              && timers == Requeue(old(timers)[due..], old(timers)[..due], clock, old(tick) + 1)
              && AllLater(timers, now)
              && next == if timers == [] then None else Some(timers[0].deadline)
      ensures IsFired(old(timers), old(sent), clock, old(tick), timers, sent)
    {
      next := FireAll();
      FiredAndPutBack(old(timers), old(sent), clock, old(tick), timers, sent);
    }

    method FireAll() returns (next: Option<int>)
      requires Valid()
      modifies this`timers, this`sent, this`tick
      ensures Valid()
      ensures var now := clock(old(tick));
              var due := DueCount(old(timers), now);
              && sent == old(sent) + Events(old(timers)[..due])
              && timers == Requeue(old(timers)[due..], old(timers)[..due], clock, old(tick) + 1)
              && AllLater(timers, now)
              && next == if timers == [] then None else Some(timers[0].deadline)
    {
      var now := Now();
      ghost var due := DueCount(timers, now);
      ghost var goal := Goal(sent + Events(timers[..due]),
                             Requeue(timers[due..], timers[..due], clock, tick));
      StartLeads(timers, sent, now, clock, tick);
      FireDue(now, Progress(timers[..due], timers[due..]), goal);
      next := if timers == [] then None else Some(timers[0].deadline);
    }
  }

  /**
   One event for each timer that is due at the first reading of the clock, in list order; and a list
   of the timers that are not, with the repeating ones put back.
   */
  ghost predicate IsFired<E>(timers: seq<Timer<E>>, sent: seq<E>, clock: Clock, tick: nat,
                             timers': seq<Timer<E>>, sent': seq<E>)
  {
    var due := DueCount(timers, clock(tick));
    && AreSent(timers[..due], sent, sent')
    && IsPutBack(timers', timers[due..], Repeating(timers[..due]), clock, tick + 1)
  }

  /** The events of these timers have been sent, after all earlier ones. */
  ghost predicate AreSent<E>(timers: seq<Timer<E>>, sent: seq<E>, sent': seq<E>) {
    && |sent'| == |sent| + |timers| && sent <= sent'
    && forall i :: 0 <= i < |timers| ==> sent'[|sent| + i] == timers[i].event
  }

  lemma EventsAreSent<E>(timers: seq<Timer<E>>, sent: seq<E>)
    ensures AreSent(timers, sent, sent + Events(timers))
  {
  }

  lemma FiredAndPutBack<E>(timers: seq<Timer<E>>, sent: seq<E>, clock: Clock, tick: nat,
                           timers': seq<Timer<E>>, sent': seq<E>)
    requires var due := DueCount(timers, clock(tick));
             && timers' == Requeue(timers[due..], timers[..due], clock, tick + 1)
             && sent' == sent + Events(timers[..due])
    ensures IsFired(timers, sent, clock, tick, timers', sent')
  {
    var due := DueCount(timers, clock(tick));
    EventsAreSent(timers[..due], sent);
    RequeuePutsBack(timers[due..], timers[..due], clock, tick + 1);
  }

  /** What the loop of `update` works towards. */
  datatype Goal<+E> = Goal(sent: seq<E>, timers: seq<Timer<E>>)

  /** Due timers still to be fired, and the later ones, among them those already put back. */
  datatype Progress<+E> = Progress(waiting: seq<Timer<E>>, later: seq<Timer<E>>) {
    ghost predicate Leads(timers: seq<Timer<E>>, sent: seq<E>, now: int, clock: Clock, tick: nat,
                          goal: Goal<E>)
    {
      && timers == waiting + later && AllDue(waiting, now) && AllLater(later, now)
      && sent + Events(waiting) == goal.sent
      && Requeue(later, waiting, clock, tick) == goal.timers
    }

    function Next(clock: Clock, tick: nat): Progress<E>
      requires waiting != []
    {
      if waiting[0].interval.Some? then
        Progress(waiting[1..], Insert(later, Renewed(waiting[0], clock(tick))))
      else Progress(waiting[1..], later)
    }

    lemma Step(timers: seq<Timer<E>>, sent: seq<E>, now: int, clock: Clock, tick: nat, goal: Goal<E>)
      requires Leads(timers, sent, now, clock, tick, goal)
      requires WellFormed(timers) && Monotone(clock) && now <= clock(tick)
      requires timers != [] && timers[0].deadline <= now
      ensures waiting != []
      ensures if timers[0].interval.Some? then
                Next(clock, tick).Leads(Insert(timers[1..], Renewed(timers[0], clock(tick))),
                                        sent + [timers[0].event], now, clock, tick + 1, goal)
              else
                Next(clock, tick).Leads(timers[1..], sent + [timers[0].event], now, clock, tick, goal)
    {
      assert waiting != [];
      var timer := waiting[0];
      assert timers[1..] == waiting[1..] + later;
      assert Events(waiting) == [timer.event] + Events(waiting[1..]);
      assert (sent + [timer.event]) + Events(waiting[1..])
          == sent + ([timer.event] + Events(waiting[1..]));
      if timer.interval.Some? {
        SuffixWellFormed(timers, |waiting|);
        assert timers[|waiting|..] == later;
        RenewLater(later, timer, clock(tick), now);
        InsertAfterDue(waiting[1..], later, Renewed(timer, clock(tick)));
      }
    }

    lemma Done(timers: seq<Timer<E>>, sent: seq<E>, now: int, clock: Clock, tick: nat, goal: Goal<E>)
      requires Leads(timers, sent, now, clock, tick, goal)
      requires timers == [] || timers[0].deadline > now
      ensures timers == goal.timers && sent == goal.sent && AllLater(timers, now)
    {
      assert |timers| == |waiting| + |later|;
      assert waiting == [];
    }
  }

  lemma StartLeads<E>(timers: seq<Timer<E>>, sent: seq<E>, now: int, clock: Clock, tick: nat)
    requires WellFormed(timers)
    ensures var due := DueCount(timers, now);
            Progress(timers[..due], timers[due..]).Leads(
              timers, sent, now, clock, tick,
              Goal(sent + Events(timers[..due]), Requeue(timers[due..], timers[..due], clock, tick)))
  {
  }

  lemma SuffixWellFormed<E>(timers: seq<Timer<E>>, n: nat)
    requires WellFormed(timers) && n <= |timers|
    ensures WellFormed(timers[n..])
  {
  }
}
