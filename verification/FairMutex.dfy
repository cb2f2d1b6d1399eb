/**
 The fair mutex: a data mutex behind a second mutex, `next`, that threads take first.

 Threads interleave at every acquisition and release. Either mutex, when free, may be taken by any
 thread that waits for it.
 */
module FairMutex {
  import opened Content

  /** Where a thread is. The first group is a call of `lock`, the second one is `pty_read`. */
  datatype Pc =
    | Idle
    | WaitNext        // in next.lock()
    | WaitData        // holds next, in data.lock()
    | HoldBoth        // holds next and data, about to drop next
    | Locked          // holds data
    | WaitLease       // in next.lock(), for a lease
    | Leased          // holds next as a lease
    | WaitDataLeased  // holds the lease, in lock_unfair()
    | LeasedLocked    // holds the lease and data
    | Unleasing       // has dropped data, about to drop the lease
    | BareWait        // in lock_unfair() without a lease
    | BareLocked      // holds data, taken without a lease

  predicate HoldsNext(pc: Pc) {
    pc.WaitData? || pc.HoldBoth? || pc.Leased? || pc.WaitDataLeased? || pc.LeasedLocked?
    || pc.Unleasing?
  }

  predicate HoldsData(pc: Pc) {
    pc.HoldBoth? || pc.Locked? || pc.LeasedLocked? || pc.BareLocked?
  }

  predicate WaitsAtData(pc: Pc) { pc.WaitData? || pc.WaitDataLeased? }

  predicate IsBare(pc: Pc) { pc.BareWait? || pc.BareLocked? }

  datatype State = State(next: Option<nat>, data: Option<nat>, pcs: seq<Pc>)

  datatype Action =
    | CallLock | TakeNext | TakeData | DropNext | DropData
    | CallLease | TakeLease | TryFails | TrySucceeds | CallUnfair | TakeDataLeased
    | DropDataLeased | DropLease
    | CallBare | TakeDataBare | DropDataBare

  predicate Enabled(s: State, t: nat, a: Action) {
    t < |s.pcs| &&
    match a
    case CallLock => s.pcs[t].Idle?
    case TakeNext => s.pcs[t].WaitNext? && s.next.None?
    case TakeData => s.pcs[t].WaitData? && s.data.None?
    case DropNext => s.pcs[t].HoldBoth?
    case DropData => s.pcs[t].Locked?
    case CallLease => s.pcs[t].Idle?
    case TakeLease => s.pcs[t].WaitLease? && s.next.None?
    case TryFails => s.pcs[t].Leased? && s.data.Some?
    case TrySucceeds => s.pcs[t].Leased? && s.data.None?
    case CallUnfair => s.pcs[t].Leased?
    case TakeDataLeased => s.pcs[t].WaitDataLeased? && s.data.None?
    case DropDataLeased => s.pcs[t].LeasedLocked?
    case DropLease => s.pcs[t].Leased? || s.pcs[t].Unleasing?
    case CallBare => s.pcs[t].Idle?
    case TakeDataBare => s.pcs[t].BareWait? && s.data.None?
    case DropDataBare => s.pcs[t].BareLocked?
  }

  function Apply(s: State, t: nat, a: Action): State
    requires Enabled(s, t, a)
  {
    match a
    case CallLock => s.(pcs := s.pcs[t := WaitNext])
    case TakeNext => State(Some(t), s.data, s.pcs[t := WaitData])
    case TakeData => State(s.next, Some(t), s.pcs[t := HoldBoth])
    case DropNext => State(None, s.data, s.pcs[t := Locked])
    case DropData => State(s.next, None, s.pcs[t := Idle])
    case CallLease => s.(pcs := s.pcs[t := WaitLease])
    case TakeLease => State(Some(t), s.data, s.pcs[t := Leased])
    case TryFails => s
    case TrySucceeds => State(s.next, Some(t), s.pcs[t := LeasedLocked])
    case CallUnfair => s.(pcs := s.pcs[t := WaitDataLeased])
    case TakeDataLeased => State(s.next, Some(t), s.pcs[t := LeasedLocked])
    case DropDataLeased => State(s.next, None, s.pcs[t := Unleasing])
    case DropLease => State(None, s.data, s.pcs[t := Idle])
    case CallBare => s.(pcs := s.pcs[t := BareWait])
    case TakeDataBare => State(s.next, Some(t), s.pcs[t := BareLocked])
    case DropDataBare => State(s.next, None, s.pcs[t := Idle])
  }

  /** Clients keep the discipline when none of them calls `lock_unfair` without a lease. */
  predicate Disciplined(a: Action) { !a.CallBare? }

  datatype Step = Step(t: nat, a: Action)

  /** A run of steps that are all enabled in turn, and the states it goes through. */
  ghost predicate IsRun(states: seq<State>, steps: seq<Step>) {
    && |states| == |steps| + 1
    && forall i :: 0 <= i < |steps| ==> IsStep(states, steps, i)
  }

  ghost predicate IsStep(states: seq<State>, steps: seq<Step>, i: nat)
    requires |states| == |steps| + 1 && i < |steps|
  {
    && Enabled(states[i], steps[i].t, steps[i].a)
    && states[i + 1] == Apply(states[i], steps[i].t, steps[i].a)
    && Disciplined(steps[i].a)
  }

  predicate Initial(s: State) {
    s.next == None && s.data == None && forall t :: 0 <= t < |s.pcs| ==> s.pcs[t] == Idle
  }

  // ----- Invariant -----

  /** The holder of each mutex is the one thread whose program counter says so. */
  predicate Inv(s: State) {
    && (forall t :: 0 <= t < |s.pcs| ==>
          && !IsBare(s.pcs[t])
          && (HoldsNext(s.pcs[t]) <==> s.next == Some(t))
          && (HoldsData(s.pcs[t]) <==> s.data == Some(t)))
    && (s.next.Some? ==> s.next.value < |s.pcs|)
    && (s.data.Some? ==> s.data.value < |s.pcs|)
  }

  /** One step keeps the invariant, and only the holder of `next` ever takes `data`. */
  lemma StepKeepsInv(s: State, t: nat, a: Action)
    requires Inv(s) && Enabled(s, t, a) && Disciplined(a)
    ensures Inv(Apply(s, t, a))
    ensures Apply(s, t, a).data == s.data || Apply(s, t, a).data == None
            || (Apply(s, t, a).data == s.next == Some(t) && s.data == None)
  {
  }

  lemma {:induction false} RunKeepsInv(states: seq<State>, steps: seq<Step>, i: nat)
    requires IsRun(states, steps) && Inv(states[0]) && i <= |steps|
    ensures Inv(states[i])
  {
    if i > 0 {
      RunKeepsInv(states, steps, i - 1);
      assert IsStep(states, steps, i - 1);
      StepKeepsInv(states[i - 1], steps[i - 1].t, steps[i - 1].a);
    }
  }

  /** In every interleaving, a thread that acquires `data` holds `next` when it does. */
  lemma OnlyHolderOfNextAcquires(states: seq<State>, steps: seq<Step>, i: nat)
    requires IsRun(states, steps) && Initial(states[0]) && i < |steps|
    requires states[i + 1].data.Some? && states[i + 1].data != states[i].data
    ensures states[i].next == states[i + 1].data == Some(steps[i].t)
  {
    assert Inv(states[0]);
    RunKeepsInv(states, steps, i);
    assert IsStep(states, steps, i);
    StepKeepsInv(states[i], steps[i].t, steps[i].a);
  }

  /**
   Nobody overtakes a thread that waits at `data`: as long as it waits, `data` is held by the thread
   that held it when the wait began or, once that thread has let go, by nobody.
   */
  lemma {:induction false} NoOvertaking(states: seq<State>, steps: seq<Step>, t: nat, i: nat, j: nat)
    requires IsRun(states, steps) && Initial(states[0]) && i <= j < |states|
    requires forall k :: i <= k <= j ==> t < |states[k].pcs| && WaitsAtData(states[k].pcs[t])
    ensures states[j].data == states[i].data || states[j].data == None
    decreases j - i
  {
    if i < j {
      NoOvertaking(states, steps, t, i, j - 1);
      assert Inv(states[0]);
      RunKeepsInv(states, steps, j - 1);
      RunKeepsInv(states, steps, j);
      assert IsStep(states, steps, j - 1);
      StepKeepsInv(states[j - 1], steps[j - 1].t, steps[j - 1].a);
      assert WaitsAtData(states[j - 1].pcs[t]) && WaitsAtData(states[j].pcs[t]);
    }
  }

  // ----- Progress -----

  /** Steps that bring a call closer to its end; retrying and starting new calls do not count. */
  predicate IsProgress(a: Action) {
    !a.CallLock? && !a.CallLease? && !a.TryFails? && !a.CallBare?
  }

  /** Unless all threads are idle, some thread can make progress: there is no deadlock. */
  lemma NeverStuck(s: State)
    requires Inv(s) && exists t :: 0 <= t < |s.pcs| && s.pcs[t] != Idle
    ensures exists t: nat, a: Action :: IsProgress(a) && Enabled(s, t, a)
  {
    if s.data.Some? {
      var t := s.data.value;
      assert Enabled(s, t, match s.pcs[t]
                           case HoldBoth => DropNext
                           case Locked => DropData
                           case _ => DropDataLeased);
    } else if s.next.Some? {
      var t := s.next.value;
      assert Enabled(s, t, match s.pcs[t]
                           case WaitData => TakeData
                           case Leased => TrySucceeds
                           case WaitDataLeased => TakeDataLeased
                           case _ => DropLease);
    } else {
      var t :| 0 <= t < |s.pcs| && s.pcs[t] != Idle;
      assert Enabled(s, t, if s.pcs[t].WaitNext? then TakeNext else TakeLease);
    }
  }

  /** The most progress steps a thread can make before it is idle. */
  function Rank(pc: Pc): nat {
    match pc
    case Idle => 0
    case Locked => 1
    case HoldBoth => 2
    case WaitData => 3
    case WaitNext => 4
    case Unleasing => 1
    case LeasedLocked => 2
    case WaitDataLeased => 3
    case Leased => 4
    case WaitLease => 5
    case BareLocked => 1
    case BareWait => 2
  }

  function TotalRank(pcs: seq<Pc>): nat {
    if pcs == [] then 0 else Rank(pcs[0]) + TotalRank(pcs[1..])
  }

  lemma {:induction false} TotalRankUpdate(pcs: seq<Pc>, t: nat, pc: Pc)
    requires t < |pcs|
    ensures TotalRank(pcs[t := pc]) == TotalRank(pcs) - Rank(pcs[t]) + Rank(pc)
  {
    if t > 0 {
      TotalRankUpdate(pcs[1..], t - 1, pc);
      assert pcs[t := pc][1..] == pcs[1..][t - 1 := pc];
    } else {
      assert pcs[t := pc][1..] == pcs[1..];
    }
  }

  /** Every progress step uses up rank, and retrying uses none and gives none. */
  lemma ProgressShrinksRank(s: State, t: nat, a: Action)
    requires Enabled(s, t, a)
    ensures IsProgress(a) ==> TotalRank(Apply(s, t, a).pcs) < TotalRank(s.pcs)
    ensures a.TryFails? ==> Apply(s, t, a) == s
  {
    TotalRankUpdate(s.pcs, t, Apply(s, t, a).pcs[t]);
  }

  lemma {:induction false} RankBound(pcs: seq<Pc>)
    ensures TotalRank(pcs) <= 5 * |pcs|
    ensures TotalRank(pcs) == 0 <==> forall t :: 0 <= t < |pcs| ==> pcs[t] == Idle
  {
    if pcs != [] {
      RankBound(pcs[1..]);
      assert pcs == [pcs[0]] + pcs[1..];
    }
  }

  /** How many of the first n steps are progress. */
  function ProgressCount(steps: seq<Step>, n: nat): nat
    requires n <= |steps|
  {
    if n == 0 then 0
    else ProgressCount(steps, n - 1) + if IsProgress(steps[n - 1].a) then 1 else 0
  }

  /**
   Once no new calls start, there is only so much progress to make, however often an attempt to lock
   fails in between; and when no more can be made every thread is idle: each waiting thread has had
   its turn.
   */
  lemma {:induction false} CallsComplete(states: seq<State>, steps: seq<Step>)
    requires IsRun(states, steps) && Inv(states[0])
    requires forall i :: 0 <= i < |steps| ==> IsProgress(steps[i].a) || steps[i].a.TryFails?
    ensures ProgressCount(steps, |steps|) + TotalRank(states[|steps|].pcs)
         <= TotalRank(states[0].pcs) <= 5 * |states[0].pcs|
    ensures (forall t: nat, a: Action :: IsProgress(a) ==> !Enabled(states[|steps|], t, a))
            ==> forall t :: 0 <= t < |states[|steps|].pcs| ==> states[|steps|].pcs[t] == Idle
  {
    ShrinksBySteps(states, steps, |steps|);
    RankBound(states[0].pcs);
    RunKeepsInv(states, steps, |steps|);
    if exists t :: 0 <= t < |states[|steps|].pcs| && states[|steps|].pcs[t] != Idle {
      NeverStuck(states[|steps|]);
    }
  }

  lemma {:induction false} ShrinksBySteps(states: seq<State>, steps: seq<Step>, n: nat)
    requires IsRun(states, steps) && n <= |steps|
    requires forall i :: 0 <= i < |steps| ==> IsProgress(steps[i].a) || steps[i].a.TryFails?
    ensures ProgressCount(steps, n) + TotalRank(states[n].pcs) <= TotalRank(states[0].pcs)
  {
    if n > 0 {
      ShrinksBySteps(states, steps, n - 1);
      assert IsStep(states, steps, n - 1);
      ProgressShrinksRank(states[n - 1], steps[n - 1].t, steps[n - 1].a);
    }
  }

  // ----- Who is protected while it waits -----

  predicate WaitsAtNext(pc: Pc) { pc.WaitNext? || pc.WaitLease? }

  predicate Waits(pc: Pc) { WaitsAtNext(pc) || WaitsAtData(pc) }

  /** All steps can be made, by clients that keep the discipline, and thread t waits all along. */
  predicate WaitsThrough(s: State, steps: seq<Step>, t: nat)
    decreases |steps|
  {
    && t < |s.pcs| && Waits(s.pcs[t])
    && (steps != [] ==>
          && Enabled(s, steps[0].t, steps[0].a) && Disciplined(steps[0].a)
          && WaitsThrough(Apply(s, steps[0].t, steps[0].a), steps[1..], t))
  }

  function After(s: State, steps: seq<Step>, t: nat): State
    requires WaitsThrough(s, steps, t)
    decreases |steps|
  {
    if steps == [] then s else After(Apply(s, steps[0].t, steps[0].a), steps[1..], t)
  }

  /** How often thread u acquires the data while t waits. */
  function Acquisitions(s: State, steps: seq<Step>, t: nat, u: nat): nat
    requires WaitsThrough(s, steps, t)
    decreases |steps|
  {
    if steps == [] then 0
    else
      var s' := Apply(s, steps[0].t, steps[0].a);
      (if s.data != Some(u) && s'.data == Some(u) then 1 else 0) + Acquisitions(s', steps[1..], t, u)
  }

  /** Thread u, in any run in which t waits, never acquires the data first. */
  ghost predicate ProtectedFrom(s: State, t: nat, u: nat) {
    forall steps :: WaitsThrough(s, steps, t) ==> Acquisitions(s, steps, t, u) == 0
  }

  lemma {:induction false} DataWaiterIsProtected(s: State, steps: seq<Step>, t: nat, u: nat)
    requires Inv(s) && WaitsThrough(s, steps, t) && WaitsAtData(s.pcs[t])
    ensures Acquisitions(s, steps, t, u) == 0
    decreases |steps|
  {
    if steps != [] {
      var s' := Apply(s, steps[0].t, steps[0].a);
      StepKeepsInv(s, steps[0].t, steps[0].a);
      assert Waits(s'.pcs[t]);
      DataWaiterIsProtected(s', steps[1..], t, u);
    }
  }

  // Overtaking a thread that waits at `next`: clear both mutexes, lock, and start again.

  lemma {:induction false} Chain(s: State, first: seq<Step>, second: seq<Step>, t: nat, u: nat)
    requires WaitsThrough(s, first, t) && WaitsThrough(After(s, first, t), second, t)
    ensures WaitsThrough(s, first + second, t)
    ensures Acquisitions(s, first + second, t, u)
         == Acquisitions(s, first, t, u) + Acquisitions(After(s, first, t), second, t, u)
    decreases |first|
  {
    if first == [] {
      assert first + second == second;
    } else {
      assert (first + second)[1..] == first[1..] + second;
      Chain(Apply(s, first[0].t, first[0].a), first[1..], second, t, u);
    }
  }

  /** What makes the holder of a mutex give it up, or come closer to that. */
  function Release(s: State): Step
    requires Inv(s) && (s.data.Some? || s.next.Some?)
  {
    if s.data.Some? then
      Step(s.data.value, match s.pcs[s.data.value]
                         case HoldBoth => DropNext
                         case Locked => DropData
                         case _ => DropDataLeased)
    else
      Step(s.next.value, match s.pcs[s.next.value]
                         case WaitData => TakeData
                         case WaitDataLeased => TakeDataLeased
                         case _ => DropLease)
  }

  /** A thread that waits at `next` does not keep the others from finishing what they hold. */
  lemma {:induction false} Clear(s: State, t: nat) returns (steps: seq<Step>)
    requires Inv(s) && t < |s.pcs| && WaitsAtNext(s.pcs[t])
    ensures WaitsThrough(s, steps, t)
    ensures var s' := After(s, steps, t);
            && Inv(s') && s'.next == None && s'.data == None
            && |s'.pcs| == |s.pcs| && WaitsAtNext(s'.pcs[t])
    decreases TotalRank(s.pcs)
  {
    if s.data.None? && s.next.None? {
      steps := [];
    } else {
      var step := Release(s);
      StepKeepsInv(s, step.t, step.a);
      ProgressShrinksRank(s, step.t, step.a);
      var rest := Clear(Apply(s, step.t, step.a), t);
      steps := [step] + rest;
      assert steps[1..] == rest;
    }
  }

  /** With both mutexes free, every other thread can lock the data and let thread t wait. */
  lemma LockFirst(s: State, t: nat, u: nat) returns (steps: seq<Step>)
    requires Inv(s) && s.next == None && s.data == None
    requires t < |s.pcs| && WaitsAtNext(s.pcs[t]) && u < |s.pcs| && u != t
    ensures WaitsThrough(s, steps, t) && Acquisitions(s, steps, t, u) == 1
    ensures var s' := After(s, steps, t);
            Inv(s') && |s'.pcs| == |s.pcs| && WaitsAtNext(s'.pcs[t])
  {
    if s.pcs[u].WaitLease? {
      steps := TwoSteps(s, t, Step(u, TakeLease), Step(u, TrySucceeds), u);
    } else if s.pcs[u].WaitNext? {
      steps := TwoSteps(s, t, Step(u, TakeNext), Step(u, TakeData), u);
    } else {
      StepKeepsInv(s, u, CallLock);
      var rest := TwoSteps(Apply(s, u, CallLock), t, Step(u, TakeNext), Step(u, TakeData), u);
      steps := [Step(u, CallLock)] + rest;
      assert steps[1..] == rest;
    }
  }

  /** Taking both mutexes, one after the other. */
  lemma TwoSteps(s: State, t: nat, first: Step, second: Step, u: nat) returns (steps: seq<Step>)
    requires Inv(s) && s.data == None && t < |s.pcs| && WaitsAtNext(s.pcs[t])
    requires first.t == second.t == u != t
    requires (first.a.TakeNext? && second.a.TakeData?) || (first.a.TakeLease? && second.a.TrySucceeds?)
    requires Enabled(s, u, first.a)
    ensures WaitsThrough(s, steps, t) && Acquisitions(s, steps, t, u) == 1
    ensures var s' := After(s, steps, t);
            Inv(s') && |s'.pcs| == |s.pcs| && WaitsAtNext(s'.pcs[t])
  {
    var s1 := Apply(s, u, first.a);
    var s2 := Apply(s1, u, second.a);
    StepKeepsInv(s, u, first.a);
    StepKeepsInv(s1, u, second.a);
    assert WaitsThrough(s2, [], t) && Acquisitions(s2, [], t, u) == 0 && After(s2, [], t) == s2;
    assert [second][1..] == [];
    assert WaitsThrough(s1, [second], t) && Acquisitions(s1, [second], t, u) == 1;
    steps := [first, second];
    assert steps[1..] == [second];
  }

  /** A thread that waits at `next` can be overtaken by any other thread, any number of times. */
  lemma {:induction false} NextWaiterStarves(s: State, t: nat, u: nat, n: nat) returns (steps: seq<Step>)
    requires Inv(s) && t < |s.pcs| && WaitsAtNext(s.pcs[t]) && u < |s.pcs| && u != t
    ensures WaitsThrough(s, steps, t) && Acquisitions(s, steps, t, u) >= n
    decreases n
  {
    if n == 0 {
      steps := [];
    } else {
      var clear := Clear(s, t);
      var s1 := After(s, clear, t);
      var lock := LockFirst(s1, t, u);
      var again := NextWaiterStarves(After(s1, lock, t), t, u, n - 1);
      Chain(s1, lock, again, t, u);
      Chain(s, clear, lock + again, t, u);
      steps := clear + (lock + again);
    }
  }

  /**
   In every state, a waiting thread is protected from being overtaken by another one exactly if it
   waits at the data mutex.
   */
  lemma ProtectedIffWaitingAtData(s: State, t: nat, u: nat)
    requires Inv(s) && t < |s.pcs| && u < |s.pcs| && t != u && Waits(s.pcs[t])
    ensures ProtectedFrom(s, t, u) <==> WaitsAtData(s.pcs[t])
  {
    if WaitsAtData(s.pcs[t]) {
      forall steps | WaitsThrough(s, steps, t) ensures Acquisitions(s, steps, t, u) == 0 {
        DataWaiterIsProtected(s, steps, t, u);
      }
    } else {
      var steps := NextWaiterStarves(s, t, u, 1);
      assert Acquisitions(s, steps, t, u) >= 1;
    }
  }

  // ----- What the mutex does not promise -----

  /** The state after the steps from the i-th on, if they are all enabled. */
  function RunFrom(s: State, steps: seq<Step>, i: nat): Option<State>
    requires i <= |steps|
    decreases |steps| - i
  {
    if i == |steps| then Some(s)
    else if Enabled(s, steps[i].t, steps[i].a) then
      RunFrom(Apply(s, steps[i].t, steps[i].a), steps, i + 1)
    else None
  }

  lemma One(s: State, steps: seq<Step>, i: nat, s': State)
    requires i < |steps| && Enabled(s, steps[i].t, steps[i].a)
    requires Apply(s, steps[i].t, steps[i].a).next == s'.next
    requires Apply(s, steps[i].t, steps[i].a).data == s'.data
    requires Apply(s, steps[i].t, steps[i].a).pcs == s'.pcs
    ensures RunFrom(s, steps, i) == RunFrom(s', steps, i + 1)
  {
  }

  /** A client that takes the data mutex without a lease overtakes a thread that waits for it. */
  lemma BareClientOvertakes()
    ensures var waiting := State(Some(1), Some(0), [BareLocked, WaitData]);
            && RunFrom(State(None, None, [Idle, Idle]),
                       [Step(0, CallBare), Step(0, TakeDataBare), Step(1, CallLock),
                        Step(1, TakeNext)], 0) == Some(waiting)
            && RunFrom(waiting, [Step(0, DropDataBare), Step(0, CallBare), Step(0, TakeDataBare)], 0)
               == Some(waiting)
  {
    var first := [Step(0, CallBare), Step(0, TakeDataBare), Step(1, CallLock), Step(1, TakeNext)];
    var s1 := State(None, None, [BareWait, Idle]);
    var s2 := State(None, Some(0), [BareLocked, Idle]);
    var s3 := State(None, Some(0), [BareLocked, WaitNext]);
    var waiting := State(Some(1), Some(0), [BareLocked, WaitData]);
    One(s3, first, 3, waiting);
    One(s2, first, 2, s3);
    One(s1, first, 1, s2);
    One(State(None, None, [Idle, Idle]), first, 0, s1);
    var again := [Step(0, DropDataBare), Step(0, CallBare), Step(0, TakeDataBare)];
    var s4 := State(Some(1), None, [Idle, WaitData]);
    var s5 := State(Some(1), None, [BareWait, WaitData]);
    One(s5, again, 2, waiting);
    One(s4, again, 1, s5);
    One(waiting, again, 0, s4);
  }

  /**
   A thread that still waits for `next` is not protected: the holder of the data can release it and
   lock it again first, although another thread is waiting.
   */
  lemma WaiterAtNextCanBeOvertaken()
    ensures var held := State(None, Some(0), [Locked, WaitNext]);
            RunFrom(held, [Step(0, DropData), Step(0, CallLock), Step(0, TakeNext),
                           Step(0, TakeData), Step(0, DropNext)], 0) == Some(held)
  {
    var steps := [Step(0, DropData), Step(0, CallLock), Step(0, TakeNext),
                  Step(0, TakeData), Step(0, DropNext)];
    var held := State(None, Some(0), [Locked, WaitNext]);
    var s1 := State(None, None, [Idle, WaitNext]);
    var s2 := State(None, None, [WaitNext, WaitNext]);
    var s3 := State(Some(0), None, [WaitData, WaitNext]);
    var s4 := State(Some(0), Some(0), [HoldBoth, WaitNext]);
    One(s4, steps, 4, held);
    One(s3, steps, 3, s4);
    One(s2, steps, 2, s3);
    One(s1, steps, 1, s2);
    One(held, steps, 0, s1);
  }
}
