/** The heap-target controller (gc_trigger.rs, JuliaGCTrigger).

  f64 is modelled by `real`: rounding is ignored, truncation and saturation of casts to usize are
  not. `sqrt` is a parameter of the GC-end event; no bound below depends on what it returns.
  Subtractions and additions of usize wrap around, as in a release build. */
module Trigger {
  import opened Bits
  import opened Wrappers
  import opened Overallocation

  const DEFAULT_COLLECT_INTERVAL: Word := 5600 * 1024 * 8
  const BYTES_IN_PAGE: Word := 4096
  const ALLOC_SMOOTH_FACTOR: real := 0.95
  const COLLECT_SMOOTH_FACTOR: real := 0.5
  const TUNING_FACTOR: real := 20000.0
  const SMOOTH_MAX: Word := 0x20_0000_0000

  /** The trigger's fields. */
  datatype State = State(
    heapTarget: Word,
    maxTotalMemory: Word,
    oldPauseTime: Word,
    oldMutTime: Word,
    oldHeapSize: Word,
    oldAllocDiff: Word,
    oldFreedDiff: Word,
    gcStartTime: Word,
    gcEndTime: Word,
    mutatorTime: Word,
    thrashCounter: Word,
    thrashing: Word,
    beforeFreeHeapSize: Word,
    prevSweepFull: bool,
    pendingPages: Word)

  /** What the trigger is told. `lastFullHeap` is None for a plan that is not generational. */
  datatype Event =
    | Start(reservedPages: Word, now: Word, lastFullHeap: Option<bool>)
    | End(reservedPages: Word, now: Word, userTriggered: bool, sqrt: real -> real)
    | Pending(pages: Word)

  function New(maxTotalMem: Word): State {
    State(DEFAULT_COLLECT_INTERVAL, maxTotalMem, 10000000, 1000000000, 0, DEFAULT_COLLECT_INTERVAL,
          DEFAULT_COLLECT_INTERVAL, 0, 0, 0, 0, 0, 0, true, 0)
  }

  /** `as usize` of an f64: truncates and saturates. */
  function Truncate(x: real): Word {
    if x <= 0.0 then 0
    else if x.Floor >= WORD_VALUES then WORD_VALUES - 1
    else x.Floor
  }

  /** mmtk_jl_gc_smooth */
  function Smooth(oldVal: Word, newVal: Word, factor: real): (r: Word)
    ensures 1 <= r <= SMOOTH_MAX
  {
    var est := factor * oldVal as real + (1.0 - factor) * newVal as real;
    if est <= 1.0 then 1
    else if est > SMOOTH_MAX as real then SMOOTH_MAX
    else Truncate(est)
  }

  /** `pages_to_bytes` of the reserved and pending pages. */
  function HeapBytes(s: State, reservedPages: Word): Word {
    Wrap(WrapAdd(reservedPages, s.pendingPages) * BYTES_IN_PAGE)
  }

  function UserMax(s: State): Word {
    Wrap(s.maxTotalMemory * 80) / 100
  }

  predicate IsHeapFull(s: State, reservedPages: Word) {
    HeapBytes(s, reservedPages) >= s.heapTarget
  }

  /** 5% of the heap, or an eighth of the default interval when the heap is small. */
  function MinTargetAllocs(heapSize: Word): Word {
    Max(heapSize / 20, DEFAULT_COLLECT_INTERVAL / 8)
  }

  /** Heap size times allocation rate over collection rate. */
  function RateRatio(heapSize: Word, allocMem: Word, allocTime: Word, gcMem: Word, gcTime: Word): real
    requires allocTime != 0 && gcMem != 0 && gcTime != 0
  {
    var allocRate := allocMem as real / allocTime as real;
    var gcRate := gcMem as real / gcTime as real;
    PositiveQuotient(gcMem, gcTime);
    heapSize as real * allocRate / gcRate
  }

  /** The allocation goal the rates ask for. */
  function RateGoal(heapSize: Word, allocMem: Word, allocTime: Word, gcMem: Word, gcTime: Word,
                    sqrt: real -> real): real
  {
    if allocMem != 0 && allocTime != 0 && gcMem != 0 && gcTime != 0 then
      sqrt(RateRatio(heapSize, allocMem, allocTime, gcMem, gcTime)) * TUNING_FACTOR
    else 0.0
  }

  lemma PositiveQuotient(a: Word, b: Word)
    requires a > 0 && b > 0
    ensures a as real / b as real > 0.0
  {
  }

  /** The goal after the user limit: what is left below it, or next to nothing. */
  function LimitedGoal(goal: real, heapSize: Word, userMax: Word): real {
    if goal + heapSize as real <= userMax as real then goal
    else if heapSize < userMax then userMax as real - heapSize as real
    else 1.0
  }

  function ThrashGoal(goal: real, thrashing: Word, minAllocs: Word, maxAllocs: Word, sqrt: real -> real): real {
    var thrashingAllocs := sqrt(minAllocs as real * maxAllocs as real);
    if thrashing != 0 && goal < thrashingAllocs then thrashingAllocs else goal
  }

  function Clamp(goal: real, minAllocs: Word, maxAllocs: Word): real {
    var capped := if goal > maxAllocs as real then maxAllocs as real else goal;
    if capped < minAllocs as real then minAllocs as real else capped
  }

  function HeapTarget(goal: real, heapSize: Word): Word {
    var target := goal + heapSize as real;
    Truncate(if target < DEFAULT_COLLECT_INTERVAL as real then DEFAULT_COLLECT_INTERVAL as real else target)
  }

  /** The most a collection may let the heap grow by. */
  function MaxTargetAllocs(heapSize: Word, userMax: Word, beforeFree: Word): Word {
    Max(Overallocate(beforeFree, heapSize, userMax), MinTargetAllocs(heapSize))
  }

  /** The new heap target for a goal. */
  function Limited(goal: real, heapSize: Word, userMax: Word, beforeFree: Word, thrashing: Word,
                   sqrt: real -> real): Word
  {
    var minAllocs := MinTargetAllocs(heapSize);
    var maxAllocs := MaxTargetAllocs(heapSize, userMax, beforeFree);
    var thrashed := ThrashGoal(LimitedGoal(goal, heapSize, userMax), thrashing, minAllocs, maxAllocs, sqrt);
    HeapTarget(Clamp(thrashed, minAllocs, maxAllocs), heapSize)
  }

  /** The counter moves up only when it is already at four. */
  function NextCounter(counter: Word, pause: Word, mutatorTime: Word): Word {
    if pause > mutatorTime && counter >= 4 then WrapAdd(counter, 1)
    else if counter > 0 then counter - 1
    else counter
  }

  /** The thrashing flag and counter after the estimator's second half. */
  function NextThrashing(thrashing: Word, counter: Word): (r: (Word, Word)) {
    if thrashing == 0 && counter >= 3 then (1, 6)
    else if thrashing == 1 && counter <= 2 then (0, counter)
    else (thrashing, counter)
  }

  // Events

  function StartState(s: State, e: Event): State
    requires e.Start?
  {
    s.(gcStartTime := e.now,
       mutatorTime := if s.gcEndTime == 0 then s.oldMutTime else WrapSub(e.now, s.gcEndTime),
       beforeFreeHeapSize := HeapBytes(s, e.reservedPages),
       prevSweepFull := e.lastFullHeap == Some(true))
  }

  /** The part of a GC end that the user's own collections skip. */
  function Retarget(s: State, heapSize: Word, pause: Word, allocDiff: Word, freedDiff: Word,
                    sqrt: real -> real): State
  {
    var allocMem := Smooth(s.oldAllocDiff, allocDiff, ALLOC_SMOOTH_FACTOR);
    var allocTime := Smooth(s.oldMutTime, s.mutatorTime, ALLOC_SMOOTH_FACTOR);
    var gcMem := Smooth(s.oldFreedDiff, freedDiff, COLLECT_SMOOTH_FACTOR);
    var gcTime := Smooth(s.oldPauseTime, pause, COLLECT_SMOOTH_FACTOR);
    var (thrashing, counter) := NextThrashing(s.thrashing, NextCounter(s.thrashCounter, pause, s.mutatorTime));
    var goal := RateGoal(heapSize, allocMem, allocTime, gcMem, gcTime, sqrt);
    s.(oldAllocDiff := allocMem, oldMutTime := allocTime, oldFreedDiff := gcMem, oldPauseTime := gcTime,
       thrashing := thrashing, thrashCounter := counter,
       heapTarget := Limited(goal, heapSize, UserMax(s), s.beforeFreeHeapSize, thrashing, sqrt))
  }

  function EndState(s: State, e: Event): State
    requires e.End?
  {
    var heapSize := HeapBytes(s, e.reservedPages);
    var ended := s.(gcEndTime := e.now, oldHeapSize := heapSize);
    if e.userTriggered then ended
    else Retarget(ended, heapSize, WrapSub(e.now, s.gcStartTime), WrapSub(s.beforeFreeHeapSize, s.oldHeapSize),
                  WrapSub(s.beforeFreeHeapSize, heapSize), e.sqrt)
  }

  /** Whether a GC end asks a generational plan for a full collection next time. */
  predicate SweepFull(s: State, e: Event)
    requires e.End?
  {
    HeapBytes(s, e.reservedPages) > UserMax(s) || (e.userTriggered && !s.prevSweepFull)
  }

  function Next(s: State, e: Event): State {
    match e
    case Start(_, _, _) => StartState(s, e)
    case End(_, _, _, _) => EndState(s, e)
    case Pending(pages) => s.(pendingPages := WrapAdd(s.pendingPages, pages))
  }

  function Run(s: State, events: seq<Event>): State
    decreases |events|
  {
    if events == [] then s else Run(Next(s, events[0]), events[1..])
  }

  class JuliaGCTrigger {
    var heapTarget: Word
    const maxTotalMemory: Word
    var oldPauseTime: Word
    var oldMutTime: Word
    var oldHeapSize: Word
    var oldAllocDiff: Word
    var oldFreedDiff: Word
    var gcStartTime: Word
    var gcEndTime: Word
    var mutatorTime: Word
    var thrashCounter: Word
    var thrashing: Word
    var beforeFreeHeapSize: Word
    var prevSweepFull: bool
    var pendingPages: Word

    function View(): State
      reads this
    {
      State(heapTarget, maxTotalMemory, oldPauseTime, oldMutTime, oldHeapSize, oldAllocDiff, oldFreedDiff,
            gcStartTime, gcEndTime, mutatorTime, thrashCounter, thrashing, beforeFreeHeapSize, prevSweepFull,
            pendingPages)
    }

    constructor (maxTotalMem: Word)
      ensures View() == New(maxTotalMem)
    {
      heapTarget := DEFAULT_COLLECT_INTERVAL;
      maxTotalMemory := maxTotalMem;
      oldPauseTime, oldMutTime, oldHeapSize := 10000000, 1000000000, 0;
      oldAllocDiff, oldFreedDiff := DEFAULT_COLLECT_INTERVAL, DEFAULT_COLLECT_INTERVAL;
      gcStartTime, gcEndTime, mutatorTime := 0, 0, 0;
      thrashCounter, thrashing, beforeFreeHeapSize := 0, 0, 0;
      prevSweepFull, pendingPages := true, 0;
    }

    method OnPendingAllocation(pages: Word)
      modifies this`pendingPages
      ensures View() == Next(old(View()), Pending(pages))
    {
      pendingPages := WrapAdd(pendingPages, pages);
    }

    method OnGcStart(reservedPages: Word, now: Word, lastFullHeap: Option<bool>)
      modifies this
      ensures View() == Next(old(View()), Start(reservedPages, now, lastFullHeap))
    {
      var reservedPagesNow := WrapAdd(reservedPages, pendingPages);
      gcStartTime := now;
      mutatorTime := if gcEndTime == 0 then oldMutTime else WrapSub(gcStartTime, gcEndTime);
      beforeFreeHeapSize := Wrap(reservedPagesNow * BYTES_IN_PAGE);
      prevSweepFull := if lastFullHeap.Some? then lastFullHeap.value else false;
    }

    method OnGcEnd(reservedPages: Word, now: Word, userTriggered: bool, generational: bool, sqrt: real -> real)
      returns (forceFullHeap: bool)
      modifies this
      ensures View() == Next(old(View()), End(reservedPages, now, userTriggered, sqrt))
      ensures forceFullHeap <==> generational && SweepFull(old(View()), End(reservedPages, now, userTriggered, sqrt))
    {
      var pause := WrapSub(now, gcStartTime);
      gcEndTime := now;
      var reservedPagesNow := WrapAdd(reservedPages, pendingPages);
      var heapSize := Wrap(reservedPagesNow * BYTES_IN_PAGE);
      var userMax := Wrap(maxTotalMemory * 80) / 100;
      var allocDiff := WrapSub(beforeFreeHeapSize, oldHeapSize);
      var freedDiff := WrapSub(beforeFreeHeapSize, heapSize);
      oldHeapSize := heapSize;
      var gcAuto := !userTriggered;
      if gcAuto {
        UpdateTarget(heapSize, userMax, pause, allocDiff, freedDiff, sqrt);
      }
      var sweepFull := false;
      if heapSize > userMax {
        sweepFull := true;
      }
      if !gcAuto && !prevSweepFull {
        sweepFull := true;
      }
      forceFullHeap := sweepFull && generational;
    }

    /** The body of `if gc_auto`. */
    method UpdateTarget(heapSize: Word, userMax: Word, pause: Word, allocDiff: Word, freedDiff: Word,
                        sqrt: real -> real)
      requires userMax == UserMax(View())
      modifies this
      ensures View() == Retarget(old(View()), heapSize, pause, allocDiff, freedDiff, sqrt)
    {
      UpdateRates(pause, allocDiff, freedDiff);
      UpdateThrashing(pause);
      var targetAllocs := RateGoal(heapSize, oldAllocDiff, oldMutTime, oldFreedDiff, oldPauseTime, sqrt);
      heapTarget := LimitTarget(targetAllocs, heapSize, userMax, beforeFreeHeapSize, thrashing, sqrt);
    }

    method UpdateRates(pause: Word, allocDiff: Word, freedDiff: Word)
      modifies this`oldAllocDiff, this`oldMutTime, this`oldFreedDiff, this`oldPauseTime
      ensures oldAllocDiff == Smooth(old(oldAllocDiff), allocDiff, ALLOC_SMOOTH_FACTOR)
      ensures oldMutTime == Smooth(old(oldMutTime), mutatorTime, ALLOC_SMOOTH_FACTOR)
      ensures oldFreedDiff == Smooth(old(oldFreedDiff), freedDiff, COLLECT_SMOOTH_FACTOR)
      ensures oldPauseTime == Smooth(old(oldPauseTime), pause, COLLECT_SMOOTH_FACTOR)
    {
      oldAllocDiff := Smooth(oldAllocDiff, allocDiff, ALLOC_SMOOTH_FACTOR);
      oldMutTime := Smooth(oldMutTime, mutatorTime, ALLOC_SMOOTH_FACTOR);
      oldFreedDiff := Smooth(oldFreedDiff, freedDiff, COLLECT_SMOOTH_FACTOR);
      oldPauseTime := Smooth(oldPauseTime, pause, COLLECT_SMOOTH_FACTOR);
    }

    method UpdateThrashing(pause: Word)
      modifies this`thrashCounter, this`thrashing
      ensures (thrashing, thrashCounter)
              == NextThrashing(old(thrashing), NextCounter(old(thrashCounter), pause, mutatorTime))
    {
      if pause > mutatorTime && thrashCounter >= 4 {
        thrashCounter := WrapAdd(thrashCounter, 1);
      } else if thrashCounter > 0 {
        thrashCounter := thrashCounter - 1;
      }
      if thrashing == 0 && thrashCounter >= 3 {
        thrashing := 1;
        thrashCounter := 6;
      } else if thrashing == 1 && thrashCounter <= 2 {
        thrashing := 0;
      }
    }

    /** The guard rails, applied to the goal one after the other. */
    static method LimitTarget(goal: real, heapSize: Word, userMax: Word, beforeFree: Word, thrashing: Word,
                              sqrt: real -> real)
      returns (target: Word)
      ensures target == Limited(goal, heapSize, userMax, beforeFree, thrashing, sqrt)
    {
      var minTargetAllocs, maxTargetAllocs := GuardRails(heapSize, userMax, beforeFree);
      target := ApplyRails(goal, heapSize, userMax, thrashing, minTargetAllocs, maxTargetAllocs, sqrt);
    }

    static method GuardRails(heapSize: Word, userMax: Word, beforeFree: Word)
      returns (minTargetAllocs: Word, maxTargetAllocs: Word)
      ensures minTargetAllocs == MinTargetAllocs(heapSize)
      ensures maxTargetAllocs == MaxTargetAllocs(heapSize, userMax, beforeFree)
    {
      minTargetAllocs := heapSize / 20;
      if minTargetAllocs < DEFAULT_COLLECT_INTERVAL / 8 {
        minTargetAllocs := DEFAULT_COLLECT_INTERVAL / 8;
      }
      maxTargetAllocs := Overallocate(beforeFree, heapSize, userMax);
      if maxTargetAllocs < minTargetAllocs {
        maxTargetAllocs := minTargetAllocs;
      }
    }

    static method ApplyRails(goal: real, heapSize: Word, userMax: Word, thrashing: Word, minTargetAllocs: Word,
                             maxTargetAllocs: Word, sqrt: real -> real)
      returns (target: Word)
      ensures var limited := LimitedGoal(goal, heapSize, userMax);
              var thrashed := ThrashGoal(limited, thrashing, minTargetAllocs, maxTargetAllocs, sqrt);
              target == HeapTarget(Clamp(thrashed, minTargetAllocs, maxTargetAllocs), heapSize)
    {
      var targetAllocs := goal;
      var targetHeap := targetAllocs + heapSize as real;
      if targetHeap > userMax as real {
        targetAllocs := if heapSize < userMax then userMax as real - heapSize as real else 1.0;
      }
      if thrashing != 0 {
        var thrashingAllocs := sqrt(minTargetAllocs as real * maxTargetAllocs as real);
        if targetAllocs < thrashingAllocs {
          targetAllocs := thrashingAllocs;
        }
      }
      if targetAllocs > maxTargetAllocs as real {
        targetAllocs := maxTargetAllocs as real;
      }
      if targetAllocs < minTargetAllocs as real {
        targetAllocs := minTargetAllocs as real;
      }
      targetHeap := targetAllocs + heapSize as real;
      if targetHeap < DEFAULT_COLLECT_INTERVAL as real {
        targetHeap := DEFAULT_COLLECT_INTERVAL as real;
      }
      target := Truncate(targetHeap);
    }

    method HeapFull(reservedPages: Word) returns (full: bool)
      ensures full <==> IsHeapFull(View(), reservedPages)
    {
      var reservedPagesNow := WrapAdd(reservedPages, pendingPages);
      var heapSize := Wrap(reservedPagesNow * BYTES_IN_PAGE);
      full := heapSize >= heapTarget;
    }
  }
}
