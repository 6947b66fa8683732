/** What the heap-target controller keeps over every run of events. */
module TriggerRuns {
  import opened Bits
  import opened Overallocation
  import opened Trigger
  import opened Wrappers

  // Heap target after one automatic collection

  ghost predicate AutoEnd(e: Event) {
    e.End? && !e.userTriggered
  }

  lemma TruncateBetween(x: real, lo: nat, hi: nat)
    requires lo as real <= x <= hi as real
    ensures Min(lo, WORD_VALUES - 1) <= Truncate(x) <= hi
  {
  }

  lemma ClampBetween(goal: real, minAllocs: Word, maxAllocs: Word)
    requires minAllocs <= maxAllocs
    ensures minAllocs as real <= Clamp(goal, minAllocs, maxAllocs) <= maxAllocs as real
    ensures forall limit: nat :: goal <= limit as real ==>
                                   Clamp(goal, minAllocs, maxAllocs) <= Max(limit, minAllocs) as real
  {
  }

  /** The room below the user limit, or one byte. */
  function Room(heapSize: Word, userMax: Word): nat {
    if heapSize < userMax then userMax - heapSize else 1
  }

  lemma LimitedByRoom(goal: real, heapSize: Word, userMax: Word)
    ensures LimitedGoal(goal, heapSize, userMax) <= Room(heapSize, userMax) as real
  {
  }

  lemma HeapTargetBetween(goal: real, heapSize: Word, lo: nat, hi: nat)
    requires lo as real <= goal <= hi as real
    ensures Min(heapSize + lo, WORD_VALUES - 1) <= HeapTarget(goal, heapSize)
    ensures HeapTarget(goal, heapSize) <= Max(DEFAULT_COLLECT_INTERVAL, heapSize + hi)
    ensures DEFAULT_COLLECT_INTERVAL <= HeapTarget(goal, heapSize)
  {
    var target := goal + heapSize as real;
    if target < DEFAULT_COLLECT_INTERVAL as real {
      TruncateBetween(DEFAULT_COLLECT_INTERVAL as real, DEFAULT_COLLECT_INTERVAL, DEFAULT_COLLECT_INTERVAL);
    } else {
      TruncateBetween(target, Max(heapSize + lo, DEFAULT_COLLECT_INTERVAL), heapSize + hi);
    }
  }

  /** Lower and upper bounds on the target a collection sets. */
  lemma LimitedBounds(goal: real, heapSize: Word, userMax: Word, beforeFree: Word, thrashing: Word, sqrt: real -> real)
    ensures var m, target := MinTargetAllocs(heapSize), Limited(goal, heapSize, userMax, beforeFree, thrashing, sqrt);
            && Min(heapSize + m, WORD_VALUES - 1) <= target
            && DEFAULT_COLLECT_INTERVAL <= target
            && target <= Max(DEFAULT_COLLECT_INTERVAL, heapSize + Max(m, Overallocate(beforeFree, heapSize, userMax)))
            && (thrashing == 0 ==> target <= Max(DEFAULT_COLLECT_INTERVAL, Max(userMax, heapSize + m)))
  {
    var m, M := MinTargetAllocs(heapSize), MaxTargetAllocs(heapSize, userMax, beforeFree);
    var limited := LimitedGoal(goal, heapSize, userMax);
    var thrashed := ThrashGoal(limited, thrashing, m, M, sqrt);
    ClampBetween(thrashed, m, M);
    HeapTargetBetween(Clamp(thrashed, m, M), heapSize, m, M);
    if thrashing == 0 {
      LimitedByRoom(goal, heapSize, userMax);
      HeapTargetBetween(Clamp(thrashed, m, M), heapSize, m, Max(Room(heapSize, userMax), m));
    }
  }

  /** The target an automatic collection sets leaves room for at least `m` more bytes, and, unless the
    program is thrashing, never passes the user limit by more than that. */
  lemma TargetBounds(s: State, e: Event)
    requires AutoEnd(e)
    ensures var heapSize, userMax, t := HeapBytes(s, e.reservedPages), UserMax(s), Next(s, e);
            var m := MinTargetAllocs(heapSize);
            && Min(heapSize + m, WORD_VALUES - 1) <= t.heapTarget
            && DEFAULT_COLLECT_INTERVAL <= t.heapTarget
            && t.heapTarget <= Max(DEFAULT_COLLECT_INTERVAL,
                                   heapSize + Max(m, Overallocate(s.beforeFreeHeapSize, heapSize, userMax)))
            && (t.thrashing == 0 ==> t.heapTarget <= Max(DEFAULT_COLLECT_INTERVAL, Max(userMax, heapSize + m)))
  {
    var heapSize, t := HeapBytes(s, e.reservedPages), Next(s, e);
    var goal := RateGoal(heapSize, t.oldAllocDiff, t.oldMutTime, t.oldFreedDiff, t.oldPauseTime, e.sqrt);
    LimitedBounds(goal, heapSize, UserMax(s), s.beforeFreeHeapSize, t.thrashing, e.sqrt);
    assert t.heapTarget == Limited(goal, heapSize, UserMax(s), s.beforeFreeHeapSize, t.thrashing, e.sqrt);
  }

  // Thrashing

  /** The flag and the counter agree. */
  ghost predicate Hysteresis(s: State) {
    || (s.thrashing == 1 && s.thrashCounter >= 3)
    || (s.thrashing == 0 && s.thrashCounter <= 2)
  }

  /** One automatic collection makes them agree, whatever they were before. */
  lemma HysteresisEstablished(s: State, e: Event)
    requires s.thrashing <= 1 && AutoEnd(e)
    ensures Hysteresis(Next(s, e))
  {
    var pause := WrapSub(e.now, s.gcStartTime);
    var ended := Next(s, e);
    assert (ended.thrashing, ended.thrashCounter)
           == NextThrashing(s.thrashing, NextCounter(s.thrashCounter, pause, s.mutatorTime));
  }

  /** Below four the counter can only fall, so a program that never reached four is never marked as
    thrashing however long its pauses are. */
  lemma CalmStaysCalm(s: State, e: Event)
    requires s.thrashing == 0 && s.thrashCounter <= 2
    ensures Next(s, e).thrashing == 0 && Next(s, e).thrashCounter <= s.thrashCounter
  {
  }

  // Every run

  /** What holds in every reachable state. */
  ghost predicate Reachable(s: State) {
    && 1 <= s.oldAllocDiff <= SMOOTH_MAX && 1 <= s.oldMutTime <= SMOOTH_MAX
    && 1 <= s.oldFreedDiff <= SMOOTH_MAX && 1 <= s.oldPauseTime <= SMOOTH_MAX
    && s.thrashCounter == 0 && s.thrashing == 0
    && s.heapTarget >= DEFAULT_COLLECT_INTERVAL
  }

  lemma ReachableStep(s: State, e: Event)
    requires Reachable(s)
    ensures Reachable(Next(s, e)) && Next(s, e).maxTotalMemory == s.maxTotalMemory
  {
    CalmStaysCalm(s, e);
    if AutoEnd(e) {
      TargetBounds(s, e);
    }
  }

  /** In every run from `new` the smoothed values stay in [1, 2^37], the thrashing counter and flag
    stay zero, and the target is never below the default interval. */
  lemma ReachableRun(maxTotalMem: Word, events: seq<Event>)
    ensures var s := Run(New(maxTotalMem), events); Reachable(s) && s.maxTotalMemory == maxTotalMem
  {
    ReachableFrom(New(maxTotalMem), events);
  }

  lemma {:induction false} ReachableFrom(s: State, events: seq<Event>)
    requires Reachable(s)
    ensures Reachable(Run(s, events)) && Run(s, events).maxTotalMemory == s.maxTotalMemory
    decreases |events|
  {
    if events != [] {
      ReachableStep(s, events[0]);
      ReachableFrom(Next(s, events[0]), events[1..]);
    }
  }

  lemma {:induction false} RunConcat(s: State, a: seq<Event>, b: seq<Event>)
    ensures Run(s, a + b) == Run(Run(s, a), b)
    decreases |a|
  {
    if a == [] {
      assert a + b == b;
    } else {
      assert (a + b)[1..] == a[1..] + b;
      RunConcat(Next(s, a[0]), a[1..], b);
    }
  }

  /** So the unconditional upper bound of every run is the one for programs that do not thrash: after
    each automatic collection the target is at most the default interval, 80% of the memory limit, or
    the heap plus `m`. */
  lemma TargetBoundsEveryRun(maxTotalMem: Word, before: seq<Event>, e: Event)
    requires AutoEnd(e)
    ensures var s := Run(New(maxTotalMem), before);
            var heapSize, t := HeapBytes(s, e.reservedPages), Run(New(maxTotalMem), before + [e]);
            var m := MinTargetAllocs(heapSize);
            && Min(heapSize + m, WORD_VALUES - 1) <= t.heapTarget
            && t.heapTarget <= Max(DEFAULT_COLLECT_INTERVAL, Max(Wrap(maxTotalMem * 80) / 100, heapSize + m))
            && t.heapTarget <= Max(DEFAULT_COLLECT_INTERVAL,
                                   heapSize + Max(m, Overallocate(s.beforeFreeHeapSize, heapSize, UserMax(s))))
  {
    var s := Run(New(maxTotalMem), before);
    RunConcat(New(maxTotalMem), before, [e]);
    assert Run(s, [e]) == Next(s, e) by { assert [e][1..] == []; }
    ReachableRun(maxTotalMem, before);
    ReachableStep(s, e);
    TargetBounds(s, e);
  }

  /** A run that breaks the cap of the growth curve: the collection starts with one page and ends with
    nearly all of the address space reserved. */
  lemma CapFailsInRun(now: Word, e: Event)
    requires AutoEnd(e) && e.reservedPages == 0x10_0000_0000_0000 - 1
    ensures var s := Run(New(12500), [Start(1, now, None)]);
            !CapRespected(s.beforeFreeHeapSize, HeapBytes(s, e.reservedPages), UserMax(s))
  {
    var s := Run(New(12500), [Start(1, now, None)]);
    OnePageStart(now);
    AlmostFull(s, e.reservedPages);
    CapCanFail();
    assert (s.beforeFreeHeapSize, HeapBytes(s, e.reservedPages), UserMax(s)) == (4096, WORD_VALUES - 4096, 10000);
  }

  lemma OnePageStart(now: Word)
    ensures var s := Run(New(12500), [Start(1, now, None)]);
            s.beforeFreeHeapSize == 4096 && s.pendingPages == 0 && s.maxTotalMemory == 12500
  {
    var start := Start(1, now, None);
    assert [start][1..] == [];
    assert Run(New(12500), [start]) == StartState(New(12500), start);
  }

  lemma AlmostFull(s: State, reservedPages: Word)
    requires s.pendingPages == 0 && s.maxTotalMemory == 12500 && reservedPages == 0x10_0000_0000_0000 - 1
    ensures HeapBytes(s, reservedPages) == WORD_VALUES - 4096 && UserMax(s) == 10000
  {
    assert reservedPages * 4096 == WORD_VALUES - 4096;
  }

  ghost predicate NoEnd(events: seq<Event>) {
    forall i :: 0 <= i < |events| ==> !events[i].End?
  }

  lemma {:induction false} TargetUnchanged(s: State, events: seq<Event>)
    requires NoEnd(events)
    ensures Run(s, events).heapTarget == s.heapTarget
    decreases |events|
  {
    if events != [] {
      assert !events[0].End?;
      TargetUnchanged(Next(s, events[0]), events[1..]);
    }
  }

  /** After an automatic collection that leaves `heapSize` bytes, the heap is not full until at least
    `m` more are reserved or pending, whatever happens up to the next collection's end. */
  lemma NotFullUntilMoreReserved(s: State, e: Event, after: seq<Event>, reservedPages: Word)
    requires AutoEnd(e) && NoEnd(after)
    ensures var heapSize, later := HeapBytes(s, e.reservedPages), Run(Next(s, e), after);
            HeapBytes(later, reservedPages) < Min(heapSize + MinTargetAllocs(heapSize), WORD_VALUES - 1)
            ==> !IsHeapFull(later, reservedPages)
  {
    TargetBounds(s, e);
    TargetUnchanged(Next(s, e), after);
  }

  // Pending pages

  /** The pages of all failed allocations reported in a run. */
  function PendingTotal(events: seq<Event>): nat {
    if events == [] then 0
    else (if events[0].Pending? then events[0].pages else 0) + PendingTotal(events[1..])
  }

  lemma WrapAgain(p: Word, pages: Word, more: nat)
    ensures Wrap(WrapAdd(p, pages) + more) == Wrap(p + pages + more)
  {
    var x := WrapAdd(p, pages) + more;
    if p + pages >= WORD_VALUES {
      var q, r := x / WORD_VALUES, x % WORD_VALUES;
      DivModUnique(x + WORD_VALUES, WORD_VALUES, q + 1, r);
    }
  }

  /** No collection clears the pending pages: every page that was ever reported goes on counting
    towards the heap size, also after the collection it asked for. */
  lemma {:induction false} PendingNeverCleared(s: State, events: seq<Event>)
    ensures Run(s, events).pendingPages == Wrap(s.pendingPages + PendingTotal(events))
    decreases |events|
  {
    if events != [] {
      PendingNeverCleared(Next(s, events[0]), events[1..]);
      if events[0].Pending? {
        WrapAgain(s.pendingPages, events[0].pages, PendingTotal(events[1..]));
      }
    }
  }

  // Smoothing

  /** The two smoothing factors are 1 - 1/k for k = 20 and k = 2. */
  ghost predicate InUse(f: real, k: nat) {
    (f == ALLOC_SMOOTH_FACTOR && k == 20) || (f == COLLECT_SMOOTH_FACTOR && k == 2)
  }

  function Estimate(prior: Word, v: Word, f: real): real {
    f * prior as real + (1.0 - f) * v as real
  }

  lemma EstimateBetween(o: Word, v: Word, f: real, k: nat)
    requires InUse(f, k)
    ensures o <= v ==> o as real <= Estimate(o, v, f) <= v as real
    ensures v < o ==> v as real <= Estimate(o, v, f) < o as real
    ensures o + k <= v ==> (o + 1) as real <= Estimate(o, v, f)
  {
    var x, y := o as real, v as real;
    if f == ALLOC_SMOOTH_FACTOR {
      assert Estimate(o, v, f) == 0.95 * x + 0.05 * y;
    } else {
      assert Estimate(o, v, f) == 0.5 * x + 0.5 * y;
    }
  }

  lemma FloorBetween(x: real, lo: int, hi: int)
    requires lo as real <= x <= hi as real
    ensures lo <= x.Floor <= hi
    ensures x < hi as real ==> x.Floor < hi
  {
  }

  /** One step moves from `prior` towards `v` without passing it; it stands still only within k - 1
    below `v`. */
  lemma SmoothStep(prior: Word, v: Word, f: real, k: nat)
    requires 1 <= prior <= SMOOTH_MAX && 1 <= v <= SMOOTH_MAX && InUse(f, k)
    ensures var r := Smooth(prior, v, f);
            && (prior <= v ==> prior <= r <= v)
            && (v < prior ==> v <= r < prior)
            && (prior + k <= v ==> prior < r)
  {
    EstimateBetween(prior, v, f, k);
    var est := Estimate(prior, v, f);
    if prior + k <= v {
      FloorBetween(est, prior + 1, v);
    } else if prior <= v {
      FloorBetween(est, prior, v);
    } else {
      FloorBetween(est, v, prior);
    }
  }

  function Smoothed(prior: Word, v: Word, f: real, times: nat): Word
    decreases times
  {
    if times == 0 then prior else Smoothed(Smooth(prior, v, f), v, f, times - 1)
  }

  function Distance(a: nat, b: nat): nat {
    if a < b then b - a else a - b
  }

  /** Fed the same value `v`, the estimate never overshoots, and after at most |prior - v| collections it
    has settled within k - 1 below `v`: within 19 for allocation, within 1 for collection. */
  lemma {:induction false} SmoothSettles(prior: Word, v: Word, f: real, k: nat, times: nat)
    requires 1 <= prior <= SMOOTH_MAX && 1 <= v <= SMOOTH_MAX && InUse(f, k)
    ensures prior <= v ==> prior <= Smoothed(prior, v, f, times) <= v
    ensures v <= prior ==> v <= Smoothed(prior, v, f, times) <= prior
    ensures times >= Distance(prior, v) ==> v < Smoothed(prior, v, f, times) + k && Smoothed(prior, v, f, times) <= v
    decreases times
  {
    if times > 0 {
      SmoothStep(prior, v, f, k);
      SmoothSettles(Smooth(prior, v, f), v, f, k, times - 1);
      if prior <= v < prior + k {
      } else {
        assert Distance(Smooth(prior, v, f), v) < Distance(prior, v);
      }
    }
  }

  /** The two factors in use. */
  lemma SettlingBands(prior: Word, v: Word, times: nat)
    requires 1 <= prior <= SMOOTH_MAX && 1 <= v <= SMOOTH_MAX && times >= Distance(prior, v)
    ensures v - 19 <= Smoothed(prior, v, ALLOC_SMOOTH_FACTOR, times) <= v
    ensures v - 1 <= Smoothed(prior, v, COLLECT_SMOOTH_FACTOR, times) <= v
  {
    SmoothSettles(prior, v, ALLOC_SMOOTH_FACTOR, 20, times);
    SmoothSettles(prior, v, COLLECT_SMOOTH_FACTOR, 2, times);
  }

  // Smoothing in the controller

  /** The four quantities the controller smooths. */
  datatype Measure = AllocDiff | MutatorTime | FreedDiff | Pause

  /** What an automatic collection measures. */
  function Measured(s: State, e: Event, m: Measure): Word
    requires e.End?
  {
    match m
    case AllocDiff => WrapSub(s.beforeFreeHeapSize, s.oldHeapSize)
    case MutatorTime => s.mutatorTime
    case FreedDiff => WrapSub(s.beforeFreeHeapSize, HeapBytes(s, e.reservedPages))
    case Pause => WrapSub(e.now, s.gcStartTime)
  }

  /** What the controller remembers of it. */
  function Remembered(s: State, m: Measure): Word {
    match m
    case AllocDiff => s.oldAllocDiff
    case MutatorTime => s.oldMutTime
    case FreedDiff => s.oldFreedDiff
    case Pause => s.oldPauseTime
  }

  function Factor(m: Measure): real {
    if m in {AllocDiff, MutatorTime} then ALLOC_SMOOTH_FACTOR else COLLECT_SMOOTH_FACTOR
  }

  /** How far below a steady value the memory of it may stop. */
  function Band(m: Measure): nat {
    if m in {AllocDiff, MutatorTime} then 19 else 1
  }

  ghost function AutoEnds(events: seq<Event>): nat {
    if events == [] then 0 else (if AutoEnd(events[0]) then 1 else 0) + AutoEnds(events[1..])
  }

  /** Every automatic collection of the run measures `v`. */
  ghost predicate KeepsMeasuring(s: State, events: seq<Event>, m: Measure, v: Word)
    decreases |events|
  {
    events != [] ==>
      && (AutoEnd(events[0]) ==> Measured(s, events[0], m) == v)
      && KeepsMeasuring(Next(s, events[0]), events[1..], m, v)
  }

  lemma RememberedStep(s: State, e: Event, m: Measure)
    ensures Remembered(Next(s, e), m)
            == if AutoEnd(e) then Smooth(Remembered(s, m), Measured(s, e, m), Factor(m)) else Remembered(s, m)
  {
  }

  lemma {:induction false} RememberedRun(s: State, events: seq<Event>, m: Measure, v: Word)
    requires KeepsMeasuring(s, events, m, v)
    ensures Remembered(Run(s, events), m) == Smoothed(Remembered(s, m), v, Factor(m), AutoEnds(events))
    decreases |events|
  {
    if events != [] {
      RememberedStep(s, events[0], m);
      RememberedRun(Next(s, events[0]), events[1..], m, v);
    }
  }

  /** The controller settles: after any run, once enough automatic collections have measured the same
    value, what it remembers is within 19 below (allocation and mutator time) or within 1 below (freed
    memory and pause), and stays there while the value lasts. */
  lemma SettlesInRun(maxTotalMem: Word, before: seq<Event>, after: seq<Event>, m: Measure, v: Word)
    requires 1 <= v <= SMOOTH_MAX && KeepsMeasuring(Run(New(maxTotalMem), before), after, m, v)
    requires AutoEnds(after) >= Distance(Remembered(Run(New(maxTotalMem), before), m), v)
    ensures v - Band(m) <= Remembered(Run(New(maxTotalMem), before + after), m) <= v
  {
    var s := Run(New(maxTotalMem), before);
    ReachableRun(maxTotalMem, before);
    RunConcat(New(maxTotalMem), before, after);
    RememberedRun(s, after, m, v);
    SettlingBands(Remembered(s, m), v, AutoEnds(after));
  }
}
