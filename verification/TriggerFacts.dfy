/** What each event does to the heap-target controller, said in terms of the quantities it is given. */
module TriggerFacts {
  import opened Bits
  import opened Wrappers
  import opened Overallocation
  import opened Trigger
  import opened TriggerRuns

  // The goal from the rates

  /** A square root: not negative, and squaring gives the number back. */
  ghost predicate SquareRoot(sqrt: real -> real) {
    forall x: real :: x >= 0.0 ==> sqrt(x) >= 0.0 && sqrt(x) * sqrt(x) == x
  }

  /** `a` is the allowance the rates ask for: 20000 times the root of heap size times allocation rate over
    collection rate, with the fractions multiplied out. */
  ghost predicate IsAllowance(a: real, heapSize: Word, allocMem: Word, allocTime: Word, gcMem: Word, gcTime: Word) {
    && a >= 0.0
    && a * a * (gcMem as real * allocTime as real)
       == TUNING_FACTOR * TUNING_FACTOR * (heapSize as real * (allocMem as real * gcTime as real))
  }

  lemma QuotientTimes(x: real, y: real)
    requires y != 0.0
    ensures x / y * y == x
  {
  }

  /** h * (a/b) / (c/d) times c * b is h times a * d. */
  lemma RatesMultipliedOut(h: real, a: real, b: real, c: real, d: real)
    requires b > 0.0 && c > 0.0 && d > 0.0
    ensures c / d > 0.0
    ensures (h * (a / b) / (c / d)) * (c * b) == h * (a * d)
  {
    var r, g := a / b, c / d;
    PositiveRatio(c, d);
    QuotientTimes(a, b);
    QuotientTimes(c, d);
    var x := h * r / g;
    QuotientTimes(h * r, g);
    Regroup(x, h, r, g, b, d);
  }

  lemma PositiveRatio(c: real, d: real)
    requires c > 0.0 && d > 0.0
    ensures c / d > 0.0
  {
  }

  lemma Regroup(x: real, h: real, r: real, g: real, b: real, d: real)
    requires x * g == h * r
    ensures x * ((g * d) * b) == h * ((r * b) * d)
  {
    var bd := b * d;
    assert x * ((g * d) * b) == (x * g) * bd;
    assert (h * r) * bd == h * ((r * b) * d);
  }

  lemma Squared(s: real, f: real, c: real)
    ensures (s * f) * (s * f) * c == (f * f) * (s * s * c)
  {
    var p := s * s;
    assert (s * f) * (s * f) == p * (f * f);
    MoveFactor(p, f * f, c);
  }

  lemma MoveFactor(p: real, q: real, c: real)
    ensures (p * q) * c == q * (p * c)
  {
  }

  lemma NotNegativeProduct(x: real, y: real)
    requires x >= 0.0 && y >= 0.0
    ensures x * y >= 0.0
  {
  }

  lemma NotNegativeQuotient(x: real, y: real)
    requires x >= 0.0 && y > 0.0
    ensures x / y >= 0.0
  {
  }

  lemma RatioMultipliedOut(heapSize: Word, allocMem: Word, allocTime: Word, gcMem: Word, gcTime: Word)
    requires allocTime > 0 && gcMem > 0 && gcTime > 0
    ensures var x := RateRatio(heapSize, allocMem, allocTime, gcMem, gcTime);
            && x >= 0.0
            && x * (gcMem as real * allocTime as real) == heapSize as real * (allocMem as real * gcTime as real)
  {
    var h, a, b, c, d := heapSize as real, allocMem as real, allocTime as real, gcMem as real, gcTime as real;
    RatesMultipliedOut(h, a, b, c, d);
    NotNegativeQuotient(a, b);
    NotNegativeProduct(h, a / b);
    NotNegativeQuotient(h * (a / b), c / d);
  }

  /** The goal is the allowance. */
  lemma GoalIsAllowance(heapSize: Word, allocMem: Word, allocTime: Word, gcMem: Word, gcTime: Word, sqrt: real -> real)
    requires SquareRoot(sqrt) && allocMem > 0 && allocTime > 0 && gcMem > 0 && gcTime > 0
    ensures IsAllowance(RateGoal(heapSize, allocMem, allocTime, gcMem, gcTime, sqrt), heapSize,
                        allocMem, allocTime, gcMem, gcTime)
  {
    var x := RateRatio(heapSize, allocMem, allocTime, gcMem, gcTime);
    RatioMultipliedOut(heapSize, allocMem, allocTime, gcMem, gcTime);
    var s := sqrt(x);
    assert s >= 0.0 && s * s == x;
    NotNegativeProduct(s, TUNING_FACTOR);
    Squared(s, TUNING_FACTOR, gcMem as real * allocTime as real);
  }

  lemma PositiveProduct(u: real, v: real)
    requires u > 0.0 && v > 0.0
    ensures u * v > 0.0
  {
  }

  lemma SquareDifference(x: real, y: real)
    ensures (x - y) * (x + y) == x * x - y * y
  {
  }

  lemma SquareOrder(x: real, y: real)
    requires x >= 0.0 && y >= 0.0 && x * x <= y * y
    ensures x <= y
  {
    SquareDifference(x, y);
    if x > y {
      PositiveProduct(x - y, x + y);
    }
  }

  lemma Distribute(x: real, y: real, c: real)
    ensures (x - y) * c == x * c - y * c
  {
  }

  lemma DivideOrder(x: real, y: real, c: real)
    requires x * c <= y * c && c > 0.0
    ensures x <= y
  {
    Distribute(x, y, c);
    if x > y {
      PositiveProduct(x - y, c);
    }
  }

  lemma MultiplyOrder(x: real, y: real, c: real)
    requires x <= y && c >= 0.0
    ensures x * c <= y * c
  {
    Distribute(y, x, c);
    NotNegativeProduct(y - x, c);
  }

  /** There is only one allowance. */
  lemma OneAllowance(a: real, b: real, heapSize: Word, allocMem: Word, allocTime: Word, gcMem: Word, gcTime: Word)
    requires gcMem > 0 && allocTime > 0
    requires IsAllowance(a, heapSize, allocMem, allocTime, gcMem, gcTime)
    requires IsAllowance(b, heapSize, allocMem, allocTime, gcMem, gcTime)
    ensures a == b
  {
    var c := gcMem as real * allocTime as real;
    PositiveProduct(gcMem as real, allocTime as real);
    DivideOrder(a * a, b * b, c);
    DivideOrder(b * b, a * a, c);
    SquareOrder(a, b);
    SquareOrder(b, a);
  }

  /** A higher allocation rate, or a lower collection rate, asks for more. The rates are compared by cross
    multiplication. */
  lemma RatioOrder(heapSize: Word, allocMem: Word, allocTime: Word, gcMem: Word, gcTime: Word,
                   allocMem': Word, allocTime': Word, gcMem': Word, gcTime': Word)
    requires allocTime > 0 && gcMem > 0 && gcTime > 0 && allocTime' > 0 && gcMem' > 0 && gcTime' > 0
    requires allocMem as real / allocTime as real <= allocMem' as real / allocTime' as real
    requires gcMem' as real / gcTime' as real <= gcMem as real / gcTime as real
    ensures RateRatio(heapSize, allocMem, allocTime, gcMem, gcTime)
            <= RateRatio(heapSize, allocMem', allocTime', gcMem', gcTime')
  {
    var h, r, r' := heapSize as real, allocMem as real / allocTime as real, allocMem' as real / allocTime' as real;
    var g, g' := gcMem as real / gcTime as real, gcMem' as real / gcTime' as real;
    PositiveRatio(gcMem as real, gcTime as real);
    PositiveRatio(gcMem' as real, gcTime' as real);
    NotNegativeQuotient(allocMem as real, allocTime as real);
    QuotientOrder(h, r, r', g, g');
  }

  lemma QuotientOrder(h: real, r: real, r': real, g: real, g': real)
    requires h >= 0.0 && 0.0 <= r <= r' && 0.0 < g' <= g
    ensures h * r / g <= h * r' / g'
  {
    var x, x' := h * r / g, h * r' / g';
    QuotientTimes(h * r, g);
    QuotientTimes(h * r', g');
    NotNegativeProduct(h, r');
    NotNegativeQuotient(h * r', g');
    ScaleOrder(h, r, r');
    ScaleOrder(x', g', g);
    DivideOrder(x, x', g);
  }

  lemma ScaleOrder(h: real, x: real, y: real)
    requires h >= 0.0 && x <= y
    ensures h * x <= h * y
  {
    MultiplyOrder(x, y, h);
  }

  lemma RootOrder(sqrt: real -> real, x: real, y: real)
    requires SquareRoot(sqrt) && 0.0 <= x <= y
    ensures sqrt(x) <= sqrt(y)
  {
    SquareOrder(sqrt(x), sqrt(y));
  }

  lemma GoalOrder(heapSize: Word, allocMem: Word, allocTime: Word, gcMem: Word, gcTime: Word,
                  allocMem': Word, allocTime': Word, gcMem': Word, gcTime': Word, sqrt: real -> real)
    requires SquareRoot(sqrt) && allocMem > 0 && allocMem' > 0
    requires allocTime > 0 && gcMem > 0 && gcTime > 0 && allocTime' > 0 && gcMem' > 0 && gcTime' > 0
    requires allocMem as real / allocTime as real <= allocMem' as real / allocTime' as real
    requires gcMem' as real / gcTime' as real <= gcMem as real / gcTime as real
    ensures 0.0 <= RateGoal(heapSize, allocMem, allocTime, gcMem, gcTime, sqrt)
                <= RateGoal(heapSize, allocMem', allocTime', gcMem', gcTime', sqrt)
  {
    var x := RateRatio(heapSize, allocMem, allocTime, gcMem, gcTime);
    var y := RateRatio(heapSize, allocMem', allocTime', gcMem', gcTime');
    RatioMultipliedOut(heapSize, allocMem, allocTime, gcMem, gcTime);
    RatioOrder(heapSize, allocMem, allocTime, gcMem, gcTime, allocMem', allocTime', gcMem', gcTime');
    RootOrder(sqrt, x, y);
    assert sqrt(x) >= 0.0;
    NotNegativeProduct(sqrt(x), TUNING_FACTOR);
    MultiplyOrder(sqrt(x), sqrt(y), TUNING_FACTOR);
  }

  // From the goal to the target

  /** A larger goal never gives a smaller target. */
  lemma LimitedOrder(goal: real, goal': real, heapSize: Word, userMax: Word, beforeFree: Word, thrashing: Word,
                     sqrt: real -> real)
    requires 0.0 <= goal <= goal'
    ensures Limited(goal, heapSize, userMax, beforeFree, thrashing, sqrt)
            <= Limited(goal', heapSize, userMax, beforeFree, thrashing, sqrt)
  {
    var m, M := MinTargetAllocs(heapSize), MaxTargetAllocs(heapSize, userMax, beforeFree);
    var a, b := LimitedGoal(goal, heapSize, userMax), LimitedGoal(goal', heapSize, userMax);
    assert a <= b;
    var c, d := ThrashGoal(a, thrashing, m, M, sqrt), ThrashGoal(b, thrashing, m, M, sqrt);
    assert c <= d;
    TargetOrder(Clamp(c, m, M), Clamp(d, m, M), heapSize);
  }

  lemma TargetOrder(a: real, b: real, heapSize: Word)
    requires a <= b
    ensures HeapTarget(a, heapSize) <= HeapTarget(b, heapSize)
  {
    var x, y := a + heapSize as real, b + heapSize as real;
    FloorOrder(x, y);
  }

  lemma FloorOrder(x: real, y: real)
    requires x <= y
    ensures x.Floor <= y.Floor
  {
  }

  /** The target grows with the allocation rate and falls with the collection rate. */
  lemma TargetFollowsRates(heapSize: Word, userMax: Word, beforeFree: Word, thrashing: Word, sqrt: real -> real,
                           allocMem: Word, allocTime: Word, gcMem: Word, gcTime: Word,
                           allocMem': Word, allocTime': Word, gcMem': Word, gcTime': Word)
    requires SquareRoot(sqrt) && allocMem > 0 && allocMem' > 0
    requires allocTime > 0 && gcMem > 0 && gcTime > 0 && allocTime' > 0 && gcMem' > 0 && gcTime' > 0
    requires allocMem as real / allocTime as real <= allocMem' as real / allocTime' as real
    requires gcMem' as real / gcTime' as real <= gcMem as real / gcTime as real
    ensures Limited(RateGoal(heapSize, allocMem, allocTime, gcMem, gcTime, sqrt),
                    heapSize, userMax, beforeFree, thrashing, sqrt)
            <= Limited(RateGoal(heapSize, allocMem', allocTime', gcMem', gcTime', sqrt),
                       heapSize, userMax, beforeFree, thrashing, sqrt)
  {
    GoalOrder(heapSize, allocMem, allocTime, gcMem, gcTime, allocMem', allocTime', gcMem', gcTime', sqrt);
    LimitedOrder(RateGoal(heapSize, allocMem, allocTime, gcMem, gcTime, sqrt),
                 RateGoal(heapSize, allocMem', allocTime', gcMem', gcTime', sqrt),
                 heapSize, userMax, beforeFree, thrashing, sqrt);
  }

  /** The lower guard rail: a twentieth of the heap, or 5734400 bytes when that is more. */
  function LowRail(heapSize: Word): nat {
    if heapSize / 20 < 5734400 then 5734400 else heapSize / 20
  }

  /** The upper one: the overallocation, or the lower rail when that is more. */
  function HighRail(heapSize: Word, userMax: Word, beforeFree: Word): nat {
    var o, m := Overallocate(beforeFree, heapSize, userMax), LowRail(heapSize);
    if o < m then m else o
  }

  /** A target in bytes, at least the default interval and cut off at the largest usize. */
  function InBytes(x: real): nat {
    if x < 45875200.0 then 45875200 else if x.Floor >= WORD_VALUES then WORD_VALUES - 1 else x.Floor
  }

  lemma InBytesIsTarget(a: real, heapSize: Word)
    requires a >= 0.0
    ensures HeapTarget(a, heapSize) == InBytes(heapSize as real + a)
  {
  }

  /** Without thrashing: a goal between the rails that fits below the user limit is added to the heap size. */
  lemma GoalTaken(goal: real, heapSize: Word, userMax: Word, beforeFree: Word, sqrt: real -> real)
    requires LowRail(heapSize) as real <= goal <= HighRail(heapSize, userMax, beforeFree) as real
    requires goal + heapSize as real <= userMax as real
    ensures Limited(goal, heapSize, userMax, beforeFree, 0, sqrt) == InBytes(heapSize as real + goal)
  {
  }

  /** A goal below the lower rail, or one cut to below it by the user limit, is raised to the rail. */
  lemma GoalRaised(goal: real, heapSize: Word, userMax: Word, beforeFree: Word, sqrt: real -> real)
    requires goal < LowRail(heapSize) as real || userMax < heapSize + LowRail(heapSize)
    ensures Limited(goal, heapSize, userMax, beforeFree, 0, sqrt) == InBytes((heapSize + LowRail(heapSize)) as real)
  {
  }

  /** A goal above the upper rail is lowered to the rail when the user limit leaves room for that. */
  lemma GoalLowered(goal: real, heapSize: Word, userMax: Word, beforeFree: Word, sqrt: real -> real)
    requires goal > HighRail(heapSize, userMax, beforeFree) as real
    requires heapSize + HighRail(heapSize, userMax, beforeFree) <= userMax
    ensures Limited(goal, heapSize, userMax, beforeFree, 0, sqrt)
            == InBytes((heapSize + HighRail(heapSize, userMax, beforeFree)) as real)
  {
  }

  /** A goal that goes past the user limit, which leaves room between the rails, is cut to the limit. */
  lemma GoalCut(goal: real, heapSize: Word, userMax: Word, beforeFree: Word, sqrt: real -> real)
    requires goal + heapSize as real > userMax as real
    requires heapSize + LowRail(heapSize) <= userMax <= heapSize + HighRail(heapSize, userMax, beforeFree)
    ensures Limited(goal, heapSize, userMax, beforeFree, 0, sqrt) == InBytes(userMax as real)
  {
  }

  function GeometricMean(low: nat, high: nat, sqrt: real -> real): real {
    sqrt(low as real * high as real)
  }

  /** When thrashing, a goal below the geometric mean of the rails is raised to it. */
  lemma GoalThrashing(goal: real, heapSize: Word, userMax: Word, beforeFree: Word, thrashing: Word, sqrt: real -> real,
                      mean: real)
    requires thrashing != 0 && goal < mean && goal + heapSize as real <= userMax as real
    requires LowRail(heapSize) as real <= mean <= HighRail(heapSize, userMax, beforeFree) as real
    requires mean == GeometricMean(LowRail(heapSize), HighRail(heapSize, userMax, beforeFree), sqrt)
    ensures Limited(goal, heapSize, userMax, beforeFree, thrashing, sqrt) == InBytes(heapSize as real + mean)
  {
    RailsAre(heapSize, userMax, beforeFree);
    var m, M := MinTargetAllocs(heapSize), MaxTargetAllocs(heapSize, userMax, beforeFree);
    RaisedToMean(goal, thrashing, m, M, sqrt, mean);
    InBytesIsTarget(mean, heapSize);
    assert LimitedGoal(goal, heapSize, userMax) == goal;
  }

  lemma RailsAre(heapSize: Word, userMax: Word, beforeFree: Word)
    ensures MinTargetAllocs(heapSize) == LowRail(heapSize)
    ensures MaxTargetAllocs(heapSize, userMax, beforeFree) == HighRail(heapSize, userMax, beforeFree)
  {
  }

  lemma RaisedToMean(goal: real, thrashing: Word, m: Word, M: Word, sqrt: real -> real, mean: real)
    requires thrashing != 0 && goal < mean && m as real <= mean <= M as real && mean == GeometricMean(m, M, sqrt)
    ensures Clamp(ThrashGoal(goal, thrashing, m, M, sqrt), m, M) == mean
  {
  }

  // Whole events

  /** After an automatic collection of a program that does not thrash: the allowance computed from what the
    controller now remembers, when it lies between the rails and fits below the user limit, is what the new
    target leaves above the heap. */
  lemma TargetFromRates(s: State, e: Event, a: real)
    requires AutoEnd(e) && SquareRoot(e.sqrt) && s.thrashing == 0 && s.thrashCounter <= 2
    requires var t, heapSize := Next(s, e), HeapBytes(s, e.reservedPages);
             && IsAllowance(a, heapSize, t.oldAllocDiff, t.oldMutTime, t.oldFreedDiff, t.oldPauseTime)
             && LowRail(heapSize) as real <= a <= HighRail(heapSize, UserMax(s), s.beforeFreeHeapSize) as real
             && a + heapSize as real <= UserMax(s) as real
    ensures Next(s, e).heapTarget == InBytes(HeapBytes(s, e.reservedPages) as real + a)
  {
    var t, heapSize := Next(s, e), HeapBytes(s, e.reservedPages);
    var goal := RateGoal(heapSize, t.oldAllocDiff, t.oldMutTime, t.oldFreedDiff, t.oldPauseTime, e.sqrt);
    AutoEndTarget(s, e);
    CalmStaysCalm(s, e);
    GoalIsAllowance(heapSize, t.oldAllocDiff, t.oldMutTime, t.oldFreedDiff, t.oldPauseTime, e.sqrt);
    OneAllowance(a, goal, heapSize, t.oldAllocDiff, t.oldMutTime, t.oldFreedDiff, t.oldPauseTime);
    GoalTaken(a, heapSize, UserMax(s), s.beforeFreeHeapSize, e.sqrt);
  }

  /** An automatic collection remembers smoothed values of what it measured and sets the target from them. */
  lemma AutoEndTarget(s: State, e: Event)
    requires AutoEnd(e)
    ensures var t, heapSize := Next(s, e), HeapBytes(s, e.reservedPages);
            && t.oldAllocDiff > 0 && t.oldMutTime > 0 && t.oldFreedDiff > 0 && t.oldPauseTime > 0
            && t.heapTarget
               == Limited(RateGoal(heapSize, t.oldAllocDiff, t.oldMutTime, t.oldFreedDiff, t.oldPauseTime, e.sqrt),
                          heapSize, UserMax(s), s.beforeFreeHeapSize, t.thrashing, e.sqrt)
  {
  }

  /** Every collection's end records its time and the heap size it leaves; nothing else but the target, what is
    remembered and the thrashing state changes. Pending pages change nothing but their own count. */
  lemma EndRecords(s: State, e: Event)
    ensures e.End? ==>
              var t := Next(s, e);
              && t.gcEndTime == e.now && t.oldHeapSize == HeapBytes(s, e.reservedPages)
              && t.gcStartTime == s.gcStartTime && t.mutatorTime == s.mutatorTime
              && t.beforeFreeHeapSize == s.beforeFreeHeapSize && t.prevSweepFull == s.prevSweepFull
              && t.pendingPages == s.pendingPages && t.maxTotalMemory == s.maxTotalMemory
    ensures e.Pending? ==> Next(s, e) == s.(pendingPages := WrapAdd(s.pendingPages, e.pages))
  {
  }

  /** A collection the user asked for leaves the target, what is remembered and the thrashing state alone. */
  lemma UserEndKeepsTarget(s: State, e: Event)
    requires e.End? && e.userTriggered
    ensures Next(s, e) == s.(gcEndTime := e.now, oldHeapSize := HeapBytes(s, e.reservedPages))
  {
  }

  /** A smoothed value is the weighted mean, rounded down: 95 parts of the old value to 5 of the new for
    allocation and mutator time, half and half for freed memory and pause. It is never less than one nor
    more than 2^37. */
  lemma SmoothIsMean(prior: Word, v: Word)
    ensures var r, sum := Smooth(prior, v, ALLOC_SMOOTH_FACTOR), 19 * prior + v;
            if sum < 20 then r == 1 else if sum > 20 * 0x20_0000_0000 then r == 0x20_0000_0000
            else 20 * r <= sum < 20 * (r + 1)
    ensures var r, sum := Smooth(prior, v, COLLECT_SMOOTH_FACTOR), prior + v;
            if sum < 2 then r == 1 else if sum > 2 * 0x20_0000_0000 then r == 0x20_0000_0000
            else 2 * r <= sum < 2 * (r + 1)
  {
    AllocMean(prior, v);
    CollectMean(prior, v);
  }

  lemma AllocMean(prior: Word, v: Word)
    ensures var r, sum := Smooth(prior, v, ALLOC_SMOOTH_FACTOR), 19 * prior + v;
            if sum < 20 then r == 1 else if sum > 20 * 0x20_0000_0000 then r == 0x20_0000_0000
            else 20 * r <= sum < 20 * (r + 1)
  {
    var est := 0.95 * prior as real + 0.05 * v as real;
    assert 20.0 * est == (19 * prior + v) as real;
  }

  lemma CollectMean(prior: Word, v: Word)
    ensures var r, sum := Smooth(prior, v, COLLECT_SMOOTH_FACTOR), prior + v;
            if sum < 2 then r == 1 else if sum > 2 * 0x20_0000_0000 then r == 0x20_0000_0000
            else 2 * r <= sum < 2 * (r + 1)
  {
    var est := 0.5 * prior as real + 0.5 * v as real;
    assert 2.0 * est == (prior + v) as real;
  }

  /** A collection's start records the time, how long the program has run since the last collection (or what is
    remembered of it, the first time), the heap size, and whether the last collection was a full one. */
  lemma StartRecords(s: State, e: Event)
    requires e.Start?
    ensures var t := Next(s, e);
            && t.gcStartTime == e.now
            && t.mutatorTime == (if s.gcEndTime == 0 then s.oldMutTime else WrapSub(e.now, s.gcEndTime))
            && t.beforeFreeHeapSize == HeapBytes(s, e.reservedPages)
            && (t.prevSweepFull <==> e.lastFullHeap == Some(true))
    ensures Next(s, e).heapTarget == s.heapTarget && Next(s, e).pendingPages == s.pendingPages
    ensures Next(s, e).oldHeapSize == s.oldHeapSize && Next(s, e).gcEndTime == s.gcEndTime
  {
  }

  /** The heap size counts reserved and pending pages of 4096 bytes; the user limit is 80% of the memory. */
  lemma SizesInBytes(s: State, reservedPages: Word)
    requires (reservedPages + s.pendingPages) * 4096 < WORD_VALUES && s.maxTotalMemory * 80 < WORD_VALUES
    ensures HeapBytes(s, reservedPages) == (reservedPages + s.pendingPages) * 4096
    ensures 100 * UserMax(s) <= 80 * s.maxTotalMemory < 100 * (UserMax(s) + 1)
  {
  }

  /** The heap is full exactly when reserved and pending bytes reach the target. */
  lemma FullExactly(s: State, reservedPages: Word)
    requires (reservedPages + s.pendingPages) * 4096 < WORD_VALUES
    ensures IsHeapFull(s, reservedPages) <==> (reservedPages + s.pendingPages) * 4096 >= s.heapTarget
  {
  }

  /** The next collection is to be a full one exactly when the heap is past the user limit, or when the user asked
    for this one and it was not full. */
  lemma FullForcedExactly(s: State, e: Event)
    requires e.End?
    ensures SweepFull(s, e)
            <==> HeapBytes(s, e.reservedPages) > UserMax(s) || (e.userTriggered && !s.prevSweepFull)
  {
  }

  /** The thrashing estimator: the counter goes up when the pause was longer than the program's own time and it is
    at four already, else down to zero at least; the flag goes up at three, with the counter set to six, and
    down at two. */
  lemma EstimatorStep(s: State, e: Event)
    requires AutoEnd(e) && s.thrashCounter < WORD_VALUES - 1
    ensures var t, pause := Next(s, e), WrapSub(e.now, s.gcStartTime);
            var counted := if pause > s.mutatorTime && s.thrashCounter >= 4 then s.thrashCounter + 1
                           else if s.thrashCounter > 0 then s.thrashCounter - 1 else 0;
            && (s.thrashing == 0 && counted >= 3 ==> t.thrashing == 1 && t.thrashCounter == 6)
            && (s.thrashing == 0 && counted < 3 ==> t.thrashing == 0 && t.thrashCounter == counted)
            && (s.thrashing == 1 && counted <= 2 ==> t.thrashing == 0 && t.thrashCounter == counted)
            && (s.thrashing == 1 && counted > 2 ==> t.thrashing == 1 && t.thrashCounter == counted)
  {
    var t, pause := Next(s, e), WrapSub(e.now, s.gcStartTime);
    assert (t.thrashing, t.thrashCounter)
           == NextThrashing(s.thrashing, NextCounter(s.thrashCounter, pause, s.mutatorTime));
  }

  /** Before the first collection. */
  lemma InitialState(maxTotalMem: Word)
    ensures var s := New(maxTotalMem);
            && s.heapTarget == 45875200 && s.maxTotalMemory == maxTotalMem && s.pendingPages == 0
            && s.oldPauseTime == 10000000 && s.oldMutTime == 1000000000
            && s.oldAllocDiff == 45875200 && s.oldFreedDiff == 45875200 && s.oldHeapSize == 0
            && s.gcStartTime == 0 && s.gcEndTime == 0 && s.mutatorTime == 0 && s.beforeFreeHeapSize == 0
            && s.thrashCounter == 0 && s.thrashing == 0 && s.prevSweepFull
  {
  }

  // The growth curve

  lemma BitLengthIs(x: nat, n: nat)
    requires n > 0 && Pow2(n - 1) <= x < Pow2(n)
    ensures BitLength(x) == n
  {
    BitLengthLeast(x, n);
    BitLengthBounds(x);
    if BitLength(x) < n {
      Pow2Monotone(BitLength(x), n - 1);
    }
  }

  /** For an old size of `n` bits the increment is 4 * 2^(7n/8) and an eighth of the old size. */
  lemma IncrementBySize(oldVal: Word, n: nat)
    requires if oldVal == 0 then n == 0 else n > 0 && Pow2(n - 1) <= oldVal < Pow2(n)
    ensures Increment(oldVal) == 4 * Pow2(7 * n / 8) + oldVal / 8
  {
    if n > 0 {
      BitLengthIs(oldVal, n);
    }
    assert BitLength(oldVal) * 7 == 7 * n;
  }

  /** The result is the increment, unless the sum passes the maximum: then it is the increment or a twentieth of
    the maximum, whichever is less. So it is never below both. */
  lemma OverallocationIs(oldVal: Word, val: Word, maxVal: Word)
    ensures var r, inc := Overallocate(oldVal, val, maxVal), Increment(oldVal);
            && (inc + val <= maxVal ==> r == inc)
            && (maxVal < inc + val < WORD_VALUES ==> r == if inc < maxVal / 20 then inc else maxVal / 20)
            && (inc + val >= WORD_VALUES ==>
                  r == if inc + val - WORD_VALUES > maxVal && inc > maxVal / 20 then maxVal / 20 else inc)
            && (r >= inc || r >= maxVal / 20)
  {
  }
}
